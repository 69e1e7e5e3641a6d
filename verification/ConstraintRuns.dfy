/** Constraints over whole runs: statements, imports, schema changes, commits and rollbacks. */
module ConstraintRuns {
  import opened Seqs
  import opened Keys
  import opened Tables
  import opened Constraints
  import opened LabelText

  /** The data and the constraints defined on it; both are transactional. */
  datatype Store = Store(t: Tables, cons: seq<Constraint>)

  /** The write transaction; `broken` if a statement of it failed half-way and was not rolled back. */
  datatype Work = Work(s: Store, broken: bool)

  datatype State = State(committed: Store, tx: Option<Work>)

  datatype Step =
    | Begin
    | Statement(after: Tables, nodes: seq<int>, rels: seq<int>)
    | FailHalfway(after: Tables)
    | Import(after: Tables, nodes: seq<int>, rels: seq<int>)
    | AddConstraint(c: Constraint)
    | DropConstraint(i: nat)
    | Commit
    | Rollback

  ghost predicate Holding(s: Store) {
    AllHold(s.cons, s.t)
  }

  /** A statement or import succeeds only if the touched entities keep all constraints, since the
      check lets nothing else pass; a new constraint is recorded only if the stored data satisfies it. */
  ghost predicate Enabled(s: State, step: Step) {
    match step
    case Begin => s.tx.None?
    case Statement(after, nodes, rels) => s.tx.Some? && Accepted(s.tx.value.s, after, nodes, rels)
    case Import(after, nodes, rels) => s.tx.Some? && Accepted(s.tx.value.s, after, nodes, rels)
    case FailHalfway(_) => s.tx.Some?
    case AddConstraint(c) => s.tx.Some? && Holds(c, s.tx.value.s.t)
    case DropConstraint(i) => s.tx.Some? && i < |s.tx.value.s.cons|
    case Commit => s.tx.Some?
    case Rollback => s.tx.Some?
  }

  ghost predicate Accepted(s: Store, after: Tables, nodes: seq<int>, rels: seq<int>) {
    && StoredValid(after) && OnlyTouched(s.t, after, nodes, rels)
    && AllKeep(s.cons, after, true, nodes) && AllKeep(s.cons, after, false, rels)
  }

  ghost function Next(s: State, step: Step): State
    requires Enabled(s, step)
  {
    match step
    case Begin => s.(tx := Some(Work(s.committed, false)))
    case Statement(after, _, _) => s.(tx := Some(s.tx.value.(s := s.tx.value.s.(t := after))))
    case Import(after, _, _) => s.(tx := Some(s.tx.value.(s := s.tx.value.s.(t := after))))
    case FailHalfway(after) => s.(tx := Some(Work(s.tx.value.s.(t := after), true)))
    case AddConstraint(c) => s.(tx := Some(s.tx.value.(s := s.tx.value.s.(cons := s.tx.value.s.cons + [c]))))
    case DropConstraint(i) =>
      var cons := s.tx.value.s.cons;
      s.(tx := Some(s.tx.value.(s := s.tx.value.s.(cons := cons[..i] + cons[i + 1..]))))
    case Commit => State(s.tx.value.s, None)
    case Rollback => s.(tx := None)
  }

  /** A transaction with a failed statement is rolled back, not committed. */
  ghost predicate Clean(s: State, step: Step) {
    step.Commit? && s.tx.Some? ==> !s.tx.value.broken
  }

  ghost predicate Runs(s: State, steps: seq<Step>)
    decreases |steps|
  {
    steps == [] || (Enabled(s, steps[0]) && Runs(Next(s, steps[0]), steps[1..]))
  }

  ghost predicate CleanRun(s: State, steps: seq<Step>)
    requires Runs(s, steps)
    decreases |steps|
  {
    steps == [] || (Clean(s, steps[0]) && CleanRun(Next(s, steps[0]), steps[1..]))
  }

  ghost function End(s: State, steps: seq<Step>): State
    requires Runs(s, steps)
    decreases |steps|
  {
    if steps == [] then s else End(Next(s, steps[0]), steps[1..])
  }

  ghost predicate Inv(s: State) {
    && Holding(s.committed)
    && (s.tx.Some? && !s.tx.value.broken ==> Holding(s.tx.value.s))
  }

  lemma AcceptedHolds(s: Store, after: Tables, nodes: seq<int>, rels: seq<int>)
    requires Holding(s) && Accepted(s, after, nodes, rels)
    ensures Holding(s.(t := after))
  {
    hide AllHold, StoredValid, OnlyTouched, AllKeep;
    TouchedSuffices(s.t, after, s.cons, nodes, rels);
  }

  lemma InvStep(s: State, step: Step)
    requires Inv(s) && Enabled(s, step) && Clean(s, step)
    ensures Inv(Next(s, step))
  {
    hide Holds, Accepted;
    if (step.Statement? || step.Import?) && !s.tx.value.broken {
      AcceptedHolds(s.tx.value.s, step.after, step.nodes, step.rels);
    }
  }

  lemma {:induction false} InvRun(s: State, steps: seq<Step>)
    requires Inv(s) && Runs(s, steps) && CleanRun(s, steps)
    ensures Inv(End(s, steps))
    decreases |steps|
  {
    if steps != [] {
      hide Inv, Next, Enabled, Clean;
      InvStep(s, steps[0]);
      InvRun(Next(s, steps[0]), steps[1..]);
    }
  }

  /** Every constraint defined holds for every stored entity, in every committed state. */
  lemma ConstraintsAlwaysHold(start: Store, steps: seq<Step>)
    requires Holding(start) && Runs(State(start, None), steps) && CleanRun(State(start, None), steps)
    ensures var s := End(State(start, None), steps).committed;
      && Holding(s)
      && forall k, id :: 0 <= k < |s.cons| && Concerns(s.cons[k], s.t, id) ==> Right(s.cons[k], s.t, id)
  {
    hide AllHold, Concerns, Right;
    InvRun(State(start, None), steps);
    var s := End(State(start, None), steps).committed;
    AllRight(s.cons, s.t);
  }

  lemma BareNode(c: Constraint, t: Tables)
    requires c == Constraint(Existence, true, "L", ["k"]) && t.nodes == map[0 := NodeRow("L", map[])]
    ensures !Holds(c, t)
  {
    SplitHead("L", "");
    var es := Entities(t, true);
    assert Subject(c, es[0]);
    assert c.props[0] !in es[0].props;
  }

  /** Committing a transaction in which a statement failed half-way can break a constraint for good. */
  lemma BrokenCommit() returns (start: Store, steps: seq<Step>)
    ensures Holding(start) && Runs(State(start, None), steps) && !CleanRun(State(start, None), steps)
    ensures !Holding(End(State(start, None), steps).committed)
  {
    var c := Constraint(Existence, true, "L", ["k"]);
    var empty := Tables(map[], map[], {}, 0, 0);
    var bad := Tables(map[0 := NodeRow("L", map[])], map[], {(0, "L")}, 1, 0);
    start := Store(empty, [c]);
    var s0 := State(start, None);
    var s1 := Next(s0, Begin);
    var s2 := Next(s1, FailHalfway(bad));
    var s3 := Next(s2, Commit);
    var last := [Commit];
    assert last[1..] == [];
    var two := [FailHalfway(bad), Commit];
    assert two[1..] == last;
    steps := [Begin, FailHalfway(bad), Commit];
    assert steps[1..] == two;
    assert Runs(s2, last) && End(s2, last) == s3 && !CleanRun(s2, last);
    assert Runs(s1, two) && End(s1, two) == s3 && !CleanRun(s1, two);
    assert Runs(s0, steps) && End(s0, steps) == s3;
    BareNode(c, bad);
    assert s3.committed.cons[0] == c;
  }
}
