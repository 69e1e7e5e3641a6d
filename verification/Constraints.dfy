/** Schema constraints: what they mean for the tables, and the checks that keep them. */
module Constraints {
  import opened Seqs
  import opened Keys
  import opened Tables
  import opened NetCounts
  import opened StatementView
  import Decimals
  import Exprs
  import JsonText
  import opened LabelText

  /** `TypeOf` carries the test of the declared value types. */
  datatype Kind = Existence | NodeKey | Unique | TypeOf(fits: Value -> bool)

  datatype Constraint = Constraint(kind: Kind, onNodes: bool, target: string, props: seq<string>)

  /** A node with its labels or a relationship with its type. */
  datatype Entity = Entity(labels: seq<string>, props: Props)

  function Entities(t: Tables, onNodes: bool): map<int, Entity> {
    if onNodes then map id | id in t.nodes :: Entity(LabelsOf(t, id), t.nodes[id].props)
    else map e | e in t.edges :: Entity([t.edges[e].typ], t.edges[e].props)
  }

  predicate Subject(c: Constraint, ent: Entity) {
    c.target in ent.labels
  }

  /** `checkOne`: what concerns a single entity. */
  predicate CheckOne(c: Constraint, props: Props) {
    match c.kind
    case Existence => forall i :: 0 <= i < |c.props| ==> c.props[i] in props
    case NodeKey => forall i :: 0 <= i < |c.props| ==> c.props[i] in props
    case TypeOf(fits) => c.props != [] && c.props[0] in props ==> fits(props[c.props[0]])
    case Unique => true
  }

  predicate Compares(c: Constraint) {
    c.kind.NodeKey? || c.kind.Unique?
  }

  /** `tupleOf`: None if a constrained property is missing, which never conflicts. */
  function TupleOf(c: Constraint, props: Props): Option<seq<Value>> {
    if forall i :: 0 <= i < |c.props| ==> c.props[i] in props
    then Some(seq(|c.props|, i requires 0 <= i < |c.props| && c.props[i] in props => props[c.props[i]]))
    else None
  }

  predicate SameTuple(a: seq<Value>, b: seq<Value>) {
    |a| == |b| && forall i :: 0 <= i < |a| ==> Equiv(a[i], b[i])
  }

  /** Two entities that a key or uniqueness constraint tells apart have the same values. */
  predicate Clash(c: Constraint, a: Entity, b: Entity) {
    && Subject(c, a) && Subject(c, b)
    && TupleOf(c, a.props).Some? && TupleOf(c, b.props).Some?
    && SameTuple(TupleOf(c, a.props).value, TupleOf(c, b.props).value)
  }

  /** The meaning of a constraint. */
  ghost predicate Holds(c: Constraint, t: Tables) {
    var es := Entities(t, c.onNodes);
    && (forall id :: id in es && Subject(c, es[id]) ==> CheckOne(c, es[id].props))
    && (Compares(c) ==> forall i, j :: i in es && j in es && i != j ==> !Clash(c, es[i], es[j]))
  }

  ghost predicate AllHold(cons: seq<Constraint>, t: Tables) {
    forall k :: 0 <= k < |cons| ==> Holds(cons[k], t)
  }

  ghost predicate StoredValid(t: Tables) {
    && (forall id, k :: id in t.nodes && k in t.nodes[id].props ==> Valid(t.nodes[id].props[k]))
    && (forall e, k :: e in t.edges && k in t.edges[e].props ==> Valid(t.edges[e].props[k]))
  }

  ghost predicate EntValid(ent: Entity) {
    forall k :: k in ent.props ==> Valid(ent.props[k])
  }

  lemma EntitiesValid(t: Tables, onNodes: bool)
    requires StoredValid(t)
    ensures forall id :: id in Entities(t, onNodes) ==> EntValid(Entities(t, onNodes)[id])
  {
  }

  // ------------------------------------------------- read off the tables

  /** A node with the label or a relationship of the type. */
  ghost predicate Concerns(c: Constraint, t: Tables, id: int) {
    if c.onNodes then id in t.nodes && c.target in Split(t.nodes[id].labels)
    else id in t.edges && t.edges[id].typ == c.target
  }

  ghost function PropsAt(c: Constraint, t: Tables, id: int): Props
    requires Concerns(c, t, id)
  {
    if c.onNodes then t.nodes[id].props else t.edges[id].props
  }

  /** An existence or key constraint wants every constrained property, a type constraint only
      values of the type. */
  ghost predicate Wants(c: Constraint, props: Props) {
    && (c.kind.Existence? || c.kind.NodeKey? ==> forall p :: p in c.props ==> p in props)
    && (c.kind.TypeOf? && c.props != [] ==> c.props[0] in props ==> c.kind.fits(props[c.props[0]]))
  }

  /** Equal values in all constrained properties. */
  ghost predicate Alike(c: Constraint, a: Props, b: Props) {
    forall p :: p in c.props ==> p in a && p in b && Equiv(a[p], b[p])
  }

  /** What the constraint says about one entity: that it is right on its own and, for a key or
      uniqueness constraint, that no other has its values. */
  ghost predicate Right(c: Constraint, t: Tables, id: int)
    requires Concerns(c, t, id)
  {
    && Wants(c, PropsAt(c, t, id))
    && (c.kind.NodeKey? || c.kind.Unique? ==>
      forall o :: o != id && Concerns(c, t, o) ==> !Alike(c, PropsAt(c, t, id), PropsAt(c, t, o)))
  }

  lemma CheckOneMeans(c: Constraint, props: Props)
    ensures CheckOne(c, props) <==> Wants(c, props)
  {
    if forall i :: 0 <= i < |c.props| ==> c.props[i] in props {
      assert forall p :: p in c.props ==> p in props;
    }
    if forall p :: p in c.props ==> p in props {
      assert forall i :: 0 <= i < |c.props| ==> c.props[i] in c.props;
    }
  }

  lemma SameTupleMeans(c: Constraint, a: Props, b: Props)
    ensures Alike(c, a, b) <==>
      TupleOf(c, a).Some? && TupleOf(c, b).Some? && SameTuple(TupleOf(c, a).value, TupleOf(c, b).value)
  {
    hide Equiv;
    if Alike(c, a, b) {
      assert forall i :: 0 <= i < |c.props| ==> c.props[i] in c.props;
    }
    if TupleOf(c, a).Some? && TupleOf(c, b).Some? && SameTuple(TupleOf(c, a).value, TupleOf(c, b).value) {
      forall p | p in c.props
        ensures p in a && p in b && Equiv(a[p], b[p])
      {
        var i :| 0 <= i < |c.props| && c.props[i] == p;
        assert Equiv(TupleOf(c, a).value[i], TupleOf(c, b).value[i]);
      }
    }
  }

  lemma EntityMeans(c: Constraint, t: Tables, id: int)
    ensures Concerns(c, t, id) <==> id in Entities(t, c.onNodes) && Subject(c, Entities(t, c.onNodes)[id])
    ensures Concerns(c, t, id) ==> PropsAt(c, t, id) == Entities(t, c.onNodes)[id].props
  {
    hide Split;
  }

  lemma KeepsMeans(c: Constraint, t: Tables, id: int)
    requires id in Entities(t, c.onNodes)
    ensures Keeps(c, t, id) <==> (Concerns(c, t, id) ==> Right(c, t, id))
  {
    hide Equiv, Split, Concerns, Entities, PropsAt, Alike, TupleOf, SameTuple, CheckOne, Wants, Subject;
    var es := Entities(t, c.onNodes);
    EntityMeans(c, t, id);
    CheckOneMeans(c, es[id].props);
    forall o
      ensures Concerns(c, t, o) <==> o in es && Subject(c, es[o])
      ensures Concerns(c, t, o) ==> PropsAt(c, t, o) == es[o].props
      ensures o in es ==>
        (Alike(c, es[id].props, es[o].props) <==>
          TupleOf(c, es[id].props).Some? && TupleOf(c, es[o].props).Some?
          && SameTuple(TupleOf(c, es[id].props).value, TupleOf(c, es[o].props).value))
    {
      EntityMeans(c, t, o);
      if o in es {
        SameTupleMeans(c, es[id].props, es[o].props);
      }
    }
  }

  /** A constraint holds exactly if every entity it concerns is right. */
  lemma HoldsMeans(c: Constraint, t: Tables)
    ensures Holds(c, t) <==> forall id :: Concerns(c, t, id) ==> Right(c, t, id)
  {
    hide Concerns, Right, CheckOne, Clash, Entities, Subject;
    var es := Entities(t, c.onNodes);
    forall id
      ensures Concerns(c, t, id) ==> id in es
      ensures id in es ==> (Keeps(c, t, id) <==> (Concerns(c, t, id) ==> Right(c, t, id)))
    {
      EntityMeans(c, t, id);
      if id in es {
        KeepsMeans(c, t, id);
      }
    }
    HoldsKeeps(c, t);
    hide Keeps;
  }

  lemma HoldsKeeps(c: Constraint, t: Tables)
    ensures Holds(c, t) <==> forall id :: id in Entities(t, c.onNodes) ==> Keeps(c, t, id)
  {
    hide CheckOne, Entities, Equiv, TupleOf, SameTuple;
  }

  // ------------------------------------------------------------ duplicates

  /** How floats, and points and vectors, are written in stored JSON. */
  datatype Writer = Writer(float: Float -> string, spatial: Value -> string)

  function JsonItems(w: Writer, vals: seq<Value>): string
    decreases vals, 1
  {
    if vals == [] then "]"
    else (JsonOf(w, vals[0]) + if |vals| == 1 then "" else ",") + JsonItems(w, vals[1..])
  }

  /** The JSON text of a stored value. */
  function JsonOf(w: Writer, v: Value): string
    decreases v, 0
  {
    match v
    case Bool(b) => if b then "true" else "false"
    case Int(n) => Decimals.Itoa(n)
    case Flt(f) => w.float(f)
    case Str(s) => JsonText.Quote(s)
    case List(vals) => "[" + JsonItems(w, vals)
    case Temporal(k, text) => "{\"$t\":" + Decimals.Itoa(k) + ",\"v\":" + JsonText.Quote(text) + "}"
    case _ => w.spatial(v)
  }

  /** What SQLite's `json_extract` makes of a stored value: booleans become 0 and 1, lists and
      objects their JSON text. */
  datatype Image = NumImage(f: Float) | TextImage(s: string) | NoImage

  function SqlImage(w: Writer, v: Value): Image {
    match v
    case Bool(b) => NumImage(Whole(if b then 1 else 0))
    case Int(n) => NumImage(Whole(n))
    case Flt(f) => NumImage(f)
    case Str(s) => TextImage(s)
    case List(_) => TextImage(JsonOf(w, v))
    case Temporal(_, _) => TextImage(JsonOf(w, v))
    case Point(_) => TextImage(JsonOf(w, v))
    case Vector(_) => TextImage(JsonOf(w, v))
    case _ => NoImage
  }

  /** Values that are compared in SQL. */
  predicate SqlScalar(v: Value) {
    v.Str? || v.Int? || v.Flt?
  }

  /** The stored value has another type and the same image. */
  predicate Disguised(w: Writer, p: Value, v: Value) {
    || (v.Bool? && Number(p) == Some(Whole(if v.b then 1 else 0)))
    || ((v.List? || v.Temporal? || v.Point? || v.Vector?) && p == Str(JsonOf(w, v)))
  }

  /** SQL equality is coarser than Cypher's, by exactly the disguised values. */
  lemma SqlCoarser(w: Writer, p: Value, v: Value)
    requires SqlScalar(p)
    ensures SqlImage(w, p) == SqlImage(w, v) <==> Equiv(p, v) || Disguised(w, p, v)
    ensures !(Equiv(p, v) && Disguised(w, p, v))
  {
    hide JsonOf;
  }

  predicate Pushed(c: Constraint, tuple: seq<Value>, i: nat)
    requires |tuple| == |c.props| && i < |c.props|
  {
    SqlScalar(tuple[i]) && Exprs.PushableKey(c.props[i])
  }

  predicate SamePart(c: Constraint, tuple: seq<Value>, props: Props, i: nat)
    requires |tuple| == |c.props| && i < |c.props|
  {
    c.props[i] in props && Equiv(tuple[i], props[c.props[i]])
  }

  predicate SqlPart(w: Writer, c: Constraint, tuple: seq<Value>, props: Props, i: nat)
    requires |tuple| == |c.props| && i < |c.props|
  {
    c.props[i] in props && SqlImage(w, tuple[i]) == SqlImage(w, props[c.props[i]])
  }

  /** The rows the query of `findDuplicate` returns. */
  predicate Selected(w: Writer, c: Constraint, id: int, tuple: seq<Value>, other: int, ent: Entity)
    requires |tuple| == |c.props|
  {
    other != id && Subject(c, ent) && forall i :: 0 <= i < |c.props| && Pushed(c, tuple, i) ==> SqlPart(w, c, tuple, ent.props, i)
  }

  /** Every part is compared in SQL, so nothing is checked afterwards. */
  predicate Scalar(c: Constraint, tuple: seq<Value>)
    requires |tuple| == |c.props|
  {
    forall i :: 0 <= i < |c.props| ==> Pushed(c, tuple, i)
  }

  ghost predicate Duplicates(c: Constraint, tuple: seq<Value>, ent: Entity)
    requires |tuple| == |c.props|
  {
    Subject(c, ent) && forall i :: 0 <= i < |c.props| ==> SamePart(c, tuple, ent.props, i)
  }

  lemma DuplicatesIsSame(c: Constraint, tuple: seq<Value>, ent: Entity)
    requires |tuple| == |c.props|
    ensures Duplicates(c, tuple, ent) <==>
      Subject(c, ent) && TupleOf(c, ent.props).Some? && SameTuple(tuple, TupleOf(c, ent.props).value)
  {
    hide Equiv;
    if Subject(c, ent) && TupleOf(c, ent.props).Some? && SameTuple(tuple, TupleOf(c, ent.props).value) {
      forall i | 0 <= i < |c.props|
        ensures SamePart(c, tuple, ent.props, i)
      {
        assert Equiv(tuple[i], TupleOf(c, ent.props).value[i]);
      }
    }
    if Duplicates(c, tuple, ent) {
      forall i | 0 <= i < |c.props|
        ensures c.props[i] in ent.props
      {
        assert SamePart(c, tuple, ent.props, i);
      }
      forall i | 0 <= i < |tuple|
        ensures Equiv(tuple[i], TupleOf(c, ent.props).value[i])
      {
        assert SamePart(c, tuple, ent.props, i);
      }
    }
  }

  /** What `findDuplicate` takes for a duplicate. */
  ghost predicate Refused(w: Writer, c: Constraint, tuple: seq<Value>, ent: Entity)
    requires |tuple| == |c.props|
  {
    && Subject(c, ent)
    && if Scalar(c, tuple) then forall i :: 0 <= i < |c.props| ==> SqlPart(w, c, tuple, ent.props, i)
       else Duplicates(c, tuple, ent)
  }

  /** A duplicate is found by the query, and taken for one. */
  lemma DuplicatesRefused(w: Writer, c: Constraint, id: int, tuple: seq<Value>, other: int, ent: Entity)
    requires |tuple| == |c.props| && other != id && Duplicates(c, tuple, ent)
    ensures Selected(w, c, id, tuple, other, ent) && Refused(w, c, tuple, ent)
  {
    hide Equiv, SqlImage;
    forall i | 0 <= i < |c.props| && Pushed(c, tuple, i)
      ensures SqlPart(w, c, tuple, ent.props, i)
    {
      assert SamePart(c, tuple, ent.props, i);
      SqlCoarser(w, tuple[i], ent.props[c.props[i]]);
    }
  }

  /** `findDuplicate`: rows are compared in SQL, and again by `equals` if any part of the tuple
      could not be. */
  method FindDuplicate(w: Writer, t: Tables, c: Constraint, id: int, tuple: seq<Value>) returns (r: Option<int>)
    requires |tuple| == |c.props|
    ensures r.Some? ==> r.value != id && r.value in Entities(t, c.onNodes) && Refused(w, c, tuple, Entities(t, c.onNodes)[r.value])
    ensures r.None? ==> forall o :: o in Entities(t, c.onNodes) && o != id ==> !Refused(w, c, tuple, Entities(t, c.onNodes)[o])
  {
    hide Equiv, SqlPart, Pushed;
    var es := Entities(t, c.onNodes);
    var scalar := Scalar(c, tuple);
    var todo := es.Keys;
    while todo != {}
      invariant todo <= es.Keys
      invariant forall o :: o in es && o !in todo && o != id ==> !Refused(w, c, tuple, es[o])
      decreases todo
    {
      var o := Pick(todo);
      todo := todo - {o};
      if !Selected(w, c, id, tuple, o, es[o]) {
        if o != id && Duplicates(c, tuple, es[o]) {
          DuplicatesRefused(w, c, id, tuple, o, es[o]);
        }
        continue;
      }
      if scalar {
        return Some(o);
      }
      if forall i :: 0 <= i < |c.props| ==> SamePart(c, tuple, es[o].props, i) {
        return Some(o);
      }
    }
    return None;
  }

  // ---------------------------------------------------------------- checking

  /** The entity keeps the constraint: on its own, and against every other. */
  ghost predicate Keeps(c: Constraint, t: Tables, id: int)
    requires id in Entities(t, c.onNodes)
  {
    var es := Entities(t, c.onNodes);
    Subject(c, es[id]) ==>
      CheckOne(c, es[id].props) && (Compares(c) ==> forall o :: o in es && o != id ==> !Clash(c, es[id], es[o]))
  }

  /** The check lets the entity pass. */
  ghost predicate Passes(w: Writer, c: Constraint, t: Tables, id: int)
    requires id in Entities(t, c.onNodes)
  {
    var es := Entities(t, c.onNodes);
    var tuple := TupleOf(c, es[id].props);
    Subject(c, es[id]) ==>
      && CheckOne(c, es[id].props)
      && (Compares(c) && tuple.Some? ==> forall o :: o in es && o != id ==> !Refused(w, c, tuple.value, es[o]))
  }

  /** The stored value has another type than the one checked and the same image. */
  predicate DisguisedPart(w: Writer, c: Constraint, tuple: seq<Value>, props: Props, i: nat)
    requires |tuple| == |c.props| && i < |c.props|
  {
    c.props[i] in props && Disguised(w, tuple[i], props[c.props[i]])
  }

  /** Every constrained value of `a` is a string or number under a plain name, and `b` holds equal
      values except that some are disguised. */
  ghost predicate Lookalike(w: Writer, c: Constraint, a: Entity, b: Entity) {
    && Compares(c) && Subject(c, a) && Subject(c, b)
    && var tuple := TupleOf(c, a.props);
    && tuple.Some? && Scalar(c, tuple.value)
    && (forall i :: 0 <= i < |c.props| ==> SamePart(c, tuple.value, b.props, i) || DisguisedPart(w, c, tuple.value, b.props, i))
    && exists i :: 0 <= i < |c.props| && DisguisedPart(w, c, tuple.value, b.props, i)
  }

  /** What SQL equality adds to the duplicates are the lookalikes. */
  lemma ScalarRefused(w: Writer, c: Constraint, a: Entity, b: Entity)
    requires Compares(c) && Subject(c, a) && Subject(c, b) && TupleOf(c, a.props).Some? && Scalar(c, TupleOf(c, a.props).value)
    ensures var tuple := TupleOf(c, a.props).value;
      Refused(w, c, tuple, b) <==> Duplicates(c, tuple, b) || Lookalike(w, c, a, b)
  {
    hide Equiv, SqlImage, Disguised, JsonOf;
    var tuple := TupleOf(c, a.props).value;
    forall i | 0 <= i < |c.props|
      ensures SqlPart(w, c, tuple, b.props, i) <==> SamePart(c, tuple, b.props, i) || DisguisedPart(w, c, tuple, b.props, i)
    {
      assert Pushed(c, tuple, i);
      if c.props[i] in b.props {
        SqlCoarser(w, tuple[i], b.props[c.props[i]]);
      }
    }
    hide SqlPart, SamePart, DisguisedPart, Pushed;
  }

  lemma RefusedIff(w: Writer, c: Constraint, t: Tables, id: int, tuple: seq<Value>, o: int)
    requires id in Entities(t, c.onNodes) && Subject(c, Entities(t, c.onNodes)[id]) && Compares(c)
    requires TupleOf(c, Entities(t, c.onNodes)[id].props) == Some(tuple) && o in Entities(t, c.onNodes) && o != id
    ensures |tuple| == |c.props|
    ensures var es := Entities(t, c.onNodes);
      Refused(w, c, tuple, es[o]) <==> Clash(c, es[id], es[o]) || Lookalike(w, c, es[id], es[o])
  {
    hide Clash, Duplicates, SqlPart, Scalar;
    var es := Entities(t, c.onNodes);
    DuplicateIsClash(c, t, id, tuple);
    if Subject(c, es[o]) && Scalar(c, tuple) {
      ScalarRefused(w, c, es[id], es[o]);
    } else if Clash(c, es[id], es[o]) {
      DuplicatesRefused(w, c, id, tuple, o, es[o]);
    }
  }

  /** An entity passes exactly if it keeps the constraint and has no lookalike: what passes is
      right, and what is refused wrongly has a lookalike. */
  lemma PassesIff(w: Writer, c: Constraint, t: Tables, id: int)
    requires id in Entities(t, c.onNodes)
    ensures var es := Entities(t, c.onNodes);
      Passes(w, c, t, id) <==> Keeps(c, t, id) && !exists o :: o in es && o != id && Lookalike(w, c, es[id], es[o])
  {
    hide Entities, CheckOne, Clash, Refused;
    var es := Entities(t, c.onNodes);
    var tuple := TupleOf(c, es[id].props);
    if Subject(c, es[id]) && Compares(c) {
      if tuple.Some? {
        forall o | o in es && o != id
          ensures |tuple.value| == |c.props|
          ensures Refused(w, c, tuple.value, es[o]) <==> Clash(c, es[id], es[o]) || Lookalike(w, c, es[id], es[o])
        {
          RefusedIff(w, c, t, id, tuple.value, o);
        }
        hide Lookalike;
      } else {
        NoTupleNoClash(c, t, id);
      }
    }
  }

  /** A stored `true` keeps a node with 1 out of a unique property, and the list `[1, 2]` a node
      with the string `[1,2]`, although no values are equal. */
  lemma WronglyRefused(w: Writer, c: Constraint)
    requires c == Constraint(Unique, true, "P", ["k"])
    ensures Entangled(w, c, Bool(true), Int(1))
    ensures Entangled(w, c, List([Int(1), Int(2)]), Str("[1,2]"))
  {
    PairText(w);
    hide JsonOf, Entangled;
    EntangledBy(w, c, Bool(true), Int(1));
    EntangledBy(w, c, List([Int(1), Int(2)]), Str("[1,2]"));
  }

  lemma PairText(w: Writer)
    ensures JsonOf(w, List([Int(1), Int(2)])) == "[1,2]"
  {
    var one, two := Int(1), Int(2);
    assert Decimals.Itoa(1) == "1" && Decimals.Itoa(2) == "2";
    assert [one, two][1..] == [two] && [two][1..] == [];
    assert JsonItems(w, [two]) == "2]";
    assert JsonItems(w, [one, two]) == "1,2]";
  }

  /** Two nodes with these values of `k` and nothing else. */
  function TwoNodes(first: Value, second: Value): Tables {
    Tables(map[1 := NodeRow("P", map["k" := first]), 2 := NodeRow("P", map["k" := second])], map[], {(1, "P"), (2, "P")}, 3, 0)
  }

  ghost predicate Entangled(w: Writer, c: Constraint, first: Value, second: Value) {
    var t := TwoNodes(first, second);
    Holds(c, t) && 2 in Entities(t, c.onNodes) && !Passes(w, c, t, 2)
  }

  lemma TwoEntities(first: Value, second: Value)
    ensures Entities(TwoNodes(first, second), true) == map[1 := Entity(["P"], map["k" := first]), 2 := Entity(["P"], map["k" := second])]
  {
    SplitHead("P", "");
  }

  lemma OneTuple(c: Constraint, v: Value)
    requires c == Constraint(Unique, true, "P", ["k"])
    ensures TupleOf(c, map["k" := v]) == Some([v])
  {
    var props := map["k" := v];
    assert forall i :: 0 <= i < |c.props| ==> c.props[i] == "k" && c.props[i] in props;
    var r := TupleOf(c, props);
    assert r.Some? && |r.value| == 1 && r.value[0] == v;
    assert r.value == [v];
  }

  lemma DifferentTuples(first: Value, second: Value)
    requires !Equiv(first, second)
    ensures !SameTuple([first], [second])
  {
    hide Equiv;
    assert !Equiv([first][0], [second][0]);
  }

  lemma PairHolds(c: Constraint, first: Value, second: Value)
    requires c == Constraint(Unique, true, "P", ["k"]) && !Equiv(second, first) && !Equiv(first, second)
    ensures Holds(c, TwoNodes(first, second))
  {
    TwoEntities(first, second);
    OneTuple(c, first);
    OneTuple(c, second);
    DifferentTuples(first, second);
    DifferentTuples(second, first);
    hide Equiv, Entities, TwoNodes, TupleOf, SameTuple;
  }

  lemma PairRefused(w: Writer, c: Constraint, first: Value, second: Value)
    requires c == Constraint(Unique, true, "P", ["k"]) && SqlScalar(second) && SqlImage(w, second) == SqlImage(w, first)
    ensures 2 in Entities(TwoNodes(first, second), true) && !Passes(w, c, TwoNodes(first, second), 2)
  {
    var es := Entities(TwoNodes(first, second), true);
    TwoEntities(first, second);
    OneTuple(c, second);
    hide SqlImage, Entities, TwoNodes, TupleOf;
    assert Exprs.PushableKey("k");
    assert Pushed(c, [second], 0) && SqlPart(w, c, [second], es[1].props, 0);
    assert Refused(w, c, [second], es[1]);
  }

  lemma EntangledBy(w: Writer, c: Constraint, first: Value, second: Value)
    requires c == Constraint(Unique, true, "P", ["k"]) && SqlScalar(second)
    requires SqlImage(w, second) == SqlImage(w, first) && !Equiv(second, first) && !Equiv(first, second)
    ensures Entangled(w, c, first, second)
  {
    hide SqlImage, Equiv, Holds, Passes, TwoNodes, Entities;
    PairHolds(c, first, second);
    PairRefused(w, c, first, second);
  }

  /** One entity against every constraint that concerns it. */
  method CheckEntity(w: Writer, t: Tables, cons: seq<Constraint>, onNodes: bool, id: int) returns (ok: bool)
    requires id in Entities(t, onNodes)
    ensures ok <==> forall k :: 0 <= k < |cons| && cons[k].onNodes == onNodes ==> Passes(w, cons[k], t, id)
  {
    hide CheckOne, Refused;
    var ent := Entities(t, onNodes)[id];
    for k := 0 to |cons|
      invariant forall j :: 0 <= j < k && cons[j].onNodes == onNodes ==> Passes(w, cons[j], t, id)
    {
      var c := cons[k];
      if c.onNodes != onNodes || !Subject(c, ent) {
        continue;
      }
      if !CheckOne(c, ent.props) {
        assert !Passes(w, c, t, id);
        return false;
      }
      if Compares(c) {
        var tuple := TupleOf(c, ent.props);
        if tuple.None? {
          continue;
        }
        var other := FindDuplicate(w, t, c, id, tuple.value);
        if other.Some? {
          assert !Passes(w, c, t, id);
          return false;
        }
      }
    }
    return true;
  }

  lemma NoTupleNoClash(c: Constraint, t: Tables, id: int)
    requires id in Entities(t, c.onNodes) && TupleOf(c, Entities(t, c.onNodes)[id].props).None?
    ensures forall o :: o in Entities(t, c.onNodes) ==> !Clash(c, Entities(t, c.onNodes)[id], Entities(t, c.onNodes)[o])
  {
  }

  lemma DuplicateIsClash(c: Constraint, t: Tables, id: int, tuple: seq<Value>)
    requires id in Entities(t, c.onNodes) && Subject(c, Entities(t, c.onNodes)[id])
    requires TupleOf(c, Entities(t, c.onNodes)[id].props) == Some(tuple)
    ensures |tuple| == |c.props|
    ensures forall o :: o in Entities(t, c.onNodes) ==>
      (Duplicates(c, tuple, Entities(t, c.onNodes)[o]) <==> Clash(c, Entities(t, c.onNodes)[id], Entities(t, c.onNodes)[o]))
  {
    hide Equiv, SameTuple, Duplicates;
    forall o | o in Entities(t, c.onNodes)
      ensures Duplicates(c, tuple, Entities(t, c.onNodes)[o]) <==> Clash(c, Entities(t, c.onNodes)[id], Entities(t, c.onNodes)[o])
    {
      DuplicatesIsSame(c, tuple, Entities(t, c.onNodes)[o]);
    }
  }

  /** The listed entities keep all constraints of their kind. */
  ghost predicate AllKeep(cons: seq<Constraint>, t: Tables, onNodes: bool, ids: seq<int>) {
    forall i, k :: 0 <= i < |ids| && 0 <= k < |cons| && ids[i] in Entities(t, onNodes) && cons[k].onNodes == onNodes ==>
      Keeps(cons[k], t, ids[i])
  }

  /** The check lets the listed entities pass. */
  ghost predicate AllPass(w: Writer, cons: seq<Constraint>, t: Tables, onNodes: bool, ids: seq<int>) {
    forall i, k :: 0 <= i < |ids| && 0 <= k < |cons| && ids[i] in Entities(t, onNodes) && cons[k].onNodes == onNodes ==>
      Passes(w, cons[k], t, ids[i])
  }

  /** No listed entity has a lookalike under any constraint. */
  ghost predicate NoLookalikes(w: Writer, cons: seq<Constraint>, t: Tables, onNodes: bool, ids: seq<int>) {
    forall i, k :: 0 <= i < |ids| && 0 <= k < |cons| && ids[i] in Entities(t, onNodes) && cons[k].onNodes == onNodes ==>
      Alone(w, cons[k], t, ids[i])
  }

  ghost predicate Alone(w: Writer, c: Constraint, t: Tables, id: int)
    requires id in Entities(t, c.onNodes)
  {
    forall o :: o in Entities(t, c.onNodes) && o != id ==> !Lookalike(w, c, Entities(t, c.onNodes)[id], Entities(t, c.onNodes)[o])
  }

  lemma AllPassIff(w: Writer, cons: seq<Constraint>, t: Tables, onNodes: bool, ids: seq<int>)
    ensures AllPass(w, cons, t, onNodes, ids) <==> AllKeep(cons, t, onNodes, ids) && NoLookalikes(w, cons, t, onNodes, ids)
  {
    hide Entities, Lookalike, Passes, Keeps;
    forall i, k | 0 <= i < |ids| && 0 <= k < |cons| && ids[i] in Entities(t, onNodes) && cons[k].onNodes == onNodes
      ensures Passes(w, cons[k], t, ids[i]) <==> Keeps(cons[k], t, ids[i]) && Alone(w, cons[k], t, ids[i])
    {
      PassesIff(w, cons[k], t, ids[i]);
    }
    hide Alone;
  }

  /** `checkConstraints` on the touched entities that are still there. */
  method CheckConstraints(w: Writer, t: Tables, cons: seq<Constraint>, nodes: seq<int>, rels: seq<int>) returns (ok: bool)
    ensures ok <==> AllPass(w, cons, t, true, nodes) && AllPass(w, cons, t, false, rels)
    ensures ok ==> forall k, id :: 0 <= k < |cons| && id in (if cons[k].onNodes then nodes else rels) && Concerns(cons[k], t, id) ==>
      Right(cons[k], t, id)
  {
    hide Passes, Entities, Concerns, Right;
    for i := 0 to |nodes|
      invariant AllPass(w, cons, t, true, nodes[..i])
    {
      assert nodes[..i + 1] == nodes[..i] + [nodes[i]];
      if nodes[i] in Entities(t, true) {
        var fine := CheckEntity(w, t, cons, true, nodes[i]);
        if !fine {
          return false;
        }
      }
    }
    assert nodes[..|nodes|] == nodes;
    for i := 0 to |rels|
      invariant AllPass(w, cons, t, false, rels[..i])
    {
      assert rels[..i + 1] == rels[..i] + [rels[i]];
      if rels[i] in Entities(t, false) {
        var fine := CheckEntity(w, t, cons, false, rels[i]);
        if !fine {
          return false;
        }
      }
    }
    assert rels[..|rels|] == rels;
    PassedRight(w, t, cons, nodes, rels);
    return true;
  }

  lemma PassedRight(w: Writer, t: Tables, cons: seq<Constraint>, nodes: seq<int>, rels: seq<int>)
    requires AllPass(w, cons, t, true, nodes) && AllPass(w, cons, t, false, rels)
    ensures forall k, id :: 0 <= k < |cons| && id in (if cons[k].onNodes then nodes else rels) && Concerns(cons[k], t, id) ==>
      Right(cons[k], t, id)
  {
    hide Passes, Keeps, Entities, Concerns, Right, Lookalike;
    forall k, id | 0 <= k < |cons| && id in (if cons[k].onNodes then nodes else rels) && Concerns(cons[k], t, id)
      ensures Right(cons[k], t, id)
    {
      EntityMeans(cons[k], t, id);
      var ids := if cons[k].onNodes then nodes else rels;
      var i :| 0 <= i < |ids| && ids[i] == id;
      PassesIff(w, cons[k], t, id);
      KeepsMeans(cons[k], t, id);
    }
  }

  /** Entities that are not listed are as they were. */
  ghost predicate OnlyTouched(base: Tables, t: Tables, nodes: seq<int>, rels: seq<int>) {
    && (forall id :: id in t.nodes && id !in nodes ==> id in base.nodes && base.nodes[id] == t.nodes[id])
    && (forall e :: e in t.edges && e !in rels ==> e in base.edges && base.edges[e] == t.edges[e])
  }

  lemma UntouchedEntity(base: Tables, t: Tables, nodes: seq<int>, rels: seq<int>, onNodes: bool, id: int)
    requires OnlyTouched(base, t, nodes, rels) && id in Entities(t, onNodes) && id !in (if onNodes then nodes else rels)
    ensures id in Entities(base, onNodes) && Entities(base, onNodes)[id] == Entities(t, onNodes)[id]
  {
  }

  /** Checking the touched entities is enough, and rejects nothing that would have been all right. */
  lemma TouchedSuffices(base: Tables, t: Tables, cons: seq<Constraint>, nodes: seq<int>, rels: seq<int>)
    requires AllHold(cons, base) && OnlyTouched(base, t, nodes, rels) && StoredValid(t)
    ensures AllHold(cons, t) <==> AllKeep(cons, t, true, nodes) && AllKeep(cons, t, false, rels)
  {
    hide Entities, CheckOne, Clash;
    if AllKeep(cons, t, true, nodes) && AllKeep(cons, t, false, rels) {
      forall k | 0 <= k < |cons|
        ensures Holds(cons[k], t)
      {
        TouchedHolds(base, t, cons, nodes, rels, k);
      }
    }
  }

  lemma TouchedHolds(base: Tables, t: Tables, cons: seq<Constraint>, nodes: seq<int>, rels: seq<int>, k: nat)
    requires AllHold(cons, base) && OnlyTouched(base, t, nodes, rels) && StoredValid(t) && k < |cons|
    requires AllKeep(cons, t, true, nodes) && AllKeep(cons, t, false, rels)
    ensures Holds(cons[k], t)
  {
    hide Entities, CheckOne, Clash, OnlyTouched;
    var c := cons[k];
    assert Holds(c, base);
    var es, touched := Entities(t, c.onNodes), if c.onNodes then nodes else rels;
    forall id | id in es && Subject(c, es[id])
      ensures CheckOne(c, es[id].props)
    {
      if id in touched {
        TouchedKeeps(t, cons, c.onNodes, touched, id, k);
      } else {
        UntouchedEntity(base, t, nodes, rels, c.onNodes, id);
      }
    }
    if Compares(c) {
      forall i, j | i in es && j in es && i != j
        ensures !Clash(c, es[i], es[j])
      {
        if i in touched {
          TouchedKeeps(t, cons, c.onNodes, touched, i, k);
          if Clash(c, es[i], es[j]) {
            ClashKeepsNot(c, t, i, j);
          }
        } else if j in touched {
          TouchedKeeps(t, cons, c.onNodes, touched, j, k);
          if Clash(c, es[i], es[j]) {
            EntitiesValid(t, c.onNodes);
            ClashSymmetric(c, es[i], es[j]);
            ClashKeepsNot(c, t, j, i);
          }
        } else {
          UntouchedEntity(base, t, nodes, rels, c.onNodes, i);
          UntouchedEntity(base, t, nodes, rels, c.onNodes, j);
        }
      }
    }
  }

  lemma ClashKeepsNot(c: Constraint, t: Tables, i: int, j: int)
    requires i in Entities(t, c.onNodes) && j in Entities(t, c.onNodes) && i != j && Compares(c)
    requires Clash(c, Entities(t, c.onNodes)[i], Entities(t, c.onNodes)[j])
    ensures !Keeps(c, t, i)
  {
  }

  lemma TouchedKeeps(t: Tables, cons: seq<Constraint>, onNodes: bool, touched: seq<int>, id: int, k: nat)
    requires AllKeep(cons, t, onNodes, touched) && id in touched && id in Entities(t, onNodes) && k < |cons| && cons[k].onNodes == onNodes
    ensures Keeps(cons[k], t, id)
  {
    var i :| 0 <= i < |touched| && touched[i] == id;
  }

  lemma ClashSymmetric(c: Constraint, a: Entity, b: Entity)
    requires EntValid(a) && EntValid(b) && Clash(c, a, b)
    ensures Clash(c, b, a)
  {
    hide Equiv, Valid;
    var s, u := TupleOf(c, a.props).value, TupleOf(c, b.props).value;
    forall i | 0 <= i < |s|
      ensures Equiv(u[i], s[i])
    {
      assert Equiv(s[i], u[i]);
      EquivIsEquivalence(s[i], u[i], s[i]);
    }
  }

  /** Between the tables a statement began with and those it leaves, only created and changed
      entities differ. */
  lemma StatementTouches(v: View, nodes: seq<int>, rels: seq<int>)
    requires Inv(v)
    requires forall id :: id in v.createdNodes || id in v.nodeSnap ==> id in nodes
    requires forall e :: e in v.createdRels || e in v.relSnap ==> e in rels
    ensures OnlyTouched(v.base, Purged(v.t, v.delNodes, v.delRels), nodes, rels)
  {
    hide Inv, Purged;
    var u := Purged(v.t, v.delNodes, v.delRels);
    forall id | id in u.nodes && id !in nodes
      ensures id in v.base.nodes && v.base.nodes[id] == u.nodes[id]
    {
      PurgedGone(v.t, v.delNodes, v.delRels, id);
      EndedUntouched(v, id);
    }
    forall e | e in u.edges && e !in rels
      ensures e in v.base.edges && v.base.edges[e] == u.edges[e]
    {
      PurgedGone(v.t, v.delNodes, v.delRels, e);
      EndedUntouchedRels(v, e);
    }
  }

  lemma PurgedGone(t: Tables, delNodes: seq<int>, delRels: seq<int>, x: int)
    ensures x in Purged(t, delNodes, delRels).nodes ==> x !in delNodes
    ensures x in Purged(t, delNodes, delRels).edges ==> x !in delRels
  {
  }

  /** The check at the end of a statement: if all constraints held when it began, it passes exactly
      if they hold for what it leaves and no created or changed entity has a lookalike. */
  method CheckStatement(w: Writer, view: GraphView, ghost v: View, cons: seq<Constraint>, nodes: seq<int>, rels: seq<int>) returns (ok: bool)
    requires Inv(v) && view.t == Purged(v.t, v.delNodes, v.delRels) && StoredValid(view.t)
    requires forall id :: id in v.createdNodes || id in v.nodeSnap ==> id in nodes
    requires forall e :: e in v.createdRels || e in v.relSnap ==> e in rels
    ensures AllHold(cons, v.base) ==>
      (ok <==> AllHold(cons, view.t) && NoLookalikes(w, cons, view.t, true, nodes) && NoLookalikes(w, cons, view.t, false, rels))
    ensures AllHold(cons, v.base) && ok ==> forall k, id :: 0 <= k < |cons| && Concerns(cons[k], view.t, id) ==> Right(cons[k], view.t, id)
  {
    hide Concerns, Right, Inv, AllHold, AllKeep, AllPass, NoLookalikes, Purged, StoredValid, OnlyTouched;
    ok := CheckConstraints(w, view.t, cons, nodes, rels);
    AllPassIff(w, cons, view.t, true, nodes);
    AllPassIff(w, cons, view.t, false, rels);
    StatementTouches(v, nodes, rels);
    if AllHold(cons, v.base) {
      TouchedSuffices(v.base, view.t, cons, nodes, rels);
      if ok {
        AllRight(cons, view.t);
      }
    }
  }

  lemma AllRight(cons: seq<Constraint>, t: Tables)
    requires AllHold(cons, t)
    ensures forall k, id :: 0 <= k < |cons| && Concerns(cons[k], t, id) ==> Right(cons[k], t, id)
  {
    hide Holds, Concerns, Right;
    forall k | 0 <= k < |cons|
      ensures forall id :: Concerns(cons[k], t, id) ==> Right(cons[k], t, id)
    {
      HoldsMeans(cons[k], t);
    }
  }

  // ------------------------------------------------------- new constraints

  /** The subjects of a constraint in id order, as `scanNodes` and `allRels` return them. */
  ghost predicate Scanned(c: Constraint, t: Tables, ids: seq<int>) {
    && Ascending(ids)
    && forall id :: id in ids <==> id in Entities(t, c.onNodes) && Subject(c, Entities(t, c.onNodes)[id])
  }

  /** The two ways of comparing tuples agree: part by part, and by grouping key. */
  lemma TupleKeys(a: seq<Value>, b: seq<Value>)
    requires Valid(List(a)) && Valid(List(b))
    ensures SameTuple(a, b) <==> Key(List(a)) == Key(List(b))
  {
    hide Key, Valid;
    KeyCanonical(List(a), List(b));
  }

  lemma TupleValid(c: Constraint, ent: Entity)
    requires EntValid(ent) && TupleOf(c, ent.props).Some?
    ensures Valid(List(TupleOf(c, ent.props).value))
  {
  }

  /** The first `n` subjects are all right, alone and among themselves. */
  ghost predicate Passed(c: Constraint, es: map<int, Entity>, ids: seq<int>, n: nat)
    requires n <= |ids| && forall j :: 0 <= j < |ids| ==> ids[j] in es
  {
    && (forall j :: 0 <= j < n ==> CheckOne(c, es[ids[j]].props))
    && (Compares(c) ==> forall j, k :: 0 <= j < k < n ==> !Clash(c, es[ids[j]], es[ids[k]]))
  }

  /** The keys seen are those of the first `n` subjects. */
  ghost predicate SeenKeys(c: Constraint, es: map<int, Entity>, ids: seq<int>, n: nat, seen: set<string>)
    requires n <= |ids|
  {
    forall key :: key in seen <==> exists j :: 0 <= j < n && KeyedBy(c, es, ids[j], key)
  }

  lemma SeenDecides(c: Constraint, es: map<int, Entity>, ids: seq<int>, n: nat, seen: set<string>)
    requires n < |ids| && forall j :: 0 <= j < |ids| ==> ids[j] in es && Subject(c, es[ids[j]]) && EntValid(es[ids[j]])
    requires SeenKeys(c, es, ids, n, seen)
    ensures var tuple := TupleOf(c, es[ids[n]].props);
      tuple.Some? && Key(List(tuple.value)) in seen <==> exists j :: 0 <= j < n && Clash(c, es[ids[j]], es[ids[n]])
  {
    hide Key, Clash, EntValid;
    forall j | 0 <= j < n
      ensures Clash(c, es[ids[j]], es[ids[n]]) <==>
        TupleOf(c, es[ids[n]].props).Some? && KeyedBy(c, es, ids[j], Key(List(TupleOf(c, es[ids[n]].props).value)))
    {
      KeysClash(c, es[ids[j]], es[ids[n]]);
    }
  }

  lemma SeenGrows(c: Constraint, es: map<int, Entity>, ids: seq<int>, n: nat, seen: set<string>)
    requires n < |ids| && ids[n] in es && SeenKeys(c, es, ids, n, seen)
    ensures var tuple := TupleOf(c, es[ids[n]].props);
      SeenKeys(c, es, ids, n + 1, if tuple.Some? then seen + {Key(List(tuple.value))} else seen)
  {
    hide Key;
    var tuple := TupleOf(c, es[ids[n]].props);
    var now := if tuple.Some? then seen + {Key(List(tuple.value))} else seen;
    forall key
      ensures key in now <==> exists j :: 0 <= j < n + 1 && KeyedBy(c, es, ids[j], key)
    {
      if key in seen {
        var j :| 0 <= j < n && KeyedBy(c, es, ids[j], key);
      }
      if key in now && key !in seen {
        assert KeyedBy(c, es, ids[n], key);
      }
      if j :| 0 <= j < n + 1 && KeyedBy(c, es, ids[j], key) {
        assert j < n ==> key in seen;
      }
    }
  }

  lemma NotPassed(c: Constraint, es: map<int, Entity>, ids: seq<int>, n: nat, t: Tables)
    requires n < |ids| && es == Entities(t, c.onNodes) && Scanned(c, t, ids) && forall j :: 0 <= j < |ids| ==> ids[j] in es
    requires !CheckOne(c, es[ids[n]].props) || (Compares(c) && exists j :: 0 <= j < n && Clash(c, es[ids[j]], es[ids[n]]))
    ensures !Holds(c, t)
  {
    hide CheckOne, Clash;
    assert ids[n] in ids;
    if CheckOne(c, es[ids[n]].props) {
      var j :| 0 <= j < n && Clash(c, es[ids[j]], es[ids[n]]);
      assert ids[j] < ids[n];
    }
  }

  /** `validateExisting`: one pass over the stored entities, remembering the keys seen. */
  method ValidateExisting(t: Tables, c: Constraint, ids: seq<int>) returns (ok: bool)
    requires StoredValid(t) && Scanned(c, t, ids)
    ensures ok <==> Holds(c, t)
    ensures ok <==> forall id :: Concerns(c, t, id) ==> Right(c, t, id)
  {
    HoldsMeans(c, t);
    var es := Entities(t, c.onNodes);
    ScannedFacts(t, c, ids);
    hide Key, CheckOne, Clash, StoredValid, EntValid, Passed, SeenKeys, Holds, Scanned, TupleOf, Subject, Entities, Concerns, Right;
    var seen: set<string> := {};
    NothingPassed(c, es, ids);
    for i := 0 to |ids|
      invariant forall j :: 0 <= j < |ids| ==> ids[j] in es && Subject(c, es[ids[j]]) && EntValid(es[ids[j]])
      invariant Passed(c, es, ids, i) && (Compares(c) ==> SeenKeys(c, es, ids, i, seen))
    {
      var ent := es[ids[i]];
      if !CheckOne(c, ent.props) {
        NotPassed(c, es, ids, i, t);
        return false;
      }
      if Compares(c) {
        SeenDecides(c, es, ids, i, seen);
        SeenGrows(c, es, ids, i, seen);
        var tuple := TupleOf(c, ent.props);
        if tuple.Some? {
          var key := Key(List(tuple.value));
          if key in seen {
            NotPassed(c, es, ids, i, t);
            return false;
          }
          seen := seen + {key};
        }
      }
      PassedStep(c, es, ids, i);
    }
    EveryPair(t, c, ids);
    return true;
  }

  lemma ScannedFacts(t: Tables, c: Constraint, ids: seq<int>)
    requires StoredValid(t) && Scanned(c, t, ids)
    ensures forall j :: 0 <= j < |ids| ==>
      ids[j] in Entities(t, c.onNodes) && Subject(c, Entities(t, c.onNodes)[ids[j]]) && EntValid(Entities(t, c.onNodes)[ids[j]])
  {
    EntitiesValid(t, c.onNodes);
    assert forall j :: 0 <= j < |ids| ==> ids[j] in ids;
  }

  lemma NothingPassed(c: Constraint, es: map<int, Entity>, ids: seq<int>)
    requires forall j :: 0 <= j < |ids| ==> ids[j] in es
    ensures Passed(c, es, ids, 0) && SeenKeys(c, es, ids, 0, {})
  {
  }

  lemma PassedStep(c: Constraint, es: map<int, Entity>, ids: seq<int>, n: nat)
    requires n < |ids| && (forall j :: 0 <= j < |ids| ==> ids[j] in es) && Passed(c, es, ids, n)
    requires CheckOne(c, es[ids[n]].props)
    requires Compares(c) ==> !exists j :: 0 <= j < n && Clash(c, es[ids[j]], es[ids[n]])
    ensures Passed(c, es, ids, n + 1)
  {
  }

  ghost predicate KeyedBy(c: Constraint, es: map<int, Entity>, id: int, key: string) {
    id in es && TupleOf(c, es[id].props).Some? && Key(List(TupleOf(c, es[id].props).value)) == key
  }

  lemma KeysClash(c: Constraint, a: Entity, b: Entity)
    requires EntValid(a) && EntValid(b) && Subject(c, a) && Subject(c, b)
    ensures Clash(c, a, b) <==>
      && TupleOf(c, a.props).Some? && TupleOf(c, b.props).Some?
      && Key(List(TupleOf(c, a.props).value)) == Key(List(TupleOf(c, b.props).value))
  {
    hide Key, SameTuple, Valid;
    if TupleOf(c, a.props).Some? && TupleOf(c, b.props).Some? {
      TupleValid(c, a);
      TupleValid(c, b);
      TupleKeys(TupleOf(c, a.props).value, TupleOf(c, b.props).value);
    }
  }

  lemma EveryPair(t: Tables, c: Constraint, ids: seq<int>)
    requires StoredValid(t) && Scanned(c, t, ids)
    requires forall j :: 0 <= j < |ids| ==> ids[j] in Entities(t, c.onNodes)
    requires Passed(c, Entities(t, c.onNodes), ids, |ids|)
    ensures Holds(c, t)
  {
    hide CheckOne, StoredValid;
    var es := Entities(t, c.onNodes);
    EntitiesValid(t, c.onNodes);
    forall id | id in es && Subject(c, es[id])
      ensures CheckOne(c, es[id].props)
    {
      var j :| 0 <= j < |ids| && ids[j] == id;
    }
    if Compares(c) {
      forall x, y | x in es && y in es && x != y
        ensures !Clash(c, es[x], es[y])
      {
        if Clash(c, es[x], es[y]) {
          assert x in ids && y in ids;
          var j :| 0 <= j < |ids| && ids[j] == x;
          var k :| 0 <= k < |ids| && ids[k] == y;
          ClashSymmetric(c, es[x], es[y]);
        }
      }
    }
  }

  // ---------------------------------------------------------------- imports

  const BATCH := 500

  /** `ValidateImported`: the imported rows are checked in batches, each against the whole
      database. If the constraints held before the import, it passes exactly if they hold after and
      no imported row has a lookalike. */
  method ValidateImported(w: Writer, ghost base: Tables, t: Tables, cons: seq<Constraint>, nodes: seq<int>, rels: seq<int>) returns (ok: bool)
    requires StoredValid(t) && OnlyTouched(base, t, nodes, rels)
    ensures AllHold(cons, base) ==>
      (ok <==> AllHold(cons, t) && NoLookalikes(w, cons, t, true, nodes) && NoLookalikes(w, cons, t, false, rels))
    ensures AllHold(cons, base) && ok ==> forall k, id :: 0 <= k < |cons| && Concerns(cons[k], t, id) ==> Right(cons[k], t, id)
  {
    hide Concerns, Right, AllHold, Passes, AllKeep, NoLookalikes, StoredValid, OnlyTouched, Entities;
    if AllHold(cons, base) {
      TouchedSuffices(base, t, cons, nodes, rels);
    }
    AllPassIff(w, cons, t, true, nodes);
    AllPassIff(w, cons, t, false, rels);
    var lo := 0;
    while lo < |nodes|
      invariant 0 <= lo <= |nodes| && AllPass(w, cons, t, true, nodes[..lo])
    {
      var hi := if lo + BATCH < |nodes| then lo + BATCH else |nodes|;
      var fine := CheckConstraints(w, t, cons, nodes[lo..hi], []);
      PassParts(w, cons, t, true, nodes, lo, hi);
      if !fine {
        return false;
      }
      lo := hi;
    }
    assert nodes[..|nodes|] == nodes;
    lo := 0;
    while lo < |rels|
      invariant 0 <= lo <= |rels| && AllPass(w, cons, t, false, rels[..lo])
    {
      var hi := if lo + BATCH < |rels| then lo + BATCH else |rels|;
      var fine := CheckConstraints(w, t, cons, [], rels[lo..hi]);
      PassParts(w, cons, t, false, rels, lo, hi);
      if !fine {
        return false;
      }
      lo := hi;
    }
    assert rels[..|rels|] == rels;
    if AllHold(cons, base) {
      AllRight(cons, t);
    }
    return true;
  }

  lemma PassParts(w: Writer, cons: seq<Constraint>, t: Tables, onNodes: bool, ids: seq<int>, lo: nat, hi: nat)
    requires lo <= hi <= |ids|
    ensures AllPass(w, cons, t, onNodes, ids[..lo]) && AllPass(w, cons, t, onNodes, ids[lo..hi]) ==> AllPass(w, cons, t, onNodes, ids[..hi])
    ensures AllPass(w, cons, t, onNodes, ids) ==> AllPass(w, cons, t, onNodes, ids[lo..hi])
  {
    hide Passes, Entities;
    if AllPass(w, cons, t, onNodes, ids[..lo]) && AllPass(w, cons, t, onNodes, ids[lo..hi]) {
      forall i, k | 0 <= i < hi && 0 <= k < |cons| && ids[i] in Entities(t, onNodes) && cons[k].onNodes == onNodes
        ensures Passes(w, cons[k], t, ids[i])
      {
        if i < lo {
          assert ids[..lo][i] == ids[i];
        } else {
          assert ids[lo..hi][i - lo] == ids[i];
        }
      }
    }
    if AllPass(w, cons, t, onNodes, ids) {
      forall i, k | 0 <= i < hi - lo && 0 <= k < |cons| && ids[lo..hi][i] in Entities(t, onNodes) && cons[k].onNodes == onNodes
        ensures Passes(w, cons[k], t, ids[lo..hi][i])
      {
        assert ids[lo..hi][i] == ids[lo + i];
      }
    }
  }
}
