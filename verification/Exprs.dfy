/** Property maps and WHERE clauses as the planner sees them. */
module Exprs {
  import opened Seqs
  import opened Graphs
  import opened Patterns

  type Props = map<string, Value>

  /** What expressions can see besides the row. */
  datatype Store = Store(nodeProps: map<int, Props>, relProps: map<int, Props>, nodeLabels: map<int, set<string>>,
                         relTypes: map<int, string>, params: map<string, Value>)

  /** Expressions by what `walkExpr` enters. `Op` is any form of which it visits all parts, lazily
      evaluated ones included. `Each` is a list comprehension or a quantifier; `args` of a map
      projection are its subject and its valued items, `vars` the projected variables; `Test` is
      IS :: type or IS NORMALIZED; `Labelled` a label test, with the labels given by expressions.
      `Scoped` opens a nested scope over the whole row (a pattern or subquery). */
  datatype Expr =
    | Ident(name: string)
    | Lit(v: Value)
    | Param(name: string)
    | Prop(subject: Expr, key: string)
    | Eq(l: Expr, r: Expr)
    | And(l: Expr, r: Expr)
    | Op(args: seq<Expr>, f: seq<Option<Value>> -> Option<Value>)
    | Each(x: string, list: Expr, keep: Expr, proj: Expr, g: seq<Value> -> Option<Value>)
    | Reduce(acc: string, init: Expr, x: string, list: Expr, body: Expr)
    | MapProjection(args: seq<Expr>, vars: seq<string>, f: seq<Option<Value>> -> Option<Value>)
    | Test(arg: Expr, t: Value -> Option<Value>)
    | Labelled(arg: Expr, computed: seq<Expr>, f: seq<Option<Value>> -> Option<Value>)
    | Scoped(nested: Row -> Option<Value>)

  /** `[x IN list WHERE keep | proj]` */
  function ListComp(x: string, list: Expr, keep: Expr, proj: Expr): Expr {
    Each(x, list, keep, proj, (vals: seq<Value>) => Some(ListV(vals)))
  }

  /** `any(x IN list WHERE cond)` and its siblings, which count the outcomes. */
  function Quantifier(x: string, list: Expr, cond: Expr, count: seq<Value> -> Option<Value>): Expr {
    Each(x, list, Lit(BoolV(true)), cond, count)
  }

  datatype Tri = TriFalse | TriTrue | TriNull

  /** `equals` on the values that can be stored or bound. */
  function Equals(a: Value, b: Value): Tri
    decreases a
  {
    if a.NullV? || b.NullV? then TriNull
    else if a.ListV? && b.ListV? then
      if |a.vals| != |b.vals| then TriFalse else EqualsAll(a.vals, b.vals)
    else if a.RelV? && b.RelV? then (if a.rel.id == b.rel.id then TriTrue else TriFalse)
    else if a == b then TriTrue
    else TriFalse
  }

  function EqualsAll(a: seq<Value>, b: seq<Value>): Tri
    requires |a| == |b|
    decreases a
  {
    if a == [] then TriTrue
    else
      match Equals(a[0], b[0])
      case TriFalse => TriFalse
      case TriTrue => EqualsAll(a[1..], b[1..])
      case TriNull => if EqualsAll(a[1..], b[1..]) == TriFalse then TriFalse else TriNull
  }

  /** Equality: null with anything is undecided, relationships compare by id, two lists are equal if they
      are as long and equal throughout and differ if one pair does, anything else is equal if identical. */
  lemma EqualsMeans(a: Value, b: Value)
    ensures a.NullV? || b.NullV? ==> Equals(a, b) == TriNull
    ensures a.RelV? && b.RelV? ==> Equals(a, b) == if a.rel.id == b.rel.id then TriTrue else TriFalse
    ensures !a.NullV? && !b.NullV? && !(a.RelV? && b.RelV?) && !(a.ListV? && b.ListV?) ==> Equals(a, b) == if a == b then TriTrue else TriFalse
    ensures a.ListV? && b.ListV? ==>
      && (Equals(a, b) == TriTrue <==> |a.vals| == |b.vals| && forall i :: 0 <= i < |a.vals| ==> Equals(a.vals[i], b.vals[i]) == TriTrue)
      && (Equals(a, b) == TriFalse <==> |a.vals| != |b.vals| || exists i :: 0 <= i < |a.vals| && Equals(a.vals[i], b.vals[i]) == TriFalse)
  {
    hide EqualsAll;
    if a.ListV? && b.ListV? && |a.vals| == |b.vals| {
      EqualsAllMeans(a.vals, b.vals);
    }
  }

  lemma {:induction false} EqualsAllMeans(a: seq<Value>, b: seq<Value>)
    requires |a| == |b|
    ensures EqualsAll(a, b) == TriTrue <==> forall i :: 0 <= i < |a| ==> Equals(a[i], b[i]) == TriTrue
    ensures EqualsAll(a, b) == TriFalse <==> exists i :: 0 <= i < |a| && Equals(a[i], b[i]) == TriFalse
  {
    hide Equals;
    if a != [] {
      EqualsAllMeans(a[1..], b[1..]);
      forall i | 0 <= i < |a|
        ensures Equals(a[i], b[i]) == if i == 0 then Equals(a[0], b[0]) else Equals(a[1..][i - 1], b[1..][i - 1])
      {
      }
      if i :| 0 <= i < |a[1..]| && Equals(a[1..][i], b[1..][i]) == TriFalse {
        assert Equals(a[i + 1], b[i + 1]) == TriFalse;
      }
      forall i | 0 <= i < |a[1..]|
        ensures Equals(a[1..][i], b[1..][i]) == Equals(a[i + 1], b[i + 1])
      {
      }
    }
  }

  function TriValue(t: Tri): Value {
    match t
    case TriTrue => BoolV(true)
    case TriFalse => BoolV(false)
    case TriNull => NullV
  }

  function PropOf(st: Store, v: Value, key: string): Option<Value> {
    match v
    case NullV => Some(NullV)
    case NodeV(n) => Some(Lookup(if n in st.nodeProps then st.nodeProps[n] else map[], key))
    case RelV(rel) => Some(Lookup(if rel.id in st.relProps then st.relProps[rel.id] else map[], key))
    case _ => None
  }

  function Lookup(props: Props, key: string): Value {
    if key in props then props[key] else NullV
  }

  /** Kleene conjunction of two boolean or null values; None is the type error. */
  function Conjoin(l: Value, r: Option<Value>): Option<Value> {
    if l == BoolV(false) then Some(BoolV(false))
    else if !(l.BoolV? || l.NullV?) then None
    else if r.None? || !(r.value.BoolV? || r.value.NullV?) then None
    else if r.value == BoolV(false) then Some(BoolV(false))
    else if l.NullV? || r.value.NullV? then Some(NullV)
    else Some(BoolV(true))
  }

  /** None is an evaluation error, such as an undefined variable. */
  function Eval(st: Store, e: Expr, row: Row): Option<Value>
    decreases e, 2, 0
  {
    match e
    case Ident(name) => Held(row, name)
    case Lit(v) => Some(v)
    case Param(name) => if name in st.params then Some(st.params[name]) else None
    case Prop(subject, key) =>
      (match Eval(st, subject, row)
       case None => None
       case Some(v) => PropOf(st, v, key))
    case Eq(l, r) =>
      var a, b := Eval(st, l, row), Eval(st, r, row);
      if a.None? || b.None? then None else Some(TriValue(Equals(a.value, b.value)))
    case And(l, r) =>
      (match Eval(st, l, row)
       case None => None
       case Some(v) => Conjoin(v, Eval(st, r, row)))
    case Op(args, f) => f(EvalArgs(st, args, row))
    case Each(_, list, _, _, g) =>
      (match Eval(st, list, row)
       case Some(ListV(vals)) =>
         (match EvalEach(st, e, vals, row)
          case None => None
          case Some(out) => g(out))
       case Some(NullV) => Some(NullV)
       case _ => None)
    case Reduce(_, init, _, list, _) =>
      (match Eval(st, init, row)
       case None => None
       case Some(a) =>
         match Eval(st, list, row)
         case Some(ListV(vals)) => EvalFold(st, e, a, vals, row)
         case Some(NullV) => Some(NullV)
         case _ => None)
    case MapProjection(args, vars, f) => f(EvalArgs(st, args, row) + HeldAll(row, vars))
    case Test(arg, t) =>
      (match Eval(st, arg, row)
       case None => None
       case Some(v) => t(v))
    case Labelled(arg, computed, f) => f([Eval(st, arg, row)] + EvalArgs(st, computed, row))
    case Scoped(f) => f(row)
  }

  /** AND is true if both sides are, false if the left is false or the right is and the left is no error. */
  lemma AndMeans(st: Store, l: Expr, r: Expr, row: Row)
    ensures var a, b, c := Eval(st, l, row), Eval(st, r, row), Eval(st, And(l, r), row);
      && (c == Some(BoolV(true)) <==> a == Some(BoolV(true)) && b == Some(BoolV(true)))
      && (c == Some(BoolV(false)) <==>
        a == Some(BoolV(false)) || (b == Some(BoolV(false)) && (a == Some(BoolV(true)) || a == Some(NullV))))
      && (c == Some(NullV) <==>
        (a == Some(NullV) && (b == Some(BoolV(true)) || b == Some(NullV))) || (a == Some(BoolV(true)) && b == Some(NullV)))
  {
  }

  function Held(row: Row, name: string): Option<Value> {
    if name in row then Some(row[name]) else None
  }

  function HeldAll(row: Row, names: seq<string>): seq<Option<Value>> {
    if names == [] then [] else [Held(row, names[0])] + HeldAll(row, names[1..])
  }

  function EvalEach(st: Store, e: Expr, vals: seq<Value>, row: Row): Option<seq<Value>>
    requires e.Each?
    decreases e, 1, |vals|
  {
    if vals == [] then Some([])
    else
      var inner := row[e.x := vals[0]];
      match Eval(st, e.keep, inner)
      case None => None
      case Some(c) =>
        if c != BoolV(true) then EvalEach(st, e, vals[1..], row)
        else
          match Eval(st, e.proj, inner)
          case None => None
          case Some(v) =>
            match EvalEach(st, e, vals[1..], row)
            case None => None
            case Some(rest) => Some([v] + rest)
  }

  function EvalFold(st: Store, e: Expr, a: Value, vals: seq<Value>, row: Row): Option<Value>
    requires e.Reduce?
    decreases e, 1, |vals|
  {
    if vals == [] then Some(a)
    else
      match Eval(st, e.body, row[e.acc := a][e.x := vals[0]])
      case None => None
      case Some(v) => EvalFold(st, e, v, vals[1..], row)
  }

  function EvalArgs(st: Store, args: seq<Expr>, row: Row): seq<Option<Value>>
    decreases args, 0, 0
  {
    if args == [] then [] else [Eval(st, args[0], row)] + EvalArgs(st, args[1..], row)
  }

  // ------------------------------------------------- which variables matter

  /** `touches`: a name found by `walkExpr`, or a nested scope. */
  predicate Touches(e: Expr, names: set<string>)
    decreases e
  {
    match e
    case Ident(name) => name in names
    case Lit(_) => false
    case Param(_) => false
    case Prop(subject, _) => Touches(subject, names)
    case Eq(l, r) => Touches(l, names) || Touches(r, names)
    case And(l, r) => Touches(l, names) || Touches(r, names)
    case Op(args, _) => exists i :: 0 <= i < |args| && Touches(args[i], names)
    case Each(_, list, _, _, _) => Touches(list, names)
    case Reduce(_, init, _, list, _) => Touches(init, names) || Touches(list, names)
    case MapProjection(args, _, _) => exists i :: 0 <= i < |args| && Touches(args[i], names)
    case Test(_, _) => false
    case Labelled(arg, _, _) => Touches(arg, names)
    case Scoped(_) => true
  }

  /** The names an expression really depends on: those that occur free in it. */
  predicate Mentions(e: Expr, names: set<string>)
    decreases e
  {
    match e
    case Ident(name) => name in names
    case Lit(_) => false
    case Param(_) => false
    case Prop(subject, _) => Mentions(subject, names)
    case Eq(l, r) => Mentions(l, names) || Mentions(r, names)
    case And(l, r) => Mentions(l, names) || Mentions(r, names)
    case Op(args, _) => exists i :: 0 <= i < |args| && Mentions(args[i], names)
    case Each(x, list, keep, proj, _) => Mentions(list, names) || Mentions(keep, names - {x}) || Mentions(proj, names - {x})
    case Reduce(acc, init, x, list, body) => Mentions(init, names) || Mentions(list, names) || Mentions(body, names - {acc, x})
    case MapProjection(args, vars, _) => (exists i :: 0 <= i < |args| && Mentions(args[i], names)) || Among(vars, names)
    case Test(arg, _) => Mentions(arg, names)
    case Labelled(arg, computed, _) => Mentions(arg, names) || exists i :: 0 <= i < |computed| && Mentions(computed[i], names)
    case Scoped(_) => true
  }

  predicate Among(vars: seq<string>, names: set<string>) {
    exists i :: 0 <= i < |vars| && vars[i] in names
  }

  /** A name occurs free in a part of the expression that `walkExpr` does not enter. */
  predicate Hidden(e: Expr, names: set<string>)
    decreases e
  {
    match e
    case Prop(subject, _) => Hidden(subject, names)
    case Eq(l, r) => Hidden(l, names) || Hidden(r, names)
    case And(l, r) => Hidden(l, names) || Hidden(r, names)
    case Op(args, _) => exists i :: 0 <= i < |args| && Hidden(args[i], names)
    case Each(x, list, keep, proj, _) => Hidden(list, names) || Mentions(keep, names - {x}) || Mentions(proj, names - {x})
    case Reduce(acc, init, x, list, body) => Hidden(init, names) || Hidden(list, names) || Mentions(body, names - {acc, x})
    case MapProjection(args, vars, _) => (exists i :: 0 <= i < |args| && Hidden(args[i], names)) || Among(vars, names)
    case Test(arg, _) => Mentions(arg, names)
    case Labelled(arg, computed, _) => Hidden(arg, names) || exists i :: 0 <= i < |computed| && Mentions(computed[i], names)
    case _ => false
  }

  ghost predicate AgreeOutside(names: set<string>, r1: Row, r2: Row) {
    forall v :: v !in names ==> (v in r1 <==> v in r2) && (v in r1 ==> r1[v] == r2[v])
  }

  /** What an expression depends on is what `touches` finds and what is hidden from it. */
  lemma {:induction false} MentionsIff(e: Expr, names: set<string>)
    ensures Mentions(e, names) <==> Touches(e, names) || Hidden(e, names)
    decreases e
  {
    match e
    case Prop(subject, _) => MentionsIff(subject, names);
    case Eq(l, r) =>
      MentionsIff(l, names);
      MentionsIff(r, names);
    case And(l, r) =>
      MentionsIff(l, names);
      MentionsIff(r, names);
    case Op(args, _) => ArgsIff(args, names);
    case Each(_, list, _, _, _) => MentionsIff(list, names);
    case Reduce(_, init, _, list, _) =>
      MentionsIff(init, names);
      MentionsIff(list, names);
    case MapProjection(args, _, _) => ArgsIff(args, names);
    case Labelled(arg, _, _) => MentionsIff(arg, names);
    case _ =>
  }

  lemma {:induction false} ArgsIff(args: seq<Expr>, names: set<string>)
    ensures forall i :: 0 <= i < |args| ==> (Mentions(args[i], names) <==> Touches(args[i], names) || Hidden(args[i], names))
    decreases args
  {
    forall i | 0 <= i < |args|
      ensures Mentions(args[i], names) <==> Touches(args[i], names) || Hidden(args[i], names)
    {
      MentionsIff(args[i], names);
    }
  }

  /** An expression that does not mention the names evaluates alike whatever they hold. */
  lemma {:induction false} EvalStable(st: Store, e: Expr, names: set<string>, r1: Row, r2: Row)
    requires !Mentions(e, names) && AgreeOutside(names, r1, r2)
    ensures Eval(st, e, r1) == Eval(st, e, r2)
    decreases e, 3, 0
  {
    hide EvalEach, EvalFold, EvalArgs, HeldAll, PropOf, Conjoin, Equals, TriValue;
    match e
    case Prop(subject, _) => EvalStable(st, subject, names, r1, r2);
    case Eq(l, r) =>
      EvalStable(st, l, names, r1, r2);
      EvalStable(st, r, names, r1, r2);
    case And(l, r) =>
      EvalStable(st, l, names, r1, r2);
      EvalStable(st, r, names, r1, r2);
    case Op(args, _) => EvalArgsStable(st, args, names, r1, r2);
    case Each(_, _, _, _, _) => EachStable(st, e, names, r1, r2);
    case Reduce(_, _, _, _, _) => ReduceStable(st, e, names, r1, r2);
    case MapProjection(args, vars, _) =>
      EvalArgsStable(st, args, names, r1, r2);
      HeldStable(vars, names, r1, r2);
    case Test(arg, _) => EvalStable(st, arg, names, r1, r2);
    case Labelled(arg, computed, _) =>
      EvalStable(st, arg, names, r1, r2);
      EvalArgsStable(st, computed, names, r1, r2);
    case _ =>
  }

  lemma {:induction false} EachStable(st: Store, e: Expr, names: set<string>, r1: Row, r2: Row)
    requires e.Each? && !Mentions(e, names) && AgreeOutside(names, r1, r2)
    ensures Eval(st, e, r1) == Eval(st, e, r2)
    decreases e, 2, 0
  {
    hide EvalEach;
    EvalStable(st, e.list, names, r1, r2);
    var vals := Eval(st, e.list, r1);
    if vals.Some? && vals.value.ListV? {
      EvalEachStable(st, e, vals.value.vals, names, r1, r2);
    }
  }

  lemma {:induction false} ReduceStable(st: Store, e: Expr, names: set<string>, r1: Row, r2: Row)
    requires e.Reduce? && !Mentions(e, names) && AgreeOutside(names, r1, r2)
    ensures Eval(st, e, r1) == Eval(st, e, r2)
    decreases e, 2, 0
  {
    hide EvalFold;
    EvalStable(st, e.init, names, r1, r2);
    EvalStable(st, e.list, names, r1, r2);
    var a, vals := Eval(st, e.init, r1), Eval(st, e.list, r1);
    if a.Some? && vals.Some? && vals.value.ListV? {
      EvalFoldStable(st, e, a.value, vals.value.vals, names, r1, r2);
    }
  }

  lemma {:induction false} HeldStable(vars: seq<string>, names: set<string>, r1: Row, r2: Row)
    requires !Among(vars, names) && AgreeOutside(names, r1, r2)
    ensures HeldAll(r1, vars) == HeldAll(r2, vars)
  {
    if vars != [] {
      assert forall i :: 0 <= i < |vars[1..]| ==> vars[1..][i] == vars[i + 1];
      HeldStable(vars[1..], names, r1, r2);
    }
  }

  lemma {:induction false} EvalEachStable(st: Store, e: Expr, vals: seq<Value>, names: set<string>, r1: Row, r2: Row)
    requires e.Each? && !Mentions(e.keep, names - {e.x}) && !Mentions(e.proj, names - {e.x}) && AgreeOutside(names, r1, r2)
    ensures EvalEach(st, e, vals, r1) == EvalEach(st, e, vals, r2)
    decreases e, 1, |vals|
  {
    if vals != [] {
      var i1, i2 := r1[e.x := vals[0]], r2[e.x := vals[0]];
      EvalStable(st, e.keep, names - {e.x}, i1, i2);
      EvalStable(st, e.proj, names - {e.x}, i1, i2);
      EvalEachStable(st, e, vals[1..], names, r1, r2);
    }
  }

  lemma {:induction false} EvalFoldStable(st: Store, e: Expr, a: Value, vals: seq<Value>, names: set<string>, r1: Row, r2: Row)
    requires e.Reduce? && !Mentions(e.body, names - {e.acc, e.x}) && AgreeOutside(names, r1, r2)
    ensures EvalFold(st, e, a, vals, r1) == EvalFold(st, e, a, vals, r2)
    decreases e, 1, |vals|
  {
    if vals != [] {
      var i1, i2 := r1[e.acc := a][e.x := vals[0]], r2[e.acc := a][e.x := vals[0]];
      EvalStable(st, e.body, names - {e.acc, e.x}, i1, i2);
      var v := Eval(st, e.body, i1);
      if v.Some? {
        EvalFoldStable(st, e, v.value, vals[1..], names, r1, r2);
      }
    }
  }

  lemma {:induction false} EvalArgsStable(st: Store, args: seq<Expr>, names: set<string>, r1: Row, r2: Row)
    requires AgreeOutside(names, r1, r2) && forall i :: 0 <= i < |args| ==> !Mentions(args[i], names)
    ensures EvalArgs(st, args, r1) == EvalArgs(st, args, r2)
    decreases args, 0, 0
  {
    if args != [] {
      EvalStable(st, args[0], names, r1, r2);
      EvalArgsStable(st, args[1..], names, r1, r2);
    }
  }

  /** The planner's test passes the expression, yet its value depends on `a`. */
  ghost predicate Missed(st: Store, e: Expr) {
    !Touches(e, {"a"}) && Hidden(e, {"a"}) && Eval(st, e, map["a" := NodeV(0)]).Some? && Eval(st, e, map[]).None?
  }

  function OneNode(): Store {
    Store(map[0 := map["k" := NumV(1.0)]], map[], map[], map[], map[])
  }

  /** An operator that fails if an operand does. */
  function Strict(vals: seq<Option<Value>>): Option<Value> {
    if None in vals then None else Some(NullV)
  }

  lemma ReadsA(x: string)
    requires x != "a"
    ensures var e := KeyOfA();
      && Mentions(e, {"a"}) && Mentions(e, {"a"} - {x})
      && (forall r: Row :: "a" in r && r["a"] == NodeV(0) ==> Eval(OneNode(), e, r) == Some(NumV(1.0)))
      && (forall r: Row :: "a" !in r ==> Eval(OneNode(), e, r) == None)
  {
  }

  function KeyOfA(): Expr {
    Prop(Ident("a"), "k")
  }

  function Ones(): Expr {
    Lit(ListV([NumV(1.0)]))
  }

  /** The forms whose parts `touches` does not see: `[x IN [1] | a.k]`, `any(x IN [1] WHERE a.k = x)`,
      `reduce(s = 0, x IN [1] | a.k)`, a projection `null {a}`, `a.k IS :: INTEGER`, `b:$(a.k)`. */
  lemma TouchesMisses(count: seq<Value> -> Option<Value>, isType: Value -> Option<Value>)
    requires (forall vals :: count(vals).Some?) && forall v :: isType(v).Some?
    ensures Missed(OneNode(), ListComp("x", Ones(), Lit(BoolV(true)), KeyOfA()))
    ensures Missed(OneNode(), Quantifier("x", Ones(), Eq(KeyOfA(), Ident("x")), count))
    ensures Missed(OneNode(), Reduce("s", Ones(), "x", Ones(), KeyOfA()))
    ensures Missed(OneNode(), MapProjection([Lit(NullV)], ["a"], Strict))
    ensures Missed(OneNode(), Test(KeyOfA(), isType))
    ensures Missed(OneNode(), Labelled(Lit(NodeV(0)), [KeyOfA()], Strict))
  {
    hide Missed, KeyOfA, Ones;
    MissedListComp(ListComp("x", Ones(), Lit(BoolV(true)), KeyOfA()));
    MissedQuantifier(Quantifier("x", Ones(), Eq(KeyOfA(), Ident("x")), count));
    MissedFold(Reduce("s", Ones(), "x", Ones(), KeyOfA()));
    MissedProjection(MapProjection([Lit(NullV)], ["a"], Strict));
    MissedTest(Test(KeyOfA(), isType));
    MissedLabel(Labelled(Lit(NodeV(0)), [KeyOfA()], Strict));
  }

  /** A comprehension or quantifier over one element that keeps it. */
  lemma OneRound(st: Store, e: Expr, row: Row)
    requires e.Each? && e.list == Ones() && e.keep == Lit(BoolV(true))
    ensures Eval(st, e, row) ==
      match Eval(st, e.proj, row[e.x := NumV(1.0)])
      case None => None
      case Some(v) => e.g([v])
  {
    var vals := [NumV(1.0)];
    assert vals[1..] == [];
    assert EvalEach(st, e, [], row) == Some([]);
    assert Eval(st, e.keep, row[e.x := vals[0]]) == Some(BoolV(true));
    if v :| Eval(st, e.proj, row[e.x := NumV(1.0)]) == Some(v) {
      assert [v] + [] == [v];
    }
  }

  lemma MissedListComp(e: Expr)
    requires e == ListComp("x", Ones(), Lit(BoolV(true)), KeyOfA())
    ensures Missed(OneNode(), e)
  {
    ReadsA("x");
    OneRound(OneNode(), e, map["a" := NodeV(0)]);
    OneRound(OneNode(), e, map[]);
    hide Eval, Ones;
  }

  lemma MissedQuantifier(e: Expr)
    requires e.Each? && e == Quantifier("x", Ones(), Eq(KeyOfA(), Ident("x")), e.g) && forall vals :: e.g(vals).Some?
    ensures Missed(OneNode(), e)
  {
    ReadsA("x");
    OneRound(OneNode(), e, map["a" := NodeV(0)]);
    OneRound(OneNode(), e, map[]);
    CompareA(map["a" := NodeV(0)]["x" := NumV(1.0)]);
    CompareA(map[]["x" := NumV(1.0)]);
    hide Eval, Ones, KeyOfA;
    assert !Touches(e, {"a"});
    assert Mentions(e.proj, {"a"} - {"x"});
  }

  lemma CompareA(row: Row)
    requires "x" in row
    ensures Eval(OneNode(), Eq(KeyOfA(), Ident("x")), row).Some? <==> Eval(OneNode(), KeyOfA(), row).Some?
  {
    hide KeyOfA;
  }

  lemma MissedFold(e: Expr)
    requires e == Reduce("s", Ones(), "x", Ones(), KeyOfA())
    ensures Missed(OneNode(), e)
  {
    ReadsA("x");
    FoldOnce(OneNode(), e, map["a" := NodeV(0)]);
    FoldOnce(OneNode(), e, map[]);
    hide Eval, Ones;
  }

  lemma FoldOnce(st: Store, e: Expr, row: Row)
    requires e.Reduce? && e.init == Ones() && e.list == Ones()
    ensures Eval(st, e, row) == Eval(st, e.body, row[e.acc := Ones().v][e.x := NumV(1.0)])
  {
    var vals := [NumV(1.0)];
    assert vals[1..] == [];
    var v := Eval(st, e.body, row[e.acc := Ones().v][e.x := NumV(1.0)]);
    if v.Some? {
      assert EvalFold(st, e, v.value, [], row) == v;
    }
  }

  lemma MissedProjection(e: Expr)
    requires e == MapProjection([Lit(NullV)], ["a"], Strict)
    ensures Missed(OneNode(), e)
  {
    var r: Row := map["a" := NodeV(0)];
    assert HeldAll(r, ["a"]) == [Some(NodeV(0))] && HeldAll(map[], ["a"]) == [None];
    assert EvalArgs(OneNode(), [Lit(NullV)], r) == [Some(NullV)] && EvalArgs(OneNode(), [Lit(NullV)], map[]) == [Some(NullV)];
    assert ([Some(NullV)] + [None])[1] == None;
    assert ["a"][0] in {"a"};
  }

  lemma MissedTest(e: Expr)
    requires e.Test? && e.arg == KeyOfA() && forall v :: e.t(v).Some?
    ensures Missed(OneNode(), e)
  {
    ReadsA("x");
  }

  lemma MissedLabel(e: Expr)
    requires e == Labelled(Lit(NodeV(0)), [KeyOfA()], Strict)
    ensures Missed(OneNode(), e)
  {
    ReadsA("x");
    var a := KeyOfA();
    var r: Row := map["a" := NodeV(0)];
    assert EvalArgs(OneNode(), [a], r) == [Some(NumV(1.0))] && EvalArgs(OneNode(), [a], map[]) == [None];
    assert ([Some(NodeV(0))] + [None])[1] == None;
    assert Mentions([a][0], {"a"});
  }

  // --------------------------------------------------------------- pushdown

  /** A top-level `var.key = expr` conjunct of a WHERE. */
  datatype Pushed = Pushed(variable: string, key: string, val: Expr)

  predicate PlainChar(c: char) {
    c == '_' || '0' <= c <= '9' || 'a' <= c <= 'z' || 'A' <= c <= 'Z'
  }

  predicate PushableKey(key: string) {
    key != "" && forall i :: 0 <= i < |key| ==> PlainChar(key[i])
  }

  function PushedSide(e: Expr, other: Expr): seq<Pushed> {
    if e.Prop? && e.subject.Ident? && PushableKey(e.key) then [Pushed(e.subject.name, e.key, other)] else []
  }

  /** `whereEqualities`: the first operand that is a property of a variable counts. */
  function WhereEqualities(e: Expr): seq<Pushed> {
    match e
    case And(l, r) => WhereEqualities(l) + WhereEqualities(r)
    case Eq(l, r) => if PushedSide(l, r) != [] then PushedSide(l, r) else PushedSide(r, l)
    case _ => []
  }

  lemma EqualsSymmetric(a: Value, b: Value)
    requires Equals(a, b) == TriTrue && (a.NumV? || a.StrV? || b.NumV? || b.StrV?)
    ensures a == b
  {
  }

  /** A pushed equality holds in every row the WHERE accepts. */
  ghost predicate Holds(st: Store, p: Pushed, row: Row) {
    && p.variable in row
    && var have := PropOf(st, row[p.variable], p.key);
    && var want := Eval(st, p.val, row);
    && have.Some? && want.Some?
    && (Equals(have.value, want.value) == TriTrue || Equals(want.value, have.value) == TriTrue)
  }

  lemma {:induction false} EqualitiesHold(st: Store, e: Expr, row: Row, p: Pushed)
    requires p in WhereEqualities(e) && Eval(st, e, row) == Some(BoolV(true))
    ensures Holds(st, p, row)
    decreases e
  {
    match e
    case And(l, r) =>
      if p in WhereEqualities(l) {
        EqualitiesHold(st, l, row, p);
      } else {
        EqualitiesHold(st, r, row, p);
      }
    case Eq(l, r) =>
      var side := if PushedSide(l, r) != [] then l else r;
      assert Eval(st, side.subject, row).Some?;
    case _ =>
  }

  /** `hintValue`: a literal, a parameter or a bound variable holding a string or a number. */
  function HintValue(st: Store, e: Expr, row: Row): Option<Value> {
    if e.Lit? || e.Param? || (e.Ident? && e.name in row) then
      match Eval(st, e, row)
      case Some(NumV(n)) => Some(NumV(n))
      case Some(StrV(s)) => Some(StrV(s))
      case _ => None
    else None
  }

  /** The property equality a scan may filter on. */
  datatype Hint = Hint(key: string, val: Value)

  predicate HintHolds(props: Props, h: Hint) {
    Lookup(props, h.key) == h.val
  }

  function HintOf(st: Store, key: string, e: Expr, row: Row): seq<Hint> {
    match HintValue(st, e, row)
    case None => []
    case Some(v) => if PushableKey(key) then [Hint(key, v)] else []
  }

  /** A node pattern as written: its literal labels, the labels given by expressions `$(e)`, and
      its property map. */
  datatype NodeSyntax = NodeSyntax(v: Option<string>, labels: seq<string>, computed: seq<Expr>, props: seq<(string, Expr)>)

  function PropHints(st: Store, props: seq<(string, Expr)>, row: Row): seq<Hint> {
    if props == [] then [] else HintOf(st, props[0].0, props[0].1, row) + PropHints(st, props[1..], row)
  }

  function PushedHints(st: Store, pushed: seq<Pushed>, v: string, row: Row): seq<Hint> {
    if pushed == [] then []
    else
      (if pushed[0].variable == v then HintOf(st, pushed[0].key, pushed[0].val, row) else []) +
      PushedHints(st, pushed[1..], v, row)
  }

  /** `scanHints`. */
  function ScanHints(st: Store, ns: NodeSyntax, pushed: seq<Pushed>, row: Row): seq<Hint> {
    PropHints(st, ns.props, row) + if ns.v.Some? then PushedHints(st, pushed, ns.v.value, row) else []
  }

  predicate PropsMatch(st: Store, spec: seq<(string, Expr)>, props: Props, row: Row) {
    forall i :: 0 <= i < |spec| ==>
      var want := Eval(st, spec[i].1, row);
      want.Some? && Equals(Lookup(props, spec[i].0), want.value) == TriTrue
  }

  function NodeProps(st: Store, n: int): Props {
    if n in st.nodeProps then st.nodeProps[n] else map[]
  }

  function RelProps(st: Store, rel: Rel): Props {
    if rel.id in st.relProps then st.relProps[rel.id] else map[]
  }

  predicate HasLabels(st: Store, labels: seq<string>, n: int) {
    forall i :: 0 <= i < |labels| ==> n in st.nodeLabels && labels[i] in st.nodeLabels[n]
  }

  /** The value of a computed label names labels that are all among `held`. */
  predicate LabelHeld(v: Value, held: set<string>) {
    match v
    case StrV(s) => s in held
    case ListV(vals) => forall i :: 0 <= i < |vals| ==> vals[i].StrV? && vals[i].str in held
    case _ => false
  }

  predicate HasComputed(st: Store, computed: seq<Expr>, held: set<string>, row: Row) {
    forall i :: 0 <= i < |computed| ==> var v := Eval(st, computed[i], row); v.Some? && LabelHeld(v.value, held)
  }

  /** The first computed type that holds decides; an error decides against. */
  predicate SomeComputed(st: Store, computed: seq<Expr>, held: set<string>, row: Row) {
    && computed != []
    && var v := Eval(st, computed[0], row);
    && v.Some? && (v.value.StrV? || v.value.ListV?)
    && (LabelHeld(v.value, held) || SomeComputed(st, computed[1..], held, row))
  }

  predicate NodeMatches(st: Store, ns: NodeSyntax, n: int, row: Row) {
    && HasLabels(st, ns.labels, n)
    && HasComputed(st, ns.computed, if n in st.nodeLabels then st.nodeLabels[n] else {}, row)
    && PropsMatch(st, ns.props, NodeProps(st, n), row)
  }

  /** The scan for start candidates: the first literal label and every hint. */
  predicate Narrowed(st: Store, ns: NodeSyntax, pushed: seq<Pushed>, n: int, row: Row) {
    && (ns.labels != [] ==> n in st.nodeLabels && ns.labels[0] in st.nodeLabels[n])
    && forall h :: h in ScanHints(st, ns, pushed, row) ==> HintHolds(NodeProps(st, n), h)
  }

  lemma {:induction false} PropHintsHold(st: Store, spec: seq<(string, Expr)>, props: Props, row: Row, h: Hint)
    requires PropsMatch(st, spec, props, row) && h in PropHints(st, spec, row)
    ensures HintHolds(props, h)
  {
    if h in HintOf(st, spec[0].0, spec[0].1, row) {
      EqualsSymmetric(Lookup(props, spec[0].0), h.val);
    } else {
      assert forall i :: 0 <= i < |spec| - 1 ==> spec[1..][i] == spec[i + 1];
      PropHintsHold(st, spec[1..], props, row, h);
    }
  }

  predicate IsEntity(v: Value) {
    v.NodeV? || v.RelV?
  }

  function EntityProps(st: Store, v: Value): Props
    requires IsEntity(v)
  {
    match v
    case NodeV(n) => NodeProps(st, n)
    case RelV(rel) => RelProps(st, rel)
  }

  lemma {:induction false} PushedHintsHold(st: Store, where: Expr, pushed: seq<Pushed>, v: string, row: Row, later: Row, h: Hint)
    requires forall p :: p in pushed ==> p in WhereEqualities(where)
    requires h in PushedHints(st, pushed, v, row)
    requires Keeps(row, later) && v in later && IsEntity(later[v])
    requires Eval(st, where, later) == Some(BoolV(true))
    ensures HintHolds(EntityProps(st, later[v]), h)
    decreases |pushed|
  {
    var p := pushed[0];
    if p.variable == v && h in HintOf(st, p.key, p.val, row) {
      assert p in WhereEqualities(where);
      EqualitiesHold(st, where, later, p);
      assert Eval(st, p.val, later) == Eval(st, p.val, row);
      var have := PropOf(st, later[v], p.key).value;
      if Equals(have, h.val) == TriTrue {
        EqualsSymmetric(have, h.val);
      } else {
        EqualsSymmetric(h.val, have);
      }
    } else {
      PushedHintsHold(st, where, pushed[1..], v, row, later, h);
    }
  }

  /** Scan hints drop only nodes the pattern or the WHERE rejects: every node that matches and
      is bound in a row the WHERE accepts passes the scan. */
  lemma HintsDropOnlyNonMatches(st: Store, ns: NodeSyntax, where: Expr, n: int, row: Row, later: Row)
    requires NodeMatches(st, ns, n, row) && Keeps(row, later)
    requires ns.v.Some? ==> ns.v.value in later && later[ns.v.value] == NodeV(n)
    requires Eval(st, where, later) == Some(BoolV(true))
    ensures Narrowed(st, ns, WhereEqualities(where), n, row)
  {
    if ns.labels != [] {
      var l := ns.labels[0];
      assert l in st.nodeLabels[n];
    }
    forall h | h in ScanHints(st, ns, WhereEqualities(where), row)
      ensures HintHolds(NodeProps(st, n), h)
    {
      if h in PropHints(st, ns.props, row) {
        PropHintsHold(st, ns.props, NodeProps(st, n), row, h);
      } else {
        PushedHintsHold(st, where, WhereEqualities(where), ns.v.value, row, later, h);
      }
    }
  }

  /** A relationship pattern as written: literal and then computed types, any of which may match,
      and a property map. */
  datatype RelSyntax = RelSyntax(v: Option<string>, dir: Dir, types: seq<string>, computed: seq<Expr>,
                                 props: seq<(string, Expr)>, range: Option<Range>)

  predicate RelMatches(st: Store, rs: RelSyntax, rel: Rel, row: Row) {
    && (rs.types != [] || rs.computed != [] ==>
      && rel.id in st.relTypes
      && (st.relTypes[rel.id] in rs.types || SomeComputed(st, rs.computed, {st.relTypes[rel.id]}, row)))
    && PropsMatch(st, rs.props, RelProps(st, rel), row)
  }

  /** `relHints`. */
  function RelHints(st: Store, rs: RelSyntax, pushed: seq<Pushed>, row: Row): seq<Hint> {
    PropHints(st, rs.props, row) + if rs.v.Some? then PushedHints(st, pushed, rs.v.value, row) else []
  }

  /** The scan for relationships: the type if it is a single name, and every hint. */
  predicate RelNarrowed(st: Store, rs: RelSyntax, pushed: seq<Pushed>, rel: Rel, row: Row) {
    && (|rs.types| == 1 && rs.computed == [] ==> rel.id in st.relTypes && st.relTypes[rel.id] == rs.types[0])
    && forall h :: h in RelHints(st, rs, pushed, row) ==> HintHolds(RelProps(st, rel), h)
  }

  lemma RelHintsDropOnlyNonMatches(st: Store, rs: RelSyntax, where: Expr, rel: Rel, row: Row, later: Row)
    requires RelMatches(st, rs, rel, row) && Keeps(row, later)
    requires rs.v.Some? ==> rs.v.value in later && later[rs.v.value].RelV? && later[rs.v.value].rel.id == rel.id
    requires Eval(st, where, later) == Some(BoolV(true))
    ensures RelNarrowed(st, rs, WhereEqualities(where), rel, row)
  {
    forall h | h in RelHints(st, rs, WhereEqualities(where), row)
      ensures HintHolds(RelProps(st, rel), h)
    {
      if h in PropHints(st, rs.props, row) {
        PropHintsHold(st, rs.props, RelProps(st, rel), row, h);
      } else {
        PushedHintsHold(st, where, WhereEqualities(where), rs.v.value, row, later, h);
      }
    }
  }
}
