/** Path selectors: how `matchSelected` partitions and reduces the matches of a part,
    sorted by length and otherwise in their order. */
module Selectors {
  import opened Seqs
  import opened Graphs
  import opened Walks
  import opened Patterns

  datatype Kind = SelAll | SelAny | SelAnyShortest | SelAllShortest | SelShortest | SelShortestGroups

  predicate ShortestKind(kind: Kind) {
    kind == SelShortest || kind == SelShortestGroups || kind == SelAnyShortest || kind == SelAllShortest
  }

  /** A collected match: its row, its (start, end) partition and its length. */
  datatype Item = Item(row: Row, key: (int, int), length: nat)

  // ------------------------------------------------------ sorting by length

  function Layer(ms: seq<Item>, len: nat): seq<Item> {
    if ms == [] then []
    else (if ms[0].length == len then [ms[0]] else []) + Layer(ms[1..], len)
  }

  lemma {:induction false} LayerMember(ms: seq<Item>, len: nat)
    ensures forall m :: m in Layer(ms, len) <==> m in ms && m.length == len
  {
    if ms != [] {
      LayerMember(ms[1..], len);
      assert forall m :: m in ms <==> m == ms[0] || m in ms[1..];
    }
  }

  /** The matches shorter than `n`, by length and within a length in their original order. */
  function Layers(ms: seq<Item>, n: nat): seq<Item> {
    if n == 0 then [] else Layers(ms, n - 1) + Layer(ms, n - 1)
  }

  lemma {:induction false} LayersMember(ms: seq<Item>, n: nat)
    ensures forall m :: m in Layers(ms, n) <==> m in ms && m.length < n
  {
    if n == 0 {
      assert Layers(ms, n) == [];
    } else {
      LayersMember(ms, n - 1);
      LayerMember(ms, n - 1);
      var shorter: seq<Item>, here: seq<Item> := Layers(ms, n - 1), Layer(ms, n - 1);
      assert Layers(ms, n) == shorter + here;
      hide Layer, Layers;
      forall m
        ensures m in shorter + here <==> m in ms && m.length < n
      {
      }
    }
  }

  function MaxLength(ms: seq<Item>): nat {
    if ms == [] then 0
    else
      var rest := MaxLength(ms[1..]);
      if ms[0].length > rest then ms[0].length else rest
  }

  lemma {:induction false} MaxLengthBounds(ms: seq<Item>)
    ensures forall m :: m in ms ==> m.length <= MaxLength(ms)
  {
    if ms != [] {
      MaxLengthBounds(ms[1..]);
      assert forall m :: m in ms ==> m == ms[0] || m in ms[1..];
    }
  }

  /** The stable sort by length. */
  function SortedByLength(ms: seq<Item>): seq<Item> {
    Layers(ms, MaxLength(ms) + 1)
  }

  ghost predicate Ascending(ms: seq<Item>) {
    forall i, j :: 0 <= i < j < |ms| ==> ms[i].length <= ms[j].length
  }

  lemma {:induction false} LayersAscending(ms: seq<Item>, n: nat)
    ensures Ascending(Layers(ms, n))
  {
    if n > 0 {
      LayersAscending(ms, n - 1);
      LayersMember(ms, n - 1);
      LayerMember(ms, n - 1);
      var a: seq<Item>, b: seq<Item> := Layers(ms, n - 1), Layer(ms, n - 1);
      forall i, j | 0 <= i < j < |a + b|
        ensures (a + b)[i].length <= (a + b)[j].length
      {
        if i < |a| <= j {
          assert a[i] in a && b[j - |a|] in b;
        } else if |a| <= i {
          assert b[i - |a|] in b && b[j - |a|] in b;
        }
      }
    }
  }

  lemma {:induction false} LayersBeyond(ms: seq<Item>, n: nat, n': nat)
    requires n <= n' && forall m :: m in ms ==> m.length < n
    ensures Layers(ms, n') == Layers(ms, n)
  {
    if n < n' {
      LayersBeyond(ms, n, n' - 1);
      LayerMember(ms, n' - 1);
      NoMembers(Layer(ms, n' - 1));
    }
  }

  lemma {:induction false} LayersPrefix(ms: seq<Item>, n: nat, n': nat)
    requires n <= n'
    ensures Layers(ms, n) <= Layers(ms, n')
    ensures forall i :: |Layers(ms, n)| <= i < |Layers(ms, n')| ==> Layers(ms, n')[i].length >= n
  {
    if n < n' {
      LayersPrefix(ms, n, n' - 1);
      LayerMember(ms, n' - 1);
      var a: seq<Item>, b: seq<Item> := Layers(ms, n' - 1), Layer(ms, n' - 1);
      forall i | |a| <= i < |a + b|
        ensures (a + b)[i].length >= n
      {
        assert b[i - |a|] in b;
      }
    }
  }

  /** The matches of length at most `len`, in their original order. */
  function Short(ms: seq<Item>, len: int): seq<Item> {
    if ms == [] then []
    else (if ms[0].length <= len then [ms[0]] else []) + Short(ms[1..], len)
  }

  lemma {:induction false} ShortMember(ms: seq<Item>, len: int)
    ensures forall m :: m in Short(ms, len) <==> m in ms && m.length <= len
  {
    if ms != [] {
      ShortMember(ms[1..], len);
      assert forall m :: m in ms <==> m == ms[0] || m in ms[1..];
    }
  }

  lemma {:induction false} ShortLayer(ms: seq<Item>, len: int, n: nat)
    requires n <= len
    ensures Layer(Short(ms, len), n) == Layer(ms, n)
  {
    if ms != [] {
      ShortLayer(ms[1..], len, n);
      var s := Short(ms, len);
      if ms[0].length <= len {
        assert s[0] == ms[0] && s[1..] == Short(ms[1..], len);
      } else {
        assert s == Short(ms[1..], len);
      }
    }
  }

  lemma {:induction false} ShortLayers(ms: seq<Item>, len: int, n: nat)
    requires n <= len + 1
    ensures Layers(Short(ms, len), n) == Layers(ms, n)
  {
    if n > 0 {
      ShortLayers(ms, len, n - 1);
      ShortLayer(ms, len, n - 1);
    }
  }

  /** Any bound beyond every length sorts all of them. */
  lemma SortedBound(ms: seq<Item>, n: nat)
    requires forall m :: m in ms ==> m.length < n
    ensures SortedByLength(ms) == Layers(ms, n)
  {
    MaxLengthBounds(ms);
    var top := MaxLength(ms) + 1;
    if n < top {
      LayersBeyond(ms, n, top);
    } else {
      LayersBeyond(ms, top, n);
    }
  }

  /** Sorting only the short matches gives a prefix of sorting all of them; what follows is longer. */
  lemma SortedShort(ms: seq<Item>, len: int)
    ensures SortedByLength(Short(ms, len)) <= SortedByLength(ms)
    ensures forall i :: |SortedByLength(Short(ms, len))| <= i < |SortedByLength(ms)| ==> SortedByLength(ms)[i].length > len
  {
    var s := Short(ms, len);
    var n := if len < 0 then 0 else len + 1;
    ShortMember(ms, len);
    SortedBound(s, n);
    ShortLayers(ms, if len < 0 then -1 else len, n);
    if len < 0 {
      assert Layers(s, 0) == [] == Layers(ms, 0);
    }
    MaxLengthBounds(ms);
    var top := if n > MaxLength(ms) + 1 then n else MaxLength(ms) + 1;
    SortedBound(ms, top);
    LayersPrefix(ms, n, top);
  }

  // --------------------------------------------------------------- choosing

  /** The longest prefix in which at most `k` lengths other than `last` begin. */
  function Groups(ms: seq<Item>, last: int, k: int): seq<Item> {
    if ms == [] then []
    else if ms[0].length == last then [ms[0]] + Groups(ms[1..], last, k)
    else if k <= 0 then []
    else [ms[0]] + Groups(ms[1..], ms[0].length, k - 1)
  }

  /** What a selector keeps of one partition, sorted by length. */
  function Choose(kind: Kind, k: nat, ms: seq<Item>): seq<Item> {
    match kind
    case SelAll => ms
    case SelAny | SelShortest => if |ms| < k then ms else ms[..k]
    case SelAnyShortest => if |ms| == 0 then [] else ms[..1]
    case SelAllShortest => Groups(ms, -1, 1)
    case SelShortestGroups => Groups(ms, -1, k)
  }

  function Lengths(ms: seq<Item>): (ls: set<int>) {
    set m | m in ms :: m.length
  }

  /** `selectorSatisfied`: the lengths found so far already determine the result. */
  predicate Satisfied(kind: Kind, k: nat, ms: seq<Item>) {
    match kind
    case SelShortest => |ms| >= k
    case SelShortestGroups => |Lengths(ms)| >= k
    case SelAnyShortest | SelAllShortest => |ms| > 0
    case _ => false
  }

  lemma LengthsSplit(m: Item, ms: seq<Item>)
    ensures Lengths([m] + ms) == {m.length as int} + Lengths(ms)
  {
    var all := [m] + ms;
    forall l | l in {m.length as int} + Lengths(ms)
      ensures l in Lengths(all)
    {
      if l == m.length {
        assert m in all;
      } else {
        var x :| x in ms && x.length == l;
        assert x in all;
      }
    }
  }

  /** Taking the first of an ascending sequence off. */
  lemma AscendingTail(p: seq<Item>, last: int)
    requires p != [] && Ascending(p) && forall m :: m in p ==> m.length >= last
    ensures Ascending(p[1..]) && forall m :: m in p[1..] ==> m.length >= p[0].length
    ensures Lengths(p) == {p[0].length as int} + Lengths(p[1..])
    ensures p[0].length != last ==> last !in Lengths(p[1..]) && last !in Lengths(p)
  {
    var m, tail := p[0], p[1..];
    assert p == [m] + tail;
    LengthsSplit(m, tail);
    assert m in p;
    hide Lengths;
    forall x | x in tail
      ensures x.length >= m.length
    {
      var i :| 0 <= i < |tail| && tail[i] == x;
      assert p[i + 1] == x;
    }
    LengthsAbove(tail, m.length);
    LengthsAbove(p, m.length);
  }

  lemma LengthsAbove(ms: seq<Item>, low: int)
    requires forall m :: m in ms ==> m.length >= low
    ensures forall l :: l in Lengths(ms) ==> l >= low
  {
  }

  /** How many lengths remain to begin after the first match. */
  lemma LengthsLeft(p: seq<Item>, last: int)
    requires p != [] && Ascending(p) && forall m :: m in p ==> m.length >= last
    ensures p[0].length == last ==> Lengths(p[1..]) - {last} == Lengths(p) - {last}
    ensures p[0].length != last ==> |Lengths(p[1..]) - {p[0].length as int}| == |Lengths(p) - {last}| - 1
  {
    AscendingTail(p, last);
    var here := p[0].length as int;
    if here != last {
      assert Lengths(p[1..]) - {here} == (Lengths(p) - {last}) - {here};
      assert here in Lengths(p) - {last};
    }
  }

  lemma {:induction false} GroupsSettled(p: seq<Item>, rest: seq<Item>, last: int, k: int)
    requires Ascending(p) && forall m :: m in p ==> m.length >= last
    requires |Lengths(p) - {last}| >= k
    requires forall m :: m in rest ==> m.length != last && m.length !in Lengths(p)
    ensures Groups(p + rest, last, k) == Groups(p, last, k)
    decreases |p|
  {
    hide Ascending, Lengths;
    if p == [] {
      NoLengths(p);
      assert p + rest == rest;
      if rest != [] {
        assert rest[0] in rest;
      }
    } else {
      assert (p + rest)[0] == p[0] && (p + rest)[1..] == p[1..] + rest;
      AscendingTail(p, last);
      LengthsLeft(p, last);
      if p[0].length == last {
        GroupsSettled(p[1..], rest, last, k);
      } else if k > 0 {
        GroupsSettled(p[1..], rest, p[0].length, k - 1);
      }
    }
  }

  lemma {:induction false} GroupsWhole(p: seq<Item>, last: int, k: int)
    requires Ascending(p) && forall m :: m in p ==> m.length >= last
    requires |Lengths(p) - {last}| <= k
    ensures Groups(p, last, k) == p
    decreases |p|
  {
    hide Ascending, Lengths, Groups;
    if p == [] {
      GroupsNone(last, k);
    } else {
      AscendingTail(p, last);
      LengthsLeft(p, last);
      GroupsFirst(p, last, k);
      if p[0].length == last {
        GroupsWhole(p[1..], last, k);
      } else {
        GroupsWhole(p[1..], p[0].length, k - 1);
      }
      assert p == [p[0]] + p[1..];
    }
  }

  lemma GroupsNone(last: int, k: int)
    ensures Groups([], last, k) == []
  {
  }

  lemma GroupsFirst(p: seq<Item>, last: int, k: int)
    requires p != []
    ensures p[0].length == last ==> Groups(p, last, k) == [p[0]] + Groups(p[1..], last, k)
    ensures p[0].length != last && k > 0 ==> Groups(p, last, k) == [p[0]] + Groups(p[1..], p[0].length, k - 1)
  {
  }

  lemma NoLengths(ms: seq<Item>)
    ensures ms == [] ==> Lengths(ms) == {}
  {
  }

  lemma LengthsSame(a: seq<Item>, b: seq<Item>)
    requires forall m :: m in a <==> m in b
    ensures Lengths(a) == Lengths(b)
  {
  }

  /** Once the short matches satisfy the selector, longer ones cannot change its choice. */
  lemma SettledByShort(kind: Kind, k: nat, ms: seq<Item>, len: int)
    requires ShortestKind(kind) && k >= 1 && Satisfied(kind, k, Short(ms, len))
    ensures Choose(kind, k, SortedByLength(ms)) == Choose(kind, k, SortedByLength(Short(ms, len)))
  {
    ShortMember(ms, len);
    NoLengths(Short(ms, len));
    var s := Short(ms, len);
    var p, all := SortedByLength(s), SortedByLength(ms);
    SortedShort(ms, len);
    SortedSize(s);
    var rest := all[|p|..];
    assert all == p + rest;
    forall m | m in rest
      ensures m.length > len
    {
      var i :| 0 <= i < |rest| && rest[i] == m;
      assert all[|p| + i] == m;
    }
    if kind == SelShortestGroups || kind == SelAllShortest {
      SettledGroups(s, rest, len, if kind == SelAllShortest then 1 else k);
    }
  }

  lemma SettledGroups(s: seq<Item>, rest: seq<Item>, len: int, k: nat)
    requires forall m :: m in s ==> m.length <= len
    requires forall m :: m in rest ==> m.length > len
    requires |s| > 0 && (k == 1 || |Lengths(s)| >= k)
    ensures Groups(SortedByLength(s) + rest, -1, k) == Groups(SortedByLength(s), -1, k)
  {
    var p := SortedByLength(s);
    SortedSize(s);
    LayersAscending(s, MaxLength(s) + 1);
    LengthsSame(p, s);
    assert Lengths(p) - {-1} == Lengths(p);
    assert s[0] in s && s[0].length as int in Lengths(s);
    GroupsSettled(p, rest, -1, k);
  }

  lemma {:induction false} LayerSum(ms: seq<Item>, n: nat)
    ensures |Layers(ms, n)| == |Short(ms, n - 1)|
  {
    if n == 0 {
      ShortMember(ms, -1);
      NoMembers(Short(ms, -1));
    } else {
      LayerSum(ms, n - 1);
      ShortGrows(ms, n - 1);
    }
  }

  lemma {:induction false} ShortGrows(ms: seq<Item>, n: nat)
    ensures |Short(ms, n)| == |Short(ms, n - 1)| + |Layer(ms, n)|
  {
    if ms != [] {
      ShortGrows(ms[1..], n);
    }
  }

  lemma {:induction false} ShortAll(ms: seq<Item>, len: int)
    requires forall m :: m in ms ==> m.length <= len
    ensures Short(ms, len) == ms
  {
    if ms != [] {
      assert ms[0] in ms;
      ShortAll(ms[1..], len);
    }
  }

  /** Sorting neither loses nor invents matches. */
  lemma SortedSize(ms: seq<Item>)
    ensures |SortedByLength(ms)| == |ms|
    ensures forall m :: m in SortedByLength(ms) <==> m in ms
  {
    MaxLengthBounds(ms);
    LayersMember(ms, MaxLength(ms) + 1);
    LayerSum(ms, MaxLength(ms) + 1);
    ShortAll(ms, MaxLength(ms));
  }

  /** Sorted by length, everything up to `len` comes first: the shorter ones, then those as long. */
  lemma SortedFront(ms: seq<Item>, len: nat)
    ensures Layers(ms, len) + Layer(ms, len) <= SortedByLength(ms)
    ensures |Layers(ms, len) + Layer(ms, len)| == |Short(ms, len)|
    ensures forall m :: m in Layer(ms, len) ==> m.length == len
  {
    hide Layers, Layer, Short, MaxLength, SortedByLength;
    MaxLengthBounds(ms);
    var top := if len < MaxLength(ms) then MaxLength(ms) + 1 else len + 1;
    SortedBound(ms, top);
    LayersPrefix(ms, len + 1, top);
    LayersStep(ms, len);
    LayerSum(ms, len + 1);
    LayerMember(ms, len);
  }

  lemma LayersStep(ms: seq<Item>, len: nat)
    ensures Layers(ms, len + 1) == Layers(ms, len) + Layer(ms, len)
  {
  }

  lemma SameFront(a: seq<Item>, b: seq<Item>, c: seq<Item>, len: nat, i: nat)
    requires forall m :: m in b ==> m.length == len
    requires forall m :: m in c ==> m.length == len
    requires i < |a + b| && i < |a + c|
    ensures (a + b)[i].length == (a + c)[i].length
  {
    if i >= |a| {
      assert b[i - |a|] in b && c[i - |a|] in c;
    }
  }

  /** Finding all the matches shorter than `len` and some of those as long gives the first matches
      their lengths: only which of the longest come first may differ. */
  lemma SameLengthsFirst(some: seq<Item>, all: seq<Item>, len: nat, n: nat)
    requires Short(some, len - 1) == Short(all, len - 1) && forall m :: m in some ==> m.length <= len
    requires n <= |some| <= |Short(all, len)|
    ensures n <= |SortedByLength(some)| && n <= |SortedByLength(all)|
    ensures forall i :: 0 <= i < n ==> SortedByLength(some)[i].length == SortedByLength(all)[i].length
  {
    hide Layers, Layer, Short, SortedByLength;
    ShortLayers(some, len - 1, len);
    ShortLayers(all, len - 1, len);
    ShortAll(some, len);
    SortedFront(some, len);
    SortedFront(all, len);
    forall i | 0 <= i < n
      ensures SortedByLength(some)[i].length == SortedByLength(all)[i].length
    {
      SameFront(Layers(all, len), Layer(some, len), Layer(all, len), len, i);
    }
  }

  // ------------------------------------------------------------- partitions

  function GroupOf(ms: seq<Item>, key: (int, int)): seq<Item> {
    if ms == [] then []
    else
      var m := ms[|ms| - 1];
      GroupOf(ms[..|ms| - 1], key) + if m.key == key then [m] else []
  }

  /** The partitions in first-seen order. */
  function Keys(ms: seq<Item>): seq<(int, int)> {
    if ms == [] then []
    else
      var ks := Keys(ms[..|ms| - 1]);
      if ms[|ms| - 1].key in ks then ks else ks + [ms[|ms| - 1].key]
  }

  function ChooseEach(kind: Kind, k: nat, ms: seq<Item>, keys: seq<(int, int)>): seq<Item> {
    if keys == [] then []
    else
      ChooseEach(kind, k, ms, keys[..|keys| - 1]) +
      Choose(kind, k, SortedByLength(GroupOf(ms, keys[|keys| - 1])))
  }

  /** The selector's result: every partition reduced on its own, in first-seen order. */
  function ChooseAll(kind: Kind, k: nat, ms: seq<Item>): seq<Item> {
    ChooseEach(kind, k, ms, Keys(ms))
  }

  lemma {:induction false} OneGroup(ms: seq<Item>, key: (int, int))
    requires forall i :: 0 <= i < |ms| ==> ms[i].key == key
    ensures GroupOf(ms, key) == ms
    ensures Keys(ms) == if ms == [] then [] else [key]
  {
    if ms != [] {
      OneGroup(ms[..|ms| - 1], key);
    }
  }

  /** With a single partition the selector reduces all the matches together. */
  lemma ChooseOne(kind: Kind, k: nat, ms: seq<Item>, key: (int, int))
    requires forall m :: m in ms ==> m.key == key
    ensures ChooseAll(kind, k, ms) == Choose(kind, k, SortedByLength(ms))
  {
    OneGroup(ms, key);
    if ms == [] {
      LayerSum(ms, 1);
    } else {
      assert [key][..0] == [];
      assert ChooseEach(kind, k, ms, []) == [];
    }
  }

  // ------------------------------------------------- what a selector keeps

  /** The lengths below `len`. */
  function Below(ms: seq<Item>, len: int): set<int> {
    set m | m in ms && m.length < len :: m.length
  }

  /** No match left out is shorter than one that is kept. */
  ghost predicate NoShorterLeft(all: seq<Item>, kept: seq<Item>) {
    forall m, n :: m in kept && n in multiset(all) - multiset(kept) ==> m.length <= n.length
  }

  /** Every match that meets the condition is kept, as often as it occurs, and no other. */
  ghost predicate KeepsExactly(all: seq<Item>, kept: seq<Item>, keep: Item -> bool) {
    forall m :: multiset(kept)[m] == if keep(m) then multiset(all)[m] else 0
  }

  /** What a selector owes one partition, whatever order the matches came in: shorter ones first,
      and of one length the earlier ones. */
  ghost predicate Reduces(kind: Kind, k: nat, all: seq<Item>, kept: seq<Item>) {
    && multiset(kept) <= multiset(all) && Ascending(kept)
    && (forall len: nat :: Layer(kept, len) <= Layer(all, len))
    && match kind
       case SelAll => multiset(kept) == multiset(all)
       case SelAny => |kept| == (if k < |all| then k else |all|)
       case SelShortest => |kept| == (if k < |all| then k else |all|) && NoShorterLeft(all, kept)
       case SelAnyShortest => |kept| == 1 && NoShorterLeft(all, kept)
       case SelAllShortest => KeepsExactly(all, kept, (m: Item) => forall n :: n in all ==> m.length <= n.length)
       case SelShortestGroups => KeepsExactly(all, kept, (m: Item) => |Below(all, m.length)| < k)
  }

  lemma BagCons<T>(x: T, s: seq<T>)
    ensures multiset([x] + s) == multiset{x} + multiset(s)
  {
  }

  lemma LayerFirst(m: Item, ms: seq<Item>, len: nat)
    ensures Layer([m] + ms, len) == if m.length == len then [m] + Layer(ms, len) else Layer(ms, len)
  {
    assert ([m] + ms)[1..] == ms;
  }

  lemma ShortFirst(m: Item, ms: seq<Item>, len: int)
    ensures Short([m] + ms, len) == if m.length <= len then [m] + Short(ms, len) else Short(ms, len)
  {
    assert ([m] + ms)[1..] == ms;
  }

  lemma NoneShort(len: int)
    ensures Short([], len) == []
    ensures len >= 0 ==> Layer([], len) == []
  {
  }

  lemma {:induction false} ShortBag(ms: seq<Item>, n: nat)
    ensures multiset(Short(ms, n)) == multiset(Short(ms, n - 1)) + multiset(Layer(ms, n))
  {
    hide Short, Layer;
    NoneShort(n);
    NoneShort(n - 1);
    if ms != [] {
      var m, tail := ms[0], ms[1..];
      assert ms == [m] + tail;
      ShortBag(tail, n);
      ShortFirst(m, tail, n);
      ShortFirst(m, tail, n - 1);
      LayerFirst(m, tail, n);
      BagCons(m, Short(tail, n));
      BagCons(m, Short(tail, n - 1));
      BagCons(m, Layer(tail, n));
    }
  }

  lemma {:induction false} LayersBag(ms: seq<Item>, n: nat)
    ensures multiset(Layers(ms, n)) == multiset(Short(ms, n - 1))
  {
    hide Short, Layer, Layers;
    if n == 0 {
      ShortMember(ms, -1);
      NoMembers(Short(ms, -1));
      NoLayers(ms);
    } else {
      LayersBag(ms, n - 1);
      ShortBag(ms, n - 1);
      LayersStep(ms, n - 1);
      BagSum(Layers(ms, n - 1), Layer(ms, n - 1));
    }
  }

  lemma NoLayers(ms: seq<Item>)
    ensures Layers(ms, 0) == []
  {
  }

  lemma BagSum<T>(a: seq<T>, b: seq<T>)
    ensures multiset(a + b) == multiset(a) + multiset(b)
  {
  }

  lemma {:induction false} LayerConcat(a: seq<Item>, b: seq<Item>, len: nat)
    ensures Layer(a + b, len) == Layer(a, len) + Layer(b, len)
  {
    hide Layer;
    NoneShort(len);
    if a == [] {
      assert a + b == b;
    } else {
      var m, tail := a[0], a[1..];
      assert a == [m] + tail && a + b == [m] + (tail + b);
      LayerConcat(tail, b, len);
      LayerFirst(m, tail, len);
      LayerFirst(m, tail + b, len);
    }
  }

  lemma {:induction false} LayerOfLayer(ms: seq<Item>, n: nat, len: nat)
    ensures Layer(Layer(ms, n), len) == if len == n then Layer(ms, len) else []
  {
    hide Layer;
    NoneShort(n);
    NoneShort(len);
    if ms != [] {
      var m, tail := ms[0], ms[1..];
      assert ms == [m] + tail;
      LayerOfLayer(tail, n, len);
      LayerFirst(m, tail, n);
      LayerFirst(m, tail, len);
      LayerFirst(m, Layer(tail, n), len);
    }
  }

  lemma {:induction false} LayerOfLayers(ms: seq<Item>, n: nat, len: nat)
    ensures Layer(Layers(ms, n), len) == if len < n then Layer(ms, len) else []
  {
    if n > 0 {
      LayerOfLayers(ms, n - 1, len);
      LayerConcat(Layers(ms, n - 1), Layer(ms, n - 1), len);
      LayerOfLayer(ms, n - 1, len);
    }
  }

  /** The sort is a stable permutation. */
  lemma SortedIs(ms: seq<Item>)
    ensures multiset(SortedByLength(ms)) == multiset(ms) && Ascending(SortedByLength(ms))
    ensures forall len: nat :: Layer(SortedByLength(ms), len) == Layer(ms, len)
  {
    hide Layer, Layers, Short;
    MaxLengthBounds(ms);
    LayersBag(ms, MaxLength(ms) + 1);
    ShortAll(ms, MaxLength(ms));
    LayersAscending(ms, MaxLength(ms) + 1);
    forall len: nat
      ensures Layer(SortedByLength(ms), len) == Layer(ms, len)
    {
      LayerOfLayers(ms, MaxLength(ms) + 1, len);
      LayerMember(ms, len);
      if len > MaxLength(ms) {
        NoMembers(Layer(ms, len));
      }
    }
  }

  /** The leading groups are a prefix, cut where `k` smaller lengths have been seen. */
  lemma {:induction false} GroupsIs(p: seq<Item>, last: int, k: int)
    requires Ascending(p) && forall m :: m in p ==> m.length >= last
    ensures Groups(p, last, k) <= p
    ensures forall i :: 0 <= i < |p| ==>
      (i < |Groups(p, last, k)| <==> p[i].length == last || |Below(p, p[i].length) - {last}| < k)
    decreases |p|
  {
    hide Ascending, Below, Groups, Lengths;
    if p == [] {
      GroupsNone(last, k);
    } else {
      var t, next := p[1..], if p[0].length == last then k else k - 1;
      AscendingTail(p, last);
      assert p == [p[0]] + t;
      if p[0].length == last || k > 0 {
        GroupsFirst(p, last, k);
        GroupsIs(t, p[0].length, next);
      } else {
        GroupsEnd(p, last, k);
      }
      forall i | 0 <= i < |p|
        ensures i < |Groups(p, last, k)| <==> p[i].length == last || |Below(p, p[i].length) - {last}| < k
      {
        assert p[i] in p;
        if i > 0 {
          assert p[i] == t[i - 1] && t[i - 1] in t;
        }
        BelowFirst(p, last, p[i].length);
      }
    }
  }

  lemma GroupsEnd(p: seq<Item>, last: int, k: int)
    requires p != [] && p[0].length != last && k <= 0
    ensures Groups(p, last, k) == []
  {
  }

  /** How the first match counts among the smaller lengths. */
  lemma BelowFirst(p: seq<Item>, last: int, len: int)
    requires p != [] && Ascending(p) && (forall m :: m in p ==> m.length >= last) && len >= p[0].length
    ensures p[0].length == last ==> Below(p, len) - {last} == Below(p[1..], len) - {last}
    ensures p[0].length != last && len == p[0].length ==> Below(p, len) - {last} == {}
    ensures p[0].length != last && len > p[0].length ==>
      |Below(p, len) - {last}| == |Below(p[1..], len) - {p[0].length as int}| + 1
  {
    var here: int := p[0].length;
    var a, b := Below(p, len), Below(p[1..], len);
    AscendingTail(p, last);
    BelowSplit(p, len);
    if here != last && len > here {
      assert a - {last} == (b - {here}) + {here};
    }
    if here != last && len == here {
      assert forall m :: m in p ==> m.length >= here by {
        assert p == [p[0]] + p[1..];
      }
    }
  }

  lemma BelowSplit(p: seq<Item>, len: int)
    requires p != []
    ensures Below(p, len) == Below(p[1..], len) + if p[0].length < len then {p[0].length as int} else {}
  {
    var m, t := p[0], p[1..];
    assert p == [m] + t;
    assert m in p;
    forall x | x in Below(t, len)
      ensures x in Below(p, len)
    {
      var n :| n in t && n.length < len && n.length == x;
      assert n in p;
    }
  }

  lemma Cut<T>(p: seq<T>, n: nat)
    requires n <= |p|
    ensures multiset(p) == multiset(p[..n]) + multiset(p[n..])
    ensures forall x :: x in p[..n] ==> exists i :: 0 <= i < n && p[i] == x
    ensures forall x :: x in p[n..] ==> exists i :: n <= i < |p| && p[i] == x
  {
    assert p == p[..n] + p[n..];
    forall x | x in p[n..]
      ensures exists i :: n <= i < |p| && p[i] == x
    {
      var i :| 0 <= i < |p| - n && p[n..][i] == x;
      assert p[n + i] == x;
    }
  }

  /** A prefix cut by a condition on lengths keeps exactly what meets it. */
  lemma CutBag(all: seq<Item>, p: seq<Item>, n: nat, keep: Item -> bool)
    requires n <= |p| && multiset(p) == multiset(all) && forall i :: 0 <= i < |p| ==> (i < n <==> keep(p[i]))
    ensures KeepsExactly(all, p[..n], keep)
  {
    Cut(p, n);
    forall m
      ensures multiset(p[..n])[m] == if keep(m) then multiset(all)[m] else 0
    {
      assert m in p[n..] <==> m in multiset(p[n..]);
      assert m in p[..n] <==> m in multiset(p[..n]);
    }
  }

  lemma BelowSame(a: seq<Item>, b: seq<Item>)
    requires multiset(a) == multiset(b)
    ensures forall len :: Below(a, len) == Below(b, len)
  {
    assert forall m :: m in a <==> m in multiset(a);
    assert forall m :: m in b <==> m in multiset(b);
  }

  lemma PrefixNoShorter(all: seq<Item>, p: seq<Item>, n: nat)
    requires n <= |p| && multiset(p) == multiset(all) && Ascending(p)
    ensures multiset(p[..n]) <= multiset(all) && Ascending(p[..n]) && NoShorterLeft(all, p[..n])
  {
    Cut(p, n);
    assert multiset(all) - multiset(p[..n]) == multiset(p[n..]);
    forall x, y | x in p[..n] && y in multiset(all) - multiset(p[..n])
      ensures x.length <= y.length
    {
      assert y in p[n..];
      var i :| 0 <= i < n && p[i] == x;
      var j :| n <= j < |p| && p[j] == y;
    }
  }

  /** The first `n` of the sorted matches of each length are the first of them. */
  lemma PrefixStable(all: seq<Item>, p: seq<Item>, n: nat)
    requires n <= |p| && forall len: nat :: Layer(p, len) == Layer(all, len)
    ensures forall len: nat :: Layer(p[..n], len) <= Layer(all, len)
  {
    hide Layer;
    assert p == p[..n] + p[n..];
    forall len: nat
      ensures Layer(p[..n], len) <= Layer(all, len)
    {
      LayerConcat(p[..n], p[n..], len);
    }
  }

  lemma GroupsBag(all: seq<Item>, p: seq<Item>, k: nat)
    requires multiset(p) == multiset(all) && Ascending(p)
    ensures Groups(p, -1, k) <= p && KeepsExactly(all, Groups(p, -1, k), (m: Item) => |Below(all, m.length)| < k)
  {
    hide Ascending, Below, Groups, KeepsExactly;
    var kept := Groups(p, -1, k);
    GroupsIs(p, -1, k);
    BelowSame(all, p);
    forall len
      ensures Below(p, len) - {-1} == Below(p, len)
    {
      BelowNat(p, len);
    }
    assert kept == p[..|kept|];
    CutBag(all, p, |kept|, (m: Item) => |Below(all, m.length)| < k);
  }

  lemma BelowNat(p: seq<Item>, len: int)
    ensures -1 !in Below(p, len)
  {
  }

  lemma NoneBelow(all: seq<Item>, len: nat)
    ensures |Below(all, len)| < 1 <==> forall n :: n in all ==> len <= n.length
  {
    if n :| n in all && n.length < len {
      assert n.length as int in Below(all, len);
    } else {
      assert Below(all, len) == {};
    }
  }

  lemma AllShortestBag(all: seq<Item>, p: seq<Item>)
    requires multiset(p) == multiset(all) && Ascending(p)
    ensures Groups(p, -1, 1) <= p
    ensures KeepsExactly(all, Groups(p, -1, 1), (m: Item) => forall n :: n in all ==> m.length <= n.length)
  {
    hide Below, Groups, Ascending;
    GroupsBag(all, p, 1);
    forall m: Item
      ensures |Below(all, m.length)| < 1 <==> forall n :: n in all ==> m.length <= n.length
    {
      NoneBelow(all, m.length);
    }
  }

  /** What `Choose` keeps of a partition. */
  lemma ChooseReduces(kind: Kind, k: nat, all: seq<Item>)
    requires all != [] && k >= 1
    ensures Reduces(kind, k, all, Choose(kind, k, SortedByLength(all)))
  {
    hide Ascending, Layer, Below, Groups, NoShorterLeft, SortedByLength, KeepsExactly;
    var p := SortedByLength(all);
    SortedIs(all);
    SortedSize(all);
    var kept := Choose(kind, k, p);
    GroupsBag(all, p, k);
    AllShortestBag(all, p);
    assert kept == p[..|kept|];
    PrefixNoShorter(all, p, |kept|);
    PrefixStable(all, p, |kept|);
  }

  function Flat(picks: seq<seq<Item>>): seq<Item> {
    if picks == [] then [] else Flat(picks[..|picks| - 1]) + picks[|picks| - 1]
  }

  /** Every (start, end) partition is reduced on its own, in first-seen order. */
  ghost predicate Selects(kind: Kind, k: nat, found: seq<Item>, picks: seq<seq<Item>>) {
    && |picks| == |Keys(found)|
    && forall i :: 0 <= i < |picks| ==> Reduces(kind, k, GroupOf(found, Keys(found)[i]), picks[i])
  }

  lemma {:induction false} ChooseEachFlat(kind: Kind, k: nat, ms: seq<Item>, keys: seq<(int, int)>) returns (picks: seq<seq<Item>>)
    requires k >= 1 && forall key :: key in keys ==> GroupOf(ms, key) != []
    ensures |picks| == |keys| && Flat(picks) == ChooseEach(kind, k, ms, keys)
    ensures forall i :: 0 <= i < |picks| ==> Reduces(kind, k, GroupOf(ms, keys[i]), picks[i])
    decreases |keys|
  {
    hide Reduces, GroupOf, Choose, SortedByLength;
    if keys == [] {
      picks := [];
    } else {
      var n := |keys| - 1;
      var init := ChooseEachFlat(kind, k, ms, keys[..n]);
      assert keys[n] in keys;
      ChooseReduces(kind, k, GroupOf(ms, keys[n]));
      picks := init + [Choose(kind, k, SortedByLength(GroupOf(ms, keys[n])))];
      assert picks[..|picks| - 1] == init;
    }
  }

  lemma GroupLast(init: seq<Item>, m: Item, key: (int, int))
    ensures GroupOf(init + [m], key) == GroupOf(init, key) + if m.key == key then [m] else []
  {
    assert (init + [m])[..|init|] == init;
  }

  /** A partition holds the matches with its ends, each as often as it was found. */
  lemma {:induction false} GroupBag(ms: seq<Item>, key: (int, int))
    ensures forall m :: multiset(GroupOf(ms, key))[m] == if m.key == key then multiset(ms)[m] else 0
  {
    if ms != [] {
      var init, last := ms[..|ms| - 1], ms[|ms| - 1];
      assert ms == init + [last];
      GroupBag(init, key);
      GroupLast(init, last, key);
      BagSum(init, [last]);
      BagSum(GroupOf(init, key), [last]);
      hide GroupOf;
    }
  }

  lemma {:induction false} KeysMember(ms: seq<Item>)
    ensures Distinct(Keys(ms))
    ensures forall key :: key in Keys(ms) <==> exists i :: 0 <= i < |ms| && ms[i].key == key
  {
    if ms != [] {
      var n := |ms| - 1;
      KeysMember(ms[..n]);
      forall key
        ensures key in Keys(ms) <==> exists i :: 0 <= i < |ms| && ms[i].key == key
      {
        if i :| 0 <= i < |ms| && ms[i].key == key && i < n {
          assert ms[..n][i].key == key;
        }
        if key in Keys(ms[..n]) {
          var i :| 0 <= i < n && ms[..n][i].key == key;
          assert ms[i].key == key;
        }
        if key == ms[n].key {
          assert ms[n].key == key;
        }
      }
    }
  }

  /** Of two partitions the earlier one was seen before any match of the later one. */
  lemma {:induction false} KeysFirstSeen(ms: seq<Item>, i: nat, j: nat)
    requires i < j < |Keys(ms)|
    ensures exists p :: 0 <= p < |ms| && ms[p].key == Keys(ms)[i] && forall q :: 0 <= q <= p ==> ms[q].key != Keys(ms)[j]
    decreases |ms|
  {
    var n := |ms| - 1;
    var init, ks := ms[..n], Keys(ms[..n]);
    if j < |ks| {
      KeysFirstSeen(init, i, j);
      var p :| 0 <= p < n && init[p].key == ks[i] && forall q :: 0 <= q <= p ==> init[q].key != ks[j];
      assert ms[p].key == Keys(ms)[i];
      assert forall q :: 0 <= q <= p ==> ms[q] == init[q];
    } else {
      KeysMember(init);
      assert ks[i] in ks;
      var p :| 0 <= p < |init| && init[p].key == ks[i];
      assert ms[p].key == Keys(ms)[i];
      forall q | 0 <= q <= p
        ensures ms[q].key != Keys(ms)[j]
      {
        assert init[q].key in ks;
      }
    }
  }

  /** The selector's result in these terms. */
  lemma ChooseAllSelects(kind: Kind, k: nat, ms: seq<Item>) returns (picks: seq<seq<Item>>)
    requires k >= 1
    ensures Selects(kind, k, ms, picks) && Flat(picks) == ChooseAll(kind, k, ms)
  {
    hide Reduces, GroupOf, Choose, SortedByLength;
    KeysMember(ms);
    forall key | key in Keys(ms)
      ensures GroupOf(ms, key) != []
    {
      var i :| 0 <= i < |ms| && ms[i].key == key;
      GroupBag(ms, key);
      assert ms[i] in multiset(ms) && ms[i] in multiset(GroupOf(ms, key));
    }
    picks := ChooseEachFlat(kind, k, ms, Keys(ms));
  }
}
