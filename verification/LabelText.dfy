/** The label column: labels joined by commas into one text, and split again when a row is read.
    Which lists of labels survive. */
module LabelText {

  /** `strings.Join` with a comma. */
  function Join(ls: seq<string>): string {
    if ls == [] then ""
    else if |ls| == 1 then ls[0]
    else ls[0] + "," + Join(ls[1..])
  }

  /** `strings.Split` at commas: never empty. */
  function SplitAll(s: string): (r: seq<string>)
    ensures r != []
  {
    if s == "" then [""]
    else
      var rest := SplitAll(s[1..]);
      if s[0] == ',' then [""] + rest else [[s[0]] + rest[0]] + rest[1..]
  }

  /** `splitLabels` */
  function Split(s: string): seq<string> {
    if s == "" then [] else SplitAll(s)
  }

  predicate CommaFree(ls: seq<string>) {
    forall i :: 0 <= i < |ls| ==> ',' !in ls[i]
  }

  /** Lists of labels that the column can hold. */
  predicate Readable(ls: seq<string>) {
    ls != [""] && CommaFree(ls)
  }

  lemma {:induction false} SplitFree(s: string)
    ensures CommaFree(SplitAll(s))
    ensures SplitAll(s) == [""] ==> s == ""
    ensures Join(SplitAll(s)) == s
  {
    if s != "" {
      var rest := SplitAll(s[1..]);
      SplitFree(s[1..]);
      assert s == [s[0]] + s[1..];
      if s[0] == ',' {
        assert ([""] + rest)[1..] == rest;
      } else {
        var r := [[s[0]] + rest[0]] + rest[1..];
        assert r[1..] == rest[1..];
        if |rest| > 1 {
          assert rest == [rest[0]] + rest[1..];
        }
      }
    }
  }

  /** A text begins with its first label, up to the first comma. */
  lemma {:induction false} SplitHead(l: string, s: string)
    requires ',' !in l
    ensures SplitAll(l) == [l]
    ensures SplitAll(l + "," + s) == [l] + SplitAll(s)
  {
    if l == "" {
      assert l + "," + s == "," + s;
      assert ("," + s)[1..] == s;
    } else {
      SplitHead(l[1..], s);
      assert (l + "," + s)[1..] == l[1..] + "," + s;
      assert l == [l[0]] + l[1..];
      assert ([l[1..]] + SplitAll(s))[1..] == SplitAll(s);
    }
  }

  lemma {:induction false} SplitJoined(ls: seq<string>)
    requires ls != [] && CommaFree(ls)
    ensures SplitAll(Join(ls)) == ls
  {
    if |ls| == 1 {
      SplitHead(ls[0], "");
    } else {
      assert CommaFree(ls[1..]);
      SplitJoined(ls[1..]);
      SplitHead(ls[0], Join(ls[1..]));
      assert ls == [ls[0]] + ls[1..];
    }
  }

  /** What a column reads back as can be held by a column. */
  lemma SplitReadable(s: string)
    ensures Readable(Split(s)) && Join(Split(s)) == s
  {
    SplitFree(s);
  }

  /** The labels written are those read back exactly if no label has a comma and they are not the
      empty label alone. */
  lemma LabelsSurviveIff(ls: seq<string>)
    ensures Split(Join(ls)) == ls <==> Readable(ls)
  {
    SplitReadable(Join(ls));
    if Readable(ls) && ls != [] {
      SplitJoined(ls);
      assert SplitAll("") == [""];
    }
  }

  lemma CommaSplits()
    ensures Split(Join(["a,b"])) == ["a", "b"]
  {
    SplitHead("a", "b");
    SplitHead("b", "");
    assert "a,b" == "a" + "," + "b";
    assert Join(["a,b"]) == "a,b";
  }

  /** If they do not survive, not even the same labels are read back. */
  lemma LabelsLost(ls: seq<string>)
    requires !Readable(ls)
    ensures exists l :: l in ls && l !in Split(Join(ls))
  {
    SplitReadable(Join(ls));
    if ls == [""] {
      assert "" in ls && Split(Join(ls)) == [];
    } else {
      var i :| 0 <= i < |ls| && ',' in ls[i];
      assert ls[i] in ls;
    }
  }
}
