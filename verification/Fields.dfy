/** Text fields around a separator character: splitting, joining, and that they undo each other. */
module Fields {
  predicate NoSep(sep: char, s: string) {
    forall i :: 0 <= i < |s| ==> s[i] != sep
  }

  function FirstSep(sep: char, s: string): (k: nat)
    ensures k <= |s|
    ensures k < |s| ==> s[k] == sep
    ensures forall i :: 0 <= i < k ==> s[i] != sep
  {
    if s == "" || s[0] == sep then 0 else 1 + FirstSep(sep, s[1..])
  }

  /** The fields between separators, empty ones included. */
  function Split(sep: char, s: string): (fields: seq<string>)
    ensures fields != []
    decreases |s|
  {
    var k := FirstSep(sep, s);
    if k == |s| then [s] else [s[..k]] + Split(sep, s[k + 1..])
  }

  function Join(sep: char, fields: seq<string>): string {
    if fields == [] then ""
    else if |fields| == 1 then fields[0]
    else fields[0] + [sep] + Join(sep, fields[1..])
  }

  /** Concatenation may be regrouped. */
  lemma {:induction false} Regroup<T>(a: seq<T>, b: seq<T>, c: seq<T>)
    ensures a + (b + c) == a + b + c
  {
  }

  lemma {:induction false} FirstSepIs(sep: char, s: string, k: nat)
    requires k <= |s| && (k < |s| ==> s[k] == sep) && forall i :: 0 <= i < k ==> s[i] != sep
    ensures FirstSep(sep, s) == k
  {
  }

  lemma {:induction false} SplitWhole(sep: char, s: string)
    requires NoSep(sep, s)
    ensures Split(sep, s) == [s]
  {
    FirstSepIs(sep, s, |s|);
  }

  lemma {:induction false} SplitHead(sep: char, a: string, b: string)
    requires NoSep(sep, a)
    ensures Split(sep, a + [sep] + b) == [a] + Split(sep, b)
  {
    var w := a + [sep] + b;
    FirstSepIs(sep, w, |a|);
    assert w[..|a|] == a && w[|a| + 1..] == b;
  }

  lemma {:induction false} SplitConcatStep(sep: char, head: string, rest: string, b: string)
    requires NoSep(sep, head) && Split(sep, rest + [sep] + b) == Split(sep, rest) + Split(sep, b)
    ensures Split(sep, head + [sep] + rest + [sep] + b) == Split(sep, head + [sep] + rest) + Split(sep, b)
  {
    SplitHead(sep, head, rest);
    SplitHead(sep, head, rest + [sep] + b);
    Regroup(head + [sep], rest, [sep]);
    Regroup(head + [sep], rest + [sep], b);
    Regroup([head], Split(sep, rest), Split(sep, b));
  }

  lemma {:induction false} SplitConcat(sep: char, a: string, b: string)
    ensures Split(sep, a + [sep] + b) == Split(sep, a) + Split(sep, b)
    decreases |a|
  {
    var k := FirstSep(sep, a);
    if k == |a| {
      SplitHead(sep, a, b);
      SplitWhole(sep, a);
    } else {
      var head, rest := a[..k], a[k + 1..];
      assert a == head + [sep] + rest;
      SplitConcat(sep, rest, b);
      SplitConcatStep(sep, head, rest, b);
    }
  }

  lemma {:induction false} SplitJoin(sep: char, fields: seq<string>)
    requires fields != [] && forall i :: 0 <= i < |fields| ==> NoSep(sep, fields[i])
    ensures Split(sep, Join(sep, fields)) == fields
  {
    SplitWhole(sep, fields[0]);
    if |fields| > 1 {
      SplitJoin(sep, fields[1..]);
      SplitConcat(sep, fields[0], Join(sep, fields[1..]));
    }
  }

  lemma {:induction false} JoinConcat(sep: char, a: seq<string>, b: seq<string>)
    requires a != [] && b != []
    ensures Join(sep, a + b) == Join(sep, a) + [sep] + Join(sep, b)
  {
    if |a| == 1 {
      assert (a + b)[1..] == b;
    } else {
      assert (a + b)[1..] == a[1..] + b;
      JoinConcat(sep, a[1..], b);
    }
  }

  lemma {:induction false} JoinSnoc(sep: char, fields: seq<string>, field: string)
    ensures Join(sep, fields + [field]) == if fields == [] then field else Join(sep, fields) + [sep] + field
  {
    if fields == [] {
      assert fields + [field] == [field];
    } else {
      JoinConcat(sep, fields, [field]);
    }
  }

  /** No field holds a separator. */
  lemma {:induction false} SplitFields(sep: char, s: string)
    ensures forall i :: 0 <= i < |Split(sep, s)| ==> NoSep(sep, Split(sep, s)[i])
    decreases |s|
  {
    var k := FirstSep(sep, s);
    if k < |s| {
      SplitFields(sep, s[k + 1..]);
    }
  }
}
