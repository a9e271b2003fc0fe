/**
  What a path means, without a stack (src/path.cc): a name stays unless later
  `..` fields lead above it, and a relative path is refused when its fields
  lead above its start or when no name stays.
 */
module PathMeaning {
  import opened Options
  import opened Fields
  import opened Paths
  import opened PathTheorems

  /** How a field changes the level: a name leads down, `..` up. */
  function Descent(f: string): int {
    if f == "" || f == "." then 0 else if f == ".." then -1 else 1
  }

  function Level(fields: seq<string>): int {
    if fields == [] then 0 else Descent(fields[0]) + Level(fields[1..])
  }

  /** The fields lead above their start. */
  predicate Escapes(fields: seq<string>) {
    exists j :: 0 <= j <= |fields| && Level(fields[..j]) < 0
  }

  /** The first field is a name, and the fields behind it never lead above it. */
  predicate Stays(fields: seq<string>)
    requires fields != []
  {
    Descent(fields[0]) == 1 && !Escapes(fields[1..])
  }

  /** The names that stay. */
  function Staying(fields: seq<string>): seq<string> {
    if fields == [] then []
    else (if Stays(fields) then [fields[0]] else []) + Staying(fields[1..])
  }

  // ---------- the fold ----------

  /** The lowest level reached. */
  function Low(fields: seq<string>): int {
    if fields == [] then 0
    else
      var low := Descent(fields[0]) + Low(fields[1..]);
      if low < 0 then low else 0
  }

  lemma {:induction false} LowIsLeast(fields: seq<string>, j: nat)
    requires j <= |fields|
    ensures Low(fields) <= 0 && Low(fields) <= Level(fields[..j])
    decreases |fields|
  {
    if j > 0 {
      LowIsLeast(fields[1..], j - 1);
      assert fields[..j][1..] == fields[1..][..j - 1];
    }
  }

  lemma {:induction false} LowIsReached(fields: seq<string>) returns (j: nat)
    ensures j <= |fields| && Low(fields) == Level(fields[..j])
    decreases |fields|
  {
    if fields == [] {
      j := 0;
    } else {
      j := LowIsReached(fields[1..]);
      if Descent(fields[0]) + Low(fields[1..]) < 0 {
        j := j + 1;
        assert fields[..j][1..] == fields[1..][..j - 1];
      } else {
        j := 0;
      }
    }
  }

  lemma {:induction false} EscapesIffLow(fields: seq<string>)
    ensures Escapes(fields) <==> Low(fields) < 0
  {
    var j := LowIsReached(fields);
    forall i: nat | i <= |fields| && Level(fields[..i]) < 0 ensures Low(fields) < 0 {
      LowIsLeast(fields, i);
    }
  }

  /** What a fold leaves of a stack, and what it puts on it. */
  function Folded(rooted: bool, fields: seq<string>, names: seq<string>): Option<seq<string>> {
    var kept := |names| + Low(fields);
    if kept >= 0 && kept <= |names| then Some(names[..kept] + Staying(fields))
    else if rooted then Some(Staying(fields))
    else None
  }

  lemma {:induction false} LowNotPositive(fields: seq<string>)
    ensures Low(fields) <= 0
  {
  }

  lemma {:induction false} FoldedName(rooted: bool, f: string, rest: seq<string>, names: seq<string>)
    requires Descent(f) == 1
    ensures Folded(rooted, rest, names + [f]) == Folded(rooted, [f] + rest, names)
  {
    var fields := [f] + rest;
    assert fields[1..] == rest;
    LowNotPositive(rest);
    EscapesIffLow(rest);
    var kept := |names| + 1 + Low(rest);
    if Low(rest) == 0 {
      assert (names + [f])[..kept] == names + [f];
      assert names[..|names|] == names;
      Regroup(names, [f], Staying(rest));
    } else {
      assert kept >= 0 ==> (names + [f])[..kept] == names[..kept];
      assert Staying(fields) == Staying(rest);
    }
  }

  lemma {:induction false} FoldedUp(rooted: bool, rest: seq<string>, names: seq<string>)
    ensures names != [] ==> Folded(rooted, rest, names[..|names| - 1]) == Folded(rooted, [".."] + rest, names)
    ensures names == [] ==> Folded(true, rest, []) == Folded(true, [".."] + rest, [])
    ensures names == [] ==> Folded(false, [".."] + rest, []) == None
  {
    var fields := [".."] + rest;
    assert fields[1..] == rest;
    LowNotPositive(rest);
    assert Staying(fields) == Staying(rest);
    if names != [] {
      var kept := |names| - 1 + Low(rest);
      assert kept >= 0 ==> names[..|names| - 1][..kept] == names[..kept];
    } else {
      assert [] + Staying(rest) == Staying(rest);
    }
  }

  lemma {:induction false} FoldedNothing(rooted: bool, f: string, rest: seq<string>, names: seq<string>)
    requires Descent(f) == 0
    ensures Folded(rooted, rest, names) == Folded(rooted, [f] + rest, names)
  {
    assert ([f] + rest)[1..] == rest;
    LowNotPositive(rest);
    assert Staying([f] + rest) == Staying(rest);
  }

  lemma {:induction false} FoldIsFolded(rooted: bool, fields: seq<string>, names: seq<string>)
    ensures Fold(rooted, fields, names) == Folded(rooted, fields, names)
    decreases |fields|
  {
    if fields == [] {
      assert names[..|names|] + [] == names;
    } else {
      var f, rest := fields[0], fields[1..];
      assert fields == [f] + rest;
      if f == "" || f == "." {
        FoldIsFolded(rooted, rest, names);
        FoldedNothing(rooted, f, rest, names);
      } else if f == ".." {
        FoldedUp(rooted, rest, names);
        FoldIsFolded(rooted, rest, if names != [] then names[..|names| - 1] else names);
      } else {
        FoldIsFolded(rooted, rest, names + [f]);
        FoldedName(rooted, f, rest, names);
      }
    }
  }

  /** The scan finds the names that stay, and refuses exactly a relative path that leads above its start. */
  lemma {:induction false} FoldMeaning(rooted: bool, fields: seq<string>)
    ensures Fold(rooted, fields, []) == if !rooted && Escapes(fields) then None else Some(Staying(fields))
  {
    FoldIsFolded(rooted, fields, []);
    EscapesIffLow(fields);
    LowNotPositive(fields);
    assert [] + Staying(fields) == Staying(fields);
  }

  // ---------- the path ----------

  /** A letter and a colon, in front. */
  predicate OnDrive(x: string) {
    |x| >= 2 && x[1] == ':' && ('a' <= x[0] <= 'z' || 'A' <= x[0] <= 'Z')
  }

  predicate FromStart(x: string) {
    !OnDrive(x) && (x == "" || x[0] !in {'/', '\\'})
  }

  predicate HasControl(x: string) {
    exists i :: 0 <= i < |x| && (x[i] as int < 32 || x[i] as int == 127)
  }

  /** The fields of a path behind its drive. */
  function FieldsOf(x: string): seq<string> {
    Split('/', Forward(if OnDrive(x) then x[2..] else x))
  }

  lemma {:induction false} RootIs(x: string)
    ensures var root := RootOf(Forward(x));
            && (root.Relative? <==> FromStart(x))
            && (root.Drive? <==> OnDrive(x))
            && (OnDrive(x) ==> root.letter as int == x[0] as int + if 'A' <= x[0] <= 'Z' then 32 else 0)
    ensures Split('/', AfterDrive(Forward(x))) == FieldsOf(x)
  {
    if OnDrive(x) {
      assert Forward(x)[2..] == Forward(x[2..]);
    }
  }

  /** The meaning of a path: its root, with the drive in lower case, and the names that stay. */
  lemma {:induction false} ResolveMeaning(x: string)
    ensures var r := Resolve(x);
            && (r.None? <==>
                  || x == "" || |x| > 4096 || HasControl(x)
                  || (FromStart(x) && (Escapes(FieldsOf(x)) || Staying(FieldsOf(x)) == [])))
            && (r.Some? ==>
                  && r.value.names == Staying(FieldsOf(x))
                  && (r.value.root.Relative? <==> FromStart(x))
                  && (r.value.root.Drive? <==> OnDrive(x))
                  && (OnDrive(x) ==>
                        r.value.root.letter as int == x[0] as int + if 'A' <= x[0] <= 'Z' then 32 else 0))
  {
    RootIs(x);
    FoldMeaning(!FromStart(x), FieldsOf(x));
    assert Acceptable(x) <==> x != "" && |x| <= 4096 && !HasControl(x);
  }

  /** The canonical spelling: the drive or slash, and the names that stay with a slash between each two. */
  lemma {:induction false} CanonicalMeaning(x: string)
    requires Canonical(x) != ""
    ensures var names := Join('/', Staying(FieldsOf(x)));
            Canonical(x) == if FromStart(x) then names
                            else if OnDrive(x) then [ToLower(x[0]), ':', '/'] + names
                            else "/" + names
  {
    ResolveMeaning(x);
    CanonicalShape(x);
  }

  /** The letter that a drive becomes. */
  lemma {:induction false} LowerCase(c: char)
    ensures 'A' <= c <= 'Z' ==> ToLower(c) as int == c as int + 32
    ensures !('A' <= c <= 'Z') ==> ToLower(c) == c
  {
  }

  /** Where no name stays, a relative path is refused and any other is its root. */
  lemma {:induction false} EmptyMeaning(x: string)
    requires x != "" && |x| <= 4096 && !HasControl(x) && Staying(FieldsOf(x)) == []
    ensures Canonical(x) == if FromStart(x) then "" else if OnDrive(x) then [ToLower(x[0]), ':', '/'] else "/"
  {
    ResolveMeaning(x);
    CanonicalShape(x);
    if !FromStart(x) {
      CanonicalMeaning(x);
    }
  }

  /** A directory and back is refused, and so is no step at all. */
  lemma {:induction false} CancelledRefused(name: string)
    requires Ordinary(name) && |name| <= 4000 && !OnDrive(name)
    ensures Canonical(".") == "" && Canonical(name + "/" + "..") == ""
  {
    NoStep(".");
    DownAndBack(name, name + "/" + "..");
  }

  lemma {:induction false} NoStep(x: string)
    requires x == "."
    ensures Canonical(x) == ""
  {
    assert Forward(x) == x;
    SplitWhole('/', x);
    SingleStaying(x);
    EmptyMeaning(x);
  }

  lemma {:induction false} DownAndBack(name: string, x: string)
    requires Ordinary(name) && |name| <= 4000 && !OnDrive(name) && x == name + "/" + ".."
    ensures Canonical(x) == ""
  {
    assert x[0] == name[0] && x[1] == (name + "/")[1];
    PlainSpelling(name, x);
    SplitHead('/', name, "..");
    SplitWhole('/', "..");
    DownAndUp(name);
    EmptyMeaning(x);
  }

  lemma {:induction false} PlainSpelling(name: string, x: string)
    requires Plain(name) && x == name + "/" + ".."
    ensures Forward(x) == x && !HasControl(x)
  {
    assert Plain("/" + "..");
    assert x == name + ("/" + "..");
    ForwardPlain(x);
  }

  lemma {:induction false} SingleStaying(f: string)
    requires Descent(f) != 1
    ensures Staying([f]) == []
  {
    assert [f][1..] == [];
  }

  lemma {:induction false} DownAndUp(name: string)
    requires Ordinary(name)
    ensures Staying([name] + [".."]) == []
  {
    var fields := [name] + [".."];
    assert fields[1..] == [".."] && [".."][1..] == [];
    assert Level([".."][..1]) == -1;
    SingleStaying("..");
  }
}
