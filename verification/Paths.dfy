/**
  Lexical path canonicalisation for access control (src/path.cc).

  A path means a root and a list of names.  The specification reads a path in
  three passes - split into fields, fold the fields onto a stack of names,
  print - while the method below is the index loop of the source.  A byte
  string is a `string`; letter classification is ASCII.
 */
module Paths {
  import opened Options
  import opened Fields

  const MAX_INPUT := 4096

  datatype Root = Relative | Slash | Drive(letter: char)
  datatype Path = Path(root: Root, names: seq<string>)

  // ---------- characters ----------

  predicate IsControl(c: char) {
    c as int < 0x20 || c as int == 0x7f
  }

  predicate IsSeparator(c: char) {
    c == '/' || c == '\\'
  }

  predicate IsAlpha(c: char) {
    'a' <= c <= 'z' || 'A' <= c <= 'Z'
  }

  function ToLower(c: char): char {
    if 'A' <= c <= 'Z' then (c as int + 32) as char else c
  }

  function ForwardChar(c: char): char {
    if c == '\\' then '/' else c
  }

  function Forward(s: string): string {
    seq(|s|, i requires 0 <= i < |s| => ForwardChar(s[i]))
  }

  // ---------- the meaning of a path ----------

  predicate Acceptable(x: string) {
    && x != "" && |x| <= MAX_INPUT
    && forall i :: 0 <= i < |x| ==> !IsControl(x[i])
  }

  predicate StartsWithDrive(s: string) {
    |s| >= 2 && s[1] == ':' && IsAlpha(s[0])
  }

  function RootOf(s: string): Root {
    if StartsWithDrive(s) then Drive(ToLower(s[0]))
    else if s != "" && s[0] == '/' then Slash
    else Relative
  }

  function AfterDrive(s: string): string {
    if StartsWithDrive(s) then s[2..] else s
  }

  /** Applies the fields to a stack of names; None is a `..` above a relative start. */
  function Fold(rooted: bool, fields: seq<string>, names: seq<string>): Option<seq<string>> {
    if fields == [] then Some(names)
    else
      var f, rest := fields[0], fields[1..];
      if f == "" || f == "." then Fold(rooted, rest, names)
      else if f == ".." then
        if names != [] then Fold(rooted, rest, names[..|names| - 1])
        else if rooted then Fold(rooted, rest, names)
        else None
      else Fold(rooted, rest, names + [f])
  }

  /** What a path denotes; None when it is rejected (or denotes the empty relative path). */
  function Resolve(x: string): Option<Path> {
    if !Acceptable(x) then None
    else
      var s := Forward(x);
      var root := RootOf(s);
      match Fold(!root.Relative?, Split('/', AfterDrive(s)), [])
      case None => None
      case Some(names) => if root.Relative? && names == [] then None else Some(Path(root, names))
  }

  // ---------- printing ----------

  function RootText(root: Root): string {
    match root
    case Relative => ""
    case Slash => "/"
    case Drive(letter) => [letter, ':', '/']
  }

  function Print(p: Path): string {
    RootText(p.root) + Join('/', p.names)
  }

  /** The canonical spelling, "" for a rejected path. */
  function Canonical(x: string): string {
    match Resolve(x)
    case None => ""
    case Some(p) => Print(p)
  }

  // ---------- well-formed meanings ----------

  predicate Plain(s: string) {
    forall i :: 0 <= i < |s| ==> s[i] != '\\' && !IsControl(s[i])
  }

  predicate Ordinary(name: string) {
    name != "" && name != "." && name != ".." && NoSep('/', name) && Plain(name)
  }

  predicate AllOrdinary(names: seq<string>) {
    forall i :: 0 <= i < |names| ==> Ordinary(names[i])
  }

  predicate WellFormed(p: Path) {
    && AllOrdinary(p.names)
    && (p.root.Relative? ==> p.names != [])
    && (p.root.Drive? ==> 'a' <= p.root.letter <= 'z')
  }

  /** A relative path spelled like a drive path: its first name is a lower-case letter and a colon. */
  predicate ShadowsDrive(p: Path) {
    p.root.Relative? && p.names != [] && |p.names[0]| == 2 && p.names[0][1] == ':' && 'a' <= p.names[0][0] <= 'z'
  }

  predicate Under(p: Path, v: Path) {
    p.root == v.root && p.names <= v.names
  }

  // ---------- the source's own prefix test ----------

  function PrefixBound(prefix: string, val: string): bool {
    if prefix == "" then false
    else if |val| < |prefix| then false
    else if val[..|prefix|] != prefix then false
    else if |val| == |prefix| then true
    else if prefix[|prefix| - 1] == '/' then true
    else val[|prefix|] == '/'
  }

  // ---------- folding ----------

  lemma {:induction false} FoldConcat(rooted: bool, a: seq<string>, b: seq<string>, names: seq<string>)
    ensures Fold(rooted, a + b, names) ==
            match Fold(rooted, a, names)
            case None => None
            case Some(mid) => Fold(rooted, b, mid)
    decreases |a|
  {
    if a == [] {
      assert a + b == b;
    } else {
      assert (a + b)[1..] == a[1..] + b;
      var f := a[0];
      if f == "" || f == "." {
        FoldConcat(rooted, a[1..], b, names);
      } else if f == ".." {
        if names != [] {
          FoldConcat(rooted, a[1..], b, names[..|names| - 1]);
        } else if rooted {
          FoldConcat(rooted, a[1..], b, names);
        }
      } else {
        FoldConcat(rooted, a[1..], b, names + [f]);
      }
    }
  }

  lemma {:induction false} FoldSkipsEmpty(rooted: bool, fields: seq<string>, names: seq<string>)
    ensures Fold(rooted, [""] + fields, names) == Fold(rooted, fields, names)
  {
    assert ([""] + fields)[1..] == fields;
  }

  lemma {:induction false} FoldOrdinary(rooted: bool, fields: seq<string>, names: seq<string>)
    requires AllOrdinary(fields)
    ensures Fold(rooted, fields, names) == Some(names + fields)
    decreases |fields|
  {
    if fields == [] {
      assert names + fields == names;
    } else {
      FoldOrdinary(rooted, fields[1..], names + [fields[0]]);
      assert names + [fields[0]] + fields[1..] == names + fields;
    }
  }

  lemma {:induction false} RootedFoldSucceeds(fields: seq<string>, names: seq<string>)
    ensures Fold(true, fields, names).Some?
    decreases |fields|
  {
    if fields != [] {
      var f := fields[0];
      if f == "" || f == "." {
        RootedFoldSucceeds(fields[1..], names);
      } else if f == ".." {
        RootedFoldSucceeds(fields[1..], if names != [] then names[..|names| - 1] else names);
      } else {
        RootedFoldSucceeds(fields[1..], names + [f]);
      }
    }
  }

  // ---------- canonical forms have the right shape ----------

  predicate CleanField(f: string) {
    NoSep('/', f) && Plain(f)
  }

  lemma {:induction false} SplitClean(s: string)
    requires Plain(s)
    ensures forall i :: 0 <= i < |Split('/', s)| ==> CleanField(Split('/', s)[i])
    decreases |s|
  {
    var k := FirstSep('/', s);
    if k < |s| {
      SplitClean(s[k + 1..]);
      assert CleanField(s[..k]);
    }
  }

  lemma {:induction false} FoldClean(rooted: bool, fields: seq<string>, names: seq<string>)
    requires forall i :: 0 <= i < |fields| ==> CleanField(fields[i])
    requires AllOrdinary(names)
    ensures var r := Fold(rooted, fields, names); r.Some? ==> AllOrdinary(r.value)
    decreases |fields|
  {
    if fields != [] {
      var f, rest := fields[0], fields[1..];
      assert CleanField(f);
      if f == "" || f == "." {
        FoldClean(rooted, rest, names);
      } else if f == ".." {
        FoldClean(rooted, rest, if names != [] then names[..|names| - 1] else names);
      } else {
        FoldClean(rooted, rest, names + [f]);
      }
    }
  }

  lemma {:induction false} ResolveWellFormed(x: string)
    ensures Resolve(x).Some? ==> WellFormed(Resolve(x).value)
  {
    if Acceptable(x) {
      var s := Forward(x);
      assert Plain(s);
      SplitClean(AfterDrive(s));
      FoldClean(!RootOf(s).Relative?, Split('/', AfterDrive(s)), []);
    }
  }

  // ---------- length ----------

  function Weight(names: seq<string>): nat {
    if names == [] then 0 else |names[0]| + 1 + Weight(names[1..])
  }

  lemma {:induction false} WeightConcat(a: seq<string>, b: seq<string>)
    ensures Weight(a + b) == Weight(a) + Weight(b)
  {
    if a == [] {
      assert a + b == b;
    } else {
      assert (a + b)[1..] == a[1..] + b;
      WeightConcat(a[1..], b);
    }
  }

  lemma {:induction false} SplitWeight(s: string)
    ensures Weight(Split('/', s)) == |s| + 1
    decreases |s|
  {
    var k := FirstSep('/', s);
    if k < |s| {
      SplitWeight(s[k + 1..]);
      assert ([s[..k]] + Split('/', s[k + 1..]))[1..] == Split('/', s[k + 1..]);
    }
  }

  lemma {:induction false} FoldWeight(rooted: bool, fields: seq<string>, names: seq<string>)
    ensures var r := Fold(rooted, fields, names); r.Some? ==> Weight(r.value) <= Weight(names) + Weight(fields)
    decreases |fields|
  {
    if fields != [] {
      var f, rest := fields[0], fields[1..];
      if f == "" || f == "." {
        FoldWeight(rooted, rest, names);
      } else if f == ".." {
        if names != [] {
          var shorter := names[..|names| - 1];
          WeightConcat(shorter, [names[|names| - 1]]);
          assert names == shorter + [names[|names| - 1]];
          FoldWeight(rooted, rest, shorter);
        } else if rooted {
          FoldWeight(rooted, rest, names);
        }
      } else {
        WeightConcat(names, [f]);
        FoldWeight(rooted, rest, names + [f]);
      }
    }
  }

  lemma {:induction false} JoinLength(names: seq<string>)
    ensures |Join('/', names)| == if names == [] then 0 else Weight(names) - 1
  {
    if |names| > 1 {
      JoinLength(names[1..]);
    }
  }

  lemma {:induction false} CanonicalLength(x: string)
    ensures |Canonical(x)| <= |x| + 1
    ensures Resolve(x).Some? && !Resolve(x).value.root.Drive? ==> |Canonical(x)| <= |x|
  {
    if Resolve(x).Some? {
      var s := Forward(x);
      var p := Resolve(x).value;
      JoinLength(p.names);
      var rooted := !p.root.Relative?;
      if p.root.Slash? {
        assert s == "" + "/" + s[1..];
        SplitConcat('/', "", s[1..]);
        FoldSkipsEmpty(rooted, Split('/', s[1..]), []);
        FoldWeight(rooted, Split('/', s[1..]), []);
        SplitWeight(s[1..]);
      } else {
        FoldWeight(rooted, Split('/', AfterDrive(s)), []);
        SplitWeight(AfterDrive(s));
      }
    }
  }

  // ---------- the source's loop ----------

  lemma {:induction false} FieldsFrom(rooted: bool, s: string, i: nat, j: nat, names: seq<string>)
    requires i <= j <= |s| && (j < |s| ==> s[j] == '/') && forall k :: i <= k < j ==> s[k] != '/'
    ensures Fold(rooted, Split('/', s[i..]), names) ==
            match Fold(rooted, [s[i..j]], names)
            case None => None
            case Some(mid) => Fold(rooted, Split('/', s[j..]), mid)
  {
    var part := s[i..j];
    SplitWhole('/', part);
    if j < |s| {
      assert s[i..] == part + "/" + s[j + 1..];
      SplitConcat('/', part, s[j + 1..]);
      FoldConcat(rooted, [part], Split('/', s[j + 1..]), names);
      SlashFrom(s, j);
      var mid := Fold(rooted, [part], names);
      if mid.Some? {
        FoldSkipsEmpty(rooted, Split('/', s[j + 1..]), mid.value);
      }
    } else {
      assert s[i..] == part && s[j..] == "";
      SplitWhole('/', "");
      var mid := Fold(rooted, [part], names);
      if mid.Some? {
        FoldSkipsEmpty(rooted, [], mid.value);
        assert [""] + [] == [""];
      }
    }
  }

  lemma {:induction false} SlashFrom(s: string, i: nat)
    requires i < |s| && s[i] == '/'
    ensures Split('/', s[i..]) == [""] + Split('/', s[i + 1..])
  {
    assert s[i..] == "" + "/" + s[i + 1..];
    SplitConcat('/', "", s[i + 1..]);
    SplitWhole('/', "");
  }

  lemma {:induction false} SingleField(rooted: bool, f: string, names: seq<string>)
    ensures Fold(rooted, [f], names) ==
            if f == "" || f == "." then Some(names)
            else if f == ".." then
              (if names != [] then Some(names[..|names| - 1]) else if rooted then Some(names) else None)
            else Some(names + [f])
  {
    assert [f][1..] == [];
  }

  /** First two loops: the length and control checks, then `\` to `/` in place. */
  method Prepare(input: string) returns (s: string)
    ensures s == if Acceptable(input) then Forward(input) else ""
  {
    if |input| == 0 || |input| > 4096 {
      return "";
    }
    for i := 0 to |input|
      invariant forall k :: 0 <= k < i ==> !IsControl(input[k])
    {
      if IsControl(input[i]) {
        return "";
      }
    }
    s := input;
    for i := 0 to |s|
      invariant |s| == |input|
      invariant forall k :: 0 <= k < |s| ==> s[k] == if k < i then ForwardChar(input[k]) else input[k]
    {
      if s[i] == '\\' {
        s := s[i := '/'];
      }
    }
  }

  /** What is left from `i` on, folded onto the stack, is the whole fold. */
  ghost predicate Remains(rooted: bool, s: string, i: nat, st: seq<string>) {
    i <= |s| && Fold(rooted, Split('/', s[i..]), st) == Fold(rooted, Split('/', s), [])
  }

  lemma {:induction false} ScanSlash(rooted: bool, s: string, i: nat, st: seq<string>)
    requires Remains(rooted, s, i, st) && i < |s| && s[i] == '/'
    ensures Remains(rooted, s, i + 1, st)
  {
    SlashFrom(s, i);
    FoldSkipsEmpty(rooted, Split('/', s[i + 1..]), st);
  }

  lemma {:induction false} ScanField(rooted: bool, s: string, i: nat, j: nat, st: seq<string>)
    requires Remains(rooted, s, i, st)
    requires i <= j <= |s| && (j < |s| ==> s[j] == '/') && forall k :: i <= k < j ==> s[k] != '/'
    ensures var next := Fold(rooted, [s[i..j]], st);
            if next.Some? then Remains(rooted, s, j, next.value) else Fold(rooted, Split('/', s), []) == None
  {
    FieldsFrom(rooted, s, i, j, st);
  }

  lemma {:induction false} ScanDone(rooted: bool, s: string, st: seq<string>)
    requires Remains(rooted, s, |s|, st)
    ensures Fold(rooted, Split('/', s), []) == Some(st)
  {
    assert s[|s|..] == "";
    SplitWhole('/', "");
    SingleField(rooted, "", st);
  }

  /** The scan with its stack of names; None is the early `return {}` of a relative `..` escape. */
  method Scan(s: string, rooted: bool) returns (names: Option<seq<string>>)
    ensures names == Fold(rooted, Split('/', s), [])
  {
    var st: seq<string> := [];
    var i := 0;
    assert s[0..] == s;
    while i < |s|
      invariant Remains(rooted, s, i, st)
    {
      if s[i] == '/' {
        ScanSlash(rooted, s, i, st);
        i := i + 1;
        continue;
      }
      var j := i;
      while j < |s| && s[j] != '/'
        invariant i <= j <= |s|
        invariant forall k :: i <= k < j ==> s[k] != '/'
      {
        j := j + 1;
      }
      var part := s[i..j];
      ScanField(rooted, s, i, j, st);
      SingleField(rooted, part, st);
      i := j;
      if part == "" || part == "." {
        continue;
      }
      if part == ".." {
        if st == [] {
          if rooted {
            continue;
          }
          return None;
        }
        st := st[..|st| - 1];
        continue;
      }
      st := st + [part];
    }
    ScanDone(rooted, s, st);
    return Some(st);
  }

  /** The printing loop: the names after `out`, a slash between each two. */
  method PrintNames(root: string, st: seq<string>) returns (out: string)
    ensures out == root + Join('/', st)
  {
    out := root;
    for k := 0 to |st|
      invariant out == root + Join('/', st[..k])
    {
      assert st[..k + 1] == st[..k] + [st[k]];
      JoinSnoc('/', st[..k], st[k]);
      if k > 0 {
        out := out + "/";
      }
      out := out + st[k];
    }
    assert st[..|st|] == st;
  }

  method CanonicalPath(input: string) returns (out: string)
    ensures out == Canonical(input)
  {
    var s := Prepare(input);
    if s == "" {
      return "";
    }
    ghost var normal := s;
    var prefix := "";
    if |s| >= 2 && s[1] == ':' && IsAlpha(s[0]) {
      prefix := [ToLower(s[0]), ':'];
      s := s[2..];
      if s == "" || s[0] != '/' {
        s := "/" + s;
        SlashFrom(s, 0);
        assert s[0..] == s && s[1..] == AfterDrive(normal);
        FoldSkipsEmpty(true, Split('/', AfterDrive(normal)), []);
      }
    }
    var abs := s != "" && s[0] == '/';
    var names := Scan(s, abs || prefix != "");
    assert names == Fold(!RootOf(normal).Relative?, Split('/', AfterDrive(normal)), []);
    if names.None? {
      return "";
    }
    var st := names.value;
    out := prefix;
    if abs || prefix != "" {
      out := out + "/";
    }
    assert out == RootText(RootOf(normal));
    out := PrintNames(out, st);
    if st == [] && (abs || prefix != "") && (out == "" || out[|out| - 1] != '/') {
      out := out + "/";
    }
  }
}
