/** What canonical paths guarantee (src/path.cc). */
module PathTheorems {
  import opened Options
  import opened Fields
  import opened Paths

  // ---------- reading back a printed path ----------

  lemma {:induction false} JoinClean(names: seq<string>)
    requires AllOrdinary(names)
    ensures Plain(Join('/', names))
    ensures names != [] ==>
        Join('/', names) != "" && Join('/', names)[0] == names[0][0] && Join('/', names)[|Join('/', names)| - 1] != '/'
  {
    if |names| == 1 {
      var n := names[0];
      assert Ordinary(n);
    } else if |names| > 1 {
      assert Ordinary(names[0]);
      JoinClean(names[1..]);
    }
  }

  lemma {:induction false} PrintClean(p: Path)
    requires WellFormed(p)
    ensures Plain(Print(p)) && Print(p) != "" && Forward(Print(p)) == Print(p)
    ensures p.names != [] ==> Print(p)[|Print(p)| - 1] != '/'
    ensures p.root.Relative? ==> Print(p)[0] != '/'
  {
    JoinClean(p.names);
    if p.root.Relative? {
      assert Ordinary(p.names[0]);
    }
  }

  lemma {:induction false} SplitNames(names: seq<string>)
    requires AllOrdinary(names)
    ensures Split('/', Join('/', names)) == if names == [] then [""] else names
  {
    forall i | 0 <= i < |names| ensures NoSep('/', names[i]) {
      assert Ordinary(names[i]);
    }
    if names == [] {
      SplitWhole('/', "");
    } else {
      SplitJoin('/', names);
    }
  }

  /** The fields of a printed path, with the root's own fields in front. */
  lemma {:induction false} SplitPrint(p: Path)
    requires WellFormed(p)
    ensures Split('/', Print(p)) ==
            (match p.root case Relative => [] case Slash => [""] case Drive(l) => [[l, ':']])
            + (if p.names == [] then [""] else p.names)
  {
    SplitNames(p.names);
    var j := Join('/', p.names);
    match p.root {
      case Relative => assert Print(p) == j;
      case Slash =>
        assert Print(p) == "" + "/" + j;
        SplitConcat('/', "", j);
        SplitWhole('/', "");
      case Drive(l) =>
        assert Print(p) == [l, ':'] + "/" + j;
        SplitConcat('/', [l, ':'], j);
        SplitWhole('/', [l, ':']);
    }
  }

  /** The fold over a path's own fields gives back its names, whatever empty fields precede them. */
  lemma {:induction false} FoldOwnNames(rooted: bool, names: seq<string>)
    requires AllOrdinary(names)
    ensures Fold(rooted, if names == [] then [""] else names, []) == Some(names)
    ensures Fold(rooted, [""] + (if names == [] then [""] else names), []) == Some(names)
  {
    FoldOrdinary(rooted, names, []);
    assert [] + names == names;
    FoldSkipsEmpty(rooted, [], []);
    assert [""] + [] == [""];
    FoldSkipsEmpty(rooted, if names == [] then [""] else names, []);
  }

  /** The fields of a printed path behind its drive. */
  lemma {:induction false} PrintedFields(p: Path)
    requires WellFormed(p) && (!StartsWithDrive(Print(p)) || p.root.Drive?)
    ensures RootOf(Print(p)) == p.root
    ensures var own := if p.names == [] then [""] else p.names;
            Split('/', AfterDrive(Print(p))) == if p.root.Relative? then own else [""] + own
  {
    if p.root.Drive? {
      BehindDrive(p.root.letter, Join('/', p.names));
      SplitNames(p.names);
    } else {
      PrintClean(p);
      SplitPrint(p);
    }
  }

  lemma {:induction false} BehindDrive(letter: char, rest: string)
    requires 'a' <= letter <= 'z'
    ensures var t := [letter, ':', '/'] + rest;
            StartsWithDrive(t) && RootOf(t) == Drive(letter) && Split('/', AfterDrive(t)) == [""] + Split('/', rest)
  {
    assert ([letter, ':', '/'] + rest)[2..] == "" + "/" + rest;
    SplitHead('/', "", rest);
  }

  lemma {:induction false} ResolvePrint(p: Path)
    requires WellFormed(p) && |Print(p)| <= MAX_INPUT
    requires !StartsWithDrive(Print(p)) || p.root.Drive?
    ensures Resolve(Print(p)) == Some(p)
  {
    PrintClean(p);
    PrintedFields(p);
    FoldOwnNames(!p.root.Relative?, p.names);
  }

  /** The guard of a spelling that would be read as a drive path with the very same text. */
  predicate DriveSpelling(c: string) {
    |c| >= 3 && 'a' <= c[0] <= 'z' && c[1] == ':' && c[2] == '/'
  }

  lemma {:induction false} DriveSpellingResolves(p: Path, rest: seq<string>)
    requires WellFormed(p) && p.root.Relative? && DriveSpelling(Print(p)) && |Print(p)| <= MAX_INPUT
    requires rest == p.names[1..]
    ensures Resolve(Print(p)) == Some(Path(Drive(Print(p)[0]), rest))
    ensures Print(p) == Print(Path(Drive(Print(p)[0]), rest))
  {
    var c := Print(p);
    SplitPrint(p);
    assert Split('/', c) == p.names;
    assert c == [c[0], ':'] + "/" + c[3..];
    SplitConcat('/', [c[0], ':'], c[3..]);
    SplitWhole('/', [c[0], ':']);
    assert p.names[0] == [c[0], ':'] && rest == Split('/', c[3..]);
    var q := Path(Drive(c[0]), rest);
    forall i | 0 <= i < |rest| ensures Ordinary(rest[i]) {
      assert Ordinary(p.names[i + 1]);
    }
    assert Join('/', p.names) == p.names[0] + "/" + Join('/', p.names[1..]);
    assert c == Print(q);
    ResolvePrint(q);
  }

  /** A path that starts like a drive is printed with that drive, lower-cased, and a slash. */
  lemma {:induction false} DriveOutput(c: string)
    requires Acceptable(c) && StartsWithDrive(c) && Forward(c) == c
    ensures Canonical(c) != "" && |Canonical(c)| >= 3 && Canonical(c)[..3] == [ToLower(c[0]), ':', '/']
  {
    RootedFoldSucceeds(Split('/', AfterDrive(c)), []);
    var p := Resolve(c).value;
    assert Print(p) == [ToLower(c[0]), ':', '/'] + Join('/', p.names);
  }

  /**
    A canonical spelling is a fixed point exactly when it is short enough to be
    accepted again and does not start like a drive in any other spelling than
    `<lower-case letter>:/`.
   */
  lemma {:induction false} CanonicalFixedPoint(x: string)
    requires Canonical(x) != ""
    ensures var c := Canonical(x);
            Canonical(c) == c <==> |c| <= MAX_INPUT && (StartsWithDrive(c) ==> DriveSpelling(c))
  {
    var p := Resolve(x).value;
    ResolveWellFormed(x);
    PrintFixedPoint(p);
  }

  lemma {:induction false} PrintFixedPoint(p: Path)
    requires WellFormed(p)
    ensures var c := Print(p);
            Canonical(c) == c <==> |c| <= MAX_INPUT && (StartsWithDrive(c) ==> DriveSpelling(c))
  {
    var c := Print(p);
    PrintClean(p);
    if |c| > MAX_INPUT {
    } else if p.root.Drive? || !StartsWithDrive(c) {
      ResolvePrint(p);
    } else {
      assert p.root.Relative?;
      DriveOutput(c);
      if DriveSpelling(c) {
        DriveSpellingResolves(p, p.names[1..]);
      } else {
        assert |c| >= 3 ==> Canonical(c)[..3] != c[..3];
      }
    }
  }

  /** Rejection is exactly the empty answer, and an accepted path has a well-formed meaning. */
  lemma {:induction false} CanonicalShape(x: string)
    ensures Canonical(x) == "" <==> Resolve(x).None?
    ensures Resolve(x).Some? ==> WellFormed(Resolve(x).value) && Plain(Canonical(x)) && |Canonical(x)| <= |x| + 1
  {
    ResolveWellFormed(x);
    CanonicalLength(x);
    if Resolve(x).Some? {
      PrintClean(Resolve(x).value);
    }
  }

  // ---------- the prefix test is component prefix ----------

  /** A proper bounded prefix continues with a slash. */
  lemma {:induction false} BoundedPrefix(p: string, v: string)
    requires p != "" && p[|p| - 1] != '/'
    ensures PrefixBound(p, v) <==> v == p || (|v| > |p| && v == p + "/" + v[|p| + 1..])
  {
    if PrefixBound(p, v) && |v| > |p| {
      assert v == v[..|p|] + [v[|p|]] + v[|p| + 1..];
    }
    if |v| > |p| && v == p + "/" + v[|p| + 1..] {
      assert v[..|p|] == p && v[|p|] == '/';
    }
  }

  lemma {:induction false} SlashedPrefix(r: string, v: string)
    requires r != "" && r[|r| - 1] == '/'
    ensures PrefixBound(r, v) <==> |v| >= |r| && v[..|r|] == r
  {
  }

  lemma {:induction false} JoinPrefix(a: seq<string>, b: seq<string>)
    requires AllOrdinary(a) && AllOrdinary(b) && a != []
    ensures PrefixBound(Join('/', a), Join('/', b)) <==> a <= b
  {
    var p, v := Join('/', a), Join('/', b);
    JoinClean(a);
    BoundedPrefix(p, v);
    forall i | 0 <= i < |a| ensures NoSep('/', a[i]) { assert Ordinary(a[i]); }
    forall i | 0 <= i < |b| ensures NoSep('/', b[i]) { assert Ordinary(b[i]); }
    SplitJoin('/', a);
    if b != [] {
      SplitJoin('/', b);
    }
    if PrefixBound(p, v) && |v| > |p| {
      SplitConcat('/', p, v[|p| + 1..]);
    }
    if a <= b && a != b {
      assert b == a + b[|a|..];
      JoinConcat('/', a, b[|a|..]);
      assert v[|p| + 1..] == Join('/', b[|a|..]);
    }
  }

  lemma {:induction false} PrefixStrip(r: string, a: string, b: string)
    requires a != ""
    ensures PrefixBound(r + a, r + b) <==> PrefixBound(a, b)
  {
    var p, v := r + a, r + b;
    if |a| <= |b| {
      assert v[..|p|] == r + b[..|a|];
      assert v[..|p|] == p <==> b[..|a|] == a by {
        if v[..|p|] == p {
          assert b[..|a|] == v[..|p|][|r|..] && a == p[|r|..];
        }
      }
    }
  }

  /**
    On meanings that do not shadow a drive the string test is exactly "same
    root and the names are a prefix of the names".
   */
  lemma {:induction false} PrefixBoundIsUnder(p: Path, v: Path)
    requires WellFormed(p) && WellFormed(v)
    requires !ShadowsDrive(p)
    requires ShadowsDrive(v) ==> |v.names| == 1
    ensures PrefixBound(Print(p), Print(v)) <==> Under(p, v)
  {
    PrintClean(p);
    PrintClean(v);
    if p.root == v.root {
      SameRootPrefix(p, v);
    } else {
      OtherRootPrefix(p, v);
    }
  }

  lemma {:induction false} SameRootPrefix(p: Path, v: Path)
    requires WellFormed(p) && WellFormed(v) && p.root == v.root
    ensures PrefixBound(Print(p), Print(v)) <==> p.names <= v.names
  {
    var r := RootText(p.root);
    if p.names == [] {
      SlashedPrefix(r, Print(v));
      assert Print(p) == r;
    } else {
      JoinClean(p.names);
      PrefixStrip(r, Join('/', p.names), Join('/', v.names));
      JoinPrefix(p.names, v.names);
    }
  }

  lemma {:induction false} OtherRootPrefix(p: Path, v: Path)
    requires WellFormed(p) && WellFormed(v) && p.root != v.root
    requires !ShadowsDrive(p)
    requires ShadowsDrive(v) ==> |v.names| == 1
    ensures !PrefixBound(Print(p), Print(v))
  {
    PrintClean(p);
    PrintClean(v);
    var t, w := Print(p), Print(v);
    assert p.root.Slash? <==> t[0] == '/';
    assert v.root.Slash? <==> w[0] == '/';
    assert p.root.Drive? ==> t[0] == p.root.letter && t[1] == ':' && t[2] == '/';
    assert v.root.Drive? ==> w[0] == v.root.letter;
    if PrefixBound(t, w) {
      BoundedChars(t, w);
      if p.root.Drive? && v.root.Relative? {
        RelativeDriveText(v, p.root.letter);
      } else if p.root.Relative? && v.root.Drive? {
        RelativeBeforeDrive(p, v);
      }
    }
  }

  lemma {:induction false} BoundedChars(t: string, w: string)
    requires PrefixBound(t, w)
    ensures |t| <= |w| && forall i :: 0 <= i < |t| ==> t[i] == w[i]
  {
    forall i | 0 <= i < |t| ensures t[i] == w[i] {
      assert w[..|t|][i] == w[i];
    }
  }

  lemma {:induction false} RelativeDriveText(v: Path, letter: char)
    requires WellFormed(v) && v.root.Relative?
    requires var w := Print(v); |w| >= 3 && w[0] == letter && w[1] == ':' && w[2] == '/'
    ensures |v.names| >= 2 && v.names[0] == [letter, ':']
  {
    var w := Print(v);
    SplitPrint(v);
    assert w == [letter, ':'] + "/" + w[3..];
    SplitConcat('/', [letter, ':'], w[3..]);
    SplitWhole('/', [letter, ':']);
    assert Split('/', w) == v.names;
  }

  lemma {:induction false} RelativeBeforeDrive(p: Path, v: Path)
    requires WellFormed(p) && WellFormed(v) && p.root.Relative? && v.root.Drive?
    requires PrefixBound(Print(p), Print(v))
    ensures p.names[0] == [v.root.letter, ':']
  {
    var t, w := Print(p), Print(v);
    PrintClean(p);
    SplitPrint(p);
    SplitPrint(v);
    assert Split('/', t) == p.names;
    BoundedPrefix(t, w);
    if |w| > |t| {
      SplitConcat('/', t, w[|t| + 1..]);
    }
    assert Split('/', w)[0] == [v.root.letter, ':'];
  }

  /**
    The proviso is exact on the side of the pattern: a pattern is tested
    faithfully against every meaning that does not shadow a drive if and only
    if it does not shadow a drive itself.
   */
  lemma {:induction false} PrefixBoundFaithfulIff(p: Path)
    requires WellFormed(p)
    ensures (forall v: Path | WellFormed(v) && !ShadowsDrive(v) :: PrefixBound(Print(p), Print(v)) <==> Under(p, v))
            <==> !ShadowsDrive(p)
  {
    if ShadowsDrive(p) {
      var v := Path(Drive(p.names[0][0]), p.names[1..]);
      forall i | 0 <= i < |v.names| ensures Ordinary(v.names[i]) { assert Ordinary(p.names[i + 1]); }
      assert WellFormed(v) && !ShadowsDrive(v) && !Under(p, v);
      ShadowedPrefix(p, v);
    } else {
      forall v: Path | WellFormed(v) && !ShadowsDrive(v)
        ensures PrefixBound(Print(p), Print(v)) <==> Under(p, v)
      {
        PrefixBoundIsUnder(p, v);
      }
    }
  }

  lemma {:induction false} SameText(t: string, u: string)
    requires t == u && t != ""
    ensures PrefixBound(t, u)
  {
    assert u[..|t|] == t;
  }

  lemma {:induction false} ShadowedPrefix(p: Path, v: Path)
    requires WellFormed(p) && ShadowsDrive(p) && v == Path(Drive(p.names[0][0]), p.names[1..])
    ensures PrefixBound(Print(p), Print(v))
    ensures |p.names| >= 2 ==> Print(p) == Print(v)
  {
    var d := p.names[0];
    assert d == [v.root.letter, ':'];
    if |p.names| == 1 {
      BoundedPrefix(d, Print(v));
      assert Print(p) == d && Print(v) == d + "/" + "";
    } else {
      var rest := Join('/', p.names[1..]);
      assert d + "/" == RootText(v.root);
      assert Join('/', p.names) == d + "/" + rest;
      SameText(Print(p), Print(v));
    }
  }

  // ---------- spellings of the same path ----------

  lemma {:induction false} ForwardConcat(a: string, b: string)
    ensures Forward(a + b) == Forward(a) + Forward(b)
  {
  }

  /** A text that may follow a separator without changing the path: `/`, `./` or `name/../`. */
  datatype Filler = Extra(sep: char) | Dot(sep: char) | DownUp(name: string, sep: char, sep2: char)

  predicate ValidFiller(f: Filler) {
    && IsSeparator(f.sep)
    && (f.DownUp? ==> Ordinary(f.name) && IsSeparator(f.sep2))
  }

  function FillerText(f: Filler): string {
    match f
    case Extra(sep) => [sep]
    case Dot(sep) => [ '.', sep ]
    case DownUp(name, sep, sep2) => name + [sep] + ".." + [sep2]
  }

  /** The filler with forward slashes and without its last one. */
  function FillerCore(f: Filler): string {
    match f
    case Extra(_) => ""
    case Dot(_) => "."
    case DownUp(name, _, _) => name + "/" + ".."
  }

  predicate Inserted(x: string, y: string, a: string, f: Filler, b: string) {
    a != "" && IsSeparator(a[|a| - 1]) && ValidFiller(f) && x == a + b && y == a + FillerText(f) + b
  }

  /** One change of spelling: other separators, other drive-letter case, or a filler after a separator. */
  ghost predicate Respelled(x: string, y: string) {
    || (|x| == |y| && forall i :: 0 <= i < |x| ==> x[i] == y[i] || (IsSeparator(x[i]) && IsSeparator(y[i])))
    || (StartsWithDrive(x) && StartsWithDrive(y) && x[1..] == y[1..] && ToLower(x[0]) == ToLower(y[0]))
    || (exists a, f, b :: Inserted(x, y, a, f, b))
  }

  lemma {:induction false} ForwardPlain(s: string)
    requires Plain(s)
    ensures Forward(s) == s
  {
  }

  lemma {:induction false} FillerForward(f: Filler)
    requires ValidFiller(f)
    ensures Forward(FillerText(f)) == FillerCore(f) + "/"
    ensures forall i :: 0 <= i < |FillerText(f)| ==> !IsControl(FillerText(f)[i])
  {
    if f.DownUp? {
      ForwardPlain(f.name);
      ForwardConcat(f.name + [f.sep] + "..", [f.sep2]);
      ForwardConcat(f.name + [f.sep], "..");
      ForwardConcat(f.name, [f.sep]);
      assert Forward([f.sep]) == "/" && Forward("..") == ".." && Forward([f.sep2]) == "/";
    }
  }

  lemma {:induction false} FoldDownUp(rooted: bool, name: string, names: seq<string>)
    requires Ordinary(name)
    ensures Fold(rooted, [name, ".."], names) == Some(names)
  {
    var pushed := names + [name];
    assert pushed[..|pushed| - 1] == names;
    assert [name, ".."][1..] == [".."];
    assert [".."][1..] == [];
    assert Fold(rooted, [".."], pushed) == Fold(rooted, [], names);
  }

  lemma {:induction false} FillerFolds(rooted: bool, f: Filler, names: seq<string>)
    requires ValidFiller(f)
    ensures Fold(rooted, Split('/', FillerCore(f)), names) == Some(names)
  {
    match f {
      case Extra(_) =>
        SplitWhole('/', "");
        FoldSkipsEmpty(rooted, [], names);
        assert [""] + [] == [""];
      case Dot(_) =>
        SplitWhole('/', ".");
        assert ["."][1..] == [];
      case DownUp(name, _, _) =>
        SplitConcat('/', name, "..");
        SplitWhole('/', name);
        SplitWhole('/', "..");
        assert [name] + [".."] == [name, ".."];
        FoldDownUp(rooted, name, names);
    }
  }

  /** Inserting, after a slash, a text that folds to nothing does not change the fold. */
  lemma {:induction false} FoldInsert(rooted: bool, a: string, f: Filler, b: string)
    requires ValidFiller(f)
    ensures Fold(rooted, Split('/', a + "/" + (FillerCore(f) + "/" + b)), [])
        == Fold(rooted, Split('/', a + "/" + b), [])
  {
    var mid := FillerCore(f);
    SplitConcat('/', a, mid + "/" + b);
    SplitConcat('/', mid, b);
    SplitConcat('/', a, b);
    FoldConcat(rooted, Split('/', a), Split('/', mid) + Split('/', b), []);
    FoldConcat(rooted, Split('/', a), Split('/', b), []);
    var st := Fold(rooted, Split('/', a), []);
    if st.Some? {
      FoldConcat(rooted, Split('/', mid), Split('/', b), st.value);
      FillerFolds(rooted, f, st.value);
    }
  }

  lemma {:induction false} InsertedAcceptable(x: string, y: string, a: string, f: Filler, b: string)
    requires Inserted(x, y, a, f, b) && |y| <= MAX_INPUT
    ensures Acceptable(x) <==> Acceptable(y)
  {
    FillerForward(f);
    var t := FillerText(f);
    if Acceptable(y) {
      forall i | 0 <= i < |x| ensures !IsControl(x[i]) {
        assert x[i] == if i < |a| then y[i] else y[i + |t|];
      }
    }
    if Acceptable(x) {
      forall i | 0 <= i < |y| ensures !IsControl(y[i]) {
        if i < |a| {
          assert y[i] == x[i];
        } else if i < |a| + |t| {
          assert y[i] == t[i - |a|];
        } else {
          assert y[i] == x[i - |t|];
        }
      }
    }
  }

  lemma {:induction false} InsertedForward(x: string, y: string, a: string, f: Filler, b: string)
    requires Inserted(x, y, a, f, b)
    ensures var init := Forward(a)[..|a| - 1];
            && Forward(x) == init + "/" + Forward(b)
            && Forward(y) == init + "/" + (FillerCore(f) + "/" + Forward(b))
  {
    FillerForward(f);
    ForwardConcat(a + FillerText(f), b);
    ForwardConcat(a, FillerText(f));
    ForwardConcat(a, b);
    assert Forward(a) == Forward(a)[..|a| - 1] + "/";
  }

  /** The root only depends on the text before a slash, and so does the drive that is cut off. */
  lemma {:induction false} SharedHead(init: string, u: string, v: string) returns (head: string)
    ensures RootOf(init + "/" + u) == RootOf(init + "/" + v)
    ensures AfterDrive(init + "/" + u) == head + "/" + u
    ensures AfterDrive(init + "/" + v) == head + "/" + v
  {
    var fx, fy := init + "/" + u, init + "/" + v;
    if init == "" {
      assert fx[0] == '/' && fy[0] == '/';
      head := init;
    } else {
      assert fx[0] == init[0] == fy[0];
      assert fx[1] == (init + "/")[1] == fy[1];
      head := if StartsWithDrive(fx) then init[2..] else init;
    }
  }

  lemma {:induction false} InsertedInvariant(x: string, y: string, a: string, f: Filler, b: string)
    requires Inserted(x, y, a, f, b) && |y| <= MAX_INPUT
    ensures Resolve(x) == Resolve(y)
  {
    InsertedAcceptable(x, y, a, f, b);
    InsertedForward(x, y, a, f, b);
    var head := SharedHead(Forward(a)[..|a| - 1], Forward(b), FillerCore(f) + "/" + Forward(b));
    FoldInsert(!RootOf(Forward(x)).Relative?, head, f, Forward(b));
  }

  /** Respelling a path, in either direction, changes neither its acceptance nor its canonical form. */
  lemma {:induction false} RespellingInvariant(x: string, y: string)
    requires Respelled(x, y) && |x| <= MAX_INPUT && |y| <= MAX_INPUT
    ensures Resolve(x) == Resolve(y) && Canonical(x) == Canonical(y)
  {
    if |x| == |y| && forall i :: 0 <= i < |x| ==> x[i] == y[i] || (IsSeparator(x[i]) && IsSeparator(y[i])) {
      assert Forward(x) == Forward(y);
      assert forall i | 0 <= i < |x| :: IsControl(x[i]) <==> IsControl(y[i]);
      assert Acceptable(x) <==> Acceptable(y);
    } else if StartsWithDrive(x) && StartsWithDrive(y) && x[1..] == y[1..] && ToLower(x[0]) == ToLower(y[0]) {
      DriveCaseInvariant(x, y);
    } else {
      var a, f, b :| Inserted(x, y, a, f, b);
      InsertedInvariant(x, y, a, f, b);
    }
  }

  lemma {:induction false} DriveCaseInvariant(x: string, y: string)
    requires StartsWithDrive(x) && StartsWithDrive(y) && x[1..] == y[1..] && ToLower(x[0]) == ToLower(y[0])
    ensures Resolve(x) == Resolve(y)
  {
    assert |x| == |y|;
    forall i | 0 < i < |x| ensures x[i] == y[i] {
      assert x[i] == x[1..][i - 1] && y[i] == y[1..][i - 1];
    }
    assert AfterDrive(Forward(x)) == AfterDrive(Forward(y));
    assert Acceptable(x) <==> Acceptable(y);
  }

  // ---------- a rejected pattern matches nothing ----------

  /**
    A pattern that is itself rejected is a bounded prefix of a canonical path
    only when it is that path and has 4097 characters, the one length that is
    rejected and yet can be the length of a canonical path.
   */
  lemma {:induction false} RejectedPrefixIff(p: string, x: string)
    requires Canonical(p) == "" && Canonical(x) != ""
    ensures PrefixBound(p, Canonical(x)) <==> |p| == MAX_INPUT + 1 && p == Canonical(x)
  {
    CanonicalShape(x);
    if |p| <= MAX_INPUT {
      RejectedPrefixIsInert(p, x);
    } else {
      assert |Canonical(x)| <= MAX_INPUT + 1;
      assert |p| == |Canonical(x)| ==> Canonical(x)[..|p|] == Canonical(x);
    }
  }

  lemma {:induction false} RejectedPrefixIsInert(p: string, x: string)
    requires Canonical(p) == "" && |p| <= MAX_INPUT
    requires Canonical(x) != ""
    ensures !PrefixBound(p, Canonical(x))
  {
    CanonicalShape(x);
    var v, q := Canonical(x), Resolve(x).value;
    if PrefixBound(p, v) {
      RejectedPlainPattern(p, v);
      RelativeStart(p, q);
      RejectedRelativePrefix(p, q);
      AcceptedRelative(p, Fold(false, Split('/', p), []).value);
    }
  }

  lemma {:induction false} RelativeStart(p: string, q: Path)
    requires WellFormed(q) && PrefixBound(p, Print(q)) && RootOf(p).Relative?
    ensures q.root.Relative?
  {
    var v := Print(q);
    assert v[..|p|][0] == v[0];
    assert |p| >= 2 ==> v[..|p|][1] == v[1];
  }

  lemma {:induction false} AcceptedRelative(p: string, names: seq<string>)
    requires Acceptable(p) && Forward(p) == p && RootOf(p).Relative?
    requires Fold(false, Split('/', p), []) == Some(names) && names != []
    ensures Canonical(p) != ""
  {
    ResolveWellFormed(p);
    PrintClean(Path(Relative, names));
  }

  /** A rejected pattern made of a canonical path's characters is relative and free of drives. */
  lemma {:induction false} RejectedPlainPattern(p: string, v: string)
    requires Canonical(p) == "" && p != "" && |p| <= MAX_INPUT
    requires Plain(v) && |p| <= |v| && v[..|p|] == p
    ensures Acceptable(p) && Forward(p) == p && RootOf(p).Relative?
  {
    forall i | 0 <= i < |p| ensures p[i] != '\\' && !IsControl(p[i]) {
      assert v[..|p|][i] == v[i];
    }
    ForwardPlain(p);
    if !RootOf(p).Relative? {
      RootedFoldSucceeds(Split('/', AfterDrive(p)), []);
    }
  }

  lemma {:induction false} CutSlash(p: string)
    requires p != "" && p[|p| - 1] == '/'
    ensures p[..|p| - 1] + "/" == p && p + "" == p
  {
  }

  lemma {:induction false} RejectedRelativePrefix(p: string, q: Path)
    requires WellFormed(q) && q.root.Relative? && PrefixBound(p, Print(q))
    ensures Fold(false, Split('/', p), []).Some? && Fold(false, Split('/', p), []).value != []
  {
    var v := Print(q);
    PrintClean(q);
    SplitPrint(q);
    assert Split('/', v) == q.names;
    if p[|p| - 1] == '/' {
      CutSlash(p);
      SlashEndedPrefix(p[..|p| - 1], v, q.names);
    } else {
      OpenEndedPrefix(p, v, q.names);
    }
  }

  lemma {:induction false} OpenEndedPrefix(p: string, v: string, names: seq<string>)
    requires PrefixBound(p, v) && p[|p| - 1] != '/'
    requires Split('/', v) == names && AllOrdinary(names)
    ensures Fold(false, Split('/', p), []) == Some(Split('/', p))
  {
    BoundedPrefix(p, v);
    if v != p {
      SplitConcat('/', p, v[|p| + 1..]);
    }
    FoldNamesPrefix(Split('/', p), names);
  }

  lemma {:induction false} SlashEndedPrefix(head: string, v: string, names: seq<string>)
    requires |v| > |head| && v[..|head| + 1] == head + "/"
    requires Split('/', v) == names && AllOrdinary(names)
    ensures Fold(false, Split('/', head + "/" + ""), []) == Some(Split('/', head))
  {
    var rest := v[|head| + 1..];
    assert v == v[..|head| + 1] + rest == head + "/" + rest;
    SplitConcat('/', head, rest);
    FoldNamesPrefix(Split('/', head), names);
    SplitConcat('/', head, "");
    SplitWhole('/', "");
    FoldConcat(false, Split('/', head), [""], []);
    FoldSkipsEmpty(false, [], Split('/', head));
    assert [""] + [] == [""];
  }

  lemma {:induction false} FoldNamesPrefix(fields: seq<string>, names: seq<string>)
    requires fields <= names && AllOrdinary(names)
    ensures Fold(false, fields, []) == Some(fields)
  {
    forall i | 0 <= i < |fields| ensures Ordinary(fields[i]) {
      assert Ordinary(names[i]);
    }
    FoldOrdinary(false, fields, []);
    assert [] + fields == fields;
  }
}
