/** The deny-override rule engine and what it confines (src/abac.cc). */
module Abac {
  import opened Options
  import opened Fields
  import opened Paths
  import opened PathTheorems

  datatype Effect = Deny | Allow
  datatype Rule = Rule(subject: string, action: string, resource: string, effect: Effect)

  const PREFIX := "prefix:"
  const SUFFIX := "suffix:"

  predicate PathAction(action: string) {
    || action == "os.Open" || action == "os.Create" || action == "os.ReadFile"
    || action == "os.WriteFile" || action == "s2.Spawn" || action == "os.Exec"
  }

  predicate HasPrefix(s: string, p: string) {
    |s| >= |p| && s[..|p|] == p
  }

  predicate HasSuffix(s: string, p: string) {
    |s| >= |p| && s[|s| - |p|..] == p
  }

  predicate Match(pat: string, val: string, path: bool) {
    if pat == "*" then true
    else if pat == "" then false
    else if HasPrefix(pat, PREFIX) then
      var p := pat[|PREFIX|..];
      if path then PrefixBound(if Canonical(p) == "" then p else Canonical(p), val) else HasPrefix(val, p)
    else if HasPrefix(pat, SUFFIX) then HasSuffix(val, pat[|SUFFIX|..])
    else if path then Canonical(pat) != "" && Canonical(pat) == val
    else pat == val
  }

  predicate Applies(r: Rule, subject: string, action: string, val: string) {
    Match(r.subject, subject, false) && Match(r.action, action, false) && Match(r.resource, val, PathAction(action))
  }

  /** Deny-override, default deny, on a canonicalisable resource for path actions. */
  predicate Permits(rules: seq<Rule>, subject: string, action: string, resource: string) {
    var val := if PathAction(action) then Canonical(resource) else resource;
    && (PathAction(action) ==> val != "")
    && (exists i :: 0 <= i < |rules| && rules[i].effect.Allow? && Applies(rules[i], subject, action, val))
    && (forall i :: 0 <= i < |rules| && rules[i].effect.Deny? ==> !Applies(rules[i], subject, action, val))
  }

  class Engine {
    var rules: seq<Rule>

    constructor ()
      ensures rules == []
    {
      rules := [];
    }

    method Allow(subject: string, action: string, resource: string)
      modifies this
      ensures rules == old(rules) + [Rule(subject, action, resource, Effect.Allow)]
    {
      rules := rules + [Rule(subject, action, resource, Effect.Allow)];
    }

    method Deny(subject: string, action: string, resource: string)
      modifies this
      ensures rules == old(rules) + [Rule(subject, action, resource, Effect.Deny)]
    {
      rules := rules + [Rule(subject, action, resource, Effect.Deny)];
    }

    /** The early-exit loop computes the declarative decision. */
    method Check(subject: string, action: string, resource: string) returns (ok: bool)
      ensures ok == Permits(rules, subject, action, resource)
      ensures ok <==> Decided(rules, subject, action, resource)
    {
      var path := PathAction(action);
      var res := resource;
      if path {
        var canon := CanonicalPath(resource);
        if canon == "" {
          PermitsIff(rules, subject, action, resource);
          return false;
        }
        res := canon;
      }
      var allowed := false;
      for i := 0 to |rules|
        invariant allowed <==>
                  exists k :: 0 <= k < i && rules[k].effect.Allow? && Applies(rules[k], subject, action, res)
        invariant forall k :: 0 <= k < i && rules[k].effect.Deny? ==> !Applies(rules[k], subject, action, res)
      {
        var r := rules[i];
        if !Match(r.subject, subject, false) { continue; }
        if !Match(r.action, action, false) { continue; }
        if !Match(r.resource, res, path) { continue; }
        if r.effect == Effect.Deny {
          PermitsIff(rules, subject, action, resource);
          return false;
        }
        allowed := true;
      }
      PermitsIff(rules, subject, action, resource);
      return allowed;
    }
  }

  // ---------- what rules mean ----------

  /** Not one of the two pattern forms. */
  predicate Literal(pat: string) {
    pat != "" && !("prefix:" <= pat) && !("suffix:" <= pat)
  }

  /** A pattern for plain text is `*`, a beginning, an end, or the text itself. */
  ghost predicate Covers(pat: string, val: string) {
    || pat == "*"
    || (exists p, rest: string :: pat == "prefix:" + p && val == p + rest)
    || (exists p, rest: string :: pat == "suffix:" + p && val == rest + p)
    || (Literal(pat) && pat == val)
  }

  /** A pattern for a path is `*`, a directory, the end of a canonical form, or any spelling of the path. */
  ghost predicate CoversPath(pat: string, path: string) {
    || pat == "*"
    || (exists p: string :: pat == "prefix:" + p && CoversDirectory(p, path))
    || (exists p, rest: string :: pat == "suffix:" + p && Canonical(path) == rest + p)
    || (Literal(pat) && Resolve(pat).Some? && Canonical(pat) == Canonical(path))
  }

  /** The text test on canonical forms; a rejected directory only covers the 4097 characters it consists of. */
  predicate CoversDirectory(dir: string, path: string) {
    if Resolve(dir).Some? then PrefixBound(Canonical(dir), Canonical(path)) else |dir| == 4097 && dir == Canonical(path)
  }

  predicate NamesPath(action: string) {
    action in {"os.Open", "os.Create", "os.ReadFile", "os.WriteFile", "s2.Spawn", "os.Exec"}
  }

  ghost predicate Concerns(r: Rule, subject: string, action: string, resource: string) {
    && Covers(r.subject, subject) && Covers(r.action, action)
    && if NamesPath(action) then CoversPath(r.resource, resource) else Covers(r.resource, resource)
  }

  /** Some rule allows the request, none denies it, and a path is one that can be canonicalised. */
  ghost predicate Decided(rules: seq<Rule>, subject: string, action: string, resource: string) {
    && (NamesPath(action) ==> Resolve(resource).Some?)
    && (exists r :: r in rules && r.effect.Allow? && Concerns(r, subject, action, resource))
    && (forall r :: r in rules && r.effect.Deny? ==> !Concerns(r, subject, action, resource))
  }

  lemma {:induction false} PatternForms(pat: string)
    ensures "prefix:" <= pat ==> pat == "prefix:" + pat[7..] && !("suffix:" <= pat) && pat != "*"
    ensures "suffix:" <= pat ==> pat == "suffix:" + pat[7..] && !("prefix:" <= pat) && pat != "*"
  {
    assert "prefix:" <= pat ==> pat[0] == 'p';
    assert "suffix:" <= pat ==> pat[0] == 's';
  }

  lemma {:induction false} TaggedText(tag: string, p: string)
    requires |tag| == 7
    ensures tag <= tag + p && (tag + p)[7..] == p
  {
  }

  lemma {:induction false} MatchIff(pat: string, val: string)
    ensures Match(pat, val, false) <==> Covers(pat, val)
  {
    PatternForms(pat);
    if "prefix:" <= pat {
      MatchPrefixIff(pat[7..], val);
    } else if "suffix:" <= pat {
      MatchSuffixIff(pat[7..], val);
    }
    forall p: string | pat == "prefix:" + p ensures p == pat[7..] && "prefix:" <= pat {
      TaggedText("prefix:", p);
    }
    forall p: string | pat == "suffix:" + p ensures p == pat[7..] && "suffix:" <= pat {
      TaggedText("suffix:", p);
    }
  }

  lemma {:induction false} MatchPrefixIff(p: string, val: string)
    ensures HasPrefix(val, p) <==> exists rest: string :: val == p + rest
  {
    if HasPrefix(val, p) {
      assert val == p + val[|p|..];
    }
  }

  lemma {:induction false} PrefixOnPath(pat: string, p: string, path: string)
    requires pat == "prefix:" + p && Resolve(path).Some?
    ensures Match(pat, Canonical(path), true) <==> CoversDirectory(p, path)
  {
    CanonicalShape(path);
    CanonicalShape(p);
    PrefixPatternOnPath(p, path);
  }

  lemma {:induction false} PrefixCovers(pat: string, p: string, path: string)
    requires pat == "prefix:" + p
    ensures CoversPath(pat, path) <==> CoversDirectory(p, path)
  {
    TaggedText("prefix:", p);
    PatternForms(pat);
    forall q: string | pat == "prefix:" + q ensures q == p {
      TaggedText("prefix:", q);
    }
    forall q: string | pat == "suffix:" + q ensures false {
      TaggedText("suffix:", q);
    }
  }

  lemma {:induction false} SuffixCovers(pat: string, p: string, path: string)
    requires pat == "suffix:" + p
    ensures CoversPath(pat, path) <==> Match(pat, Canonical(path), true)
  {
    TaggedText("suffix:", p);
    PatternForms(pat);
    MatchSuffixIff(p, Canonical(path));
    forall q: string | pat == "suffix:" + q ensures q == p {
      TaggedText("suffix:", q);
    }
    forall q: string | pat == "prefix:" + q ensures false {
      TaggedText("prefix:", q);
    }
  }

  lemma {:induction false} LiteralCovers(pat: string, path: string)
    requires !("prefix:" <= pat) && !("suffix:" <= pat) && Resolve(path).Some?
    ensures CoversPath(pat, path) <==> Match(pat, Canonical(path), true)
  {
    CanonicalShape(path);
    CanonicalShape(pat);
    forall q: string ensures pat != "prefix:" + q && pat != "suffix:" + q {
      TaggedText("prefix:", q);
      TaggedText("suffix:", q);
    }
  }

  lemma {:induction false} MatchPathIff(pat: string, path: string)
    requires Resolve(path).Some?
    ensures Match(pat, Canonical(path), true) <==> CoversPath(pat, path)
  {
    PatternForms(pat);
    if "prefix:" <= pat {
      PrefixOnPath(pat, pat[7..], path);
      PrefixCovers(pat, pat[7..], path);
    } else if "suffix:" <= pat {
      SuffixCovers(pat, pat[7..], path);
    } else {
      LiteralCovers(pat, path);
    }
  }

  lemma {:induction false} MatchSuffixIff(p: string, val: string)
    ensures HasSuffix(val, p) <==> exists rest: string :: val == rest + p
  {
    if HasSuffix(val, p) {
      assert val == val[..|val| - |p|] + p;
    }
  }

  lemma {:induction false} AppliesIff(r: Rule, subject: string, action: string, resource: string)
    requires PathAction(action) ==> Resolve(resource).Some?
    ensures Applies(r, subject, action, if PathAction(action) then Canonical(resource) else resource)
            <==> Concerns(r, subject, action, resource)
  {
    MatchIff(r.subject, subject);
    MatchIff(r.action, action);
    if PathAction(action) {
      MatchPathIff(r.resource, resource);
    } else {
      MatchIff(r.resource, resource);
    }
  }

  /** The engine's decision, in terms of what the rules say. */
  lemma {:induction false} PermitsIff(rules: seq<Rule>, subject: string, action: string, resource: string)
    ensures Permits(rules, subject, action, resource) <==> Decided(rules, subject, action, resource)
  {
    PermitsByMembership(rules, subject, action, resource);
    CanonicalShape(resource);
    if PathAction(action) ==> Resolve(resource).Some? {
      forall r: Rule
        ensures Applies(r, subject, action, if PathAction(action) then Canonical(resource) else resource)
                <==> Concerns(r, subject, action, resource)
      {
        AppliesIff(r, subject, action, resource);
      }
    }
  }

  /** A literal resource permits exactly the spellings of one path. */
  lemma {:induction false} ExactPathIff(pat: string, subject: string, action: string, path: string)
    requires NamesPath(action) && Literal(pat) && pat != "*"
    ensures Permits([Rule("*", "*", pat, Effect.Allow)], subject, action, path)
            <==> Resolve(pat).Some? && Canonical(path) == Canonical(pat)
  {
    OnlyRule(Rule("*", "*", pat, Effect.Allow), subject, action, path);
    CanonicalShape(path);
    CanonicalShape(pat);
  }

  /** The order and repetition of rules never matter: only the set of rules does. */
  lemma {:induction false} OrderIrrelevant(a: seq<Rule>, b: seq<Rule>, subject: string,
                                           action: string, resource: string)
    requires forall r :: r in a <==> r in b
    ensures Permits(a, subject, action, resource) == Permits(b, subject, action, resource)
  {
    PermitsByMembership(a, subject, action, resource);
    PermitsByMembership(b, subject, action, resource);
  }

  lemma {:induction false} PermitsByMembership(rules: seq<Rule>, subject: string, action: string, resource: string)
    ensures var val := if PathAction(action) then Canonical(resource) else resource;
            Permits(rules, subject, action, resource) <==>
              && (PathAction(action) ==> val != "")
              && (exists r :: r in rules && r.effect.Allow? && Applies(r, subject, action, val))
              && (forall r :: r in rules && r.effect.Deny? ==> !Applies(r, subject, action, val))
  {
    var val := if PathAction(action) then Canonical(resource) else resource;
    if Permits(rules, subject, action, resource) {
      var i :| 0 <= i < |rules| && rules[i].effect.Allow? && Applies(rules[i], subject, action, val);
      assert rules[i] in rules;
    }
  }

  /** Respelling the resource of a path action never changes a decision. */
  lemma {:induction false} DecisionIgnoresSpelling(rules: seq<Rule>, subject: string,
                                                   action: string, x: string, y: string)
    requires PathAction(action) && Respelled(x, y) && |x| <= MAX_INPUT && |y| <= MAX_INPUT
    ensures Permits(rules, subject, action, x) == Permits(rules, subject, action, y)
  {
    RespellingInvariant(x, y);
  }

  // ---------- prefix patterns on paths ----------

  /** The raw-pattern fallback never fires, except for a directory of 4097 characters that is the resource itself. */
  lemma {:induction false} PrefixPatternOnPath(dir: string, x: string)
    requires Canonical(x) != ""
    ensures Match(PREFIX + dir, Canonical(x), true) <==>
            if Canonical(dir) != "" then PrefixBound(Canonical(dir), Canonical(x))
            else |dir| == MAX_INPUT + 1 && dir == Canonical(x)
  {
    var pat := PREFIX + dir;
    assert pat[..|PREFIX|] == PREFIX && pat[|PREFIX|..] == dir;
    assert pat != "*" by { assert pat[0] == 'p'; }
    if Canonical(dir) == "" {
      RejectedPrefixIff(dir, x);
    }
  }

  /** The directories that the raw fallback matches: `<letter>:/` and names, 4097 characters, canonical in spelling. */
  predicate FallbackReaches(dir: string) {
    |dir| == MAX_INPUT + 1 && DriveSpelling(dir) && Canonical(dir[..2] + dir[3..]) == dir
  }

  /** A drive path is also read without the slash behind its drive. */
  lemma {:induction false} WithoutSlash(v: Path)
    requires WellFormed(v) && v.root.Drive? && |Print(v)| <= MAX_INPUT + 1
    ensures DriveSpelling(Print(v)) && Resolve(Print(v)[..2] + Print(v)[3..]) == Some(v)
  {
    var letter, j := v.root.letter, Join('/', v.names);
    var y := [letter, ':'] + j;
    assert Print(v)[..2] == [letter, ':'] && Print(v)[3..] == j;
    JoinClean(v.names);
    ForwardPlain(y);
    assert Acceptable(y) && RootOf(y) == Drive(letter) && AfterDrive(y) == j;
    SplitNames(v.names);
    FoldOwnNames(true, v.names);
  }

  /** A canonical path of 4097 characters comes from a drive path written without that slash. */
  lemma {:induction false} LongCanonical(x: string)
    requires |Canonical(x)| == MAX_INPUT + 1
    ensures FallbackReaches(Canonical(x))
  {
    CanonicalShape(x);
    CanonicalLength(x);
    WithoutSlash(Resolve(x).value);
  }

  /** Exactly those directories, of all that are rejected, match some canonical path. */
  lemma {:induction false} FallbackIff(dir: string)
    requires Canonical(dir) == ""
    ensures (exists x :: Canonical(x) != "" && Match(PREFIX + dir, Canonical(x), true)) <==> FallbackReaches(dir)
  {
    if FallbackReaches(dir) {
      PrefixPatternOnPath(dir, dir[..2] + dir[3..]);
    }
    forall x | Canonical(x) != "" && Match(PREFIX + dir, Canonical(x), true) ensures FallbackReaches(dir) {
      PrefixPatternOnPath(dir, x);
      LongCanonical(x);
    }
  }

  function LongName(n: nat): string {
    seq(n, _ => 'a')
  }

  /** There are such directories. */
  lemma {:induction false} FallbackFiresAt4097()
    ensures var dir := "c:/" + LongName(4094); var x := "c:" + LongName(4094);
            Canonical(dir) == "" && Canonical(x) != "" && Match(PREFIX + dir, Canonical(x), true)
  {
    var name := LongName(4094);
    var dir, x := "c:/" + name, "c:" + name;
    LongNameResolves(name);
    assert |dir| == 4097;
    PrefixPatternOnPath(dir, x);
  }

  lemma {:induction false} LongNameResolves(name: string)
    requires name == LongName(4094)
    ensures Canonical("c:" + name) == "c:/" + name
  {
    var v := Path(Drive('c'), [name]);
    assert |name| == 4094 && Ordinary(name);
    assert Print(v) == "c:/" + name;
    assert Print(v)[..2] + Print(v)[3..] == "c:" + name;
    WithoutSlash(v);
  }

  // ---------- confinement ----------

  /** A directory whose rule covers only what lies below it. */
  predicate SafeDirectory(dir: string) {
    !FallbackReaches(dir) && (Resolve(dir).Some? ==> !ShadowsDrive(Resolve(dir).value))
  }

  predicate GrantsDirectory(r: Rule) {
    HasPrefix(r.resource, PREFIX) && SafeDirectory(r.resource[|PREFIX|..])
  }

  predicate Confined(rules: seq<Rule>, subject: string, action: string) {
    forall i :: 0 <= i < |rules| && rules[i].effect.Allow?
                && Match(rules[i].subject, subject, false) && Match(rules[i].action, action, false)
      ==> GrantsDirectory(rules[i])
  }

  /** The resource denotes a path below a granted directory: same root, names extended, nothing left to resolve. */
  predicate InsideGrant(rules: seq<Rule>, subject: string, action: string, resource: string) {
    && Resolve(resource).Some?
    && var v := Resolve(resource).value;
       && AllOrdinary(v.names)
       && exists i :: 0 <= i < |rules| && rules[i].effect.Allow?
                      && Match(rules[i].subject, subject, false) && Match(rules[i].action, action, false)
                      && GrantedBy(rules[i], v)
  }

  predicate GrantedBy(r: Rule, v: Path) {
    && HasPrefix(r.resource, PREFIX)
    && Resolve(r.resource[|PREFIX|..]).Some?
    && Under(Resolve(r.resource[|PREFIX|..]).value, v)
  }

  /** A denied directory is closed: whatever else is allowed, nothing that lies under it is permitted. */
  lemma {:induction false} DeniedDirectoryIsClosed(rules: seq<Rule>, i: nat, subject: string,
                                                   action: string, resource: string)
    requires PathAction(action) && i < |rules| && rules[i].effect.Deny?
    requires Match(rules[i].subject, subject, false) && Match(rules[i].action, action, false)
    requires Resolve(resource).Some? ==> GrantedBy(rules[i], Resolve(resource).value)
    ensures !Permits(rules, subject, action, resource)
  {
    CanonicalShape(resource);
    if Resolve(resource).Some? {
      var r, v := rules[i], Resolve(resource).value;
      var dir := r.resource[|PREFIX|..];
      assert r.resource == PREFIX + dir;
      CanonicalShape(dir);
      SameRootPrefix(Resolve(dir).value, v);
      assert PREFIX + dir != "*" by { assert (PREFIX + dir)[0] == 'p'; }
      assert Match(r.resource, Canonical(resource), true);
    }
  }

  /** A relative path whose canonical text begins with a drive and a slash. */
  predicate LooksLikeDrivePath(v: Path) {
    ShadowsDrive(v) && |v.names| >= 2
  }

  lemma {:induction false} GrantSound(r: Rule, resource: string)
    requires GrantsDirectory(r) && Canonical(resource) != ""
    requires !LooksLikeDrivePath(Resolve(resource).value)
    requires Match(r.resource, Canonical(resource), true)
    ensures GrantedBy(r, Resolve(resource).value)
  {
    var dir := r.resource[|PREFIX|..];
    assert r.resource == PREFIX + dir;
    PrefixPatternOnPath(dir, resource);
    if Canonical(dir) == "" {
      LongCanonical(resource);
    }
    ResolveWellFormed(dir);
    ResolveWellFormed(resource);
    PrefixBoundIsUnder(Resolve(dir).value, Resolve(resource).value);
  }

  /** Whatever the deny rules: a permitted request stays inside a granted directory. */
  lemma {:induction false} Confinement(rules: seq<Rule>, subject: string, action: string, resource: string)
    requires PathAction(action) && Confined(rules, subject, action)
    requires Permits(rules, subject, action, resource)
    requires !LooksLikeDrivePath(Resolve(resource).value)
    ensures InsideGrant(rules, subject, action, resource)
  {
    var i :| 0 <= i < |rules| && rules[i].effect.Allow? && Applies(rules[i], subject, action, Canonical(resource));
    CanonicalShape(resource);
    GrantSound(rules[i], resource);
  }

  /**
    The proviso on the resource is exact: confined rules keep every permitted
    request for it inside a granted directory if and only if it is not a
    relative path that looks like a drive path.
   */
  lemma {:induction false} ConfinementIff(subject: string, action: string, resource: string)
    requires PathAction(action) && Resolve(resource).Some?
    ensures (forall rules: seq<Rule> | Confined(rules, subject, action) && Permits(rules, subject, action, resource) ::
               InsideGrant(rules, subject, action, resource))
            <==> !LooksLikeDrivePath(Resolve(resource).value)
  {
    var v := Resolve(resource).value;
    if LooksLikeDrivePath(v) {
      var rules := EscapingRules(subject, action, resource);
    } else {
      forall rules: seq<Rule> | Confined(rules, subject, action) && Permits(rules, subject, action, resource)
        ensures InsideGrant(rules, subject, action, resource)
      {
        Confinement(rules, subject, action, resource);
      }
    }
  }

  /** The rule set that allows one directory to everybody for everything. */
  function OnlyAllow(dir: string): seq<Rule> {
    [Rule("*", "*", PREFIX + dir, Effect.Allow)]
  }

  lemma {:induction false} OnlyAllowPermits(dir: string, subject: string, action: string, resource: string)
    requires PathAction(action)
    ensures Permits(OnlyAllow(dir), subject, action, resource) <==>
            Canonical(resource) != "" && Match(PREFIX + dir, Canonical(resource), true)
  {
    OnlyRule(Rule("*", "*", PREFIX + dir, Effect.Allow), subject, action, resource);
  }

  lemma {:induction false} OnlyRule(r: Rule, subject: string, action: string, resource: string)
    requires PathAction(action) && r.effect.Allow? && r.subject == "*" && r.action == "*"
    ensures Permits([r], subject, action, resource) <==>
            Canonical(resource) != "" && Match(r.resource, Canonical(resource), true)
  {
    assert [r][0] == r;
  }

  /**
    The provisos on the directory are exact as well: allowing it confines every
    resource that does not look like a drive path if and only if it is safe.
   */
  lemma {:induction false} DirectoryConfinesIff(dir: string, subject: string, action: string)
    requires PathAction(action)
    ensures (forall x: string | Resolve(x).Some? && !LooksLikeDrivePath(Resolve(x).value)
                                && Permits(OnlyAllow(dir), subject, action, x) ::
               Resolve(dir).Some? && Under(Resolve(dir).value, Resolve(x).value))
            <==> SafeDirectory(dir)
  {
    if SafeDirectory(dir) {
      forall x: string | Resolve(x).Some? && !LooksLikeDrivePath(Resolve(x).value)
                         && Permits(OnlyAllow(dir), subject, action, x)
        ensures Resolve(dir).Some? && Under(Resolve(dir).value, Resolve(x).value)
      {
        OnlyAllowPermits(dir, subject, action, x);
        GrantSound(DirectoryRule(dir), x);
      }
    } else {
      var x := UnsafeDirectory(dir);
      OnlyAllowPermits(dir, subject, action, x);
    }
  }

  function DirectoryRule(dir: string): (r: Rule)
    ensures HasPrefix(r.resource, PREFIX) && r.resource[|PREFIX|..] == dir
  {
    assert (PREFIX + dir)[..|PREFIX|] == PREFIX && (PREFIX + dir)[|PREFIX|..] == dir;
    Rule("*", "*", PREFIX + dir, Effect.Allow)
  }

  /** What an unsafe directory covers without containing it. */
  lemma {:induction false} UnsafeDirectory(dir: string) returns (x: string)
    requires !SafeDirectory(dir)
    ensures Resolve(x).Some? && Resolve(x).value.root.Drive?
    ensures Match(PREFIX + dir, Canonical(x), true)
    ensures Resolve(dir).Some? ==> !Under(Resolve(dir).value, Resolve(x).value)
    ensures Canonical(x) != ""
  {
    if FallbackReaches(dir) {
      x := dir[..2] + dir[3..];
      CanonicalLength(x);
      PrefixPatternOnPath(dir, x);
    } else {
      var p := Resolve(dir).value;
      var v := Path(Drive(p.names[0][0]), p.names[1..]);
      x := Print(v);
      ShadowedDrive(dir, p, v);
      CanonicalShape(dir);
      PrefixPatternOnPath(dir, x);
    }
  }

  lemma {:induction false} ShadowedDrive(dir: string, p: Path, v: Path)
    requires Resolve(dir) == Some(p) && ShadowsDrive(p) && v == Path(Drive(p.names[0][0]), p.names[1..])
    ensures Resolve(Print(v)) == Some(v) && Print(v) != "" && PrefixBound(Print(p), Print(v))
  {
    ResolveWellFormed(dir);
    CanonicalLength(dir);
    ShadowedPrefix(p, v);
    forall i | 0 <= i < |v.names| ensures Ordinary(v.names[i]) {
      assert Ordinary(p.names[i + 1]);
    }
    ResolvePrint(v);
    PrintClean(v);
  }

  /** The failing family: a drive's root directory granted, a relative path permitted. */
  lemma {:induction false} EscapingRules(subject: string, action: string, resource: string) returns (rules: seq<Rule>)
    requires PathAction(action) && Resolve(resource).Some? && LooksLikeDrivePath(Resolve(resource).value)
    ensures rules == [Rule("*", "*", PREFIX + [Resolve(resource).value.names[0][0], ':', '/'], Effect.Allow)]
    ensures Confined(rules, subject, action) && Permits(rules, subject, action, resource)
    ensures !InsideGrant(rules, subject, action, resource)
  {
    var v := Resolve(resource).value;
    var letter := v.names[0][0];
    var dir := [letter, ':', '/'];
    var r := Rule("*", "*", PREFIX + dir, Effect.Allow);
    rules := [r];
    var p := Path(Drive(letter), []);
    assert Print(p) == dir;
    ResolvePrint(p);
    assert Resolve(dir) == Some(p);
    assert r.resource[..|PREFIX|] == PREFIX && r.resource[|PREFIX|..] == dir;
    assert SafeDirectory(dir);
    ResolveWellFormed(resource);
    CanonicalShape(resource);
    assert v.names[0] == [letter, ':'];
    assert Print(v)[..3] == dir;
    PrefixPatternOnPath(dir, resource);
    assert Applies(rules[0], subject, action, Canonical(resource));
  }

  /** Behind `./` every list of names can be spelt, also one that begins like a drive. */
  lemma {:induction false} DotRelative(names: seq<string>)
    requires AllOrdinary(names) && names != [] && |Join('/', names)| + 2 <= MAX_INPUT
    ensures Resolve("." + "/" + Join('/', names)) == Some(Path(Relative, names))
  {
    var j := Join('/', names);
    var x := "." + "/" + j;
    JoinClean(names);
    ForwardPlain(x);
    forall i | 0 <= i < |names| ensures NoSep('/', names[i]) {
      assert Ordinary(names[i]);
    }
    SplitConcat('/', ".", j);
    SplitWhole('/', ".");
    SplitJoin('/', names);
    assert (["."] + names)[1..] == names;
    FoldOrdinary(false, names, []);
    assert [] + names == names;
    assert x[1] == '/';
  }

  /** A concrete member of that family. */
  lemma {:induction false} RelativeDriveEscape()
    ensures var rules := [Rule("*", "*", PREFIX + "c:/", Effect.Allow)];
            && Confined(rules, "wasi", "os.Open")
            && Permits(rules, "wasi", "os.Open", "./c:/x")
            && Resolve("./c:/x") == Some(Path(Relative, ["c:", "x"]))
            && !InsideGrant(rules, "wasi", "os.Open", "./c:/x")
  {
    DriveNamesFromDot(["c:", "x"]);
    var rules := EscapingRules("wasi", "os.Open", "./c:/x");
  }

  lemma {:induction false} DriveNamesFromDot(names: seq<string>)
    requires names == ["c:", "x"]
    ensures Resolve("./c:/x") == Some(Path(Relative, names))
  {
    assert names[0] == "c:" && names[1] == "x" && names[1..] == ["x"];
    DotRelative(names);
    assert "./c:/x" == "." + "/" + Join('/', names);
  }
}
