/**
 Request paths as strings: splitting at `/`, the normalization a DPoP `htu` comparison
 applies, and the test `StorageSpace::resolve` uses to refuse any path it would change.
 */
module Paths {
  import opened Wrappers

  predicate EndsWith(s: string, suffix: string) {
    |suffix| <= |s| && s[|s| - |suffix|..] == suffix
  }

  function StripSuffix(s: string, suffix: string): (rest: Option<string>)
    ensures rest.Some? <==> EndsWith(s, suffix)
    ensures rest.Some? ==> s == rest.value + suffix
  {
    if EndsWith(s, suffix) then Some(s[..|s| - |suffix|]) else None
  }

  /** `rfind('/')` as a prefix length: one past the last slash, 0 if there is none. */
  function AfterLastSlash(s: string): (n: nat)
    ensures n <= |s|
    ensures n > 0 ==> s[n - 1] == '/'
    ensures forall i :: n <= i < |s| ==> s[i] != '/'
  {
    if s == "" then 0 else if s[|s| - 1] == '/' then |s| else AfterLastSlash(s[..|s| - 1])
  }

  // ----- segments -----

  predicate SlashFree(s: string) { '/' !in s }

  function Split(s: string): (segments: seq<string>)
    ensures |segments| >= 1
    ensures forall x :: x in segments ==> SlashFree(x)
  {
    if s == "" then [""]
    else
      var rest := Split(s[1..]);
      if s[0] == '/' then [""] + rest
      else
        assert SlashFree(rest[0]) && forall x :: x in rest[1..] ==> x in rest;
        [[s[0]] + rest[0]] + rest[1..]
  }

  function Join(segments: seq<string>): string {
    if |segments| == 0 then "" else if |segments| == 1 then segments[0]
    else segments[0] + "/" + Join(segments[1..])
  }

  lemma {:induction false} JoinSplit(s: string)
    ensures Join(Split(s)) == s
  {
    if s != "" {
      JoinSplit(s[1..]);
      var rest := Split(s[1..]);
      if s[0] == '/' {
        assert Split(s)[1..] == rest;
      } else {
        assert Split(s)[1..] == rest[1..];
        assert s == [s[0]] + s[1..];
      }
    }
  }

  lemma {:induction false} SplitSlashFree(x: string)
    requires SlashFree(x)
    ensures Split(x) == [x]
  {
    if x != "" {
      SplitSlashFree(x[1..]);
      assert [x[0]] + x[1..] == x;
    }
  }

  lemma {:induction false} SplitAtSlash(x: string, rest: string)
    requires SlashFree(x)
    ensures Split(x + "/" + rest) == [x] + Split(rest)
  {
    var s := x + "/" + rest;
    if x == "" {
      assert s[1..] == rest;
    } else {
      SplitAtSlash(x[1..], rest);
      assert s[1..] == x[1..] + "/" + rest;
      assert [x[0]] + x[1..] == x;
    }
  }

  lemma {:induction false} SplitJoin(segments: seq<string>)
    requires segments != [] && forall x :: x in segments ==> SlashFree(x)
    ensures Split(Join(segments)) == segments
  {
    if |segments| == 1 {
      SplitSlashFree(segments[0]);
    } else {
      SplitJoin(segments[1..]);
      SplitAtSlash(segments[0], Join(segments[1..]));
    }
  }

  lemma {:induction false} JoinAppend(segments: seq<string>, last: string)
    requires segments != []
    ensures Join(segments + [last]) == Join(segments) + "/" + last
  {
    if |segments| > 1 {
      JoinAppend(segments[1..], last);
      assert (segments + [last])[1..] == segments[1..] + [last];
    } else {
      assert (segments + [last])[1..] == [last];
    }
  }

  // ----- the stability test -----

  predicate Ordinary(segment: string) { segment != "" && segment != "." && segment != ".." }

  /** `is_normalization_stable`. The last segment alone may be empty: that is the container slash. */
  predicate Stable(path: string)
    requires path != "" && path[0] == '/'
  {
    '#' !in path &&
    (path[1..] == "" ||
     var segments := Split(path[1..]);
     var last := segments[|segments| - 1];
     (forall x :: x in segments[..|segments| - 1] ==> Ordinary(x)) && (last == "" || Ordinary(last)))
  }

  // ----- the normalizer it stands for -----

  function StripFragment(s: string): (r: string)
    ensures r <= s && '#' !in r
    ensures '#' !in s ==> r == s
  {
    if s == "" || s[0] == '#' then "" else [s[0]] + StripFragment(s[1..])
  }

  /** An empty or `.` segment vanishes, `..` takes the segment before it along. */
  function Walked(kept: seq<string>, s: string): seq<string> {
    if s == "" || s == "." then kept
    else if s == ".." then (if kept == [] then [] else kept[..|kept| - 1])
    else kept + [s]
  }

  function Resolved(segments: seq<string>, kept: seq<string>): (r: seq<string>)
    ensures forall x :: x in r ==> x in kept || (x in segments && Ordinary(x))
    decreases |segments|
  {
    if segments == [] then kept else Resolved(segments[1..], Walked(kept, segments[0]))
  }

  /** What the `htu` comparison compares: it drops the trailing slash with the empty segments. */
  function NormalizeHtu(path: string): (r: string)
    requires path != "" && path[0] == '/'
  {
    "/" + Join(Resolved(Split(StripFragment(path)[1..]), []))
  }

  /** The same, keeping the one trailing slash that tells a container from a resource. */
  function Normalize(path: string): (r: string)
    requires path != "" && path[0] == '/'
  {
    var n := NormalizeHtu(path);
    if n != "/" && EndsWith(StripFragment(path), "/") then n + "/" else n
  }

  lemma {:induction false} ResolvedOrdinary(segments: seq<string>, kept: seq<string>)
    requires forall x :: x in segments ==> Ordinary(x)
    ensures Resolved(segments, kept) == kept + segments
    decreases |segments|
  {
    if segments == [] {
      assert kept + segments == kept;
    } else {
      assert Ordinary(segments[0]);
      ResolvedOrdinary(segments[1..], kept + [segments[0]]);
      assert kept + [segments[0]] + segments[1..] == kept + segments;
    }
  }

  lemma {:induction false} ResolvedTrailingEmpty(init: seq<string>, kept: seq<string>)
    requires forall x :: x in init ==> Ordinary(x)
    ensures Resolved(init + [""], kept) == kept + init
    decreases |init|
  {
    if init == [] {
      assert init + [""] == [""] && [""][1..] == [];
      assert kept + init == kept;
    } else {
      assert Ordinary(init[0]);
      assert (init + [""])[0] == init[0] && (init + [""])[1..] == init[1..] + [""];
      ResolvedTrailingEmpty(init[1..], kept + [init[0]]);
      assert kept + [init[0]] + init[1..] == kept + init;
    }
  }

  /** The segments of a stable path other than the root: ordinary ones, then perhaps the container's empty one. */
  lemma StableSegments(path: string) returns (init: seq<string>, slash: bool)
    requires path != "" && path[0] == '/' && Stable(path) && path != "/"
    ensures init != [] && forall x :: x in init ==> Ordinary(x) && SlashFree(x) && '#' !in x
    ensures slash ==> path == "/" + Join(init) + "/" && Split(path[1..]) == init + [""]
    ensures !slash ==> path == "/" + Join(init) && Split(path[1..]) == init
    ensures Join(init) != "" && Join(init)[|Join(init)| - 1] != '/'
    ensures slash <==> EndsWith(path, "/")
  {
    var rest := path[1..];
    var segments := Split(rest);
    JoinSplit(rest);
    SplitAvoids(rest, '#');
    slash := segments[|segments| - 1] == "";
    if slash {
      init := segments[..|segments| - 1];
      TrailingEmpty(init, segments);
    } else {
      init := segments;
      assert init == segments[..|segments| - 1] + [segments[|segments| - 1]];
    }
    OrdinaryTail(init);
    SlashAtEnd(path, rest, slash, Join(init));
  }

  lemma TrailingEmpty(init: seq<string>, segments: seq<string>)
    requires segments == init + [""] && Join(segments) != ""
    ensures init != [] && Join(segments) == Join(init) + "/"
  {
    assert init == [] ==> Join(segments) == "";
    JoinAppend(init, "");
  }

  lemma SlashAtEnd(path: string, rest: string, slash: bool, joined: string)
    requires path != "" && path[0] == '/' && rest == path[1..]
    requires joined != "" && joined[|joined| - 1] != '/'
    requires rest == if slash then joined + "/" else joined
    ensures path == "/" + rest && (slash <==> EndsWith(path, "/"))
    ensures slash ==> path == "/" + joined + "/"
  {
    assert path[|path| - 1..] == [path[|path| - 1]];
    assert path[|path| - 1] == rest[|rest| - 1];
  }

  lemma OrdinaryTail(init: seq<string>)
    requires init != [] && forall x :: x in init ==> Ordinary(x) && SlashFree(x)
    ensures Join(init) != "" && Join(init)[|Join(init)| - 1] != '/'
  {
    var tail := init[|init| - 1];
    assert tail in init;
    SlashFreeTail(init);
  }

  /** A stable path loses exactly its trailing slash, and the root loses nothing. */
  lemma StableNormalizesToTrimmed(path: string)
    requires path != "" && path[0] == '/' && Stable(path)
    ensures NormalizeHtu(path) == if path != "/" && EndsWith(path, "/") then path[..|path| - 1] else path
  {
    assert StripFragment(path) == path;
    if path == "/" {
      assert [""][1..] == [];
      assert Resolved([""], []) == [];
    } else {
      var init, slash := StableSegments(path);
      assert [] + init == init;
      if slash { ResolvedTrailingEmpty(init, []); } else { ResolvedOrdinary(init, []); }
      WithoutLastSlash(path, Join(init), slash);
    }
  }

  lemma WithoutLastSlash(path: string, joined: string, slash: bool)
    requires path == if slash then "/" + joined + "/" else "/" + joined
    requires slash <==> EndsWith(path, "/")
    ensures "/" + joined == if EndsWith(path, "/") then path[..|path| - 1] else path
  {
    if slash { assert path[..|path| - 1] == "/" + joined; }
  }

  /** A joined path ends like its last segment does. */
  lemma {:induction false} SlashFreeTail(segments: seq<string>)
    requires segments != [] && segments[|segments| - 1] != ""
    ensures Join(segments) != ""
            && Join(segments)[|Join(segments)| - 1] == segments[|segments| - 1][|segments[|segments| - 1]| - 1]
  {
    if |segments| > 1 {
      SlashFreeTail(segments[1..]);
    }
  }

  lemma {:induction false} JoinAvoids(segments: seq<string>, c: char)
    requires c != '/' && forall x :: x in segments ==> c !in x
    ensures c !in Join(segments)
  {
    if |segments| > 1 {
      JoinAvoids(segments[1..], c);
    }
  }

  lemma {:induction false} SplitAvoids(s: string, c: char)
    requires c !in s
    ensures forall x :: x in Split(s) ==> c !in x
  {
    if s != "" {
      SplitAvoids(s[1..], c);
    }
  }

  /** Rebuilding a path from ordinary segments, with or without the slash, gives a stable path. */
  lemma RebuiltIsStable(segments: seq<string>)
    requires segments != [] && forall x :: x in segments ==> Ordinary(x) && SlashFree(x) && '#' !in x
    ensures Stable("/" + Join(segments)) && Stable("/" + Join(segments) + "/")
  {
    var j := Join(segments);
    JoinAvoids(segments, '#');
    SplitJoin(segments);
    assert ("/" + j)[1..] == j;
    RebuiltContainerIsStable(segments);
  }

  lemma RebuiltContainerIsStable(segments: seq<string>)
    requires segments != [] && forall x :: x in segments ==> Ordinary(x) && SlashFree(x) && '#' !in x
    ensures Stable("/" + Join(segments) + "/")
  {
    var j, withEmpty := Join(segments), segments + [""];
    JoinAvoids(segments, '#');
    JoinAppend(segments, "");
    SplitJoin(withEmpty);
    assert ("/" + j + "/")[1..] == j + "/" == Join(withEmpty);
    assert withEmpty[..|withEmpty| - 1] == segments;
  }

  lemma NormalizeIsStable(path: string)
    requires path != "" && path[0] == '/'
    ensures Stable(Normalize(path))
  {
    var stripped := StripFragment(path);
    SplitAvoids(stripped[1..], '#');
    var segments := Resolved(Split(stripped[1..]), []);
    if segments == [] {
      assert Normalize(path) == "/";
    } else {
      RebuiltIsStable(segments);
      SlashFreeTail(segments);
    }
  }

  /** `is_normalization_stable` accepts exactly the fixed points of the normalizer. */
  lemma StableIffFixedPoint(path: string)
    requires path != "" && path[0] == '/'
    ensures Stable(path) <==> Normalize(path) == path
  {
    NormalizeIsStable(path);
    if Stable(path) {
      StableNormalizesToTrimmed(path);
      assert StripFragment(path) == path;
      if path != "/" && EndsWith(path, "/") {
        assert path[|path| - 1..] == "/";
        assert path == path[..|path| - 1] + "/";
        StableHasSingleSlash(path);
      }
    }
  }

  lemma StableHasSingleSlash(path: string)
    requires |path| > 1 && path[0] == '/' && Stable(path) && EndsWith(path, "/")
    ensures |path| > 2 && path[|path| - 2] != '/'
  {
    var init, slash := StableSegments(path);
    assert path[|path| - 2] == Join(init)[|Join(init)| - 1];
  }

  // ----- the rules that make the normalizer what it is -----

  function Rebuilt(segments: seq<string>): string { "/" + Join(segments) }

  predicate Plain(segments: seq<string>) { forall x :: x in segments ==> SlashFree(x) && '#' !in x }

  /** What may be struck out of a path: an empty segment, a dot, a segment together with the `..` that
      follows it, and a `..` with nothing before it. */
  datatype Rule = Nothing | Dot | Up(segment: string) | UpAtRoot

  function Struck(rule: Rule): seq<string> {
    match rule
    case Nothing => [""]
    case Dot => ["."]
    case Up(x) => [x, ".."]
    case UpAtRoot => [".."]
  }

  predicate Admits(rule: Rule, before: seq<string>) {
    (rule.Up? ==> Ordinary(rule.segment)) && (rule.UpAtRoot? ==> before == [])
  }

  lemma {:induction false} ResolvedConcat(a: seq<string>, b: seq<string>, kept: seq<string>)
    ensures Resolved(a + b, kept) == Resolved(b, Resolved(a, kept))
    decreases |a|
  {
    if a == [] {
      assert a + b == b;
    } else {
      assert (a + b)[0] == a[0] && (a + b)[1..] == a[1..] + b;
      ResolvedConcat(a[1..], b, Walked(kept, a[0]));
    }
  }

  lemma NormalizedSegments(segments: seq<string>)
    requires Plain(segments)
    ensures NormalizeHtu(Rebuilt(segments)) == Rebuilt(Resolved(segments, []))
  {
    JoinAvoids(segments, '#');
    assert Rebuilt(segments)[1..] == Join(segments);
    if segments == [] {
      assert [""][1..] == [];
      assert Resolved([""], []) == [];
    } else {
      SplitJoin(segments);
    }
  }

  /** No rule, struck anywhere in a path, changes what it normalizes to. */
  lemma RulesChangeNothing(a: seq<string>, rule: Rule, b: seq<string>)
    requires Plain(a) && Plain(Struck(rule)) && Plain(b) && Admits(rule, a)
    ensures NormalizeHtu(Rebuilt(a + Struck(rule) + b)) == NormalizeHtu(Rebuilt(a + b))
  {
    PlainConcat(a, Struck(rule));
    PlainConcat(a + Struck(rule), b);
    PlainConcat(a, b);
    NormalizedSegments(a + Struck(rule) + b);
    NormalizedSegments(a + b);
    ResolvedWithoutStruck(a, rule, b);
  }

  lemma PlainConcat(a: seq<string>, b: seq<string>)
    requires Plain(a) && Plain(b)
    ensures Plain(a + b)
  {
  }

  lemma ResolvedWithoutStruck(a: seq<string>, rule: Rule, b: seq<string>)
    requires Admits(rule, a)
    ensures Resolved(a + Struck(rule) + b, []) == Resolved(a + b, [])
  {
    ResolvedConcat(a + Struck(rule), b, []);
    ResolvedConcat(a, Struck(rule), []);
    ResolvedConcat(a, b, []);
    StruckResolves(rule, Resolved(a, []));
  }

  lemma StruckResolves(rule: Rule, kept: seq<string>)
    requires Admits(rule, kept)
    ensures Resolved(Struck(rule), kept) == kept
  {
    var s := Struck(rule);
    assert s[1..] == if rule.Up? then [".."] else [];
    assert [".."][1..] == [];
    if rule.Up? {
      assert (kept + [rule.segment])[..|kept|] == kept;
    }
  }

  predicate Indifferent(f: string -> string, a: seq<string>, rule: Rule, b: seq<string>) {
    Plain(a) && Plain(Struck(rule)) && Plain(b) && Admits(rule, a) ==>
      f(Rebuilt(a + Struck(rule) + b)) == f(Rebuilt(a + b))
  }

  predicate LeavesAlone(f: string -> string, a: seq<string>) {
    Plain(a) && (forall x :: x in a ==> Ordinary(x)) ==> f(Rebuilt(a)) == Rebuilt(a)
  }

  /** What is relied on in a normalizer: striking does not matter to it, and a path the rules have
      nothing to strike from is left alone. */
  ghost predicate Normalizes(f: string -> string) {
    (forall a, rule, b :: Indifferent(f, a, rule, b)) && forall a :: LeavesAlone(f, a)
  }

  lemma {:induction false} ForcedBySegments(f: string -> string, kept: seq<string>, segments: seq<string>)
    requires Normalizes(f) && Plain(kept) && Plain(segments) && forall x :: x in kept ==> Ordinary(x)
    ensures f(Rebuilt(kept + segments)) == Rebuilt(Resolved(segments, kept))
    decreases |segments|
  {
    if segments == [] {
      assert kept + segments == kept && LeavesAlone(f, kept);
    } else {
      var s, rest := segments[0], segments[1..];
      assert segments == [s] + rest && s in segments;
      WalkedStaysNormal(f, kept, s, rest);
      ForcedBySegments(f, Walked(kept, s), rest);
    }
  }

  lemma WalkedStaysNormal(f: string -> string, kept: seq<string>, s: string, rest: seq<string>)
    requires Normalizes(f) && Plain(kept) && Plain([s]) && Plain(rest) && forall x :: x in kept ==> Ordinary(x)
    ensures Plain(Walked(kept, s)) && forall x :: x in Walked(kept, s) ==> Ordinary(x)
    ensures f(Rebuilt(kept + ([s] + rest))) == f(Rebuilt(Walked(kept, s) + rest))
  {
    assert kept + ([s] + rest) == kept + [s] + rest;
    if s == "" {
      assert Indifferent(f, kept, Nothing, rest);
    } else if s == "." {
      assert Indifferent(f, kept, Dot, rest);
    } else if s == ".." && kept == [] {
      assert Indifferent(f, kept, UpAtRoot, rest);
    } else if s == ".." {
      var shorter, last := kept[..|kept| - 1], kept[|kept| - 1];
      assert last in kept && kept + [s] == shorter + [last, ".."];
      assert Indifferent(f, shorter, Up(last), rest);
    }
  }

  /** The rules leave no choice: whatever keeps them is the comparison's normalizer, on every path. */
  lemma RulesDetermineTheNormalizer(f: string -> string, path: string)
    requires Normalizes(f) && path != "" && path[0] == '/' && '#' !in path
    ensures f(path) == NormalizeHtu(path)
  {
    var segments := Split(path[1..]);
    SplitAvoids(path[1..], '#');
    JoinSplit(path[1..]);
    assert path == Rebuilt(segments) && StripFragment(path) == path;
    assert [] + segments == segments;
    ForcedBySegments(f, [], segments);
  }

  /** And it keeps them itself. */
  lemma TheNormalizerKeepsTheRules()
    ensures Normalizes((p: string) => if p != "" && p[0] == '/' then NormalizeHtu(p) else p)
  {
    var f := (p: string) => if p != "" && p[0] == '/' then NormalizeHtu(p) else p;
    forall a, rule, b ensures Indifferent(f, a, rule, b) {
      if Plain(a) && Plain(Struck(rule)) && Plain(b) && Admits(rule, a) { RulesChangeNothing(a, rule, b); }
    }
    forall a ensures LeavesAlone(f, a) {
      if Plain(a) && forall x :: x in a ==> Ordinary(x) {
        NormalizedSegments(a);
        ResolvedOrdinary(a, []);
        assert [] + a == a;
      }
    }
  }

  /** A fragment plays no part. */
  lemma {:induction false} FragmentIsDropped(p: string, fragment: string)
    requires '#' !in p
    ensures StripFragment(p + "#" + fragment) == p
  {
    var s := p + "#" + fragment;
    if p != "" {
      FragmentIsDropped(p[1..], fragment);
      assert s[1..] == p[1..] + "#" + fragment && p == [p[0]] + p[1..];
    }
  }

  // ----- relations between paths -----

  /** `slash_counterpart`: the other half of a trailing-slash pair; the root has none. */
  function SlashCounterpart(path: string): (other: Option<string>)
    ensures other.None? <==> path == "/"
  {
    match StripSuffix(path, "/")
    case Some(stripped) => if stripped == "" then None else Some(stripped)
    case None => Some(path + "/")
  }

  /** To the slash-dropping comparison, two stable paths look alike exactly as a trailing-slash pair. */
  lemma SameHtuIffSlashPair(p: string, q: string)
    requires p != "" && p[0] == '/' && Stable(p)
    requires q != "" && q[0] == '/' && Stable(q)
    ensures NormalizeHtu(p) == NormalizeHtu(q) <==> p == q || SlashCounterpart(p) == Some(q)
  {
    StableNormalizesToTrimmed(p);
    StableNormalizesToTrimmed(q);
    TrimmedFacts(p);
    TrimmedFacts(q);
  }

  lemma TrimmedFacts(p: string)
    requires p != "" && p[0] == '/' && Stable(p)
    ensures EndsWith(p, "/") <==> p[|p| - 1] == '/'
    ensures EndsWith(p, "/") && p != "/" ==> |p| > 2 && p[|p| - 2] != '/' && p == p[..|p| - 1] + "/"
    ensures SlashCounterpart(p) ==
        if p == "/" then None else if EndsWith(p, "/") then Some(p[..|p| - 1]) else Some(p + "/")
  {
    assert p[|p| - 1..] == [p[|p| - 1]];
    if EndsWith(p, "/") && p != "/" {
      assert |p| == 1 ==> p == "/";
      StableHasSingleSlash(p);
      assert p == p[..|p| - 1] + "/";
    }
  }

  /** Off the root, taking the counterpart twice comes back, and never leaves the stable paths. */
  lemma CounterpartIsInvolution(p: string)
    requires p != "" && p[0] == '/' && Stable(p) && p != "/"
    ensures SlashCounterpart(p).Some?
    ensures var q := SlashCounterpart(p).value;
            q != "" && q[0] == '/' && q != "/" && Stable(q) && SlashCounterpart(q) == Some(p)
  {
    TrimmedFacts(p);
    var init, slash := StableSegments(p);
    RebuiltIsStable(init);
    var q := SlashCounterpart(p).value;
    if slash {
      assert q == "/" + Join(init);
    } else {
      assert q == "/" + Join(init) + "/";
    }
    TrimmedFacts(q);
  }

  /** `parent`: the path up to and including the last slash before the final one. */
  function Parent(path: string): (parent: Option<string>)
    ensures parent.Some? ==> |parent.value| < |path|
  {
    if path == "/" then None
    else
      var trimmed := if EndsWith(path, "/") then path[..|path| - 1] else path;
      var n := AfterLastSlash(trimmed);
      if n == 0 then None else Some(trimmed[..n])
  }

  predicate SlashPrefix(prefix: string, path: string) {
    prefix < path && EndsWith(prefix, "/")
  }

  /** The parent is the longest proper prefix that ends in a slash. */
  lemma ParentIsLongestSlashPrefix(path: string)
    requires path != "" && path[0] == '/'
    ensures Parent(path).None? <==> path == "/"
    ensures Parent(path).Some? ==> SlashPrefix(Parent(path).value, path) && Parent(path).value[0] == '/'
    ensures forall q :: SlashPrefix(q, path) && q != "" ==>
        Parent(path).Some? && (q == Parent(path).value || SlashPrefix(q, Parent(path).value))
  {
    if path != "/" {
      var trimmed := if EndsWith(path, "/") then path[..|path| - 1] else path;
      var n := AfterLastSlash(trimmed);
      assert path[|path| - 1..] == [path[|path| - 1]];
      assert |path| == 1 ==> path == "/";
      assert trimmed[0] == '/';
      assert trimmed[..n][n - 1..] == "/";
      forall q | SlashPrefix(q, path) && q != ""
        ensures q == trimmed[..n] || SlashPrefix(q, trimmed[..n])
      {
        assert q[|q| - 1] == '/' && q[|q| - 1] == path[|q| - 1];
        assert |q| <= |trimmed|;
        assert trimmed[|q| - 1] == '/';
        assert |q| <= n;
        assert q == path[..|q|] == trimmed[..n][..|q|];
      }
    }
  }

  /** `ancestors` as a value: every container between `path` and the root, nearest first. */
  function AncestorsOf(path: string): (chain: seq<string>)
    decreases |path|
  {
    match Parent(path)
    case None => []
    case Some(p) => [p] + AncestorsOf(p)
  }

  lemma AncestorsUnfold(chain: seq<string>, current: string)
    requires Parent(current).Some?
    ensures chain + AncestorsOf(current) == (chain + [Parent(current).value]) + AncestorsOf(Parent(current).value)
  {
  }

  method Ancestors(path: string) returns (chain: seq<string>)
    ensures chain == AncestorsOf(path)
  {
    chain := [];
    var current := path;
    while Parent(current).Some?
      invariant chain + AncestorsOf(current) == AncestorsOf(path)
      decreases |current|
    {
      var parent := Parent(current).value;
      AncestorsUnfold(chain, current);
      chain := chain + [parent];
      current := parent;
    }
  }

  /** The chain holds the slash-ended proper prefixes, all of them and nothing else, longest first. */
  lemma {:induction false} AncestorsAreSlashPrefixes(path: string)
    requires path != "" && path[0] == '/'
    ensures forall q :: q in AncestorsOf(path) <==> SlashPrefix(q, path) && q != ""
    ensures forall i, j :: 0 <= i < j < |AncestorsOf(path)| ==> AncestorsOf(path)[j] < AncestorsOf(path)[i]
    decreases |path|
  {
    ParentIsLongestSlashPrefix(path);
    match Parent(path) {
      case None =>
      case Some(p) =>
        AncestorsAreSlashPrefixes(p);
        LongestFirst(p, AncestorsOf(p), path);
    }
  }

  lemma LongestFirst(p: string, shorter: seq<string>, path: string)
    requires SlashPrefix(p, path) && p != ""
    requires forall q :: SlashPrefix(q, path) && q != "" ==> q == p || SlashPrefix(q, p)
    requires forall q :: q in shorter <==> SlashPrefix(q, p) && q != ""
    requires forall i, j :: 0 <= i < j < |shorter| ==> shorter[j] < shorter[i]
    ensures forall q :: q in [p] + shorter <==> SlashPrefix(q, path) && q != ""
    ensures forall i, j :: 0 <= i < j < |[p] + shorter| ==> ([p] + shorter)[j] < ([p] + shorter)[i]
  {
    forall q | SlashPrefix(q, p) ensures SlashPrefix(q, path) {}
    forall j | 0 <= j < |shorter| ensures shorter[j] < p { assert shorter[j] in shorter; }
  }

  /** Cutting a stable path at a slash leaves a stable path. */
  lemma SlashPrefixIsStable(q: string, path: string)
    requires path != "" && path[0] == '/' && Stable(path)
    requires SlashPrefix(q, path) && q != ""
    ensures q[0] == '/' && Stable(q)
  {
    assert q[0] == path[0];
    if q != "/" {
      assert q[|q| - 1..] == "/";
      var a, b := q[1..|q| - 1], path[|q|..];
      assert q[1..] == a + "/" + "";
      assert path[1..] == a + "/" + b;
      SplitConcat(a, b);
      SplitConcat(a, "");
      assert Split("") == [""];
      var whole, cut := Split(path[1..]), Split(q[1..]);
      assert cut[..|cut| - 1] == Split(a) == whole[..|Split(a)|];
      assert forall x :: x in Split(a) ==> x in whole[..|whole| - 1];
      assert '#' !in q;
    }
  }

  lemma {:induction false} SplitConcat(a: string, b: string)
    ensures Split(a + "/" + b) == Split(a) + Split(b)
  {
    if a == "" {
      assert a + "/" + b == ['/'] + b;
      SplitCons('/', b);
    } else {
      var c, rest := a[0], a[1..];
      SplitConcat(rest, b);
      assert a + "/" + b == [c] + (rest + "/" + b) && a == [c] + rest;
      SplitCons(c, rest + "/" + b);
      SplitCons(c, rest);
      ConsConcat(c, Split(rest), Split(b));
    }
  }

  /** What one more character in front does to the segments. */
  function Cons(c: char, segments: seq<string>): seq<string>
    requires |segments| >= 1
  {
    if c == '/' then [""] + segments else [[c] + segments[0]] + segments[1..]
  }

  lemma SplitCons(c: char, s: string)
    ensures Split([c] + s) == Cons(c, Split(s))
  {
    assert ([c] + s)[1..] == s;
  }

  lemma ConsConcat(c: char, x: seq<string>, y: seq<string>)
    requires |x| >= 1
    ensures Cons(c, x + y) == Cons(c, x) + y
  {
    assert (x + y)[1..] == x[1..] + y;
  }
}
