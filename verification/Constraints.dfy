/** Build constraints: deciding implication and overlap by trying every target,
    feature profile and custom tag, and the canonical conjunction. */
module Constraints {
  import opened Wire

  type Tag = string

  datatype Expr = TagExpr(tag: Tag) | NotExpr(x: Expr) | AndExpr(x: Expr, y: Expr) | OrExpr(x: Expr, y: Expr)

  datatype BuildTarget = BuildTarget(goos: string, goarch: string)

  /** The operating systems and architectures that the tool chain knows. */
  datatype Known = Known(os: set<Tag>, arch: set<Tag>)

  function Eval(e: Expr, v: Tag -> bool): bool {
    match e
    case TagExpr(tag) => v(tag)
    case NotExpr(x) => !Eval(x, v)
    case AndExpr(x, y) => Eval(x, v) && Eval(y, v)
    case OrExpr(x, y) => Eval(x, v) || Eval(y, v)
  }

  /** `constraintTags` */
  function Tags(e: Expr): set<Tag> {
    match e
    case TagExpr(tag) => {tag}
    case NotExpr(x) => Tags(x)
    case AndExpr(x, y) => Tags(x) + Tags(y)
    case OrExpr(x, y) => Tags(x) + Tags(y)
  }

  lemma {:induction false} EvalDepends(e: Expr, u: Tag -> bool, v: Tag -> bool)
    requires forall tag :: tag in Tags(e) ==> u(tag) == v(tag)
    ensures Eval(e, u) == Eval(e, v)
  {
    match e
    case TagExpr(tag) =>
    case NotExpr(x) => EvalDepends(x, u, v);
    case AndExpr(x, y) => EvalDepends(x, u, v); EvalDepends(y, u, v);
    case OrExpr(x, y) => EvalDepends(x, u, v); EvalDepends(y, u, v);
  }

  // ------------------------------------------------------------ feature profiles

  /** Each level includes the ones below it. */
  function Levels(arch: string, names: seq<string>): seq<set<Tag>> {
    seq(|names|, i requires 0 <= i < |names| => set k | 0 <= k <= i :: arch + "." + names[k])
  }

  /** One feature at a time. */
  function Exclusive(arch: string, names: seq<string>): seq<set<Tag>> {
    seq(|names|, i requires 0 <= i < |names| => {arch + "." + names[i]})
  }

  const DIGITS: seq<string> := ["0", "1", "2", "3", "4", "5", "6", "7", "8", "9"]

  function Arm64Profile(major: nat, minor: nat): set<Tag>
    requires major < 10 && minor < 10
  {
    (set k | 0 <= k <= minor :: "arm64.v" + DIGITS[major] + "." + DIGITS[k])
    + (if major == 9 then set k | 0 <= k <= minor + 5 && k <= 9 :: "arm64.v8." + DIGITS[k] else {})
  }

  function Profiles(arch: string): (r: seq<set<Tag>>)
    ensures r != []
  {
    if arch == "386" then Exclusive(arch, ["387", "sse2", "softfloat"])
    else if arch == "amd64" then Levels(arch, ["v1", "v2", "v3", "v4"])
    else if arch == "arm" then Levels(arch, ["5", "6", "7"])
    else if arch == "arm64" then seq(10, i requires 0 <= i < 10 => Arm64Profile(8, i)) + seq(6, i requires 0 <= i < 6 => Arm64Profile(9, i))
    else if arch in {"mips", "mipsle", "mips64", "mips64le"} then Exclusive(arch, ["hardfloat", "softfloat"])
    else if arch in {"ppc64", "ppc64le"} then Levels(arch, ["power8", "power9", "power10"])
    else if arch == "riscv64" then Levels(arch, ["rva20u64", "rva22u64", "rva23u64"])
    else if arch == "wasm" then [{}, {"wasm.satconv"}, {"wasm.signext"}, {"wasm.satconv", "wasm.signext"}]
    else [{}]
  }

  /** What stands before the first dot, if there is one. */
  function ArchOf(tag: Tag): Option<string> {
    if tag == "" then None
    else if tag[0] == '.' then Some("")
    else match ArchOf(tag[1..]) case None => None case Some(rest) => Some([tag[0]] + rest)
  }

  /** `architectureFeatureTag`: the tag names a feature of a known architecture. */
  predicate IsFeature(known: Known, tag: Tag) {
    ArchOf(tag).Some? && ArchOf(tag).value in known.arch
  }

  /** ... and a profile of that architecture mentions it. */
  predicate IsKnownFeature(known: Known, tag: Tag) {
    IsFeature(known, tag) && exists i :: 0 <= i < |Profiles(ArchOf(tag).value)| && tag in Profiles(ArchOf(tag).value)[i]
  }

  // ------------------------------------------------------------------- meaning

  predicate MatchesOS(goos: string, tag: Tag) {
    || goos == tag
    || (tag == "linux" && goos == "android")
    || (tag == "solaris" && goos == "illumos")
    || (tag == "darwin" && goos == "ios")
    || (tag == "unix" && goos in {"aix", "android", "darwin", "dragonfly", "freebsd", "hurd", "illumos",
                                  "ios", "linux", "netbsd", "openbsd", "solaris"})
  }

  /** A tag that only the builder of a package decides. */
  predicate IsCustom(known: Known, tag: Tag) {
    tag !in known.os && tag !in known.arch && tag != "unix" && !IsKnownFeature(known, tag)
  }

  /** Whether a build for `target` with these features and custom tags sets a tag. */
  function Truth(known: Known, target: BuildTarget, features: set<Tag>, custom: Tag -> bool, tag: Tag): bool {
    if tag in known.os || tag == "unix" then MatchesOS(target.goos, tag)
    else if tag in known.arch then target.goarch == tag
    else if IsFeature(known, tag) && ArchOf(tag).value != target.goarch then false
    else if IsKnownFeature(known, tag) then tag in features
    else custom(tag)
  }

  /** No constraint at all is always satisfied. */
  predicate Satisfied(c: Option<Expr>, known: Known, target: BuildTarget, features: set<Tag>, custom: Tag -> bool) {
    c.Some? ==> Eval(c.value, tag => Truth(known, target, features, custom, tag))
  }

  predicate Accepted(left: Option<Expr>, right: Option<Expr>, known: Known, target: BuildTarget, features: set<Tag>,
                     custom: Tag -> bool, accept: (bool, bool) -> bool) {
    accept(Satisfied(left, known, target, features, custom), Satisfied(right, known, target, features, custom))
  }

  /** Some build, for any valuation of custom tags whatever, is accepted. */
  ghost predicate SomeBuild(left: Option<Expr>, right: Option<Expr>, targets: seq<BuildTarget>, known: Known,
                            accept: (bool, bool) -> bool) {
    exists i, j, custom: Tag -> bool :: 0 <= i < |targets| && 0 <= j < |Profiles(targets[i].goarch)|
      && Accepted(left, right, known, targets[i], Profiles(targets[i].goarch)[j], custom, accept)
  }

  /** Every build that satisfies `left` satisfies `right`. */
  ghost predicate Entails(left: Option<Expr>, right: Option<Expr>, targets: seq<BuildTarget>, known: Known) {
    !SomeBuild(left, right, targets, known, (l, r) => l && !r)
  }

  /** Some build satisfies both. */
  ghost predicate Compatible(left: Option<Expr>, right: Option<Expr>, targets: seq<BuildTarget>, known: Known) {
    SomeBuild(left, right, targets, known, (l, r) => l && r)
  }

  function TagsOf(c: Option<Expr>): set<Tag> {
    match c case None => {} case Some(e) => Tags(e)
  }

  function CustomTags(left: Option<Expr>, right: Option<Expr>, known: Known): set<Tag> {
    set tag | tag in TagsOf(left) + TagsOf(right) && IsCustom(known, tag)
  }

  // -------------------------------------------------------------------- search

  function Look(values: map<Tag, bool>, tag: Tag): bool { tag in values && values[tag] }

  ghost predicate Agrees(custom: Tag -> bool, values: map<Tag, bool>, tags: seq<Tag>, n: nat) {
    n <= |tags| && forall k :: 0 <= k < n ==> custom(tags[k]) == Look(values, tags[k])
  }

  /** Some valuation that keeps the first `n` choices is accepted. */
  ghost predicate Finds(left: Option<Expr>, right: Option<Expr>, known: Known, target: BuildTarget, features: set<Tag>,
                        accept: (bool, bool) -> bool, values: map<Tag, bool>, tags: seq<Tag>, n: nat) {
    exists custom: Tag -> bool :: Agrees(custom, values, tags, n) && Accepted(left, right, known, target, features, custom, accept)
  }

  lemma SatisfiedDepends(c: Option<Expr>, known: Known, target: BuildTarget, features: set<Tag>, u: Tag -> bool, v: Tag -> bool)
    requires forall tag :: tag in TagsOf(c) && IsCustom(known, tag) ==> u(tag) == v(tag)
    ensures Satisfied(c, known, target, features, u) == Satisfied(c, known, target, features, v)
  {
    hide MatchesOS, IsKnownFeature, Eval;
    if c.Some? {
      EvalDepends(c.value, tag => Truth(known, target, features, u, tag), tag => Truth(known, target, features, v, tag));
    }
  }

  /** With every custom tag chosen, one evaluation decides. */
  lemma FindsLeaf(left: Option<Expr>, right: Option<Expr>, known: Known, target: BuildTarget, features: set<Tag>,
                  accept: (bool, bool) -> bool, values: map<Tag, bool>, tags: seq<Tag>)
    requires forall tag :: tag in CustomTags(left, right, known) ==> tag in tags
    ensures Finds(left, right, known, target, features, accept, values, tags, |tags|)
         == Accepted(left, right, known, target, features, tag => Look(values, tag), accept)
  {
    hide Satisfied, IsCustom;
    var chosen := tag => Look(values, tag);
    assert Agrees(chosen, values, tags, |tags|);
    forall custom: Tag -> bool | Agrees(custom, values, tags, |tags|)
      ensures Accepted(left, right, known, target, features, custom, accept)
           == Accepted(left, right, known, target, features, chosen, accept)
    {
      forall tag | tag in TagsOf(left) + TagsOf(right) && IsCustom(known, tag) ensures custom(tag) == chosen(tag) {
        assert tag in CustomTags(left, right, known);
        var k :| 0 <= k < |tags| && tags[k] == tag;
      }
      SatisfiedDepends(left, known, target, features, custom, chosen);
      SatisfiedDepends(right, known, target, features, custom, chosen);
    }
  }

  /** Choosing the next tag splits the valuations in two. */
  lemma FindsSplit(left: Option<Expr>, right: Option<Expr>, known: Known, target: BuildTarget, features: set<Tag>,
                   accept: (bool, bool) -> bool, values: map<Tag, bool>, no: map<Tag, bool>, yes: map<Tag, bool>, tags: seq<Tag>, n: nat)
    requires n < |tags| && !Look(no, tags[n]) && Look(yes, tags[n])
    requires forall k :: 0 <= k < n ==> Look(no, tags[k]) == Look(values, tags[k]) && Look(yes, tags[k]) == Look(values, tags[k])
    ensures Finds(left, right, known, target, features, accept, values, tags, n)
         <==> || Finds(left, right, known, target, features, accept, no, tags, n + 1)
              || Finds(left, right, known, target, features, accept, yes, tags, n + 1)
  {
    hide Accepted, Look;
    if Finds(left, right, known, target, features, accept, values, tags, n) {
      var custom: Tag -> bool :| Agrees(custom, values, tags, n) && Accepted(left, right, known, target, features, custom, accept);
      assert Agrees(custom, if custom(tags[n]) then yes else no, tags, n + 1);
    }
    if Finds(left, right, known, target, features, accept, no, tags, n + 1) {
      var custom: Tag -> bool :| Agrees(custom, no, tags, n + 1) && Accepted(left, right, known, target, features, custom, accept);
      assert Agrees(custom, values, tags, n);
    }
    if Finds(left, right, known, target, features, accept, yes, tags, n + 1) {
      var custom: Tag -> bool :| Agrees(custom, yes, tags, n + 1) && Accepted(left, right, known, target, features, custom, accept);
      assert Agrees(custom, values, tags, n);
    }
  }

  predicate NoRepeats(tags: seq<Tag>) {
    forall i, j :: 0 <= i < j < |tags| ==> tags[i] != tags[j]
  }

  /** The backtracking search over custom tags; the map of values is shared by all
      branches and each overwrites what it needs. */
  method Search(left: Option<Expr>, right: Option<Expr>, known: Known, target: BuildTarget, features: set<Tag>,
                accept: (bool, bool) -> bool, values: map<Tag, bool>, tags: seq<Tag>, n: nat)
    returns (found: bool, after: map<Tag, bool>)
    requires n <= |tags| && NoRepeats(tags)
    requires forall tag :: tag in CustomTags(left, right, known) ==> tag in tags
    ensures found <==> Finds(left, right, known, target, features, accept, values, tags, n)
    ensures forall k :: 0 <= k < n ==> Look(after, tags[k]) == Look(values, tags[k])
    decreases |tags| - n
  {
    hide Finds, Accepted, CustomTags;
    if n == |tags| {
      FindsLeaf(left, right, known, target, features, accept, values, tags);
      return Accepted(left, right, known, target, features, tag => Look(values, tag), accept), values;
    }
    ghost var no := values[tags[n] := false];
    found, after := Search(left, right, known, target, features, accept, values[tags[n] := false], tags, n + 1);
    ghost var yes := after[tags[n] := true];
    assert forall k :: 0 <= k < n ==> Look(yes, tags[k]) == Look(values, tags[k]);
    FindsSplit(left, right, known, target, features, accept, values, no, yes, tags, n);
    if found {
      return true, after;
    }
    found, after := Search(left, right, known, target, features, accept, after[tags[n] := true], tags, n + 1);
  }

  /** The custom tags, in some order. */
  method ListTags(all: set<Tag>) returns (tags: seq<Tag>)
    ensures NoRepeats(tags) && |tags| == |all| && forall tag :: tag in all <==> tag in tags
  {
    tags := [];
    var left := all;
    while left != {}
      invariant left <= all && NoRepeats(tags) && |tags| + |left| == |all|
      invariant forall tag :: tag in all <==> tag in tags || tag in left
      invariant forall tag :: tag in tags ==> tag !in left
      decreases |left|
    {
      var tag :| tag in left;
      tags := tags + [tag];
      left := left - {tag};
    }
  }

  predicate WithinLimits(left: Option<Expr>, right: Option<Expr>, targets: seq<BuildTarget>, known: Known, maxCustomTags: nat) {
    |CustomTags(left, right, known)| <= maxCustomTags && targets != []
  }

  /** `evaluateValidAssignments` for two constraints. */
  method Evaluate(left: Option<Expr>, right: Option<Expr>, targets: seq<BuildTarget>, known: Known, maxCustomTags: nat,
                  accept: (bool, bool) -> bool) returns (found: bool, complete: bool)
    ensures complete <==> WithinLimits(left, right, targets, known, maxCustomTags)
    ensures complete ==> (found <==> SomeBuild(left, right, targets, known, accept))
    ensures found ==> complete
  {
    hide Profiles, CustomTags, Accepted;
    var tags := ListTags(CustomTags(left, right, known));
    if |tags| > maxCustomTags || |targets| == 0 {
      return false, false;
    }
    var values: map<Tag, bool> := map[];
    var i := 0;
    while i < |targets|
      invariant 0 <= i <= |targets|
      invariant forall a, b, custom: Tag -> bool :: 0 <= a < i && 0 <= b < |Profiles(targets[a].goarch)| ==>
        !Accepted(left, right, known, targets[a], Profiles(targets[a].goarch)[b], custom, accept)
    {
      var profiles := Profiles(targets[i].goarch);
      var j := 0;
      while j < |profiles|
        invariant 0 <= j <= |profiles|
        invariant forall b, custom: Tag -> bool :: 0 <= b < j ==>
          !Accepted(left, right, known, targets[i], profiles[b], custom, accept)
      {
        ghost var before := values;
        found, values := Search(left, right, known, targets[i], profiles[j], accept, values, tags, 0);
        FindsAny(left, right, known, targets[i], profiles[j], accept, before, tags);
        if found {
          return true, true;
        }
        j := j + 1;
      }
      i := i + 1;
    }
    return false, true;
  }

  /** Before any tag is chosen, every valuation counts. */
  lemma FindsAny(left: Option<Expr>, right: Option<Expr>, known: Known, target: BuildTarget, features: set<Tag>,
                 accept: (bool, bool) -> bool, values: map<Tag, bool>, tags: seq<Tag>)
    ensures Finds(left, right, known, target, features, accept, values, tags, 0)
         == exists custom: Tag -> bool :: Accepted(left, right, known, target, features, custom, accept)
  {
    hide Accepted;
    if custom: Tag -> bool :| Accepted(left, right, known, target, features, custom, accept) {
      assert Agrees(custom, values, tags, 0);
    }
  }

  /** `constraintImplies`: never true wrongly, and within its limits never false
      wrongly. */
  method Implies(left: Option<Expr>, right: Option<Expr>, targets: seq<BuildTarget>, known: Known) returns (r: bool)
    ensures r ==> Entails(left, right, targets, known)
    ensures WithinLimits(left, right, targets, known, 20) ==> (r <==> Entails(left, right, targets, known))
    ensures r <==> right.None? || left == right
                   || (WithinLimits(left, right, targets, known, 20) && Entails(left, right, targets, known))
  {
    hide WithinLimits, Profiles;
    if right.None? || left == right {
      return true;
    }
    var found, complete := Evaluate(left, right, targets, known, 20, (l, r) => l && !r);
    return complete && !found;
  }

  /** `constraintsEquivalent` */
  method Equivalent(left: Option<Expr>, right: Option<Expr>, targets: seq<BuildTarget>, known: Known) returns (r: bool)
    ensures r ==> Entails(left, right, targets, known) && Entails(right, left, targets, known)
    ensures WithinLimits(left, right, targets, known, 20) ==>
      (r <==> Entails(left, right, targets, known) && Entails(right, left, targets, known))
  {
    hide Entails;
    assert CustomTags(left, right, known) == CustomTags(right, left, known);
    r := Implies(left, right, targets, known);
    if r {
      r := Implies(right, left, targets, known);
    }
  }

  /** `constraintsOverlap`: false only if no build satisfies both, and within its
      limits true only if one does. */
  method Overlap(left: Option<Expr>, right: Option<Expr>, targets: seq<BuildTarget>, known: Known) returns (r: bool)
    ensures !r ==> !Compatible(left, right, targets, known)
    ensures WithinLimits(left, right, targets, known, 12) ==> (r <==> Compatible(left, right, targets, known))
    ensures !WithinLimits(left, right, targets, known, 12) ==> r
  {
    if left.None? && right.None? {
      if targets != [] {
        Unconstrained(targets, known);
      }
      return true;
    }
    hide WithinLimits, Profiles;
    var found, complete := Evaluate(left, right, targets, known, 12, (l, r) => l && r);
    return found || !complete;
  }

  lemma Unconstrained(targets: seq<BuildTarget>, known: Known)
    requires targets != []
    ensures Compatible(None, None, targets, known)
  {
    var accept := (l, r) => l && r;
    var custom: Tag -> bool := tag => false;
    assert Accepted(None, None, known, targets[0], Profiles(targets[0].goarch)[0], custom, accept);
  }

  // ----------------------------------------------------------- the conjunction

  /** The conjuncts, nested conjunctions flattened and repetitions dropped. */
  function Conjuncts(e: Expr): (r: set<Expr>)
    ensures r != {} && forall x :: x in r ==> !x.AndExpr?
  {
    match e
    case AndExpr(x, y) => Conjuncts(x) + Conjuncts(y)
    case _ => {e}
  }

  function AllConjuncts(es: seq<Expr>): (r: set<Expr>)
    ensures es != [] ==> r != {}
    ensures forall x :: x in r ==> !x.AndExpr?
  {
    if es == [] then {} else Conjuncts(es[0]) + AllConjuncts(es[1..])
  }

  /** One fixed order of the elements of a set, as sorting their text gives. */
  ghost function Ordered(terms: set<Expr>): (r: seq<Expr>)
    ensures |r| == |terms| && forall x :: x in r <==> x in terms
  {
    if terms == {} then [] else var x :| x in terms; [x] + Ordered(terms - {x})
  }

  /** The conjunction of the terms, nested to the left. */
  function Chain(first: Expr, rest: seq<Expr>): Expr
    decreases |rest|
  {
    if rest == [] then first else Chain(AndExpr(first, rest[0]), rest[1..])
  }

  /** `combineBuildConstraints` */
  ghost function Combine(es: seq<Expr>): Option<Expr> {
    if es == [] then None
    else var names := Ordered(AllConjuncts(es)); Some(Chain(names[0], names[1..]))
  }

  lemma {:induction false} ConjunctsMean(e: Expr, v: Tag -> bool)
    ensures Eval(e, v) <==> forall x :: x in Conjuncts(e) ==> Eval(x, v)
  {
    match e
    case AndExpr(x, y) =>
      ConjunctsMean(x, v);
      ConjunctsMean(y, v);
    case _ =>
  }

  lemma {:induction false} AllConjunctsMean(es: seq<Expr>, v: Tag -> bool)
    ensures (forall k :: 0 <= k < |es| ==> Eval(es[k], v)) <==> forall x :: x in AllConjuncts(es) ==> Eval(x, v)
  {
    if es != [] {
      ConjunctsMean(es[0], v);
      AllConjunctsMean(es[1..], v);
      assert forall k :: 1 <= k < |es| ==> es[k] == es[1..][k - 1];
      if forall k :: 0 <= k < |es| ==> Eval(es[k], v) {
        assert forall k :: 0 <= k < |es[1..]| ==> es[1..][k] == es[k + 1];
      }
    }
  }

  lemma {:induction false} ChainMeans(first: Expr, rest: seq<Expr>, v: Tag -> bool)
    ensures Eval(Chain(first, rest), v) <==> Eval(first, v) && forall k :: 0 <= k < |rest| ==> Eval(rest[k], v)
    decreases |rest|
  {
    if rest != [] {
      ChainMeans(AndExpr(first, rest[0]), rest[1..], v);
      assert forall k :: 0 <= k < |rest[1..]| ==> rest[1..][k] == rest[k + 1];
      assert forall k :: 1 <= k < |rest| ==> rest[k] == rest[1..][k - 1];
    }
  }

  /** Combining keeps the meaning of the conjunction. */
  lemma CombineMeans(es: seq<Expr>, v: Tag -> bool)
    requires es != []
    ensures Eval(Combine(es).value, v) <==> forall k :: 0 <= k < |es| ==> Eval(es[k], v)
  {
    hide Eval, AllConjuncts, Ordered, Chain;
    var terms := AllConjuncts(es);
    var names := Ordered(terms);
    AllConjunctsMean(es, v);
    ChainMeans(names[0], names[1..], v);
    if forall k :: 0 <= k < |es| ==> Eval(es[k], v) {
      forall k | 0 <= k < |names| ensures Eval(names[k], v) {
        assert names[k] in terms;
      }
    }
    if Eval(names[0], v) && forall k :: 0 <= k < |names[1..]| ==> Eval(names[1..][k], v) {
      forall x | x in terms ensures Eval(x, v) {
        var k :| 0 <= k < |names| && names[k] == x;
        if k > 0 {
          assert names[1..][k - 1] == x;
        }
      }
    }
  }

  lemma {:induction false} AllConjunctsConcat(a: seq<Expr>, b: seq<Expr>)
    ensures AllConjuncts(a + b) == AllConjuncts(a) + AllConjuncts(b)
  {
    if a == [] {
      assert a + b == b;
    } else {
      AllConjunctsConcat(a[1..], b);
      assert (a + b)[1..] == a[1..] + b;
    }
  }

  lemma CombineBySet(a: seq<Expr>, b: seq<Expr>)
    requires AllConjuncts(a) == AllConjuncts(b) && (a == [] <==> b == [])
    ensures Combine(a) == Combine(b)
  {
  }

  lemma {:induction false} InConjuncts(es: seq<Expr>, x: Expr)
    ensures x in AllConjuncts(es) <==> exists e :: e in es && x in Conjuncts(e)
  {
    hide Conjuncts;
    if es != [] {
      InConjuncts(es[1..], x);
      assert es[0] in es && forall e :: e in es[1..] ==> e in es;
      if e :| e in es && x in Conjuncts(e) {
        assert e == es[0] || e in es[1..];
      }
    }
  }

  /** The result depends only on which conjuncts there are: neither on their order
      nor on how often each is repeated. */
  lemma CombineReordered(a: seq<Expr>, b: seq<Expr>)
    requires forall e :: e in a <==> e in b
    ensures Combine(a) == Combine(b)
  {
    hide AllConjuncts, Combine, Conjuncts;
    forall x ensures x in AllConjuncts(a) <==> x in AllConjuncts(b) {
      InConjuncts(a, x);
      InConjuncts(b, x);
    }
    assert AllConjuncts(a) == AllConjuncts(b);
    if a != [] {
      assert a[0] in b;
    }
    if b != [] {
      assert b[0] in a;
    }
    CombineBySet(a, b);
  }

  lemma CombineReplaced(a: seq<Expr>, m: seq<Expr>, n: seq<Expr>, b: seq<Expr>)
    requires AllConjuncts(m) == AllConjuncts(n) && m != [] && n != []
    ensures Combine(a + m + b) == Combine(a + n + b)
  {
    hide AllConjuncts, Combine;
    AllConjunctsConcat(a + m, b);
    AllConjunctsConcat(a, m);
    AllConjunctsConcat(a + n, b);
    AllConjunctsConcat(a, n);
    CombineBySet(a + m + b, a + n + b);
  }

  /** Nor does it depend on the nesting of conjunctions, or on repetitions in place. */
  lemma CombineFlattened(a: seq<Expr>, b: seq<Expr>, x: Expr, y: Expr)
    ensures Combine(a + [AndExpr(x, y)] + b) == Combine(a + [x, y] + b)
    ensures Combine(a + [x, x] + b) == Combine(a + [x] + b)
  {
    hide AllConjuncts, Combine, Conjuncts;
    Pairs(x, y);
    Pairs(x, x);
    CombineReplaced(a, [AndExpr(x, y)], [x, y], b);
    CombineReplaced(a, [x, x], [x], b);
  }

  lemma Pairs(x: Expr, y: Expr)
    ensures AllConjuncts([x]) == Conjuncts(x)
    ensures AllConjuncts([x, y]) == Conjuncts(x) + Conjuncts(y) == AllConjuncts([AndExpr(x, y)])
  {
    assert [x, y][1..] == [y] && [x][1..] == [] && [y][1..] == [];
    assert AllConjuncts([y]) == Conjuncts(y) + AllConjuncts([]);
  }

  lemma {:induction false} ChainConjuncts(first: Expr, rest: seq<Expr>)
    requires forall k :: 0 <= k < |rest| ==> !rest[k].AndExpr?
    ensures Conjuncts(Chain(first, rest)) == Conjuncts(first) + set x | x in rest
    decreases |rest|
  {
    if rest != [] {
      ChainConjuncts(AndExpr(first, rest[0]), rest[1..]);
      assert rest == [rest[0]] + rest[1..];
      assert Conjuncts(rest[0]) == {rest[0]};
    }
  }

  /** Combining what has been combined changes nothing. */
  lemma CombineAgain(es: seq<Expr>)
    requires es != []
    ensures Combine([Combine(es).value]) == Combine(es)
  {
    hide AllConjuncts, Ordered;
    var terms := AllConjuncts(es);
    var names := Ordered(terms);
    ChainConjuncts(names[0], names[1..]);
    assert names == [names[0]] + names[1..];
    assert names[0] in terms && Conjuncts(names[0]) == {names[0]};
    Pairs(Combine(es).value, names[0]);
    assert Conjuncts(Combine(es).value) == terms;
  }
}
