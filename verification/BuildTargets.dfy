/** What the tables of operating systems and feature levels mean for constraints:
    which build tags imply which others. */
module BuildTargets {
  import opened Wire
  import opened Constraints

  function Tagged(tag: Tag): Option<Expr> { Some(TagExpr(tag)) }

  /** A build sets the tag of its operating system, of the one it derives from, and
      `unix` if it belongs there. */
  lemma SystemTags(goos: string)
    ensures MatchesOS(goos, goos)
    ensures MatchesOS("android", "linux") && MatchesOS("illumos", "solaris") && MatchesOS("ios", "darwin")
    ensures MatchesOS(goos, "linux") || MatchesOS(goos, "solaris") || MatchesOS(goos, "darwin") ==> MatchesOS(goos, "unix")
    ensures forall tag | tag in {"aix", "dragonfly", "freebsd", "hurd", "netbsd", "openbsd"} :: MatchesOS(goos, tag) ==> MatchesOS(goos, "unix")
    ensures forall tag | tag in {"windows", "plan9", "js", "wasip1"} :: MatchesOS(goos, tag) ==> !MatchesOS(goos, "unix")
    ensures forall tag :: MatchesOS(goos, tag) && goos != tag ==>
              tag == "unix" || (goos, tag) in {("android", "linux"), ("illumos", "solaris"), ("ios", "darwin")}
  {
  }

  /** One tag of the table implies another in every build, so also as constraints. */
  lemma TagEntails(x: Tag, y: Tag, targets: seq<BuildTarget>, known: Known)
    requires forall target, features, custom: Tag -> bool ::
               Truth(known, target, features, custom, x) ==> Truth(known, target, features, custom, y)
    ensures Entails(Tagged(x), Tagged(y), targets, known)
  {
    hide Truth, Profiles;
  }

  /** For all targets: android implies linux, ios darwin, illumos solaris, and each
      of these unix. */
  lemma SystemsEntail(targets: seq<BuildTarget>, known: Known)
    requires {"android", "linux", "ios", "darwin", "illumos", "solaris"} <= known.os
    ensures Entails(Tagged("android"), Tagged("linux"), targets, known) && Entails(Tagged("linux"), Tagged("unix"), targets, known)
    ensures Entails(Tagged("ios"), Tagged("darwin"), targets, known) && Entails(Tagged("darwin"), Tagged("unix"), targets, known)
    ensures Entails(Tagged("illumos"), Tagged("solaris"), targets, known) && Entails(Tagged("solaris"), Tagged("unix"), targets, known)
  {
    hide Entails, IsFeature, IsKnownFeature;
    TagEntails("android", "linux", targets, known);
    TagEntails("linux", "unix", targets, known);
    TagEntails("ios", "darwin", targets, known);
    TagEntails("darwin", "unix", targets, known);
    TagEntails("illumos", "solaris", targets, known);
    TagEntails("solaris", "unix", targets, known);
  }

  /** No implication runs backwards where a target tells the two apart, and two
      systems that neither derives from the other never meet. */
  lemma SystemsDiffer(target: BuildTarget, known: Known, targets: seq<BuildTarget>)
    requires {"android", "linux", "darwin", "windows"} <= known.os
    ensures target.goos == "linux" && target in targets ==>
              !Entails(Tagged("linux"), Tagged("android"), targets, known) && !Entails(Tagged("unix"), Tagged("darwin"), targets, known)
    ensures !Compatible(Tagged("linux"), Tagged("darwin"), targets, known)
    ensures !Compatible(Tagged("windows"), Tagged("unix"), targets, known)
  {
    hide IsFeature, IsKnownFeature, Profiles;
    if target.goos == "linux" && target in targets {
      var i :| 0 <= i < |targets| && targets[i] == target;
      var none: Tag -> bool := tag => false;
      assert Accepted(Tagged("linux"), Tagged("android"), known, targets[i], Profiles(targets[i].goarch)[0], none, (l, r) => l && !r);
      assert Accepted(Tagged("unix"), Tagged("darwin"), known, targets[i], Profiles(targets[i].goarch)[0], none, (l, r) => l && !r);
    }
  }

  /** A build has one architecture, and a feature of a known architecture implies it. */
  lemma Architectures(x: Tag, y: Tag, feature: Tag, targets: seq<BuildTarget>, known: Known)
    requires x in known.arch && y in known.arch && x != y && x !in known.os && y !in known.os && "unix" !in {x, y}
    requires ArchOf(feature) == Some(x) && feature !in known.os && feature !in known.arch && feature != "unix"
    ensures !Compatible(Tagged(x), Tagged(y), targets, known)
    ensures Entails(Tagged(feature), Tagged(x), targets, known)
    ensures !Compatible(Tagged(feature), Tagged(y), targets, known)
  {
    hide Profiles, MatchesOS, IsKnownFeature, ArchOf;
  }

  lemma NotSet(v: Tag -> bool, tag: Tag)
    ensures Eval(NotExpr(TagExpr(tag)), v) == !v(tag)
  {
  }

  /** The connectives, and the tags of a constraint: exactly those that occur. */
  lemma Connectives(x: Expr, y: Expr, v: Tag -> bool, tag: Tag)
    ensures Eval(OrExpr(x, y), v) == !(!Eval(x, v) && !Eval(y, v))
    ensures Eval(AndExpr(x, y), v) == !(!Eval(x, v) || !Eval(y, v))
    ensures Eval(NotExpr(x), v) != Eval(x, v)
    ensures Tags(TagExpr(tag)) == {tag} && Tags(NotExpr(x)) == Tags(x)
    ensures Tags(OrExpr(x, y)) == Tags(AndExpr(x, y)) == Tags(x) + Tags(y)
  {
  }

  /** What is searched: the tags in either constraint that no target decides. */
  lemma Searched(left: Option<Expr>, right: Option<Expr>, known: Known, tag: Tag)
    ensures tag in CustomTags(left, right, known) <==>
            && ((left.Some? && tag in Tags(left.value)) || (right.Some? && tag in Tags(right.value)))
            && tag !in known.os && tag !in known.arch && tag != "unix"
            && !(ArchOf(tag).Some? && ArchOf(tag).value in known.arch && exists p :: p in Profiles(ArchOf(tag).value) && tag in p)
  {
    hide Profiles, ArchOf;
    if ArchOf(tag).Some? {
      var profiles := Profiles(ArchOf(tag).value);
      assert forall i :: 0 <= i < |profiles| ==> profiles[i] in profiles;
    }
  }

  lemma {:induction false} ArchOfFeature(arch: string, feature: string)
    ensures '.' !in arch ==> ArchOf(arch + "." + feature) == Some(arch)
    ensures '.' !in arch ==> ArchOf(arch) == None
  {
    var tag := arch + "." + feature;
    if arch != "" && '.' !in arch {
      ArchOfFeature(arch[1..], feature);
      assert tag[1..] == arch[1..] + "." + feature;
      assert arch == [arch[0]] + arch[1..];
    }
  }

  /** Nothing is known of a custom tag: with any target a build may set it or not. */
  lemma CustomIsFree(tag: Tag, targets: seq<BuildTarget>, known: Known)
    requires IsCustom(known, tag) && !IsFeature(known, tag) && targets != []
    ensures Compatible(Tagged(tag), None, targets, known) && Compatible(Some(NotExpr(TagExpr(tag))), None, targets, known)
  {
    hide Profiles, MatchesOS, IsKnownFeature, ArchOf, IsFeature;
    var all: Tag -> bool, none: Tag -> bool := tag => true, tag => false;
    assert Accepted(Tagged(tag), None, known, targets[0], Profiles(targets[0].goarch)[0], all, (l, r) => l && r);
    NotSet(t => Truth(known, targets[0], Profiles(targets[0].goarch)[0], none, t), tag);
    assert Accepted(Some(NotExpr(TagExpr(tag))), None, known, targets[0], Profiles(targets[0].goarch)[0], none, (l, r) => l && r);
  }

  // ------------------------------------------------------------ feature levels

  /** Profile `i` of an architecture with levels has exactly the first levels. */
  lemma LevelsNest(arch: string, names: seq<string>)
    ensures |Levels(arch, names)| == |names|
    ensures forall i, tag :: 0 <= i < |names| ==>
              (tag in Levels(arch, names)[i] <==> exists k :: 0 <= k <= i && tag == arch + "." + names[k])
  {
  }

  /** Architectures whose feature names are levels, each including those before it. */
  function LevelNames(arch: string): seq<string> {
    if arch == "amd64" then ["v1", "v2", "v3", "v4"]
    else if arch == "arm" then ["5", "6", "7"]
    else if arch == "ppc64" || arch == "ppc64le" then ["power8", "power9", "power10"]
    else if arch == "riscv64" then ["rva20u64", "rva22u64", "rva23u64"]
    else []
  }

  /** Architectures of whose features a build has exactly one. */
  function ChoiceNames(arch: string): seq<string> {
    if arch == "386" then ["387", "sse2", "softfloat"]
    else if arch in {"mips", "mipsle", "mips64", "mips64le"} then ["hardfloat", "softfloat"]
    else []
  }

  lemma ProfileTable(arch: string)
    ensures LevelNames(arch) != [] ==> Profiles(arch) == Levels(arch, LevelNames(arch))
    ensures ChoiceNames(arch) != [] ==> Profiles(arch) == Exclusive(arch, ChoiceNames(arch))
    ensures arch == "wasm" ==> forall p :: p in Profiles(arch) <==> p <= {"wasm.satconv", "wasm.signext"}
    ensures LevelNames(arch) == [] && ChoiceNames(arch) == [] && arch != "wasm" && arch != "arm64" ==> Profiles(arch) == [{}]
  {
    hide Levels, Exclusive, Arm64Profile;
    if arch == "wasm" {
      forall p: set<Tag> | p <= {"wasm.satconv", "wasm.signext"} ensures p in Profiles(arch) {
        var satconv, signext := "wasm.satconv" in p, "wasm.signext" in p;
        assert p == (if satconv then {"wasm.satconv"} else {}) + (if signext then {"wasm.signext"} else {});
        var k := (if satconv then 1 else 0) + (if signext then 2 else 0);
        assert Profiles(arch)[k] == p;
      }
    }
  }

  /** With levels, every build that has a later one has the earlier ones too; with
      a choice, no build has two. */
  lemma LevelsImply(arch: string, p: set<Tag>, i: nat, j: nat)
    requires p in Profiles(arch) && i < j
    ensures j < |LevelNames(arch)| && arch + "." + LevelNames(arch)[j] in p ==> arch + "." + LevelNames(arch)[i] in p
    ensures j < |ChoiceNames(arch)| ==> !(arch + "." + ChoiceNames(arch)[j] in p && arch + "." + ChoiceNames(arch)[i] in p)
  {
    hide Profiles;
    ProfileTable(arch);
    if j < |LevelNames(arch)| && arch + "." + LevelNames(arch)[j] in p {
      LevelFound(arch, LevelNames(arch), p, i, j);
    }
    if j < |ChoiceNames(arch)| && arch + "." + ChoiceNames(arch)[j] in p && arch + "." + ChoiceNames(arch)[i] in p {
      SameTag(arch, ChoiceNames(arch)[i], ChoiceNames(arch)[j]);
      assert false;
    }
  }

  lemma LevelKnown(arch: string, i: nat, known: Known)
    requires arch in known.arch && '.' !in arch && i < |LevelNames(arch)|
    ensures ArchOf(arch + "." + LevelNames(arch)[i]) == Some(arch) && IsKnownFeature(known, arch + "." + LevelNames(arch)[i])
  {
    hide Profiles, ArchOf;
    var tag := arch + "." + LevelNames(arch)[i];
    ArchOfFeature(arch, LevelNames(arch)[i]);
    ProfileTable(arch);
    assert tag in Levels(arch, LevelNames(arch))[i];
  }

  /** As constraints: a feature level implies every lower one, for all targets. */
  lemma LevelsEntail(arch: string, i: nat, j: nat, targets: seq<BuildTarget>, known: Known)
    requires arch in known.arch && '.' !in arch && i < j < |LevelNames(arch)|
    requires forall k :: 0 <= k < |LevelNames(arch)| ==> Apart(known, arch + "." + LevelNames(arch)[k])
    ensures Entails(Tagged(arch + "." + LevelNames(arch)[j]), Tagged(arch + "." + LevelNames(arch)[i]), targets, known)
  {
    hide Profiles, ArchOf, IsKnownFeature, MatchesOS, LevelNames;
    var high, low := arch + "." + LevelNames(arch)[j], arch + "." + LevelNames(arch)[i];
    LevelKnown(arch, i, known);
    LevelKnown(arch, j, known);
    assert Apart(known, high) && Apart(known, low);
    forall a, b, custom: Tag -> bool | 0 <= a < |targets| && 0 <= b < |Profiles(targets[a].goarch)|
      ensures var features := Profiles(targets[a].goarch)[b];
              Truth(known, targets[a], features, custom, high) ==> Truth(known, targets[a], features, custom, low)
    {
      if targets[a].goarch == arch {
        LevelsImply(arch, Profiles(arch)[b], i, j);
      }
    }
  }

  /** No system or architecture is called like this tag. */
  predicate Apart(known: Known, tag: Tag) { tag !in known.os && tag !in known.arch && tag != "unix" }

  lemma SameTag(arch: string, a: string, b: string)
    ensures arch + "." + a == arch + "." + b ==> a == b
  {
    assert (arch + "." + a)[|arch| + 1..] == a && (arch + "." + b)[|arch| + 1..] == b;
  }

  lemma LevelFound(arch: string, names: seq<string>, p: set<Tag>, i: nat, j: nat)
    requires p in Levels(arch, names) && i < j < |names| && arch + "." + names[j] in p
    requires forall a, b :: 0 <= a < b < |names| ==> names[a] != names[b]
    ensures arch + "." + names[i] in p
  {
    var k :| 0 <= k < |names| && Levels(arch, names)[k] == p;
    var l :| 0 <= l <= k && arch + "." + names[j] == arch + "." + names[l];
    SameTag(arch, names[j], names[l]);
  }

  function Arm64Tag(major: nat, minor: nat): Tag
    requires major < 10 && minor < 10
  {
    "arm64.v" + DIGITS[major] + "." + DIGITS[minor]
  }

  lemma SameArm64(a: nat, b: nat, c: nat, d: nat)
    requires a < 10 && b < 10 && c < 10 && d < 10
    ensures Arm64Tag(a, b) == Arm64Tag(c, d) ==> a == c && b == d
  {
    var s, t := Arm64Tag(a, b), Arm64Tag(c, d);
    assert s[7] == DIGITS[a][0] && s[9] == DIGITS[b][0] && t[7] == DIGITS[c][0] && t[9] == DIGITS[d][0];
  }

  /** Of arm64 a build is v8.m, or v9.m and then also v8.(m + 5), with all the
      minor levels below. */
  lemma Arm64Level(major: nat, minor: nat, a: nat, b: nat)
    requires major in {8, 9} && minor < 10 && a < 10 && b < 10
    ensures Arm64Tag(a, b) in Arm64Profile(major, minor) <==>
            (a == major && b <= minor) || (major == 9 && a == 8 && b <= minor + 5)
  {
    if Arm64Tag(a, b) in Arm64Profile(major, minor) {
      var own := set k | 0 <= k <= minor :: "arm64.v" + DIGITS[major] + "." + DIGITS[k];
      if Arm64Tag(a, b) in own {
        var k :| 0 <= k <= minor && Arm64Tag(a, b) == "arm64.v" + DIGITS[major] + "." + DIGITS[k];
        SameArm64(a, b, major, k);
      } else {
        var older := set k | 0 <= k <= minor + 5 && k <= 9 :: "arm64.v8." + DIGITS[k];
        assert Arm64Profile(major, minor) == own + (if major == 9 then older else {});
        assert Arm64Tag(a, b) in older;
        var k :| 0 <= k <= minor + 5 && k <= 9 && Arm64Tag(a, b) == "arm64.v8." + DIGITS[k];
        assert Arm64Tag(8, k) == "arm64.v8." + DIGITS[k];
        SameArm64(a, b, 8, k);
      }
    }
    if a == 8 {
      assert Arm64Tag(8, b) == "arm64.v8." + DIGITS[b];
    }
  }

  lemma Arm64Profiles()
    ensures |Profiles("arm64")| == 16
    ensures forall i :: 0 <= i < 10 ==> Profiles("arm64")[i] == Arm64Profile(8, i)
    ensures forall i :: 0 <= i < 6 ==> Profiles("arm64")[10 + i] == Arm64Profile(9, i)
  {
    hide Arm64Profile;
  }

  /** In every arm64 build: a minor level implies those below it, and v9.m implies
      v8.(m + 5). */
  lemma Arm64Implies(p: set<Tag>, major: nat, minor: nat, lower: nat)
    requires p in Profiles("arm64") && major in {8, 9} && minor < 10 && Arm64Tag(major, minor) in p
    ensures lower <= minor ==> Arm64Tag(major, lower) in p
    ensures major == 9 && lower <= minor + 5 && lower < 10 ==> Arm64Tag(8, lower) in p
  {
    hide Profiles, Arm64Profile, Arm64Tag;
    Arm64Profiles();
    var i :| 0 <= i < 16 && Profiles("arm64")[i] == p;
    var m, n := if i < 10 then 8 else 9, if i < 10 then i else i - 10;
    Arm64Level(m, n, major, minor);
    if lower <= minor {
      Arm64Level(m, n, major, lower);
    }
    if major == 9 && lower < 10 {
      Arm64Level(m, n, 8, lower);
    }
  }
}
