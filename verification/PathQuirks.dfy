/** How deep links can nest, what a link cycle yields, and the two places where the resolver misleads. */
module PathQuirks {
  import opened Common
  import opened PathTokens
  import opened PathWalk
  import opened PathRefine

  // ----- nesting -----

  type Key = (Gfid, string)

  /** The directory entries that are symbolic links. */
  ghost function Links(sv: Server): set<Key> {
    set k | k in sv.entries && KindOf(sv, sv.entries[k]).Link?
  }

  function Target(sv: Server, k: Key): string
    requires k in sv.entries && KindOf(sv, sv.entries[k]).Link?
  {
    KindOf(sv, sv.entries[k]).target
  }

  /** The walk that following entry `k` starts, with `left` further levels allowed. */
  ghost function Followed(sv: Server, k: Key, left: nat): Result
    requires k in Links(sv)
  {
    WalkPath(sv, Some(k.0), Target(sv, k), left, true)
  }

  /** `left` levels are enough below `k`, and one less is not. */
  ghost predicate ExactDepth(sv: Server, k: Key, left: nat) {
    && k in Links(sv) && Followed(sv, k, left).inode.Some?
    && (left > 0 ==> Followed(sv, k, left - 1).inode.None?)
  }

  /** A resolution that needs exactly `left` levels follows a link that needs exactly one less. */
  lemma {:induction false} DeepestLink(sv: Server, dir: Gfid, comps: seq<string>, left: nat, follow: bool, ret: int)
    returns (k: Key)
    requires WellFormed(sv) && comps != [] && left > 0
    requires Walk(sv, dir, comps, left, follow, ret).inode.Some?
    requires Walk(sv, dir, comps, left - 1, follow, ret).inode.None?
    ensures ExactDepth(sv, k, left - 1)
    decreases |comps|
  {
    var found := Lookup(sv, dir, comps[0]).value;
    if KindOf(sv, found).Link? && (|comps| > 1 || follow) {
      LinkIsEntry(sv, dir, comps[0]);
      k := (dir, comps[0]);
      if !ExactDepth(sv, k, left - 1) {
        FollowedMonotone(sv, k, left - 2, left - 1);
        k := DeepestLink(sv, Followed(sv, k, left - 1).inode.value, comps[1..], left, follow, 0);
      }
    } else {
      k := DeepestLink(sv, found, comps[1..], left, follow, ret);
    }
  }

  lemma FollowedMonotone(sv: Server, k: Key, left: nat, left': nat)
    requires k in Links(sv) && left <= left' && Followed(sv, k, left).inode.Some?
    ensures Followed(sv, k, left') == Followed(sv, k, left)
  {
    var s, cs := Start(Some(k.0), Target(sv, k)), Components(Target(sv, k));
    if cs != [] {
      WalkMonotone(sv, s, cs, left, left', true, -1, -1);
    }
  }

  /** Links that need `left`, `left - 1`, ..., 0 further levels: all different. */
  lemma {:induction false} LinkChain(sv: Server, k: Key, left: nat) returns (chain: set<Key>)
    requires WellFormed(sv) && ExactDepth(sv, k, left)
    ensures chain <= Links(sv) && |chain| == left + 1
    ensures forall c :: c in chain ==> exists d: nat :: d <= left && ExactDepth(sv, c, d)
    decreases left
  {
    if left == 0 {
      chain := {k};
      assert ExactDepth(sv, k, 0);
    } else {
      var k' := DeepestLink(sv, Start(Some(k.0), Target(sv, k)), Components(Target(sv, k)), left, true, -1);
      var rest := LinkChain(sv, k', left - 1);
      if k in rest {
        var d: nat :| d <= left - 1 && ExactDepth(sv, k, d);
        FollowedMonotone(sv, k, d, left - 1);
        assert false;
      }
      chain := rest + {k};
      forall c | c in chain
        ensures exists d: nat :: d <= left && ExactDepth(sv, c, d)
      {
        if c == k {
          assert ExactDepth(sv, c, left);
        } else {
          var d: nat :| d <= left - 1 && ExactDepth(sv, c, d);
          assert d <= left && ExactDepth(sv, c, d);
        }
      }
    }
  }

  lemma SubsetSize(a: set<Key>, b: set<Key>)
    requires a <= b
    ensures |a| <= |b|
  {
    assert b == a + (b - a);
  }

  lemma {:induction false} DepthBound(sv: Server, dir: Gfid, comps: seq<string>, more: nat, follow: bool)
    requires WellFormed(sv) && comps != [] && Walk(sv, dir, comps, more, follow, -1).inode.Some?
    ensures Walk(sv, dir, comps, |Links(sv)|, follow, -1).inode.Some?
    decreases more
  {
    if more <= |Links(sv)| {
      WalkMonotone(sv, dir, comps, more, |Links(sv)|, follow, -1, -1);
    } else if Walk(sv, dir, comps, more - 1, follow, -1).inode.Some? {
      DepthBound(sv, dir, comps, more - 1, follow);
    } else {
      var k := DeepestLink(sv, dir, comps, more, follow, -1);
      var chain := LinkChain(sv, k, more - 1);
      SubsetSize(chain, Links(sv));
      assert false;
    }
  }

  /** A namespace never needs more levels than it has symbolic links. */
  lemma FewLinksFit(sv: Server, left: nat)
    requires WellFormed(sv) && |Links(sv)| <= left
    ensures WithinNesting(sv, left)
  {
    forall dir: Gfid, comps: seq<string>, follow: bool, more: nat |
      comps != [] && Walk(sv, dir, comps, more, follow, -1).inode.Some?
      ensures Walk(sv, dir, comps, left, follow, -1).inode.Some?
    {
      DepthBound(sv, dir, comps, more, follow);
      WalkMonotone(sv, dir, comps, |Links(sv)|, left, follow, -1, -1);
    }
  }

  // ----- cycles -----

  /** Each link of `c` has a target whose resolution passes through a link of `c` again. */
  ghost predicate Cycle(sv: Server, c: set<Key>) {
    forall k {:trigger OnCycle(sv, c, k)} :: k in c ==> OnCycle(sv, c, k)
  }

  ghost predicate OnCycle(sv: Server, c: set<Key>, k: Key) {
    && KindOf(sv, k.0).Dir? && k in Links(sv) && k.1 != "." && k.1 != ".."
    && exists i: nat, k' :: Passes(sv, k, i, k') && k' in c
  }

  /** The first `i` components of `k`'s target lead to directory `k'.0`, and the next one is `k'.1`. */
  ghost predicate Passes(sv: Server, k: Key, i: nat, k': Key)
    requires k in Links(sv)
  {
    var cs := Components(Target(sv, k));
    i < |cs| && cs[i] == k'.1 && Reaches(sv, Start(Some(k.0), Target(sv, k)), cs[..i], true, k'.0)
  }

  lemma ExpandLink(sv: Server, k: Key, rest: seq<string>, follow: bool, n: nat)
    requires KindOf(sv, k.0).Dir? && k in Links(sv) && k.1 != "." && k.1 != ".." && (rest == [] ==> follow)
    requires Expand(sv, k.0, [k.1] + rest, follow, n).Some?
    ensures n > 0 && Expand(sv, Start(Some(k.0), Target(sv, k)), Components(Target(sv, k)) + rest, follow, n - 1).Some?
  {
    assert ([k.1] + rest)[1..] == rest;
  }

  lemma CycleNext(sv: Server, c: set<Key>, k: Key) returns (i: nat, k': Key)
    requires Cycle(sv, c) && k in c
    ensures KindOf(sv, k.0).Dir? && k in Links(sv) && k.1 != "." && k.1 != ".."
    ensures Passes(sv, k, i, k') && k' in c
  {
    assert OnCycle(sv, c, k);
    i, k' :| Passes(sv, k, i, k') && k' in c;
  }

  lemma {:induction false} CycleNeverExpands(sv: Server, c: set<Key>, k: Key, rest: seq<string>, follow: bool, n: nat)
    requires Cycle(sv, c) && k in c && (rest == [] ==> follow)
    ensures Expand(sv, k.0, [k.1] + rest, follow, n).None?
    decreases n
  {
    hide Expand, Components, Cycle;
    if Expand(sv, k.0, [k.1] + rest, follow, n).Some? {
      var i, k' := CycleNext(sv, c, k);
      ExpandLink(sv, k, rest, follow, n);
      var s, cs := Start(Some(k.0), Target(sv, k)), Components(Target(sv, k));
      var after := cs[i + 1..] + rest;
      assert cs + rest == cs[..i] + ([k'.1] + after);
      var y := ExpandSplit(sv, s, cs[..i], [k'.1] + after, follow, n - 1);
      ReachesOnce(sv, s, cs[..i], true, y, k'.0);
      CycleNeverExpands(sv, c, k', after, follow, n - 1);
      assert false;
    }
  }

  /**
    A path that has to follow a link of a cycle never yields an inode, at any depth allowance: its first components
    lead to the directory of the link, and the link comes next.
  */
  lemma CycleNeverResolves(sv: Server, c: set<Key>, k: Key, start: Gfid, pre: seq<string>, rest: seq<string>, left: nat,
                           follow: bool)
    requires Cycle(sv, c) && k in c && (rest == [] ==> follow) && Reaches(sv, start, pre, true, k.0)
    ensures Walk(sv, start, pre + ([k.1] + rest), left, follow, -1).inode.None?
  {
    hide Expand, Walk, Cycle;
    var tail := [k.1] + rest;
    var r := Walk(sv, start, pre + tail, left, follow, -1);
    if r.inode.Some? {
      WalkSound(sv, start, pre + tail, left, follow, -1);
      var n: nat :| Expand(sv, start, pre + tail, follow, n) == Some(r.inode.value);
      var y := ExpandSplit(sv, start, pre, tail, follow, n);
      ReachesOnce(sv, start, pre, true, y, k.0);
      CycleNeverExpands(sv, c, k, rest, follow, n);
    }
  }

  // ----- bare targets -----

  /** The resolver and the reference agree on every path from every directory. */
  ghost predicate Agrees(sv: Server, left: nat) {
    forall dir: Gfid, comps: seq<string>, follow: bool, x: Gfid | comps != [] ::
      Walk(sv, dir, comps, left, follow, -1).inode == Some(x) <==> Reaches(sv, dir, comps, follow, x)
  }

  /** A bare target followed by one more component resolves in the reference and not in the code. */
  lemma BareLinkFails(sv: Server, k: Key, left: nat, follow: bool)
    requires WellFormed(sv) && k in Links(sv) && KindOf(sv, k.0).Dir? && Bare(Target(sv, k)) && left > 0
    ensures var x := Start(Some(k.0), Target(sv, k));
            && Reaches(sv, k.0, [k.1, "."], follow, x)
            && Walk(sv, k.0, [k.1, "."], left, follow, -1).inode.None?
  {
    var x, comps := Start(Some(k.0), Target(sv, k)), [k.1, "."];
    assert comps[1..] == ["."] && [] + comps[1..] == ["."];
    assert Expand(sv, x, ["."], follow, 1) == Some(x);
    assert Expand(sv, k.0, comps, follow, 2) == Some(x);
    assert WalkPath(sv, Some(k.0), Target(sv, k), left - 1, true).iatt == Invalid;
    assert Component(sv, k.0, k.1, false, left, follow, -1).iatt == Invalid;
  }

  /** Agreement on every path means exactly that no link has a bare target. */
  lemma AgreesIffNoBareLinks(sv: Server, left: nat)
    requires WellFormed(sv) && WithinNesting(sv, left) && left > 0
    ensures Agrees(sv, left) <==> NoBareLinks(sv)
  {
    if NoBareLinks(sv) {
      forall dir: Gfid, comps: seq<string>, follow: bool, x: Gfid | comps != []
        ensures Walk(sv, dir, comps, left, follow, -1).inode == Some(x) <==> Reaches(sv, dir, comps, follow, x)
      {
        FoundIffReached(sv, dir, comps, left, follow, x);
      }
    } else {
      var k :| k in sv.entries && KindOf(sv, k.0).Dir? && KindOf(sv, sv.entries[k]).Link?
               && Bare(KindOf(sv, sv.entries[k]).target);
      BareLinkFails(sv, k, left, true);
    }
  }

  // ----- the return value -----

  /** The return value is 0 exactly when an inode was found. */
  ghost predicate RetIsFaithful(sv: Server, left: nat) {
    forall dir: Gfid, comps: seq<string>, follow: bool | comps != [] ::
      var r := Walk(sv, dir, comps, left, follow, -1); r.ret == 0 <==> r.inode.Some?
  }

  /** Some symbolic link, followed with one level less, leads to a directory. */
  ghost predicate LinkToDirectory(sv: Server, left: nat) {
    left > 0 && exists k :: k in Links(sv) && KindOf(sv, k.0).Dir? &&
                            Followed(sv, k, left - 1).inode.Some? && Followed(sv, k, left - 1).iatt == Directory
  }

  lemma {:induction false} FaithfulWalk(sv: Server, dir: Gfid, comps: seq<string>, left: nat, follow: bool)
    requires WellFormed(sv) && !LinkToDirectory(sv, left) && comps != []
    ensures var r := Walk(sv, dir, comps, left, follow, -1); r.ret == 0 <==> r.inode.Some?
    decreases left, |comps|
  {
    var found := Lookup(sv, dir, comps[0]);
    if found.Some? && KindOf(sv, found.value).Link? && (|comps| > 1 || follow) {
      LinkIsEntry(sv, dir, comps[0]);
      var k := (dir, comps[0]);
      if left > 0 && |comps| == 1 && Components(Target(sv, k)) != [] {
        if LinkToDirectory(sv, left - 1) {
          var k' :| k' in Links(sv) && KindOf(sv, k'.0).Dir? &&
                    Followed(sv, k', left - 2).inode.Some? && Followed(sv, k', left - 2).iatt == Directory;
          FollowedMonotone(sv, k', left - 2, left - 1);
        }
        FaithfulWalk(sv, Start(Some(dir), Target(sv, k)), Components(Target(sv, k)), left - 1, true);
      }
    } else if found.Some? && |comps| > 1 && KindOf(sv, found.value).Dir? {
      FaithfulWalk(sv, found.value, comps[1..], left, follow);
    }
  }

  /** A name that no directory has. */
  lemma {:induction false} FreshName(keys: set<Key>) returns (name: string)
    ensures |name| > 2 && forall k :: k in keys ==> |k.1| < |name|
  {
    if keys == {} {
      name := "...";
    } else {
      var k :| k in keys;
      var rest := FreshName(keys - {k});
      name := rest + k.1 + ".";
    }
  }

  /** A missing name below a link to a directory is reported with return value 0. */
  lemma MissingBelowLink(sv: Server, k: Key, left: nat, name: string)
    requires k in Links(sv) && KindOf(sv, k.0).Dir? && k.1 != "." && k.1 != ".." && left > 0
    requires Followed(sv, k, left - 1).inode.Some? && Followed(sv, k, left - 1).iatt == Directory
    requires Lookup(sv, Followed(sv, k, left - 1).inode.value, name).None?
    ensures var r := Walk(sv, k.0, [k.1, name], left, true, -1); r.ret == 0 && r.inode.None? && r.parent.Some?
  {
    assert [k.1, name][1..] == [name];
    var y := Followed(sv, k, left - 1).inode.value;
    assert Component(sv, k.0, k.1, false, left, true, -1) == Step(Some(y), Directory, 0);
    assert Walk(sv, y, [name], left, true, 0) == Result(None, Some(y), 0, Invalid);
  }

  /** The return value can be trusted on every path exactly when no symbolic link leads to a directory. */
  lemma FaithfulIffNoLinkToDirectory(sv: Server, left: nat)
    requires WellFormed(sv)
    ensures RetIsFaithful(sv, left) <==> !LinkToDirectory(sv, left)
  {
    if LinkToDirectory(sv, left) {
      var k :| k in Links(sv) && KindOf(sv, k.0).Dir? &&
               Followed(sv, k, left - 1).inode.Some? && Followed(sv, k, left - 1).iatt == Directory;
      var name := FreshName(sv.entries.Keys);
      MissingBelowLink(sv, k, left, name);
    } else {
      forall dir: Gfid, comps: seq<string>, follow: bool | comps != []
        ensures var r := Walk(sv, dir, comps, left, follow, -1); r.ret == 0 <==> r.inode.Some?
      {
        FaithfulWalk(sv, dir, comps, left, follow);
      }
    }
  }

  /** The reference follows entry `k` to a directory. */
  ghost predicate ReachesDirectory(sv: Server, k: Key, x: Gfid)
    requires k in Links(sv)
  {
    Reaches(sv, Start(Some(k.0), Target(sv, k)), Components(Target(sv, k)), true, x) && KindOf(sv, x).Dir?
  }

  lemma FollowedIffReached(sv: Server, k: Key, left: nat)
    requires WellFormed(sv) && NoBareLinks(sv) && WithinNesting(sv, left) && k in Links(sv) && KindOf(sv, k.0).Dir?
    ensures Followed(sv, k, left).inode.Some? && Followed(sv, k, left).iatt == Directory
            <==> exists x: Gfid :: ReachesDirectory(sv, k, x)
  {
    var s, cs, r := Start(Some(k.0), Target(sv, k)), Components(Target(sv, k)), Followed(sv, k, left);
    if cs == [] {
      assert Expand(sv, s, cs, true, 1) == Some(ROOT);
      assert ReachesDirectory(sv, k, ROOT);
    } else {
      hide Walk, Expand, Components;
      if r.inode.Some? {
        FoundIffReached(sv, s, cs, left, true, r.inode.value);
        WalkIatt(sv, s, cs, left, true, -1);
        assert ReachesDirectory(sv, k, r.inode.value) <==> r.iatt == Directory;
      }
      forall x: Gfid | ReachesDirectory(sv, k, x)
        ensures r.inode == Some(x)
      {
        FoundIffReached(sv, s, cs, left, true, x);
      }
    }
  }

  /** Without bare targets and within the nesting limit, that is a link the reference follows to a directory. */
  lemma FaithfulIffNoneReachesDirectory(sv: Server, left: nat)
    requires WellFormed(sv) && NoBareLinks(sv) && left > 0 && WithinNesting(sv, left - 1)
    ensures RetIsFaithful(sv, left) <==>
            forall k, x: Gfid :: k in Links(sv) && KindOf(sv, k.0).Dir? ==> !ReachesDirectory(sv, k, x)
  {
    hide RetIsFaithful, Followed, ReachesDirectory, NoBareLinks, WithinNesting;
    FaithfulIffNoLinkToDirectory(sv, left);
    forall k | k in Links(sv) && KindOf(sv, k.0).Dir?
      ensures Followed(sv, k, left - 1).inode.Some? && Followed(sv, k, left - 1).iatt == Directory
              <==> exists x: Gfid :: ReachesDirectory(sv, k, x)
    {
      FollowedIffReached(sv, k, left - 1);
    }
  }
}
