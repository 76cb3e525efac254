/** The nested resolver finds exactly what the reference resolver finds, up to its two quirks. */
module PathRefine {
  import opened Common
  import opened PathTokens
  import opened PathWalk

  /** A consistent namespace: `..` leads to directories, and each directory has one parent. */
  ghost predicate WellFormed(sv: Server) {
    && KindOf(sv, ROOT).Dir?
    && (forall d :: d in sv.parents ==> KindOf(sv, sv.parents[d]).Dir?)
    && (forall k :: k in sv.entries ==>
          k.1 != "." && k.1 != ".." && sv.entries[k] in sv.kinds && sv.entries[k] != ROOT)
    && (forall k :: k in sv.entries && KindOf(sv, sv.entries[k]).Dir? ==>
          sv.entries[k] in sv.parents && sv.parents[sv.entries[k]] == k.0)
  }

  /** A link target with no component that is not exactly "/": the resolver has no attributes for it. */
  predicate Bare(target: string) {
    Components(target) == [] && target != "/"
  }

  ghost predicate NoBareLinks(sv: Server) {
    forall k :: k in sv.entries && KindOf(sv, k.0).Dir? && KindOf(sv, sv.entries[k]).Link? ==>
      !Bare(KindOf(sv, sv.entries[k]).target)
  }

  /** The attributes that come back are those of the inode, except for a bare path. */
  lemma {:induction false} WalkIatt(sv: Server, dir: Gfid, comps: seq<string>, left: nat, follow: bool, ret: int)
    requires WellFormed(sv) && comps != [] && Walk(sv, dir, comps, left, follow, ret).inode.Some?
    ensures var r := Walk(sv, dir, comps, left, follow, ret);
            && (r.iatt == Invalid || r.iatt == TypeOf(KindOf(sv, r.inode.value)))
            && (NoBareLinks(sv) ==> r.iatt != Invalid)
    decreases left, |comps|
  {
    var found := Lookup(sv, dir, comps[0]).value;
    if KindOf(sv, found).Link? && (|comps| > 1 || follow) {
      var target := KindOf(sv, found).target;
      var sub := WalkPath(sv, Some(dir), target, left - 1, true);
      if |comps| > 1 {
        WalkIatt(sv, sub.inode.value, comps[1..], left, follow, 0);
      } else if Components(target) != [] {
        WalkIatt(sv, Start(Some(dir), target), Components(target), left - 1, true, -1);
      }
    } else if |comps| > 1 {
      WalkIatt(sv, found, comps[1..], left, follow, ret);
    }
  }

  /** Allowing more levels of links, or another leftover return value, never loses an answer. */
  lemma {:induction false} WalkMonotone(sv: Server, dir: Gfid, comps: seq<string>, left: nat, left': nat, follow: bool,
                                        ret: int, ret': int)
    requires comps != [] && left <= left' && Walk(sv, dir, comps, left, follow, ret).inode.Some?
    ensures Walk(sv, dir, comps, left', follow, ret') == Walk(sv, dir, comps, left, follow, ret)
    decreases left, |comps|
  {
    var found := Lookup(sv, dir, comps[0]).value;
    if KindOf(sv, found).Link? && (|comps| > 1 || follow) {
      var target := KindOf(sv, found).target;
      var sub := WalkPath(sv, Some(dir), target, left - 1, true);
      var step := Component(sv, dir, comps[0], |comps| == 1, left, follow, ret);
      assert step.inode == sub.inode;
      if Components(target) != [] {
        WalkMonotone(sv, Start(Some(dir), target), Components(target), left - 1, left' - 1, true, -1, -1);
      }
      assert WalkPath(sv, Some(dir), target, left' - 1, true) == sub;
      assert Component(sv, dir, comps[0], |comps| == 1, left', follow, ret') == step;
      if |comps| > 1 {
        WalkMonotone(sv, sub.inode.value, comps[1..], left, left', follow, 0, 0);
      }
    } else if |comps| > 1 {
      WalkMonotone(sv, found, comps[1..], left, left', follow, ret, ret');
    }
  }

  /** What the nested resolver finds, the reference finds. */
  lemma {:induction false} WalkSound(sv: Server, dir: Gfid, comps: seq<string>, left: nat, follow: bool, ret: int)
    requires comps != [] && Walk(sv, dir, comps, left, follow, ret).inode.Some?
    ensures Reaches(sv, dir, comps, follow, Walk(sv, dir, comps, left, follow, ret).inode.value)
    decreases left, |comps|
  {
    var x := Walk(sv, dir, comps, left, follow, ret).inode.value;
    var found := Lookup(sv, dir, comps[0]).value;
    if KindOf(sv, found).Link? && (|comps| > 1 || follow) {
      var target := KindOf(sv, found).target;
      var s, cs := Start(Some(dir), target), Components(target);
      var sub := WalkPath(sv, Some(dir), target, left - 1, true);
      var m := SubSound(sv, dir, target, left - 1);
      if |comps| == 1 {
        assert cs + comps[1..] == cs;
        assert Expand(sv, dir, comps, follow, m + 1) == Some(x);
      } else {
        WalkSound(sv, sub.inode.value, comps[1..], left, follow, 0);
        var n: nat :| Expand(sv, sub.inode.value, comps[1..], follow, n) == Some(x);
        ExpandCompose(sv, s, cs, comps[1..], follow, m, n, sub.inode.value);
        assert Expand(sv, dir, comps, follow, m + n + 1) == Some(x);
      }
    } else if |comps| == 1 {
      assert Expand(sv, dir, comps, follow, 1) == Some(x);
    } else {
      WalkSound(sv, found, comps[1..], left, follow, ret);
      var n: nat :| Expand(sv, found, comps[1..], follow, n) == Some(x);
      assert Expand(sv, dir, comps, follow, n + 1) == Some(x);
    }
  }

  lemma {:induction false} SubSound(sv: Server, dir: Gfid, target: string, left: nat) returns (m: nat)
    requires WalkPath(sv, Some(dir), target, left, true).inode.Some?
    ensures Expand(sv, Start(Some(dir), target), Components(target), true, m)
            == WalkPath(sv, Some(dir), target, left, true).inode
    decreases left, |Components(target)| + 1
  {
    var s, cs := Start(Some(dir), target), Components(target);
    if cs == [] {
      m := 1;
    } else {
      WalkSound(sv, s, cs, left, true, -1);
      m :| Expand(sv, s, cs, true, m) == WalkPath(sv, Some(dir), target, left, true).inode;
    }
  }

  /** What the reference finds in `n` steps, the nested resolver finds within `n` levels. */
  lemma {:induction false} WalkComplete(sv: Server, dir: Gfid, comps: seq<string>, left: nat, follow: bool, ret: int,
                                        n: nat)
    requires WellFormed(sv) && NoBareLinks(sv) && comps != [] && n <= left
    requires Expand(sv, dir, comps, follow, n).Some?
    ensures Walk(sv, dir, comps, left, follow, ret).inode == Expand(sv, dir, comps, follow, n)
    decreases n, 1
  {
    hide Components, WalkPath;
    var found := Lookup(sv, dir, comps[0]).value;
    if KindOf(sv, found).Link? && (|comps| > 1 || follow) {
      var target := KindOf(sv, found).target;
      var s, cs := Start(Some(dir), target), Components(target);
      LinkIsEntry(sv, dir, comps[0]);
      if |comps| == 1 {
        assert cs + comps[1..] == cs;
        TargetComplete(sv, dir, target, left - 1, n - 1);
      } else {
        var y := ExpandSplit(sv, s, cs, comps[1..], follow, n - 1);
        TargetComplete(sv, dir, target, left - 1, n - 1);
        WalkComplete(sv, y, comps[1..], left, follow, 0, n - 1);
        assert Component(sv, dir, comps[0], false, left, follow, ret) == Step(Some(y), Directory, 0);
      }
    } else if |comps| > 1 {
      WalkComplete(sv, found, comps[1..], left, follow, ret, n - 1);
    }
  }

  lemma {:induction false} TargetComplete(sv: Server, dir: Gfid, target: string, left: nat, n: nat)
    requires WellFormed(sv) && NoBareLinks(sv) && !Bare(target) && n <= left
    requires Expand(sv, Start(Some(dir), target), Components(target), true, n).Some?
    ensures var r := WalkPath(sv, Some(dir), target, left, true);
            && r.inode == Expand(sv, Start(Some(dir), target), Components(target), true, n)
            && r.iatt == TypeOf(KindOf(sv, r.inode.value))
    decreases n, 2
  {
    var s, cs := Start(Some(dir), target), Components(target);
    if cs != [] {
      WalkComplete(sv, s, cs, left, true, -1, n);
      WalkIatt(sv, s, cs, left, true, -1);
    }
  }

  lemma LinkIsEntry(sv: Server, dir: Gfid, name: string)
    requires WellFormed(sv) && Lookup(sv, dir, name).Some? && KindOf(sv, Lookup(sv, dir, name).value).Link?
    ensures KindOf(sv, dir).Dir? && (dir, name) in sv.entries && sv.entries[(dir, name)] == Lookup(sv, dir, name).value
  {
  }

  /** `loc.parent` is the directory that all components but the last lead to. */
  lemma {:induction false} WalkParent(sv: Server, dir: Gfid, comps: seq<string>, left: nat, follow: bool, ret: int)
    requires comps != []
    ensures var parent := Walk(sv, dir, comps, left, follow, ret).parent;
            if |comps| == 1 then parent == Some(dir)
            else
              var r := Walk(sv, dir, comps[..|comps| - 1], left, true, ret);
              parent == if r.inode.Some? && r.iatt == Directory then r.inode else None
    decreases |comps|
  {
    if |comps| > 1 {
      var found := Lookup(sv, dir, comps[0]);
      var init := comps[..|comps| - 1];
      assert init[0] == comps[0];
      if found.Some? {
        var next, ret' := found.value, ret;
        if KindOf(sv, found.value).Link? && left > 0 {
          var sub := WalkPath(sv, Some(dir), KindOf(sv, found.value).target, left - 1, true);
          if sub.inode.Some? {
            next, ret' := sub.inode.value, 0;
          }
        }
        WalkParent(sv, next, comps[1..], left, follow, ret');
        assert |init| > 1 ==> init[1..] == comps[1..][..|comps| - 2];
      }
    }
  }

  /** No resolution in this namespace needs more than `left` levels of links. */
  ghost predicate WithinNesting(sv: Server, left: nat) {
    forall dir: Gfid, comps: seq<string>, follow: bool, more: nat | comps != [] ::
      Walk(sv, dir, comps, more, follow, -1).inode.Some? ==> Walk(sv, dir, comps, left, follow, -1).inode.Some?
  }

  lemma FoundIffReached(sv: Server, dir: Gfid, comps: seq<string>, left: nat, follow: bool, x: Gfid)
    requires WellFormed(sv) && NoBareLinks(sv) && WithinNesting(sv, left) && comps != []
    ensures Walk(sv, dir, comps, left, follow, -1).inode == Some(x) <==> Reaches(sv, dir, comps, follow, x)
  {
    if Walk(sv, dir, comps, left, follow, -1).inode == Some(x) {
      WalkSound(sv, dir, comps, left, follow, -1);
    } else if Reaches(sv, dir, comps, follow, x) {
      var n: nat :| Expand(sv, dir, comps, follow, n) == Some(x);
      WalkComplete(sv, dir, comps, n, follow, -1, n);
      assert Walk(sv, dir, comps, left, follow, -1).inode.Some?;
      if left <= n {
        WalkMonotone(sv, dir, comps, left, n, follow, -1, -1);
      } else {
        WalkMonotone(sv, dir, comps, n, left, follow, -1, -1);
      }
    }
  }

  /**
    `inode` is the inode the reference reaches along the path, if any, and `parent`
    the directory it reaches along all components but the last, if any.
  */
  ghost predicate Answers(sv: Server, s: Gfid, comps: seq<string>, follow: bool, inode: Option<Gfid>,
                          parent: Option<Gfid>)
    requires comps != []
  {
    && (forall x: Gfid :: inode == Some(x) <==> Reaches(sv, s, comps, follow, x))
    && (if |comps| == 1 then parent == Some(s)
        else forall d: Gfid :: parent == Some(d) <==>
               Reaches(sv, s, comps[..|comps| - 1], true, d) && KindOf(sv, d).Dir?)
  }

  /** The resolver gives the reference's answer for every path that has a component. */
  lemma ResolverRefines(sv: Server, at: Option<Gfid>, path: string, left: nat, follow: bool)
    requires WellFormed(sv) && NoBareLinks(sv) && WithinNesting(sv, left) && Components(path) != []
    ensures var r := WalkPath(sv, at, path, left, follow);
            var from := if at.Some? && path != "" && path[0] != '/' then at.value else ROOT;
            Answers(sv, from, Components(path), follow, r.inode, r.parent)
  {
    assert path != "";
    hide Walk, Components, Reaches;
    var s, cs := Start(at, path), Components(path);
    WalkParent(sv, s, cs, left, follow, -1);
    var init := cs[..|cs| - 1];
    if |cs| > 1 && Walk(sv, s, init, left, true, -1).inode.Some? {
      WalkIatt(sv, s, init, left, true, -1);
    }
    forall x: Gfid
      ensures WalkPath(sv, at, path, left, follow).inode == Some(x) <==> Reaches(sv, s, cs, follow, x)
      ensures |cs| > 1 ==> (Walk(sv, s, init, left, true, -1).inode == Some(x) <==> Reaches(sv, s, init, true, x))
    {
      FoundIffReached(sv, s, cs, left, follow, x);
      if |cs| > 1 {
        FoundIffReached(sv, s, init, left, true, x);
      }
    }
  }
}
