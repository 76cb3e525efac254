/**
  Path resolution against a server namespace: what `priv_glfs_resolve_at` computes
  when every lookup is answered by the server, and a reference resolver that
  expands symbolic links in place.
*/
module PathWalk {
  import opened Common
  import opened PathTokens

  type Gfid = nat

  const ROOT: Gfid := 1

  datatype Kind = Dir | Link(target: string) | File

  /** ia_type; `Invalid` is that of a zeroed iatt. */
  datatype Type = Invalid | Directory | Symlink | Regular

  /** The namespace: directory entries, the kind of every inode and the parent of every directory. */
  datatype Server = Server(entries: map<(Gfid, string), Gfid>, kinds: map<Gfid, Kind>, parents: map<Gfid, Gfid>)

  function KindOf(sv: Server, x: Gfid): Kind {
    if x in sv.kinds then sv.kinds[x] else File
  }

  function TypeOf(k: Kind): Type {
    match k
    case Dir => Directory
    case Link(_) => Symlink
    case File => Regular
  }

  /** What a lookup of `name` in `dir` finds on the server. */
  function Lookup(sv: Server, dir: Gfid, name: string): Option<Gfid> {
    if !KindOf(sv, dir).Dir? then None
    else if name == "." then Some(dir)
    else if name == ".." then
      if dir == ROOT then Some(ROOT)
      else if dir in sv.parents then Some(sv.parents[dir])
      else None
    else if (dir, name) in sv.entries then Some(sv.entries[(dir, name)])
    else None
  }

  /** Where resolution starts: at `at` for a relative path, else at the root. */
  function Start(at: Option<Gfid>, path: string): Gfid {
    if at.Some? && !(path != "" && path[0] == '/') then at.value else ROOT
  }

  /** What `priv_glfs_resolve_at` leaves in `loc`, its return value and the attributes it fills in. */
  datatype Result = Result(inode: Option<Gfid>, parent: Option<Gfid>, ret: int, iatt: Type)

  /**
    Resolution of a whole path.  `left` is how many more levels of symbolic links
    may be entered, `follow` whether a link in the last place is followed.
  */
  function WalkPath(sv: Server, at: Option<Gfid>, path: string, left: nat, follow: bool): (r: Result)
    ensures r.inode.Some? ==> r.ret == 0
    decreases left, |Components(path)| + 1
  {
    if Components(path) == []
    then Result(Some(Start(at, path)), None, 0, if path == "/" then Directory else Invalid)
    else Walk(sv, Start(at, path), Components(path), left, follow, -1)
  }

  /** One component: the inode it leads to after following links, its type and the return value so far. */
  datatype Step = Missing | Step(inode: Option<Gfid>, iatt: Type, ret: int)

  function Component(sv: Server, dir: Gfid, name: string, last: bool, left: nat, follow: bool, ret: int): (r: Step)
    ensures r.Step? && r.iatt == Directory ==> r.inode.Some?
    decreases left, 0
  {
    var found := Lookup(sv, dir, name);
    if found.None? then Missing
    else if !(KindOf(sv, found.value).Link? && (!last || follow)) then
      Step(found, TypeOf(KindOf(sv, found.value)), ret)
    else if left == 0 then Step(None, Symlink, -1)
    else
      var sub := WalkPath(sv, Some(dir), KindOf(sv, found.value).target, left - 1, true);
      Step(sub.inode, if sub.inode.Some? then sub.iatt else Symlink, sub.ret)
  }

  /** The loop over the components; `ret` is the return value an earlier component left behind. */
  function Walk(sv: Server, dir: Gfid, comps: seq<string>, left: nat, follow: bool, ret: int): (r: Result)
    requires comps != []
    ensures r.inode.Some? ==> r.ret == 0
    decreases left, |comps|
  {
    var last := |comps| == 1;
    var step := Component(sv, dir, comps[0], last, left, follow, ret);
    if step.Missing? then Result(None, if last then Some(dir) else None, ret, Invalid)
    else if last then Result(step.inode, Some(dir), if step.inode.Some? then 0 else step.ret, step.iatt)
    else if step.iatt != Directory then Result(None, None, -1, Invalid)
    else Walk(sv, step.inode.value, comps[1..], left, follow, step.ret)
  }

  // ----- the reference: links are replaced by their targets in the list of components -----

  /** Where the target of a link that lies in `dir` starts. */
  function TargetStart(dir: Gfid, target: string): Gfid {
    if target != "" && target[0] == '/' then ROOT else dir
  }

  /** `n` bounds the number of steps. */
  function Expand(sv: Server, dir: Gfid, comps: seq<string>, follow: bool, n: nat): Option<Gfid>
    decreases n
  {
    if n == 0 then None
    else if comps == [] then Some(dir)
    else
      var found := Lookup(sv, dir, comps[0]);
      if found.None? then None
      else if KindOf(sv, found.value).Link? && (|comps| > 1 || follow) then
        var target := KindOf(sv, found.value).target;
        Expand(sv, TargetStart(dir, target), Components(target) + comps[1..], follow, n - 1)
      else if |comps| == 1 then found
      else if KindOf(sv, found.value).Dir? then Expand(sv, found.value, comps[1..], follow, n - 1)
      else None
  }

  ghost predicate Reaches(sv: Server, dir: Gfid, comps: seq<string>, follow: bool, x: Gfid) {
    exists n: nat :: Expand(sv, dir, comps, follow, n) == Some(x)
  }

  /** More steps do not change an answer. */
  lemma {:induction false} ExpandMonotone(sv: Server, dir: Gfid, comps: seq<string>, follow: bool, m: nat, n: nat)
    requires m <= n && Expand(sv, dir, comps, follow, m).Some?
    ensures Expand(sv, dir, comps, follow, n) == Expand(sv, dir, comps, follow, m)
    decreases m
  {
    if comps != [] {
      var found := Lookup(sv, dir, comps[0]);
      if KindOf(sv, found.value).Link? && (|comps| > 1 || follow) {
        var target := KindOf(sv, found.value).target;
        ExpandMonotone(sv, TargetStart(dir, target), Components(target) + comps[1..], follow, m - 1, n - 1);
      } else if |comps| > 1 {
        ExpandMonotone(sv, found.value, comps[1..], follow, m - 1, n - 1);
      }
    }
  }

  lemma ReachesOnce(sv: Server, dir: Gfid, comps: seq<string>, follow: bool, x: Gfid, y: Gfid)
    requires Reaches(sv, dir, comps, follow, x) && Reaches(sv, dir, comps, follow, y)
    ensures x == y
  {
    var m: nat :| Expand(sv, dir, comps, follow, m) == Some(x);
    var n: nat :| Expand(sv, dir, comps, follow, n) == Some(y);
    if m <= n {
      ExpandMonotone(sv, dir, comps, follow, m, n);
    } else {
      ExpandMonotone(sv, dir, comps, follow, n, m);
    }
  }

  /** A step of the reference at a link that is followed, and at a directory that is walked through. */
  lemma ExpandStep(sv: Server, dir: Gfid, comps: seq<string>, follow: bool, n: nat, x: Gfid)
    requires n > 0 && |comps| > 0 && Lookup(sv, dir, comps[0]) == Some(x) && (|comps| > 1 || follow)
    ensures KindOf(sv, x).Link? ==>
              var target := KindOf(sv, x).target;
              Expand(sv, dir, comps, follow, n)
              == Expand(sv, TargetStart(dir, target), Components(target) + comps[1..], follow, n - 1)
    ensures KindOf(sv, x).Dir? && |comps| > 1 ==>
              Expand(sv, dir, comps, follow, n) == Expand(sv, x, comps[1..], follow, n - 1)
  {
  }

  /** What it takes for the reference to find something. */
  lemma ExpandFinds(sv: Server, dir: Gfid, comps: seq<string>, follow: bool, n: nat)
    requires Expand(sv, dir, comps, follow, n).Some?
    ensures n > 0 && (comps == [] ==> Expand(sv, dir, comps, follow, n) == Some(dir))
    ensures comps != [] ==> KindOf(sv, dir).Dir? && Lookup(sv, dir, comps[0]).Some?
    ensures comps != [] ==>
              var x := Lookup(sv, dir, comps[0]).value;
              && (|comps| > 1 ==> KindOf(sv, x).Link? || KindOf(sv, x).Dir?)
              && (|comps| == 1 && !KindOf(sv, x).Link? ==> Expand(sv, dir, comps, follow, n) == Some(x))
  {
  }

  /** Resolving `a` and then `b` from there is resolving `a + b`. */
  lemma {:induction false} ExpandCompose(sv: Server, dir: Gfid, a: seq<string>, b: seq<string>, follow: bool,
                                         m: nat, n: nat, y: Gfid)
    requires Expand(sv, dir, a, true, m) == Some(y) && b != []
    requires Expand(sv, y, b, follow, n).Some?
    ensures Expand(sv, dir, a + b, follow, m + n) == Expand(sv, y, b, follow, n)
    decreases m
  {
    hide Components, TargetStart, Expand, Lookup;
    ExpandFinds(sv, dir, a, true, m);
    ExpandFinds(sv, y, b, follow, n);
    if a == [] {
      assert a + b == b;
      ExpandMonotone(sv, dir, b, follow, n, m + n);
    } else {
      var x := Lookup(sv, dir, a[0]).value;
      assert (a + b)[0] == a[0] && (a + b)[1..] == a[1..] + b;
      ExpandStep(sv, dir, a, true, m, x);
      ExpandStep(sv, dir, a + b, follow, m + n, x);
      if KindOf(sv, x).Link? {
        var target := KindOf(sv, x).target;
        var s, cs := TargetStart(dir, target), Components(target);
        assert (cs + a[1..]) + b == cs + (a[1..] + b);
        ExpandCompose(sv, s, cs + a[1..], b, follow, m - 1, n, y);
      } else if |a| == 1 {
        assert a[1..] + b == b;
        ExpandMonotone(sv, y, b, follow, n, m + n - 1);
      } else {
        ExpandCompose(sv, x, a[1..], b, follow, m - 1, n, y);
      }
    }
  }

  /** Resolving `a + b` passes through the place `a` resolves to. */
  lemma {:induction false} ExpandSplit(sv: Server, dir: Gfid, a: seq<string>, b: seq<string>, follow: bool, n: nat)
    returns (y: Gfid)
    requires Expand(sv, dir, a + b, follow, n).Some? && b != []
    ensures Expand(sv, dir, a, true, n) == Some(y)
    ensures Expand(sv, y, b, follow, n) == Expand(sv, dir, a + b, follow, n)
    decreases n
  {
    if a == [] {
      assert a + b == b;
      y := dir;
    } else {
      var found := Lookup(sv, dir, a[0]);
      assert (a + b)[1..] == a[1..] + b;
      if KindOf(sv, found.value).Link? {
        var target := KindOf(sv, found.value).target;
        var s, cs := TargetStart(dir, target), Components(target);
        assert cs + (a[1..] + b) == (cs + a[1..]) + b;
        y := ExpandSplit(sv, s, cs + a[1..], b, follow, n - 1);
        ExpandMonotone(sv, y, b, follow, n - 1, n);
      } else {
        y := ExpandSplit(sv, found.value, a[1..], b, follow, n - 1);
        ExpandMonotone(sv, y, b, follow, n - 1, n);
        if |a| == 1 {
          assert a[1..] == [] && y == found.value;
        }
      }
    }
  }

  /**
    A link on the way leads where its target leads: from the root if the target begins with a slash, else from the
    directory that holds the link.
  */
  lemma LinkFollowed(sv: Server, dir: Gfid, name: string, rest: seq<string>, follow: bool, link: Gfid, target: string,
                     x: Gfid)
    requires Lookup(sv, dir, name) == Some(link) && KindOf(sv, link) == Link(target) && (rest != [] || follow)
    ensures Reaches(sv, dir, [name] + rest, follow, x) <==>
            Reaches(sv, if target != "" && target[0] == '/' then ROOT else dir, Components(target) + rest, follow, x)
  {
    var from := if target != "" && target[0] == '/' then ROOT else dir;
    assert ([name] + rest)[1..] == rest;
    if Reaches(sv, dir, [name] + rest, follow, x) {
      var n: nat :| Expand(sv, dir, [name] + rest, follow, n) == Some(x);
      assert Expand(sv, from, Components(target) + rest, follow, n - 1) == Some(x);
    }
    if Reaches(sv, from, Components(target) + rest, follow, x) {
      var n: nat :| Expand(sv, from, Components(target) + rest, follow, n) == Some(x);
      assert Expand(sv, dir, [name] + rest, follow, n + 1) == Some(x);
    }
  }
}
