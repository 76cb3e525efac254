/** The client's cache of dentries: what a lookup does to it, which answers it refuses, and what a whole path does. */
module PathCache {
  import opened Common
  import opened PathTokens
  import opened PathWalk
  import opened PathRefine
  import opened PathQuirks

  /** Every entry leads to something of higher rank, so entries form no cycle. */
  ghost predicate Ranked(entries: map<Key, Gfid>, rank: Gfid -> nat) {
    forall k :: k in entries ==> rank(k.0) < rank(entries[k])
  }

  /** The directory entries form no cycle. */
  ghost predicate Acyclic(entries: map<Key, Gfid>) {
    exists rank: Gfid -> nat :: Ranked(entries, rank)
  }

  function Dirs(dentries: map<Key, Gfid>): set<Gfid> {
    set k | k in dentries :: k.0
  }

  function ParentsOf(dentries: map<Key, Gfid>, s: set<Gfid>): set<Gfid> {
    set k | k in dentries && dentries[k] in s :: k.0
  }

  /** `s` and everything above it in the cached dentries. */
  function Ancestors(dentries: map<Key, Gfid>, s: set<Gfid>): set<Gfid>
    decreases |Dirs(dentries) - s|
  {
    var above := ParentsOf(dentries, s) - s;
    if above == {} then s
    else
      assert Dirs(dentries) - s == (Dirs(dentries) - (s + above)) + above;
      Ancestors(dentries, s + above)
  }

  lemma {:induction false} AncestorsRank(dentries: map<Key, Gfid>, s: set<Gfid>, rank: Gfid -> nat, top: nat)
    requires Ranked(dentries, rank) && forall x :: x in s ==> rank(x) <= top
    ensures forall x :: x in Ancestors(dentries, s) ==> rank(x) <= top
    decreases |Dirs(dentries) - s|
  {
    var above := ParentsOf(dentries, s) - s;
    if above != {} {
      assert Dirs(dentries) - s == (Dirs(dentries) - (s + above)) + above;
      AncestorsRank(dentries, s + above, rank, top);
    }
  }

  lemma {:induction false} AncestorsGrow(dentries: map<Key, Gfid>, s: set<Gfid>)
    ensures s <= Ancestors(dentries, s) && ParentsOf(dentries, s) <= Ancestors(dentries, s)
    decreases |Dirs(dentries) - s|
  {
    var above := ParentsOf(dentries, s) - s;
    assert ParentsOf(dentries, s) <= s + above;
    if above != {} {
      assert Dirs(dentries) - s == (Dirs(dentries) - (s + above)) + above;
      AncestorsGrow(dentries, s + above);
    }
  }

  // ----- one lookup -----

  /** What the inode table holds: dentries, and the type of every inode it knows. */
  datatype Cache = Cache(dentries: map<Key, Gfid>, types: map<Gfid, Type>)

  /** Linking `inode` as `name` in `parent` would close a cycle of cached dentries, and is refused. */
  predicate Refuses(c: Cache, parent: Gfid, name: string, inode: Gfid) {
    && name != "." && name != ".." && inode in c.types
    && !((parent, name) in c.dentries && c.dentries[(parent, name)] == inode)
    && inode in Ancestors(c.dentries, {parent})
  }

  /** The server has an answer for the component and the table refuses it. */
  predicate LookRefused(sv: Server, c: Cache, dir: Gfid, name: string) {
    var found := Lookup(sv, dir, name);
    found.Some? && Refuses(c, dir, name, found.value)
  }

  /** The cache after a forced lookup. */
  function Look(sv: Server, c: Cache, dir: Gfid, name: string): Cache {
    var found := Lookup(sv, dir, name);
    if found.None? then
      Cache(if name != "." && name != ".." then c.dentries - {(dir, name)} else c.dentries, c.types)
    else
      var types := if found.value in c.types then c.types
                   else c.types[found.value := TypeOf(KindOf(sv, found.value))];
      if name == "." || name == ".." || LookRefused(sv, c, dir, name) then Cache(c.dentries, types)
      else Cache(c.dentries[(dir, name) := found.value], types)
  }

  // ----- a whole path -----

  /**
    What resolving a path with forced lookups does to a cache, and whether the cache refuses one of the answers on
    the way; `atLast` says that this happens at the last component.
  */
  datatype Trace = Trace(cache: Cache, refused: bool, atLast: bool)

  function TracePath(sv: Server, c: Cache, at: Option<Gfid>, path: string, left: nat, follow: bool): Trace
    decreases left, |Components(path)| + 1
  {
    if Components(path) == [] then Trace(c, false, false)
    else TraceWalk(sv, c, Start(at, path), Components(path), left, follow, -1)
  }

  function TraceComponent(sv: Server, c: Cache, dir: Gfid, name: string, last: bool, left: nat, follow: bool)
    : (t: Trace)
    ensures t.atLast == last
    decreases left, 0
  {
    var found, c' := Lookup(sv, dir, name), Look(sv, c, dir, name);
    if LookRefused(sv, c, dir, name) then Trace(c', true, last)
    else if found.None? || !(KindOf(sv, found.value).Link? && (!last || follow)) || left == 0 then
      Trace(c', false, last)
    else TracePath(sv, c', Some(dir), KindOf(sv, found.value).target, left - 1, true).(atLast := last)
  }

  function TraceWalk(sv: Server, c: Cache, dir: Gfid, comps: seq<string>, left: nat, follow: bool, ret: int): Trace
    requires comps != []
    decreases left, |comps|
  {
    var last := |comps| == 1;
    var t := TraceComponent(sv, c, dir, comps[0], last, left, follow);
    var step := Component(sv, dir, comps[0], last, left, follow, ret);
    if t.refused || last || step.Missing? || step.iatt != Directory then t
    else TraceWalk(sv, t.cache, step.inode.value, comps[1..], left, follow, step.ret)
  }

  // ----- caches that refuse nothing -----

  /** A cache whose directories are ordered like the server's never refuses the server's answer. */
  lemma RankedNeverRefuses(sv: Server, c: Cache, rank: Gfid -> nat, dir: Gfid, name: string)
    requires Ranked(sv.entries, rank) && Ranked(c.dentries, rank)
    ensures !LookRefused(sv, c, dir, name) && Ranked(Look(sv, c, dir, name).dentries, rank)
  {
    AncestorsRank(c.dentries, {dir}, rank, rank(dir));
  }

  /** Nor does it refuse anything on the way of a whole path. */
  lemma {:induction false} RankedPathNeverRefuses(sv: Server, c: Cache, rank: Gfid -> nat, at: Option<Gfid>,
                                                  path: string, left: nat, follow: bool)
    requires Ranked(sv.entries, rank) && Ranked(c.dentries, rank)
    ensures var t := TracePath(sv, c, at, path, left, follow); !t.refused && Ranked(t.cache.dentries, rank)
    decreases left, |Components(path)| + 1
  {
    if Components(path) != [] {
      RankedWalkNeverRefuses(sv, c, rank, Start(at, path), Components(path), left, follow, -1);
    }
  }

  lemma {:induction false} RankedWalkNeverRefuses(sv: Server, c: Cache, rank: Gfid -> nat, dir: Gfid,
                                                  comps: seq<string>, left: nat, follow: bool, ret: int)
    requires Ranked(sv.entries, rank) && Ranked(c.dentries, rank) && comps != []
    ensures var t := TraceWalk(sv, c, dir, comps, left, follow, ret); !t.refused && Ranked(t.cache.dentries, rank)
    decreases left, |comps|
  {
    var last := |comps| == 1;
    RankedComponentNeverRefuses(sv, c, rank, dir, comps[0], last, left, follow);
    var t := TraceComponent(sv, c, dir, comps[0], last, left, follow);
    var step := Component(sv, dir, comps[0], last, left, follow, ret);
    hide Ranked, TraceComponent, Component;
    if !last && !step.Missing? && step.iatt == Directory {
      RankedWalkNeverRefuses(sv, t.cache, rank, step.inode.value, comps[1..], left, follow, step.ret);
    }
  }

  lemma {:induction false} RankedComponentNeverRefuses(sv: Server, c: Cache, rank: Gfid -> nat, dir: Gfid, name: string,
                                                       last: bool, left: nat, follow: bool)
    requires Ranked(sv.entries, rank) && Ranked(c.dentries, rank)
    ensures var t := TraceComponent(sv, c, dir, name, last, left, follow); !t.refused && Ranked(t.cache.dentries, rank)
    decreases left, 0
  {
    hide Ranked, LookRefused, Look;
    RankedNeverRefuses(sv, c, rank, dir, name);
    var found := Lookup(sv, dir, name);
    if found.Some? && KindOf(sv, found.value).Link? && (!last || follow) && left > 0 {
      var target := KindOf(sv, found.value).target;
      RankedPathNeverRefuses(sv, Look(sv, c, dir, name), rank, Some(dir), target, left - 1, true);
    }
  }

  /** A cache that agrees with a namespace without cycles never refuses its answers. */
  lemma SubsetNeverRefuses(sv: Server, c: Cache, dir: Gfid, name: string)
    requires Acyclic(sv.entries) && forall k :: k in c.dentries ==> k in sv.entries && sv.entries[k] == c.dentries[k]
    ensures !LookRefused(sv, c, dir, name)
  {
    var rank: Gfid -> nat :| Ranked(sv.entries, rank);
    RankedNeverRefuses(sv, c, rank, dir, name);
  }

  // ----- a cache that refuses -----

  /** Directories 2 and 3, once /a and /a/b, are now /b/a and /b. */
  const SWAPPED := Server(map[(ROOT, "b") := 3, (3, "a") := 2], map[ROOT := Dir, 2 := Dir, 3 := Dir],
                          map[2 := 3, 3 := ROOT])

  const STALE := Cache(map[(ROOT, "a") := 2, (2, "b") := 3], map[ROOT := Directory, 2 := Directory, 3 := Directory])

  /** Two directories swapped on the server: resolving b/a with forced lookups, the stale cache refuses the answer. */
  lemma SwappedDirectories()
    ensures WellFormed(SWAPPED) && Acyclic(SWAPPED.entries) && Acyclic(STALE.dentries)
    ensures TracePath(SWAPPED, STALE, None, "b/a", 1, true).refused
    ensures WalkPath(SWAPPED, None, "b/a", 1, true).inode == Some(2)
  {
    hide Components, TraceWalk, Walk, WellFormed, Acyclic, SWAPPED, STALE;
    SwappedShape();
    TwoComponents();
    SwappedWalk();
    SwappedTrace();
  }

  lemma SwappedShape()
    ensures WellFormed(SWAPPED) && Acyclic(SWAPPED.entries) && Acyclic(STALE.dentries)
  {
    hide Acyclic, WellFormed;
    SwappedWellFormed();
    OrderAcyclic(SWAPPED.entries, 3);
    OrderAcyclic(STALE.dentries, 2);
  }

  lemma SwappedWellFormed()
    ensures WellFormed(SWAPPED)
  {
    assert SWAPPED.entries.Keys == {(ROOT, "b"), (3, "a")};
  }

  /** Entries from the root to `mid`, and from `mid` to the others. */
  lemma OrderAcyclic(entries: map<Key, Gfid>, mid: Gfid)
    requires mid != ROOT
    requires forall k :: k in entries ==> entries[k] != ROOT && (k.0 == ROOT || (k.0 == mid && entries[k] != mid))
    ensures Acyclic(entries)
  {
    assert Ranked(entries, x => if x == ROOT then 0 else if x == mid then 1 else 2);
  }

  lemma TwoComponents()
    ensures Components("b/a") == ["b", "a"]
  {
    ComponentsConcat("b", "/a");
    assert "b/a" == "b" + "/a" && "/a"[1..] == "a";
    OneComponent("b");
    OneComponent("a");
  }

  lemma SwappedWalk()
    ensures Component(SWAPPED, ROOT, "b", false, 1, true, -1) == Step(Some(3), Directory, -1)
    ensures Walk(SWAPPED, ROOT, ["b", "a"], 1, true, -1).inode == Some(2)
  {
    assert Lookup(SWAPPED, ROOT, "b") == Some(3) && Lookup(SWAPPED, 3, "a") == Some(2);
    assert ["b", "a"][1..] == ["a"];
    assert Component(SWAPPED, 3, "a", true, 1, true, -1) == Step(Some(2), Directory, -1);
    assert Walk(SWAPPED, 3, ["a"], 1, true, -1).inode == Some(2);
  }

  lemma SwappedTrace()
    ensures TraceWalk(SWAPPED, STALE, ROOT, ["b", "a"], 1, true, -1).refused
  {
    SwappedWalk();
    StaleFirst();
    StaleSecond();
    hide Look, LookRefused, Component, Walk;
    var c := Look(SWAPPED, STALE, ROOT, "b");
    assert ["b", "a"][1..] == ["a"] && Lookup(SWAPPED, ROOT, "b") == Some(3);
    assert TraceComponent(SWAPPED, STALE, ROOT, "b", false, 1, true) == Trace(c, false, false);
    assert TraceComponent(SWAPPED, c, 3, "a", true, 1, true).refused;
    assert TraceWalk(SWAPPED, c, 3, ["a"], 1, true, -1).refused;
  }

  lemma OneComponent(p: string)
    requires |p| == 1 && p[0] != '/'
    ensures Components(p) == [p]
  {
    assert p[1..] == "" && p[..1] == p;
  }

  lemma StaleFirst()
    ensures !LookRefused(SWAPPED, STALE, ROOT, "b")
    ensures Look(SWAPPED, STALE, ROOT, "b").dentries == STALE.dentries[(ROOT, "b") := 3]
    ensures Look(SWAPPED, STALE, ROOT, "b").types == STALE.types
  {
    assert ParentsOf(STALE.dentries, {ROOT}) == {};
  }

  lemma StaleSecond()
    ensures LookRefused(SWAPPED, Look(SWAPPED, STALE, ROOT, "b"), 3, "a")
  {
    StaleFirst();
    var c := Look(SWAPPED, STALE, ROOT, "b");
    hide Look;
    assert (2, "b") in c.dentries && c.dentries[(2, "b")] == 3;
    assert 2 in ParentsOf(c.dentries, {3});
    AncestorsGrow(c.dentries, {3});
  }
}
