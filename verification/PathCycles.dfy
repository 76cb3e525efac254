/** The cached dentries never form a cycle: what a new dentry is checked against, and that the check suffices. */
module PathCycles {
  import opened Common
  import opened PathWalk
  import opened PathQuirks
  import opened PathCache

  /** Following the dentries `ks` downwards leads from `x` to `y`. */
  predicate Leads(d: map<Key, Gfid>, ks: seq<Key>, x: Gfid, y: Gfid) {
    if ks == [] then x == y
    else ks[0] in d && ks[0].0 == x && Leads(d, ks[1..], d[ks[0]], y)
  }

  ghost predicate CycleFree(d: map<Key, Gfid>) {
    forall ks, x :: ks != [] ==> !Leads(d, ks, x, x)
  }

  // ----- the ancestors -----

  lemma {:induction false} AncestorsClosed(d: map<Key, Gfid>, s: set<Gfid>)
    ensures s <= Ancestors(d, s) && ParentsOf(d, Ancestors(d, s)) <= Ancestors(d, s)
    decreases |Dirs(d) - s|
  {
    var above := ParentsOf(d, s) - s;
    if above == {} {
      assert ParentsOf(d, s) <= s + above;
    } else {
      assert Dirs(d) - s == (Dirs(d) - (s + above)) + above;
      AncestorsClosed(d, s + above);
    }
  }

  lemma {:induction false} LeadsIsAbove(d: map<Key, Gfid>, s: set<Gfid>, ks: seq<Key>, x: Gfid, y: Gfid)
    requires Leads(d, ks, x, y) && y in s
    ensures x in Ancestors(d, s)
  {
    AncestorsClosed(d, s);
    if ks != [] {
      LeadsIsAbove(d, s, ks[1..], d[ks[0]], y);
      assert ks[0].0 in ParentsOf(d, Ancestors(d, s));
    }
  }

  lemma {:induction false} AboveLeads(d: map<Key, Gfid>, s: set<Gfid>, x: Gfid) returns (ks: seq<Key>, y: Gfid)
    requires x in Ancestors(d, s)
    ensures Leads(d, ks, x, y) && y in s
    decreases |Dirs(d) - s|
  {
    var above := ParentsOf(d, s) - s;
    if above == {} {
      ks, y := [], x;
    } else {
      assert Dirs(d) - s == (Dirs(d) - (s + above)) + above;
      ks, y := AboveLeads(d, s + above, x);
      if y !in s {
        var k :| k in d && d[k] in s && k.0 == y;
        assert Leads(d, [k], y, d[k]);
        LeadsOn(d, ks, [k], x, y, d[k]);
        ks, y := ks + [k], d[k];
      }
    }
  }

  lemma {:induction false} LeadsOn(d: map<Key, Gfid>, a: seq<Key>, b: seq<Key>, x: Gfid, y: Gfid, z: Gfid)
    requires Leads(d, a, x, y) && Leads(d, b, y, z)
    ensures Leads(d, a + b, x, z)
  {
    if a == [] {
      assert a + b == b;
    } else {
      assert (a + b)[1..] == a[1..] + b;
      LeadsOn(d, a[1..], b, d[a[0]], y, z);
    }
  }

  /** Dentries lead down from `x` to `y`. */
  ghost predicate Above(d: map<Key, Gfid>, x: Gfid, y: Gfid) {
    exists ks :: Leads(d, ks, x, y)
  }

  /** The ancestors of a directory are exactly the directories from which dentries lead down to it. */
  lemma AncestorsAre(d: map<Key, Gfid>, dir: Gfid, x: Gfid)
    ensures x in Ancestors(d, {dir}) <==> Above(d, x, dir)
  {
    if x in Ancestors(d, {dir}) {
      var ks, y := AboveLeads(d, {dir}, x);
    }
    if Above(d, x, dir) {
      var ks :| Leads(d, ks, x, dir);
      LeadsIsAbove(d, {dir}, ks, x, dir);
    }
  }

  // ----- a new dentry -----

  /** A way down with the new dentry either does without it, or comes to its directory before it is used. */
  lemma {:induction false} BeforeUse(d: map<Key, Gfid>, k: Key, v: Gfid, ks: seq<Key>, x: Gfid, y: Gfid)
    returns (a: seq<Key>, used: bool, b: seq<Key>)
    requires Leads(d[k := v], ks, x, y)
    ensures !used ==> Leads(d, ks, x, y)
    ensures used ==> Leads(d, a, x, k.0) && Leads(d[k := v], b, v, y)
  {
    if ks == [] {
      a, used, b := [], false, [];
    } else if ks[0] == k {
      a, used, b := [], true, ks[1..];
    } else {
      a, used, b := BeforeUse(d, k, v, ks[1..], d[ks[0]], y);
      if used {
        a := [ks[0]] + a;
        assert a[1..] + [] == a[1..];
      }
    }
  }

  /** A cycle with the new dentry is a way from its inode up to its directory without it. */
  lemma CycleNeedsWay(d: map<Key, Gfid>, k: Key, v: Gfid, ks: seq<Key>, x: Gfid) returns (way: seq<Key>)
    requires CycleFree(d) && ks != [] && Leads(d[k := v], ks, x, x)
    ensures Leads(d, way, v, k.0)
  {
    var a, used, b := BeforeUse(d, k, v, ks, x, x);
    var c, used', _ := BeforeUse(d, k, v, b, v, x);
    if used' {
      way := c;
    } else {
      LeadsOn(d, b, a, v, x, k.0);
      way := b + a;
    }
  }

  /** Every inode a dentry mentions is known. */
  ghost predicate Known(c: Cache) {
    forall k :: k in c.dentries ==> k.0 in c.types && c.dentries[k] in c.types
  }

  lemma LinkKeepsCycleFree(c: Cache, parent: Gfid, name: string, inode: Gfid)
    requires CycleFree(c.dentries) && Known(c) && parent in c.types && name != "." && name != ".."
    requires !Refuses(c, parent, name, inode)
    ensures CycleFree(c.dentries[(parent, name) := inode])
  {
    var d, k := c.dentries, (parent, name);
    if k in d && d[k] == inode {
      assert d[k := inode] == d;
    } else {
      var d' := d[k := inode];
      forall ks, x | ks != []
        ensures !Leads(d', ks, x, x)
      {
        if Leads(d', ks, x, x) {
          var way := CycleNeedsWay(d, k, inode, ks, x);
          LeadsIsAbove(d, {parent}, way, inode, parent);
        }
      }
    }
  }

  lemma {:induction false} LeadsInMore(d: map<Key, Gfid>, k: Key, ks: seq<Key>, x: Gfid, y: Gfid)
    requires Leads(d - {k}, ks, x, y)
    ensures Leads(d, ks, x, y)
  {
    if ks != [] {
      LeadsInMore(d, k, ks[1..], d[ks[0]], y);
    }
  }

  lemma UnlinkKeepsCycleFree(d: map<Key, Gfid>, k: Key)
    requires CycleFree(d)
    ensures CycleFree(d - {k})
  {
    var d' := d - {k};
    forall ks, x | ks != []
      ensures !Leads(d', ks, x, x)
    {
      if Leads(d', ks, x, x) {
        LeadsInMore(d, k, ks, x, x);
      }
    }
  }

  /** Whatever the server answers, a lookup leaves the table without cycles if it had none. */
  lemma LookKeepsCycleFree(sv: Server, c: Cache, dir: Gfid, name: string)
    requires CycleFree(c.dentries) && Known(c) && dir in c.types
    ensures CycleFree(Look(sv, c, dir, name).dentries)
  {
    hide CycleFree;
    var found := Lookup(sv, dir, name);
    if found.None? {
      UnlinkKeepsCycleFree(c.dentries, (dir, name));
    } else if name != "." && name != ".." && !LookRefused(sv, c, dir, name) {
      LinkKeepsCycleFree(c, dir, name, found.value);
    }
  }
}
