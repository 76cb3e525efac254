/** Path resolution through the client's inode table: cached dentries, revalidation and linking. */
module PathTable {
  import opened Common
  import opened PathTokens
  import opened PathWalk
  import opened PathRefine
  import opened PathQuirks
  import opened PathCache
  import opened PathCycles

  const GLFS_SYMLINK_MAX_FOLLOW: nat := 2048

  /** The levels of links that `follow` still allows. */
  function Left(follow: nat): nat {
    if follow > GLFS_SYMLINK_MAX_FOLLOW then 0 else GLFS_SYMLINK_MAX_FOLLOW + 1 - follow
  }

  /** loc_t, as far as resolution fills it in. */
  datatype Loc = Loc(inode: Option<Gfid>, parent: Option<Gfid>, name: string)

  /** An inode table; `types` holds ia_type of every inode it knows. */
  class InodeTable {
    const server: Server
    var dentries: map<Key, Gfid>
    var types: map<Gfid, Type>

    ghost predicate Valid()
      reads this
    {
      && ROOT in types
      && forall k :: k in dentries ==>
           k.0 in types && dentries[k] in types && k.1 != "." && k.1 != ".."
    }

    /** What is cached agrees with the server. */
    ghost predicate Coherent()
      reads this
    {
      && (forall k :: k in dentries ==> k in server.entries && server.entries[k] == dentries[k])
      && (forall x :: x in types ==> types[x] == TypeOf(KindOf(server, x)))
    }

    ghost function Now(): Cache
      reads this
    {
      Cache(dentries, types)
    }

    constructor (sv: Server, dentries: map<Key, Gfid>, types: map<Gfid, Type>)
      ensures this.server == sv && this.dentries == dentries && this.types == types
    {
      this.server, this.dentries, this.types := sv, dentries, types;
    }

    /** inode_parent: any cached parent. */
    method InodeParent(inode: Gfid) returns (parent: Option<Gfid>)
      requires Valid()
      ensures parent.Some? ==> exists k :: k in dentries && dentries[k] == inode && k.0 == parent.value
      ensures parent.None? ==> forall k :: k in dentries ==> dentries[k] != inode
    {
      if k :| k in dentries && dentries[k] == inode {
        parent := Some(k.0);
      } else {
        parent := None;
      }
    }

    /** inode_link of a looked-up inode; a dentry that would close a cycle is refused. */
    method InodeLink(inode: Gfid, ia: Type, parent: Gfid, name: string, isNew: bool) returns (linked: bool)
      requires Valid() && parent in types && (!isNew ==> inode in types)
      modifies this
      ensures Valid()
      ensures linked <==> name == "." || name == ".." || !isNew || inode !in old(types)
                          || inode !in Ancestors(old(dentries), {parent})
      ensures types == if inode in old(types) then old(types) else old(types)[inode := ia]
      ensures dentries == if linked && name != "." && name != ".." then old(dentries)[(parent, name) := inode]
                          else old(dentries)
    {
      var known := inode in types;
      if !known {
        types := types[inode := ia];
      }
      if name == "." || name == ".." {
        return true;
      }
      if isNew && known && inode in Ancestors(dentries, {parent}) {
        return false;
      }
      dentries := dentries[(parent, name) := inode];
      return true;
    }

    /** The cached answer for a component, if there is one. */
    method Grep(parent: Gfid, component: string) returns (inode: Option<Gfid>)
      requires Valid() && parent in types
      ensures inode.Some? ==> inode.value in types
      ensures component == "." ==> inode == Some(parent)
      ensures component == ".." && parent == ROOT ==> inode == Some(ROOT)
      ensures component == ".." && parent != ROOT && inode.Some? ==>
                exists k :: k in dentries && dentries[k] == parent && k.0 == inode.value
      ensures component != "." && component != ".." ==>
                inode == if (parent, component) in dentries then Some(dentries[(parent, component)]) else None
    {
      if component == "." {
        inode := Some(parent);
      } else if component == ".." {
        if parent == ROOT {
          inode := Some(parent);
        } else {
          inode := InodeParent(parent);
        }
      } else if (parent, component) in dentries {
        inode := Some(dentries[(parent, component)]);
      } else {
        inode := None;
      }
    }

    /**
      glfs_resolve_component.  Whatever is cached, a forced lookup answers what the server has unless the table
      refuses it; a coherent cache answers the same without asking.
    */
    method ResolveComponent(parent: Gfid, component: string, force: bool) returns (inode: Option<Gfid>, ia: Type)
      requires Valid() && parent in types
      modifies this
      ensures Valid() && (forall x :: x in old(types) ==> x in types && types[x] == old(types[x]))
      ensures inode.Some? ==> inode.value in types
      ensures force ==>
                && inode == (if LookRefused(server, old(Now()), parent, component) then None
                             else Lookup(server, parent, component))
                && (inode.Some? ==> ia == TypeOf(KindOf(server, inode.value)))
      ensures !force && WellFormed(server) && Acyclic(server.entries) && old(Coherent())
              && KindOf(server, parent).Dir? ==>
                && inode == Lookup(server, parent, component)
                && (inode.Some? ==> ia == TypeOf(KindOf(server, inode.value)))
      ensures old(Coherent()) ==> Coherent()
      ensures Now() == Look(server, old(Now()), parent, component) || (!force && Now() == old(Now()))
      ensures old(CycleFree(dentries)) ==> CycleFree(dentries)
    {
      hide CycleFree, Acyclic, LookRefused, Look, Lookup;
      KeepsCycleFree(parent, component);
      LookAgrees(server, Now(), parent, component);
      if Coherent() && Acyclic(server.entries) {
        SubsetNeverRefuses(server, Now(), parent, component);
      }
      var cached := Grep(parent, component);
      if cached.Some? && !force {
        CoherentGrep(parent, component, cached.value);
        return cached, types[cached.value];
      }
      inode, ia := AskServer(parent, component, cached);
    }

    /** What a coherent cache holds for a component is what the server has. */
    lemma CoherentGrep(parent: Gfid, component: string, cached: Gfid)
      requires Valid() && parent in types && cached in types
      requires component == "." ==> cached == parent
      requires component == ".." && parent == ROOT ==> cached == ROOT
      requires component == ".." && parent != ROOT ==>
                 exists k :: k in dentries && dentries[k] == parent && k.0 == cached
      requires component != "." && component != ".." ==>
                 (parent, component) in dentries && cached == dentries[(parent, component)]
      ensures WellFormed(server) && Coherent() && KindOf(server, parent).Dir? ==>
                Lookup(server, parent, component) == Some(cached) && types[cached] == TypeOf(KindOf(server, cached))
    {
    }

    /** The rest of glfs_resolve_component, when the server is asked. */
    method AskServer(parent: Gfid, component: string, cached: Option<Gfid>) returns (inode: Option<Gfid>, ia: Type)
      requires Valid() && parent in types && (cached.Some? ==> cached.value in types)
      requires component == "." ==> cached == Some(parent)
      requires component != "." && component != ".." ==>
                 cached == if (parent, component) in dentries then Some(dentries[(parent, component)]) else None
      modifies this
      ensures Valid() && (forall x :: x in old(types) ==> x in types && types[x] == old(types[x]))
      ensures inode.Some? ==> inode.value in types
      ensures Now() == Look(server, old(Now()), parent, component)
      ensures inode == if LookRefused(server, old(Now()), parent, component) then None
                       else Lookup(server, parent, component)
      ensures inode.Some? ==> ia == TypeOf(KindOf(server, inode.value))
    {
      hide Ancestors;
      var found := Lookup(server, parent, component);
      if cached.Some? && found != cached {
        // the lookup with the cached gfid failed: forget the dentry if the name is gone, and ask anew
        if found.None? && (parent, component) in dentries && dentries[(parent, component)] == cached.value {
          dentries := dentries - {(parent, component)};
        }
      }
      if found.None? {
        return None, Invalid;
      }
      ia := TypeOf(KindOf(server, found.value));
      var linked := InodeLink(found.value, ia, parent, component, found != cached);
      inode := if linked then found else None;
    }

    lemma KeepsCycleFree(parent: Gfid, name: string)
      requires Valid() && parent in types
      ensures CycleFree(dentries) ==> CycleFree(Look(server, Now(), parent, name).dentries)
    {
      hide CycleFree, Look;
      if CycleFree(dentries) {
        LookKeepsCycleFree(server, Now(), parent, name);
      }
    }

    /** Without forced lookups: the cache agrees with a namespace that has no cycles of entries. */
    ghost predicate Settled()
      reads this
    {
      WellFormed(server) && Acyclic(server.entries) && Coherent()
    }

    /** glfs_resolve_symlink: the target of a link, from the server. */
    method ReadLink(inode: Gfid) returns (target: Option<string>)
      ensures target == if KindOf(server, inode).Link? then Some(KindOf(server, inode).target) else None
    {
      var kind := KindOf(server, inode);
      target := if kind.Link? then Some(kind.target) else None;
    }

    /** The loop body: resolve one component and, unless it is the last and links are not followed,
        follow it; the attributes stay those of the link unless its target is found. */
    method ResolveStep(parent: Gfid, name: string, last: bool, force: bool, follow: nat, ret: int, reval: bool)
      returns (step: Step, ghost nested: nat)
      requires Valid() && parent in types && (reval ==> force)
      modifies this
      ensures Valid() && old(types.Keys) <= types.Keys
      ensures nested <= Left(follow)
      ensures step.Step? && step.inode.Some? ==> step.inode.value in types
      ensures step.Step? && step.iatt == Directory ==> step.inode.Some?
      ensures (old(Settled()) ==> Settled()) && (old(CycleFree(dentries)) ==> CycleFree(dentries))
      ensures reval ==>
                StepIs(server, Forced, old(Now()), Now(), parent, name, last, Left(follow), follow > 0, ret, step)
      ensures !reval && old(Settled()) && KindOf(server, parent).Dir? ==>
                StepIs(server, Calm, old(Now()), Now(), parent, name, last, Left(follow), follow > 0, ret, step)
      decreases Left(follow), 0
    {
      hide CycleFree, Coherent, Acyclic, WellFormed, Look, LookRefused, Lookup;
      if Settled() {
        CoherentNeverRefuses(parent, name);
        RootIsDir(server);
      }
      var inode, ciatt := ResolveComponent(parent, name, force);
      if inode.None? {
        return Missing, 0;
      }
      if !(ciatt == Symlink && (!last || follow > 0)) {
        return Step(inode, ciatt, ret), 0;
      }
      if follow > GLFS_SYMLINK_MAX_FOLLOW {
        return Step(None, Symlink, -1), 0;
      }
      var target := ReadLink(inode.value);
      if target.None? {
        return Step(None, Symlink, -1), 0;
      }
      var sym, ret', attr, deeper := ResolveAt(Some(parent), target.value, follow + 1, reval, true);
      nested := 1 + deeper;
      step := Step(if ret' == 0 then sym.inode else None, if attr.Some? then attr.value else Symlink, ret');
      TargetIatt(server, Some(parent), target.value, Left(follow + 1));
    }

    lemma CoherentNeverRefuses(parent: Gfid, name: string)
      requires Settled()
      ensures !LookRefused(server, Now(), parent, name)
    {
      SubsetNeverRefuses(server, Now(), parent, name);
    }

    /**
      priv_glfs_resolve_at.  With forced lookups `loc`, the return value and the attributes are those of a walk on the
      server, whatever is cached, unless the table refuses an answer on the way; then no inode is found.  With a
      coherent cache they are those of the walk without forced lookups.
    */
    method ResolveAt(at: Option<Gfid>, path: string, follow: nat, reval: bool, wantIatt: bool)
      returns (loc: Loc, ret: int, iatt: Option<Type>, ghost nested: nat)
      requires Valid() && (at.Some? ==> at.value in types)
      modifies this
      ensures Valid() && old(types.Keys) <= types.Keys && (loc.inode.Some? ==> loc.inode.value in types)
      ensures loc.inode.Some? ==> ret == 0
      ensures iatt.Some? <==> wantIatt && loc.inode.Some?
      ensures nested <= Left(follow) && nested <= 2049
      ensures (old(Settled()) ==> Settled()) && (old(CycleFree(dentries)) ==> CycleFree(dentries))
      ensures Components(path) == [] ==>
                && ret == 0 && loc.parent.None?
                && loc.inode == Some(if at.Some? && (path == "" || path[0] != '/') then at.value else ROOT)
      ensures loc.parent.Some? ==> Components(path) != [] && loc.name == Components(path)[|Components(path)| - 1]
      ensures reval ==>
                var t := TracePath(server, old(Now()), at, path, Left(follow), follow > 0);
                && Now() == t.cache
                && Gives(loc, ret, iatt, WalkPath(server, at, path, Left(follow), follow > 0), t.refused, t.atLast)
      ensures !reval && old(Settled()) && KindOf(server, Start(at, path)).Dir? ==>
                Gives(loc, ret, iatt, WalkPath(server, at, path, Left(follow), follow > 0), false, false)
      ensures reval ==>
                var t := TracePath(server, old(Now()), at, path, Left(follow), follow > 0);
                var r := WalkPath(server, at, path, Left(follow), follow > 0);
                && (loc.inode == r.inode <==> !t.refused || r.inode.None?)
                && (loc.parent == r.parent <==> !t.refused || t.atLast || r.parent.None?)
      decreases Left(follow), 2
    {
      hide CycleFree, Settled, Components, Left, Ahead, TracePath, WalkPath, Ends;
      loc, ret, iatt, nested := Loc(None, None, ""), -1, None, 0;
      assert Left(follow) <= GLFS_SYMLINK_MAX_FOLLOW + 1 by { LeftBound(follow); }
      ghost var calm := Settled() && KindOf(server, Start(at, path)).Dir?;
      ghost var mode := if reval then Forced else if calm then Calm else Open;
      ghost var r := WalkPath(server, at, path, Left(follow), follow > 0);
      ghost var t := TracePath(server, Now(), at, path, Left(follow), follow > 0);
      var start := Start(at, path);
      AheadStarts(server, mode, Now(), at, path, Left(follow), follow > 0);
      assert path[0..] == path;
      var component, save := StrtokR(path, 0);
      if component.None? {
        iatt := if wantIatt then Some(if path == "/" then Directory else Invalid) else None;
        return Loc(Some(start), None, ""), 0, iatt, 0;
      }
      var inode, parent, name, ciatt, more;
      inode, parent, name, ciatt, ret, more, nested :=
        ResolveRest(start, component.value, path, save, follow, reval, wantIatt, mode, r, t);
      EndsGives(mode, more, parent, name, inode, ciatt, ret, wantIatt, r, t);
      assert Components(path) == [component.value] + Components(path[save..]);
      if more {
        // resolution failed mid-way
        return;
      }
      loc := Loc(inode, Some(parent), name);
      if inode.Some? {
        iatt := if wantIatt then Some(ciatt) else None;
        ret := 0;
      }
    }

    /** The loop of priv_glfs_resolve_at, from its first component on; `more` says that it ends mid-way. */
    method ResolveRest(start: Gfid, first: string, path: string, from: nat, follow: nat, reval: bool, wantIatt: bool,
                       ghost mode: Mode, ghost r: Result, ghost t: Trace)
      returns (inode: Option<Gfid>, parent: Gfid, name: string, ciatt: Type, ret: int, more: bool, ghost nested: nat)
      requires Valid() && start in types && from <= |path| && (mode.Forced? <==> reval) && (mode.Calm? ==> Settled())
      requires Ahead(server, mode, Now(), start, [first] + Components(path[from..]), Left(follow), follow > 0, -1, r, t)
      modifies this
      ensures Valid() && old(types.Keys) <= types.Keys && (inode.Some? ==> inode.value in types)
      ensures more ==> inode.None?
      ensures nested <= Left(follow) && (old(Settled()) ==> Settled()) && (reval ==> Now() == t.cache)
      ensures old(CycleFree(dentries)) ==> CycleFree(dentries)
      ensures Ends(mode, more, parent, name, inode, ciatt, ret, r, t)
      ensures var comps := [first] + Components(path[from..]); !more ==> name == comps[|comps| - 1]
      decreases Left(follow), 1
    {
      hide CycleFree, Settled, Components, Left, Ahead, StepIs, Ends, NotFound;
      ghost var left, rest := Left(follow), Components(path[from..]);
      inode, name, ret, nested := Some(start), first, -1, 0;
      var save := from;
      while true
        invariant Valid() && old(types.Keys) <= types.Keys && 0 <= save <= |path| && rest == Components(path[save..])
        invariant inode.Some? && inode.value in types && nested <= left && (old(Settled()) ==> Settled())
        invariant old(CycleFree(dentries)) ==> CycleFree(dentries)
        invariant Ahead(server, mode, Now(), inode.value, [name] + rest, left, follow > 0, ret, r, t)
        invariant ([name] + rest)[|rest|] == ([first] + Components(path[from..]))[|Components(path[from..])|]
        decreases |rest|
      {
        ghost var comps, was := [name] + rest, Now();
        var next;
        next, save := StrtokR(path, save);
        more := next.Some?;
        rest := if more then Components(path[save..]) else [];
        assert comps[1..] == if more then [next.value] + rest else [];
        parent := inode.value;
        AheadDir(server, mode, was, parent, comps, left, follow > 0, ret, r, t);
        var force := reval || (!more && wantIatt);
        var step, deeper := ResolveStep(parent, name, !more, force, follow, ret, reval);
        nested := if nested < deeper then deeper else nested;
        OpenStep(server, was, Now(), parent, name, !more, left, follow > 0, ret, step);
        AheadGoes(server, mode, was, Now(), parent, comps, left, follow > 0, ret, r, t, step);
        if step.Missing? {
          inode, ciatt := None, Invalid;
          return;
        }
        inode, ciatt := step.inode, step.iatt;
        if !more {
          ret := step.ret;
          return;
        }
        if ciatt != Directory {
          inode, ciatt, ret := None, Invalid, -1;
          return;
        }
        ret, name := step.ret, next.value;
      }
    }
  }

  /** A lookup adds to a cache only what the server has. */
  lemma LookAgrees(sv: Server, c: Cache, dir: Gfid, name: string)
    ensures var c' := Look(sv, c, dir, name);
            && ((forall k :: k in c.dentries ==> k in sv.entries && sv.entries[k] == c.dentries[k]) ==>
                  forall k :: k in c'.dentries ==> k in sv.entries && sv.entries[k] == c'.dentries[k])
            && ((forall x :: x in c.types ==> c.types[x] == TypeOf(KindOf(sv, x))) ==>
                  forall x :: x in c'.types ==> c'.types[x] == TypeOf(KindOf(sv, x)))
  {
    hide LookRefused;
  }

  /** A component that cannot be walked through. */
  predicate NotFound(step: Step) {
    step.Missing? || (step.inode.None? && step.iatt != Directory)
  }

  /** Lookups are forced; or they are not, but the cache is coherent and the walk is in a directory; or neither. */
  datatype Mode = Forced | Calm | Open

  /** What the resolution of one component gives, and the cache it leaves. */
  ghost predicate StepIs(sv: Server, mode: Mode, c: Cache, c': Cache, dir: Gfid, name: string, last: bool, left: nat,
                         follow: bool, ret: int, step: Step) {
    var expected := Component(sv, dir, name, last, left, follow, ret);
    match mode
    case Forced =>
      var t := TraceComponent(sv, c, dir, name, last, left, follow);
      c' == t.cache && if t.refused then NotFound(step) else step == expected
    case Calm => step == expected && (step.Step? && step.iatt == Directory ==> KindOf(sv, step.inode.value).Dir?)
    case Open => true
  }

  lemma OpenStep(sv: Server, c: Cache, c': Cache, dir: Gfid, name: string, last: bool, left: nat, follow: bool,
                 ret: int, step: Step)
    ensures StepIs(sv, Open, c, c', dir, name, last, left, follow, ret, step)
  {
  }

  /** The answer is `r`, or, if the table refused something, that the last component or an earlier one is missing. */
  predicate Gives(loc: Loc, ret: int, iatt: Option<Type>, r: Result, refused: bool, atLast: bool) {
    if refused then loc.inode.None? && loc.parent == (if atLast then r.parent else None)
    else loc.inode == r.inode && loc.parent == r.parent && ret == r.ret && (iatt.Some? ==> iatt.value == r.iatt)
  }

  // ----- the loop of priv_glfs_resolve_at -----

  /** The walk `r` and its trace `t` go on with the components `comps` from `dir`. */
  ghost predicate Ahead(sv: Server, mode: Mode, c: Cache, dir: Gfid, comps: seq<string>, left: nat, follow: bool,
                        ret: int, r: Result, t: Trace) {
    && comps != []
    && (mode.Open? || r == Walk(sv, dir, comps, left, follow, ret))
    && (mode.Forced? ==> t == TraceWalk(sv, c, dir, comps, left, follow, ret))
    && (mode.Calm? ==> KindOf(sv, dir).Dir?)
  }

  /** How the loop ends with `more` components left. */
  ghost predicate Ends(mode: Mode, more: bool, dir: Gfid, name: string, inode: Option<Gfid>, iatt: Type, ret: int,
                       r: Result, t: Trace) {
    mode.Open? || Gives(if more then Loc(None, None, "") else Loc(inode, Some(dir), name),
                        if !more && inode.Some? then 0 else ret, if inode.Some? then Some(iatt) else None, r,
                        mode.Forced? && t.refused, t.atLast)
  }

  lemma EndsGives(mode: Mode, more: bool, dir: Gfid, name: string, inode: Option<Gfid>, iatt: Type, ret: int,
                  wantIatt: bool, r: Result, t: Trace)
    requires Ends(mode, more, dir, name, inode, iatt, ret, r, t) && (more ==> inode.None?)
    ensures mode.Open? || Gives(if more then Loc(None, None, "") else Loc(inode, Some(dir), name),
                                if inode.Some? then 0 else ret, if inode.Some? && wantIatt then Some(iatt) else None,
                                r, mode.Forced? && t.refused, t.atLast)
  {
  }

  lemma AheadStarts(sv: Server, mode: Mode, c: Cache, at: Option<Gfid>, path: string, left: nat, follow: bool)
    requires mode.Calm? ==> KindOf(sv, Start(at, path)).Dir?
    ensures var r, t := WalkPath(sv, at, path, left, follow), TracePath(sv, c, at, path, left, follow);
            if Components(path) != [] then
              Ahead(sv, mode, c, Start(at, path), Components(path), left, follow, -1, r, t)
            else
              && r == Result(Some(Start(at, path)), None, 0, if path == "/" then Directory else Invalid)
              && t == Trace(c, false, false)
  {
  }

  lemma AheadDir(sv: Server, mode: Mode, c: Cache, dir: Gfid, comps: seq<string>, left: nat, follow: bool, ret: int,
                 r: Result, t: Trace)
    requires Ahead(sv, mode, c, dir, comps, left, follow, ret, r, t)
    ensures mode.Calm? ==> KindOf(sv, dir).Dir?
  {
  }

  lemma AheadGoes(sv: Server, mode: Mode, c: Cache, c': Cache, dir: Gfid, comps: seq<string>, left: nat, follow: bool,
                  ret: int, r: Result, t: Trace, step: Step)
    requires Ahead(sv, mode, c, dir, comps, left, follow, ret, r, t)
    requires StepIs(sv, mode, c, c', dir, comps[0], |comps| == 1, left, follow, ret, step)
    ensures if |comps| > 1 && step.Step? && step.iatt == Directory && step.inode.Some? then
              Ahead(sv, mode, c', step.inode.value, comps[1..], left, follow, step.ret, r, t)
            else
              && (mode.Forced? ==> c' == t.cache)
              && if step.Missing? then Ends(mode, |comps| > 1, dir, comps[0], None, Invalid, ret, r, t)
                 else if |comps| > 1 then Ends(mode, true, dir, comps[0], None, Invalid, -1, r, t)
                 else Ends(mode, false, dir, comps[0], step.inode, step.iatt, step.ret, r, t)
  {
    hide Component, TraceComponent;
  }

  lemma LeftBound(follow: nat)
    ensures Left(follow) <= GLFS_SYMLINK_MAX_FOLLOW + 1
  {
  }

  lemma RootIsDir(sv: Server)
    requires WellFormed(sv)
    ensures KindOf(sv, ROOT).Dir?
  {
  }

  lemma TargetIatt(sv: Server, at: Option<Gfid>, path: string, left: nat)
    requires at.Some?
    ensures var r := WalkPath(sv, at, path, left, true);
            WellFormed(sv) && r.inode.Some? && r.iatt == Directory ==> KindOf(sv, r.inode.value).Dir?
  {
    var s, cs := Start(at, path), Components(path);
    if WellFormed(sv) && cs != [] && Walk(sv, s, cs, left, true, -1).inode.Some? {
      WalkIatt(sv, s, cs, left, true, -1);
    }
  }

  /** What glfs_resolve allows: links in the last place, if they are followed, count as the first level. */
  function Levels(follow: bool): nat {
    Left(if follow then 1 else 0)
  }

  /**
    glfs_resolve and glfs_lresolve in a namespace without bare link targets that stays within the nesting limit, as
    every one with at most 2048 symbolic links does.  Without forced lookups and with a coherent cache, `loc.inode` is
    what the reference reaches and `loc.parent` the directory that all components but the last reach.  With forced
    lookups the same holds for any cache whatever that does not refuse one of the answers on the way.
  */
  method ResolvePath(table: InodeTable, cwd: Option<Gfid>, path: string, follow: bool, reval: bool, wantIatt: bool)
    returns (loc: Loc, ret: int, iatt: Option<Type>)
    requires table.Valid() && (cwd.Some? ==> cwd.value in table.types)
    modifies table
    ensures table.Valid() && (old(CycleFree(table.dentries)) ==> CycleFree(table.dentries))
    ensures Components(path) == [] ==>
              ret == 0 && loc.parent.None? && loc.inode == Some(if cwd.Some? && path == "" then cwd.value else ROOT)
    ensures loc.parent.Some? ==> Components(path) != [] && loc.name == Components(path)[|Components(path)| - 1]
    ensures Components(path) != [] && Plain(table.server, follow) ==>
              var from := if cwd.Some? && path != "" && path[0] != '/' then cwd.value else ROOT;
              (if reval then !TracePath(table.server, old(table.Now()), cwd, path, Levels(follow), follow).refused
               else old(table.Settled()) && KindOf(table.server, from).Dir?) ==>
                Answers(table.server, from, Components(path), follow, loc.inode, loc.parent)
    ensures reval && TracePath(table.server, old(table.Now()), cwd, path, Levels(follow), follow).refused ==>
              loc.inode.None?
  {
    hide CycleFree, Answers, NoBareLinks, WithinNesting, TracePath, WalkPath;
    var at := if path != "" && path[0] == '/' then None else cwd;
    SameStart(table.server, table.Now(), cwd, path, follow);
    ghost var nested;
    loc, ret, iatt, nested := table.ResolveAt(at, path, if follow then 1 else 0, reval, wantIatt);
    if Plain(table.server, follow) && Components(path) != [] {
      if |Links(table.server)| <= GLFS_SYMLINK_MAX_FOLLOW {
        FewLinksFit(table.server, Levels(follow));
      }
      ResolverRefines(table.server, at, path, Levels(follow), follow);
    }
  }

  /** A namespace in which nested links are no obstacle. */
  ghost predicate Plain(sv: Server, follow: bool) {
    && WellFormed(sv) && NoBareLinks(sv)
    && (WithinNesting(sv, Levels(follow)) || |Links(sv)| <= 2048)
  }

  /** An absolute path does not depend on the cwd. */
  lemma SameStart(sv: Server, c: Cache, cwd: Option<Gfid>, path: string, follow: bool)
    ensures var at := if path != "" && path[0] == '/' then None else cwd;
            && Start(at, path) == Start(cwd, path)
            && TracePath(sv, c, at, path, Levels(follow), follow) == TracePath(sv, c, cwd, path, Levels(follow), follow)
            && WalkPath(sv, at, path, Levels(follow), follow) == WalkPath(sv, cwd, path, Levels(follow), follow)
  {
  }
}
