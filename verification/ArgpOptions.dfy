/** Option tables, and the two searches the parser makes in them. */
module ArgpOptions {
  import opened Common

  /** struct argp_option; the booleans are the OPTION_ flags. */
  datatype ArgpOption = ArgpOption(name: Option<string>, key: int, arg: bool, optional: bool,
                                   hidden: bool, alias: bool, doc: bool)

  /** A parsing group: the options of one argp, and whether it has a parser function. */
  datatype Group = Group(options: seq<ArgpOption>, hasParser: bool)

  /** An option together with where it stands. */
  datatype Ref = Ref(group: nat, index: nat, opt: ArgpOption)

  function GroupRefs(g: nat, options: seq<ArgpOption>): (rs: seq<Ref>) {
    seq(|options|, i requires 0 <= i < |options| => Ref(g, i, options[i]))
  }

  /** All options of all groups, in the order in which they are searched. */
  function Flat(groups: seq<Group>): seq<Ref> {
    if groups == [] then []
    else
      var n := |groups| - 1;
      Flat(groups[..n]) + GroupRefs(n, groups[n].options)
  }

  lemma {:induction false} FlatPrefix(groups: seq<Group>, g: nat)
    requires g <= |groups|
    ensures Flat(groups[..g]) <= Flat(groups)
    decreases |groups|
  {
    if g == |groups| {
      assert groups[..g] == groups;
    } else {
      var n := |groups| - 1;
      assert groups[..n][..g] == groups[..g];
      FlatPrefix(groups[..n], g);
    }
  }

  /** The options searched before option `i` of group `g`. */
  function Before(groups: seq<Group>, g: nat, i: nat): (rs: seq<Ref>)
    requires g < |groups| && i <= |groups[g].options|
  {
    Flat(groups[..g]) + GroupRefs(g, groups[g].options)[..i]
  }

  lemma BeforeStep(groups: seq<Group>, g: nat, i: nat)
    requires g < |groups| && i < |groups[g].options|
    ensures Before(groups, g, i + 1) == Before(groups, g, i) + [Ref(g, i, groups[g].options[i])]
    ensures Before(groups, g, i + 1) <= Flat(groups)
  {
    FlatPrefix(groups, g + 1);
    assert groups[..g + 1][..g] == groups[..g];
    var all := GroupRefs(g, groups[g].options);
    assert all[..i + 1] == all[..i] + [all[i]];
    assert Flat(groups[..g + 1]) == Flat(groups[..g]) + all;
    assert Before(groups, g, i + 1) <= Flat(groups[..g + 1]);
  }

  lemma BeforeEnds(groups: seq<Group>, g: nat)
    requires g < |groups|
    ensures Before(groups, g, 0) == Flat(groups[..g])
    ensures Before(groups, g, |groups[g].options|) == Flat(groups[..g + 1])
  {
    assert groups[..g + 1][..g] == groups[..g];
    var all := GroupRefs(g, groups[g].options);
    assert all[..|groups[g].options|] == all;
  }

  // ----- short options -----

  /** The first option with the given key. */
  function FirstKey(rs: seq<Ref>, key: int): Option<Ref> {
    if rs == [] then None
    else
      var n := |rs| - 1;
      var found := FirstKey(rs[..n], key);
      if found.Some? then found else if rs[n].opt.key == key then Some(rs[n]) else None
  }

  lemma {:induction false} FirstKeyPrefix(rs: seq<Ref>, more: seq<Ref>, key: int)
    requires rs <= more && FirstKey(rs, key).Some?
    ensures FirstKey(more, key) == FirstKey(rs, key)
    decreases |more|
  {
    if rs == more {
    } else {
      var n := |more| - 1;
      assert rs <= more[..n];
      FirstKeyPrefix(rs, more[..n], key);
    }
  }

  /** What FirstKey means: an option with the key, and none before it. */
  lemma {:induction false} FirstKeyIsFirst(rs: seq<Ref>, key: int)
    ensures match FirstKey(rs, key)
            case None => forall i :: 0 <= i < |rs| ==> rs[i].opt.key != key
            case Some(r) => exists i :: 0 <= i < |rs| && rs[i] == r && r.opt.key == key
                                        && forall j :: 0 <= j < i ==> rs[j].opt.key != key
    decreases |rs|
  {
    if rs != [] {
      var n := |rs| - 1;
      FirstKeyIsFirst(rs[..n], key);
      if FirstKey(rs[..n], key).Some? {
        var i :| 0 <= i < n && rs[..n][i] == FirstKey(rs[..n], key).value
                 && forall j :: 0 <= j < i ==> rs[..n][j].opt.key != key;
        assert rs[i] == rs[..n][i];
        assert forall j :: 0 <= j < i ==> rs[j] == rs[..n][j];
      } else {
        assert forall j :: 0 <= j < n ==> rs[j] == rs[..n][j];
      }
    }
  }

  /** find_short_option. */
  method FindShortOption(groups: seq<Group>, key: int) returns (found: Option<Ref>)
    ensures found == FirstKey(Flat(groups), key)
  {
    assert groups[..0] == [];
    for g := 0 to |groups|
      invariant FirstKey(Flat(groups[..g]), key).None?
    {
      BeforeEnds(groups, g);
      var options := groups[g].options;
      for i := 0 to |options|
        invariant FirstKey(Before(groups, g, i), key).None?
      {
        BeforeStep(groups, g, i);
        var rs, ref := Before(groups, g, i + 1), Ref(g, i, options[i]);
        assert rs[..|rs| - 1] == Before(groups, g, i);
        if options[i].key == key {
          FirstKeyPrefix(rs, Flat(groups), key);
          return Some(ref);
        }
      }
    }
    assert groups[..|groups|] == groups;
    return None;
  }

  // ----- long options -----

  datatype Match = Exact | Partial | No

  /** The part of a long option before any '='. */
  function Stem(arg: string): string {
    if arg == "" || arg[0] == '=' then "" else [arg[0]] + Stem(arg[1..])
  }

  lemma {:induction false} StemShape(arg: string)
    ensures |Stem(arg)| <= |arg| && Stem(arg) == arg[..|Stem(arg)|] && '=' !in Stem(arg)
    ensures |Stem(arg)| < |arg| ==> arg[|Stem(arg)|] == '='
  {
    if arg != "" && arg[0] != '=' {
      StemShape(arg[1..]);
    }
  }

  function Matching(arg: string, name: string): Match {
    if Stem(arg) == name then Exact else if Stem(arg) <= name then Partial else No
  }

  /** match_option. */
  method MatchOption(arg: string, name: string) returns (m: Match)
    ensures m == Matching(arg, name)
  {
    StemShape(arg);
    var i := 0;
    while i < |arg| && arg[i] != '='
      invariant 0 <= i <= |Stem(arg)| && i <= |name| && arg[..i] == name[..i]
    {
      if i == |name| || arg[i] != name[i] {
        return No;
      }
      i := i + 1;
    }
    assert i == |Stem(arg)| && name[..i] == Stem(arg);
    return if i == |name| then Exact else Partial;
  }

  predicate Is(r: Ref, arg: string, m: Match) {
    r.opt.name.Some? && Matching(arg, r.opt.name.value) == m
  }

  function FirstExact(rs: seq<Ref>, arg: string): Option<Ref> {
    if rs == [] then None
    else
      var n := |rs| - 1;
      var found := FirstExact(rs[..n], arg);
      if found.Some? then found else if Is(rs[n], arg, Exact) then Some(rs[n]) else None
  }

  /** The options of which the argument is a proper abbreviation. */
  function Partials(rs: seq<Ref>, arg: string): seq<Ref> {
    if rs == [] then []
    else
      var n := |rs| - 1;
      Partials(rs[..n], arg) + if Is(rs[n], arg, Partial) then [rs[n]] else []
  }

  /** An exact match wins; otherwise an abbreviation has to be unambiguous. */
  function LongOption(rs: seq<Ref>, arg: string): Option<Ref> {
    if FirstExact(rs, arg).Some? then FirstExact(rs, arg)
    else if |Partials(rs, arg)| == 1 then Some(Partials(rs, arg)[0])
    else None
  }

  lemma {:induction false} FirstExactPrefix(rs: seq<Ref>, more: seq<Ref>, arg: string)
    requires rs <= more && FirstExact(rs, arg).Some?
    ensures FirstExact(more, arg) == FirstExact(rs, arg)
    decreases |more|
  {
    if rs == more {
    } else {
      var n := |more| - 1;
      assert rs <= more[..n];
      FirstExactPrefix(rs, more[..n], arg);
    }
  }

  /** What FirstExact means: an exact match, and none before it. */
  lemma {:induction false} FirstExactIsFirst(rs: seq<Ref>, arg: string)
    ensures match FirstExact(rs, arg)
            case None => forall i :: 0 <= i < |rs| ==> !Is(rs[i], arg, Exact)
            case Some(r) => exists i :: 0 <= i < |rs| && rs[i] == r && Is(r, arg, Exact)
                                        && forall j :: 0 <= j < i ==> !Is(rs[j], arg, Exact)
    decreases |rs|
  {
    if rs != [] {
      hide Is;
      var n := |rs| - 1;
      FirstExactIsFirst(rs[..n], arg);
      assert forall i :: 0 <= i < n ==> rs[..n][i] == rs[i];
    }
  }

  /** How many options have the argument as a proper abbreviation. */
  function Abbreviated(rs: seq<Ref>, arg: string): set<nat> {
    set i: nat | i < |rs| && Is(rs[i], arg, Partial)
  }

  lemma {:induction false} PartialsAre(rs: seq<Ref>, arg: string)
    ensures |Partials(rs, arg)| == |Abbreviated(rs, arg)|
    ensures forall r :: r in Partials(rs, arg) ==> exists i: nat :: i in Abbreviated(rs, arg) && rs[i] == r
    decreases |rs|
  {
    hide Is;
    if rs != [] {
      var n := |rs| - 1;
      PartialsAre(rs[..n], arg);
      var before, all := Abbreviated(rs[..n], arg), Abbreviated(rs, arg);
      if Is(rs[n], arg, Partial) {
        assert all == before + {n};
      } else {
        assert all == before;
      }
      forall r | r in Partials(rs, arg)
        ensures exists i: nat :: i in all && rs[i] == r
      {
        if r in Partials(rs[..n], arg) {
          var i: nat :| i in before && rs[..n][i] == r;
          assert i in all && rs[i] == r;
        }
      }
    } else {
      assert Abbreviated(rs, arg) == {};
    }
  }

  /** What LongOption means: the first exact match; without one, the only option that is abbreviated. */
  lemma LongOptionMeans(rs: seq<Ref>, arg: string)
    ensures match LongOption(rs, arg)
            case None =>
              (forall i :: 0 <= i < |rs| ==> !Is(rs[i], arg, Exact)) && |Abbreviated(rs, arg)| != 1
            case Some(r) =>
              || (exists i :: 0 <= i < |rs| && rs[i] == r && Is(r, arg, Exact)
                              && forall j :: 0 <= j < i ==> !Is(rs[j], arg, Exact))
              || ((forall i :: 0 <= i < |rs| ==> !Is(rs[i], arg, Exact))
                  && exists i: nat :: Abbreviated(rs, arg) == {i} && rs[i] == r)
  {
    hide Is, FirstExact, Partials;
    FirstExactIsFirst(rs, arg);
    PartialsAre(rs, arg);
    if FirstExact(rs, arg).None? && |Partials(rs, arg)| == 1 {
      var r := Partials(rs, arg)[0];
      assert r in Partials(rs, arg);
      var i: nat :| i in Abbreviated(rs, arg) && rs[i] == r;
      OnlyOne(Abbreviated(rs, arg), i);
    }
  }

  lemma OnlyOne(s: set<nat>, i: nat)
    requires i in s && |s| == 1
    ensures s == {i}
  {
    assert |s - {i}| == 0;
  }

  /** The state of find_long_option after the options `rs`. */
  ghost predicate Searched(rs: seq<Ref>, arg: string, partial: nat, matched: Option<Ref>) {
    && FirstExact(rs, arg).None? && partial == |Partials(rs, arg)|
    && (partial > 0 ==> matched == Some(Partials(rs, arg)[partial - 1]))
  }

  lemma SearchedNext(rs: seq<Ref>, r: Ref, arg: string, partial: nat, matched: Option<Ref>)
    requires Searched(rs, arg, partial, matched)
    ensures !Is(r, arg, Exact) && !Is(r, arg, Partial) ==> Searched(rs + [r], arg, partial, matched)
    ensures Is(r, arg, Partial) ==> Searched(rs + [r], arg, partial + 1, Some(r))
    ensures Is(r, arg, Exact) ==> FirstExact(rs + [r], arg) == Some(r)
  {
    assert (rs + [r])[..|rs|] == rs;
  }

  /** find_long_option. */
  method FindLongOption(groups: seq<Group>, arg: string) returns (found: Option<Ref>)
    ensures found == LongOption(Flat(groups), arg)
  {
    var matched: Option<Ref> := None;
    var partial := 0;
    assert groups[..0] == [];
    for g := 0 to |groups|
      invariant 0 <= partial && Searched(Flat(groups[..g]), arg, partial, matched)
    {
      hide FirstExact, Partials, Searched, Before, Flat;
      BeforeEnds(groups, g);
      var options := groups[g].options;
      for i := 0 to |options|
        invariant 0 <= partial && Searched(Before(groups, g, i), arg, partial, matched)
      {
        BeforeStep(groups, g, i);
        var ref := Ref(g, i, options[i]);
        SearchedNext(Before(groups, g, i), ref, arg, partial, matched);
        if options[i].name.None? {
          continue;
        }
        var m := MatchOption(arg, options[i].name.value);
        if m == Exact {
          FirstExactPrefix(Before(groups, g, i + 1), Flat(groups), arg);
          ExactIsLong(Flat(groups), arg);
          return Some(ref);
        } else if m == Partial {
          partial, matched := partial + 1, Some(ref);
        }
      }
    }
    assert groups[..|groups|] == groups;
    return if partial == 1 then matched else None;
  }

  lemma ExactIsLong(rs: seq<Ref>, arg: string)
    requires FirstExact(rs, arg).Some?
    ensures LongOption(rs, arg) == FirstExact(rs, arg)
  {
  }

  // ----- what the searches return exists -----

  lemma {:induction false} FlatInRange(groups: seq<Group>, r: Ref)
    requires r in Flat(groups)
    ensures r.group < |groups|
  {
    if groups != [] {
      var n := |groups| - 1;
      if r in Flat(groups[..n]) {
        FlatInRange(groups[..n], r);
      }
    }
  }

  lemma {:induction false} LongInList(rs: seq<Ref>, arg: string)
    ensures FirstExact(rs, arg).Some? ==> FirstExact(rs, arg).value in rs
    ensures forall r :: r in Partials(rs, arg) ==> r in rs
    decreases |rs|
  {
    if rs != [] {
      LongInList(rs[..|rs| - 1], arg);
    }
  }

  lemma ShortInRange(groups: seq<Group>, key: int)
    ensures var r := FirstKey(Flat(groups), key); r.Some? ==> r.value.group < |groups| && r.value.opt.key == key
  {
    FirstKeyIsFirst(Flat(groups), key);
    var r := FirstKey(Flat(groups), key);
    if r.Some? {
      FlatInRange(groups, r.value);
    }
  }

  lemma LongInRange(groups: seq<Group>, arg: string)
    ensures var r := LongOption(Flat(groups), arg); r.Some? ==> r.value.group < |groups|
  {
    LongInList(Flat(groups), arg);
    var r := LongOption(Flat(groups), arg);
    if r.Some? {
      FlatInRange(groups, r.value);
    }
  }
}
