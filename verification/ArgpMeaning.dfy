/** What a whole command line means: the calls of the user's parsers, in order, and how they end. */
module ArgpMeaning {
  import opened Common
  import opened ArgpOptions
  import opened ArgpScan

  /** What the user's parsers reply, given the calls made before. */
  type Answer = (seq<Event>, Event) -> Reply

  /** The calls made so far and the reply to the last of them. */
  datatype Played = Played(calls: seq<Event>, reply: Reply)

  /** group_parse: a group without a parser knows no key. */
  function Call(t: Table, answer: Answer, calls: seq<Event>, ev: Event): Played
    requires ev.group < |t.groups|
  {
    if t.groups[ev.group].hasParser then Played(calls + [ev], answer(calls, ev)) else Played(calls, BadKey)
  }

  /** The calls `evs` one after the other, until one is not accepted. */
  ghost function Play(t: Table, answer: Answer, calls: seq<Event>, evs: seq<Event>): Played
    requires InGroups(t, evs)
    decreases |evs|
  {
    if evs == [] then Played(calls, Ok)
    else
      var p := Call(t, answer, calls, evs[0]);
      if p.reply.Ok? then Play(t, answer, p.calls, evs[1..]) else p
  }

  lemma {:induction false} PlayConcat(t: Table, answer: Answer, calls: seq<Event>, a: seq<Event>, b: seq<Event>)
    requires InGroups(t, a) && InGroups(t, b)
    ensures InGroups(t, a + b)
    ensures var p := Play(t, answer, calls, a);
            Play(t, answer, calls, a + b) == if p.reply.Ok? then Play(t, answer, p.calls, b) else p
    decreases |a|
  {
    if a == [] {
      assert a + b == b;
    } else {
      var p := Call(t, answer, calls, a[0]);
      assert (a + b)[0] == a[0] && (a + b)[1..] == a[1..] + b;
      PlayConcat(t, answer, p.calls, a[1..], b);
    }
  }

  /** The reply to a plain argument; `all` says that it is about all the arguments that are left. */
  datatype Offered = Offered(calls: seq<Event>, reply: Reply, all: bool)

  /** A plain argument is offered to the groups from `g` on: first alone, then with all that follow. */
  ghost function Offer(t: Table, answer: Answer, calls: seq<Event>, arg: string, g: nat): Offered
    requires g <= |t.groups|
    decreases |t.groups| - g
  {
    if g == |t.groups| then Offered(calls, BadKey, true)
    else
      var one := Call(t, answer, calls, Arg(g, arg));
      if !one.reply.BadKey? then Offered(one.calls, one.reply, false)
      else
        var all := Call(t, answer, one.calls, Args(g));
        if !all.reply.BadKey? then Offered(all.calls, all.reply, true)
        else Offer(t, answer, all.calls, arg, g + 1)
  }

  /**
    The end of a parse. Stopped: an option is malformed or its parser does not accept it; `suppressed`
    says that the error is nevertheless taken for the end of the arguments. Finished: the arguments
    are used up, or one of them is not accepted; `left` of them remain.
  */
  datatype Outcome = Stopped(calls: seq<Event>, reply: Reply, suppressed: bool)
                   | Finished(calls: seq<Event>, reply: Reply, left: nat)

  function NotAccepted(o: Offered, count: nat): Outcome
    requires count > 0
  {
    Finished(o.calls, o.reply, if o.all then count else count - 1)
  }

  /** Plain arguments handed out until one is not accepted. */
  ghost function Deliver(t: Table, answer: Answer, calls: seq<Event>, args: seq<string>): Outcome
    decreases |args|
  {
    if args == [] then Finished(calls, BadKey, 0)
    else
      var o := Offer(t, answer, calls, args[0], 0);
      if !o.reply.Ok? then NotAccepted(o, |args|)
      else Deliver(t, answer, o.calls, if o.all then [] else args[1..])
  }

  /**
    The meaning of the elements `args` after the calls `calls`, with the plain arguments `skipped`
    put aside. `flag` is set once a plain argument has been offered and no long option has followed.
  */
  ghost function Meaning(t: Table, answer: Answer, calls: seq<Event>, flag: bool, skipped: seq<string>,
                         args: seq<string>): Outcome
    decreases |args|, 0
  {
    if args == [] then Deliver(t, answer, calls, skipped)
    else
      var rest := args[1..];
      match Classify(t, args[0])
      case Plain => AfterPlain(t, answer, calls, flag, skipped, args)
      case Quote => Deliver(t, answer, calls, skipped + rest)
      case Long(text) => AfterCalls(t, answer, calls, false, skipped, LongUse(t, text, rest), rest)
      case Short(chars) => AfterCalls(t, answer, calls, flag, skipped, Cluster(t, chars, rest), rest)
  }

  ghost function AfterPlain(t: Table, answer: Answer, calls: seq<Event>, flag: bool, skipped: seq<string>,
                            args: seq<string>): Outcome
    requires args != []
    decreases |args| - 1, 2
  {
    match t.ordering
    case Permute => Meaning(t, answer, calls, flag, skipped + [args[0]], args[1..])
    case RequireOrder => Deliver(t, answer, calls, args)
    case ReturnInOrder =>
      var o := Offer(t, answer, calls, args[0], 0);
      if !o.reply.Ok? then NotAccepted(o, |args|)
      else Meaning(t, answer, o.calls, true, skipped, if o.all then [] else args[1..])
  }

  ghost function AfterCalls(t: Table, answer: Answer, calls: seq<Event>, flag: bool, skipped: seq<string>, u: Use,
                            rest: seq<string>): Outcome
    requires u.used <= |rest| && InGroups(t, u.calls)
    decreases |rest|, 1
  {
    var p := Play(t, answer, calls, u.calls);
    if !p.reply.Ok? then Stopped(p.calls, p.reply, flag && p.reply.BadKey?)
    else if !u.fault.Ok? then Stopped(p.calls, u.fault, false)
    else Meaning(t, answer, p.calls, flag, skipped, rest[u.used..])
  }

  // ----- one call at a time -----

  lemma MoreCalls(t: Table, answer: Answer, calls: seq<Event>, flag: bool, skipped: seq<string>, ev: Event, u: Use,
                  rest: seq<string>)
    requires u.used <= |rest| && InGroups(t, u.calls) && ev.group < |t.groups|
    ensures var p := Call(t, answer, calls, ev);
            AfterCalls(t, answer, calls, flag, skipped, AddCall(ev, u), rest)
            == if p.reply.Ok? then AfterCalls(t, answer, p.calls, flag, skipped, u, rest)
               else Stopped(p.calls, p.reply, flag && p.reply.BadKey?)
    ensures AfterUse(t, [], AddCall(ev, u), rest) == Prepend([], [], [ev], AfterUse(t, [], u, rest))
  {
    assert ([ev] + u.calls)[1..] == u.calls;
    var none: seq<string>, s := [], Scan(t, rest[u.used..]);
    assert none + (none + rest[..u.used]) == none + rest[..u.used] && none + none == none;
    PrependTwice(none, none + rest[..u.used], none, none, [ev], u.calls, s);
  }

  lemma LastCall(t: Table, answer: Answer, calls: seq<Event>, flag: bool, skipped: seq<string>, ev: Event, used: nat,
                 rest: seq<string>)
    requires used <= |rest| && ev.group < |t.groups|
    ensures var p := Call(t, answer, calls, ev);
            AfterCalls(t, answer, calls, flag, skipped, Use([ev], used, Ok), rest)
            == if p.reply.Ok? then Meaning(t, answer, p.calls, flag, skipped, rest[used..])
               else Stopped(p.calls, p.reply, flag && p.reply.BadKey?)
    ensures AfterUse(t, [], Use([ev], used, Ok), rest) == Prepend(rest[..used], [], [ev], Scan(t, rest[used..]))
  {
    assert [] + rest[..used] == rest[..used];
    assert Play(t, answer, Call(t, answer, calls, ev).calls, [ev][1..]).reply.Ok?;
  }

  // ----- permutation does not change the meaning -----

  /** `m` is what comes of the partition `s`: its option calls first, then its plain arguments. */
  ghost predicate Follows(t: Table, answer: Answer, calls: seq<Event>, skipped: seq<string>, s: Option<Partition>,
                          m: Outcome) {
    if s.None? then m.Stopped? && !m.suppressed
    else if !InGroups(t, s.value.calls) then false
    else
      var p := Play(t, answer, calls, s.value.calls);
      m == if p.reply.Ok? then Deliver(t, answer, p.calls, skipped + s.value.plain + s.value.rest)
           else Stopped(p.calls, p.reply, false)
  }

  lemma {:induction false} MeaningFollowsScan(t: Table, answer: Answer, calls: seq<Event>, skipped: seq<string>,
                                              args: seq<string>)
    requires !t.ordering.ReturnInOrder? && (t.ordering.RequireOrder? ==> skipped == [])
    ensures Follows(t, answer, calls, skipped, Scan(t, args), Meaning(t, answer, calls, false, skipped, args))
    decreases |args|, 0
  {
    if args == [] {
      assert skipped + [] + [] == skipped;
    } else {
      hide Deliver, Play, Classify, LongUse, Cluster, AfterUse, AfterCalls;
      var rest := args[1..];
      match Classify(t, args[0])
      case Plain =>
        if t.ordering.Permute? {
          MeaningFollowsScan(t, answer, calls, skipped + [args[0]], rest);
          var s := Scan(t, rest);
          if s.Some? {
            assert skipped + [args[0]] + s.value.plain == skipped + ([args[0]] + s.value.plain);
            assert [] + s.value.calls == s.value.calls;
          }
        } else {
          assert skipped + [] + args == args;
          assert Meaning(t, answer, calls, false, skipped, args) == AfterPlain(t, answer, calls, false, skipped, args);
        }
      case Quote =>
        assert skipped + [] + rest == skipped + rest;
      case Long(text) => UseFollows(t, answer, calls, skipped, [args[0]], LongUse(t, text, rest), rest);
      case Short(chars) => UseFollows(t, answer, calls, skipped, [args[0]], Cluster(t, chars, rest), rest);
    }
  }

  lemma {:induction false} UseFollows(t: Table, answer: Answer, calls: seq<Event>, skipped: seq<string>,
                                      taken: seq<string>, u: Use, rest: seq<string>)
    requires !t.ordering.ReturnInOrder? && (t.ordering.RequireOrder? ==> skipped == [])
    requires u.used <= |rest| && InGroups(t, u.calls)
    ensures Follows(t, answer, calls, skipped, AfterUse(t, taken, u, rest),
                    AfterCalls(t, answer, calls, false, skipped, u, rest))
    decreases |rest|, 1
  {
    var p, tail := Play(t, answer, calls, u.calls), rest[u.used..];
    var s := Scan(t, tail);
    MeaningFollowsScan(t, answer, p.calls, skipped, tail);
    hide Play, Scan, Meaning, Deliver;
    if s.Some? {
      PlayConcat(t, answer, calls, u.calls, s.value.calls);
      assert [] + s.value.plain == s.value.plain;
    }
  }
}
