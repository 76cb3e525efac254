/** What rearranging a command line keeps, and when an option's error is mistaken for the end of the arguments. */
module ArgpTheorems {
  import opened Common
  import opened ArgpOptions
  import opened ArgpScan
  import opened ArgpMeaning

  // ----- the rearrangement is stable -----

  /** `zs` is made of `xs` and `ys`, each in its own order. */
  ghost predicate Interleaved(xs: seq<string>, ys: seq<string>, zs: seq<string>)
    decreases |zs|
  {
    if zs == [] then xs == [] && ys == []
    else
      || (xs != [] && xs[0] == zs[0] && Interleaved(xs[1..], ys, zs[1..]))
      || (ys != [] && ys[0] == zs[0] && Interleaved(xs, ys[1..], zs[1..]))
  }

  lemma {:induction false} InterleavedMore(pre: seq<string>, xs: seq<string>, ys: seq<string>, zs: seq<string>)
    requires Interleaved(xs, ys, zs)
    ensures Interleaved(pre + xs, ys, pre + zs)
    decreases |pre|
  {
    if pre == [] {
      assert pre + xs == xs && pre + zs == zs;
    } else {
      InterleavedMore(pre[1..], xs, ys, zs);
      assert (pre + xs)[1..] == pre[1..] + xs && (pre + zs)[1..] == pre[1..] + zs;
    }
  }

  /** The line is its options and its plain arguments, each in order, then what follows `--` untouched. */
  ghost predicate Splits(p: Partition, args: seq<string>) {
    var n := |p.options| + |p.plain|;
    && n <= |args| && Interleaved(p.options, p.plain, args[..n])
    && args[n..] == (if p.quote then ["--"] else []) + p.rest
  }

  lemma SplitsPlain(arg: string, p: Partition, args: seq<string>)
    requires Splits(p, args)
    ensures Splits(Prepend([], [arg], [], Some(p)).value, [arg] + args)
  {
    var n := |p.options| + |p.plain|;
    var q := Prepend([], [arg], [], Some(p)).value;
    assert q.options == p.options && q.plain[1..] == p.plain;
    assert ([arg] + args)[..n + 1] == [arg] + args[..n] && ([arg] + args)[..n + 1][1..] == args[..n];
  }

  lemma SplitsTaken(taken: seq<string>, calls: seq<Event>, p: Partition, args: seq<string>)
    requires Splits(p, args)
    ensures Splits(Prepend(taken, [], calls, Some(p)).value, taken + args)
  {
    hide Interleaved;
    var n := |p.options| + |p.plain|;
    InterleavedMore(taken, p.options, p.plain, args[..n]);
    assert [] + p.plain == p.plain;
    assert (taken + args)[..|taken| + n] == taken + args[..n] && (taken + args)[|taken| + n..] == args[n..];
  }

  /** Options keep their order, plain arguments keep theirs. */
  lemma {:induction false} ScanIsStable(t: Table, args: seq<string>)
    requires Scan(t, args).Some?
    ensures Splits(Scan(t, args).value, args)
    decreases |args|, 1
  {
    if args != [] {
      hide Classify, Cluster, LongUse, AfterUse, Splits, Prepend;
      var rest := args[1..];
      assert args == [args[0]] + rest;
      match Classify(t, args[0])
      case Plain =>
        if t.ordering.Permute? {
          assert Scan(t, rest).Some? by {
            PrependNone([], [args[0]], [], Scan(t, rest));
          }
          ScanIsStable(t, rest);
          SplitsPlain(args[0], Scan(t, rest).value, rest);
        } else {
          SplitsRest(false, args, args);
        }
      case Quote =>
        QuoteIs(t, args[0]);
        SplitsRest(true, rest, args);
      case Long(text) => UseIsStable(t, args, LongUse(t, text, rest));
      case Short(chars) => UseIsStable(t, args, Cluster(t, chars, rest));
    } else {
      SplitsRest(false, [], args);
    }
  }

  lemma PrependNone(o: seq<string>, l: seq<string>, c: seq<Event>, p: Option<Partition>)
    ensures Prepend(o, l, c, p).Some? <==> p.Some?
  {
  }

  lemma SplitsRest(quote: bool, rest: seq<string>, args: seq<string>)
    requires args == (if quote then ["--"] else []) + rest
    ensures Splits(Partition([], [], quote, rest, []), args)
  {
  }

  lemma {:induction false} UseIsStable(t: Table, args: seq<string>, u: Use)
    requires args != [] && u.used <= |args| - 1 && InGroups(t, u.calls)
    requires AfterUse(t, [args[0]], u, args[1..]).Some?
    ensures Splits(AfterUse(t, [args[0]], u, args[1..]).value, args)
    decreases |args|, 0
  {
    hide Scan, Splits;
    var taken, tail := [args[0]] + args[1..][..u.used], args[1..][u.used..];
    ScanIsStable(t, tail);
    SplitsTaken(taken, u.calls, Scan(t, tail).value, tail);
    assert args == taken + tail;
  }

  // ----- parsing the rearranged line again -----

  lemma {:induction false} ClusterIsLocal(t: Table, chars: string, rest: seq<string>, rest': seq<string>)
    requires chars != ""
    requires var u := Cluster(t, chars, rest); u.fault.Ok? && u.used <= |rest'| && rest[..u.used] == rest'[..u.used]
    ensures Cluster(t, chars, rest') == Cluster(t, chars, rest)
    decreases |chars|
  {
    var h := HeadOf(t, chars, rest);
    HeadIsLocal(t, chars, rest, rest');
    hide HeadOf;
    if h.Head? && h.tail != "" {
      ClusterIsLocal(t, h.tail, rest, rest');
    }
  }

  lemma HeadIsLocal(t: Table, chars: string, rest: seq<string>, rest': seq<string>)
    requires chars != "" && HeadOf(t, chars, rest).Head?
    requires var n := HeadOf(t, chars, rest).used; n <= |rest'| && rest[..n] == rest'[..n]
    ensures HeadOf(t, chars, rest') == HeadOf(t, chars, rest)
  {
    if HeadOf(t, chars, rest).used == 1 {
      assert rest[0] == rest[..1][0] == rest'[..1][0];
    }
  }

  lemma LongIsLocal(t: Table, text: string, rest: seq<string>, rest': seq<string>)
    requires var u := LongUse(t, text, rest); u.fault.Ok? && u.used <= |rest'| && rest[..u.used] == rest'[..u.used]
    ensures LongUse(t, text, rest') == LongUse(t, text, rest)
  {
    if LongUse(t, text, rest).used == 1 {
      assert rest[0] == rest[..1][0] == rest'[..1][0];
    }
  }

  /** What the option `arg` uses of the elements after it. */
  ghost function UseOf(t: Table, arg: string, rest: seq<string>): (u: Use)
    ensures u.used <= |rest| && InGroups(t, u.calls)
  {
    match Classify(t, arg)
    case Long(text) => LongUse(t, text, rest)
    case Short(chars) => Cluster(t, chars, rest)
    case _ => Use([], 0, Ok)
  }

  ghost predicate IsOption(t: Table, arg: string) {
    var k := Classify(t, arg);
    k.Long? || k.Short?
  }

  lemma ScanOption(t: Table, arg: string, rest: seq<string>)
    requires IsOption(t, arg)
    ensures Scan(t, [arg] + rest) == AfterUse(t, [arg], UseOf(t, arg, rest), rest)
  {
    assert ([arg] + rest)[1..] == rest;
    hide Classify, LongUse, Cluster, AfterUse;
  }

  lemma UseIsLocal(t: Table, arg: string, rest: seq<string>, more: seq<string>)
    requires IsOption(t, arg) && UseOf(t, arg, rest).fault.Ok?
    ensures UseOf(t, arg, rest[..UseOf(t, arg, rest).used] + more) == UseOf(t, arg, rest)
  {
    var again := rest[..UseOf(t, arg, rest).used] + more;
    match Classify(t, arg)
    case Long(text) => LongIsLocal(t, text, rest, again);
    case Short(chars) => ClusterIsLocal(t, chars, rest, again);
  }

  /** The options of `p`, followed by anything, are the same options again. */
  ghost predicate Again(t: Table, p: Option<Partition>, tail: seq<string>) {
    p.Some? ==> Scan(t, p.value.options + tail) == Prepend(p.value.options, [], p.value.calls, Scan(t, tail))
  }

  lemma {:induction false} OptionsAgain(t: Table, args: seq<string>, tail: seq<string>)
    requires t.ordering.Permute?
    ensures Again(t, Scan(t, args), tail)
    decreases |args|
  {
    if args == [] || Classify(t, args[0]).Quote? {
      PrependNothing(Scan(t, tail));
      assert [] + tail == tail;
    } else {
      var rest := args[1..];
      if Classify(t, args[0]).Plain? {
        hide Classify;
        OptionsAgain(t, rest, tail);
        var s := Scan(t, rest);
        if s.Some? {
          assert [] + s.value.options == s.value.options && [] + s.value.calls == s.value.calls;
        }
      } else {
        assert args == [args[0]] + rest;
        ScanOption(t, args[0], rest);
        OptionsAgain(t, rest[UseOf(t, args[0], rest).used..], tail);
        UseAgain(t, args[0], rest, tail);
      }
    }
  }

  lemma UseAgain(t: Table, arg: string, rest: seq<string>, tail: seq<string>)
    requires IsOption(t, arg) && Again(t, Scan(t, rest[UseOf(t, arg, rest).used..]), tail)
    ensures Again(t, AfterUse(t, [arg], UseOf(t, arg, rest), rest), tail)
  {
    hide UseOf, Scan, IsOption;
    var u := UseOf(t, arg, rest);
    var s := Scan(t, rest[u.used..]);
    if u.fault.Ok? && s.Some? {
      var q, taken, used := s.value, [arg] + rest[..u.used], rest[..u.used];
      var more := q.options + tail;
      UseIsLocal(t, arg, rest, more);
      ScanOption(t, arg, used + more);
      assert (used + more)[..u.used] == used && (used + more)[u.used..] == more;
      assert taken + q.options + tail == [arg] + (used + more);
      var none: seq<string> := [];
      PrependTwice(taken, q.options, none, none, u.calls, q.calls, Scan(t, tail));
      assert none + none == none;
    }
  }

  lemma {:induction false} PlainStaysPlain(t: Table, args: seq<string>)
    requires t.ordering.Permute? && Scan(t, args).Some?
    ensures forall arg :: arg in Scan(t, args).value.plain ==> Classify(t, arg).Plain?
    decreases |args|
  {
    if args != [] && !Classify(t, args[0]).Quote? {
      var rest := args[1..];
      if Classify(t, args[0]).Plain? {
        hide Classify;
        PlainStaysPlain(t, rest);
      } else {
        assert args == [args[0]] + rest;
        ScanOption(t, args[0], rest);
        hide Classify, Scan, UseOf;
        PlainStaysPlain(t, rest[UseOf(t, args[0], rest).used..]);
      }
    }
  }

  lemma {:induction false} PlainScans(t: Table, args: seq<string>)
    requires t.ordering.Permute? && forall arg :: arg in args ==> Classify(t, arg).Plain?
    ensures Scan(t, args) == Some(Partition([], args, false, [], []))
    decreases |args|
  {
    if args != [] {
      hide Classify;
      var rest := args[1..];
      assert args[0] in args && args == [args[0]] + rest;
      PlainScans(t, rest);
      assert Scan(t, args) == Prepend([], [args[0]], [], Scan(t, rest));
      var none: seq<string>, calls: seq<Event> := [], [];
      assert none + none == none && calls + calls == calls;
    }
  }

  /** The rearranged line makes the same calls and leaves the same arguments. */
  ghost predicate SameCalls(p: Partition, q: Option<Partition>) {
    q.Some? && q.value.calls == p.calls && q.value.plain + q.value.rest == p.plain + p.rest
  }

  lemma ArrangedScans(t: Table, args: seq<string>)
    requires t.ordering.Permute? && Scan(t, args).Some?
    ensures var p := Scan(t, args).value; SameCalls(p, Scan(t, Arranged(p)))
  {
    hide Scan;
    var p := Scan(t, args).value;
    var tail := (if p.quote then ["--"] else []) + p.plain + p.rest;
    assert Arranged(p) == p.options + tail;
    OptionsAgain(t, args, tail);
    TailScans(t, args, p, tail);
    assert p.calls + [] == p.calls && [] + Scan(t, tail).value.plain == Scan(t, tail).value.plain;
  }

  lemma SameEnd(t: Table, answer: Answer, p: Partition, q: Option<Partition>, m: Outcome, m': Outcome)
    requires SameCalls(p, q) && Follows(t, answer, [], [], Some(p), m) && Follows(t, answer, [], [], q, m')
    ensures m == m'
  {
    hide Deliver, Play;
    assert [] + p.plain + p.rest == p.plain + p.rest;
    assert [] + q.value.plain + q.value.rest == q.value.plain + q.value.rest;
  }

  /** Parsing the rearranged line has the same calls and the same end as parsing the line as it was given. */
  lemma RearrangingKeepsMeaning(t: Table, answer: Answer, args: seq<string>)
    requires t.ordering.Permute? && Scan(t, args).Some?
    ensures Meaning(t, answer, [], false, [], Arranged(Scan(t, args).value)) == Meaning(t, answer, [], false, [], args)
  {
    hide Scan, Meaning, Arranged, Follows, SameCalls;
    var p := Scan(t, args).value;
    MeaningFollowsScan(t, answer, [], [], args);
    MeaningFollowsScan(t, answer, [], [], Arranged(p));
    ArrangedScans(t, args);
    SameEnd(t, answer, p, Scan(t, Arranged(p)), Meaning(t, answer, [], false, [], args),
            Meaning(t, answer, [], false, [], Arranged(p)));
  }

  lemma TailScans(t: Table, args: seq<string>, p: Partition, tail: seq<string>)
    requires t.ordering.Permute? && Scan(t, args) == Some(p)
    requires tail == (if p.quote then ["--"] else []) + p.plain + p.rest
    ensures Scan(t, tail).Some?
    ensures var q := Scan(t, tail).value;
            q.options == [] && q.calls == [] && q.plain + q.rest == p.plain + p.rest && q.quote == p.quote
  {
    if p.quote {
      assert tail[0] == "--" && tail[1..] == p.plain + p.rest;
      assert Classify(t, tail[0]).Quote?;
    } else {
      NoQuoteNoRest(t, args);
      PlainStaysPlain(t, args);
      assert tail == p.plain;
      PlainScans(t, tail);
    }
  }

  lemma {:induction false} NoQuoteNoRest(t: Table, args: seq<string>)
    requires t.ordering.Permute? && Scan(t, args).Some? && !Scan(t, args).value.quote
    ensures Scan(t, args).value.rest == []
    decreases |args|
  {
    if args != [] && !Classify(t, args[0]).Quote? {
      var rest := args[1..];
      if Classify(t, args[0]).Plain? {
        NoQuoteNoRest(t, rest);
      } else {
        assert args == [args[0]] + rest;
        ScanOption(t, args[0], rest);
        hide Classify, Scan, UseOf;
        NoQuoteNoRest(t, rest[UseOf(t, args[0], rest).used..]);
      }
    }
  }

  // ----- an option's error taken for the end of the arguments -----

  /** An option that is malformed or not accepted is reported as an error, whatever the parsers and the line. */
  ghost predicate OptionErrorsShow(ordering: Ordering) {
    forall t: Table, answer: Answer, args: seq<string> | t.ordering == ordering ::
      var m := Meaning(t, answer, [], false, [], args);
      m.Stopped? ==> !m.suppressed
  }

  /** With ARGP_IN_ORDER, and only then, a short option its parser does not know can pass for the end of the line. */
  lemma ErrorsShowIffNotInOrder(ordering: Ordering)
    ensures OptionErrorsShow(ordering) <==> !ordering.ReturnInOrder?
  {
    if ordering.ReturnInOrder? {
      HiddenError();
    } else {
      forall t: Table, answer: Answer, args: seq<string> | t.ordering == ordering
        ensures var m := Meaning(t, answer, [], false, [], args);
                m.Stopped? ==> !m.suppressed
      {
        hide Meaning, Deliver, Scan, Play;
        MeaningFollowsScan(t, answer, [], [], args);
        var p := Scan(t, args);
        if p.Some? {
          DeliverEnds(t, answer, Play(t, answer, [], p.value.calls).calls, [] + p.value.plain + p.value.rest);
        }
      }
    }
  }

  lemma {:induction false} DeliverEnds(t: Table, answer: Answer, calls: seq<Event>, args: seq<string>)
    ensures Deliver(t, answer, calls, args).Finished?
    decreases |args|
  {
    if args != [] {
      var o := Offer(t, answer, calls, args[0], 0);
      if o.reply.Ok? {
        DeliverEnds(t, answer, o.calls, if o.all then [] else args[1..]);
      }
    }
  }

  /** An element that is looked at, and what it uses if it is an option. */
  datatype Item = Item(token: Token, use: Use)

  /** The elements of a line that are looked at, up to a malformed option or `--`. */
  ghost function Items(t: Table, args: seq<string>): seq<Item>
    decreases |args|
  {
    if args == [] || Classify(t, args[0]).Quote? then []
    else
      var k, rest := Classify(t, args[0]), args[1..];
      if k.Plain? then [Item(k, Use([], 0, Ok))] + Items(t, rest)
      else
        var u := UseOf(t, args[0], rest);
        [Item(k, u)] + (if u.fault.Ok? then Items(t, rest[u.used..]) else [])
  }

  /** Among the plain arguments and long options, the last one is a plain argument. */
  predicate PlainLast(items: seq<Item>, flag: bool) {
    if items == [] then flag
    else
      var last := items[|items| - 1].token;
      if last.Plain? then true else if last.Long? then false else PlainLast(items[..|items| - 1], flag)
  }

  lemma {:induction false} PlainLastFirst(x: Item, items: seq<Item>, flag: bool)
    ensures PlainLast([x] + items, flag)
            == PlainLast(items, if x.token.Plain? then true else if x.token.Long? then false else flag)
    decreases |items|
  {
    if items != [] {
      var n := |items| - 1;
      PlainLastFirst(x, items[..n], flag);
      assert ([x] + items)[..n + 1] == [x] + items[..n];
    } else {
      assert [x] + items == [x];
      assert [x][..0] == [];
    }
  }

  /** The option `x` stops the parse after the calls `calls`; `shown` says that a plain argument was offered last. */
  ghost predicate StopsAt(t: Table, answer: Answer, calls: seq<Event>, x: Item, shown: bool, m: Outcome) {
    && InGroups(t, x.use.calls)
    && var p := Play(t, answer, calls, x.use.calls);
       if p.reply.Ok? then !x.use.fault.Ok? && m == Stopped(p.calls, x.use.fault, false)
       else m == Stopped(p.calls, p.reply, p.reply.BadKey? && x.token.Short? && shown)
  }

  /**
    With ARGP_IN_ORDER a parse that stops, stops at some option; its error is suppressed exactly when its parser does
    not know it, it is short, and a plain argument came before it with no long option in between.
  */
  lemma {:induction false} SuppressedWhen(t: Table, answer: Answer, calls: seq<Event>, flag: bool, args: seq<string>)
    returns (j: nat, before: seq<Event>)
    requires t.ordering.ReturnInOrder? && Meaning(t, answer, calls, flag, [], args).Stopped?
    ensures j < |Items(t, args)| && !Items(t, args)[j].token.Plain?
    ensures StopsAt(t, answer, before, Items(t, args)[j], PlainLast(Items(t, args)[..j], flag),
                    Meaning(t, answer, calls, flag, [], args))
    decreases |args|
  {
    OptionOrPlain(t, answer, calls, flag, args);
    hide Classify, Play, UseOf, Meaning, Offer;
    var k, rest := Classify(t, args[0]), args[1..];
    if k.Plain? {
      var o := Offer(t, answer, calls, args[0], 0);
      var j', before' := SuppressedWhen(t, answer, o.calls, true, rest);
      j, before := j' + 1, before';
      ItemsMore(Item(k, Use([], 0, Ok)), Items(t, rest), j', flag);
    } else {
      var u, flag' := UseOf(t, args[0], rest), if k.Long? then false else flag;
      var p := Play(t, answer, calls, u.calls);
      if p.reply.Ok? && u.fault.Ok? {
        var j', before' := SuppressedWhen(t, answer, p.calls, flag', rest[u.used..]);
        j, before := j' + 1, before';
        ItemsMore(Item(k, u), Items(t, rest[u.used..]), j', flag);
      } else {
        j, before := 0, calls;
        assert Items(t, args)[..0] == [];
      }
    }
  }

  /** A parse that stops has a plain argument accepted first, or an option. */
  lemma OptionOrPlain(t: Table, answer: Answer, calls: seq<Event>, flag: bool, args: seq<string>)
    requires t.ordering.ReturnInOrder? && Meaning(t, answer, calls, flag, [], args).Stopped?
    ensures args != [] && !Classify(t, args[0]).Quote?
    ensures Classify(t, args[0]).Plain? ==>
              var o := Offer(t, answer, calls, args[0], 0);
              Meaning(t, answer, calls, flag, [], args) == Meaning(t, answer, o.calls, true, [], args[1..])
    ensures !Classify(t, args[0]).Plain? ==>
              Meaning(t, answer, calls, flag, [], args)
              == AfterCalls(t, answer, calls, if Classify(t, args[0]).Long? then false else flag, [],
                            UseOf(t, args[0], args[1..]), args[1..])
  {
    hide Classify, Deliver, Offer, Cluster, LongUse, Play;
    DeliverEnds(t, answer, calls, []);
    if args != [] {
      var o := Offer(t, answer, calls, args[0], 0);
      DeliverEnds(t, answer, calls, [] + args[1..]);
      DeliverEnds(t, answer, o.calls, []);
      assert Meaning(t, answer, o.calls, true, [], []) == Deliver(t, answer, o.calls, []);
    }
  }

  lemma ItemsMore(x: Item, items: seq<Item>, j: nat, flag: bool)
    requires j < |items|
    ensures ([x] + items)[j + 1] == items[j]
    ensures PlainLast(([x] + items)[..j + 1], flag)
            == PlainLast(items[..j], if x.token.Plain? then true else if x.token.Long? then false else flag)
  {
    assert ([x] + items)[..j + 1] == [x] + items[..j];
    PlainLastFirst(x, items[..j], flag);
  }

  const X_OPTION := ArgpOption(None, 'x' as int, false, false, false, false, false)

  /** One group with the option -x, whose parser takes arguments but does not know -x. */
  const X_TABLE := Table([Group([X_OPTION], true)], ReturnInOrder, false, "")

  function XAnswer(calls: seq<Event>, ev: Event): Reply {
    if ev.OptionKey? then BadKey else Ok
  }

  lemma XCluster()
    ensures Cluster(X_TABLE, "x", []) == Use([OptionKey(0, 'x' as int, None)], 0, Ok)
    ensures Classify(X_TABLE, "-x") == Short("x") && Classify(X_TABLE, "a") == Plain
  {
    assert X_TABLE.groups[..0] == [] && Flat(X_TABLE.groups[..0]) == [];
    assert Flat(X_TABLE.groups) == [Ref(0, 0, X_OPTION)];
    assert FirstKey([Ref(0, 0, X_OPTION)][..0], 'x' as int) == None;
    assert FirstKey(Flat(X_TABLE.groups), 'x' as int) == Some(Ref(0, 0, X_OPTION));
    assert "-x"[1..] == "x" && "x"[1..] == "";
  }

  /** On the line `a -x' the refusal of -x is suppressed. */
  lemma HiddenError()
    ensures !OptionErrorsShow(ReturnInOrder)
  {
    var t, line, seen := X_TABLE, ["a", "-x"], [Arg(0, "a")];
    XCluster();
    hide Cluster, Classify;
    assert Offer(t, XAnswer, [], "a", 0) == Offered([] + seen, Ok, false);
    assert line[1..] == ["-x"] && ["-x"][1..] == [] && [] + seen == seen;
    var u := Cluster(t, "x", []);
    assert Meaning(t, XAnswer, [], false, [], line) == AfterPlain(t, XAnswer, [], false, [], line);
    assert Meaning(t, XAnswer, seen, true, [], ["-x"]) == AfterCalls(t, XAnswer, seen, true, [], u, []);
    assert Meaning(t, XAnswer, [], false, [], line) == Meaning(t, XAnswer, seen, true, [], ["-x"]);
    assert Play(t, XAnswer, seen, u.calls).reply.BadKey?;
  }
}
