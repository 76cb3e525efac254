/** The parse loop of argp: it permutes argv in place and hands every element to the right parser. */
module ArgpParser {
  import opened Common
  import opened ArgpOptions
  import opened ArgpExchange
  import opened ArgpScan
  import opened ArgpMeaning
  import opened ArgpState

  /** struct parser, with the calls made so far. */
  class Parser {
    const table: Table
    const answer: Answer
    const argv: array<string>
    ghost const line: seq<string>
    ghost const start: nat
    var next: nat
    var first: nat
    var last: nat
    var quoted: nat
    var argsOnly: bool
    var nextchar: Option<string>
    var argEbadkey: bool
    var log: seq<Event>

    ghost function Now(): State
      reads this, argv
    {
      State(table, answer, line, start, argv[..], next, first, last, quoted, argsOnly, nextchar, argEbadkey, log)
    }

    /** The short options of the current cluster that are still to be parsed. */
    ghost function Waiting(): nat
      reads this
    {
      if nextchar.Some? then |nextchar.value| else 0
    }

    constructor (table: Table, answer: Answer, argv: array<string>, start: nat)
      requires start <= argv.Length
      ensures this.argv == argv && Now() == Init(table, answer, argv[..], start)
    {
      this.table, this.answer, this.argv := table, answer, argv;
      this.line, this.start, this.next := argv[..], start, start;
      first, last, quoted, argsOnly, nextchar, argEbadkey, log := 0, 0, 0, false, None, false, [];
    }

    // ----- calls of the user's parsers -----

    /** group_parse. */
    method GroupParse(ev: Event) returns (err: Reply)
      requires ev.group < |table.groups|
      modifies `log
      ensures Played(log, err) == Call(table, answer, old(log), ev)
    {
      if !table.groups[ev.group].hasParser {
        return BadKey;
      }
      err := answer(log, ev);
      log := log + [ev];
    }

    /** parser_parse_arg. */
    method ParseArg(val: string) returns (err: Reply)
      requires next < argv.Length
      modifies `log, `next
      ensures var o := Offer(table, answer, old(log), val, 0);
              && log == o.calls && err == o.reply
              && next == if err.Ok? && o.all then argv.Length else if o.all then old(next) else old(next) + 1
    {
      var index, all, g := next, true, 0;
      err := BadKey;
      while g < |table.groups| && err.BadKey?
        invariant g <= |table.groups|
        invariant var o := Offer(table, answer, old(log), val, 0);
                  if err.BadKey? then o == Offer(table, answer, log, val, g) && all
                  else o == Offered(log, err, all)
        invariant next == if all then index else index + 1
      {
        next, all := next + 1, false;
        err := GroupParse(Arg(g, val));
        if err.BadKey? {
          next, all := next - 1, true;
          err := GroupParse(Args(g));
        }
        g := g + 1;
      }
      if err.Ok? && all {
        next := argv.Length;
      }
    }

    // ----- options -----

    /** The short option branch of parser_parse_next, up to the call: find the option and its value. */
    method TakeShort() returns (h: Head)
      requires nextchar.Some? && nextchar.value != "" && next <= argv.Length
      modifies `next, `nextchar, `argEbadkey
      ensures h == HeadOf(table, old(nextchar.value), argv[old(next)..])
      ensures h.Head? ==> next == old(next) + h.used && argEbadkey == old(argEbadkey)
      ensures h.Head? ==> nextchar == if h.tail == "" then None else Some(h.tail)
      ensures h.Bad? ==> next == old(next) && (h.fault.BadKey? ==> !argEbadkey)
    {
      var c, tail := nextchar.value[0], nextchar.value[1..];
      if c as int >= 128 {
        return Bad(Abort);
      }
      var found := FindShortOption(table.groups, c as int);
      ShortInRange(table.groups, c as int);
      if found.None? {
        argEbadkey := false;
        return Bad(BadKey);
      }
      var r := found.value;
      nextchar := if tail == "" then None else Some(tail);
      if !r.opt.arg {
        return Head(OptionKey(r.group, r.opt.key, None), tail, 0);
      }
      var value := nextchar;
      nextchar := None;
      if value.Some? || r.opt.optional {
        return Head(OptionKey(r.group, r.opt.key, value), "", 0);
      }
      if next == argv.Length {
        argEbadkey := false;
        return Bad(BadKey);
      }
      next := next + 1;
      return Head(OptionKey(r.group, r.opt.key, Some(argv[next - 1])), "", 1);
    }

    method ParseShort() returns (err: Reply)
      requires Inv(Now()) && nextchar.Some?
      modifies `log, `next, `nextchar, `argEbadkey
      ensures if err.Ok? then Inv(Now()) else Ends(Now(), err)
      ensures err.Ok? ==> next >= old(next) && Waiting() < old(Waiting())
    {
      hide HeadOf, Call, Inv, Ends;
      ghost var s := Now();
      RestIsLine(s);
      var h := TakeShort();
      if h.Bad? {
        ShortBad(s, Now(), h);
        return h.fault;
      }
      err := GroupParse(h.call);
      if h.tail == "" {
        ShortLast(s, Now(), h, Played(log, err));
      } else {
        ShortMore(s, Now(), h, Played(log, err));
      }
    }

    /** The long option branch of parser_parse_next, up to the call. */
    method TakeLong(text: string) returns (u: Use)
      requires next < argv.Length
      modifies `next, `argEbadkey
      ensures u == LongUse(table, text, argv[old(next) + 1..]) && next == old(next) + 1 + u.used && !argEbadkey
      ensures if u.fault.Ok? then |u.calls| == 1 else u.fault.BadKey? && u.used == 0
    {
      next, argEbadkey := next + 1, false;
      var found := FindLongOption(table.groups, text);
      LongInRange(table.groups, text);
      var value := Value(text);
      if found.None? || (value.Some? && !found.value.opt.arg) {
        return Use([], 0, BadKey);
      }
      var r, used := found.value, 0;
      if r.opt.arg && value.None? && !r.opt.optional {
        if next == argv.Length {
          return Use([], 0, BadKey);
        }
        value, next, used := Some(argv[next]), next + 1, 1;
      }
      return Use([OptionKey(r.group, r.opt.key, value)], used, Ok);
    }

    method ParseLong(text: string) returns (err: Reply)
      requires At(Now(), Long(text))
      modifies `log, `next, `argEbadkey
      ensures if err.Ok? then Inv(Now()) else Ends(Now(), err)
      ensures err.Ok? ==> next > old(next)
    {
      hide LongUse, Call, Inv, Ends, Classify;
      ghost var s := Now();
      RestIsLine(s);
      assert s.args[s.next..][1..] == s.args[s.next + 1..] && s.line[s.next..][1..] == s.line[s.next + 1..];
      var u := TakeLong(text);
      if !u.fault.Ok? {
        LongBad(s, Now(), text);
        return u.fault;
      }
      assert u.calls[0] in u.calls && u.calls == [u.calls[0]];
      err := GroupParse(u.calls[0]);
      LongDone(s, Now(), text, u.calls[0], u.used, Played(log, err));
    }

    // ----- plain arguments and the end of the options -----

    /** exchange. */
    method MoveSkipped()
      requires first <= last <= next <= argv.Length
      modifies argv, `first, `last
      ensures argv[..] == Rotated(old(argv[..]), old(first), old(last), next)
      ensures first == old(first) + (next - old(last)) && last == next
    {
      Exchange(argv, first, last, next);
      first, last := first + (next - last), next;
    }

    method ParsePlain() returns (err: Reply)
      requires At(Now(), Plain)
      modifies this, argv
      ensures if err.Ok? then Inv(Now()) else Ends(Now(), err)
      ensures err.Ok? ==> (!old(argsOnly) && argsOnly) || (argsOnly == old(argsOnly) && next > old(next))
    {
      hide Inv, Ends, Classify, Offer, Rotated;
      ghost var s := Now();
      assert Valid(s) by {
        RestIsLine(s);
      }
      match table.ordering
      case Permute =>
        if first == last {
          first, last := next, next;
        } else if last != next {
          MoveSkipped();
        } else {
          RotatedTrivially(s.args, first, last, next);
        }
        assert last == next;
        next := next + 1;
        last := next;
        if s.first == s.last {
          PlainStart(s, Now());
        } else {
          PlainMore(s, Now());
        }
        return Ok;
      case RequireOrder =>
        argsOnly := true;
        PlainRequire(s, Now());
        return Ok;
      case ReturnInOrder =>
        argEbadkey := true;
        err := ParseArg(argv[next]);
        HandOutInOrder(s, Offer(table, answer, s.log, s.args[s.next], 0));
    }

    method ParseQuote()
      requires At(Now(), Quote)
      modifies this, argv
      ensures Inv(Now()) && argsOnly
    {
      hide Inv, Classify, Rotated;
      ghost var s := Now();
      assert Valid(s) by {
        RestIsLine(s);
      }
      next := next + 1;
      assert last != next;
      if first != last {
        MoveSkipped();
        next, quoted := first, first;
        first, last := 0, 0;
        argsOnly := true;
        QuoteSkipped(s, Now());
      } else {
        quoted := next;
        argsOnly := true;
        QuoteStart(s, Now());
      }
    }

    // ----- the loop -----

    /** parser_parse_next. Its guards against a parser that moves `next` back never fire. */
    method ParseNext() returns (err: Reply)
      requires Inv(Now())
      modifies this, argv
      ensures if err.Ok? then Inv(Now()) else Ends(Now(), err)
      ensures err.Ok? ==> || (!old(argsOnly) && argsOnly)
                          || (argsOnly == old(argsOnly) && next > old(next))
                          || (argsOnly == old(argsOnly) && next == old(next) && Waiting() < old(Waiting()))
    {
      hide Ahead, Placed, Whole, Ends, Classify, Offer, Rotated, SameElements;
      ghost var s := Now();
      assert quoted <= next && last <= next && first <= next;
      if nextchar.Some? {
        err := ParseShort();
      } else if argsOnly {
        argEbadkey := true;
        if next < argv.Length {
          err := ParseArg(argv[next]);
          HandOut(s, Offer(table, answer, s.log, s.args[s.next], 0));
        } else {
          HandedOut(s, Now());
          err := BadKey;
        }
      } else if next == argv.Length {
        argEbadkey := true;
        if first == last {
          EndOfLine(s, Now());
          return BadKey;
        }
        MoveSkipped();
        next := first;
        first, last := 0, 0;
        argsOnly := true;
        EndSkipped(s, Now());
        err := Ok;
      } else {
        match Classify(table, argv[next])
        case Plain => err := ParsePlain();
        case Quote =>
          ParseQuote();
          err := Ok;
        case Long(text) => err := ParseLong(text);
        case Short(chars) =>
          next, nextchar := next + 1, Some(chars);
          ShortStart(s, Now(), chars);
          err := Ok;
      }
    }

    /** The loop of argp_parse: it always ends, as the meaning of the command line says. */
    method Parse() returns (err: Reply)
      requires Inv(Now())
      modifies this, argv
      ensures !err.Ok? && Ends(Now(), err)
    {
      err := Ok;
      while err.Ok?
        invariant if err.Ok? then Inv(Now()) else Ends(Now(), err)
        decreases err.Ok?, !argsOnly, argv.Length - next, Waiting()
      {
        hide Ahead, Placed, Whole, Ends;
        err := ParseNext();
      }
    }
  }

  /**
    argp_parse without its initialisation and its final calls: the calls of the user's parsers are those the
    command line means, and argv holds the options first, then the plain arguments, each in the order given.
  */
  method ArgpParse(table: Table, answer: Answer, argv: array<string>, start: nat)
    returns (calls: seq<Event>, err: Reply, suppressed: bool, next: nat)
    requires start <= argv.Length
    modifies argv
    ensures var line := old(argv[..]);
            && next <= argv.Length && multiset(argv[..]) == multiset(line)
            && match Meaning(table, answer, [], false, [], line[start..]) {
                 case Stopped(c, reply, s) => c == calls && reply == err && s == suppressed
                 case Finished(c, reply, left) =>
                   && c == calls && reply == err && suppressed == err.BadKey? && left == argv.Length - next
                   && (table.ordering.ReturnInOrder? ==> argv[..] == line)
                   && (!table.ordering.ReturnInOrder? ==>
                         var p := Scan(table, line[start..]);
                         p.Some? && argv[..] == line[..start] + Arranged(p.value))
               }
  {
    hide Meaning, Scan;
    var parser := new Parser(table, answer, argv, start);
    InitInv(table, answer, argv[..], start);
    err := parser.Parse();
    calls, suppressed, next := parser.log, parser.argEbadkey && err.BadKey?, parser.next;
  }
}
