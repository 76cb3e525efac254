/** The state of argp's parse loop, what every step of it keeps, and how it ends. */
module ArgpState {
  import opened Common
  import opened ArgpOptions
  import opened ArgpExchange
  import opened ArgpScan
  import opened ArgpMeaning

  /** struct parser: `args` is argv as it is now, `line` as it was, `start` where parsing began. */
  datatype State = State(t: Table, answer: Answer, line: seq<string>, start: nat, args: seq<string>, next: nat,
                         first: nat, last: nat, quoted: nat, argsOnly: bool, nextchar: Option<string>, flag: bool,
                         log: seq<Event>)

  function Init(t: Table, answer: Answer, line: seq<string>, start: nat): State {
    State(t, answer, line, start, line, start, 0, 0, 0, false, None, false, [])
  }

  // ----- the invariant -----

  ghost predicate SameElements(a: seq<string>, b: seq<string>) {
    multiset(a) == multiset(b)
  }

  /** The assertions of the C code, and the ranges of the indices. */
  ghost predicate Valid(s: State) {
    && |s.line| == |s.args| && s.start <= s.next <= |s.args| && s.quoted <= s.next && s.first <= s.last <= s.next
    && (!s.argsOnly ==> s.quoted == 0)
    && (s.nextchar.Some? ==> !s.argsOnly && s.nextchar.value != "")
    && (s.first < s.last ==> !s.argsOnly && s.start <= s.first && s.t.ordering.Permute?)
    && (s.flag && !s.argsOnly ==> s.t.ordering.ReturnInOrder?)
    && SameElements(s.args, s.line)
  }

  /** The elements that were options or their values. */
  ghost function Taken(s: State): seq<string>
    requires Valid(s)
  {
    if s.first == s.last then s.args[s.start..s.next] else s.args[s.start..s.first] + s.args[s.last..s.next]
  }

  ghost function Skipped(s: State): seq<string>
    requires Valid(s)
  {
    s.args[s.first..s.last]
  }

  /** The meaning of the whole command line. */
  ghost function Whole(s: State): Outcome
    requires s.start <= |s.line|
  {
    Meaning(s.t, s.answer, [], false, [], s.line[s.start..])
  }

  /** The meaning of what is still to come. */
  ghost function Ahead(s: State): Outcome
    requires Valid(s)
  {
    var rest := s.line[s.next..];
    if s.argsOnly then Deliver(s.t, s.answer, s.log, s.args[s.next..])
    else if s.nextchar.Some? then
      AfterCalls(s.t, s.answer, s.log, s.flag, Skipped(s), Cluster(s.t, s.nextchar.value, rest), rest)
    else Meaning(s.t, s.answer, s.log, s.flag, Skipped(s), rest)
  }

  /** The partition of what is still to come. */
  ghost function ScanAhead(s: State): Option<Partition>
    requires Valid(s)
  {
    var rest := s.line[s.next..];
    if s.nextchar.Some? then AfterUse(s.t, [], Cluster(s.t, s.nextchar.value, rest), rest) else Scan(s.t, rest)
  }

  /** Options and skipped arguments are where the partition of the whole line wants them. */
  ghost predicate Scanning(s: State)
    requires Valid(s)
  {
    && s.args[..s.start] == s.line[..s.start] && s.args[s.next..] == s.line[s.next..]
    && Scan(s.t, s.line[s.start..]) == Prepend(Taken(s), Skipped(s), s.log, ScanAhead(s))
  }

  /** The options are done and argv is rearranged. */
  ghost predicate Rearranged(s: State) {
    && s.start <= |s.line| && Scan(s.t, s.line[s.start..]).Some?
    && s.args == s.line[..s.start] + Arranged(Scan(s.t, s.line[s.start..]).value)
  }

  ghost predicate Placed(s: State)
    requires Valid(s)
  {
    if s.t.ordering.ReturnInOrder? then s.args == s.line
    else if s.argsOnly then Rearranged(s)
    else Scanning(s)
  }

  ghost predicate Inv(s: State) {
    Valid(s) && Whole(s) == Ahead(s) && Placed(s)
  }

  /** The parse ends with `err`, as the meaning of the command line says. */
  ghost predicate Ends(s: State, err: Reply) {
    && s.start <= |s.line| && s.next <= |s.args| && SameElements(s.args, s.line)
    && match Whole(s) {
         case Stopped(calls, reply, suppressed) =>
           calls == s.log && reply == err && suppressed == (s.flag && err.BadKey?)
         case Finished(calls, reply, left) =>
           && calls == s.log && reply == err && s.flag && left == |s.args| - s.next
           && (if s.t.ordering.ReturnInOrder? then s.args == s.line else Rearranged(s))
       }
  }

  lemma InitInv(t: Table, answer: Answer, line: seq<string>, start: nat)
    requires start <= |line|
    ensures Inv(Init(t, answer, line, start))
  {
    var s := Init(t, answer, line, start);
    PrependNothing(Scan(t, line[start..]));
    assert Taken(s) == [] && Skipped(s) == [];
  }

  /** The next `n` elements belong to an option. */
  lemma Advance(s: State, s': State, n: nat)
    requires Valid(s) && s.next + n <= |s.args|
    requires s' == s.(next := s.next + n, nextchar := s'.nextchar, flag := s'.flag, log := s'.log) && Valid(s')
    ensures Skipped(s') == Skipped(s) && Skipped(s) + [] == Skipped(s)
    ensures Taken(s') == Taken(s) + s.args[s.next..][..n]
    ensures s.line[s.next..][n..] == s'.line[s'.next..] && s.args[s.next..][n..] == s'.args[s'.next..]
  {
  }

  lemma RestIsLine(s: State)
    requires Inv(s) && (s.nextchar.Some? || !s.argsOnly)
    ensures Valid(s) && s.args[s.next..] == s.line[s.next..]
  {
    hide Scan, Prepend, Meaning;
  }

  // ----- short options -----

  lemma ShortBad(s: State, s': State, h: Head)
    requires Inv(s) && s.nextchar.Some? && h == HeadOf(s.t, s.nextchar.value, s.line[s.next..]) && h.Bad?
    requires s' == s.(nextchar := s'.nextchar, flag := s'.flag) && (h.fault.BadKey? ==> !s'.flag)
    ensures Ends(s', h.fault)
  {
    hide SameElements, HeadOf, Placed, Scan, AfterUse, Meaning, Deliver;
  }

  lemma ShortLast(s: State, s': State, h: Head, p: Played)
    requires Inv(s) && s.nextchar.Some? && h == HeadOf(s.t, s.nextchar.value, s.line[s.next..])
    requires h.Head? && h.tail == "" && p == Call(s.t, s.answer, s.log, h.call)
    requires s' == s.(next := s.next + h.used, nextchar := None, log := p.calls)
    ensures if p.reply.Ok? then Inv(s') else Ends(s', p.reply)
  {
    hide SameElements, HeadOf, Scan, AfterUse, Meaning, Deliver, Prepend, Play, AfterCalls, Rearranged;
    var rest := s.line[s.next..];
    LastCall(s.t, s.answer, s.log, s.flag, Skipped(s), h.call, h.used, rest);
    if p.reply.Ok? {
      PrependTwice(Taken(s), rest[..h.used], Skipped(s), [], s.log, [h.call], Scan(s.t, rest[h.used..]));
      Advance(s, s', h.used);
    }
  }

  lemma ShortMore(s: State, s': State, h: Head, p: Played)
    requires Inv(s) && s.nextchar.Some? && h == HeadOf(s.t, s.nextchar.value, s.line[s.next..])
    requires h.Head? && h.tail != "" && p == Call(s.t, s.answer, s.log, h.call)
    requires s' == s.(nextchar := Some(h.tail), log := p.calls)
    ensures if p.reply.Ok? then Inv(s') else Ends(s', p.reply)
  {
    hide SameElements, HeadOf, Scan, AfterUse, Meaning, Deliver, Prepend, Play, AfterCalls, Rearranged;
    var rest := s.line[s.next..];
    var u := Cluster(s.t, h.tail, rest);
    MoreCalls(s.t, s.answer, s.log, s.flag, Skipped(s), h.call, u, rest);
    if p.reply.Ok? {
      PrependTwice(Taken(s), [], Skipped(s), [], s.log, [h.call], AfterUse(s.t, [], u, rest));
      Advance(s, s', 0);
    }
  }

  /** The next element of argv is looked at. */
  ghost predicate At(s: State, k: Token) {
    Inv(s) && !s.argsOnly && s.nextchar.None? && s.next < |s.args| && k == Classify(s.t, s.args[s.next])
  }

  lemma AtLine(s: State, k: Token)
    requires At(s, k)
    ensures s.args[s.next] == s.line[s.next] && s.line[s.next..] == [s.args[s.next]] + s.line[s.next + 1..]
    ensures s.line[s.next..][1..] == s.line[s.next + 1..] && s.args[s.next..][..1] == [s.args[s.next]]
  {
    hide SameElements, Scan, Meaning, Prepend, Classify;
    if !s.t.ordering.ReturnInOrder? {
      assert s.args[s.next..][0] == s.line[s.next..][0];
    }
  }

  lemma ShortStart(s: State, s': State, chars: string)
    requires At(s, Short(chars)) && s' == s.(next := s.next + 1, nextchar := Some(chars)) && chars != ""
    ensures Inv(s')
  {
    AtLine(s, Short(chars));
    var rest := s.line[s.next + 1..];
    var u := Cluster(s.t, chars, rest);
    hide SameElements, Cluster, Classify, Play, Deliver, AfterCalls, Prepend;
    Advance(s, s', 1);
    TakenFirst(s.t, s.args[s.next], u, rest);
    PrependTwice(Taken(s), [s.args[s.next]], Skipped(s), [], s.log, [], AfterUse(s.t, [], u, rest));
    assert s.log + [] == s.log;
  }

  lemma TakenFirst(t: Table, arg: string, u: Use, rest: seq<string>)
    requires u.used <= |rest| && InGroups(t, u.calls)
    ensures AfterUse(t, [arg], u, rest) == Prepend([arg], [], [], AfterUse(t, [], u, rest))
  {
    hide SameElements, Scan;
    var none: seq<string>, s := [], Scan(t, rest[u.used..]);
    assert [arg] + (none + rest[..u.used]) == [arg] + rest[..u.used] && none + none == none && [] + u.calls == u.calls;
    PrependTwice([arg], none + rest[..u.used], none, none, [], u.calls, s);
  }

  // ----- long options -----

  lemma LongAhead(s: State, text: string)
    requires At(s, Long(text))
    ensures s.args[s.next..] == s.line[s.next..]
    ensures var rest := s.line[s.next + 1..];
            var u := LongUse(s.t, text, rest);
            && Whole(s) == AfterCalls(s.t, s.answer, s.log, false, Skipped(s), u, rest)
            && (!s.t.ordering.ReturnInOrder? ==> ScanAhead(s) == AfterUse(s.t, [s.args[s.next]], u, rest))
  {
    AtLine(s, Long(text));
    hide LongUse, Prepend, AfterUse, AfterCalls, SameElements;
  }

  lemma LongBad(s: State, s': State, text: string)
    requires At(s, Long(text)) && s' == s.(next := s.next + 1, flag := false)
    requires !LongUse(s.t, text, s.line[s.next + 1..]).fault.Ok?
    ensures Ends(s', BadKey)
  {
    LongAhead(s, text);
    hide Scan, Scanning, Meaning, SameElements;
    assert LongUse(s.t, text, s.line[s.next + 1..]) == Use([], 0, BadKey);
  }

  lemma LongDone(s: State, s': State, text: string, call: Event, used: nat, p: Played)
    requires At(s, Long(text)) && LongUse(s.t, text, s.line[s.next + 1..]) == Use([call], used, Ok)
    requires p == Call(s.t, s.answer, s.log, call)
    requires s' == s.(next := s.next + 1 + used, flag := false, log := p.calls)
    ensures if p.reply.Ok? then Inv(s') else Ends(s', p.reply)
  {
    hide LongUse, Cluster, Classify, Scan, AfterUse, Meaning, Deliver, Prepend, Play, AfterCalls, Rearranged;
    hide SameElements;
    LongAhead(s, text);
    var rest, u := s.line[s.next + 1..], Use([call], used, Ok);
    LastCall(s.t, s.answer, s.log, false, Skipped(s), call, used, rest);
    if p.reply.Ok? {
      Advance(s, s', 1 + used);
      assert rest[used..] == s'.line[s'.next..];
      if !s.t.ordering.ReturnInOrder? {
        LongScan(s, [s.args[s.next]] + rest[..used], u, rest);
      }
    }
  }

  lemma LongScan(s: State, taken: seq<string>, u: Use, rest: seq<string>)
    requires Inv(s) && !s.argsOnly && s.nextchar.None? && s.next < |s.args| && !s.t.ordering.ReturnInOrder?
    requires rest == s.line[s.next + 1..] && u.used <= |rest| && InGroups(s.t, u.calls) && u.fault.Ok?
    requires ScanAhead(s) == AfterUse(s.t, [s.args[s.next]], u, rest) && taken == [s.args[s.next]] + rest[..u.used]
    ensures taken == s.args[s.next..][..1 + u.used]
    ensures Scan(s.t, s.line[s.start..])
            == Prepend(Taken(s) + taken, Skipped(s) + [], s.log + u.calls, Scan(s.t, rest[u.used..]))
  {
    assert s.args[s.next..][1..] == s.line[s.next..][1..] == rest;
    assert s.args[s.next..] == [s.args[s.next]] + rest;
    assert ScanAhead(s) == Prepend(taken, [], u.calls, Scan(s.t, rest[u.used..]));
    hide Scan, AfterUse, Prepend, Meaning, SameElements;
    PrependTwice(Taken(s), taken, Skipped(s), [], s.log, u.calls, Scan(s.t, rest[u.used..]));
  }

  // ----- plain arguments -----

  /** exchange moves the skipped arguments behind everything up to `top`. */
  lemma Exchanged(s: State, top: nat)
    requires Valid(s) && s.first < s.last && s.next <= top <= |s.args|
    ensures var a := Rotated(s.args, s.first, s.last, top);
            var mid := s.first + (top - s.last);
            && a[..s.start] == s.args[..s.start] && a[s.start..mid] == Taken(s) + s.args[s.next..top]
            && a[mid..top] == Skipped(s) && a[top..] == s.args[top..] && SameElements(a, s.line)
  {
    RotatedSame(s.args, s.line, s.first, s.last, top);
    hide SameElements;
    var f, l := s.first, s.last;
    RotatedSlices(s.args, f, l, top);
    var a, mid := Rotated(s.args, f, l, top), f + (top - l);
    assert a[s.start..mid] == a[..f][s.start..] + a[f..mid];
    assert s.args[l..top] == s.args[l..s.next] + s.args[s.next..top];
    assert a[..s.start] == a[..f][..s.start] && s.args[..s.start] == s.args[..f][..s.start];
    assert a[..f][s.start..] == s.args[..f][s.start..] == s.args[s.start..f];
  }

  lemma RotatedSame(a: seq<string>, b: seq<string>, f: nat, l: nat, top: nat)
    requires SameElements(a, b) && f <= l <= top <= |a|
    ensures SameElements(Rotated(a, f, l, top), b)
  {
    assert a == a[..f] + a[f..l] + a[l..top] + a[top..];
  }

  lemma PlainAhead(s: State)
    requires At(s, Plain) && s.t.ordering.Permute?
    ensures var skipped, tail := Skipped(s) + [s.args[s.next]], s.line[s.next + 1..];
            && Whole(s) == Meaning(s.t, s.answer, s.log, s.flag, skipped, tail)
            && Scan(s.t, s.line[s.start..]) == Prepend(Taken(s), skipped, s.log, Scan(s.t, tail))
  {
    AtLine(s, Plain);
    var rest := s.line[s.next..];
    assert Whole(s) == AfterPlain(s.t, s.answer, s.log, s.flag, Skipped(s), rest);
    assert Scan(s.t, rest) == Prepend([], [s.args[s.next]], [], Scan(s.t, rest[1..]));
    hide SameElements, Classify, Deliver, Prepend, Meaning, Scan;
    PrependTwice(Taken(s), [], Skipped(s), [s.args[s.next]], s.log, [], Scan(s.t, rest[1..]));
    assert Taken(s) + [] == Taken(s) && s.log + [] == s.log;
  }

  lemma PlainStart(s: State, s': State)
    requires At(s, Plain) && s.t.ordering.Permute? && s.first == s.last
    requires s' == s.(first := s.next, next := s.next + 1, last := s.next + 1)
    ensures Inv(s')
  {
    PlainAhead(s);
    hide SameElements, Classify, Deliver, Prepend, Meaning, Scan;
    assert Taken(s') == Taken(s) && Skipped(s') == Skipped(s) + [s.args[s.next]];
    assert s.args[s'.next..] == s.args[s.next..][1..] && s.line[s'.next..] == s.line[s.next..][1..];
  }

  lemma PlainMoved(s: State, s': State)
    requires Valid(s) && !s.argsOnly && s.nextchar.None? && s.first < s.last && s.next < |s.args|
    requires s' == s.(args := Rotated(s.args, s.first, s.last, s.next), first := s.first + (s.next - s.last),
                      next := s.next + 1, last := s.next + 1)
    ensures Valid(s') && Taken(s') == Taken(s) && Skipped(s') == Skipped(s) + [s.args[s.next]]
    ensures s'.args[..s.start] == s.args[..s.start] && s'.args[s'.next..] == s.args[s'.next..]
  {
    hide Rotated, SameElements;
    Exchanged(s, s.next);
    var a, b := s'.args, s.args;
    assert a[s.next] == a[s.next..][0] == b[s.next..][0];
    assert a[s.next + 1..] == a[s.next..][1..] == b[s.next..][1..] == b[s.next + 1..];
    assert a[s'.first..s.next + 1] == a[s'.first..s.next] + [a[s.next]];
    assert b[s.next..s.next] == [] && a[s'.last..s'.next] == [];
    assert a[s.start..s'.first] == Taken(s);
  }

  lemma PlainMore(s: State, s': State)
    requires At(s, Plain) && s.first < s.last
    requires s' == s.(args := Rotated(s.args, s.first, s.last, s.next), first := s.first + (s.next - s.last),
                      next := s.next + 1, last := s.next + 1)
    ensures Inv(s')
  {
    PlainAhead(s);
    PlainMoved(s, s');
    hide SameElements, Classify, Deliver, Prepend, Meaning, Scan, Rotated, Valid, Taken, Skipped;
    assert s.args[s.next..][1..] == s.args[s'.next..] && s.line[s'.next..] == s.line[s.next..][1..];
  }

  lemma RequireAhead(s: State)
    requires At(s, Plain) && s.t.ordering.RequireOrder?
    ensures Whole(s) == Deliver(s.t, s.answer, s.log, s.args[s.next..]) && s.args[..s.start] == s.line[..s.start]
    ensures Scan(s.t, s.line[s.start..]) == Some(Partition(Taken(s), [], false, s.args[s.next..], s.log))
  {
    AtLine(s, Plain);
    hide SameElements, Classify, Deliver;
    assert Whole(s) == AfterPlain(s.t, s.answer, s.log, s.flag, Skipped(s), s.line[s.next..]);
    assert Taken(s) + [] == Taken(s) && s.log + [] == s.log && Skipped(s) + [] == [];
  }

  lemma PlainRequire(s: State, s': State)
    requires At(s, Plain) && s.t.ordering.RequireOrder? && s' == s.(argsOnly := true)
    ensures Inv(s')
  {
    hide SameElements, Classify, Deliver, Scan, Scanning, Meaning, Prepend, Rearranged;
    RequireAhead(s);
    assert s.args == s.args[..s.start] + s.args[s.start..s.next] + s.args[s.next..];
    assert Taken(s) + [] == Taken(s) && [] + s.args[s.next..] == s.args[s.next..];
    RearrangedAs(s', Scan(s.t, s.line[s.start..]).value, []);
  }

  // ----- the end of the options -----

  lemma EndOfLine(s: State, s': State)
    requires Inv(s) && !s.argsOnly && s.nextchar.None? && s.next == |s.args| && s.first == s.last
    requires s' == s.(flag := true)
    ensures Ends(s', BadKey)
  {
    assert s.line[s.next..] == [] && Skipped(s) == [];
    hide SameElements, Offer, Call;
    if !s.t.ordering.ReturnInOrder? {
      assert s.args == s.args[..s.start] + Taken(s);
      var p := Scan(s.t, s.line[s.start..]).value;
      assert p.options == Taken(s) && p.plain == [] && !p.quote && p.rest == [];
    }
  }

  lemma RearrangedAs(s: State, p: Partition, dashes: seq<string>)
    requires s.start <= |s.line| && Scan(s.t, s.line[s.start..]) == Some(p) && dashes == if p.quote then ["--"] else []
    requires s.args == s.line[..s.start] + (p.options + dashes) + (p.plain + p.rest)
    ensures Rearranged(s)
  {
    hide Scan;
    assert p.options + dashes + (p.plain + p.rest) == Arranged(p);
  }

  /** Skipped arguments brought to the end of the options up to `top`. */
  lemma BroughtBack(s: State, top: nat)
    requires Valid(s) && s.first < s.last && s.next <= top <= |s.args|
    ensures var a, mid := Rotated(s.args, s.first, s.last, top), s.first + (top - s.last);
            && a == s.args[..s.start] + (Taken(s) + s.args[s.next..top]) + (Skipped(s) + s.args[top..])
            && a[mid..] == Skipped(s) + s.args[top..] && SameElements(a, s.line) && s.start <= mid <= |a| == |s.args|
  {
    Exchanged(s, top);
    var a, mid := Rotated(s.args, s.first, s.last, top), s.first + (top - s.last);
    hide SameElements, Rotated, Taken, Skipped;
    assert a[mid..] == a[mid..top] + a[top..];
    assert a == a[..s.start] + a[s.start..mid] + a[mid..];
  }

  lemma EndAhead(s: State)
    requires Inv(s) && !s.argsOnly && s.nextchar.None? && s.next == |s.args| && s.first < s.last
    ensures s.args[..s.start] == s.line[..s.start]
    ensures Whole(s) == Deliver(s.t, s.answer, s.log, Skipped(s))
    ensures Scan(s.t, s.line[s.start..]) == Some(Partition(Taken(s), Skipped(s), false, [], s.log))
  {
    hide Deliver, SameElements;
    assert s.line[s.next..] == [];
    var none: seq<string> := [];
    assert Skipped(s) + none == Skipped(s) && Taken(s) + none == Taken(s) && s.log + [] == s.log;
  }

  lemma EndSkipped(s: State, s': State)
    requires Inv(s) && !s.argsOnly && s.nextchar.None? && s.next == |s.args| && s.first < s.last
    requires s' == s.(args := Rotated(s.args, s.first, s.last, s.next), next := s.first + (s.next - s.last),
                      first := 0, last := 0, argsOnly := true, flag := true)
    ensures Inv(s')
  {
    hide Rotated, Scan, Scanning, Deliver, Meaning, Taken, Skipped, Cluster, AfterUse, SameElements, Rearranged;
    EndAhead(s);
    BroughtBack(s, s.next);
    assert s.args[s.next..] == [] && s.args[s.next..s.next] == [] && Skipped(s) + [] == Skipped(s);
    RearrangedAs(s', Scan(s.t, s.line[s.start..]).value, []);
    assert s'.args[s'.next..] == Skipped(s);
  }

  lemma QuoteAhead(s: State)
    requires At(s, Quote)
    ensures s.args[s.next] == "--" && s.args[s.next + 1..] == s.line[s.next + 1..]
    ensures Whole(s) == Deliver(s.t, s.answer, s.log, Skipped(s) + s.args[s.next + 1..])
    ensures !s.t.ordering.ReturnInOrder? ==>
              && s.args[..s.start] == s.line[..s.start]
              && Scan(s.t, s.line[s.start..])
                 == Some(Partition(Taken(s), Skipped(s), true, s.args[s.next + 1..], s.log))
  {
    AtLine(s, Quote);
    QuoteIs(s.t, s.args[s.next]);
    hide SameElements, Deliver, Classify;
    if !s.t.ordering.ReturnInOrder? {
      assert s.args[s.next..][1..] == s.line[s.next..][1..];
      var none: seq<string> := [];
      assert Skipped(s) + none == Skipped(s) && Taken(s) + none == Taken(s) && s.log + [] == s.log;
    }
  }

  lemma QuoteStart(s: State, s': State)
    requires At(s, Quote) && s.first == s.last
    requires s' == s.(next := s.next + 1, quoted := s.next + 1, argsOnly := true)
    ensures Inv(s')
  {
    hide Scan, Deliver, Meaning, Classify, Prepend, Cluster, AfterUse, SameElements, Rearranged;
    QuoteAhead(s);
    assert Skipped(s) + s.args[s'.next..] == s.args[s'.next..];
    if !s.t.ordering.ReturnInOrder? {
      QuoteInPlace(s, s');
    }
  }

  lemma QuoteInPlace(s: State, s': State)
    requires At(s, Quote) && s.first == s.last && !s.t.ordering.ReturnInOrder?
    requires s' == s.(next := s.next + 1, quoted := s.next + 1, argsOnly := true)
    ensures Rearranged(s')
  {
    hide Scan, Scanning, Ahead, Whole, Classify, SameElements, Rearranged;
    QuoteAhead(s);
    assert Taken(s) + ["--"] == s.args[s.start..s'.next];
    assert s.args == s.args[..s.start] + s.args[s.start..s'.next] + s.args[s'.next..];
    assert Skipped(s) + s.args[s'.next..] == s.args[s'.next..];
    RearrangedAs(s', Scan(s.t, s.line[s.start..]).value, ["--"]);
  }

  lemma QuoteSkipped(s: State, s': State)
    requires At(s, Quote) && s.first < s.last
    requires s' == s.(args := Rotated(s.args, s.first, s.last, s.next + 1), next := s.first + (s.next + 1 - s.last),
                      quoted := s.first + (s.next + 1 - s.last), first := 0, last := 0, argsOnly := true)
    ensures Inv(s')
  {
    hide Rotated, Scan, Scanning, Deliver, Meaning, Classify, Taken, Skipped, Cluster, AfterUse, Rearranged;
    hide SameElements;
    QuoteAhead(s);
    BroughtBack(s, s.next + 1);
    assert s.args[s.next..s.next + 1] == ["--"];
    RearrangedAs(s', Scan(s.t, s.line[s.start..]).value, ["--"]);
  }

  // ----- handing out arguments -----

  function AfterOffer(s: State, o: Offered): State {
    s.(flag := true, log := o.calls,
    next := if o.reply.Ok? && o.all then |s.args| else if o.all then s.next else s.next + 1)
  }

  lemma HandOut(s: State, o: Offered)
    requires Inv(s) && s.argsOnly && s.next < |s.args| && o == Offer(s.t, s.answer, s.log, s.args[s.next], 0)
    ensures if o.reply.Ok? then Inv(AfterOffer(s, o)) else Ends(AfterOffer(s, o), o.reply)
  {
    hide SameElements, Offer, Meaning, Scan, Arranged;
    var s' := AfterOffer(s, o);
    assert s.args[s.next..][1..] == s.args[s.next + 1..] && s.args[|s.args|..] == [];
    assert o.reply.Ok? ==> s'.args[s'.next..] == if o.all then [] else s.args[s.next..][1..];
  }

  lemma HandOutInOrder(s: State, o: Offered)
    requires At(s, Plain) && s.t.ordering.ReturnInOrder? && o == Offer(s.t, s.answer, s.log, s.args[s.next], 0)
    ensures if o.reply.Ok? then Inv(AfterOffer(s, o)) else Ends(AfterOffer(s, o), o.reply)
  {
    AtLine(s, Plain);
    assert Whole(s) == AfterPlain(s.t, s.answer, s.log, s.flag, Skipped(s), s.line[s.next..]);
    hide SameElements, Offer, Meaning, Scan, Classify;
    var s' := AfterOffer(s, o);
    assert s.line[|s.args|..] == [];
    assert o.reply.Ok? ==> s'.line[s'.next..] == if o.all then [] else s.line[s.next..][1..];
  }

  lemma HandedOut(s: State, s': State)
    requires Inv(s) && s.argsOnly && s.next == |s.args| && s' == s.(flag := true)
    ensures Ends(s', BadKey)
  {
    hide Meaning, Scan, Arranged, SameElements;
    assert s.args[s.next..] == [];
  }
}
