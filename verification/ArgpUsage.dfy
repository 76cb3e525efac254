/** The `Usage:' lines: an odometer over the alternative argument patterns of a tree of parsers. */
module ArgpUsage {
  import opened Common
  import opened ArgpTree

  // ----- alternatives -----

  /** The lines of a documentation string. */
  function Lines(doc: string): (r: seq<string>)
    ensures |r| >= 1 && (|r| > 1 <==> '\n' in doc)
  {
    if doc == "" then [""]
    else
      var rest := Lines(doc[1..]);
      if doc[0] == '\n' then [""] + rest else [[doc[0]] + rest[0]] + rest[1..]
  }

  /** Lines with newlines between them. */
  function JoinLines(lines: seq<string>): string {
    if lines == [] then "" else if |lines| == 1 then lines[0] else lines[0] + "\n" + JoinLines(lines[1..])
  }

  /** The lines make up the string, and none has a newline. */
  lemma {:induction false} LinesMakeUp(doc: string)
    ensures JoinLines(Lines(doc)) == doc && forall k :: 0 <= k < |Lines(doc)| ==> '\n' !in Lines(doc)[k]
  {
    if doc != "" {
      var rest, lines := Lines(doc[1..]), Lines(doc);
      LinesMakeUp(doc[1..]);
      assert doc == [doc[0]] + doc[1..];
      if doc[0] == '\n' {
        assert lines == [""] + rest;
        hide Lines;
        JoinFirst("", rest);
      } else {
        assert lines == [[doc[0]] + rest[0]] + rest[1..];
        hide Lines;
        JoinLonger(doc[0], rest);
      }
    }
  }

  lemma JoinFirst(line: string, rest: seq<string>)
    requires rest != []
    ensures JoinLines([line] + rest) == line + "\n" + JoinLines(rest)
  {
    assert ([line] + rest)[1..] == rest;
  }

  lemma JoinLonger(c: char, lines: seq<string>)
    requires lines != []
    ensures JoinLines([[c] + lines[0]] + lines[1..]) == [c] + JoinLines(lines)
  {
    var line, rest := lines[0], lines[1..];
    assert lines == [line] + rest;
    if rest == [] {
      assert [[c] + line] + rest == [[c] + line];
    } else {
      hide JoinLines;
      JoinFirst([c] + line, rest);
      JoinFirst(line, rest);
      assert [c] + line + "\n" + JoinLines(rest) == [c] + (line + "\n" + JoinLines(rest));
    }
  }

  function Alternatives(a: Argp): (n: nat)
    ensures n >= 1
  {
    if a.argsDoc.Some? then |Lines(a.argsDoc.value)| else 1
  }

  /** An argp with more than one alternative has a counter. */
  function Own(a: Argp): nat {
    if Alternatives(a) > 1 then 1 else 0
  }

  /** The number of counters in a tree. */
  function Levels(a: Argp): nat {
    Own(a) + LevelsAll(a.children)
  }

  function LevelsAll(cs: Children): nat {
    match cs
    case End => 0
    case Child(a, next) => Levels(a) + LevelsAll(next)
  }

  /** The number of combinations: the product of the numbers of alternatives. */
  function Combinations(a: Argp): (n: nat)
    ensures n >= 1
  {
    PositiveProduct(CombinationsAll(a.children), Alternatives(a));
    CombinationsAll(a.children) * Alternatives(a)
  }

  function CombinationsAll(cs: Children): (n: nat)
    ensures n >= 1
  {
    match cs
    case End => 1
    case Child(a, next) =>
      PositiveProduct(Combinations(a), CombinationsAll(next));
      Combinations(a) * CombinationsAll(next)
  }

  lemma PositiveProduct(a: nat, b: nat)
    requires a >= 1 && b >= 1
    ensures a * b >= 1
  {
    if a > 1 {
      PositiveProduct(a - 1, b);
      assert a * b == (a - 1) * b + b;
    }
  }

  // ----- combinations -----

  /** One alternative for every counter; the counters are in pre-order. */
  ghost predicate Choice(a: Argp, d: seq<nat>) {
    && |d| == Levels(a) && (Own(a) == 1 ==> d[0] < Alternatives(a)) && ChoiceAll(a.children, d[Own(a)..])
  }

  ghost predicate ChoiceAll(cs: Children, d: seq<nat>) {
    match cs
    case End => d == []
    case Child(a, next) => |d| >= Levels(a) && Choice(a, d[..Levels(a)]) && ChoiceAll(next, d[Levels(a)..])
  }

  function OwnDigit(a: Argp, d: seq<nat>): nat
    requires |d| >= Own(a)
  {
    if Own(a) == 1 then d[0] else 0
  }

  /** The pattern printed for a combination. */
  ghost function Shown(a: Argp, d: seq<nat>): seq<string>
    requires Choice(a, d)
  {
    (if a.argsDoc.Some? then [Lines(a.argsDoc.value)[OwnDigit(a, d)]] else []) + ShownAll(a.children, d[Own(a)..])
  }

  ghost function ShownAll(cs: Children, d: seq<nat>): seq<string>
    requires ChoiceAll(cs, d)
  {
    match cs
    case End => []
    case Child(a, next) => Shown(a, d[..Levels(a)]) + ShownAll(next, d[Levels(a)..])
  }

  /** The place of a combination in the order of printing: children turn faster than their parent. */
  ghost function Rank(a: Argp, d: seq<nat>): nat
    requires |d| >= Levels(a)
  {
    RankAll(a.children, d[Own(a)..]) + CombinationsAll(a.children) * OwnDigit(a, d)
  }

  ghost function RankAll(cs: Children, d: seq<nat>): nat
    requires |d| >= LevelsAll(cs)
  {
    match cs
    case End => 0
    case Child(a, next) => Rank(a, d[..Levels(a)]) + Combinations(a) * RankAll(next, d[Levels(a)..])
  }

  // ----- mixed radix -----

  lemma OneMore(a: nat, b: nat)
    ensures a * (b + 1) == a * b + a
  {
  }

  lemma {:induction false} TwoDigits(low: nat, high: nat, radix: nat, top: nat)
    requires low < radix && high < top
    ensures low + radix * high < radix * top
    decreases top
  {
    OneMore(radix, top - 1);
    if high < top - 1 {
      TwoDigits(low, high, radix, top - 1);
    }
  }

  lemma HighDecides(low: nat, high: nat, low': nat, high': nat, radix: nat)
    requires low < radix && high < high'
    ensures low + radix * high < low' + radix * high'
  {
    TwoDigits(low, high, radix, high');
  }

  lemma DigitsUnique(low: nat, high: nat, low': nat, high': nat, radix: nat)
    requires low < radix && low' < radix && low + radix * high == low' + radix * high'
    ensures low == low' && high == high'
  {
    if high < high' {
      HighDecides(low, high, low', high', radix);
    } else if high' < high {
      HighDecides(low', high', low, high, radix);
    }
  }

  lemma {:induction false} RankBound(a: Argp, d: seq<nat>)
    requires Choice(a, d)
    ensures Rank(a, d) < Combinations(a)
  {
    RankAllBound(a.children, d[Own(a)..]);
    TwoDigits(RankAll(a.children, d[Own(a)..]), OwnDigit(a, d), CombinationsAll(a.children), Alternatives(a));
  }

  lemma {:induction false} RankAllBound(cs: Children, d: seq<nat>)
    requires ChoiceAll(cs, d)
    ensures |d| == LevelsAll(cs) && RankAll(cs, d) < CombinationsAll(cs)
  {
    match cs
    case End =>
    case Child(a, next) =>
      var n := Levels(a);
      RankBound(a, d[..n]);
      RankAllBound(next, d[n..]);
      TwoDigits(Rank(a, d[..n]), RankAll(next, d[n..]), Combinations(a), CombinationsAll(next));
  }

  /** Different combinations have different places. */
  lemma {:induction false} RankUnique(a: Argp, d: seq<nat>, e: seq<nat>)
    requires Choice(a, d) && Choice(a, e) && Rank(a, d) == Rank(a, e)
    ensures d == e
  {
    var o := Own(a);
    RankAllBound(a.children, d[o..]);
    RankAllBound(a.children, e[o..]);
    DigitsUnique(RankAll(a.children, d[o..]), OwnDigit(a, d), RankAll(a.children, e[o..]), OwnDigit(a, e),
                 CombinationsAll(a.children));
    RankAllUnique(a.children, d[o..], e[o..]);
    assert d == d[..o] + d[o..] && e == e[..o] + e[o..];
  }

  lemma {:induction false} RankAllUnique(cs: Children, d: seq<nat>, e: seq<nat>)
    requires ChoiceAll(cs, d) && ChoiceAll(cs, e) && |d| >= LevelsAll(cs) && |e| >= LevelsAll(cs)
    requires RankAll(cs, d) == RankAll(cs, e)
    ensures d == e
  {
    match cs
    case End =>
    case Child(a, next) =>
      var n := Levels(a);
      RankBound(a, d[..n]);
      RankBound(a, e[..n]);
      RankAllBound(next, d[n..]);
      RankAllBound(next, e[n..]);
      DigitsUnique(Rank(a, d[..n]), RankAll(next, d[n..]), Rank(a, e[..n]), RankAll(next, e[n..]), Combinations(a));
      RankUnique(a, d[..n], e[..n]);
      RankAllUnique(next, d[n..], e[n..]);
      assert d == d[..n] + d[n..] && e == e[..n] + e[n..];
  }

  // ----- turning the odometer -----

  /** The counters after a pattern, and whether the next slower counter has to turn. */
  datatype Turned = Turned(digits: seq<nat>, carry: bool)

  ghost function Turn(a: Argp, d: seq<nat>, carry: bool): Turned
    requires |d| >= Levels(a)
  {
    var below := TurnAll(a.children, d[Own(a)..], carry);
    if Own(a) == 0 then below
    else if !below.carry then Turned([d[0]] + below.digits, false)
    else if d[0] + 1 < Alternatives(a) then Turned([d[0] + 1] + below.digits, false)
    else Turned([0] + below.digits, true)
  }

  ghost function TurnAll(cs: Children, d: seq<nat>, carry: bool): Turned
    requires |d| >= LevelsAll(cs)
  {
    match cs
    case End => Turned([], carry)
    case Child(a, next) =>
      var first := Turn(a, d[..Levels(a)], carry);
      var rest := TurnAll(next, d[Levels(a)..], first.carry);
      Turned(first.digits + rest.digits, rest.carry)
  }

  /** A turn goes to the next place, or from the last place back to the first with a carry. */
  ghost predicate Counts(rank: nat, total: nat, carry: bool, rank': nat, carry': bool) {
    if !carry then rank' == rank && !carry'
    else if rank + 1 < total then rank' == rank + 1 && !carry'
    else rank' == 0 && carry'
  }

  lemma {:induction false} TurnCounts(a: Argp, d: seq<nat>, carry: bool)
    requires Choice(a, d)
    ensures var t := Turn(a, d, carry);
            Choice(a, t.digits) && Counts(Rank(a, d), Combinations(a), carry, Rank(a, t.digits), t.carry)
    ensures !carry ==> Turn(a, d, carry).digits == d
  {
    hide TurnAll, RankAll, ChoiceAll, LevelsAll, CombinationsAll, Alternatives;
    var o := Own(a);
    TurnAllCounts(a.children, d[o..], carry);
    RankAllBound(a.children, d[o..]);
    var t := Turn(a, d, carry);
    var below := TurnAll(a.children, d[o..], carry);
    assert d == d[..o] + d[o..];
    if o == 0 {
      assert d[o..] == d && t == below && t.digits[o..] == t.digits;
    } else {
      assert t.digits[1..] == below.digits;
    }
    Carried(RankAll(a.children, d[o..]), CombinationsAll(a.children), carry,
            RankAll(a.children, below.digits), below.carry,
            OwnDigit(a, d), Alternatives(a), OwnDigit(a, t.digits), t.carry);
  }

  lemma TurnLength(a: Argp, d: seq<nat>, carry: bool)
    requires Choice(a, d)
    ensures |Turn(a, d, carry).digits| == Levels(a)
  {
    TurnCounts(a, d, carry);
  }

  lemma {:induction false} TurnAllCounts(cs: Children, d: seq<nat>, carry: bool)
    requires ChoiceAll(cs, d)
    ensures |d| == LevelsAll(cs)
    ensures var t := TurnAll(cs, d, carry);
            && ChoiceAll(cs, t.digits) && |t.digits| == LevelsAll(cs)
            && Counts(RankAll(cs, d), CombinationsAll(cs), carry, RankAll(cs, t.digits), t.carry)
    ensures !carry ==> TurnAll(cs, d, carry).digits == d
  {
    RankAllBound(cs, d);
    match cs
    case End =>
    case Child(a, next) =>
      var n := Levels(a);
      TurnCounts(a, d[..n], carry);
      var first := Turn(a, d[..n], carry);
      TurnAllCounts(next, d[n..], first.carry);
      var rest := TurnAll(next, d[n..], first.carry);
      var t := TurnAll(cs, d, carry);
      assert t.digits[..n] == first.digits && t.digits[n..] == rest.digits;
      assert !carry ==> d == d[..n] + d[n..];
      RankBound(a, d[..n]);
      RankAllBound(next, d[n..]);
      Carried(Rank(a, d[..n]), Combinations(a), carry, Rank(a, first.digits), first.carry,
              RankAll(next, d[n..]), CombinationsAll(next), RankAll(next, rest.digits), rest.carry);
  }

  /** Two counters, the second turned by the carry of the first, count as one. */
  lemma Carried(low: nat, radix: nat, carry: bool, low': nat, mid: bool, high: nat, top: nat, high': nat, carry': bool)
    requires low < radix && high < top && Counts(low, radix, carry, low', mid) && Counts(high, top, mid, high', carry')
    ensures Counts(low + radix * high, radix * top, carry, low' + radix * high', carry')
  {
    TwoDigits(low, high, radix, top);
    if carry && low + 1 < radix {
      TwoDigits(low + 1, high, radix, top);
    } else if carry && high + 1 < top {
      assert radix * (high + 1) == radix * high + radix;
      TwoDigits(0, high + 1, radix, top);
    } else if carry {
      assert radix * (high + 1) == radix * high + radix;
    }
  }

  // ----- argp_args_levels, argp_args_usage and the loop of _help -----

  /** argp_args_levels. */
  method ArgsLevels(a: Argp) returns (levels: nat)
    ensures levels == Levels(a)
  {
    levels := if a.argsDoc.Some? && '\n' in a.argsDoc.value then 1 else 0;
    var child := a.children;
    while child.Child?
      invariant levels + LevelsAll(child) == Levels(a)
      decreases child
    {
      var more := ArgsLevels(child.argp);
      levels := levels + more;
      child := child.next;
    }
  }

  /** The line of `doc` that a counter selects, and whether another line follows. */
  method SelectLine(doc: string, level: nat) returns (line: string, more: bool)
    requires level < |Lines(doc)|
    ensures line == Lines(doc)[level] && (more <==> level + 1 < |Lines(doc)|)
  {
    hide Lines, LineLength;
    var cp := 0;
    var nl := LineEnd(doc, 0);
    assert doc[0..] == doc;
    ghost var lines := Lines(doc);
    for i := 0 to level
      invariant 0 <= cp <= nl <= |doc| && nl == cp + LineLength(doc[cp..])
      invariant lines[i..] == Lines(doc[cp..])
    {
      NextLine(doc, cp, nl);
      assert lines[i..][1..] == lines[i + 1..];
      cp := nl + 1;
      nl := LineEnd(doc, cp);
    }
    NextLine(doc, cp, nl);
    assert lines[level..][0] == lines[level];
    line, more := doc[cp..nl], nl < |doc|;
  }

  lemma NextLine(doc: string, cp: nat, nl: nat)
    requires cp <= nl <= |doc| && nl == cp + LineLength(doc[cp..])
    ensures Lines(doc[cp..]) == [doc[cp..nl]] + (if nl < |doc| then Lines(doc[nl + 1..]) else [])
    ensures nl < |doc| <==> |Lines(doc[cp..])| > 1
  {
    hide Lines, LineLength;
    LineSplit(doc[cp..]);
    assert doc[cp..][..nl - cp] == doc[cp..nl];
    if nl < |doc| {
      assert doc[cp..][nl - cp + 1..] == doc[nl + 1..];
    }
  }

  function LineLength(doc: string): (n: nat)
    ensures n <= |doc|
  {
    if doc == "" || doc[0] == '\n' then 0 else 1 + LineLength(doc[1..])
  }

  /** strchrnul for a newline. */
  method LineEnd(doc: string, from: nat) returns (nl: nat)
    requires from <= |doc|
    ensures nl == from + LineLength(doc[from..])
  {
    nl := from;
    while nl < |doc| && doc[nl] != '\n'
      invariant from <= nl <= |doc| && from + LineLength(doc[from..]) == nl + LineLength(doc[nl..])
    {
      assert doc[nl..][1..] == doc[nl + 1..];
      nl := nl + 1;
    }
  }

  lemma {:induction false} LineSplit(doc: string)
    ensures var n := LineLength(doc);
            Lines(doc) == [doc[..n]] + (if n < |doc| then Lines(doc[n + 1..]) else [])
  {
    if doc != "" && doc[0] != '\n' {
      LineSplit(doc[1..]);
      var n := LineLength(doc[1..]);
      assert doc[..n + 1] == [doc[0]] + doc[1..][..n];
      if n < |doc[1..]| {
        assert doc[1..][n + 1..] == doc[n + 2..];
      }
    }
  }

  /** The children before `child` are done: their counters are `turned`, the others are still `rest`. */
  ghost predicate Half(cs: Children, d: seq<nat>, advance: bool, child: Children, turned: seq<nat>, rest: seq<nat>,
                       carry: bool, shown: seq<string>)
    requires ChoiceAll(cs, d) && |d| == LevelsAll(cs)
  {
    && ChoiceAll(child, rest) && |rest| == LevelsAll(child)
    && ShownAll(cs, d) == shown + ShownAll(child, rest)
    && var t := TurnAll(child, rest, carry);
       TurnAll(cs, d, advance) == Turned(turned + t.digits, t.carry)
  }

  lemma HalfStart(cs: Children, d: seq<nat>, advance: bool)
    requires ChoiceAll(cs, d)
    ensures |d| == LevelsAll(cs) && Half(cs, d, advance, cs, [], d, advance, [])
  {
    RankAllBound(cs, d);
    assert [] + TurnAll(cs, d, advance).digits == TurnAll(cs, d, advance).digits;
    assert [] + ShownAll(cs, d) == ShownAll(cs, d);
  }

  lemma HalfStep(cs: Children, d: seq<nat>, advance: bool, child: Children, turned: seq<nat>, rest: seq<nat>,
                 carry: bool, shown: seq<string>)
    requires ChoiceAll(cs, d) && |d| == LevelsAll(cs) && child.Child?
    requires Half(cs, d, advance, child, turned, rest, carry, shown)
    ensures |rest| == Levels(child.argp) + LevelsAll(child.next) && Choice(child.argp, rest[..Levels(child.argp)])
    ensures var n := Levels(child.argp);
            var t := Turn(child.argp, rest[..n], carry);
            Half(cs, d, advance, child.next, turned + t.digits, rest[n..], t.carry,
                 shown + Shown(child.argp, rest[..n]))
  {
    var n := Levels(child.argp);
    var t := Turn(child.argp, rest[..n], carry);
    var t' := TurnAll(child.next, rest[n..], t.carry);
    assert turned + (t.digits + t'.digits) == turned + t.digits + t'.digits;
    assert shown + (Shown(child.argp, rest[..n]) + ShownAll(child.next, rest[n..]))
        == shown + Shown(child.argp, rest[..n]) + ShownAll(child.next, rest[n..]);
  }

  lemma HalfEnd(cs: Children, d: seq<nat>, advance: bool, turned: seq<nat>, rest: seq<nat>, carry: bool,
                shown: seq<string>)
    requires ChoiceAll(cs, d) && |d| == LevelsAll(cs) && Half(cs, d, advance, End, turned, rest, carry, shown)
    ensures rest == [] && shown == ShownAll(cs, d) && Turned(turned, carry) == TurnAll(cs, d, advance)
  {
    assert turned + [] == turned && shown + [] == shown;
  }

  /** argp_args_usage: prints the pattern the counters stand for and turns them. */
  method ArgsUsage(a: Argp, levels: array<nat>, pos: nat, advance: bool)
    returns (end: nat, more: bool, out: seq<string>)
    requires pos + Levels(a) <= levels.Length && Choice(a, levels[..][pos..pos + Levels(a)])
    modifies levels
    ensures end == pos + Levels(a)
    ensures var was := old(levels[..]);
            var t := Turn(a, was[pos..end], advance);
            Replaced(was, pos, end, t.digits, levels[..]) && more == !t.carry && out == Shown(a, was[pos..end])
    decreases a
  {
    hide ChoiceAll, TurnAll, ShownAll, LevelsAll, Replaced;
    ghost var was, d, o := levels[..], levels[..][pos..pos + Levels(a)], Own(a);
    var next, own := false, [];
    if a.argsDoc.Some? {
      var line;
      line, next := SelectLine(a.argsDoc.value, if Alternatives(a) > 1 then levels[pos] else 0);
      own := [line];
    }
    assert d[o..] == was[pos + o..pos + Levels(a)];
    var carry, shown;
    end, carry, shown := ChildrenUsage(a.children, levels, pos + Own(a), advance);
    ghost var below := TurnAll(a.children, d[o..], advance);
    if Own(a) == 1 {
      OwnDigitTurned(was, pos, end, below.digits, levels[..], if !carry then d[0] else if next then d[0] + 1 else 0);
      if carry {
        levels[pos], carry := if next then levels[pos] + 1 else 0, !next;
      }
    }
    more, out := !carry, own + shown;
  }

  /** The counter before a stretch of turned ones. */
  lemma OwnDigitTurned(was: seq<nat>, pos: nat, end: nat, digits: seq<nat>, now: seq<nat>, x: nat)
    requires pos < end && Replaced(was, pos + 1, end, digits, now)
    ensures pos < |now| && now[pos] == was[pos]
    ensures Replaced(was, pos, end, [x] + digits, now[pos := x]) && (x == now[pos] ==> now[pos := x] == now)
  {
    assert was[..pos + 1] == was[..pos] + [was[pos]];
    assert now[pos := x] == was[..pos] + ([x] + digits) + was[end..];
  }

  /** The loop of argp_args_usage over the children. */
  method ChildrenUsage(cs: Children, levels: array<nat>, pos: nat, advance: bool)
    returns (end: nat, carry: bool, shown: seq<string>)
    requires pos + LevelsAll(cs) <= levels.Length && ChoiceAll(cs, levels[..][pos..pos + LevelsAll(cs)])
    modifies levels
    ensures end == pos + LevelsAll(cs)
    ensures var was := old(levels[..]);
            var t := TurnAll(cs, was[pos..end], advance);
            Replaced(was, pos, end, t.digits, levels[..]) && carry == t.carry && shown == ShownAll(cs, was[pos..end])
    decreases cs
  {
    hide Half, Choice, ChoiceAll, Turn, TurnAll, Shown, ShownAll, Levels, LevelsAll, Replaced, Midway;
    ghost var was, stop := levels[..], pos + LevelsAll(cs);
    MidwayStart(cs, advance, was, pos, stop);
    var child := cs;
    end, carry, shown := pos, advance, [];
    while child.Child?
      invariant child == cs || child < cs
      invariant Midway(cs, advance, was, pos, stop, child, levels[..], end, carry, shown)
      decreases child
    {
      ghost var now, from, carry', shown' := levels[..], end, carry, shown;
      MidwayCall(cs, advance, was, pos, stop, child, now, end, carry, shown);
      var more, out;
      end, more, out := ArgsUsage(child.argp, levels, end, carry);
      MidwayStep(cs, advance, was, pos, stop, child, now, from, carry', shown', levels[..]);
      carry, shown, child := !more, shown + out, child.next;
    }
    MidwayEnd(cs, advance, was, pos, stop, levels[..], end, carry, shown);
  }

  /** The state of the loop over the children: `was` are the counters before it and `now` those at `child`. */
  ghost predicate Midway(cs: Children, advance: bool, was: seq<nat>, pos: nat, stop: nat, child: Children,
                         now: seq<nat>, end: nat, carry: bool, shown: seq<string>) {
    && pos <= end <= stop <= |was| && |now| == |was| && stop == pos + LevelsAll(cs) && ChoiceAll(cs, was[pos..stop])
    && Replaced(was, pos, end, now[pos..end], now)
    && Half(cs, was[pos..stop], advance, child, now[pos..end], was[end..stop], carry, shown)
  }

  lemma MidwayStart(cs: Children, advance: bool, was: seq<nat>, pos: nat, stop: nat)
    requires stop == pos + LevelsAll(cs) <= |was| && ChoiceAll(cs, was[pos..stop])
    ensures Midway(cs, advance, was, pos, stop, cs, was, pos, advance, [])
  {
    hide Half;
    HalfStart(cs, was[pos..stop], advance);
    assert was[pos..pos] == [];
  }

  lemma MidwayCall(cs: Children, advance: bool, was: seq<nat>, pos: nat, stop: nat, child: Children, now: seq<nat>,
                   end: nat, carry: bool, shown: seq<string>)
    requires Midway(cs, advance, was, pos, stop, child, now, end, carry, shown) && child.Child?
    ensures var n := Levels(child.argp);
            && end + n <= stop <= |now| == |was| && now[end..end + n] == was[end..stop][..n]
            && Choice(child.argp, now[end..end + n])
  {
    hide Half, Choice, ChoiceAll, Turn, Levels, LevelsAll, Replaced;
    HalfStep(cs, was[pos..stop], advance, child, now[pos..end], was[end..stop], carry, shown);
    StillThere(was, pos, end, now, Levels(child.argp), stop);
  }

  lemma StillThere(was: seq<nat>, pos: nat, end: nat, now: seq<nat>, n: nat, stop: nat)
    requires pos <= end <= |now| && Replaced(was, pos, end, now[pos..end], now) && end + n <= stop <= |was|
    ensures |now| == |was| && now[end..end + n] == was[end..stop][..n]
  {
    assert now[end..] == was[end..];
    assert now[end..end + n] == now[end..][..n] && was[end..stop][..n] == was[end..][..n];
  }

  lemma MidwayStep(cs: Children, advance: bool, was: seq<nat>, pos: nat, stop: nat, child: Children, now: seq<nat>,
                   end: nat, carry: bool, shown: seq<string>, now': seq<nat>)
    requires Midway(cs, advance, was, pos, stop, child, now, end, carry, shown) && child.Child?
    requires end + Levels(child.argp) <= |now| && Choice(child.argp, now[end..end + Levels(child.argp)])
    requires var n := Levels(child.argp);
             Replaced(now, end, end + n, Turn(child.argp, now[end..end + n], carry).digits, now')
    ensures var n := Levels(child.argp);
            var t := Turn(child.argp, now[end..end + n], carry);
            Midway(cs, advance, was, pos, stop, child.next, now', end + n, t.carry,
                   shown + Shown(child.argp, now[end..end + n]))
  {
    hide Half, Choice, ChoiceAll, Turn, Shown, Levels, LevelsAll;
    var n := Levels(child.argp);
    MidwayCall(cs, advance, was, pos, stop, child, now, end, carry, shown);
    HalfStep(cs, was[pos..stop], advance, child, now[pos..end], was[end..stop], carry, shown);
    var t := Turn(child.argp, now[end..end + n], carry);
    TurnLength(child.argp, now[end..end + n], carry);
    ReplacedMore(was, pos, end, end + n, now[pos..end], now, t.digits, now');
    hide Replaced;
    assert was[end..stop][n..] == was[end + n..stop];
    ReplacedPart(was, pos, end + n, now[pos..end] + t.digits, now');
  }

  lemma ReplacedPart(was: seq<nat>, pos: nat, end: nat, part: seq<nat>, now: seq<nat>)
    requires Replaced(was, pos, end, part, now) && |part| == end - pos
    ensures |now| == |was| && now[pos..end] == part
  {
  }

  lemma MidwayEnd(cs: Children, advance: bool, was: seq<nat>, pos: nat, stop: nat, now: seq<nat>, end: nat, carry: bool,
                  shown: seq<string>)
    requires Midway(cs, advance, was, pos, stop, End, now, end, carry, shown)
    ensures end == stop && shown == ShownAll(cs, was[pos..stop])
    ensures var t := TurnAll(cs, was[pos..stop], advance); carry == t.carry && Replaced(was, pos, stop, t.digits, now)
  {
    HalfEnd(cs, was[pos..stop], advance, now[pos..end], was[end..stop], carry, shown);
  }

  ghost predicate AllZero(d: seq<nat>) {
    forall i :: 0 <= i < |d| ==> d[i] == 0
  }

  lemma {:induction false} ZeroChoice(a: Argp, d: seq<nat>)
    requires |d| == Levels(a) && AllZero(d)
    ensures Choice(a, d) && Rank(a, d) == 0
  {
    ZeroChoiceAll(a.children, d[Own(a)..]);
  }

  lemma {:induction false} ZeroChoiceAll(cs: Children, d: seq<nat>)
    requires |d| == LevelsAll(cs) && AllZero(d)
    ensures ChoiceAll(cs, d) && RankAll(cs, d) == 0
  {
    match cs
    case End =>
    case Child(a, next) =>
      ZeroChoice(a, d[..Levels(a)]);
      ZeroChoiceAll(next, d[Levels(a)..]);
  }

  /** The first patterns, in the order of their places. */
  ghost predicate Printed(a: Argp, patterns: seq<seq<string>>, choices: seq<seq<nat>>) {
    && |patterns| == |choices|
    && forall k :: 0 <= k < |choices| ==> PrintedAt(a, k, patterns[k], choices[k])
  }

  ghost predicate PrintedAt(a: Argp, k: int, pattern: seq<string>, d: seq<nat>) {
    Choice(a, d) && Rank(a, d) == k && pattern == Shown(a, d)
  }

  /** The loop of _help that prints the usage patterns: every combination is printed, and none twice. */
  method UsagePatterns(a: Argp) returns (patterns: seq<seq<string>>, choices: seq<seq<nat>>)
    ensures |patterns| == |choices| == Combinations(a)
    ensures forall k :: 0 <= k < |choices| ==> Choice(a, choices[k]) && patterns[k] == Shown(a, choices[k])
    ensures forall j, k :: 0 <= j < k < |choices| ==> choices[j] != choices[k]
    ensures forall d :: Choice(a, d) ==> d in choices
  {
    var count := ArgsLevels(a);
    var levels := new nat[count](_ => 0);
    patterns, choices := [], [];
    var more := true;
    ZeroChoice(a, levels[..]);
    while more
      invariant Printed(a, patterns, choices) && Choice(a, levels[..])
      invariant |patterns| == if more then Rank(a, levels[..]) else Combinations(a)
      decreases more, Combinations(a) - |patterns|
    {
      hide Choice, Rank, Combinations, Turn, Shown, Printed;
      var d := levels[..];
      RankBound(a, d);
      TurnCounts(a, d, true);
      TurnLength(a, d, true);
      assert Levels(a) == count by {
        LevelsOf(a, d);
      }
      assert d[0..count] == d;
      var end, out;
      end, more, out := ArgsUsage(a, levels, 0, true);
      assert levels[..] == Turn(a, d, true).digits;
      PrintedMore(a, patterns, choices, out, d);
      patterns, choices := patterns + [out], choices + [d];
    }
    AllPrinted(a, patterns, choices);
  }

  lemma LevelsOf(a: Argp, d: seq<nat>)
    requires Choice(a, d)
    ensures |d| == Levels(a)
  {
  }

  lemma PrintedMore(a: Argp, patterns: seq<seq<string>>, choices: seq<seq<nat>>, out: seq<string>, d: seq<nat>)
    requires Printed(a, patterns, choices) && PrintedAt(a, |patterns|, out, d)
    ensures Printed(a, patterns + [out], choices + [d])
  {
    hide PrintedAt;
  }

  lemma AllPrinted(a: Argp, patterns: seq<seq<string>>, choices: seq<seq<nat>>)
    requires Printed(a, patterns, choices) && |patterns| == Combinations(a)
    ensures forall k :: 0 <= k < |choices| ==> Choice(a, choices[k]) && patterns[k] == Shown(a, choices[k])
    ensures forall j, k :: 0 <= j < k < |choices| ==> choices[j] != choices[k]
    ensures forall d :: Choice(a, d) ==> d in choices
  {
    hide Choice, Rank, Shown, Combinations;
    forall d | Choice(a, d)
      ensures d in choices
    {
      RankBound(a, d);
      LevelsOf(a, d);
      var k := Rank(a, d);
      assert PrintedAt(a, k, patterns[k], choices[k]);
      RankUnique(a, d, choices[k]);
    }
    assert forall k :: 0 <= k < |choices| ==> PrintedAt(a, k, patterns[k], choices[k]);
  }
}
