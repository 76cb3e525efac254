/** The meaning of a command line: what is an option, what is its value, what is left over. */
module ArgpScan {
  import opened Common
  import opened ArgpOptions

  datatype Ordering = RequireOrder | Permute | ReturnInOrder

  /** Ok, EBADKEY, a failed assertion, or an error of a user's parser. */
  datatype Reply = Ok | BadKey | Abort | Other(code: int)

  /** What the scanner knows of the parser: its groups, its flags, and the short options for ARGP_LONG_ONLY. */
  datatype Table = Table(groups: seq<Group>, ordering: Ordering, longOnly: bool, shortOpts: string)

  datatype Token = Plain | Quote | Long(text: string) | Short(chars: string)

  /** classify_arg; a long-only option is a long option without the second dash. */
  function Classify(t: Table, arg: string): (k: Token)
    ensures k.Short? ==> k.chars != ""
  {
    if |arg| < 2 || arg[0] != '-' then Plain
    else if arg[1] == '-' then if |arg| == 2 then Quote else Long(arg[2..])
    else if t.longOnly && (|arg| > 2 || arg[1] !in t.shortOpts) then Long(arg[1..])
    else Short(arg[1..])
  }

  /** A call of a group's parser: with an option, with one argument, or with all that are left. */
  datatype Event = OptionKey(group: nat, key: int, value: Option<string>)
                 | Arg(group: nat, arg: string)
                 | Args(group: nat)

  /** The calls an option makes, how many further elements of argv it uses, and what is wrong after the calls. */
  datatype Use = Use(calls: seq<Event>, used: nat, fault: Reply)

  ghost predicate InGroups(t: Table, evs: seq<Event>) {
    forall ev :: ev in evs ==> ev.group < |t.groups|
  }

  /** The first option of a cluster: its call, the rest of the cluster, and how many elements of argv it uses. */
  datatype Head = Bad(fault: Reply) | Head(call: Event, tail: string, used: nat)

  function HeadOf(t: Table, chars: string, rest: seq<string>): (h: Head)
    requires chars != ""
    ensures h.Bad? ==> !h.fault.Ok?
    ensures h.Head? ==> h.used <= |rest| && h.call.group < |t.groups| && |h.tail| < |chars|
    ensures h.Head? && h.tail != "" ==> h.used == 0
  {
    if chars[0] as int >= 128 then Bad(Abort)
    else
      ShortInRange(t.groups, chars[0] as int);
      var found := FirstKey(Flat(t.groups), chars[0] as int);
      if found.None? then Bad(BadKey)
      else
        var r, tail := found.value, chars[1..];
        if !r.opt.arg then Head(OptionKey(r.group, r.opt.key, None), tail, 0)
        else if tail != "" then Head(OptionKey(r.group, r.opt.key, Some(tail)), "", 0)
        else if r.opt.optional then Head(OptionKey(r.group, r.opt.key, None), "", 0)
        else if rest == [] then Bad(BadKey)
        else Head(OptionKey(r.group, r.opt.key, Some(rest[0])), "", 1)
  }

  /** A cluster of short options followed by the elements `rest`. */
  function Cluster(t: Table, chars: string, rest: seq<string>): (u: Use)
    requires chars != ""
    ensures u.used <= |rest| && InGroups(t, u.calls)
    decreases |chars|
  {
    match HeadOf(t, chars, rest)
    case Bad(fault) => Use([], 0, fault)
    case Head(call, tail, used) =>
      if tail == "" then Use([call], used, Ok) else AddCall(call, Cluster(t, tail, rest))
  }

  function AddCall(ev: Event, u: Use): Use {
    Use([ev] + u.calls, u.used, u.fault)
  }

  /** The text after the first '=' of a long option. */
  function Value(text: string): Option<string> {
    if |Stem(text)| < |text| then Some(text[|Stem(text)| + 1..]) else None
  }

  /** A long option followed by the elements `rest`. */
  function LongUse(t: Table, text: string, rest: seq<string>): (u: Use)
    ensures u.used <= |rest| && InGroups(t, u.calls)
  {
    LongInRange(t.groups, text);
    var found := LongOption(Flat(t.groups), text);
    var value := Value(text);
    if found.None? || (value.Some? && !found.value.opt.arg) then Use([], 0, BadKey)
    else
      var r := found.value;
      if r.opt.arg && value.None? && !r.opt.optional then
        if rest == [] then Use([], 0, BadKey) else Use([OptionKey(r.group, r.opt.key, Some(rest[0]))], 1, Ok)
      else Use([OptionKey(r.group, r.opt.key, value)], 0, Ok)
  }

  /**
    A command line taken apart: the elements that are options or their values,
    the plain arguments between them, whether `--` ended the options and what
    follows it, and the option calls to make.
  */
  datatype Partition = Partition(options: seq<string>, plain: seq<string>, quote: bool, rest: seq<string>,
                                 calls: seq<Event>)

  /** `p` with more in front. */
  function Prepend(options: seq<string>, plain: seq<string>, calls: seq<Event>, p: Option<Partition>): Option<Partition>
  {
    if p.None? then None
    else Some(Partition(options + p.value.options, plain + p.value.plain, p.value.quote, p.value.rest,
                        calls + p.value.calls))
  }

  lemma PrependTwice(o: seq<string>, o': seq<string>, l: seq<string>, l': seq<string>, c: seq<Event>, c': seq<Event>,
                     p: Option<Partition>)
    ensures Prepend(o, l, c, Prepend(o', l', c', p)) == Prepend(o + o', l + l', c + c', p)
  {
    if p.Some? {
      assert o + (o' + p.value.options) == o + o' + p.value.options;
      assert l + (l' + p.value.plain) == l + l' + p.value.plain;
      assert c + (c' + p.value.calls) == c + c' + p.value.calls;
    }
  }

  lemma PrependNothing(p: Option<Partition>)
    ensures Prepend([], [], [], p) == p
  {
    if p.Some? {
      assert [] + p.value.options == p.value.options && [] + p.value.plain == p.value.plain;
      assert [] + p.value.calls == p.value.calls;
    }
  }

  /** None is a malformed option; without permutation the first plain argument ends the options. */
  function Scan(t: Table, args: seq<string>): (p: Option<Partition>)
    ensures p.Some? ==> InGroups(t, p.value.calls)
    decreases |args|, 0
  {
    if args == [] then Some(Partition([], [], false, [], []))
    else
      match Classify(t, args[0])
      case Plain =>
        if t.ordering.Permute? then Prepend([], [args[0]], [], Scan(t, args[1..]))
        else Some(Partition([], [], false, args, []))
      case Quote => Some(Partition([], [], true, args[1..], []))
      case Long(text) => AfterUse(t, [args[0]], LongUse(t, text, args[1..]), args[1..])
      case Short(chars) => AfterUse(t, [args[0]], Cluster(t, chars, args[1..]), args[1..])
  }

  /** The scan goes on after the elements an option has used. */
  function AfterUse(t: Table, taken: seq<string>, u: Use, rest: seq<string>): (p: Option<Partition>)
    requires u.used <= |rest| && InGroups(t, u.calls)
    ensures p.Some? ==> InGroups(t, p.value.calls)
    decreases |rest|, 1
  {
    if !u.fault.Ok? then None
    else Prepend(taken + rest[..u.used], [], u.calls, Scan(t, rest[u.used..]))
  }

  /** The command line rearranged: options first, then `--`, the plain arguments and what followed `--`. */
  function Arranged(p: Partition): seq<string> {
    p.options + (if p.quote then ["--"] else []) + p.plain + p.rest
  }

  lemma QuoteIs(t: Table, arg: string)
    requires Classify(t, arg).Quote?
    ensures arg == "--"
  {
  }

  /** Nothing is lost or invented: the rearranged line has the same elements. */
  lemma {:induction false} ArrangedKeepsAll(t: Table, args: seq<string>)
    requires Scan(t, args).Some?
    ensures multiset(Arranged(Scan(t, args).value)) == multiset(args)
    decreases |args|
  {
    if args == [] {
      assert Arranged(Scan(t, args).value) == args;
    } else {
      hide Classify, Cluster, LongUse, AfterUse;
      var rest := args[1..];
      assert args == [args[0]] + rest;
      match Classify(t, args[0])
      case Plain =>
        if t.ordering.Permute? {
          ArrangedKeepsAll(t, rest);
          PlainKeepsAll(args[0], Scan(t, rest).value);
        } else {
          assert Arranged(Scan(t, args).value) == args;
        }
      case Quote =>
        QuoteIs(t, args[0]);
        assert Arranged(Scan(t, args).value) == ["--"] + rest;
      case Long(text) => UseKeepsAll(t, args, LongUse(t, text, rest));
      case Short(chars) => UseKeepsAll(t, args, Cluster(t, chars, rest));
    }
  }

  lemma PlainKeepsAll(arg: string, p: Partition)
    ensures multiset(Arranged(Prepend([], [arg], [], Some(p)).value)) == multiset([arg]) + multiset(Arranged(p))
  {
    var q := Prepend([], [arg], [], Some(p)).value;
    assert q.options == p.options;
  }

  lemma {:induction false} UseKeepsAll(t: Table, args: seq<string>, u: Use)
    requires args != [] && u.used <= |args| - 1 && InGroups(t, u.calls)
    requires AfterUse(t, [args[0]], u, args[1..]).Some?
    ensures multiset(Arranged(AfterUse(t, [args[0]], u, args[1..]).value)) == multiset(args)
    decreases |args|, 0
  {
    var rest := args[1..];
    var tail := rest[u.used..];
    var p := AfterUse(t, [args[0]], u, rest).value;
    assert Scan(t, tail).Some? && p == Prepend([args[0]] + rest[..u.used], [], u.calls, Scan(t, tail)).value;
    hide Scan, AfterUse;
    ArrangedKeepsAll(t, tail);
    assert args == [args[0]] + rest[..u.used] + tail;
  }
}
