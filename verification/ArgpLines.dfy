/** What one element of a command line stands for: long and short options, their values, plain arguments. */
module ArgpLines {
  import opened Common
  import opened ArgpOptions
  import opened ArgpScan
  import opened ArgpMeaning

  /** The call `ev` is made after `calls`, and if it is accepted the line goes on with `rest`. */
  ghost function Next(t: Table, answer: Answer, calls: seq<Event>, flag: bool, skipped: seq<string>, ev: Event,
                      rest: seq<string>): Outcome
    requires ev.group < |t.groups|
  {
    if !t.groups[ev.group].hasParser then Stopped(calls, BadKey, flag)
    else
      match answer(calls, ev)
      case Ok => Meaning(t, answer, calls + [ev], flag, skipped, rest)
      case reply => Stopped(calls + [ev], reply, flag && reply.BadKey?)
  }

  // ----- long options -----

  /**
    Option `r` is the one called `name`: the first with exactly that name; or, if there is none, the only one whose name
    begins with it.
  */
  ghost predicate Named(rs: seq<Ref>, name: string, r: Ref) {
    || (exists i :: 0 <= i < |rs| && rs[i] == r && r.opt.name == Some(name)
                    && forall j :: 0 <= j < i ==> rs[j].opt.name != Some(name))
    || ((forall j :: 0 <= j < |rs| ==> rs[j].opt.name != Some(name))
        && exists i :: 0 <= i < |rs| && rs[i] == r && r.opt.name.Some? && name <= r.opt.name.value
                       && forall j :: 0 <= j < |rs| && j != i && rs[j].opt.name.Some? ==>
                            !(name <= rs[j].opt.name.value))
  }

  lemma {:induction false} StemOf(name: string, more: string)
    requires '=' !in name && (more == "" || more[0] == '=')
    ensures Stem(name + more) == name
  {
    if name == "" {
      assert name + more == more;
    } else {
      assert (name + more)[1..] == name[1..] + more;
      StemOf(name[1..], more);
    }
  }

  lemma NamedIsFound(rs: seq<Ref>, name: string, text: string, r: Ref)
    requires Stem(text) == name && Named(rs, name, r)
    ensures LongOption(rs, text) == Some(r)
  {
    LongOptionMeans(rs, text);
    assert forall i :: 0 <= i < |rs| ==> (Is(rs[i], text, Exact) <==> rs[i].opt.name == Some(name));
    if exists j :: 0 <= j < |rs| && rs[j].opt.name == Some(name) {
    } else {
      var i :| 0 <= i < |rs| && rs[i] == r && r.opt.name.Some? && name <= r.opt.name.value
               && forall j :: 0 <= j < |rs| && j != i && rs[j].opt.name.Some? ==> !(name <= rs[j].opt.name.value);
      assert Abbreviated(rs, text) == {i};
    }
  }

  /** What introduces a long option: two dashes, or one if long options need no more and this cannot be a short one. */
  predicate Dashes(t: Table, dash: string, text: string) {
    || dash == "--"
    || (dash == "-" && t.longOnly && text != "" && text[0] != '-' && (|text| > 1 || text[0] !in t.shortOpts))
  }

  lemma LongIs(t: Table, answer: Answer, calls: seq<Event>, flag: bool, skipped: seq<string>, dash: string,
               text: string, rest: seq<string>)
    requires text != "" && Dashes(t, dash, text)
    ensures Meaning(t, answer, calls, flag, skipped, [dash + text] + rest)
            == AfterCalls(t, answer, calls, false, skipped, LongUse(t, text, rest), rest)
  {
    hide LongUse, AfterCalls;
    var arg := dash + text;
    assert arg[|dash|..] == text;
    assert Classify(t, arg) == Long(text);
    assert ([arg] + rest)[1..] == rest;
  }

  lemma CallIs(t: Table, answer: Answer, calls: seq<Event>, flag: bool, skipped: seq<string>, ev: Event, used: nat,
               rest: seq<string>)
    requires ev.group < |t.groups| && used <= |rest|
    ensures AfterCalls(t, answer, calls, flag, skipped, Use([ev], used, Ok), rest)
            == Next(t, answer, calls, flag, skipped, ev, rest[used..])
  {
    LastCall(t, answer, calls, flag, skipped, ev, used, rest);
  }

  lemma FaultIs(t: Table, answer: Answer, calls: seq<Event>, flag: bool, skipped: seq<string>, fault: Reply,
                rest: seq<string>)
    requires !fault.Ok?
    ensures AfterCalls(t, answer, calls, flag, skipped, Use([], 0, fault), rest) == Stopped(calls, fault, false)
  {
  }

  /** `--name=v`: the option is called with all that follows the first equals sign, if it takes a value. */
  lemma LongWithValue(t: Table, answer: Answer, calls: seq<Event>, flag: bool, skipped: seq<string>, dash: string,
                      name: string, v: string, r: Ref, rest: seq<string>)
    requires '=' !in name && Named(Flat(t.groups), name, r) && Dashes(t, dash, name + "=" + v)
    ensures r.group < |t.groups|
    ensures Meaning(t, answer, calls, flag, skipped, [dash + name + "=" + v] + rest)
            == if r.opt.arg
               then Next(t, answer, calls, false, skipped, OptionKey(r.group, r.opt.key, Some(v)), rest)
               else Stopped(calls, BadKey, false)
  {
    var text := name + "=" + v;
    LongRef(t, name, text, "=" + v, r);
    assert dash + name + "=" + v == dash + text;
    LongIs(t, answer, calls, flag, skipped, dash, text, rest);
    assert text[|name| + 1..] == v;
    FaultIs(t, answer, calls, false, skipped, BadKey, rest);
    CallIs(t, answer, calls, false, skipped, OptionKey(r.group, r.opt.key, Some(v)), 0, rest);
    hide AfterCalls, Next, Meaning;
    assert rest[0..] == rest;
  }

  lemma LongRef(t: Table, name: string, text: string, more: string, r: Ref)
    requires '=' !in name && (more == "" || more[0] == '=') && text == name + more && Named(Flat(t.groups), name, r)
    ensures Stem(text) == name && LongOption(Flat(t.groups), text) == Some(r) && r.group < |t.groups|
  {
    StemOf(name, more);
    NamedIsFound(Flat(t.groups), name, text, r);
    FlatInRange(t.groups, r);
  }

  /** `--name`: without a value if the option takes none or need not have one; else the next element is the value. */
  lemma LongAlone(t: Table, answer: Answer, calls: seq<Event>, flag: bool, skipped: seq<string>, dash: string,
                  name: string, r: Ref, rest: seq<string>)
    requires '=' !in name && name != "" && Named(Flat(t.groups), name, r) && Dashes(t, dash, name)
    ensures r.group < |t.groups|
    ensures var m := Meaning(t, answer, calls, flag, skipped, [dash + name] + rest);
            if !r.opt.arg || r.opt.optional
            then m == Next(t, answer, calls, false, skipped, OptionKey(r.group, r.opt.key, None), rest)
            else if rest == [] then m == Stopped(calls, BadKey, false)
            else m == Next(t, answer, calls, false, skipped, OptionKey(r.group, r.opt.key, Some(rest[0])), rest[1..])
  {
    assert name + "" == name;
    LongRef(t, name, name, "", r);
    LongIs(t, answer, calls, flag, skipped, dash, name, rest);
    hide AfterCalls, Next, Meaning;
    if !r.opt.arg || r.opt.optional {
      CallIs(t, answer, calls, false, skipped, OptionKey(r.group, r.opt.key, None), 0, rest);
      assert rest[0..] == rest;
    } else if rest == [] {
      FaultIs(t, answer, calls, false, skipped, BadKey, rest);
    } else {
      CallIs(t, answer, calls, false, skipped, OptionKey(r.group, r.opt.key, Some(rest[0])), 1, rest);
    }
  }

  /** A name that no option has and that begins no option's name, or more than one, is an error. */
  lemma LongUnknown(t: Table, answer: Answer, calls: seq<Event>, flag: bool, skipped: seq<string>, dash: string,
                    name: string, more: string, rest: seq<string>)
    requires '=' !in name && (more == "" || more[0] == '=') && name + more != "" && Dashes(t, dash, name + more)
    requires forall r :: !Named(Flat(t.groups), name, r)
    ensures Meaning(t, answer, calls, flag, skipped, [dash + name + more] + rest) == Stopped(calls, BadKey, false)
  {
    var text, rs := name + more, Flat(t.groups);
    StemOf(name, more);
    assert LongOption(rs, text).None? by {
      if LongOption(rs, text).Some? {
        FoundIsNamed(rs, name, text, LongOption(rs, text).value);
      }
    }
    assert dash + name + more == dash + text;
    LongIs(t, answer, calls, flag, skipped, dash, text, rest);
    FaultIs(t, answer, calls, false, skipped, BadKey, rest);
  }

  lemma FoundIsNamed(rs: seq<Ref>, name: string, text: string, r: Ref)
    requires Stem(text) == name && LongOption(rs, text) == Some(r)
    ensures Named(rs, name, r)
  {
    LongOptionMeans(rs, text);
    assert forall i :: 0 <= i < |rs| ==> (Is(rs[i], text, Exact) <==> rs[i].opt.name == Some(name));
    if exists j :: 0 <= j < |rs| && rs[j].opt.name == Some(name) {
    } else {
      var i: nat :| Abbreviated(rs, text) == {i} && rs[i] == r;
      assert i in Abbreviated(rs, text);
      forall j | 0 <= j < |rs| && j != i && rs[j].opt.name.Some?
        ensures !(name <= rs[j].opt.name.value)
      {
        var n: nat := j;
        assert n !in Abbreviated(rs, text);
      }
    }
  }

  // ----- short options -----

  /** Option `r` is the first whose key is the character. */
  ghost predicate Keyed(rs: seq<Ref>, c: char, r: Ref) {
    exists i :: 0 <= i < |rs| && rs[i] == r && r.opt.key == c as int
                && forall j :: 0 <= j < i ==> rs[j].opt.key != c as int
  }

  lemma KeyedIsFound(t: Table, c: char, r: Ref)
    requires Keyed(Flat(t.groups), c, r)
    ensures FirstKey(Flat(t.groups), c as int) == Some(r) && r.group < |t.groups|
  {
    FirstKeyIsFirst(Flat(t.groups), c as int);
    FlatInRange(t.groups, r);
  }

  /** A dash and one or more characters are short options: unless long options may begin with a single dash. */
  predicate Dashed(t: Table, chars: string) {
    chars != "" && chars[0] != '-' && (t.longOnly ==> |chars| == 1 && chars[0] in t.shortOpts)
  }

  lemma ShortIs(t: Table, answer: Answer, calls: seq<Event>, flag: bool, skipped: seq<string>, chars: string,
                rest: seq<string>)
    requires Dashed(t, chars)
    ensures Meaning(t, answer, calls, flag, skipped, ["-" + chars] + rest)
            == AfterCalls(t, answer, calls, flag, skipped, Cluster(t, chars, rest), rest)
  {
    hide Cluster, AfterCalls;
    var arg := "-" + chars;
    assert arg[1..] == chars;
    assert Classify(t, arg) == Short(chars);
    assert ([arg] + rest)[1..] == rest;
  }

  /** `-cvalue`: what follows the character is the value, if the option takes one. */
  lemma ShortWithValue(t: Table, answer: Answer, calls: seq<Event>, flag: bool, skipped: seq<string>, c: char,
                       v: string, r: Ref, rest: seq<string>)
    requires (c as int) < 128 && Keyed(Flat(t.groups), c, r) && r.opt.arg && v != "" && Dashed(t, [c] + v)
    ensures r.group < |t.groups|
    ensures Meaning(t, answer, calls, flag, skipped, ["-" + [c] + v] + rest)
            == Next(t, answer, calls, flag, skipped, OptionKey(r.group, r.opt.key, Some(v)), rest)
  {
    var chars := [c] + v;
    KeyedIsFound(t, c, r);
    assert "-" + [c] + v == "-" + chars && chars[1..] == v;
    ShortIs(t, answer, calls, flag, skipped, chars, rest);
    CallIs(t, answer, calls, flag, skipped, OptionKey(r.group, r.opt.key, Some(v)), 0, rest);
    hide AfterCalls, Next, Meaning;
    assert rest[0..] == rest;
  }

  /** `-c`: without a value if the option takes none or need not have one; else the next element is the value. */
  lemma ShortAlone(t: Table, answer: Answer, calls: seq<Event>, flag: bool, skipped: seq<string>, c: char, r: Ref,
                   rest: seq<string>)
    requires (c as int) < 128 && Keyed(Flat(t.groups), c, r) && Dashed(t, [c])
    ensures r.group < |t.groups|
    ensures var m := Meaning(t, answer, calls, flag, skipped, ["-" + [c]] + rest);
            if !r.opt.arg || r.opt.optional
            then m == Next(t, answer, calls, flag, skipped, OptionKey(r.group, r.opt.key, None), rest)
            else if rest == [] then m == Stopped(calls, BadKey, false)
            else m == Next(t, answer, calls, flag, skipped, OptionKey(r.group, r.opt.key, Some(rest[0])), rest[1..])
  {
    KeyedIsFound(t, c, r);
    assert [c][1..] == "";
    ShortIs(t, answer, calls, flag, skipped, [c], rest);
    hide AfterCalls, Next, Meaning;
    if !r.opt.arg || r.opt.optional {
      CallIs(t, answer, calls, flag, skipped, OptionKey(r.group, r.opt.key, None), 0, rest);
      assert rest[0..] == rest;
    } else if rest == [] {
      FaultIs(t, answer, calls, flag, skipped, BadKey, rest);
    } else {
      CallIs(t, answer, calls, flag, skipped, OptionKey(r.group, r.opt.key, Some(rest[0])), 1, rest);
    }
  }

  /** `-cmore` with an option that takes no value is `-c` and then `-more`. */
  lemma ShortCluster(t: Table, answer: Answer, calls: seq<Event>, flag: bool, skipped: seq<string>, c: char,
                     more: string, r: Ref, rest: seq<string>)
    requires (c as int) < 128 && Keyed(Flat(t.groups), c, r) && !r.opt.arg && Dashed(t, [c] + more) && Dashed(t, more)
    ensures r.group < |t.groups|
    ensures Meaning(t, answer, calls, flag, skipped, ["-" + [c] + more] + rest)
            == Next(t, answer, calls, flag, skipped, OptionKey(r.group, r.opt.key, None), ["-" + more] + rest)
  {
    var chars, ev := [c] + more, OptionKey(r.group, r.opt.key, None);
    KeyedIsFound(t, c, r);
    assert "-" + [c] + more == "-" + chars && chars[1..] == more;
    ShortIs(t, answer, calls, flag, skipped, chars, rest);
    assert Cluster(t, chars, rest) == AddCall(ev, Cluster(t, more, rest));
    MoreCalls(t, answer, calls, flag, skipped, ev, Cluster(t, more, rest), rest);
    ShortIs(t, answer, calls + [ev], flag, skipped, more, rest);
    hide AfterCalls, Meaning, Cluster;
  }

  /** A character that is no option's key is an error; one outside ASCII fails an assertion. */
  lemma ShortUnknown(t: Table, answer: Answer, calls: seq<Event>, flag: bool, skipped: seq<string>, chars: string,
                     rest: seq<string>)
    requires Dashed(t, chars)
    requires (chars[0] as int) < 128 ==> forall r :: r in Flat(t.groups) ==> r.opt.key != chars[0] as int
    ensures Meaning(t, answer, calls, flag, skipped, ["-" + chars] + rest)
            == Stopped(calls, if (chars[0] as int) < 128 then BadKey else Abort, false)
  {
    FirstKeyIsFirst(Flat(t.groups), chars[0] as int);
    ShortIs(t, answer, calls, flag, skipped, chars, rest);
    FaultIs(t, answer, calls, flag, skipped, if (chars[0] as int) < 128 then BadKey else Abort, rest);
  }

  // ----- the rest -----

  /** What does not begin with a dash, or is a single dash, is a plain argument; `--` ends the options. */
  lemma PlainOrQuote(t: Table, answer: Answer, calls: seq<Event>, flag: bool, skipped: seq<string>, arg: string,
                     rest: seq<string>)
    requires arg == "" || arg[0] != '-' || arg == "-" || arg == "--"
    ensures var m := Meaning(t, answer, calls, flag, skipped, [arg] + rest);
            if arg == "--" then m == Deliver(t, answer, calls, skipped + rest)
            else match t.ordering
                 case Permute => m == Meaning(t, answer, calls, flag, skipped + [arg], rest)
                 case RequireOrder => m == Deliver(t, answer, calls, [arg] + rest)
                 case ReturnInOrder =>
                   var o := Offer(t, answer, calls, arg, 0);
                   o.reply.Ok? ==>
                     m == Meaning(t, answer, o.calls, true, skipped, if o.all then [] else rest)
  {
    hide Deliver, Offer;
    assert ([arg] + rest)[1..] == rest;
  }
}
