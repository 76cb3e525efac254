/** The help option list: which option is listed for a short option, and which one the parser dispatches to. */
module ArgpHol {
  import opened Common
  import opened ArgpOptions
  import opened ArgpTree
  import opened ArgpConvert

  /** __option_is_short. */
  function Short(o: ArgpOption): bool {
    !o.doc && 32 <= o.key <= 126
  }

  ghost predicate HasShort(rs: seq<Ref>, key: int) {
    exists i :: 0 <= i < |rs| && IsShort(rs[i], key)
  }

  predicate IsShort(r: Ref, key: int) {
    Short(r.opt) && r.opt.key == key
  }

  /** The options that are the first with their short option. */
  ghost function Firsts(rs: seq<Ref>): seq<Ref> {
    if rs == [] then []
    else
      var n := |rs| - 1;
      Firsts(rs[..n]) + (if Short(rs[n].opt) && !HasShort(rs[..n], rs[n].opt.key) then [rs[n]] else [])
  }

  ghost function Keys(rs: seq<Ref>): (ks: seq<int>)
    ensures |ks| == |rs| && forall i :: 0 <= i < |rs| ==> ks[i] == rs[i].opt.key
  {
    seq(|rs|, i requires 0 <= i < |rs| => rs[i].opt.key)
  }

  // ----- first options -----

  lemma {:induction false} FirstsPrefix(rs: seq<Ref>, k: nat)
    requires k <= |rs|
    ensures Firsts(rs[..k]) <= Firsts(rs)
    decreases |rs|
  {
    if k == |rs| {
      assert rs[..k] == rs;
    } else {
      var n := |rs| - 1;
      assert rs[..n][..k] == rs[..k];
      FirstsPrefix(rs[..n], k);
    }
  }

  lemma FirstsStep(rs: seq<Ref>, k: nat)
    requires k < |rs|
    ensures var isFirst := Short(rs[k].opt) && !HasShort(rs[..k], rs[k].opt.key);
            && Firsts(rs[..k + 1]) == Firsts(rs[..k]) + (if isFirst then [rs[k]] else [])
            && Firsts(rs[..k + 1]) <= Firsts(rs)
  {
    assert rs[..k + 1][..k] == rs[..k];
    FirstsPrefix(rs, k + 1);
  }

  /** A short option is in the list exactly when some option has it. */
  lemma {:induction false} FirstsHave(rs: seq<Ref>, key: int)
    ensures key in Keys(Firsts(rs)) <==> HasShort(rs, key)
    decreases |rs|
  {
    if rs != [] {
      var n := |rs| - 1;
      FirstsHave(rs[..n], key);
      var before, all := Keys(Firsts(rs[..n])), Keys(Firsts(rs));
      assert before <= all && rs == rs[..n] + [rs[n]];
      assert HasShort(rs, key) <==> HasShort(rs[..n], key) || IsShort(rs[n], key) by {
        if HasShort(rs[..n], key) {
          var i :| 0 <= i < n && IsShort(rs[..n][i], key);
          assert IsShort(rs[i], key);
        }
        if HasShort(rs, key) {
          var i :| 0 <= i < |rs| && IsShort(rs[i], key);
          assert i < n ==> IsShort(rs[..n][i], key);
        }
      }
      if |all| > |before| {
        assert all == before + [rs[n].opt.key];
      }
    }
  }

  /** The listed short options are the printable keys of the options that are no mere documentation. */
  lemma ShortKeys(rs: seq<Ref>, key: int)
    ensures key in Keys(Firsts(rs)) <==> exists r :: r in rs && r.opt.key == key && !r.opt.doc && 32 <= key <= 126
  {
    hide Firsts;
    FirstsHave(rs, key);
    if r :| r in rs && r.opt.key == key && !r.opt.doc && 32 <= key <= 126 {
      var i :| 0 <= i < |rs| && rs[i] == r;
      assert IsShort(rs[i], key);
    }
  }

  ghost predicate NoDuplicates(ks: seq<int>) {
    forall i, j :: 0 <= i < j < |ks| ==> ks[i] != ks[j]
  }

  lemma {:induction false} FirstsDistinct(rs: seq<Ref>)
    ensures NoDuplicates(Keys(Firsts(rs)))
    decreases |rs|
  {
    if rs != [] {
      var n := |rs| - 1;
      FirstsDistinct(rs[..n]);
      FirstsHave(rs[..n], rs[n].opt.key);
    }
  }

  /** How the code recognises a first option: the next short option of the list is its own. */
  lemma NextIsFirst(rs: seq<Ref>, k: nat)
    requires k < |rs|
    ensures var m, ks := |Firsts(rs[..k])|, Keys(Firsts(rs));
            (Short(rs[k].opt) && m < |ks| && ks[m] == rs[k].opt.key)
            <==> (Short(rs[k].opt) && !HasShort(rs[..k], rs[k].opt.key))
  {
    var m, ks, key := |Firsts(rs[..k])|, Keys(Firsts(rs)), rs[k].opt.key;
    FirstsStep(rs, k);
    FirstsPrefix(rs, k);
    if Short(rs[k].opt) && !HasShort(rs[..k], key) {
      assert Firsts(rs[..k + 1])[m] == rs[k] == Firsts(rs)[m];
    }
    FirstsHave(rs[..k], key);
    FirstsDistinct(rs);
    if HasShort(rs[..k], key) {
      var i :| 0 <= i < m && Keys(Firsts(rs[..k]))[i] == key;
      assert ks[i] == key;
    }
  }

  // ----- the list -----

  /** struct hol_entry: an option with its aliases, and where its short options start. */
  datatype Entry = Entry(opts: seq<Ref>, pos: nat)

  /** struct hol, without its clusters. */
  datatype Hol = Hol(entries: seq<Entry>, shorts: seq<int>)

  ghost function Options(entries: seq<Entry>): seq<Ref> {
    if entries == [] then []
    else Options(entries[..|entries| - 1]) + entries[|entries| - 1].opts
  }

  lemma {:induction false} OptionsConcat(a: seq<Entry>, b: seq<Entry>)
    ensures Options(a + b) == Options(a) + Options(b)
    decreases |b|
  {
    if b == [] {
      assert a + b == a;
    } else {
      var n := |b| - 1;
      assert (a + b)[..|a + b| - 1] == a + b[..n];
      OptionsConcat(a, b[..n]);
    }
  }

  ghost predicate EntryOk(entries: seq<Entry>, i: nat)
    requires i < |entries|
  {
    entries[i].pos == |Firsts(Options(entries[..i]))| && entries[i].opts != []
  }

  /** Every entry has an option and starts where its first options are. */
  ghost predicate EntriesOk(entries: seq<Entry>) {
    forall i :: 0 <= i < |entries| ==> EntryOk(entries, i)
  }

  /** The list holds the options `rs` in order, and every short option once. */
  ghost predicate Lists(h: Hol, rs: seq<Ref>) {
    Options(h.entries) == rs && h.shorts == Keys(Firsts(rs)) && EntriesOk(h.entries)
  }

  /** find_char. */
  method FindChar(key: int, shorts: seq<int>, end: nat) returns (found: bool)
    requires end <= |shorts|
    ensures found <==> key in shorts[..end]
  {
    for i := 0 to end
      invariant key !in shorts[..i]
    {
      if shorts[i] == key {
        return true;
      }
    }
    return false;
  }

  /** The first option of a table is not an alias. */
  predicate StartsReal(options: seq<ArgpOption>) {
    options != [] ==> !options[0].alias
  }

  /** make_hol for the table of group `g`. */
  method MakeHol(g: nat, options: seq<ArgpOption>) returns (h: Hol)
    requires StartsReal(options)
    ensures Lists(h, GroupRefs(g, options)) && |h.entries| == Reals(options)
  {
    hide Firsts, Keys, Options, Reals, EntriesOk, Short;
    var rs := GroupRefs(g, options);
    var entries, shorts, o := [], [], 0;
    NoEntries(rs, options);
    while o < |options|
      invariant o <= |options| && (o < |options| ==> !options[o].alias)
      invariant Options(entries) == rs[..o] && shorts == Keys(Firsts(rs[..o]))
      invariant EntriesOk(entries) && |entries| == Reals(options[..o])
    {
      var first, pos := o, |shorts|;
      RealsStep(options, o);
      shorts := AddShort(rs, o, shorts);
      o := o + 1;
      while o < |options| && options[o].alias
        invariant first < o <= |options| && shorts == Keys(Firsts(rs[..o])) && Reals(options[..o]) == |entries| + 1
      {
        RealsStep(options, o);
        shorts := AddShort(rs, o, shorts);
        o := o + 1;
      }
      AddEntry(entries, Entry(rs[first..o], pos));
      assert rs[..first] + rs[first..o] == rs[..o];
      entries := entries + [Entry(rs[first..o], pos)];
    }
    assert rs[..o] == rs && options[..o] == options;
    h := Hol(entries, shorts);
  }

  lemma NoEntries(rs: seq<Ref>, options: seq<ArgpOption>)
    ensures rs[..0] == [] && options[..0] == [] && Options([]) == [] && Keys(Firsts([])) == [] && Reals([]) == 0
    ensures EntriesOk([])
  {
  }

  lemma RealsStep(options: seq<ArgpOption>, o: nat)
    requires o < |options|
    ensures Reals(options[..o + 1]) == Reals(options[..o]) + (if options[o].alias then 0 else 1)
  {
    assert options[..o + 1][..o] == options[..o];
  }

  /** The number of entries make_hol allocates. */
  function Reals(options: seq<ArgpOption>): nat {
    if options == [] then 0
    else Reals(options[..|options| - 1]) + (if options[|options| - 1].alias then 0 else 1)
  }

  method AddShort(rs: seq<Ref>, k: nat, shorts: seq<int>) returns (shorts': seq<int>)
    requires k < |rs| && shorts == Keys(Firsts(rs[..k]))
    ensures shorts' == Keys(Firsts(rs[..k + 1]))
  {
    shorts' := shorts;
    FirstsHave(rs[..k], rs[k].opt.key);
    FirstsStep(rs, k);
    if Short(rs[k].opt) {
      var used := FindChar(rs[k].opt.key, shorts, |shorts|);
      assert shorts[..|shorts|] == shorts;
      if !used {
        shorts' := shorts' + [rs[k].opt.key];
      }
    }
  }

  lemma AddEntry(entries: seq<Entry>, e: Entry)
    requires EntriesOk(entries) && e.pos == |Firsts(Options(entries))| && e.opts != []
    ensures EntriesOk(entries + [e]) && Options(entries + [e]) == Options(entries) + e.opts
  {
    var more := entries + [e];
    assert more[..|entries|] == entries;
    forall i | 0 <= i < |more|
      ensures EntryOk(more, i)
    {
      assert i < |entries| ==> EntryOk(entries, i) && more[..i] == entries[..i];
    }
  }

  // ----- appending -----

  /** The entries of `hol` and the first `i` of `more` are in `entries`; they hold `rs` and `k` options of `rs'`. */
  ghost predicate Appended(more: seq<Entry>, i: nat, entries: seq<Entry>, rs: seq<Ref>, rs': seq<Ref>, k: nat) {
    && i <= |more| && k <= |rs'| && Options(more) == rs' && Options(more[..i]) == rs'[..k] && EntriesOk(more)
    && Options(entries) == rs + rs'[..k] && EntriesOk(entries)
  }

  lemma AppendedNone(more: seq<Entry>, entries: seq<Entry>, rs: seq<Ref>, rs': seq<Ref>)
    requires Options(entries) == rs && Options(more) == rs' && EntriesOk(entries) && EntriesOk(more)
    ensures Appended(more, 0, entries, rs, rs', 0)
    ensures rs'[..0] == [] && rs + rs'[..0] == rs && |Firsts([])| == 0
  {
    assert more[..0] == [];
  }

  lemma HasOptions(entries: seq<Entry>, i: nat)
    requires EntriesOk(entries) && i < |entries|
    ensures entries[i].opts != []
  {
    assert EntryOk(entries, i);
  }

  lemma AppendedMore(more: seq<Entry>, i: nat, entries: seq<Entry>, rs: seq<Ref>, rs': seq<Ref>, k: nat, pos: nat)
    requires i < |more| && Appended(more, i, entries, rs, rs', k) && pos == |Firsts(rs + rs'[..k])|
    ensures var opts := more[i].opts;
            && k + |opts| <= |rs'| && (forall j :: 0 <= j < |opts| ==> rs'[k + j] == opts[j])
            && Appended(more, i + 1, entries + [Entry(opts, pos)], rs, rs', k + |opts|)
  {
    hide Options, EntriesOk, Firsts;
    OptionsStep(more, i, rs', k);
    var opts := more[i].opts;
    HasOptions(more, i);
    AddEntry(entries, Entry(opts, pos));
    assert rs'[..k + |opts|] == rs'[..k] + opts;
    assert rs + rs'[..k] + opts == rs + (rs'[..k] + opts);
  }

  lemma AppendedAll(more: seq<Entry>, entries: seq<Entry>, rs: seq<Ref>, rs': seq<Ref>, k: nat)
    requires Appended(more, |more|, entries, rs, rs', k)
    ensures Options(entries) == rs + rs' && rs'[..k] == rs' && EntriesOk(entries)
  {
    assert more[..|more|] == more;
  }

  /** hol_append: the options of `hol` shadow those of `more`. */
  method HolAppend(hol: Hol, more: Hol, ghost rs: seq<Ref>, ghost rs': seq<Ref>) returns (h: Hol)
    requires Lists(hol, rs) && Lists(more, rs')
    ensures Lists(h, rs + rs')
  {
    hide Firsts, Keys, EntriesOk, Short, Appended;
    if more.entries == [] {
      assert rs + rs' == rs;
      return hol;
    }
    if hol.entries == [] {
      assert rs + rs' == rs';
      return more;
    }
    hide Options;
    var entries, shorts, next := hol.entries, hol.shorts, 0;
    ghost var k := 0;
    AppendedNone(more.entries, entries, rs, rs');
    for i := 0 to |more.entries|
      invariant 0 <= k <= |rs'| && Appended(more.entries, i, entries, rs, rs', k)
      invariant next == |Firsts(rs'[..k])| && shorts == Keys(Firsts(rs + rs'[..k]))
    {
      var e := more.entries[i];
      AppendedMore(more.entries, i, entries, rs, rs', k, |shorts|);
      entries := entries + [Entry(e.opts, |shorts|)];
      next, shorts := AppendShorts(hol, more, e.opts, next, shorts, rs, rs', k);
      k := k + |e.opts|;
    }
    AppendedAll(more.entries, entries, rs, rs', k);
    h := Hol(entries, shorts);
  }

  /** The inner loop of hol_append, over the options of one entry. */
  method AppendShorts(hol: Hol, more: Hol, opts: seq<Ref>, next: nat, shorts: seq<int>, ghost rs: seq<Ref>,
                      ghost rs': seq<Ref>, ghost k: nat) returns (next': nat, shorts': seq<int>)
    requires hol.shorts == Keys(Firsts(rs)) && more.shorts == Keys(Firsts(rs'))
    requires k + |opts| <= |rs'| && forall j :: 0 <= j < |opts| ==> rs'[k + j] == opts[j]
    requires next == |Firsts(rs'[..k])| && shorts == Keys(Firsts(rs + rs'[..k]))
    ensures next' == |Firsts(rs'[..k + |opts|])| && shorts' == Keys(Firsts(rs + rs'[..k + |opts|]))
  {
    hide Firsts, Keys, Short;
    next', shorts' := next, shorts;
    for j := 0 to |opts|
      invariant next' == |Firsts(rs'[..k + j])| && shorts' == Keys(Firsts(rs + rs'[..k + j]))
    {
      next', shorts' := AppendShort(hol, more, opts[j], next', shorts', rs, rs', k + j);
    }
  }

  lemma OptionsStep(entries: seq<Entry>, i: nat, rs: seq<Ref>, k: nat)
    requires i < |entries| && Options(entries) == rs && k <= |rs| && Options(entries[..i]) == rs[..k]
    ensures k + |entries[i].opts| <= |rs| && rs[k..k + |entries[i].opts|] == entries[i].opts
    ensures Options(entries[..i + 1]) == rs[..k + |entries[i].opts|]
    ensures forall j :: 0 <= j < |entries[i].opts| ==> rs[k + j] == entries[i].opts[j]
  {
    assert entries[..i + 1][..i] == entries[..i];
    assert Options(entries[..i + 1]) == rs[..k] + entries[i].opts;
    assert entries == entries[..i + 1] + entries[i + 1..];
    OptionsConcat(entries[..i + 1], entries[i + 1..]);
    hide Options;
    NextPiece(rs, k, entries[i].opts, Options(entries[i + 1..]));
  }

  lemma NextPiece(rs: seq<Ref>, k: nat, piece: seq<Ref>, rest: seq<Ref>)
    requires k <= |rs| && rs == rs[..k] + piece + rest
    ensures k + |piece| <= |rs| && rs[k..k + |piece|] == piece && rs[..k + |piece|] == rs[..k] + piece
    ensures forall j :: 0 <= j < |piece| ==> rs[k + j] == piece[j]
  {
  }

  /** One option of `more`: it is listed unless an option of `hol` has its short option. */
  method AppendShort(hol: Hol, more: Hol, r: Ref, next: nat, shorts: seq<int>, ghost rs: seq<Ref>, ghost rs': seq<Ref>,
                     ghost k: nat) returns (next': nat, shorts': seq<int>)
    requires hol.shorts == Keys(Firsts(rs)) && more.shorts == Keys(Firsts(rs')) && k < |rs'| && r == rs'[k]
    requires next == |Firsts(rs'[..k])| && shorts == Keys(Firsts(rs + rs'[..k]))
    ensures next' == |Firsts(rs'[..k + 1])| && shorts' == Keys(Firsts(rs + rs'[..k + 1]))
  {
    next', shorts' := next, shorts;
    var ch := if next < |more.shorts| then more.shorts[next] else 0;
    NextIsFirst(rs', k);
    FirstsStep(rs', k);
    AppendFirst(rs, rs', k);
    FirstsHave(rs, r.opt.key);
    if Short(r.opt) && ch == r.opt.key {
      var shadowed := FindChar(ch, hol.shorts, |hol.shorts|);
      assert hol.shorts[..|hol.shorts|] == hol.shorts;
      if !shadowed {
        shorts' := shorts' + [ch];
      }
      next' := next' + 1;
    }
  }

  lemma AppendFirst(rs: seq<Ref>, rs': seq<Ref>, k: nat)
    requires k < |rs'|
    ensures var key := rs'[k].opt.key;
            var isFirst := Short(rs'[k].opt) && !HasShort(rs, key) && !HasShort(rs'[..k], key);
            Firsts(rs + rs'[..k + 1]) == Firsts(rs + rs'[..k]) + (if isFirst then [rs'[k]] else [])
  {
    var all, key := rs + rs'[..k + 1], rs'[k].opt.key;
    assert all[..|rs| + k] == rs + rs'[..k] && all[|rs| + k] == rs'[k];
    assert HasShort(rs + rs'[..k], key) <==> HasShort(rs, key) || HasShort(rs'[..k], key) by {
      HasShortConcat(rs, rs'[..k], key);
    }
  }

  lemma HasShortConcat(a: seq<Ref>, b: seq<Ref>, key: int)
    ensures HasShort(a + b, key) <==> HasShort(a, key) || HasShort(b, key)
  {
    if HasShort(a + b, key) {
      var i :| 0 <= i < |a + b| && IsShort((a + b)[i], key);
      assert if i < |a| then IsShort(a[i], key) else IsShort(b[i - |a|], key);
    }
    if HasShort(a, key) {
      var i :| 0 <= i < |a| && IsShort(a[i], key);
      assert IsShort((a + b)[i], key);
    }
    if HasShort(b, key) {
      var i :| 0 <= i < |b| && IsShort(b[i], key);
      assert IsShort((a + b)[|a| + i], key);
    }
  }

  // ----- the list of a whole tree -----

  function TableOf(a: Argp): seq<ArgpOption> {
    if a.options.Some? then a.options.value else []
  }

  ghost predicate RealTree(a: Argp) {
    StartsReal(TableOf(a)) && RealTrees(a.children)
  }

  ghost predicate RealTrees(cs: Children) {
    match cs
    case End => true
    case Child(a, next) => RealTree(a) && RealTrees(next)
  }

  /** All options of a tree whose first group has number `at`. */
  ghost function TreeRefs(a: Argp, at: nat): seq<Ref> {
    GroupRefs(at, TableOf(a)) + TreesRefs(a.children, if NeedsGroup(a) then at + 1 else at)
  }

  ghost function TreesRefs(cs: Children, at: nat): seq<Ref> {
    match cs
    case End => []
    case Child(a, next) => TreeRefs(a, at) + TreesRefs(next, at + NumGroups(a))
  }

  /** Some parser of the tree has the option in its table. */
  ghost predicate HasOption(a: Argp, o: ArgpOption) {
    exists p :: p in Preorder(a) && p.options.Some? && o in p.options.value
  }

  lemma {:induction false} TreeOption(a: Argp, at: nat, o: ArgpOption)
    ensures (exists r :: r in TreeRefs(a, at) && r.opt == o) <==> HasOption(a, o)
  {
    var own, below := GroupRefs(at, TableOf(a)), TreesRefs(a.children, if NeedsGroup(a) then at + 1 else at);
    TreesOption(a.children, if NeedsGroup(a) then at + 1 else at, o);
    if a.options.Some? && o in a.options.value {
      var i :| 0 <= i < |TableOf(a)| && TableOf(a)[i] == o;
      assert own[i] in own && own[i] in TreeRefs(a, at);
      assert a in Preorder(a);
    }
    if r :| r in own && r.opt == o {
      assert o in TableOf(a) && a in Preorder(a);
    }
  }

  lemma {:induction false} TreesOption(cs: Children, at: nat, o: ArgpOption)
    ensures (exists r :: r in TreesRefs(cs, at) && r.opt == o)
            <==> exists p :: p in PreorderAll(cs) && p.options.Some? && o in p.options.value
  {
    match cs
    case End =>
    case Child(a, next) =>
      TreeOption(a, at, o);
      TreesOption(next, at + NumGroups(a), o);
  }

  lemma TreeKeys(a: Argp, key: int)
    ensures key in Keys(Firsts(TreeRefs(a, 0))) <==>
            exists o :: HasOption(a, o) && o.key == key && !o.doc && 32 <= key <= 126
  {
    hide Firsts, TreeRefs, HasOption;
    ShortKeys(TreeRefs(a, 0), key);
    forall o
      ensures (exists r :: r in TreeRefs(a, 0) && r.opt == o) <==> HasOption(a, o)
    {
      TreeOption(a, 0, o);
    }
  }

  /** argp_hol; `at` only names the options by the group they will be found in. */
  method ArgpHol(a: Argp, at: nat) returns (h: Hol)
    requires RealTree(a)
    ensures Lists(h, TreeRefs(a, at))
    decreases a
  {
    hide Lists;
    h := MakeHol(at, TableOf(a));
    ghost var done := GroupRefs(at, TableOf(a));
    var child, g: nat := a.children, if NeedsGroup(a) then at + 1 else at;
    while child.Child?
      invariant child == a.children || child < a.children
      invariant RealTrees(child) && Lists(h, done) && TreeRefs(a, at) == done + TreesRefs(child, g)
      decreases child
    {
      var more := ArgpHol(child.argp, g);
      h := HolAppend(h, more, done, TreeRefs(child.argp, g));
      done, g, child := done + TreeRefs(child.argp, g), g + NumGroups(child.argp), child.next;
    }
    assert done + [] == done;
  }

  /** The option that listed options stand for: the last of them that is no alias, else the first of the entry. */
  function RealOf(listed: seq<Ref>, first: Ref): Ref {
    if listed == [] then first
    else if !listed[|listed| - 1].opt.alias then listed[|listed| - 1]
    else RealOf(listed[..|listed| - 1], first)
  }

  /** The callbacks for listed options: one for each that is visible, with the option it stands for. */
  function Callbacks(listed: seq<Ref>, first: Ref): seq<(Ref, Ref)> {
    if listed == [] then []
    else
      var n := |listed| - 1;
      Callbacks(listed[..n], first) + (if listed[n].opt.hidden then [] else [(listed[n], RealOf(listed, first))])
  }

  lemma CallbackMore(listed: seq<Ref>, r: Ref, first: Ref)
    ensures RealOf(listed + [r], first) == if r.opt.alias then RealOf(listed, first) else r
    ensures Callbacks(listed + [r], first)
            == Callbacks(listed, first) + (if r.opt.hidden then [] else [(r, RealOf(listed + [r], first))])
  {
    assert (listed + [r])[..|listed|] == listed;
  }

  /**
    hol_entry_short_iterate with a callback that never stops it: of the options of an entry, those that are the first
    with their key are listed, and the callback gets the visible ones of them.
  */
  method ShortIterate(h: Hol, i: nat, ghost rs: seq<Ref>) returns (calls: seq<(Ref, Ref)>)
    requires Lists(h, rs) && i < |h.entries|
    ensures h.entries[i].opts != []
    ensures var k := |Options(h.entries[..i])|;
            var end := k + |h.entries[i].opts|;
            && end <= |rs| && Firsts(rs[..k]) <= Firsts(rs[..end])
            && calls == Callbacks(Firsts(rs[..end])[|Firsts(rs[..k])|..], h.entries[i].opts[0])
  {
    hide Firsts, Keys, Short, Options, Callbacks, RealOf;
    var e := h.entries[i];
    HasOptions(h.entries, i);
    ghost var k, first := |Options(h.entries[..i])|, e.opts[0];
    OptionsUpTo(h.entries, i, rs);
    OptionsStep(h.entries, i, rs, k);
    assert EntryOk(h.entries, i);
    var so, genuine := e.pos, e.opts[0];
    calls := [];
    ghost var listed: seq<Ref> := [];
    NoCallbacks(first, rs[..k]);
    for j := 0 to |e.opts|
      invariant Firsts(rs[..k + j]) == Firsts(rs[..k]) + listed && so == |Firsts(rs[..k + j])|
      invariant calls == Callbacks(listed, first) && genuine == RealOf(listed, first)
    {
      var r := e.opts[j];
      NextIsFirst(rs, k + j);
      FirstsStep(rs, k + j);
      if Short(r.opt) && so < |h.shorts| && h.shorts[so] == r.opt.key {
        CallbackMore(listed, r, first);
        if !r.opt.alias {
          genuine := r;
        }
        if !r.opt.hidden {
          calls := calls + [(r, genuine)];
        }
        listed, so := listed + [r], so + 1;
      }
    }
    assert (Firsts(rs[..k]) + listed)[|Firsts(rs[..k])|..] == listed;
  }

  lemma NoCallbacks(first: Ref, before: seq<Ref>)
    ensures Callbacks([], first) == [] && RealOf([], first) == first && Firsts(before) + [] == Firsts(before)
  {
  }

  lemma OptionsUpTo(entries: seq<Entry>, i: nat, rs: seq<Ref>)
    requires i <= |entries| && Options(entries) == rs
    ensures var k := |Options(entries[..i])|; k <= |rs| && Options(entries[..i]) == rs[..k]
  {
    OptionsConcat(entries[..i], entries[i..]);
    assert entries == entries[..i] + entries[i..];
  }

  // ----- help and parser agree -----

  /** The parser dispatches every listed short option to the option it is listed for. */
  ghost predicate Agree(rs: seq<Ref>) {
    forall r :: r in Firsts(rs) ==> FirstKey(rs, r.opt.key) == Some(r)
  }

  /** An OPTION_DOC entry takes no key from a later short option that no earlier option has. */
  ghost predicate DocsHarmless(rs: seq<Ref>) {
    forall i, j :: 0 <= i < j < |rs| && rs[i].opt.doc && IsShort(rs[j], rs[i].opt.key) ==>
      HasShort(rs[..i], rs[i].opt.key)
  }

  lemma {:induction false} FirstsAre(rs: seq<Ref>, r: Ref)
    requires r in Firsts(rs)
    ensures exists j :: 0 <= j < |rs| && rs[j] == r && Short(r.opt) && !HasShort(rs[..j], r.opt.key)
    decreases |rs|
  {
    var n := |rs| - 1;
    if r in Firsts(rs[..n]) {
      FirstsAre(rs[..n], r);
      var j :| 0 <= j < n && rs[..n][j] == r && Short(r.opt) && !HasShort(rs[..n][..j], r.opt.key);
      assert rs[j] == r && rs[..n][..j] == rs[..j];
    } else {
      assert rs[n] == r;
    }
  }

  /** The first short option with a key. */
  lemma {:induction false} FirstShort(rs: seq<Ref>, key: int) returns (j: nat)
    requires HasShort(rs, key)
    ensures j < |rs| && IsShort(rs[j], key) && !HasShort(rs[..j], key) && rs[j] in Firsts(rs)
    decreases |rs|
  {
    var n := |rs| - 1;
    assert rs == rs[..n] + [rs[n]];
    HasShortConcat(rs[..n], [rs[n]], key);
    if HasShort(rs[..n], key) {
      j := FirstShort(rs[..n], key);
      assert rs[..n][..j] == rs[..j];
    } else {
      j := n;
    }
  }

  lemma ShortBefore(rs: seq<Ref>, j: nat, key: int)
    requires j <= |rs|
    ensures HasShort(rs[..j], key) <==> exists i :: 0 <= i < j && IsShort(rs[i], key)
  {
    if i :| 0 <= i < j && IsShort(rs[i], key) {
      assert IsShort(rs[..j][i], key);
    }
  }

  lemma HarmlessDispatch(rs: seq<Ref>, r: Ref)
    requires DocsHarmless(rs) && r in Firsts(rs)
    ensures FirstKey(rs, r.opt.key) == Some(r)
  {
    hide Firsts, FirstKey;
    var key := r.opt.key;
    FirstsAre(rs, r);
    var j :| 0 <= j < |rs| && rs[j] == r && Short(r.opt) && !HasShort(rs[..j], key);
    FirstKeyIsFirst(rs, key);
    var i :| 0 <= i < |rs| && Some(rs[i]) == FirstKey(rs, key) && rs[i].opt.key == key
             && forall k :: 0 <= k < i ==> rs[k].opt.key != key;
    assert i <= j && IsShort(rs[j], key);
    ShortBefore(rs, j, key);
    ShortBefore(rs, i, key);
  }

  lemma HarmfulDoc(rs: seq<Ref>, i: nat, j: nat)
    requires i < j < |rs| && rs[i].opt.doc && IsShort(rs[j], rs[i].opt.key) && !HasShort(rs[..i], rs[i].opt.key)
    ensures !Agree(rs)
  {
    hide Firsts, FirstKey;
    var key := rs[i].opt.key;
    assert HasShort(rs, key);
    var first := FirstShort(rs, key);
    FirstKeyIsFirst(rs, key);
    var k :| 0 <= k < |rs| && Some(rs[k]) == FirstKey(rs, key) && rs[k].opt.key == key
             && forall k' :: 0 <= k' < k ==> rs[k'].opt.key != key;
    assert k <= i;
    ShortBefore(rs, i, key);
  }

  /** Help and parser agree on every listed short option exactly when no OPTION_DOC entry gets in between. */
  lemma AgreeIffDocsHarmless(rs: seq<Ref>)
    ensures Agree(rs) <==> DocsHarmless(rs)
  {
    hide Firsts, FirstKey;
    if DocsHarmless(rs) {
      forall r | r in Firsts(rs)
        ensures FirstKey(rs, r.opt.key) == Some(r)
      {
        HarmlessDispatch(rs, r);
      }
    } else {
      var i, j :| 0 <= i < j < |rs| && rs[i].opt.doc && IsShort(rs[j], rs[i].opt.key)
                  && !HasShort(rs[..i], rs[i].opt.key);
      HarmfulDoc(rs, i, j);
    }
  }

  // ----- the options of the list are the options of the groups -----

  ghost function GroupsOf(nodes: seq<Node>): (gs: seq<Group>)
    ensures |gs| == |nodes|
  {
    seq(|nodes|, i requires 0 <= i < |nodes| => Group(TableOf(nodes[i].argp), nodes[i].argp.parser))
  }

  /** The options of groups that are numbered from `at` on. */
  ghost function Numbered(gs: seq<Group>, at: nat): seq<Ref> {
    if gs == [] then [] else GroupRefs(at, gs[0].options) + Numbered(gs[1..], at + 1)
  }

  lemma {:induction false} NumberedConcat(a: seq<Group>, b: seq<Group>, at: nat)
    ensures Numbered(a + b, at) == Numbered(a, at) + Numbered(b, at + |a|)
    decreases |a|
  {
    if a == [] {
      assert a + b == b;
    } else {
      assert (a + b)[1..] == a[1..] + b;
      NumberedConcat(a[1..], b, at + 1);
    }
  }

  lemma {:induction false} FlatIsNumbered(groups: seq<Group>)
    ensures Flat(groups) == Numbered(groups, 0)
    decreases |groups|
  {
    if groups != [] {
      var n := |groups| - 1;
      FlatIsNumbered(groups[..n]);
      NumberedConcat(groups[..n], [groups[n]], 0);
      assert groups == groups[..n] + [groups[n]];
      assert Numbered([groups[n]], n) == GroupRefs(n, groups[n].options) + [];
    }
  }

  lemma {:induction false} TreeIsNumbered(a: Argp, parent: Option<nat>, index: nat, at: nat)
    ensures TreeRefs(a, at) == Numbered(GroupsOf(Nodes(a, parent, index, at)), at)
  {
    var nodes := Nodes(a, parent, index, at);
    if NeedsGroup(a) {
      TreesAreNumbered(a.children, Some(at), 0, at + 1);
      assert GroupsOf(nodes)[1..] == GroupsOf(NodesAll(a.children, Some(at), 0, at + 1));
    } else {
      TreesAreNumbered(a.children, None, 0, at);
    }
  }

  lemma GroupsConcat(a: seq<Node>, b: seq<Node>)
    ensures GroupsOf(a + b) == GroupsOf(a) + GroupsOf(b)
  {
  }

  lemma {:induction false} TreesAreNumbered(cs: Children, parent: Option<nat>, index: nat, at: nat)
    ensures TreesRefs(cs, at) == Numbered(GroupsOf(NodesAll(cs, parent, index, at)), at)
  {
    match cs
    case End =>
    case Child(a, next) =>
      var first := Nodes(a, parent, index, at);
      var rest := NodesAll(next, parent, index + 1, at + |first|);
      assert NodesAll(cs, parent, index, at) == first + rest;
      hide Nodes, NodesAll, TreeRefs, Numbered, GroupsOf;
      SizesAgree(a, parent, index, at);
      TreeIsNumbered(a, parent, index, at);
      TreesAreNumbered(next, parent, index + 1, at + |first|);
      GroupsConcat(first, rest);
      NumberedConcat(GroupsOf(first), GroupsOf(rest), at);
  }

  /**
    For a whole tree of parsers: argp_hol lists no short option twice, and if no OPTION_DOC entry has a printable
    key, the option listed for a key is the one find_short_option finds in the groups of convert_options.
  */
  method HelpAgreesWithParser(a: Argp) returns (h: Hol)
    requires RealTree(a)
    ensures Lists(h, TreeRefs(a, 0)) && NoDuplicates(h.shorts)
    ensures forall key :: key in h.shorts <==>
              exists o :: HasOption(a, o) && o.key == key && !o.doc && 32 <= key <= 126
    ensures TreeRefs(a, 0) == Flat(GroupsOf(Nodes(a, None, 0, 0)))
    ensures (forall r :: r in TreeRefs(a, 0) && r.opt.doc ==> !(32 <= r.opt.key <= 126)) ==> Agree(TreeRefs(a, 0))
  {
    hide Lists, Nodes, GroupsOf, TreeRefs, Agree;
    h := ArgpHol(a, 0);
    var rs := TreeRefs(a, 0);
    FirstsDistinct(rs);
    assert h.shorts == Keys(Firsts(rs)) by {
      ShortsOf(h, rs);
    }
    forall key
      ensures key in h.shorts <==> exists o :: HasOption(a, o) && o.key == key && !o.doc && 32 <= key <= 126
    {
      TreeKeys(a, key);
    }
    TreeIsNumbered(a, None, 0, 0);
    FlatIsNumbered(GroupsOf(Nodes(a, None, 0, 0)));
    AgreeIffDocsHarmless(rs);
  }

  lemma ShortsOf(h: Hol, rs: seq<Ref>)
    requires Lists(h, rs)
    ensures h.shorts == Keys(Firsts(rs))
  {
  }
}
