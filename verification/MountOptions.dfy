/** The option string of a FUSE mount: splitting, unescaping, and folding into flags. */
module MountOptions {
  import opened Common

  // ----- splitting -----

  /** The length of the option a string starts with: up to a comma that no backslash escapes. */
  function OptLen(s: string): (n: nat)
    ensures n <= |s| && (n < |s| ==> s[n] == ',')
  {
    if s == "" then 0
    else if s[0] == '\\' && |s| > 1 then 2 + OptLen(s[2..])
    else if s[0] == ',' then 0
    else 1 + OptLen(s[1..])
  }

  /** What follows the option a string starts with, and its comma. */
  function AfterOpt(s: string): string {
    if OptLen(s) < |s| then s[OptLen(s) + 1..] else ""
  }

  function Split(s: string): seq<string>
    decreases |s|
  {
    if s == "" then [] else [s[..OptLen(s)]] + Split(AfterOpt(s))
  }

  function EscapeChar(c: char): string {
    if c == ',' || c == '\\' then ['\\', c] else [c]
  }

  /** An option with its commas and backslashes escaped. */
  function Escape(o: string): string {
    if o == "" then "" else EscapeChar(o[0]) + Escape(o[1..])
  }

  function Unescape(s: string): string {
    if s == "" then ""
    else if s[0] == '\\' && |s| > 1 then [s[1]] + Unescape(s[2..])
    else [s[0]] + Unescape(s[1..])
  }

  function EscapeAll(os: seq<string>): (r: seq<string>)
    ensures |r| == |os| && forall i :: 0 <= i < |os| ==> r[i] == Escape(os[i])
  {
    seq(|os|, i requires 0 <= i < |os| => Escape(os[i]))
  }

  /** Options joined by commas. */
  function Join(os: seq<string>): string {
    if os == [] then "" else if |os| == 1 then os[0] else os[0] + "," + Join(os[1..])
  }

  lemma {:induction false} UnescapeEscape(o: string)
    ensures Unescape(Escape(o)) == o && (Escape(o) == "" <==> o == "")
  {
    if o != "" {
      UnescapeEscape(o[1..]);
      var e := Escape(o);
      if o[0] == ',' || o[0] == '\\' {
        assert e[2..] == Escape(o[1..]);
      } else {
        assert e[1..] == Escape(o[1..]);
      }
    }
  }

  lemma OptLenStep(c: char, tail: string)
    ensures OptLen(['\\', c] + tail) == 2 + OptLen(tail)
    ensures c != ',' && c != '\\' ==> OptLen([c] + tail) == 1 + OptLen(tail)
  {
    assert (['\\', c] + tail)[2..] == tail && ([c] + tail)[1..] == tail;
  }

  /** An escaped option ends where the next comma, or the string, says. */
  lemma {:induction false} EscapedLength(o: string, rest: string)
    requires rest == "" || rest[0] == ','
    ensures OptLen(Escape(o) + rest) == |Escape(o)|
  {
    hide OptLen, Escape;
    EscapeStep(o);
    if o == "" {
      assert Escape(o) + rest == rest;
      assert OptLen(rest) == 0 by {
        OptLenZero(rest);
      }
    } else {
      EscapedLength(o[1..], rest);
      var first, tail := EscapeChar(o[0]), Escape(o[1..]) + rest;
      OptLenStep(o[0], tail);
      assert Escape(o) + rest == first + tail;
    }
  }

  lemma OptLenZero(rest: string)
    requires rest == "" || rest[0] == ','
    ensures OptLen(rest) == 0
  {
  }

  lemma EscapeStep(o: string)
    ensures Escape(o) == if o == "" then "" else EscapeChar(o[0]) + Escape(o[1..])
  {
  }

  lemma SplitFirst(o: string, rest: string)
    ensures Split(Escape(o) + "," + rest) == [Escape(o)] + Split(rest)
  {
    var e := Escape(o) + "," + rest;
    assert e == Escape(o) + ("," + rest);
    EscapedLength(o, "," + rest);
    assert e[..OptLen(e)] == Escape(o) && AfterOpt(e) == rest;
  }

  /** Splitting gives back the options that were escaped and joined, unless the last of them is empty. */
  lemma {:induction false} SplitInvertsJoin(os: seq<string>)
    ensures Split(Join(EscapeAll(os))) == EscapeAll(os) <==> os == [] || os[|os| - 1] != ""
    decreases |os|
  {
    var es := EscapeAll(os);
    if |os| == 1 {
      UnescapeEscape(os[0]);
      EscapedLength(os[0], "");
      assert Escape(os[0]) + "" == Escape(os[0]);
      var e := Escape(os[0]);
      if e != "" {
        assert e[..OptLen(e)] == e && AfterOpt(e) == "" && Split(e) == [e];
      }
    } else if |os| > 1 {
      assert es[1..] == EscapeAll(os[1..]);
      SplitInvertsJoin(os[1..]);
      SplitFirst(os[0], Join(es[1..]));
      var rest := Split(Join(es[1..]));
      assert es == [es[0]] + es[1..];
      assert rest == es[1..] <==> [es[0]] + rest == es by {
        assert ([es[0]] + rest)[1..] == rest;
      }
    }
  }

  // ----- prefixes -----

  predicate BeginsWith(s: string, beg: string) {
    beg <= s
  }

  /** A prefix without commas and backslashes lies within the option, so its length can be taken off. */
  lemma {:induction false} PrefixWithin(s: string, beg: string)
    requires ',' !in beg && '\\' !in beg
    ensures BeginsWith(s, beg) <==> BeginsWith(s[..OptLen(s)], beg)
    decreases |beg|
  {
    if beg != "" && s != "" && s[0] == beg[0] {
      assert beg[0] in beg;
      PrefixWithin(s[1..], beg[1..]);
      var n := OptLen(s);
      assert s[..n][1..] == s[1..][..n - 1];
      assert BeginsWith(s, beg) <==> BeginsWith(s[1..], beg[1..]) by {
        assert s == [s[0]] + s[1..] && beg == [beg[0]] + beg[1..];
      }
      assert BeginsWith(s[..n], beg) <==> BeginsWith(s[..n][1..], beg[1..]) by {
        assert s[..n] == [s[0]] + s[..n][1..] && beg == [beg[0]] + beg[1..];
      }
    }
  }

  // ----- flags -----

  datatype Flag = RdOnly | NoSuid | NoDev | NoExec | Synchronous | NoAtime | DirSync

  /** A row of the table of mount flags. */
  datatype Row = Row(opt: string, flag: Flag, on: bool, safe: bool)

  const MOUNT_FLAGS: seq<Row> := [
    Row("rw", RdOnly, false, true), Row("ro", RdOnly, true, true),
    Row("suid", NoSuid, false, false), Row("nosuid", NoSuid, true, true),
    Row("dev", NoDev, false, false), Row("nodev", NoDev, true, true),
    Row("exec", NoExec, false, true), Row("noexec", NoExec, true, true),
    Row("async", Synchronous, false, true), Row("sync", Synchronous, true, true),
    Row("atime", NoAtime, false, true), Row("noatime", NoAtime, true, true),
    Row("dirsync", DirSync, true, true)]

  /** The first row of the table for an option. */
  function RowOf(rows: seq<Row>, o: string): Option<Row> {
    if rows == [] then None else if rows[0].opt == o then Some(rows[0]) else RowOf(rows[1..], o)
  }

  /** Who mounts, and what the system allows. */
  datatype Context = Context(root: bool, userAllowOther: bool, newKernel: bool)

  /** find_mount_flag: an unsafe option of a user who is not root is recognised but has no effect. */
  method FindMountFlag(o: string, c: Context) returns (row: Option<Row>, effective: bool)
    ensures row == RowOf(MOUNT_FLAGS, o) && (row.Some? ==> effective == (row.value.safe || c.root))
    ensures match row
            case None => Named(o).None?
            case Some(r) => Named(o) == Some((r.flag, r.on)) && (effective <==> (o != "suid" && o != "dev") || c.root)
  {
    RowByName(o);
    assert MOUNT_FLAGS[0..] == MOUNT_FLAGS;
    for i := 0 to |MOUNT_FLAGS|
      invariant RowOf(MOUNT_FLAGS, o) == RowOf(MOUNT_FLAGS[i..], o)
    {
      hide MOUNT_FLAGS;
      assert MOUNT_FLAGS[i..][1..] == MOUNT_FLAGS[i + 1..];
      if MOUNT_FLAGS[i].opt == o {
        return Some(MOUNT_FLAGS[i]), MOUNT_FLAGS[i].safe || c.root;
      }
    }
    return None, false;
  }

  // ----- folding the options -----

  /** What the options amount to; `text` is what is left for the kernel. */
  datatype Settings = Settings(flags: set<Flag>, fsname: Option<string>, subtype: Option<string>, checkEmpty: bool,
                               blkdev: bool, text: string)

  const INITIAL := Settings({NoSuid, NoDev}, None, None, true, false, "")

  predicate Privileged(o: string, c: Context) {
    !c.root && (o == "blkdev" || (!c.userAllowOther && (o == "allow_other" || o == "allow_root")))
  }

  predicate Dropped(o: string) {
    BeginsWith(o, "fd=") || BeginsWith(o, "rootmode=") || BeginsWith(o, "user_id=") || BeginsWith(o, "group_id=")
  }

  function SetFlag(flags: set<Flag>, o: string, c: Context): set<Flag> {
    var row := RowOf(MOUNT_FLAGS, o);
    if row.None? || !(row.value.safe || c.root) then flags
    else if row.value.on then flags + {row.value.flag}
    else flags - {row.value.flag}
  }

  /** One option that is not refused. */
  function Fold1(st: Settings, o: string, c: Context): Settings {
    if BeginsWith(o, "fsname=") then st.(fsname := Some(Unescape(o[7..])))
    else if BeginsWith(o, "subtype=") then st.(subtype := Some(Unescape(o[8..])))
    else if o == "blkdev" then st.(blkdev := true)
    else if o == "nonempty" then st.(checkEmpty := false)
    else if Dropped(o) || (o == "large_read" && c.newKernel) then st
    else if RowOf(MOUNT_FLAGS, o).Some? then st.(flags := SetFlag(st.flags, o, c))
    else st.(text := st.text + o + ",")
  }

  /** None is an option only root may give. */
  function Fold(os: seq<string>, c: Context): Option<Settings> {
    if os == [] then Some(INITIAL)
    else
      var n := |os| - 1;
      var st := Fold(os[..n], c);
      if st.None? || Privileged(os[n], c) then None else Some(Fold1(st.value, os[n], c))
  }

  // ----- what the fold means -----

  lemma {:induction false} RefusedIff(os: seq<string>, c: Context)
    ensures Fold(os, c).None? <==> exists o :: o in os && Privileged(o, c)
    decreases |os|
  {
    if os != [] {
      var n := |os| - 1;
      RefusedIff(os[..n], c);
      assert os == os[..n] + [os[n]];
    }
  }

  /** The option says whether the flag is set, and the user may say so. */
  predicate Mentions(o: string, f: Flag, c: Context) {
    var row := RowOf(MOUNT_FLAGS, o);
    row.Some? && row.value.flag == f && (row.value.safe || c.root)
  }

  /** The last option that mentions a flag. */
  function LastMention(os: seq<string>, f: Flag, c: Context): Option<Row> {
    if os == [] then None
    else
      var n := |os| - 1;
      if Mentions(os[n], f, c) then RowOf(MOUNT_FLAGS, os[n]) else LastMention(os[..n], f, c)
  }

  lemma {:induction false} RowIn(rows: seq<Row>, o: string)
    requires RowOf(rows, o).Some?
    ensures RowOf(rows, o).value in rows && RowOf(rows, o).value.opt == o
  {
    if rows[0].opt != o {
      RowIn(rows[1..], o);
    }
  }

  /** The names in the table are none of the other options; only unsafe rows clear nosuid and nodev. */
  lemma Rows(r: Row)
    requires r in MOUNT_FLAGS
    ensures 0 < |r.opt| <= 7 && r.opt[0] != 'f' && r.opt[0] != 'b'
    ensures r.safe && !r.on ==> r.flag != NoSuid && r.flag != NoDev
  {
  }

  lemma FlagOption(st: Settings, o: string, c: Context)
    ensures Fold1(st, o, c).flags == SetFlag(st.flags, o, c)
  {
    hide MOUNT_FLAGS, RowOf;
    if RowOf(MOUNT_FLAGS, o).Some? {
      RowIn(MOUNT_FLAGS, o);
      Rows(RowOf(MOUNT_FLAGS, o).value);
    }
  }

  /** The last mention of a flag decides; without one, nosuid and nodev are on. */
  lemma {:induction false} LastMentionWins(os: seq<string>, c: Context, f: Flag)
    requires Fold(os, c).Some?
    ensures f in Fold(os, c).value.flags <==>
            match LastMention(os, f, c) case Some(row) => row.on case None => f == NoSuid || f == NoDev
    decreases |os|
  {
    if os != [] {
      var n := |os| - 1;
      LastMentionWins(os[..n], c, f);
      FlagOption(Fold(os[..n], c).value, os[n], c);
    }
  }

  /** Nobody but root can do without nosuid and nodev. */
  lemma {:induction false} UsersStaySafe(os: seq<string>, c: Context)
    requires !c.root && Fold(os, c).Some?
    ensures {NoSuid, NoDev} <= Fold(os, c).value.flags
    decreases |os|
  {
    if os != [] {
      var n := |os| - 1;
      UsersStaySafe(os[..n], c);
      FlagOption(Fold(os[..n], c).value, os[n], c);
      hide MOUNT_FLAGS;
      if RowOf(MOUNT_FLAGS, os[n]).Some? {
        RowIn(MOUNT_FLAGS, os[n]);
        Rows(RowOf(MOUNT_FLAGS, os[n]).value);
      }
    }
  }

  // ----- the flags by the names of their options -----

  /** `on` is given, and after it no `off`. */
  ghost predicate LastIs(os: seq<string>, on: string, off: string) {
    exists i :: 0 <= i < |os| && os[i] == on && forall j :: i < j < |os| ==> os[j] != off
  }

  lemma LastIsNext(os: seq<string>, on: string, off: string)
    requires os != [] && on != off
    ensures var n := |os| - 1;
            LastIs(os, on, off) <==> os[n] == on || (LastIs(os[..n], on, off) && os[n] != off)
  {
    var n := |os| - 1;
    if LastIs(os, on, off) && os[n] != on {
      var i :| 0 <= i < |os| && os[i] == on && forall j :: i < j < |os| ==> os[j] != off;
      assert os[..n][i] == on;
      assert os[n] != off;
    }
    if LastIs(os[..n], on, off) && os[n] != off {
      var i :| 0 <= i < n && os[..n][i] == on && forall j :: i < j < n ==> os[..n][j] != off;
      assert os[i] == on && forall j :: i < j < n ==> os[j] == os[..n][j];
    }
  }

  lemma {:induction false} RowFound(rows: seq<Row>, r: Row)
    requires r in rows
    ensures RowOf(rows, r.opt).Some?
  {
    if rows[0].opt != r.opt {
      RowFound(rows[1..], r);
    }
  }

  /** The flag an option is about and whether it turns it on. */
  function Named(o: string): Option<(Flag, bool)> {
    if o == "ro" then Some((RdOnly, true)) else if o == "rw" then Some((RdOnly, false))
    else if o == "nosuid" then Some((NoSuid, true)) else if o == "suid" then Some((NoSuid, false))
    else if o == "nodev" then Some((NoDev, true)) else if o == "dev" then Some((NoDev, false))
    else if o == "noexec" then Some((NoExec, true)) else if o == "exec" then Some((NoExec, false))
    else if o == "sync" then Some((Synchronous, true)) else if o == "async" then Some((Synchronous, false))
    else if o == "noatime" then Some((NoAtime, true)) else if o == "atime" then Some((NoAtime, false))
    else if o == "dirsync" then Some((DirSync, true)) else None
  }

  ghost predicate AsNamed(r: Row) {
    Named(r.opt) == Some((r.flag, r.on)) && (r.safe <==> r.opt != "suid" && r.opt != "dev") && (r.on ==> r.safe)
  }

  lemma FirstNamed(i: nat)
    requires i < 6
    ensures AsNamed(MOUNT_FLAGS[i])
  {
  }

  lemma LaterNamed(i: nat)
    requires 6 <= i < 13
    ensures AsNamed(MOUNT_FLAGS[i])
  {
  }

  lemma RowNamed(r: Row)
    requires r in MOUNT_FLAGS
    ensures AsNamed(r)
  {
    assert |MOUNT_FLAGS| == 13;
    hide AsNamed, MOUNT_FLAGS;
    var i :| 0 <= i < |MOUNT_FLAGS| && MOUNT_FLAGS[i] == r;
    if i < 6 {
      FirstNamed(i);
    } else {
      LaterNamed(i);
    }
  }

  lemma NamedRow(o: string) returns (r: Row)
    requires Named(o).Some?
    ensures r in MOUNT_FLAGS && r.opt == o
  {
    r := Row(o, Named(o).value.0, Named(o).value.1, o != "suid" && o != "dev");
  }

  lemma RowByName(o: string)
    ensures match RowOf(MOUNT_FLAGS, o)
            case None => Named(o).None?
            case Some(r) =>
              Named(o) == Some((r.flag, r.on)) && (r.safe <==> o != "suid" && o != "dev") && (r.on ==> r.safe)
  {
    hide MOUNT_FLAGS, Named;
    if RowOf(MOUNT_FLAGS, o).Some? {
      RowIn(MOUNT_FLAGS, o);
      RowNamed(RowOf(MOUNT_FLAGS, o).value);
    } else if Named(o).Some? {
      var r := NamedRow(o);
      RowFound(MOUNT_FLAGS, r);
    }
  }

  /** What one option does to a flag. */
  lemma FlagNext(flags: set<Flag>, o: string, c: Context, f: Flag)
    ensures f in SetFlag(flags, o, c) <==>
            if Named(o) == Some((f, true)) then true
            else f in flags && (Named(o) == Some((f, false)) ==> !c.root && (o == "suid" || o == "dev"))
  {
    hide MOUNT_FLAGS, RowOf, Named;
    RowByName(o);
  }

  /** A flag that is off at first is set exactly when the last of its two options is the one that sets it. */
  lemma {:induction false} FlagIsLast(os: seq<string>, c: Context, f: Flag, on: string, off: string)
    requires Fold(os, c).Some? && f != NoSuid && f != NoDev && on != off && off != "suid" && off != "dev"
    requires forall o :: Named(o) == Some((f, true)) <==> o == on
    requires forall o :: Named(o) == Some((f, false)) <==> o == off
    ensures f in Fold(os, c).value.flags <==> LastIs(os, on, off)
    decreases |os|
  {
    hide Fold1, LastIs, Named;
    if os == [] {
      assert !LastIs(os, on, off) by { LastOfNone(on, off); }
    } else {
      var n := |os| - 1;
      FlagIsLast(os[..n], c, f, on, off);
      FlagOption(Fold(os[..n], c).value, os[n], c);
      FlagNext(Fold(os[..n], c).value.flags, os[n], c, f);
      LastIsNext(os, on, off);
    }
  }

  lemma LastOfNone(on: string, off: string)
    ensures !LastIs([], on, off)
  {
  }

  /** For root, a flag that is on at first is cleared exactly when the last of its two options clears it. */
  lemma {:induction false} FlagUnlessLast(os: seq<string>, c: Context, f: Flag, on: string, off: string)
    requires Fold(os, c).Some? && (f == NoSuid || f == NoDev) && on != off && c.root
    requires forall o :: Named(o) == Some((f, true)) <==> o == on
    requires forall o :: Named(o) == Some((f, false)) <==> o == off
    ensures f in Fold(os, c).value.flags <==> !LastIs(os, off, on)
    decreases |os|
  {
    hide Fold1, LastIs, Named;
    if os == [] {
      assert !LastIs(os, off, on) by { LastOfNone(off, on); }
    } else {
      var n := |os| - 1;
      FlagUnlessLast(os[..n], c, f, on, off);
      FlagOption(Fold(os[..n], c).value, os[n], c);
      FlagNext(Fold(os[..n], c).value.flags, os[n], c, f);
      LastIsNext(os, off, on);
    }
  }

  lemma DirSyncName(o: string)
    ensures Named(o) == Some((DirSync, true)) <==> o == "dirsync"
    ensures Named(o) != Some((DirSync, false))
  {
  }

  lemma {:induction false} DirSyncIfGiven(os: seq<string>, c: Context)
    requires Fold(os, c).Some?
    ensures DirSync in Fold(os, c).value.flags <==> "dirsync" in os
    decreases |os|
  {
    hide Fold1, Named;
    if os != [] {
      var n := |os| - 1;
      DirSyncName(os[n]);
      DirSyncIfGiven(os[..n], c);
      FlagOption(Fold(os[..n], c).value, os[n], c);
      FlagNext(Fold(os[..n], c).value.flags, os[n], c, DirSync);
      assert os == os[..n] + [os[n]];
    }
  }

  /** Every flag, by the names of the options that decide it. */
  ghost predicate FlagsAsGiven(os: seq<string>, flags: set<Flag>, root: bool) {
    && (RdOnly in flags <==> LastIs(os, "ro", "rw"))
    && (NoExec in flags <==> LastIs(os, "noexec", "exec"))
    && (Synchronous in flags <==> LastIs(os, "sync", "async"))
    && (NoAtime in flags <==> LastIs(os, "noatime", "atime"))
    && (DirSync in flags <==> "dirsync" in os)
    && (NoSuid in flags <==> !root || !LastIs(os, "suid", "nosuid"))
    && (NoDev in flags <==> !root || !LastIs(os, "dev", "nodev"))
  }

  lemma SafeByName(os: seq<string>, c: Context)
    requires Fold(os, c).Some?
    ensures var flags := Fold(os, c).value.flags;
            && (RdOnly in flags <==> LastIs(os, "ro", "rw"))
            && (NoExec in flags <==> LastIs(os, "noexec", "exec"))
  {
    hide Fold, LastIs;
    FlagIsLast(os, c, RdOnly, "ro", "rw");
    FlagIsLast(os, c, NoExec, "noexec", "exec");
  }

  lemma TimesByName(os: seq<string>, c: Context)
    requires Fold(os, c).Some?
    ensures var flags := Fold(os, c).value.flags;
            && (Synchronous in flags <==> LastIs(os, "sync", "async"))
            && (NoAtime in flags <==> LastIs(os, "noatime", "atime"))
  {
    hide Fold, LastIs;
    FlagIsLast(os, c, Synchronous, "sync", "async");
    FlagIsLast(os, c, NoAtime, "noatime", "atime");
  }

  lemma RootByName(os: seq<string>, c: Context)
    requires Fold(os, c).Some? && c.root
    ensures var flags := Fold(os, c).value.flags;
            && (NoSuid in flags <==> !LastIs(os, "suid", "nosuid"))
            && (NoDev in flags <==> !LastIs(os, "dev", "nodev"))
  {
    hide Fold, LastIs;
    FlagUnlessLast(os, c, NoSuid, "nosuid", "suid");
    FlagUnlessLast(os, c, NoDev, "nodev", "dev");
  }

  /** The flags are those the names say: the last of each pair decides, and only root can clear nosuid and nodev. */
  lemma FlagsByName(os: seq<string>, c: Context)
    requires Fold(os, c).Some?
    ensures FlagsAsGiven(os, Fold(os, c).value.flags, c.root)
  {
    hide Fold, LastIs;
    SafeByName(os, c);
    TimesByName(os, c);
    DirSyncIfGiven(os, c);
    if c.root {
      RootByName(os, c);
    } else {
      UsersStaySafe(os, c);
    }
  }

  /** The last option with a prefix. */
  function LastWith(os: seq<string>, beg: string): Option<string> {
    if os == [] then None
    else if BeginsWith(os[|os| - 1], beg) then Some(os[|os| - 1])
    else LastWith(os[..|os| - 1], beg)
  }

  function ValueOf(o: Option<string>, n: nat): Option<string>
    requires o.Some? ==> n <= |o.value|
  {
    if o.None? then None else Some(Unescape(o.value[n..]))
  }

  lemma {:induction false} LastWithBegins(os: seq<string>, beg: string)
    ensures LastWith(os, beg).Some? ==> BeginsWith(LastWith(os, beg).value, beg) && LastWith(os, beg).value in os
    decreases |os|
  {
    if os != [] {
      LastWithBegins(os[..|os| - 1], beg);
    }
  }

  /** The names are the unescaped values of their last options. */
  lemma {:induction false} NamesAre(os: seq<string>, c: Context)
    requires Fold(os, c).Some?
    ensures LastWith(os, "fsname=").Some? ==> 7 <= |LastWith(os, "fsname=").value|
    ensures LastWith(os, "subtype=").Some? ==> 8 <= |LastWith(os, "subtype=").value|
    ensures var st := Fold(os, c).value;
            st.fsname == ValueOf(LastWith(os, "fsname="), 7) && st.subtype == ValueOf(LastWith(os, "subtype="), 8)
    decreases |os|
  {
    LastWithBegins(os, "fsname=");
    LastWithBegins(os, "subtype=");
    if os != [] {
      hide MOUNT_FLAGS, RowOf, Unescape, SetFlag, Dropped;
      var n := |os| - 1;
      NamesAre(os[..n], c);
      OneName(os[n]);
    }
  }

  lemma OneName(o: string)
    ensures BeginsWith(o, "fsname=") ==> !BeginsWith(o, "subtype=")
  {
    assert "fsname="[0] == 'f' && "subtype="[0] == 's';
  }

  /** The switches say whether their option is there. */
  lemma {:induction false} SwitchesAre(os: seq<string>, c: Context)
    requires Fold(os, c).Some?
    ensures var st := Fold(os, c).value; (st.checkEmpty <==> "nonempty" !in os) && (st.blkdev <==> "blkdev" in os)
    decreases |os|
  {
    if os != [] {
      hide MOUNT_FLAGS, RowOf, Unescape, SetFlag, Dropped;
      var n := |os| - 1;
      SwitchesAre(os[..n], c);
      assert os == os[..n] + [os[n]];
      assert "fsname="[0] == 'f' && "subtype="[0] == 's' && "blkdev"[0] == 'b' && "nonempty"[0] == 'n';
    }
  }

  // ----- the text that is passed on -----

  /** The option is neither dealt with here nor dropped. */
  predicate PassedOn(o: string, c: Context) {
    && !BeginsWith(o, "fsname=") && !BeginsWith(o, "subtype=") && !Dropped(o)
    && o != "blkdev" && o != "nonempty" && !(o == "large_read" && c.newKernel)
    && o !in ["rw", "ro", "suid", "nosuid", "dev", "nodev", "exec", "noexec", "async", "sync", "atime", "noatime",
              "dirsync"]
  }

  lemma NamedNames(o: string)
    ensures Named(o).None? <==> o !in ["rw", "ro", "suid", "nosuid", "dev", "nodev", "exec", "noexec", "async", "sync",
                                       "atime", "noatime", "dirsync"]
  {
  }

  function Passed(os: seq<string>, c: Context): seq<string> {
    if os == [] then []
    else Passed(os[..|os| - 1], c) + (if PassedOn(os[|os| - 1], c) then [os[|os| - 1]] else [])
  }

  /** Options with a comma after each. */
  function WithCommas(os: seq<string>): string {
    if os == [] then "" else WithCommas(os[..|os| - 1]) + os[|os| - 1] + ","
  }

  lemma CommaAfter(os: seq<string>, o: string)
    ensures WithCommas(os + [o]) == WithCommas(os) + o + ","
  {
    assert (os + [o])[..|os|] == os;
  }

  lemma TextOfOne(st: Settings, o: string, c: Context)
    ensures Fold1(st, o, c).text == if PassedOn(o, c) then st.text + o + "," else st.text
  {
    hide MOUNT_FLAGS, RowOf, Unescape, SetFlag, BeginsWith, Dropped, Named;
    RowByName(o);
    NamedNames(o);
  }

  lemma {:induction false} TextIs(os: seq<string>, c: Context)
    requires Fold(os, c).Some?
    ensures Fold(os, c).value.text == WithCommas(Passed(os, c))
    decreases |os|
  {
    if os != [] {
      hide Fold1, PassedOn, WithCommas, Privileged;
      var n := |os| - 1;
      TextIs(os[..n], c);
      TextOfOne(Fold(os[..n], c).value, os[n], c);
      CommaAfter(Passed(os[..n], c), os[n]);
      assert Passed(os[..n], c) + [] == Passed(os[..n], c);
    } else {
      NoCommas();
    }
  }

  /** No unescaped comma, and no backslash that nothing follows. */
  predicate Closed(o: string) {
    if o == "" then true
    else if o[0] == '\\' then |o| > 1 && Closed(o[2..])
    else o[0] != ',' && Closed(o[1..])
  }

  lemma {:induction false} ClosedLength(o: string, rest: string)
    requires Closed(o)
    ensures OptLen(o + "," + rest) == |o|
  {
    var e := o + "," + rest;
    if o != "" {
      var k := if o[0] == '\\' then 2 else 1;
      ClosedLength(o[k..], rest);
      assert e[k..] == o[k..] + "," + rest && e[0] == o[0];
    }
  }

  lemma ClosedFirst(o: string, rest: string)
    requires Closed(o)
    ensures Split(o + "," + rest) == [o] + Split(rest)
  {
    var e := o + "," + rest;
    ClosedLength(o, rest);
    hide OptLen, Split;
    SplitOnce(e);
    assert e[..|o|] == o && e[|o| + 1..] == rest;
  }

  /** An option that ends in a lone backslash swallows the comma after it. */
  lemma {:induction false} OpenLength(o: string)
    requires !Closed(o) && OptLen(o) == |o|
    ensures OptLen(o + ",") == |o| + 1
  {
    var e := o + ",";
    if o[0] == '\\' && |o| == 1 {
      assert e[2..] == "";
    } else {
      var k := if o[0] == '\\' then 2 else 1;
      OpenLength(o[k..]);
      assert e[k..] == o[k..] + "," && e[0] == o[0];
    }
  }

  lemma {:induction false} SplitWithCommas(os: seq<string>, rest: string)
    requires forall i :: 0 <= i < |os| ==> Closed(os[i])
    ensures Split(WithCommas(os) + rest) == os + Split(rest)
    decreases |os|
  {
    hide Split, WithCommas, Closed;
    if os == [] {
      NoCommas();
      assert WithCommas(os) + rest == rest && os + Split(rest) == Split(rest);
    } else {
      var n := |os| - 1;
      var first, o := os[..n], os[n];
      assert os == first + [o];
      CommaAfter(first, o);
      assert WithCommas(first) + o + "," + rest == WithCommas(first) + (o + "," + rest);
      SplitWithCommas(first, o + "," + rest);
      ClosedFirst(o, rest);
      assert first + ([o] + Split(rest)) == os + Split(rest);
    }
  }

  lemma NoCommas()
    ensures WithCommas([]) == ""
  {
  }

  /** All options of a string but the last are closed. */
  lemma {:induction false} SplitClosed(s: string, i: nat)
    requires i < |Split(s)|
    ensures OptLen(Split(s)[i]) == |Split(s)[i]| && (i < |Split(s)| - 1 ==> Closed(Split(s)[i]))
    decreases |s|
  {
    SplitOnce(s);
    FirstClosed(s);
    var rest := Split(AfterOpt(s));
    assert AfterOpt(s) == "" ==> rest == [];
    hide OptLen, Split, Closed;
    if i > 0 {
      SplitClosed(AfterOpt(s), i - 1);
      assert Split(s)[i] == rest[i - 1];
    }
  }

  lemma {:induction false} FirstClosed(s: string)
    ensures var o := s[..OptLen(s)]; OptLen(o) == |o| && (OptLen(s) < |s| ==> Closed(o))
  {
    var n := OptLen(s);
    var o := s[..n];
    if s != "" && !(s[0] == ',') {
      var k := if s[0] == '\\' && |s| > 1 then 2 else 1;
      FirstClosed(s[k..]);
      assert o[k..] == s[k..][..OptLen(s[k..])];
    }
  }

  lemma {:induction false} PassedIn(os: seq<string>, c: Context, i: nat)
    requires i < |Passed(os, c)|
    ensures Passed(os, c)[i] in os
    ensures i < |Passed(os, c)| - 1 ==> Passed(os, c)[i] in os[..|os| - 1]
    decreases |os|
  {
    var n := |os| - 1;
    if i < |Passed(os[..n], c)| {
      PassedIn(os[..n], c, i);
    }
  }

  /**
    Splitting the text that is passed on gives exactly the options that were passed on, unless the last of them ends
    in a lone backslash, which then escapes the comma after it.
  */
  lemma TextSplitsBack(opts: string, c: Context)
    requires Fold(Split(opts), c).Some?
    ensures var passed := Passed(Split(opts), c);
            Split(Fold(Split(opts), c).value.text) == passed <==> passed == [] || Closed(passed[|passed| - 1])
  {
    hide Split, Fold, Passed, WithCommas, Closed, OptLen;
    var os := Split(opts);
    var passed := Passed(os, c);
    TextIs(os, c);
    forall i | 0 <= i < |passed|
      ensures OptLen(passed[i]) == |passed[i]| && (i < |passed| - 1 ==> Closed(passed[i]))
    {
      PassedClosed(opts, c, i);
    }
    if passed != [] {
      LastDecides(passed);
    } else {
      NoCommas();
      SplitNothing();
    }
  }

  lemma SplitNothing()
    ensures Split("") == []
  {
  }

  lemma PassedClosed(opts: string, c: Context, i: nat)
    requires i < |Passed(Split(opts), c)|
    ensures var passed := Passed(Split(opts), c);
            OptLen(passed[i]) == |passed[i]| && (i < |passed| - 1 ==> Closed(passed[i]))
  {
    hide Split, Passed, Closed, OptLen;
    var os := Split(opts);
    PassedIn(os, c, i);
    forall k | 0 <= k < |os|
      ensures OptLen(os[k]) == |os[k]| && (k < |os| - 1 ==> Closed(os[k]))
    {
      SplitClosed(opts, k);
    }
  }

  lemma LastDecides(os: seq<string>)
    requires os != [] && OptLen(os[|os| - 1]) == |os[|os| - 1]|
    requires forall i :: 0 <= i < |os| - 1 ==> Closed(os[i])
    ensures Split(WithCommas(os)) == os <==> Closed(os[|os| - 1])
  {
    hide Split, WithCommas, Closed, OptLen;
    var n := |os| - 1;
    var first, o := os[..n], os[n];
    assert os == first + [o];
    CommaAfter(first, o);
    assert WithCommas(first) + o + "," == WithCommas(first) + (o + ",");
    SplitWithCommas(first, o + ",");
    SplitNothing();
    assert [o] + [] == [o];
    if Closed(o) {
      ClosedFirst(o, "");
      assert o + "," + "" == o + ",";
    } else {
      OpenLength(o);
      var e := o + ",";
      SplitOnce(e);
      assert e[..|e|] == e;
      assert (first + Split(e))[n] == e;
    }
  }

  // ----- what survives escaping, joining, splitting and folding -----

  lemma {:induction false} EscapePlain(plain: string, x: string)
    requires ',' !in plain && '\\' !in plain
    ensures Escape(plain + x) == plain + Escape(x)
    decreases |plain|
  {
    if plain == "" {
      assert plain + x == x;
    } else {
      assert plain[0] in plain && (plain + x)[1..] == plain[1..] + x;
      EscapePlain(plain[1..], x);
    }
  }

  lemma {:induction false} FoldKeepsFsname(os: seq<string>, c: Context, k: nat)
    requires k <= |os| && Fold(os, c).Some? && forall i :: k <= i < |os| ==> !BeginsWith(os[i], "fsname=")
    ensures Fold(os[..k], c).Some? && Fold(os, c).value.fsname == Fold(os[..k], c).value.fsname
    decreases |os|
  {
    if k < |os| {
      var n := |os| - 1;
      FoldKeepsFsname(os[..n], c, k);
      assert os[..n][..k] == os[..k];
    } else {
      assert os[..k] == os;
    }
  }

  lemma {:induction false} EscapeBegins(o: string, plain: string)
    requires ',' !in plain && '\\' !in plain
    ensures BeginsWith(Escape(o), plain) ==> BeginsWith(o, plain)
    decreases |plain|
  {
    if plain != "" && BeginsWith(Escape(o), plain) {
      assert plain[0] in plain && Escape(o)[0] == plain[0];
      assert Escape(o)[1..] == Escape(o[1..]);
      EscapeBegins(o[1..], plain[1..]);
      assert o == [o[0]] + o[1..] && plain == [plain[0]] + plain[1..];
    }
  }

  /** The name of a file system comes through an option string whatever characters it has. */
  lemma FsnameRoundTrip(os: seq<string>, k: nat, x: string, c: Context)
    requires k < |os| && os[k] == "fsname=" + x && os[|os| - 1] != ""
    requires forall i :: k < i < |os| ==> !BeginsWith(os[i], "fsname=")
    requires Fold(Split(Join(EscapeAll(os))), c).Some?
    ensures Fold(Split(Join(EscapeAll(os))), c).value.fsname == Some(x)
  {
    hide Split, Join, Escape, Unescape, MOUNT_FLAGS, Fold, Fold1;
    SplitInvertsJoin(os);
    var es := EscapeAll(os);
    forall i | k < i < |os|
      ensures !BeginsWith(es[i], "fsname=")
    {
      EscapeBegins(os[i], "fsname=");
    }
    FoldKeepsFsname(es, c, k + 1);
    EscapePlain("fsname=", x);
    UnescapeEscape(x);
    FoldFsname(es[..k + 1], c, Escape(x));
  }

  lemma FoldFsname(os: seq<string>, c: Context, e: string)
    requires os != [] && os[|os| - 1] == "fsname=" + e && Fold(os, c).Some?
    ensures Fold(os, c).value.fsname == Some(Unescape(e))
  {
    hide Unescape, MOUNT_FLAGS;
    var o := os[|os| - 1];
    assert BeginsWith(o, "fsname=") && o[7..] == e;
  }

  // ----- the code -----

  /** The inner loop of do_mount: the length of the option at `s`. */
  method OptionLength(opts: string, s: nat) returns (len: nat)
    requires s <= |opts|
    ensures len == OptLen(opts[s..])
  {
    hide OptLen;
    len := 0;
    OptLenEnd(opts);
    while s + len < |opts|
      invariant s + len <= |opts| && OptLen(opts[s..]) == len + OptLen(opts[s + len..])
    {
      OptLenAt(opts, s + len);
      if opts[s + len] == '\\' && s + len + 1 < |opts| {
        len := len + 1;
      } else if opts[s + len] == ',' {
        break;
      }
      len := len + 1;
    }
  }

  lemma OptLenEnd(opts: string)
    ensures OptLen(opts[|opts|..]) == 0
  {
  }

  lemma OptLenAt(opts: string, i: nat)
    requires i < |opts|
    ensures OptLen(opts[i..]) == if opts[i] == '\\' && i + 1 < |opts| then 2 + OptLen(opts[i + 2..])
                                 else if opts[i] == ',' then 0
                                 else 1 + OptLen(opts[i + 1..])
  {
    assert opts[i..][1..] == opts[i + 1..];
    if i + 1 < |opts| {
      assert opts[i..][2..] == opts[i + 2..];
    }
  }

  /** get_string_opt. */
  method GetStringOpt(o: string, optLen: nat) returns (val: string)
    requires optLen <= |o|
    ensures val == Unescape(o[optLen..])
  {
    hide Unescape;
    var i := optLen;
    val := "";
    while i < |o|
      invariant optLen <= i <= |o| && Unescape(o[optLen..]) == val + Unescape(o[i..])
    {
      UnescapeStep(o, i);
      if o[i] == '\\' && i + 1 < |o| {
        i := i + 1;
      }
      val, i := val + [o[i]], i + 1;
    }
    UnescapeEnd(o);
  }

  lemma UnescapeStep(o: string, i: nat)
    requires i < |o|
    ensures var j := if o[i] == '\\' && i + 1 < |o| then i + 1 else i;
            Unescape(o[i..]) == [o[j]] + Unescape(o[j + 1..])
  {
    assert o[i..][1..] == o[i + 1..];
    if i + 1 < |o| {
      assert o[i..][2..] == o[i + 2..];
    }
  }

  lemma UnescapeEnd(o: string)
    ensures Unescape(o[|o|..]) == ""
  {
  }

  /** The length of the options of a list, each with its comma. */
  function Length(os: seq<string>): nat {
    if os == [] then 0 else Length(os[..|os| - 1]) + |os[|os| - 1]| + 1
  }

  lemma {:induction false} TextFits(os: seq<string>, c: Context)
    ensures Fold(os, c).Some? ==> |Fold(os, c).value.text| <= Length(os)
    decreases |os|
  {
    if os != [] {
      hide RowOf, MOUNT_FLAGS, Unescape;
      TextFits(os[..|os| - 1], c);
    }
  }

  /** The options before position `s` of the string are `os`. */
  ghost predicate Seen(opts: string, s: nat, os: seq<string>) {
    && s <= |opts| && Split(opts) == os + Split(opts[s..]) && Length(os) <= s + 1 && (s < |opts| ==> Length(os) <= s)
  }

  lemma SplitOnce(s: string)
    requires s != ""
    ensures Split(s) == [s[..OptLen(s)]] + Split(AfterOpt(s))
  {
    hide OptLen;
  }

  lemma SplitAt(opts: string, s: nat)
    requires s < |opts|
    ensures var n := OptLen(opts[s..]);
            && s + n <= |opts|
            && Split(opts[s..]) == [opts[s..s + n]] + Split(opts[if s + n < |opts| then s + n + 1 else s + n..])
  {
    hide OptLen, Split;
    var n, rest := OptLen(opts[s..]), opts[s..];
    SplitOnce(rest);
    assert rest[..n] == opts[s..s + n];
    if s + n < |opts| {
      assert rest[n + 1..] == opts[s + n + 1..];
    } else {
      assert opts[s + n..] == "";
    }
  }

  lemma LengthMore(os: seq<string>, o: string)
    ensures Length(os + [o]) == Length(os) + |o| + 1
  {
    assert (os + [o])[..|os|] == os;
  }

  lemma SeenMore(opts: string, s: nat, os: seq<string>)
    requires Seen(opts, s, os) && s < |opts|
    ensures var n := OptLen(opts[s..]);
            Seen(opts, if s + n < |opts| then s + n + 1 else s + n, os + [opts[s..s + n]])
  {
    hide Split, OptLen, Length;
    SplitAt(opts, s);
    var n := OptLen(opts[s..]);
    var o, s' := opts[s..s + n], if s + n < |opts| then s + n + 1 else s + n;
    LengthMore(os, o);
    assert os + ([o] + Split(opts[s'..])) == os + [o] + Split(opts[s'..]);
  }

  lemma SeenNothing(opts: string)
    ensures Seen(opts, 0, [])
  {
    assert opts[0..] == opts && [] + Split(opts) == Split(opts);
  }

  lemma SeenEnd(opts: string, os: seq<string>)
    requires Seen(opts, |opts|, os)
    ensures Split(opts) == os && Length(os) <= |opts| + 1
  {
    assert os + [] == os;
  }

  lemma SeenRefused(opts: string, s: nat, os: seq<string>, o: string, c: Context)
    requires Seen(opts, s, os + [o]) && Privileged(o, c)
    ensures Fold(Split(opts), c).None?
  {
    hide Split, Fold;
    var all := Split(opts);
    assert all[|os|] == o && o in all;
    RefusedIff(all, c);
  }

  lemma Apart(o: string, c: Context)
    requires Privileged(o, c)
    ensures o != "" && o[0] != 'f' && o[0] != 's' && o[0] != 'n' && o[0] != 'r' && o[0] != 'u' && o[0] != 'g'
    ensures o == "blkdev" || o == "allow_other" || o == "allow_root"
  {
  }

  /** The branches of do_mount for one option; `rest` is the string from the option on. */
  method ParseOption(rest: string, o: string, st: Settings, c: Context) returns (r: Option<Settings>)
    requires o == rest[..OptLen(rest)]
    ensures r == if Privileged(o, c) then None else Some(Fold1(st, o, c))
  {
    hide Named, MOUNT_FLAGS, OptLen, RowOf, Unescape;
    if Privileged(o, c) {
      Apart(o, c);
    }
    PrefixWithin(rest, "fsname=");
    PrefixWithin(rest, "subtype=");
    PrefixWithin(rest, "fd=");
    PrefixWithin(rest, "rootmode=");
    PrefixWithin(rest, "user_id=");
    PrefixWithin(rest, "group_id=");
    if BeginsWith(rest, "fsname=") {
      var val := GetStringOpt(o, 7);
      r := Some(st.(fsname := Some(val)));
    } else if BeginsWith(rest, "subtype=") {
      var val := GetStringOpt(o, 8);
      r := Some(st.(subtype := Some(val)));
    } else if o == "blkdev" {
      r := if c.root then Some(st.(blkdev := true)) else None;
    } else if o == "nonempty" {
      r := Some(st.(checkEmpty := false));
    } else if BeginsWith(rest, "fd=") || BeginsWith(rest, "rootmode=") || BeginsWith(rest, "user_id=")
              || BeginsWith(rest, "group_id=") {
      r := Some(st);
    } else {
      var skip := o == "large_read" && c.newKernel;
      if !c.root && !c.userAllowOther && (o == "allow_other" || o == "allow_root") {
        return None;
      }
      r := Some(st);
      if !skip {
        var row, effective := FindMountFlag(o, c);
        if row.None? {
          r := Some(st.(text := st.text + o + ","));
        } else if effective {
          var f := row.value.flag;
          r := Some(st.(flags := if row.value.on then st.flags + {f} else st.flags - {f}));
        }
      }
    }
  }

  /** The option loop of do_mount. */
  method ParseOptions(opts: string, c: Context) returns (r: Option<Settings>)
    ensures r == Fold(Split(opts), c)
    ensures r.Some? ==> |r.value.text| <= |opts| + 1
    ensures r.Some? ==> FlagsAsGiven(Split(opts), r.value.flags, c.root)
  {
    hide FlagsAsGiven;
    hide Split, Seen, Fold1, MOUNT_FLAGS, OptLen, Length;
    var s, st := 0, INITIAL;
    ghost var os: seq<string> := [];
    SeenNothing(opts);
    while s < |opts|
      invariant 0 <= s <= |opts| && Seen(opts, s, os) && Fold(os, c) == Some(st)
    {
      var len := OptionLength(opts, s);
      var o := opts[s..s + len];
      SeenMore(opts, s, os);
      assert (os + [o])[..|os|] == os;
      var one := ParseOption(opts[s..], o, st, c);
      if one.None? {
        SeenRefused(opts, if s + len < |opts| then s + len + 1 else s + len, os, o, c);
        return None;
      }
      st, os := one.value, os + [o];
      s := s + len;
      if s < |opts| {
        s := s + 1;
      }
    }
    SeenEnd(opts, os);
    TextFits(os, c);
    FlagsByName(os, c);
    r := Some(st);
  }
}
