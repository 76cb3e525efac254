/** readdir, seekdir and telldir over a cached batch of entries, refining a plain listing. */
module DirCursor {
  import opened Common

  datatype Dirent = Dirent(name: string, off: int)

  /**
    The directory as the server lists it.  `landing` is where the server puts an
    offset that is not the cookie of any entry.
  */
  datatype Listing = Listing(all: seq<Dirent>, landing: int -> nat)

  ghost predicate WellFormed(l: Listing) {
    && (forall i :: 0 <= i < |l.all| ==> l.all[i].off != 0)
    && (forall i, j :: 0 <= i < j < |l.all| ==> l.all[i].off != l.all[j].off)
  }

  function Find(all: seq<Dirent>, off: int): (i: nat)
    ensures i <= |all|
    ensures i < |all| ==> all[i].off == off
    ensures i == |all| ==> forall j :: 0 <= j < |all| ==> all[j].off != off
  {
    if all == [] || all[0].off == off then 0 else 1 + Find(all[1..], off)
  }

  /** The index of the entry that follows offset `off`; offset 0 is the beginning. */
  function Position(l: Listing, off: int): (p: nat)
    ensures p <= |l.all|
  {
    if off == 0 then 0
    else
      var i := Find(l.all, off);
      if i < |l.all| then i + 1
      else if l.landing(off) <= |l.all| then l.landing(off) else |l.all|
  }

  lemma PositionOfCookie(l: Listing, i: nat)
    requires WellFormed(l) && i < |l.all|
    ensures Position(l, l.all[i].off) == i + 1
  {
  }

  datatype Answer = Entry(e: Dirent) | End | Error

  /** The plain listing: the next entry after an offset, and the offset after it. */
  function PlainRead(l: Listing, off: int): (Answer, int) {
    var p := Position(l, off);
    if p < |l.all| then (Entry(l.all[p]), l.all[p].off) else (End, off)
  }

  /** A call; `batch` and `ok` are what the server will do if it is asked. */
  datatype Call = Readdir(batch: nat, ok: bool) | Telldir | Seekdir(off: int)

  datatype Reply = Read(answer: Answer) | Told(off: int) | Done

  /** struct glfs_fd, as far as directory reading uses it; `next` is an index into `entries`. */
  class DirFd {
    const listing: Listing
    var offset: int
    var entries: seq<Dirent>
    var next: Option<nat>
    ghost var base: nat

    /** The batch is a stretch of the listing, and `next` is the entry that follows `offset`. */
    ghost predicate Cached()
      reads this
    {
      && WellFormed(listing)
      && base + |entries| <= |listing.all| && entries == listing.all[base..base + |entries|]
      && (next.Some? ==> next.value < |entries| && base + next.value == Position(listing, offset))
    }

    /** Between calls, moreover, nothing is cached for the beginning. */
    ghost predicate Valid()
      reads this
    {
      Cached() && (offset == 0 ==> next.None?)
    }

    constructor (l: Listing)
      requires WellFormed(l)
      ensures Valid() && listing == l && offset == 0
    {
      listing, offset, entries, next, base := l, 0, [], None, 0;
    }

    /** glfd_entry_refresh: the server sends at least one entry unless the directory is at its end. */
    method Refresh(batch: nat, ok: bool) returns (ret: int)
      requires Valid() && next.None?
      modifies this
      ensures Cached() && offset == old(offset)
      ensures ret < 0 <==> !ok
      ensures !ok ==> entries == old(entries) && next.None?
      ensures ok ==> (next.Some? <==> Position(listing, offset) < |listing.all|)
    {
      if !ok {
        return -1;
      }
      var p := Position(listing, offset);
      var most := if batch == 0 then 1 else batch;
      var n := if most <= |listing.all| - p then most else |listing.all| - p;
      entries, base := listing.all[p..p + n], p;
      ret := n;
      if ret > 0 {
        next := Some(0);
      }
    }

    /** glfd_entry_next: a failed refresh changes nothing; otherwise the answer is that of the plain listing. */
    method EntryNext(batch: nat, ok: bool) returns (answer: Answer)
      requires Valid()
      modifies this
      ensures Valid()
      ensures answer.Error? <==> old(next.None?) && !ok
      ensures answer.Error? ==> offset == old(offset) && entries == old(entries) && next == old(next)
      ensures !answer.Error? ==> (answer, offset) == PlainRead(listing, old(offset))
    {
      hide Position, Find;
      if offset == 0 || next.None? {
        var ret := Refresh(batch, ok);
        if ret < 0 {
          return Error;
        }
      }
      if next.None? {
        return End;
      }
      var entry := entries[next.value];
      PositionOfCookie(listing, base + next.value);
      next := if next.value + 1 == |entries| then None else Some(next.value + 1);
      offset := entry.off;
      answer := Entry(entry);
    }

    method Telldir() returns (off: int)
      ensures off == offset
    {
      off := offset;
    }

    /** glfs_seekdir: afterwards reading goes on after `off`, from the cache or from the server. */
    method Seekdir(off: int)
      requires Valid()
      modifies this
      ensures Valid() && offset == off
    {
      if offset == off {
        return;
      }
      offset, next := off, None;
      var i := 0;
      while i < |entries|
        invariant 0 <= i <= |entries| && next.None? && offset == off && Valid()
      {
        if entries[i].off == off && i + 1 < |entries| {
          PositionOfCookie(listing, base + i);
          next := Some(i + 1);
          return;
        }
        i := i + 1;
      }
    }
  }

  /**
    What a plain listing replies to a run of calls, given which readdir calls
    fail; `marks[i]` says whether call `i` failed.
  */
  function PlainRun(l: Listing, off: int, calls: seq<Call>, marks: seq<bool>): (replies: seq<Reply>)
    requires |marks| == |calls|
    ensures |replies| == |calls|
    decreases |calls|
  {
    if calls == [] then []
    else
      match calls[0]
      case Readdir(_, _) =>
        if marks[0] then [Read(Error)] + PlainRun(l, off, calls[1..], marks[1..])
        else
          var (answer, off') := PlainRead(l, off);
          [Read(answer)] + PlainRun(l, off', calls[1..], marks[1..])
      case Telldir => [Told(off)] + PlainRun(l, off, calls[1..], marks[1..])
      case Seekdir(o) => [Done] + PlainRun(l, o, calls[1..], marks[1..])
  }

  /**
    Any run of calls, with any batch sizes and any failures, gets the replies of
    a plain listing positioned by cookie.  Only a readdir whose server request
    fails can be an error, and it does not move the position.
  */
  method Run(fd: DirFd, calls: seq<Call>) returns (replies: seq<Reply>, marks: seq<bool>)
    requires fd.Valid()
    modifies fd
    ensures fd.Valid() && |marks| == |calls|
    ensures replies == PlainRun(fd.listing, old(fd.offset), calls, marks)
    ensures forall i :: 0 <= i < |calls| && marks[i] ==> calls[i].Readdir? && !calls[i].ok
    decreases |calls|
  {
    if calls == [] {
      return [], [];
    }
    var reply, failed := Done, false;
    match calls[0] {
      case Readdir(batch, ok) =>
        var answer := fd.EntryNext(batch, ok);
        reply, failed := Read(answer), answer.Error?;
      case Telldir =>
        var off := fd.Telldir();
        reply := Told(off);
      case Seekdir(off) =>
        fd.Seekdir(off);
    }
    var rest, marks' := Run(fd, calls[1..]);
    marks := [failed] + marks';
    assert marks[1..] == marks';
    replies := [reply] + rest;
  }

  /** Reading to the end lists exactly the entries after the starting offset, in order, each once. */
  method ReadAll(fd: DirFd, batch: nat) returns (names: seq<Dirent>)
    requires fd.Valid()
    modifies fd
    ensures fd.Valid()
    ensures names == fd.listing.all[Position(fd.listing, old(fd.offset))..]
    ensures old(fd.offset) == 0 ==> names == fd.listing.all
    ensures forall i :: 0 <= i < |fd.listing.all| && fd.listing.all[i].off == old(fd.offset) ==>
              names == fd.listing.all[i + 1..]
  {
    hide Position, PlainRead, Find;
    ghost var from := fd.offset;
    ghost var p := Position(fd.listing, from);
    names := [];
    while true
      invariant fd.Valid()
      invariant p <= Position(fd.listing, fd.offset) <= |fd.listing.all|
      invariant names == fd.listing.all[p..Position(fd.listing, fd.offset)]
      decreases |fd.listing.all| - Position(fd.listing, fd.offset)
    {
      ghost var all, q := fd.listing.all, Position(fd.listing, fd.offset);
      ReadAdvances(fd.listing, fd.offset);
      var answer := fd.EntryNext(batch, true);
      if answer.End? {
        Remaining(fd.listing, from);
        return;
      }
      assert all[p..q + 1] == all[p..q] + [all[q]];
      names := names + [answer.e];
    }
  }

  /** What is left of the listing after an offset that was handed out: all of it after 0, the rest after a cookie. */
  lemma Remaining(l: Listing, off: int)
    requires WellFormed(l)
    ensures off == 0 ==> l.all[Position(l, off)..] == l.all
    ensures forall i :: 0 <= i < |l.all| && l.all[i].off == off ==> l.all[Position(l, off)..] == l.all[i + 1..]
  {
    forall i | 0 <= i < |l.all| && l.all[i].off == off
      ensures l.all[Position(l, off)..] == l.all[i + 1..]
    {
      PositionOfCookie(l, i);
    }
  }

  /**
    A directory just opened lists all its entries; rewound to offset 0 it lists them again; and from the cookie of
    entry `i` on it lists what follows that entry.
  */
  method Relist(l: Listing, i: nat, batch: nat) returns (first: seq<Dirent>, again: seq<Dirent>, rest: seq<Dirent>)
    requires WellFormed(l) && i < |l.all|
    ensures first == l.all && again == l.all && rest == l.all[i + 1..]
  {
    var fd := new DirFd(l);
    first := ReadAll(fd, batch);
    fd.Seekdir(0);
    again := ReadAll(fd, batch);
    fd.Seekdir(l.all[i].off);
    rest := ReadAll(fd, batch);
  }

  lemma ReadAdvances(l: Listing, off: int)
    requires WellFormed(l)
    ensures var p, r := Position(l, off), PlainRead(l, off);
            if p < |l.all| then r.0 == Entry(l.all[p]) && Position(l, r.1) == p + 1 else r == (End, off)
  {
    var p := Position(l, off);
    if p < |l.all| {
      PositionOfCookie(l, p);
    }
  }

  /** Seeking to a told position and reading gives the entry that would have come next. */
  method TellSeekResumes(fd: DirFd, calls: seq<Call>, batch: nat) returns (answer: Answer)
    requires fd.Valid()
    modifies fd
    ensures fd.Valid() && (answer, fd.offset) == PlainRead(fd.listing, old(fd.offset))
  {
    var told := fd.Telldir();
    var _, _ := Run(fd, calls);
    fd.Seekdir(told);
    answer := fd.EntryNext(batch, true);
  }
}
