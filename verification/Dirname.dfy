/** The directory part of a path, cut off in place. */
module Dirname {
  import opened Common
  import opened Memrchr

  const SLASH: bv8 := 47

  predicate Slashes(s: seq<bv8>) {
    forall i :: 0 <= i < |s| ==> s[i] == SLASH
  }

  /** A path without its trailing slashes. */
  function Trim(t: seq<bv8>): (r: seq<bv8>)
    ensures r <= t && Slashes(t[|r|..]) && (r != [] ==> r[|r| - 1] != SLASH)
  {
    if t == [] || t[|t| - 1] != SLASH then t
    else
      var r := Trim(t[..|t| - 1]);
      assert t == t[..|t| - 1] + [SLASH];
      r
  }

  /** "/", or "//" when the slashes before the name are exactly two. */
  function Root(last: nat): seq<bv8> {
    if last == 1 then [SLASH, SLASH] else [SLASH]
  }

  /** What comes before the slash at `last` of the trimmed path `b`; None stands for ".". */
  function Before(b: seq<bv8>, last: Option<nat>): (r: Option<seq<bv8>>)
    requires last.Some? ==> last.value < |b|
  {
    if last.None? then None
    else
      var d := Trim(b[..last.value]);
      Some(if d == [] then Root(last.value) else d)
  }

  /** The directory part of a path. */
  function DirName(t: seq<bv8>): Option<seq<bv8>> {
    var b := Trim(t);
    if t != [] && b == [] then Some(Root(|t| - 1)) else Before(b, LastOf(b, SLASH, |b|))
  }

  // ----- what the directory part is -----

  /** `t` is the directory `d`, slashes, a name, and perhaps more slashes. */
  ghost predicate Splits(t: seq<bv8>, d: seq<bv8>, between: seq<bv8>, name: seq<bv8>, after: seq<bv8>) {
    && t == d + between + name + after
    && (d != [] ==> d[|d| - 1] != SLASH) && between != [] && Slashes(between)
    && name != [] && SLASH !in name && Slashes(after)
  }

  lemma {:induction false} TrimSlashes(d: seq<bv8>, after: seq<bv8>)
    requires Slashes(after) && (d != [] ==> d[|d| - 1] != SLASH)
    ensures Trim(d + after) == d
    decreases |after|
  {
    if after == [] {
      assert d + after == d;
    } else {
      var n := |after| - 1;
      assert (d + after)[..|d + after| - 1] == d + after[..n];
      TrimSlashes(d, after[..n]);
    }
  }

  lemma {:induction false} LastBefore(s: seq<bv8>, name: seq<bv8>)
    requires SLASH !in name && s != [] && s[|s| - 1] == SLASH
    ensures LastOf(s + name, SLASH, |s + name|) == Some(|s| - 1)
  {
    var t := s + name;
    hide LastOf;
    LastOfIsLast(t, SLASH, |t|);
    assert t[|s| - 1] == SLASH;
    assert forall i :: |s| <= i < |t| ==> t[i] == name[i - |s|] && t[i] in name;
  }

  /** A path with a name after a slash: its directory part is what comes before the slashes before the name. */
  lemma DirNameSplits(t: seq<bv8>, d: seq<bv8>, between: seq<bv8>, name: seq<bv8>, after: seq<bv8>)
    requires Splits(t, d, between, name, after)
    ensures DirName(t) == Some(if d != [] then d else if |between| == 2 then [47, 47] else [47])
  {
    hide Trim, LastOf;
    var b := d + between + name;
    assert b[|b| - 1] == name[|name| - 1] && name[|name| - 1] in name;
    TrimSlashes(b, after);
    LastBefore(d + between, name);
    var last := |d| + |between| - 1;
    assert b[..last] == d + between[..|between| - 1];
    TrimSlashes(d, between[..|between| - 1]);
  }

  lemma InThree(s: seq<bv8>, i: nat, j: nat)
    requires i <= j <= |s|
    ensures s == s[..i] + s[i..j] + s[j..]
  {
  }

  /** Slashes from the end of the trimmed prefix up to and including the one at `last`. */
  lemma RunIsSlashes(b: seq<bv8>, last: nat)
    requires last < |b| && b[last] == SLASH
    ensures |Trim(b[..last])| <= last && Trim(b[..last]) == b[..|Trim(b[..last])|]
    ensures Slashes(b[|Trim(b[..last])|..last + 1])
  {
    hide Trim;
    var n := |Trim(b[..last])|;
    forall i | n <= i <= last
      ensures b[i] == SLASH
    {
      if i < last {
        assert b[i] == b[..last][n..][i - n];
      }
    }
  }

  /** Every path that is not all slashes and has a slash before its last name can be taken apart so. */
  lemma SplitOf(t: seq<bv8>) returns (d: seq<bv8>, between: seq<bv8>, name: seq<bv8>, after: seq<bv8>)
    requires !Slashes(t) && DirName(t).Some?
    ensures Splits(t, d, between, name, after)
  {
    hide LastOf, Trim;
    var b := Trim(t);
    assert b != [] by {
      assert t[0..] == t;
    }
    var last := LastOf(b, SLASH, |b|).value;
    LastOfIsLast(b, SLASH, |b|);
    RunIsSlashes(b, last);
    hide Slashes;
    d, after := Trim(b[..last]), t[|b|..];
    between, name := b[|d|..last + 1], b[last + 1..];
    InThree(b, |d|, last + 1);
    assert t == b + after;
    assert forall i :: 0 <= i < |name| ==> name[i] == b[last + 1 + i];
  }

  /** A path of slashes only is a root. */
  lemma DirNameOfRoot(t: seq<bv8>)
    requires t != [] && Slashes(t)
    ensures DirName(t) == Some(if |t| == 2 then [47, 47] else [47])
  {
    hide Trim;
    TrimSlashes([], t);
    assert [] + t == t;
  }

  /** For the other paths the answer is "." exactly when no slash comes before the last name. */
  lemma DotIffNoSlash(t: seq<bv8>)
    requires t == [] || !Slashes(t)
    ensures DirName(t).None? <==> SLASH !in Trim(t)
  {
    hide Trim, LastOf, Slashes, Before;
    var b := Trim(t);
    assert t != [] ==> b != [] by {
      assert t[0..] == t;
    }
    NoneIffNoSlash(b);
  }

  lemma NoneIffNoSlash(b: seq<bv8>)
    ensures Before(b, LastOf(b, SLASH, |b|)).None? <==> SLASH !in b
  {
    LastOfIsLast(b, SLASH, |b|);
    hide LastOf, Trim;
  }

  // ----- dirname_r -----

  /** strrchr for a slash. */
  method StrRChr(path: array<bv8>, ghost text: seq<bv8>) returns (last: Option<nat>)
    requires |text| < path.Length && path[..|text|] == text && path[|text|] == 0 && 0 !in text
    ensures last == LastOf(text, SLASH, |text|)
  {
    var i := 0;
    last := None;
    while path[i] != 0
      invariant 0 <= i <= |text| && last == LastOf(text, SLASH, i)
      decreases |text| - i
    {
      assert i < |text| ==> path[i] == text[i];
      if path[i] == SLASH {
        last := Some(i);
      }
      i := i + 1;
    }
  }

  /** The loop that walks back over slashes. */
  method WalkBack(path: array<bv8>, from: nat) returns (runp: nat)
    requires from <= path.Length
    ensures runp == |Trim(path[..from])| && runp <= from
  {
    runp := from;
    while runp != 0
      invariant 0 <= runp <= from && Trim(path[..from]) == Trim(path[..runp])
    {
      assert path[..runp][..runp - 1] == path[..runp - 1];
      if path[runp - 1] != SLASH {
        break;
      }
      runp := runp - 1;
    }
  }

  /** Where the code finds the last slash before the name: past trailing slashes it uses the word search. */
  ghost function Search(t: seq<bv8>, base: nat, w: nat): Option<nat>
    requires w > 0
  {
    var b := Trim(t);
    if |b| == |t| then LastOf(b, SLASH, |b|) else LastSeen(b, SLASH, base, |b|, w, |b|)
  }

  /** What the code answers. */
  ghost function Answer(t: seq<bv8>, base: nat, w: nat): Option<seq<bv8>>
    requires w > 0
  {
    var b, found := Trim(t), Search(t, base, w);
    if t != [] && b == [] then Some(Root(|t| - 1))
    else Before(b, found)
  }

  /** With four-byte words the answer is the directory part. */
  lemma FourIsDirName(t: seq<bv8>, base: nat)
    ensures Answer(t, base, 4) == DirName(t)
  {
    var b := Trim(t);
    FourSeesAll(b, SLASH, base, |b|, |b|);
  }

  /** The search past trailing slashes looks at some slash of the last run before the name. */
  ghost predicate RunSeen(t: seq<bv8>, base: nat, w: nat)
    requires w > 0
  {
    var b := Trim(t);
    var last := LastOf(b, SLASH, |b|);
    |b| == |t| || last.None? || exists i: nat :: |Trim(b[..last.value])| <= i <= last.value && Seen(base, |b|, w, i)
  }

  /** Any slash of the run of slashes that ends at `last` gives the same answer. */
  lemma SameRun(b: seq<bv8>, last: nat, j: nat)
    requires j <= last < |b| && |Trim(b[..last])| <= j
    ensures Trim(b[..j]) == Trim(b[..last])
  {
    hide Trim;
    var d := Trim(b[..last]);
    assert b[..j] == d + b[..last][|d|..j];
    TrimSlashes(d, b[..last][|d|..j]);
  }

  /** An earlier slash gives another answer. */
  lemma EarlierRun(b: seq<bv8>, last: nat, j: nat)
    requires last < |b| && j < |Trim(b[..last])|
    ensures Before(b, Some(j)) != Before(b, Some(last))
  {
    hide Trim;
    var d := Trim(b[..last]);
    assert |Trim(b[..j])| <= j;
    assert Root(j)[|Root(j)| - 1] == SLASH;
  }

  /** With words of either size the answer is the directory part exactly when the search looks at that run. */
  lemma DirNameIffRunSeen(t: seq<bv8>, base: nat, w: nat)
    requires w == 4 || w == 8
    ensures Answer(t, base, w) == DirName(t) <==> RunSeen(t, base, w)
  {
    hide Trim, LastOf, LastSeen, Seen;
    var b := Trim(t);
    var n, last := |b|, LastOf(b, SLASH, |b|);
    var found := LastSeen(b, SLASH, base, n, w, n);
    LastOfIsLast(b, SLASH, n);
    LastSeenMeans(b, SLASH, base, n, w, n);
    if n == |t| || b == [] {
    } else if last.Some? {
      SearchedRun(b, base, w, last.value, found);
    }
  }

  lemma SearchedRun(b: seq<bv8>, base: nat, w: nat, last: nat, found: Option<nat>)
    requires (w == 4 || w == 8) && last < |b| && b[last] == SLASH && forall i :: last < i < |b| ==> b[i] != SLASH
    requires found.Some? ==> found.value < |b| && b[found.value] == SLASH && Seen(base, |b|, w, found.value)
    requires forall i :: (if found.Some? then found.value else -1) < i < |b| ==>
               b[i] != SLASH || !Seen(base, |b|, w, i)
    ensures Before(b, found) == Before(b, Some(last))
            <==> exists i: nat :: |Trim(b[..last])| <= i <= last && Seen(base, |b|, w, i)
  {
    hide Trim, Seen;
    var d := Trim(b[..last]);
    assert found.Some? ==> found.value <= last;
    forall i | |d| <= i <= last
      ensures b[i] == SLASH
    {
      if i < last {
        assert b[..last][|d|..][i - |d|] == SLASH;
      }
    }
    if i: nat :| |d| <= i <= last && Seen(base, |b|, w, i) {
      assert found.Some? && i <= found.value;
      SameRun(b, last, found.value);
      FirstFourSeen(base, |b|, w, 1);
      FirstFourSeen(base, |b|, w, 2);
    } else if found.Some? {
      EarlierRun(b, last, found.value);
    }
  }

  /** With eight-byte words the directory part of "aaaa/bbb/" at an aligned address is lost. */
  lemma LostDirectory()
    ensures var t: seq<bv8> := [97, 97, 97, 97, SLASH, 98, 98, 98, SLASH];
            DirName(t) == Some(t[..4]) && Answer(t, 0, 8) == None
  {
    var t: seq<bv8> := [97, 97, 97, 97, SLASH, 98, 98, 98, SLASH];
    var b: seq<bv8> := [97, 97, 97, 97, SLASH, 98, 98, 98];
    assert t == b + [SLASH];
    TrimSlashes(b, [SLASH]);
    EightMisses();
    assert t == t[..4] + [SLASH] + [98, 98, 98] + [SLASH];
    DirNameSplits(t, t[..4], [SLASH], [98, 98, 98], [SLASH]);
  }

  lemma TrimLast(t: seq<bv8>)
    requires t != []
    ensures Trim(t) == if t[|t| - 1] == SLASH then Trim(t[..|t| - 1]) else t
  {
  }

  /** The slash the code ends up with, after strrchr gave `found`, leads to its answer. */
  lemma Answered(t: seq<bv8>, base: nat, w: nat, found: Option<nat>, last: Option<nat>)
    requires w > 0 && found == LastOf(t, SLASH, |t|)
    requires last == if found.Some? && found.value != 0 && found.value == |t| - 1 && Trim(t[..found.value]) != [] then
                       var b := Trim(t[..found.value]);
                       LastSeen(b, SLASH, base, |b|, w, |b|)
                     else found
    ensures last.Some? ==> last.value < |t| && t[last.value] == SLASH
    ensures Answer(t, base, w) == Before(t, last)
  {
    hide Trim, LastOf, LastSeen;
    LastOfIsLast(t, SLASH, |t|);
    if t != [] {
      TrimLast(t);
      if found.None? || found.value < |t| - 1 {
        assert t[|t| - 1] != SLASH;
      } else {
        var b := Trim(t);
        if b != [] && last.Some? {
          assert b[..last.value] == t[..last.value];
        }
      }
    }
  }

  /** Where the string is cut off. */
  function CutOff(runp: nat, last: nat): nat {
    if runp != 0 then runp else if last == 1 then 2 else 1
  }

  lemma CutIsLength(t: seq<bv8>, last: nat)
    requires last < |t| && t[last] == SLASH
    ensures Before(t, Some(last)).Some?
    ensures var d := Before(t, Some(last)).value; |d| == CutOff(|Trim(t[..last])|, last) && d <= t
  {
    hide Trim;
    var d := Trim(t[..last]);
    if d == [] {
      assert t[..last][0..] == t[..last];
      assert last > 0 ==> t[0] == t[..last][0];
    } else {
      assert d <= t[..last] <= t;
    }
  }

  /** The first half of dirname_r: the slash before the name. */
  method FindSlash(path: array<bv8>, base: nat, w: nat, big: bool, ghost text: seq<bv8>) returns (last: Option<nat>)
    requires w == 4 || w == 8
    requires |text| < path.Length && path[..|text|] == text && path[|text|] == 0 && 0 !in text
    ensures last.Some? ==> last.value < |text| && text[last.value] == SLASH
    ensures Answer(text, base, w) == Before(text, last)
  {
    hide Trim, LastOf, LastSeen, Answer, Before;
    last := StrRChr(path, text);
    ghost var found := last;
    if last.Some? && last.value != 0 {
      var l := last.value;
      assert path[..l] == text[..l] && (path[l + 1] == 0 <==> l == |text| - 1) by {
        assert path[..|text|][..l] == path[..l];
        assert l + 1 < |text| ==> path[l + 1] == text[l + 1] && text[l + 1] in text;
      }
      if path[l + 1] == 0 {
        var runp := WalkBack(path, l);
        if runp != 0 {
          assert path[..runp] == Trim(text[..l]);
          last := MemRChr(path[..runp], base, SLASH, runp, w, big);
        }
      }
    }
    Answered(text, base, w, found, last);
  }

  /** dirname_r of a string at address `base`: either ".", or the string is cut off after its directory part. */
  method DirnameR(path: array?<bv8>, base: nat, w: nat, big: bool, ghost text: seq<bv8>) returns (dot: bool)
    requires w == 4 || w == 8
    requires path != null ==> |text| < path.Length && path[..|text|] == text && path[|text|] == 0 && 0 !in text
    modifies path
    ensures path == null ==> dot
    ensures path != null ==>
              match Answer(text, base, w)
              case None => dot && path[..] == old(path[..])
              case Some(d) => !dot && |d| <= |text| && path[..] == old(path[..])[|d| := 0] && path[..|d|] == d
    ensures path != null ==> (Answer(text, base, w) == DirName(text) <==> RunSeen(text, base, w))
    ensures path != null && w == 4 ==> Answer(text, base, w) == DirName(text)
  {
    hide Trim, Answer, DirName, Before, CutOff, RunSeen;
    if path == null {
      return true;
    }
    DirNameIffRunSeen(text, base, w);
    FourIsDirName(text, base);
    var last := FindSlash(path, base, w, big, text);
    assert Before(text, None).None? by {
      NoSlash(text);
    }
    if last.None? {
      return true;
    }
    var l := last.value;
    var runp := WalkBack(path, l);
    CutIsLength(text, l);
    ghost var was, d := path[..], Before(text, last).value;
    assert path[..l] == text[..l] && text == was[..|text|];
    path[CutOff(runp, l)] := 0;
    return false;
  }

  lemma NoSlash(t: seq<bv8>)
    ensures Before(t, None).None?
  {
  }
}
