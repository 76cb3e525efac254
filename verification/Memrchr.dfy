/** The search for the last occurrence of a byte, a word at a time. */
module Memrchr {
  import opened Common

  // ----- words -----

  const MAGIC32: bv32 := 0x7efefeff
  const MAGIC64: bv64 := 0x7efefeff

  /** Four bytes as a word, the lowest first. */
  function Word32(b0: bv8, b1: bv8, b2: bv8, b3: bv8): bv32 {
    (b0 as bv32) | ((b1 as bv32) << 8) | ((b2 as bv32) << 16) | ((b3 as bv32) << 24)
  }

  /** The two halves of an eight-byte word. */
  function Word64(low: bv32, high: bv32): bv64 {
    (low as bv64) | ((high as bv64) << 32)
  }

  /** Some hole bit of the word is unchanged by adding the magic bits. */
  predicate Fires32(x: bv32) {
    ((x + MAGIC32) ^ !x) & !MAGIC32 != 0
  }

  predicate Fires64(x: bv64) {
    ((x + MAGIC64) ^ !x) & !MAGIC64 != 0
  }

  lemma ZeroByte32(x: bv32)
    requires x & 0xff == 0 || x & 0xff00 == 0 || x & 0xff0000 == 0 || x & 0xff000000 == 0
    ensures Fires32(x)
  {
  }

  lemma ZeroByte64(x: bv64)
    requires x & 0xff == 0 || x & 0xff00 == 0 || x & 0xff0000 == 0 || x & 0xff000000 == 0
    ensures Fires64(x)
  {
  }

  /** The test fires for a word that has the byte. */
  lemma Found32(b0: bv8, b1: bv8, b2: bv8, b3: bv8, c: bv8)
    requires b0 == c || b1 == c || b2 == c || b3 == c
    ensures Fires32(Word32(b0, b1, b2, b3) ^ Word32(c, c, c, c))
  {
    var x := Word32(b0, b1, b2, b3) ^ Word32(c, c, c, c);
    assert x & 0xff == 0 || x & 0xff00 == 0 || x & 0xff0000 == 0 || x & 0xff000000 == 0;
    ZeroByte32(x);
  }

  /** With eight-byte words the mask covers the low half; the test fires for a low half that has the byte. */
  lemma Found64(b0: bv8, b1: bv8, b2: bv8, b3: bv8, high: bv32, c: bv8)
    requires b0 == c || b1 == c || b2 == c || b3 == c
    ensures Fires64(Word64(Word32(b0, b1, b2, b3), high) ^ Word64(Word32(c, c, c, c), 0))
  {
    var x := Word64(Word32(b0, b1, b2, b3), high) ^ Word64(Word32(c, c, c, c), 0);
    assert x & 0xff == 0 || x & 0xff00 == 0 || x & 0xff0000 == 0 || x & 0xff000000 == 0;
    ZeroByte64(x);
  }

  /** The high half has no mask: whatever the low half is, the test fires unless a carry can flip all its bits. */
  lemma FoundHigh(low: bv32, high: bv32, mask: bv32)
    requires high != 0xffffffff && high != 0x7fffffff
    ensures Fires64(Word64(low, high) ^ Word64(mask, 0))
  {
    var x := Word64(low, high) ^ Word64(mask, 0);
    assert x >> 32 != 0xffffffff && x >> 32 != 0x7fffffff;
    HighFires(x);
  }

  lemma HighFires(x: bv64)
    requires x >> 32 != 0xffffffff && x >> 32 != 0x7fffffff
    ensures Fires64(x)
  {
  }

  /** A carry flips all bits only of bytes 255, the highest of them 255 or 127. */
  lemma NotAllFlip(b0: bv8, b1: bv8, b2: bv8, b3: bv8, c: bv8)
    requires (b0 == c || b1 == c || b2 == c || b3 == c) && c != 0xff && c != 0x7f
    ensures Word32(b0, b1, b2, b3) != 0xffffffff && Word32(b0, b1, b2, b3) != 0x7fffffff
  {
  }

  // ----- which bytes are looked at -----

  /** The first position after the whole words: below it the search goes word by word. */
  function Top(base: nat, n: nat, w: nat): (t: nat)
    requires w > 0
    ensures t <= n && (t == 0 || (base + t) % w == 0)
  {
    if (base + n) % w == 0 || n == 0 then n else Top(base, n - 1, w)
  }

  /** Position `i` is looked at: it lies above the whole words, below them, or in the first four bytes of one. */
  predicate Seen(base: nat, n: nat, w: nat, i: nat)
    requires w > 0
  {
    var top := Top(base, n, w);
    i >= top || i < top % w || (i - top % w) % w < 4
  }

  /** The last of the first `n` bytes that is `c`. */
  function LastOf(mem: seq<bv8>, c: bv8, n: nat): (r: Option<nat>)
    requires n <= |mem|
    ensures r.Some? ==> r.value < n && mem[r.value] == c
  {
    if n == 0 then None else if mem[n - 1] == c then Some(n - 1) else LastOf(mem, c, n - 1)
  }

  /** The last of the first `k` bytes that is `c` and is looked at. */
  function LastSeen(mem: seq<bv8>, c: bv8, base: nat, n: nat, w: nat, k: nat): (r: Option<nat>)
    requires k <= n <= |mem| && w > 0
    ensures r.Some? ==> r.value < k && mem[r.value] == c
  {
    if k == 0 then None
    else if mem[k - 1] == c && Seen(base, n, w, k - 1) then Some(k - 1)
    else LastSeen(mem, c, base, n, w, k - 1)
  }

  /** What LastOf means. */
  lemma {:induction false} LastOfIsLast(mem: seq<bv8>, c: bv8, n: nat)
    requires n <= |mem|
    ensures match LastOf(mem, c, n)
            case None => forall j :: 0 <= j < n ==> mem[j] != c
            case Some(i) => i < n && mem[i] == c && forall j :: i < j < n ==> mem[j] != c
  {
    if n > 0 {
      LastOfIsLast(mem, c, n - 1);
    }
  }

  /** With four-byte words every byte is looked at. */
  lemma {:induction false} FourSeesAll(mem: seq<bv8>, c: bv8, base: nat, n: nat, k: nat)
    requires k <= n <= |mem|
    ensures LastSeen(mem, c, base, n, 4, k) == LastOf(mem, c, k)
  {
    if k > 0 {
      FourSeesAll(mem, c, base, n, k - 1);
    }
  }

  /** The search finds the last occurrence exactly when it looks at it. */
  lemma {:induction false} SeenIffLast(mem: seq<bv8>, c: bv8, base: nat, n: nat, w: nat, k: nat)
    requires k <= n <= |mem| && w > 0
    ensures LastSeen(mem, c, base, n, w, k) == LastOf(mem, c, k)
            <==> LastOf(mem, c, k).None? || Seen(base, n, w, LastOf(mem, c, k).value)
  {
    if k > 0 {
      SeenIffLast(mem, c, base, n, w, k - 1);
    }
  }

  /** What LastSeen means. */
  lemma {:induction false} LastSeenMeans(mem: seq<bv8>, c: bv8, base: nat, n: nat, w: nat, k: nat)
    requires k <= n <= |mem| && w > 0
    ensures var r := LastSeen(mem, c, base, n, w, k);
            && (r.Some? ==> Seen(base, n, w, r.value))
            && forall i :: (if r.Some? then r.value else -1) < i < k ==> mem[i] != c || !Seen(base, n, w, i)
  {
    if k > 0 {
      hide Seen;
      LastSeenMeans(mem, c, base, n, w, k - 1);
    }
  }

  /** The first four bytes are always looked at. */
  lemma FirstFourSeen(base: nat, n: nat, w: nat, i: nat)
    requires (w == 4 || w == 8) && i < 4
    ensures Seen(base, n, w, i)
  {
    hide Top;
    var low := Top(base, n, w) % w;
    if i >= low {
      BelowWord(i - low, w);
    }
  }

  // ----- the search -----

  /** The four bytes at `p` as a machine reads them; `big` says that it puts the highest first. */
  function HalfAt(mem: seq<bv8>, p: nat, big: bool): bv32
    requires p + 4 <= |mem|
  {
    if big then Word32(mem[p + 3], mem[p + 2], mem[p + 1], mem[p])
    else Word32(mem[p], mem[p + 1], mem[p + 2], mem[p + 3])
  }

  predicate Fires(mem: seq<bv8>, p: nat, w: nat, big: bool, c: bv8)
    requires (w == 4 || w == 8) && p + w <= |mem|
  {
    var mask, half := Word32(c, c, c, c), HalfAt(mem, p, big);
    if w == 4 then Fires32(half ^ mask)
    else
      var other := HalfAt(mem, p + 4, big);
      Fires64((if big then Word64(other, half) else Word64(half, other)) ^ Word64(mask, 0))
  }

  /** On a big-endian machine with eight-byte words the test can miss the bytes 255 and 127, and only these. */
  predicate Reliable(w: nat, big: bool, c: bv8) {
    big && w == 8 ==> c != 0xff && c != 0x7f
  }

  lemma FiresSmall(mem: seq<bv8>, p: nat, big: bool, c: bv8, i: nat)
    requires p + 4 <= |mem| && p <= i < p + 4 && mem[i] == c
    ensures Fires(mem, p, 4, big, c)
  {
    hide Fires32, Word32;
    if big {
      Found32(mem[p + 3], mem[p + 2], mem[p + 1], mem[p], c);
    } else {
      Found32(mem[p], mem[p + 1], mem[p + 2], mem[p + 3], c);
    }
  }

  lemma FiresLittle(mem: seq<bv8>, p: nat, c: bv8, i: nat)
    requires p + 8 <= |mem| && p <= i < p + 4 && mem[i] == c
    ensures Fires(mem, p, 8, false, c)
  {
    hide Fires64, Word32, Word64;
    Found64(mem[p], mem[p + 1], mem[p + 2], mem[p + 3], HalfAt(mem, p + 4, false), c);
  }

  lemma FiresBig(mem: seq<bv8>, p: nat, c: bv8, i: nat)
    requires p + 8 <= |mem| && p <= i < p + 4 && mem[i] == c && c != 0xff && c != 0x7f
    ensures Fires(mem, p, 8, true, c)
  {
    hide Fires64, Word32, Word64;
    NotAllFlip(mem[p + 3], mem[p + 2], mem[p + 1], mem[p], c);
    FoundHigh(HalfAt(mem, p + 4, true), HalfAt(mem, p, true), Word32(c, c, c, c));
  }

  /** A word for which the test does not fire does not have the byte among its first four. */
  lemma FiresIfFound(mem: seq<bv8>, p: nat, w: nat, big: bool, c: bv8)
    requires (w == 4 || w == 8) && p + w <= |mem| && Reliable(w, big, c) && !Fires(mem, p, w, big, c)
    ensures mem[p] != c && mem[p + 1] != c && mem[p + 2] != c && mem[p + 3] != c
  {
    hide Fires;
    if i: nat :| p <= i < p + 4 && mem[i] == c {
      if w == 4 {
        FiresSmall(mem, p, big, c, i);
      } else if big {
        FiresBig(mem, p, c, i);
      } else {
        FiresLittle(mem, p, c, i);
      }
    }
  }

  /** Words on such a machine that have the byte in their first half and for which the test does not fire. */
  lemma BigMisses(c: bv8)
    requires c == 0xff || c == 0x7f
    ensures !Fires([c, 0xff, 0xff, 0xff, !c, !c, !c, !c], 0, 8, true, c)
  {
    hide Fires64, Word64, Word32;
    var mem := [c, 0xff, 0xff, 0xff, !c, !c, !c, !c];
    var half, other, mask := HalfAt(mem, 0, true), HalfAt(mem, 4, true), Word32(c, c, c, c);
    MissedWord(c);
    assert half == Word32(0xff, 0xff, 0xff, c) && other == Word32(!c, !c, !c, !c);
  }

  lemma MissedWord(c: bv8)
    requires c == 0xff || c == 0x7f
    ensures !Fires64(Word64(Word32(!c, !c, !c, !c), Word32(0xff, 0xff, 0xff, c)) ^ Word64(Word32(c, c, c, c), 0))
  {
    assert Word32(!c, !c, !c, !c) ^ Word32(c, c, c, c) == 0xffffffff;
    var x := Word64(Word32(!c, !c, !c, !c), Word32(0xff, 0xff, 0xff, c)) ^ Word64(Word32(c, c, c, c), 0);
    assert x == 0xffffffff_ffffffff || x == 0x7fffffff_ffffffff;
  }

  lemma {:induction false} SkipUnseen(mem: seq<bv8>, c: bv8, base: nat, n: nat, w: nat, lo: nat, hi: nat)
    requires lo <= hi <= n <= |mem| && w > 0
    requires forall i :: lo <= i < hi ==> mem[i] != c || !Seen(base, n, w, i)
    ensures LastSeen(mem, c, base, n, w, hi) == LastSeen(mem, c, base, n, w, lo)
    decreases hi - lo
  {
    if lo < hi {
      SkipUnseen(mem, c, base, n, w, lo, hi - 1);
    }
  }

  /** A word without the byte among its first four. */
  lemma WordMissed(mem: seq<bv8>, c: bv8, base: nat, n: nat, w: nat, p: nat)
    requires (w == 4 || w == 8) && n <= |mem| && p + w <= Top(base, n, w) && p % w == Top(base, n, w) % w
    requires mem[p] != c && mem[p + 1] != c && mem[p + 2] != c && mem[p + 3] != c
    ensures LastSeen(mem, c, base, n, w, p + w) == LastSeen(mem, c, base, n, w, p)
  {
    WordSeen(base, n, w, p);
    SkipUnseen(mem, c, base, n, w, p, p + w);
  }

  lemma Shift4(q: nat, j: nat)
    requires j < 4
    ensures (4 * q + j) % 4 == j
  {
  }

  lemma Shift8(q: nat, j: nat)
    requires j < 8
    ensures (8 * q + j) % 8 == j
  {
  }

  lemma InWord(p: nat, low: nat, w: nat, i: nat)
    requires (w == 4 || w == 8) && p % w == low && p <= i < p + w
    ensures p >= low && (i - low) % w == i - p
  {
    if w == 4 {
      var q := p / 4;
      assert p == 4 * q + low && i - low == 4 * q + (i - p);
      Shift4(q, i - p);
    } else {
      var q := p / 8;
      assert p == 8 * q + low && i - low == 8 * q + (i - p);
      Shift8(q, i - p);
    }
  }

  lemma WordSeen(base: nat, n: nat, w: nat, p: nat)
    requires (w == 4 || w == 8) && p + w <= Top(base, n, w) && p % w == Top(base, n, w) % w
    ensures forall i :: p <= i < p + w ==> (Seen(base, n, w, i) <==> i - p < 4)
  {
    forall i | p <= i < p + w
      ensures Seen(base, n, w, i) <==> i - p < 4
    {
      InWord(p, Top(base, n, w) % w, w, i);
    }
  }

  lemma AboveSeen(base: nat, n: nat, w: nat, p: nat)
    requires w > 0 && 0 < p <= n && Top(base, n, w) == Top(base, p, w) && (base + p) % w != 0
    ensures Top(base, p - 1, w) == Top(base, p, w) && Seen(base, n, w, p - 1)
  {
  }

  lemma AtTop(base: nat, p: nat, w: nat)
    requires w > 0 && (p == 0 || (base + p) % w == 0)
    ensures Top(base, p, w) == p
  {
  }

  lemma BelowSeen(base: nat, n: nat, w: nat, i: nat)
    requires w > 0 && i < Top(base, n, w) % w
    ensures Seen(base, n, w, i)
  {
  }

  /** The last of the first four bytes of a word that is `c`. */
  lemma WordFound(mem: seq<bv8>, c: bv8, base: nat, n: nat, w: nat, p: nat, j: nat)
    requires (w == 4 || w == 8) && n <= |mem| && p + w <= Top(base, n, w) && p % w == Top(base, n, w) % w
    requires j < 4 && mem[p + j] == c && forall i :: p + j < i < p + 4 ==> mem[i] != c
    ensures LastSeen(mem, c, base, n, w, p + w) == Some(p + j)
  {
    WordSeen(base, n, w, p);
    SkipUnseen(mem, c, base, n, w, p + j + 1, p + w);
  }

  lemma WordBack(p: nat, w: nat)
    requires (w == 4 || w == 8) && p >= w
    ensures (p - w) % w == p % w
  {
  }

  /** One word of the search. */
  method SearchWord(mem: seq<bv8>, ghost base: nat, c: bv8, ghost n: nat, w: nat, big: bool, p: nat)
    returns (r: Option<nat>)
    requires (w == 4 || w == 8) && n <= |mem| && p + w <= Top(base, n, w) && p % w == Top(base, n, w) % w
    ensures r.Some? ==> r.value < n && mem[r.value] == c
    ensures r.Some? || Reliable(w, big, c) ==>
              LastSeen(mem, c, base, n, w, p + w) == if r.Some? then r else LastSeen(mem, c, base, n, w, p)
  {
    hide Fires, Seen, Top, LastSeen;
    if Fires(mem, p, w, big, c) {
      if mem[p + 3] == c {
        WordFound(mem, c, base, n, w, p, 3);
        return Some(p + 3);
      }
      if mem[p + 2] == c {
        WordFound(mem, c, base, n, w, p, 2);
        return Some(p + 2);
      }
      if mem[p + 1] == c {
        WordFound(mem, c, base, n, w, p, 1);
        return Some(p + 1);
      }
      if mem[p] == c {
        WordFound(mem, c, base, n, w, p, 0);
        return Some(p);
      }
    } else if Reliable(w, big, c) {
      FiresIfFound(mem, p, w, big, c);
    }
    if Fires(mem, p, w, big, c) || Reliable(w, big, c) {
      WordMissed(mem, c, base, n, w, p);
    }
    return None;
  }

  /** __memrchr on memory at address `base`, with `w`-byte words of either byte order. */
  method MemRChr(mem: seq<bv8>, base: nat, c: bv8, n: nat, w: nat, big: bool) returns (r: Option<nat>)
    requires n <= |mem| && (w == 4 || w == 8)
    ensures r.Some? ==> r.value < n && mem[r.value] == c
    ensures w == 4 ==> r == LastOf(mem, c, n)
    ensures Reliable(w, big, c) ==>
              && r == LastSeen(mem, c, base, n, w, n)
              && (r == LastOf(mem, c, n) <==> LastOf(mem, c, n).None? || Seen(base, n, w, LastOf(mem, c, n).value))
  {
    hide Seen, Top, LastOf, LastSeen;
    if w == 4 {
      FourSeesAll(mem, c, base, n, n);
    }
    SeenIffLast(mem, c, base, n, w, n);
    var p := n;
    ghost var sure := Reliable(w, big, c);
    ghost var top, goal := Top(base, n, w), LastSeen(mem, c, base, n, w, n);
    while p > 0 && (base + p) % w != 0
      invariant 0 <= p <= n && top == Top(base, p, w) && (sure ==> goal == LastSeen(mem, c, base, n, w, p))
    {
      AboveSeen(base, n, w, p);
      ByteSeen(mem, c, base, n, w, p);
      p := p - 1;
      if mem[p] == c {
        return Some(p);
      }
    }
    AtTop(base, p, w);
    while p >= w
      invariant 0 <= p <= top <= n && p % w == top % w && (sure ==> goal == LastSeen(mem, c, base, n, w, p))
    {
      WordBack(p, w);
      p := p - w;
      r := SearchWord(mem, base, c, n, w, big, p);
      if r.Some? {
        return;
      }
    }
    BelowWord(p, w);
    while p > 0
      invariant 0 <= p <= top % w && p <= n && (sure ==> goal == LastSeen(mem, c, base, n, w, p))
    {
      BelowSeen(base, n, w, p - 1);
      ByteSeen(mem, c, base, n, w, p);
      p := p - 1;
      if mem[p] == c {
        return Some(p);
      }
    }
    NothingLeft(mem, c, base, n, w);
    return None;
  }

  lemma ByteSeen(mem: seq<bv8>, c: bv8, base: nat, n: nat, w: nat, p: nat)
    requires 0 < p <= n <= |mem| && w > 0 && Seen(base, n, w, p - 1)
    ensures LastSeen(mem, c, base, n, w, p)
            == if mem[p - 1] == c then Some(p - 1) else LastSeen(mem, c, base, n, w, p - 1)
  {
  }

  lemma NothingLeft(mem: seq<bv8>, c: bv8, base: nat, n: nat, w: nat)
    requires n <= |mem| && w > 0
    ensures LastSeen(mem, c, base, n, w, 0).None?
  {
  }

  lemma BelowWord(p: nat, w: nat)
    requires (w == 4 || w == 8) && p < w
    ensures p % w == p
  {
  }

  /** Eight-byte words miss the slash of "aaaa/bbb" at an aligned address. */
  lemma EightMisses()
    ensures var mem: seq<bv8> := [97, 97, 97, 97, 47, 98, 98, 98];
            LastOf(mem, 47, 8) == Some(4) && LastSeen(mem, 47, 0, 8, 8, 8) == None
  {
    var mem: seq<bv8> := [97, 97, 97, 97, 47, 98, 98, 98];
    assert Top(0, 8, 8) == 8;
    assert LastOf(mem, 47, 5) == Some(4);
    assert LastOf(mem, 47, 7) == LastOf(mem, 47, 5);
    SkipUnseen(mem, 47, 0, 8, 8, 0, 8);
  }
}
