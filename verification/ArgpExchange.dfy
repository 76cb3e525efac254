/** The in-place exchange of two adjacent stretches of argv. */
module ArgpExchange {

  /** `s` with the adjacent stretches [b, m) and [m, t) in the other order. */
  function Rotated<T>(s: seq<T>, b: nat, m: nat, t: nat): (r: seq<T>)
    requires b <= m <= t <= |s|
    ensures |r| == |s|
  {
    s[..b] + s[m..t] + s[b..m] + s[t..]
  }

  lemma RotatedSlices<T>(s: seq<T>, b: nat, m: nat, t: nat)
    requires b <= m <= t <= |s|
    ensures var r := Rotated(s, b, m, t);
            && r[..b] == s[..b] && r[b..b + (t - m)] == s[m..t]
            && r[b + (t - m)..t] == s[b..m] && r[t..] == s[t..]
  {
  }

  /** `s` with the disjoint stretches of length `n` at `i` and at `j` swapped. */
  function Swapped<T>(s: seq<T>, i: nat, j: nat, n: nat): (r: seq<T>)
    requires i + n <= j && j + n <= |s|
    ensures |r| == |s|
  {
    s[..i] + s[j..j + n] + s[i + n..j] + s[i..i + n] + s[j + n..]
  }

  /** The element that the rotation puts at `k`. */
  lemma RotatedIndex<T>(s: seq<T>, b: nat, m: nat, t: nat, k: nat)
    requires b <= m <= t <= |s| && k < |s|
    ensures Rotated(s, b, m, t)[k]
            == s[if k < b || k >= t then k else if k < b + (t - m) then k + (m - b) else k - (t - m)]
  {
  }

  /** The element that the swap puts at `k`. */
  lemma SwappedIndex<T>(s: seq<T>, i: nat, j: nat, n: nat, k: nat)
    requires i + n <= j && j + n <= |s| && k < |s|
    ensures Swapped(s, i, j, n)[k]
            == s[if i <= k < i + n then k + (j - i) else if j <= k < j + n then k - (j - i) else k]
  {
  }

  /** The first stretch is the shorter one: after the swap it is in place at the far end. */
  lemma SwapLow<T>(s: seq<T>, b: nat, m: nat, t: nat)
    requires b <= m <= t <= |s| && m - b <= t - m
    ensures Rotated(Swapped(s, b, t - (m - b), m - b), b, m, t - (m - b)) == Rotated(s, b, m, t)
  {
    hide Rotated, Swapped;
    var n := m - b;
    var s' := Swapped(s, b, t - n, n);
    forall k | 0 <= k < |s|
      ensures Rotated(s', b, m, t - n)[k] == Rotated(s, b, m, t)[k]
    {
      RotatedIndex(s, b, m, t, k);
      RotatedIndex(s', b, m, t - n, k);
      var from := if k < b || k >= t - n then k else if k < t - n - n then k + n else k - (t - n - m);
      SwappedIndex(s, b, t - n, n, from);
    }
  }

  /** The second stretch is the shorter one: after the swap it is in place at the near end. */
  lemma SwapHigh<T>(s: seq<T>, b: nat, m: nat, t: nat)
    requires b <= m <= t <= |s| && t - m <= m - b
    ensures Rotated(Swapped(s, b, m, t - m), b + (t - m), m, t) == Rotated(s, b, m, t)
  {
    hide Rotated, Swapped;
    var n := t - m;
    var s' := Swapped(s, b, m, n);
    forall k | 0 <= k < |s|
      ensures Rotated(s', b + n, m, t)[k] == Rotated(s, b, m, t)[k]
    {
      RotatedIndex(s, b, m, t, k);
      RotatedIndex(s', b + n, m, t, k);
      var from := if k < b + n || k >= t then k else if k < b + n + n then k + (m - b - n) else k - n;
      SwappedIndex(s, b, m, n, from);
    }
  }

  lemma SwappedAt<T>(s: seq<T>, i: nat, j: nat, n: nat, r: seq<T>)
    requires i + n <= j && j + n <= |s| == |r|
    requires forall x :: i <= x < i + n ==> r[x] == s[x + (j - i)]
    requires forall x :: j <= x < j + n ==> r[x] == s[x - (j - i)]
    requires forall y :: 0 <= y < |s| && !(i <= y < i + n) && !(j <= y < j + n) ==> r[y] == s[y]
    ensures r == Swapped(s, i, j, n)
  {
    hide Swapped;
    forall k | 0 <= k < |s|
      ensures r[k] == Swapped(s, i, j, n)[k]
    {
      SwappedIndex(s, i, j, n, k);
    }
  }

  lemma RotatedTrivially<T>(s: seq<T>, b: nat, m: nat, t: nat)
    requires b <= m <= t <= |s| && (b == m || m == t)
    ensures Rotated(s, b, m, t) == s
  {
  }

  /** The inner loops: two stretches are swapped element by element. */
  method SwapBlocks<T>(a: array<T>, i: nat, j: nat, n: nat)
    requires i + n <= j && j + n <= a.Length
    modifies a
    ensures a[..] == Swapped(old(a[..]), i, j, n)
  {
    for k := 0 to n
      invariant forall x :: i <= x < i + k ==> a[x] == old(a[x + (j - i)])
      invariant forall x :: j <= x < j + k ==> a[x] == old(a[x - (j - i)])
      invariant forall y :: 0 <= y < a.Length && !(i <= y < i + k) && !(j <= y < j + k) ==> a[y] == old(a[y])
    {
      var tem := a[i + k];
      a[i + k] := a[j + k];
      a[j + k] := tem;
    }
    SwappedAt(old(a[..]), i, j, n, a[..]);
  }

  /** exchange: [first, last) and [last, next) change places, each keeping its order. */
  method Exchange<T>(a: array<T>, first: nat, last: nat, next: nat)
    requires first <= last <= next <= a.Length
    modifies a
    ensures a[..] == Rotated(old(a[..]), first, last, next)
  {
    hide Rotated, Swapped;
    var bottom, middle, top := first, last, next;
    while top > middle && middle > bottom
      invariant first <= bottom <= middle <= top <= next
      invariant Rotated(a[..], bottom, middle, top) == Rotated(old(a[..]), first, last, next)
      decreases top - bottom
    {
      if top - middle > middle - bottom {
        var len := middle - bottom;
        SwapLow(a[..], bottom, middle, top);
        SwapBlocks(a, bottom, top - len, len);
        top := top - len;
      } else {
        var len := top - middle;
        SwapHigh(a[..], bottom, middle, top);
        SwapBlocks(a, bottom, middle, len);
        bottom := bottom + len;
      }
    }
    RotatedTrivially(a[..], bottom, middle, top);
  }
}
