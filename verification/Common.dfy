/** Small value types and counting facts shared by the models. */
module Common {

  datatype Option<+T> = None | Some(value: T)

  /** The sum of `w` over the elements of `xs`. */
  ghost function Total<T(!new)>(xs: seq<T>, w: T -> nat): nat
  {
    if xs == [] then 0 else w(xs[0]) + Total(xs[1..], w)
  }

  /** Replacing one element moves the sum by the difference of its weights. */
  lemma {:induction false} TotalUpdate<T(!new)>(xs: seq<T>, i: nat, x: T, w: T -> nat)
    requires i < |xs|
    ensures Total(xs[i := x], w) + w(xs[i]) == Total(xs, w) + w(x)
  {
    if i == 0 {
      assert xs[i := x][1..] == xs[1..];
    } else {
      assert xs[i := x][1..] == xs[1..][i - 1 := x];
      TotalUpdate(xs[1..], i - 1, x, w);
    }
  }

  lemma {:induction false} TotalAppend<T(!new)>(xs: seq<T>, x: T, w: T -> nat)
    ensures Total(xs + [x], w) == Total(xs, w) + w(x)
  {
    if xs == [] {
      assert Total([x], w) == w(x) + Total([], w);
    } else {
      assert (xs + [x])[1..] == xs[1..] + [x];
      TotalAppend(xs[1..], x, w);
    }
  }

  lemma {:induction false} TotalAtLeast<T(!new)>(xs: seq<T>, i: nat, w: T -> nat)
    requires i < |xs|
    ensures Total(xs, w) >= w(xs[i])
  {
    if i > 0 {
      TotalAtLeast(xs[1..], i - 1, w);
    }
  }

  lemma {:induction false} TotalZero<T(!new)>(xs: seq<T>, w: T -> nat)
    requires forall i :: 0 <= i < |xs| ==> w(xs[i]) == 0
    ensures Total(xs, w) == 0
  {
    if xs != [] {
      TotalZero(xs[1..], w);
    }
  }

  // ----- parts of arrays -----

  /** `now` is `was` with the stretch from `pos` to `end` replaced by `part`. */
  ghost predicate Replaced<T>(was: seq<T>, pos: nat, end: nat, part: seq<T>, now: seq<T>) {
    pos <= end <= |was| && now == was[..pos] + part + was[end..]
  }

  lemma ReplacedNothing<T>(was: seq<T>, pos: nat)
    requires pos <= |was|
    ensures Replaced(was, pos, pos, [], was)
  {
  }

  lemma ReplacedMore<T>(was: seq<T>, pos: nat, mid: nat, end: nat, part: seq<T>, now: seq<T>, more: seq<T>,
                        now': seq<T>)
    requires Replaced(was, pos, mid, part, now) && |part| == mid - pos && Replaced(now, mid, end, more, now')
    ensures Replaced(was, pos, end, part + more, now')
  {
    assert now[..mid] == was[..pos] + part && now[end..] == was[end..];
  }
}
