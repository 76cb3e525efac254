/** Splitting a path into components, as `strtok_r (path, "/", &saveptr)` does. */
module PathTokens {
  import opened Common

  /** The number of leading characters that are (or are not) slashes. */
  function Span(p: string, slash: bool): (n: nat)
    ensures n <= |p|
    ensures forall i :: 0 <= i < n ==> (p[i] == '/') == slash
    ensures n < |p| ==> (p[n] == '/') != slash
  {
    if p == "" || (p[0] == '/') != slash then 0 else 1 + Span(p[1..], slash)
  }

  /** The maximal slash-free pieces of a path, in order. */
  function Components(p: string): (cs: seq<string>)
    ensures forall i :: 0 <= i < |cs| ==> cs[i] != "" && '/' !in cs[i]
    decreases |p|
  {
    if p == "" then []
    else if p[0] == '/' then Components(p[1..])
    else
      var n := Span(p, false);
      assert n > 0;
      [p[..n]] + Components(p[n..])
  }

  lemma {:induction false} SpanPrefix(p: string, q: string)
    requires q == "" || q[0] == '/'
    ensures Span(p + q, false) == Span(p, false)
  {
    if p == "" {
      assert p + q == q;
    } else if p[0] != '/' {
      assert (p + q)[1..] == p[1..] + q;
      SpanPrefix(p[1..], q);
    }
  }

  /** Components do not depend on how many slashes separate them, nor on leading or trailing ones. */
  lemma {:induction false} ComponentsConcat(p: string, q: string)
    requires q == "" || q[0] == '/'
    ensures Components(p + q) == Components(p) + Components(q)
    decreases |p|
  {
    hide Components, Span;
    NextComponent(p);
    NextComponent(p + q);
    if p == "" {
      assert p + q == q && Components(p) == [];
    } else if p[0] == '/' {
      assert (p + q)[1..] == p[1..] + q;
      ComponentsConcat(p[1..], q);
    } else {
      var n := Span(p, false);
      SpanPrefix(p, q);
      assert (p + q)[..n] == p[..n] && (p + q)[n..] == p[n..] + q && (p + q)[0] == p[0];
      ComponentsConcat(p[n..], q);
      assert [p[..n]] + (Components(p[n..]) + Components(q)) == [p[..n]] + Components(p[n..]) + Components(q);
    }
  }

  lemma NextComponent(p: string)
    ensures p == "" ==> Components(p) == []
    ensures p != "" && p[0] == '/' ==> Components(p) == Components(p[1..])
    ensures p != "" && p[0] != '/' ==>
              var n := Span(p, false); 0 < n <= |p| && Components(p) == [p[..n]] + Components(p[n..])
  {
  }

  /** The components joined with single slashes. */
  function Join(cs: seq<string>): string {
    if cs == [] then "" else "/" + cs[0] + Join(cs[1..])
  }

  /** Splitting undoes joining, for any names without slashes. */
  lemma {:induction false} ComponentsOfJoin(cs: seq<string>)
    requires forall i :: 0 <= i < |cs| ==> cs[i] != "" && '/' !in cs[i]
    ensures Components(Join(cs)) == cs
  {
    if cs != [] {
      var rest := Join(cs[1..]);
      assert Join(cs)[1..] == cs[0] + rest;
      ComponentsConcat(cs[0], rest);
      assert Components(cs[0]) == [cs[0]] by {
        assert Span(cs[0], false) == |cs[0]|;
        assert cs[0][..|cs[0]|] == cs[0];
      }
      ComponentsOfJoin(cs[1..]);
    }
  }

  lemma {:induction false} SkipSlashes(p: string, n: nat)
    requires n <= |p| && forall i :: 0 <= i < n ==> p[i] == '/'
    ensures Components(p) == Components(p[n..])
    decreases n
  {
    if n == 0 {
      assert p[0..] == p;
    } else {
      assert p[1..][n - 1..] == p[n..];
      SkipSlashes(p[1..], n - 1);
    }
  }

  lemma FirstComponent(p: string, n: nat)
    requires 0 < n <= |p| && (forall i :: 0 <= i < n ==> p[i] != '/') && (n < |p| ==> p[n] == '/')
    ensures Components(p) == [p[..n]] + Components(p[n..])
    ensures n < |p| ==> Components(p[n..]) == Components(p[n + 1..])
  {
    assert Span(p, false) == n;
    if n < |p| {
      assert p[n..][1..] == p[n + 1..];
    }
  }

  /** strtok_r: skips slashes, then takes the longest slash-free piece; `save` is where to go on. */
  method StrtokR(path: string, pos: nat) returns (token: Option<string>, save: nat)
    requires pos <= |path|
    ensures save <= |path|
    ensures token.None? <==> Components(path[pos..]) == []
    ensures token.Some? ==> Components(path[pos..]) == [token.value] + Components(path[save..])
  {
    hide Components;
    var start := pos;
    while start < |path| && path[start] == '/'
      invariant pos <= start <= |path|
      invariant Components(path[pos..]) == Components(path[start..])
    {
      SkipSlashes(path[start..], 1);
      assert path[start..][1..] == path[start + 1..];
      start := start + 1;
    }
    if start == |path| {
      assert Components("") == [] by { EmptyPath(); }
      return None, start;
    }
    var end := start;
    while end < |path| && path[end] != '/'
      invariant start <= end <= |path|
      invariant forall i :: start <= i < end ==> path[i] != '/'
    {
      end := end + 1;
    }
    FirstComponent(path[start..], end - start);
    token := Some(path[start..end]);
    assert path[start..][..end - start] == path[start..end];
    assert path[start..][end - start..] == path[end..];
    save := if end < |path| then end + 1 else end;
    if end < |path| {
      assert path[start..][end - start + 1..] == path[save..];
    }
  }

  lemma EmptyPath()
    ensures Components("") == []
  {
  }
}
