/** strtok with strspn and strcspn (strtok.c, strspn.c, strcspn.c): tokens are cut out of a buffer in place, and
    a cursor is kept between calls. */
module Strtok {
  import opened Common

  /** Every C string read below ends inside its memory. */
  predicate Terminated(s: seq<char>, i: nat) {
    i < |s| && NUL in s[i..]
  }

  /** The position of the terminator of the C string at i. */
  function EndOf(s: seq<char>, i: nat): (e: nat)
    requires Terminated(s, i)
    ensures i <= e < |s| && s[e] == NUL && forall k :: i <= k < e ==> s[k] != NUL
    decreases |s| - i
  {
    if s[i] == NUL then i
    else
      assert s[i..] == [s[i]] + s[i + 1..];
      EndOf(s, i + 1)
  }

  /** The characters of the C string tok. */
  function Chars(tok: seq<char>): set<char>
    requires Terminated(tok, 0)
  {
    set c | c in tok[..EndOf(tok, 0)]
  }

  /** The first position from i on that holds NUL or a character outside (inside, when `stop`) delims. */
  function Span(s: seq<char>, i: nat, delims: set<char>, stop: bool): (e: nat)
    requires Terminated(s, i)
    ensures i <= e <= EndOf(s, i)
    ensures forall k :: i <= k < e ==> (s[k] in delims) != stop
    ensures e < EndOf(s, i) ==> (s[e] in delims) == stop
    decreases |s| - i
  {
    if s[i] == NUL || (s[i] in delims) == stop then i
    else
      assert s[i..] == [s[i]] + s[i + 1..];
      Span(s, i + 1, delims, stop)
  }

  lemma Onward(s: seq<char>, i: nat)
    requires Terminated(s, i) && s[i] != NUL
    ensures Terminated(s, i + 1) && EndOf(s, i) == EndOf(s, i + 1)
  {
    assert s[i..] == [s[i]] + s[i + 1..];
  }

  /** The inner loop of strspn and strcspn: is c one of the characters of tok? */
  method Among(tok: seq<char>, c: char) returns (found: bool)
    requires Terminated(tok, 0)
    ensures found <==> c in Chars(tok)
  {
    ghost var e := EndOf(tok, 0);
    var j := 0;
    while tok[j] != NUL
      invariant 0 <= j <= e && Terminated(tok, j) && EndOf(tok, j) == e
      invariant c !in tok[..j]
      decreases |tok| - j
    {
      if tok[j] == c {
        assert c == tok[..e][j];
        return true;
      }
      Onward(tok, j);
      j := j + 1;
    }
    return false;
  }

  method Strspn(s: array<char>, p: nat, tok: seq<char>) returns (i: nat)
    requires Terminated(s[..], p) && Terminated(tok, 0)
    ensures p + i == Span(s[..], p, Chars(tok), false)
  {
    ghost var str, delims := s[..], Chars(tok);
    i := 0;
    while s[p + i] != NUL
      invariant p + i < |str| == s.Length && str == s[..] && Terminated(str, p + i)
      invariant Span(str, p + i, delims, false) == Span(str, p, delims, false)
      decreases s.Length - i
    {
      assert str[p + i] == s[p + i];
      var found := Among(tok, s[p + i]);
      if !found {
        break;
      }
      Onward(str, p + i);
      i := i + 1;
    }
  }

  method Strcspn(s: array<char>, p: nat, tok: seq<char>) returns (i: nat)
    requires Terminated(s[..], p) && Terminated(tok, 0)
    ensures p + i == Span(s[..], p, Chars(tok), true)
  {
    ghost var str, delims := s[..], Chars(tok);
    i := 0;
    while s[p + i] != NUL
      invariant p + i < |str| == s.Length && str == s[..] && Terminated(str, p + i)
      invariant Span(str, p + i, delims, true) == Span(str, p, delims, true)
      decreases s.Length - i
    {
      assert str[p + i] == s[p + i];
      var found := Among(tok, s[p + i]);
      if found {
        break;
      }
      Onward(str, p + i);
      i := i + 1;
    }
  }

  // ----- One call -----

  /** A token [start, stop) or none; the cursor and the buffer after the call. */
  datatype Result = Result(start: int, stop: int, cursor: nat, buffer: seq<char>)

  const NOTHING: int := -1

  /** strtok from cursor t. */
  function Call(s: seq<char>, t: nat, delims: set<char>): Result
    requires Terminated(s, t)
  {
    var r := Span(s, t, delims, false);
    SpanTerminated(s, t, delims, false);
    var e := Span(s, r, delims, true);
    if e == r then Result(NOTHING, NOTHING, t, s)
    else if s[e] != NUL then Result(r, e, e + 1, s[e := NUL])
    else Result(r, e, e, s)
  }

  lemma SpanTerminated(s: seq<char>, i: nat, delims: set<char>, stop: bool)
    requires Terminated(s, i)
    ensures var e := Span(s, i, delims, stop); Terminated(s, e) && EndOf(s, e) == EndOf(s, i)
  {
    SameEnd(s, i, Span(s, i, delims, stop));
  }

  lemma CallIs(s: seq<char>, t: nat, delims: set<char>, r: nat, e: nat)
    requires Terminated(s, t) && r == Span(s, t, delims, false) && Terminated(s, r) && e == Span(s, r, delims, true)
    ensures Call(s, t, delims) ==
            if e == r then Result(NOTHING, NOTHING, t, s)
            else if s[e] != NUL then Result(r, e, e + 1, s[e := NUL])
            else Result(r, e, e, s)
  {
  }

  lemma SameEnd(s: seq<char>, i: nat, j: nat)
    requires Terminated(s, i) && i <= j <= EndOf(s, i)
    ensures Terminated(s, j) && EndOf(s, j) == EndOf(s, i)
  {
    var e := EndOf(s, i);
    assert s[j..][e - j] == NUL;
    assert Terminated(s, j);
  }

  /** The cursor that the source keeps in a static variable, with the buffer it points into. */
  class Tokenizer {
    const buffer: array<char>
    var t: nat

    constructor (buffer: array<char>)
      ensures this.buffer == buffer && t == 0
    {
      this.buffer, t := buffer, 0;
    }

    /** p is where to start, or -1 to go on from the cursor; the token's start, or -1. */
    method Strtok(p: int, tok: seq<char>) returns (start: int)
      requires Terminated(tok, 0) && p >= -1 && Terminated(buffer[..], if p >= 0 then p else t)
      modifies this, buffer
      ensures var c := Call(old(buffer[..]), if p >= 0 then p else old(t), Chars(tok));
              start == c.start && t == c.cursor && buffer[..] == c.buffer
    {
      if p >= 0 {
        t := p;
      }
      start := NextToken(tok);
    }

    /** The rest of strtok, from the cursor. */
    method NextToken(tok: seq<char>) returns (start: int)
      requires Terminated(tok, 0) && Terminated(buffer[..], t)
      modifies this, buffer
      ensures var c := Call(old(buffer[..]), old(t), Chars(tok));
              start == c.start && t == c.cursor && buffer[..] == c.buffer
    {
      ghost var c := Call(buffer[..], t, Chars(tok));
      var r, e := Delimit(tok);
      CallIs(buffer[..], t, Chars(tok), r, e);
      if e == r {
        return NOTHING;
      }
      t := e;
      CutHere();
      assert t == c.cursor && buffer[..] == c.buffer;
      return r;
    }

    /** The token at the cursor: the run from r to e, empty when only delimiters are left. */
    method Delimit(tok: seq<char>) returns (r: nat, e: nat)
      requires Terminated(tok, 0) && Terminated(buffer[..], t)
      ensures r == Span(buffer[..], t, Chars(tok), false) && Terminated(buffer[..], r)
      ensures e == Span(buffer[..], r, Chars(tok), true)
    {
      SpanTerminated(buffer[..], t, Chars(tok), false);
      var skip := Strspn(buffer, t, tok);
      r := t + skip;
      var n := Strcspn(buffer, r, tok);
      e := r + n;
    }

    /** End the token at the cursor, unless the string ends there. */
    method CutHere()
      requires t < buffer.Length
      modifies this, buffer
      ensures if old(buffer[..])[old(t)] != NUL
              then t == old(t) + 1 && buffer[..] == old(buffer[..])[old(t) := NUL]
              else t == old(t) && buffer[..] == old(buffer[..])
    {
      if buffer[t] != NUL {
        buffer[t] := NUL;
        t := t + 1;
      }
    }
  }

  // ----- Repeated calls with one delimiter set -----

  /** The string s from p to its end, and the delimiters, as they are before the first call. */
  datatype Job = Job(s: seq<char>, p: nat, delims: set<char>)

  predicate GoodJob(j: Job) {
    Terminated(j.s, j.p)
  }

  function End(j: Job): nat
    requires GoodJob(j)
  {
    EndOf(j.s, j.p)
  }

  /** [a, b) is a maximal run of characters that are no delimiters. */
  predicate IsToken(j: Job, a: int, b: int)
    requires GoodJob(j)
  {
    && j.p <= a < b <= End(j)
    && (forall k :: a <= k < b ==> j.s[k] !in j.delims)
    && (a == j.p || j.s[a - 1] in j.delims)
    && (b == End(j) || j.s[b] in j.delims)
  }

  /** Buffer, cursor, and the tokens returned so far; `done` once a call has returned null. */
  datatype Progress = Progress(buffer: seq<char>, t: nat, found: seq<(int, int)>, done: bool)

  function Start(j: Job): Progress {
    Progress(j.s, j.p, [], false)
  }

  /** g' is g after one more call, which gives c. */
  predicate Called(g: Progress, c: Result, g': Progress) {
    g' == if c.start == NOTHING then Progress(c.buffer, c.cursor, g.found, true)
          else Progress(c.buffer, c.cursor, g.found + [(c.start, c.stop)], g.done)
  }

  predicate Next(j: Job, g: Progress, g': Progress) {
    Terminated(g.buffer, g.t) && Called(g, Call(g.buffer, g.t, j.delims), g')
  }

  /** What holds between calls. */
  ghost predicate OnTrack(j: Job, g: Progress) {
    && GoodJob(j) && j.p <= g.t <= End(j)
    && (g.t == j.p || g.t == End(j) || j.s[g.t - 1] in j.delims)
    && Rest(j, g.buffer, g.found, g.t) && Tokens(j, g.found, g.t)
    && (g.done ==> forall k :: g.t <= k < End(j) ==> j.s[k] in j.delims)
  }

  /** The buffer differs from the string only in the NUL after each token that a delimiter ended. */
  ghost predicate Rest(j: Job, buffer: seq<char>, found: seq<(int, int)>, t: int)
    requires GoodJob(j)
  {
    && |buffer| == |j.s|
    && (forall k :: 0 <= k < |j.s| ==> buffer[k] == if Ends(found, k) then NUL else j.s[k])
    && (forall i :: 0 <= i < |found| ==> found[i].1 < t || (found[i].1 == t && t == End(j)))
  }

  ghost predicate Ends(found: seq<(int, int)>, k: int) {
    exists i :: 0 <= i < |found| && found[i].1 == k
  }

  /** The tokens returned are exactly the tokens that start before the cursor, from left to right. */
  ghost predicate Tokens(j: Job, found: seq<(int, int)>, t: int)
    requires GoodJob(j)
  {
    && (forall i :: 0 <= i < |found| ==> IsToken(j, found[i].0, found[i].1) && found[i].0 < t)
    && (forall i, k :: 0 <= i < k < |found| ==> found[i].1 < found[k].0)
    && (forall a, b :: IsToken(j, a, b) && a < t ==> (a, b) in found)
  }

  lemma StartOnTrack(j: Job)
    requires GoodJob(j)
    ensures OnTrack(j, Start(j))
  {
  }

  /** From the cursor on, the buffer is still the string. */
  lemma SameAhead(j: Job, g: Progress)
    requires OnTrack(j, g)
    ensures Terminated(g.buffer, g.t) && EndOf(g.buffer, g.t) == End(j)
    ensures forall k :: g.t <= k < End(j) ==> g.buffer[k] == j.s[k]
    ensures g.buffer[End(j)] == NUL
  {
    var e := End(j);
    assert g.buffer[e] == NUL;
    assert g.buffer[g.t..][e - g.t] == NUL;
    var e' := EndOf(g.buffer, g.t);
    forall k | g.t <= k < e
      ensures g.buffer[k] == j.s[k] && j.s[k] != NUL
    {
      assert !Ends(g.found, k);
    }
  }

  /** The result c of a call: nothing but delimiters ahead, or the next token. */
  ghost predicate Finds(j: Job, g: Progress, c: Result)
    requires GoodJob(j)
  {
    if c.start == NOTHING then
      c == Result(NOTHING, NOTHING, g.t, g.buffer) && forall k :: g.t <= k < End(j) ==> j.s[k] in j.delims
    else
      && g.t <= c.start < c.stop <= End(j) < |g.buffer|
      && (forall k :: g.t <= k < c.start ==> j.s[k] in j.delims)
      && (forall k :: c.start <= k < c.stop ==> j.s[k] !in j.delims)
      && (if c.stop < End(j)
          then j.s[c.stop] in j.delims && c.cursor == c.stop + 1 && c.buffer == g.buffer[c.stop := NUL]
          else c.cursor == c.stop && c.buffer == g.buffer)
  }

  lemma CallFinds(j: Job, g: Progress)
    requires OnTrack(j, g) && Terminated(g.buffer, g.t)
    ensures Finds(j, g, Call(g.buffer, g.t, j.delims))
  {
    SameAhead(j, g);
    var r := Span(g.buffer, g.t, j.delims, false);
    SpanTerminated(g.buffer, g.t, j.delims, false);
    var e := Span(g.buffer, r, j.delims, true);
    CallIs(g.buffer, g.t, j.delims, r, e);
  }

  lemma FoundIsToken(j: Job, g: Progress, a: int, b: int)
    requires OnTrack(j, g) && g.t <= a < b <= End(j)
    requires forall k :: g.t <= k < a ==> j.s[k] in j.delims
    requires forall k :: a <= k < b ==> j.s[k] !in j.delims
    requires b < End(j) ==> j.s[b] in j.delims
    ensures IsToken(j, a, b)
    ensures forall a', b' :: IsToken(j, a', b') && g.t <= a' <= b ==> (a', b') == (a, b)
  {
    forall a', b' | IsToken(j, a', b') && g.t <= a' <= b
      ensures (a', b') == (a, b)
    {
      var first, after, end := j.s[a'], j.s[b], j.s[b'];
    }
  }

  lemma FoundOnTrack(j: Job, g: Progress, c: Result, g': Progress)
    requires OnTrack(j, g) && Finds(j, g, c) && Called(g, c, g')
    ensures OnTrack(j, g')
    ensures if g.done then g' == g else g'.done || g.t < g'.t
  {
    if c.start == NOTHING {
      NullOnTrack(j, g, g');
    } else {
      assert !g.done by {
        assert j.s[c.start] !in j.delims;
      }
      FoundIsToken(j, g, c.start, c.stop);
      TokensGrow(j, g, c.start, c.stop, g');
      RestGrows(j, g, c.start, c.stop, g');
    }
  }

  lemma NullOnTrack(j: Job, g: Progress, g': Progress)
    requires OnTrack(j, g) && g' == g.(done := true)
    requires forall k :: g.t <= k < End(j) ==> j.s[k] in j.delims
    ensures OnTrack(j, g')
  {
  }

  /** Each call keeps on track, and moves the cursor on until null is returned; after that nothing changes. */
  lemma NextOnTrack(j: Job, g: Progress, g': Progress)
    requires OnTrack(j, g) && Next(j, g, g')
    ensures OnTrack(j, g')
    ensures if g.done then g' == g else g'.done || g.t < g'.t
  {
    CallFinds(j, g);
    FoundOnTrack(j, g, Call(g.buffer, g.t, j.delims), g');
  }

  lemma TokensGrow(j: Job, g: Progress, a: int, b: int, g': Progress)
    requires OnTrack(j, g) && IsToken(j, a, b) && g.t <= a
    requires forall a', b' :: IsToken(j, a', b') && g.t <= a' <= b ==> (a', b') == (a, b)
    requires g'.found == g.found + [(a, b)] && g'.t == if b < End(j) then b + 1 else b
    ensures Tokens(j, g'.found, g'.t)
  {
    assert g'.found[|g.found|] == (a, b);
    forall a', b' | IsToken(j, a', b') && a' < g'.t
      ensures (a', b') in g'.found
    {
      if a' < g.t {
        assert (a', b') in g.found;
      }
    }
    forall i | 0 <= i < |g.found|
      ensures g.found[i].1 < a
    {
    }
  }

  lemma RestGrows(j: Job, g: Progress, a: int, b: int, g': Progress)
    requires OnTrack(j, g) && IsToken(j, a, b) && g.t <= a
    requires g'.found == g.found + [(a, b)] && g'.t == if b < End(j) then b + 1 else b
    requires g'.buffer == if b < End(j) then g.buffer[b := NUL] else g.buffer
    ensures Rest(j, g'.buffer, g'.found, g'.t)
  {
    EndsGrow(g.found, a, b);
    forall i | 0 <= i < |g'.found|
      ensures g'.found[i].1 < g'.t || (g'.found[i].1 == g'.t && g'.t == End(j))
    {
      if i < |g.found| {
        assert g'.found[i] == g.found[i];
      }
    }
  }

  lemma EndsGrow(found: seq<(int, int)>, a: int, b: int)
    ensures forall k :: Ends(found + [(a, b)], k) <==> Ends(found, k) || k == b
  {
    var found' := found + [(a, b)];
    forall k
      ensures Ends(found', k) <==> Ends(found, k) || k == b
    {
      if Ends(found, k) {
        var i :| 0 <= i < |found| && found[i].1 == k;
        assert found'[i].1 == k;
      }
      assert found'[|found|].1 == b;
      if Ends(found', k) && k != b {
        var i :| 0 <= i < |found'| && found'[i].1 == k;
        assert found[i].1 == k;
      }
    }
  }

  /** gs[n] is the state after n calls. */
  ghost predicate Calls(j: Job, gs: seq<Progress>) {
    GoodJob(j) && |gs| > 0 && gs[0] == Start(j) && forall n :: 0 <= n < |gs| - 1 ==> CallAt(j, gs, n)
  }

  ghost predicate CallAt(j: Job, gs: seq<Progress>, n: nat) {
    n + 1 < |gs| && Next(j, gs[n], gs[n + 1])
  }

  lemma OnceMore(j: Job, g: Progress) returns (g': Progress)
    requires OnTrack(j, g)
    ensures Next(j, g, g')
  {
    SameAhead(j, g);
    var c := Call(g.buffer, g.t, j.delims);
    g' := if c.start == NOTHING then Progress(c.buffer, c.cursor, g.found, true)
          else Progress(c.buffer, c.cursor, g.found + [(c.start, c.stop)], g.done);
  }

  /** The next call is always possible. */
  lemma CallsGoOn(j: Job, gs: seq<Progress>) returns (g': Progress)
    requires Calls(j, gs)
    ensures Calls(j, gs + [g'])
  {
    var last := |gs| - 1;
    CallsOnTrack(j, gs, last);
    g' := OnceMore(j, gs[last]);
    forall n | 0 <= n < |gs|
      ensures CallAt(j, gs + [g'], n)
    {
      assert n < last ==> CallAt(j, gs, n);
    }
  }

  lemma {:induction false} CallsOnTrack(j: Job, gs: seq<Progress>, n: nat)
    requires Calls(j, gs) && n < |gs|
    ensures OnTrack(j, gs[n])
  {
    if n == 0 {
      StartOnTrack(j);
    } else {
      CallsOnTrack(j, gs, n - 1);
      assert CallAt(j, gs, n - 1);
      NextOnTrack(j, gs[n - 1], gs[n]);
    }
  }

  /** After any number of calls, those returned are tokens of the original string, from left to right; the
      buffer has NUL after each of them and is otherwise unchanged; and once a call has returned null, every
      token has been returned. */
  lemma CallsReturnTokens(j: Job, gs: seq<Progress>, n: nat)
    requires Calls(j, gs) && n < |gs|
    ensures var g := gs[n];
            && (forall i :: 0 <= i < |g.found| ==> IsToken(j, g.found[i].0, g.found[i].1))
            && (forall i, k :: 0 <= i < k < |g.found| ==> g.found[i].1 < g.found[k].0)
            && |g.buffer| == |j.s|
            && (forall k :: 0 <= k < |j.s| ==> g.buffer[k] == if Ends(g.found, k) then NUL else j.s[k])
            && (g.done ==> forall a, b :: IsToken(j, a, b) ==> (a, b) in g.found)
  {
    var g := gs[n];
    CallsOnTrack(j, gs, n);
    if g.done {
      forall a, b | IsToken(j, a, b)
        ensures (a, b) in g.found
      {
        var first := j.s[a];
        assert a < g.t;
      }
    }
  }

  lemma OneMore(j: Job, gs: seq<Progress>, n: nat)
    requires Calls(j, gs) && n + 1 < |gs|
    ensures if gs[n].done then gs[n + 1] == gs[n] else gs[n + 1].done || gs[n].t < gs[n + 1].t
  {
    CallsOnTrack(j, gs, n);
    assert CallAt(j, gs, n);
    NextOnTrack(j, gs[n], gs[n + 1]);
  }

  /** Once null, null for ever, and nothing changes any more. */
  lemma {:induction false} NullIsForEver(j: Job, gs: seq<Progress>, n: nat, m: nat)
    requires Calls(j, gs) && n <= m < |gs| && gs[n].done
    ensures gs[m] == gs[n]
    decreases m
  {
    if n < m {
      NullIsForEver(j, gs, n, m - 1);
      OneMore(j, gs, m - 1);
    }
  }

  lemma {:induction false} CursorMoves(j: Job, gs: seq<Progress>, n: nat)
    requires Calls(j, gs) && n < |gs|
    ensures gs[n].done || j.p + n <= gs[n].t
  {
    if n > 0 {
      CursorMoves(j, gs, n - 1);
      OneMore(j, gs, n - 1);
    }
  }

  /** Null comes, at the latest with the call after as many as the string has characters. */
  lemma NullComes(j: Job, gs: seq<Progress>, n: nat)
    requires Calls(j, gs) && End(j) - j.p < n < |gs|
    ensures gs[n].done
  {
    CursorMoves(j, gs, n);
    CallsOnTrack(j, gs, n);
  }
}
