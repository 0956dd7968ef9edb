/**
 Streaming response-body masker (gateway/src/filters/response_body_mask_filter.rs).

 Patterns are literals, tried in order at each position like the alternation
 the code compiles.  `Mask` is the replacement on a whole body; the chunked
 filter keeps a tail between chunks so that it can catch matches that straddle.
 */
module BodyMask {
  import opened Basics

  newtype Byte = x: int | 0 <= x < 256

  type Bytes = seq<Byte>

  const MAX_TAIL_BYTES: nat := 1024

  /** No pattern is empty. */
  predicate Proper(pats: seq<Bytes>) {
    forall i :: 0 <= i < |pats| ==> pats[i] != []
  }

  function MaxLen(pats: seq<Bytes>): (n: nat)
    ensures forall p <- pats :: |p| <= n
  {
    if pats == [] then 0 else var r := MaxLen(pats[1..]); if |pats[0]| > r then |pats[0]| else r
  }

  /** `max_pat_len.saturating_sub(1).min(MAX_TAIL_BYTES)` */
  function KeepTail(pats: seq<Bytes>): nat {
    Min(if MaxLen(pats) == 0 then 0 else MaxLen(pats) - 1, MAX_TAIL_BYTES)
  }

  lemma {:induction false} MaxLenIsReached(pats: seq<Bytes>)
    ensures MaxLen(pats) == 0 || exists p <- pats :: |p| == MaxLen(pats)
    decreases |pats|
  {
    if pats != [] {
      MaxLenIsReached(pats[1..]);
      assert pats == [pats[0]] + pats[1..];
    }
  }

  /** The tail is one byte shorter than the longest pattern, at most 1024 bytes. */
  lemma KeepTailIs(pats: seq<Bytes>)
    ensures KeepTail(pats) == 0 <==> forall p <- pats :: |p| <= 1
    ensures KeepTail(pats) > 0 ==>
      exists p <- pats :: (forall q <- pats :: |q| <= |p|) && KeepTail(pats) == Min(|p| - 1, 1024)
  {
    MaxLenIsReached(pats);
  }

  /** Length of the first pattern that starts `buf`. */
  function MatchAt(pats: seq<Bytes>, buf: Bytes): (r: Option<nat>)
    ensures r.Some? ==> r.value <= |buf| && (Proper(pats) ==> r.value > 0)
  {
    if pats == [] then None
    else if pats[0] <= buf then Some(|pats[0]|)
    else MatchAt(pats[1..], buf)
  }

  datatype Span = Span(start: nat, len: nat)

  /** The leftmost match (`find_iter`). */
  function Find(pats: seq<Bytes>, buf: Bytes): (r: Option<Span>)
    ensures r.Some? ==> r.value.start + r.value.len <= |buf| && (Proper(pats) ==> r.value.len > 0)
  {
    if buf == [] then None
    else
      var here := MatchAt(pats, buf);
      if here.Some? then Some(Span(0, here.value))
      else
        var later := Find(pats, buf[1..]);
        if later.Some? then Some(Span(later.value.start + 1, later.value.len)) else None
  }

  /** Nothing matches at the first `m` positions. */
  ghost predicate Quiet(pats: seq<Bytes>, buf: Bytes, m: nat)
    requires m <= |buf|
  {
    forall p :: 0 <= p < m ==> MatchAt(pats, buf[p..]).None?
  }

  /** `MatchAt` finds a pattern, if one is there. */
  lemma {:induction false} MatchIsPattern(pats: seq<Bytes>, buf: Bytes)
    ensures MatchAt(pats, buf).Some? ==> buf[..MatchAt(pats, buf).value] in pats
    ensures MatchAt(pats, buf).None? ==> forall p <- pats :: !(p <= buf)
    decreases |pats|
  {
    if pats != [] {
      assert pats == [pats[0]] + pats[1..];
      if pats[0] <= buf {
        assert buf[..|pats[0]|] == pats[0];
      } else {
        MatchIsPattern(pats[1..], buf);
      }
    }
  }

  /** Of several patterns at one place the first in the list is taken. */
  ghost predicate FirstPattern(pats: seq<Bytes>, buf: Bytes, i: nat) {
    i < |pats| && pats[i] <= buf && forall j :: 0 <= j < i ==> !(pats[j] <= buf)
  }

  lemma {:induction false} FirstPatternWins(pats: seq<Bytes>, buf: Bytes, i: nat)
    requires FirstPattern(pats, buf, i)
    ensures MatchAt(pats, buf) == Some(|pats[i]|)
    decreases |pats|
  {
    if i > 0 {
      assert forall j :: 0 <= j < |pats| - 1 ==> pats[1..][j] == pats[j + 1];
      FirstPatternWins(pats[1..], buf, i - 1);
    }
  }

  /** `Find` is the leftmost match. */
  lemma {:induction false} FindIsLeftmost(pats: seq<Bytes>, buf: Bytes)
    requires Proper(pats)
    ensures var f := Find(pats, buf);
      if f.None? then Quiet(pats, buf, |buf|)
      else MatchAt(pats, buf[f.value.start..]) == Some(f.value.len) && Quiet(pats, buf, f.value.start)
    decreases |buf|
  {
    if buf != [] {
      assert buf[0..] == buf;
      if MatchAt(pats, buf).None? {
        FindIsLeftmost(pats, buf[1..]);
        assert forall p :: 0 < p <= |buf| ==> buf[p..] == buf[1..][p - 1..];
      }
    }
  }

  lemma MatchIsFound(pats: seq<Bytes>, buf: Bytes, p: nat)
    requires Proper(pats) && p <= |buf| && MatchAt(pats, buf[p..]).Some?
    ensures Find(pats, buf).Some? && Find(pats, buf).value.start <= p
  {
    FindIsLeftmost(pats, buf);
  }

  /** Replacement over a whole body. */
  function Mask(pats: seq<Bytes>, mask: Bytes, buf: Bytes): Bytes
    requires Proper(pats)
    decreases |buf|
  {
    if buf == [] then []
    else
      var here := MatchAt(pats, buf);
      if here.Some? then mask + Mask(pats, mask, buf[here.value..])
      else [buf[0]] + Mask(pats, mask, buf[1..])
  }

  // ---------------------------------------------------------------------------
  // The filter
  // ---------------------------------------------------------------------------

  /** `scan_and_replace` from a cursor on: output, and the tail to retain. */
  function Scan(pats: seq<Bytes>, mask: Bytes, buf: Bytes, keep: nat): (Bytes, Bytes)
    requires Proper(pats)
    decreases |buf|
  {
    var f := Find(pats, buf);
    if f.None? then
      var flush := if |buf| < keep then 0 else |buf| - keep;
      (buf[..flush], buf[flush..])
    else
      var m, end := f.value.start, f.value.start + f.value.len;
      if end + keep > |buf| then (buf[..m], buf[m..])
      else
        var (out, tail) := Scan(pats, mask, buf[end..], keep);
        (buf[..m] + mask + out, tail)
  }

  /** The same with a running output and absolute positions. */
  function ScanFrom(pats: seq<Bytes>, mask: Bytes, buf: Bytes, keep: nat, cursor: nat, out: Bytes): (Bytes, Bytes)
    requires Proper(pats) && cursor <= |buf|
    decreases |buf| - cursor
  {
    var f := Find(pats, buf[cursor..]);
    if f.None? then
      var flush := if cursor + keep > |buf| then cursor else |buf| - keep;
      (out + buf[cursor..flush], buf[flush..])
    else
      var start, end := cursor + f.value.start, cursor + f.value.start + f.value.len;
      if end + keep > |buf| then (out + buf[cursor..start], buf[start..])
      else ScanFrom(pats, mask, buf, keep, end, out + buf[cursor..start] + mask)
  }

  lemma Assoc(a: Bytes, b: Bytes, c: Bytes)
    ensures a + b + c == a + (b + c)
  {
  }

  lemma SliceOfSuffix(buf: Bytes, cursor: nat, i: nat, j: nat)
    requires cursor + i <= |buf| && cursor + j <= |buf|
    ensures buf[cursor..][..i] == buf[cursor..cursor + i] && buf[cursor..][j..] == buf[cursor + j..]
  {
  }

  lemma ScanReplaces(pats: seq<Bytes>, mask: Bytes, buf: Bytes, keep: nat, f: Span, more: Bytes, tail: Bytes)
    requires Proper(pats) && Find(pats, buf) == Some(f) && f.start + f.len + keep <= |buf|
    requires Scan(pats, mask, buf[f.start + f.len..], keep) == (more, tail)
    ensures Scan(pats, mask, buf, keep) == (buf[..f.start] + mask + more, tail)
  {
  }

  lemma {:induction false} ScanFromIsScan(pats: seq<Bytes>, mask: Bytes, buf: Bytes, keep: nat, cursor: nat, out: Bytes)
    requires Proper(pats) && cursor <= |buf|
    ensures ScanFrom(pats, mask, buf, keep, cursor, out)
         == (out + Scan(pats, mask, buf[cursor..], keep).0, Scan(pats, mask, buf[cursor..], keep).1)
    decreases |buf| - cursor
  {
    var f := Find(pats, buf[cursor..]);
    if f.None? {
      var flush := if cursor + keep > |buf| then 0 else |buf| - keep - cursor;
      SliceOfSuffix(buf, cursor, flush, flush);
    } else {
      var m, n := f.value.start, f.value.len;
      SliceOfSuffix(buf, cursor, m, m);
      if cursor + m + n + keep <= |buf| {
        SliceOfSuffix(buf, cursor, m, m + n);
        var gap := buf[cursor..cursor + m];
        var (more, tail) := Scan(pats, mask, buf[cursor + m + n..], keep);
        ScanReplaces(pats, mask, buf[cursor..], keep, f.value, more, tail);
        ScanFromIsScan(pats, mask, buf, keep, cursor + m + n, out + gap + mask);
        Assoc(out, gap, mask);
        Assoc(out, gap + mask, more);
      }
    }
  }

  lemma ScanFromStart(pats: seq<Bytes>, mask: Bytes, buf: Bytes, keep: nat)
    requires Proper(pats)
    ensures ScanFrom(pats, mask, buf, keep, 0, []) == Scan(pats, mask, buf, keep)
  {
    assert buf[0..] == buf;
    ScanFromIsScan(pats, mask, buf, keep, 0, []);
    assert [] + Scan(pats, mask, buf, keep).0 == Scan(pats, mask, buf, keep).0;
  }

  method ScanAndReplace(pats: seq<Bytes>, mask: Bytes, buf: Bytes, keep: nat) returns (out: Bytes, tail: Bytes)
    requires Proper(pats)
    ensures (out, tail) == ScanFrom(pats, mask, buf, keep, 0, [])
  {
    var split := if |buf| < keep then 0 else |buf| - keep;
    out := [];
    var cursor := 0;
    while true
      invariant cursor <= |buf| && (cursor == 0 || cursor <= split)
      invariant ScanFrom(pats, mask, buf, keep, cursor, out) == ScanFrom(pats, mask, buf, keep, 0, [])
      decreases |buf| - cursor
    {
      var f := Find(pats, buf[cursor..]);
      if f.None? { break; }
      var start, end := cursor + f.value.start, cursor + f.value.start + f.value.len;
      if end > split {
        out := out + buf[cursor..start];
        tail := buf[start..];
        return;
      }
      out := out + buf[cursor..start] + mask;
      cursor := end;
    }
    var flushTo := if split > cursor then split else cursor;
    out := out + buf[cursor..flushTo];
    tail := buf[flushTo..];
  }

  /** `BodyMaskState` of an enabled masker. */
  datatype State = State(tail: Bytes, processed: nat)

  /** `apply_chunk`: once the byte ceiling is reached, chunks pass unchanged. */
  function ApplyChunk(pats: seq<Bytes>, mask: Bytes, maxBytes: nat, st: State, chunk: Bytes, eos: bool): (State, Bytes)
    requires Proper(pats)
  {
    if st.processed >= maxBytes then (st, chunk)
    else
      var (out, tail) := Scan(pats, mask, st.tail + chunk, if eos then 0 else KeepTail(pats));
      (State(tail, st.processed + |chunk|), out)
  }

  class BodyMasker {
    const pats: seq<Bytes>
    const mask: Bytes
    const maxBytes: nat
    var tail: Bytes
    var processed: nat

    constructor (pats: seq<Bytes>, mask: Bytes, maxBytes: nat)
      ensures this.pats == pats && this.mask == mask && this.maxBytes == maxBytes && tail == [] && processed == 0
    {
      this.pats, this.mask, this.maxBytes, tail, processed := pats, mask, maxBytes, [], 0;
    }

    method Apply(chunk: Bytes, eos: bool) returns (out: Bytes)
      requires Proper(pats)
      modifies this
      ensures (State(tail, processed), out) == ApplyChunk(pats, mask, maxBytes, old(State(tail, processed)), chunk, eos)
    {
      if processed >= maxBytes { return chunk; }
      processed := processed + |chunk|;
      var buf := tail + chunk;
      tail := [];
      var keep := if eos then 0 else KeepTail(pats);
      ScanFromStart(pats, mask, buf, keep);
      out, tail := ScanAndReplace(pats, mask, buf, keep);
    }
  }

  /** What the client receives from state `st` on: the last chunk comes with
      end-of-stream. */
  function Stream(pats: seq<Bytes>, mask: Bytes, maxBytes: nat, st: State, chunks: seq<Bytes>): Bytes
    requires Proper(pats) && chunks != []
    decreases |chunks|
  {
    if |chunks| == 1 then ApplyChunk(pats, mask, maxBytes, st, chunks[0], true).1
    else
      var (st', out) := ApplyChunk(pats, mask, maxBytes, st, chunks[0], false);
      out + Stream(pats, mask, maxBytes, st', chunks[1..])
  }

  function Received(pats: seq<Bytes>, mask: Bytes, maxBytes: nat, chunks: seq<Bytes>): Bytes
    requires Proper(pats) && chunks != []
  {
    Stream(pats, mask, maxBytes, State([], 0), chunks)
  }

  function Joined(chunks: seq<Bytes>): Bytes {
    if chunks == [] then [] else chunks[0] + Joined(chunks[1..])
  }

  /** Bytes that arrive before the last chunk. */
  function BeforeLast(chunks: seq<Bytes>): nat {
    if |chunks| <= 1 then 0 else |chunks[0]| + BeforeLast(chunks[1..])
  }

  // ---------------------------------------------------------------------------
  // When chunks do not matter
  // ---------------------------------------------------------------------------

  /** A pattern of which only the first `n` bytes are there is not judged wrongly:
      it is not flushed unless something matches at its start, and what matches
      there is not replaced unless the whole pattern would be. */
  ghost predicate Settles(pats: seq<Bytes>, p: Bytes, n: nat)
    requires n < |p|
  {
    var here := MatchAt(pats, p[..n]);
    && (Find(pats, p[..n]).Some? || n > KeepTail(pats) ==> here.Some?)
    && (here.Some? && here.value + KeepTail(pats) <= n ==> MatchAt(pats, p) == here)
  }

  /** So it is for every pattern cut before byte `limit`. */
  ghost predicate Settled(pats: seq<Bytes>, limit: nat) {
    forall p, n :: p in pats && 0 <= n < |p| && n < limit ==> Settles(pats, p, n)
  }

  /** Bytes in front of which nothing matches are copied. */
  lemma {:induction false} MaskCopies(pats: seq<Bytes>, mask: Bytes, buf: Bytes, m: nat)
    requires Proper(pats) && m <= |buf| && Quiet(pats, buf, m)
    ensures Mask(pats, mask, buf) == buf[..m] + Mask(pats, mask, buf[m..])
    decreases m
  {
    assert buf[0..] == buf;
    if m > 0 {
      assert forall p :: 0 <= p < m - 1 ==> buf[1..][p..] == buf[p + 1..];
      MaskCopies(pats, mask, buf[1..], m - 1);
      assert buf[1..][m - 1..] == buf[m..];
      assert [buf[0]] + buf[1..][..m - 1] == buf[..m];
      Assoc([buf[0]], buf[1..][..m - 1], Mask(pats, mask, buf[m..]));
    }
  }

  /** Whether a prefix matches does not depend on what lies behind the match. */
  lemma {:induction false} MatchCut(pats: seq<Bytes>, b: Bytes, n: nat)
    requires MatchAt(pats, b).Some? && MatchAt(pats, b).value <= n <= |b|
    ensures MatchAt(pats, b[..n]) == MatchAt(pats, b)
    decreases |pats|
  {
    if !(pats[0] <= b) {
      assert !(pats[0] <= b[..n]);
      MatchCut(pats[1..], b, n);
    } else {
      assert pats[0] <= b[..n];
    }
  }

  lemma SuffixAppend(buf: Bytes, future: Bytes, p: nat)
    requires p <= |buf|
    ensures (buf + future)[p..] == buf[p..] + future
  {
  }

  /** A match that needs the future extends what is there to a pattern. */
  lemma PendingIsPrefix(pats: seq<Bytes>, a: Bytes, future: Bytes) returns (pat: Bytes)
    requires MatchAt(pats, a).None? && MatchAt(pats, a + future).Some?
    ensures pat in pats && |a| < |pat| && pat[..|a|] == a
  {
    MatchIsPattern(pats, a);
    MatchIsPattern(pats, a + future);
    var l := MatchAt(pats, a + future).value;
    pat := (a + future)[..l];
    assert l <= |a| ==> pat <= a;
  }

  lemma SettledPrefix(pats: seq<Bytes>, limit: nat, a: Bytes, pat: Bytes)
    requires Settled(pats, limit) && |a| < limit && pat in pats && |a| < |pat| && pat[..|a|] == a
    requires Find(pats, a).Some? || |a| > KeepTail(pats)
    ensures MatchAt(pats, a).Some?
  {
    assert Settles(pats, pat, |a|);
  }

  /** Where nothing matches yet, nothing will. */
  lemma NothingPending(pats: seq<Bytes>, limit: nat, a: Bytes, future: Bytes)
    requires Proper(pats) && Settled(pats, limit) && |a| < limit && MatchAt(pats, a).None?
    requires Find(pats, a).Some? || |a| > KeepTail(pats)
    ensures MatchAt(pats, a + future).None?
  {
    if MatchAt(pats, a + future).Some? {
      var pat := PendingIsPrefix(pats, a, future);
      SettledPrefix(pats, limit, a, pat);
    }
  }

  /** What is replaced stays the right match. */
  lemma StableMatch(pats: seq<Bytes>, limit: nat, a: Bytes, future: Bytes)
    requires Proper(pats) && Settled(pats, limit) && |a| < limit
    requires MatchAt(pats, a).Some? && MatchAt(pats, a).value + KeepTail(pats) <= |a|
    ensures MatchAt(pats, a + future) == MatchAt(pats, a)
  {
    MatchLonger(pats, a, future);
    var b := a + future;
    var r := MatchAt(pats, b).value;
    assert b[..|a|] == a;
    if r <= |a| {
      MatchCut(pats, b, |a|);
    } else {
      MatchIsPattern(pats, b);
      MatchCut(pats, b, r);
      assert b[..r][..|a|] == a;
      assert Settles(pats, b[..r], |a|);
    }
  }

  lemma QuietFuture(pats: seq<Bytes>, limit: nat, buf: Bytes, future: Bytes, m: nat)
    requires Proper(pats) && Settled(pats, limit) && |buf| < limit && m <= |buf| && Quiet(pats, buf, m)
    requires forall p :: 0 <= p < m ==> Find(pats, buf[p..]).Some? || |buf| - p > KeepTail(pats)
    ensures Quiet(pats, buf + future, m)
  {
    forall p | 0 <= p < m ensures MatchAt(pats, (buf + future)[p..]).None? {
      SuffixAppend(buf, future, p);
      NothingPending(pats, limit, buf[p..], future);
    }
  }

  lemma QuietBeforeMatch(pats: seq<Bytes>, limit: nat, buf: Bytes, future: Bytes, f: Span)
    requires Proper(pats) && Settled(pats, limit) && |buf| < limit && Find(pats, buf) == Some(f)
    ensures Quiet(pats, buf + future, f.start)
  {
    FindIsLeftmost(pats, buf);
    forall p | 0 <= p < f.start ensures Find(pats, buf[p..]).Some? {
      assert buf[p..][f.start - p..] == buf[f.start..];
      MatchIsFound(pats, buf[p..], f.start - p);
    }
    QuietFuture(pats, limit, buf, future, f.start);
  }

  /** A quiet prefix is copied whatever follows. */
  lemma StablePrefix(pats: seq<Bytes>, mask: Bytes, buf: Bytes, future: Bytes, m: nat)
    requires Proper(pats) && m <= |buf| && Quiet(pats, buf + future, m)
    ensures Mask(pats, mask, buf + future) == buf[..m] + Mask(pats, mask, buf[m..] + future)
  {
    MaskCopies(pats, mask, buf + future, m);
    SuffixAppend(buf, future, m);
    assert (buf + future)[..m] == buf[..m];
  }

  lemma MaskMatch(pats: seq<Bytes>, mask: Bytes, buf: Bytes)
    requires Proper(pats) && MatchAt(pats, buf).Some?
    ensures Mask(pats, mask, buf) == mask + Mask(pats, mask, buf[MatchAt(pats, buf).value..])
  {
  }

  lemma FinalMatch(pats: seq<Bytes>, limit: nat, mask: Bytes, buf: Bytes, future: Bytes, f: Span)
    requires Proper(pats) && Settled(pats, limit) && |buf| < limit
    requires Find(pats, buf) == Some(f) && f.start + f.len + KeepTail(pats) <= |buf|
    ensures Mask(pats, mask, buf + future)
         == buf[..f.start] + mask + Mask(pats, mask, buf[f.start + f.len..] + future)
  {
    FindIsLeftmost(pats, buf);
    var rest := buf[f.start..];
    QuietBeforeMatch(pats, limit, buf, future, f);
    StablePrefix(pats, mask, buf, future, f.start);
    StableMatch(pats, limit, rest, future);
    MaskMatch(pats, mask, rest + future);
    SuffixAppend(rest, future, f.len);
    assert rest[f.len..] == buf[f.start + f.len..];
    Assoc(buf[..f.start], mask, Mask(pats, mask, buf[f.start + f.len..] + future));
  }

  /** What a scan emitted is final: masking the buffer with any continuation is
      the output followed by masking the tail with that continuation. */
  ghost predicate Final(pats: seq<Bytes>, mask: Bytes, buf: Bytes, out: Bytes, tail: Bytes, future: Bytes)
    requires Proper(pats)
  {
    Mask(pats, mask, buf + future) == out + Mask(pats, mask, tail + future)
  }

  ghost predicate FinalScan(pats: seq<Bytes>, mask: Bytes, buf: Bytes, future: Bytes)
    requires Proper(pats)
  {
    var (out, tail) := Scan(pats, mask, buf, KeepTail(pats));
    Final(pats, mask, buf, out, tail, future)
  }

  lemma FinalWithoutMatch(pats: seq<Bytes>, limit: nat, mask: Bytes, buf: Bytes, future: Bytes)
    requires Proper(pats) && Settled(pats, limit) && |buf| < limit && Find(pats, buf).None?
    ensures FinalScan(pats, mask, buf, future)
  {
    FlushIsFinal(pats, limit, mask, buf, future, if |buf| < KeepTail(pats) then 0 else |buf| - KeepTail(pats));
  }

  lemma FlushIsFinal(pats: seq<Bytes>, limit: nat, mask: Bytes, buf: Bytes, future: Bytes, flush: nat)
    requires Proper(pats) && Settled(pats, limit) && |buf| < limit && Find(pats, buf).None?
    requires flush <= |buf| && (flush > 0 ==> flush + KeepTail(pats) <= |buf|)
    ensures Final(pats, mask, buf, buf[..flush], buf[flush..], future)
  {
    FindIsLeftmost(pats, buf);
    QuietFuture(pats, limit, buf, future, flush);
    StablePrefix(pats, mask, buf, future, flush);
  }

  lemma FinalDeferred(pats: seq<Bytes>, limit: nat, mask: Bytes, buf: Bytes, future: Bytes, f: Span)
    requires Proper(pats) && Settled(pats, limit) && |buf| < limit && Find(pats, buf) == Some(f)
    requires f.start + f.len + KeepTail(pats) > |buf|
    ensures FinalScan(pats, mask, buf, future)
  {
    QuietBeforeMatch(pats, limit, buf, future, f);
    StablePrefix(pats, mask, buf, future, f.start);
  }

  lemma FinalReplaced(pats: seq<Bytes>, limit: nat, mask: Bytes, buf: Bytes, future: Bytes, f: Span)
    requires Proper(pats) && Settled(pats, limit) && |buf| < limit && Find(pats, buf) == Some(f)
    requires f.start + f.len + KeepTail(pats) <= |buf|
    requires FinalScan(pats, mask, buf[f.start + f.len..], future)
    ensures FinalScan(pats, mask, buf, future)
  {
    var (out, tail) := Scan(pats, mask, buf[f.start + f.len..], KeepTail(pats));
    ScanReplaces(pats, mask, buf, KeepTail(pats), f, out, tail);
    FinalMatch(pats, limit, mask, buf, future, f);
    Assoc(buf[..f.start] + mask, out, Mask(pats, mask, tail + future));
  }

  lemma {:induction false} ScanIsFinal(pats: seq<Bytes>, limit: nat, mask: Bytes, buf: Bytes, future: Bytes)
    requires Proper(pats) && Settled(pats, limit) && |buf| < limit
    ensures FinalScan(pats, mask, buf, future)
    decreases |buf|
  {
    var f := Find(pats, buf);
    if f.None? {
      FinalWithoutMatch(pats, limit, mask, buf, future);
    } else if f.value.start + f.value.len + KeepTail(pats) > |buf| {
      FinalDeferred(pats, limit, mask, buf, future, f.value);
    } else {
      ScanIsFinal(pats, limit, mask, buf[f.value.start + f.value.len..], future);
      FinalReplaced(pats, limit, mask, buf, future, f.value);
    }
  }

  lemma {:induction false} TailBounded(pats: seq<Bytes>, mask: Bytes, buf: Bytes, keep: nat)
    requires Proper(pats)
    ensures |Scan(pats, mask, buf, keep).1| <= |buf|
    decreases |buf|
  {
    var f := Find(pats, buf);
    if f.Some? && f.value.start + f.value.len + keep <= |buf| {
      TailBounded(pats, mask, buf[f.value.start + f.value.len..], keep);
    }
  }

  lemma MaskAtFind(pats: seq<Bytes>, mask: Bytes, buf: Bytes, f: Span)
    requires Proper(pats) && Find(pats, buf) == Some(f)
    ensures Mask(pats, mask, buf) == buf[..f.start] + mask + Mask(pats, mask, buf[f.start + f.len..])
  {
    FindIsLeftmost(pats, buf);
    MaskCopies(pats, mask, buf, f.start);
    var rest := buf[f.start..];
    MaskMatch(pats, mask, rest);
    assert rest[f.len..] == buf[f.start + f.len..];
    Assoc(buf[..f.start], mask, Mask(pats, mask, rest[f.len..]));
  }

  /** At end of stream the scan is the whole replacement. */
  lemma {:induction false} LastScan(pats: seq<Bytes>, mask: Bytes, buf: Bytes)
    requires Proper(pats)
    ensures Scan(pats, mask, buf, 0) == (Mask(pats, mask, buf), [])
    decreases |buf|
  {
    var f := Find(pats, buf);
    if f.None? {
      FindIsLeftmost(pats, buf);
      MaskCopies(pats, mask, buf, |buf|);
      assert buf[..|buf|] == buf && buf[|buf|..] == [];
      assert buf + [] == buf;
    } else {
      MaskAtFind(pats, mask, buf, f.value);
      LastScan(pats, mask, buf[f.value.start + f.value.len..]);
    }
  }

  lemma JoinedOne(c: Bytes)
    ensures Joined([c]) == c
  {
    assert [c][1..] == [];
    assert c + [] == c;
  }

  /** From any state, what is still to be sent is the masked remainder. */
  lemma {:induction false} StreamIsMask(pats: seq<Bytes>, mask: Bytes, maxBytes: nat, st: State, chunks: seq<Bytes>)
    requires Proper(pats) && Settled(pats, maxBytes)
    requires chunks != [] && st.processed + BeforeLast(chunks) < maxBytes && |st.tail| <= st.processed
    ensures Stream(pats, mask, maxBytes, st, chunks) == Mask(pats, mask, st.tail + Joined(chunks))
    decreases |chunks|
  {
    if |chunks| == 1 {
      assert chunks == [chunks[0]];
      JoinedOne(chunks[0]);
      LastScan(pats, mask, st.tail + chunks[0]);
    } else {
      var (st', out) := ApplyChunk(pats, mask, maxBytes, st, chunks[0], false);
      ScanIsFinal(pats, maxBytes, mask, st.tail + chunks[0], Joined(chunks[1..]));
      TailBounded(pats, mask, st.tail + chunks[0], KeepTail(pats));
      StreamIsMask(pats, mask, maxBytes, st', chunks[1..]);
      Assoc(st.tail, chunks[0], Joined(chunks[1..]));
    }
  }

  /** For settled patterns the client receives the masked body, however the body
      is split, as long as the byte ceiling is not reached before the end. */
  lemma ChunksDoNotMatter(pats: seq<Bytes>, mask: Bytes, maxBytes: nat, chunks: seq<Bytes>)
    requires Proper(pats) && Settled(pats, maxBytes)
    requires chunks != [] && BeforeLast(chunks) < maxBytes
    ensures Received(pats, mask, maxBytes, chunks) == Mask(pats, mask, Joined(chunks))
  {
    StreamIsMask(pats, mask, maxBytes, State([], 0), chunks);
    assert [] + Joined(chunks) == Joined(chunks);
  }

  // ---------------------------------------------------------------------------
  // When they do
  // ---------------------------------------------------------------------------

  function OtherByte(b: Byte): Byte {
    if b == 0 then 1 else 0
  }

  lemma TwoChunks(pats: seq<Bytes>, mask: Bytes, maxBytes: nat, a: Bytes, b: Bytes)
    requires Proper(pats) && 0 < |a| < maxBytes
    requires var (out, _) := Scan(pats, mask, a, KeepTail(pats)); out != [] && out[0] == a[0]
    ensures Joined([a, b]) == a + b && BeforeLast([a, b]) == |a|
    ensures var r := Received(pats, mask, maxBytes, [a, b]); r != [] && r[0] == a[0]
  {
    assert [a, b][1..] == [b] && [] + a == a;
    JoinedOne(b);
  }

  /** If the first byte of a pattern at the head of a body is flushed before the
      whole pattern is there, it leaks. */
  lemma FlushedHeadLeaks(pats: seq<Bytes>, p: Bytes, n: nat, maxBytes: nat)
    requires Proper(pats) && p in pats && 0 < n < |p| && n < maxBytes
    requires var (out, _) := Scan(pats, [OtherByte(p[0])], p[..n], KeepTail(pats)); out != [] && out[0] == p[0]
    ensures !ChunkingIsInvisible(pats, maxBytes)
  {
    var mask := [OtherByte(p[0])];
    var chunks := [p[..n], p[n..]];
    TwoChunks(pats, mask, maxBytes, p[..n], p[n..]);
    assert p[..n] + p[n..] == p;
    MatchIsPattern(pats, p);
    MaskMatch(pats, mask, p);
    assert Mask(pats, mask, p)[0] == mask[0];
    assert Received(pats, mask, maxBytes, chunks) != Mask(pats, mask, Joined(chunks));
  }

  ghost predicate ChunkingIsInvisible(pats: seq<Bytes>, maxBytes: nat)
    requires Proper(pats)
  {
    forall mask: Bytes, chunks: seq<Bytes> :: chunks != [] && BeforeLast(chunks) < maxBytes
      ==> Received(pats, mask, maxBytes, chunks) == Mask(pats, mask, Joined(chunks))
  }

  /** A pattern that is flushed while it is incomplete leaks its first bytes. */
  lemma FlushIsVisible(pats: seq<Bytes>, p: Bytes, n: nat, maxBytes: nat)
    requires Proper(pats) && p in pats && n < |p| && n < maxBytes && MatchAt(pats, p[..n]).None?
    requires Find(pats, p[..n]).Some? || n > KeepTail(pats)
    ensures !ChunkingIsInvisible(pats, maxBytes)
  {
    var cut := p[..n];
    FindIsLeftmost(pats, cut);
    assert cut[0..] == cut;
    FlushedHeadLeaks(pats, p, n, maxBytes);
  }

  lemma MaskIsNotEmpty(pats: seq<Bytes>, mask: Bytes, buf: Bytes)
    requires Proper(pats) && mask != [] && buf != []
    ensures Mask(pats, mask, buf) != []
  {
  }

  lemma TwoChunkBody(pats: seq<Bytes>, mask: Bytes, maxBytes: nat, a: Bytes, b: Bytes, out: Bytes, tail: Bytes)
    requires Proper(pats) && |a| < maxBytes && Scan(pats, mask, a, KeepTail(pats)) == (out, tail)
    ensures Joined([a, b]) == a + b && BeforeLast([a, b]) == |a|
    ensures Received(pats, mask, maxBytes, [a, b]) == out + Mask(pats, mask, tail + b)
  {
    assert [a, b][1..] == [b] && [] + a == a;
    JoinedOne(b);
    LastChunk(pats, mask, maxBytes, State(tail, |a|), b);
  }

  lemma LastChunk(pats: seq<Bytes>, mask: Bytes, maxBytes: nat, st: State, b: Bytes)
    requires Proper(pats) && st.processed < maxBytes
    ensures Stream(pats, mask, maxBytes, st, [b]) == Mask(pats, mask, st.tail + b)
  {
    LastScan(pats, mask, st.tail + b);
  }

  /** A whole pattern `q` of which a part was replaced too early: its rest is sent too. */
  lemma EarlyReplacement(pats: seq<Bytes>, q: Bytes, n: nat, l: nat, maxBytes: nat)
    requires Proper(pats) && n < |q| && n < maxBytes && MatchAt(pats, q) == Some(|q|)
    requires MatchAt(pats, q[..n]) == Some(l) && l + KeepTail(pats) <= n
    ensures !ChunkingIsInvisible(pats, maxBytes)
  {
    var mask: Bytes := [0];
    var a, b := q[..n], q[n..];
    assert a + b == q;
    TooMuchSent(pats, mask, a, b, l, maxBytes);
    WholeMasked(pats, mask, q);
    var chunks := [a, b];
    assert Received(pats, mask, maxBytes, chunks) != Mask(pats, mask, Joined(chunks));
  }

  lemma WholeMasked(pats: seq<Bytes>, mask: Bytes, q: Bytes)
    requires Proper(pats) && MatchAt(pats, q) == Some(|q|)
    ensures Mask(pats, mask, q) == mask
  {
    MaskMatch(pats, mask, q);
    assert q[|q|..] == [] && mask + [] == mask;
  }

  lemma TooMuchSent(pats: seq<Bytes>, mask: Bytes, a: Bytes, b: Bytes, l: nat, maxBytes: nat)
    requires Proper(pats) && mask != [] && b != [] && |a| < maxBytes
    requires MatchAt(pats, a) == Some(l) && l + KeepTail(pats) <= |a|
    ensures Joined([a, b]) == a + b && BeforeLast([a, b]) == |a|
    ensures |Received(pats, mask, maxBytes, [a, b])| > |mask|
  {
    assert Find(pats, a) == Some(Span(0, l));
    var (more, tail) := Scan(pats, mask, a[l..], KeepTail(pats));
    ScanReplaces(pats, mask, a, KeepTail(pats), Span(0, l), more, tail);
    TwoChunkBody(pats, mask, maxBytes, a, b, a[..0] + mask + more, tail);
    MaskIsNotEmpty(pats, mask, tail + b);
  }

  lemma ReplacementIsVisible(pats: seq<Bytes>, p: Bytes, n: nat, maxBytes: nat)
    requires Proper(pats) && p in pats && n < |p| && n < maxBytes && MatchAt(pats, p[..n]).Some?
    requires MatchAt(pats, p[..n]).value + KeepTail(pats) <= n && MatchAt(pats, p) != MatchAt(pats, p[..n])
    ensures !ChunkingIsInvisible(pats, maxBytes)
  {
    MatchIsPattern(pats, p);
    var r := MatchAt(pats, p).value;
    if r <= n {
      MatchCut(pats, p, n);
    } else {
      MatchCut(pats, p, r);
      assert p[..r][..n] == p[..n];
      EarlyReplacement(pats, p[..r], n, MatchAt(pats, p[..n]).value, maxBytes);
    }
  }

  /**
   Exactly for which patterns chunking is invisible, for every list of patterns
   and every byte ceiling: those that are settled wherever they can be cut.
   */
  lemma ChunkingTheorem(pats: seq<Bytes>, maxBytes: nat)
    requires Proper(pats)
    ensures ChunkingIsInvisible(pats, maxBytes) <==> Settled(pats, maxBytes)
  {
    if Settled(pats, maxBytes) {
      forall mask: Bytes, chunks: seq<Bytes> | chunks != [] && BeforeLast(chunks) < maxBytes
        ensures Received(pats, mask, maxBytes, chunks) == Mask(pats, mask, Joined(chunks))
      {
        ChunksDoNotMatter(pats, mask, maxBytes, chunks);
      }
    } else {
      var p, n :| p in pats && 0 <= n < |p| && n < maxBytes && !Settles(pats, p, n);
      if MatchAt(pats, p[..n]).None? {
        FlushIsVisible(pats, p, n, maxBytes);
      } else {
        ReplacementIsVisible(pats, p, n, maxBytes);
      }
    }
  }

  /** No proper prefix of a pattern hides a match behind its first byte. */
  ghost predicate Unshadowed(pats: seq<Bytes>) {
    forall p, n :: p in pats && 0 <= n < |p| && Find(pats, p[..n]).Some? ==> MatchAt(pats, p[..n]).Some?
  }

  /** Up to the length that the tail can hold, that is all there is to it. */
  lemma ShortPatterns(pats: seq<Bytes>, maxBytes: nat)
    requires Proper(pats) && MaxLen(pats) <= MAX_TAIL_BYTES + 1 && MaxLen(pats) <= maxBytes
    ensures ChunkingIsInvisible(pats, maxBytes) <==> Unshadowed(pats)
  {
    ChunkingTheorem(pats, maxBytes);
    forall p, n | p in pats && 0 <= n < |p|
      ensures n < maxBytes && n <= KeepTail(pats)
      ensures Settles(pats, p, n) <==> (Find(pats, p[..n]).Some? ==> MatchAt(pats, p[..n]).Some?)
    {
      assert |p| <= MaxLen(pats);
    }
  }

  lemma {:induction false} ShortIsQuiet(p: Bytes, buf: Bytes)
    requires |buf| < |p|
    ensures Find([p], buf).None?
    decreases |buf|
  {
    if buf != [] {
      assert MatchAt([p], buf) == MatchAt([p][1..], buf);
      ShortIsQuiet(p, buf[1..]);
    }
  }

  /** With a single pattern, chunking is invisible exactly up to the tail cap. */
  lemma SinglePattern(p: Bytes, maxBytes: nat)
    requires p != [] && |p| < maxBytes
    ensures ChunkingIsInvisible([p], maxBytes) <==> |p| <= 1025
  {
    assert [p][1..] == [] && MaxLen([p]) == |p|;
    forall n | 0 <= n < |p| ensures Find([p], p[..n]).None? {
      ShortIsQuiet(p, p[..n]);
    }
    if |p| <= MAX_TAIL_BYTES + 1 {
      ShortPatterns([p], maxBytes);
    } else {
      FlushedHeadLeaks([p], p, |p| - 1, maxBytes);
    }
  }

  // ---------------------------------------------------------------------------
  // The byte ceiling
  // ---------------------------------------------------------------------------

  /** Past the ceiling the retained tail is never sent, only the remaining chunks. */
  lemma {:induction false} PastCeiling(pats: seq<Bytes>, mask: Bytes, maxBytes: nat, st: State, chunks: seq<Bytes>)
    requires Proper(pats) && chunks != [] && st.processed >= maxBytes
    ensures Stream(pats, mask, maxBytes, st, chunks) == Joined(chunks)
    decreases |chunks|
  {
    if |chunks| == 1 {
      assert chunks == [chunks[0]];
      JoinedOne(chunks[0]);
    } else {
      PastCeiling(pats, mask, maxBytes, st, chunks[1..]);
    }
  }

  lemma MatchLonger(pats: seq<Bytes>, a: Bytes, b: Bytes)
    requires MatchAt(pats, a).Some?
    ensures MatchAt(pats, a + b).Some?
  {
    MatchIsPattern(pats, a);
    MatchIsPattern(pats, a + b);
    assert a[..MatchAt(pats, a).value] <= a + b;
  }

  lemma MatchInPart(pats: seq<Bytes>, a: Bytes, b: Bytes, c: Bytes)
    requires Proper(pats) && Find(pats, b).Some?
    ensures Find(pats, a + b + c).Some?
  {
    var f := Find(pats, b).value;
    FindIsLeftmost(pats, b);
    MatchLonger(pats, b[f.start..], c);
    assert (a + b + c)[|a| + f.start..] == b[f.start..] + c;
    MatchIsFound(pats, a + b + c, |a| + f.start);
  }

  /** Without a match, a scan copies all but the last `keep` bytes, and the rest
      of the body stays without a match. */
  lemma QuietScan(pats: seq<Bytes>, mask: Bytes, buf: Bytes, future: Bytes, keep: nat)
    requires Proper(pats) && Find(pats, buf + future).None?
    ensures var (out, tail) := Scan(pats, mask, buf, keep);
      out + tail == buf && |tail| == Min(keep, |buf|) && Find(pats, tail + future).None?
  {
    assert [] + buf + future == buf + future;
    if Find(pats, buf).Some? {
      MatchInPart(pats, [], buf, future);
    }
    var (out, tail) := Scan(pats, mask, buf, keep);
    assert out + (tail + future) + [] == buf + future;
    if Find(pats, tail + future).Some? {
      MatchInPart(pats, out, tail + future, []);
    }
  }

  /** Whether a body without a match arrives complete, from any reachable state. */
  ghost predicate Complete(pats: seq<Bytes>, maxBytes: nat, st: State, chunks: seq<Bytes>) {
    st.processed + BeforeLast(chunks) < maxBytes || maxBytes == 0 || KeepTail(pats) == 0
  }

  lemma {:induction false} QuietStream(pats: seq<Bytes>, mask: Bytes, maxBytes: nat, st: State, chunks: seq<Bytes>)
    requires Proper(pats) && chunks != [] && Find(pats, st.tail + Joined(chunks)).None?
    requires |st.tail| == Min(KeepTail(pats), st.processed) && (maxBytes == 0 ==> st.processed == 0)
    ensures |Stream(pats, mask, maxBytes, st, chunks)| < |st.tail + Joined(chunks)|
         || Stream(pats, mask, maxBytes, st, chunks) == st.tail + Joined(chunks)
    ensures Stream(pats, mask, maxBytes, st, chunks) == st.tail + Joined(chunks)
       <==> Complete(pats, maxBytes, st, chunks)
    decreases |chunks|
  {
    if st.processed >= maxBytes {
      PastCeiling(pats, mask, maxBytes, st, chunks);
      assert [] + Joined(chunks) == Joined(chunks);
    } else if |chunks| == 1 {
      assert chunks == [chunks[0]];
      JoinedOne(chunks[0]);
      assert st.tail + chunks[0] + [] == st.tail + chunks[0];
      QuietScan(pats, mask, st.tail + chunks[0], [], 0);
    } else {
      var rest := Joined(chunks[1..]);
      Assoc(st.tail, chunks[0], rest);
      QuietScan(pats, mask, st.tail + chunks[0], rest, KeepTail(pats));
      var (st', out) := ApplyChunk(pats, mask, maxBytes, st, chunks[0], false);
      QuietStream(pats, mask, maxBytes, st', chunks[1..]);
      Assoc(out, st'.tail, rest);
    }
  }

  /**
   A body without any match should pass unchanged.  It does exactly when the
   ceiling is not reached before the last chunk, or is zero, or no pattern is longer
   than one byte, so that no tail is ever kept; otherwise the retained tail is missing
   from the response.
   */
  lemma CeilingTruncates(pats: seq<Bytes>, mask: Bytes, maxBytes: nat, chunks: seq<Bytes>)
    requires Proper(pats) && chunks != [] && Find(pats, Joined(chunks)).None?
    ensures Received(pats, mask, maxBytes, chunks) == Joined(chunks)
       <==> BeforeLast(chunks) < maxBytes || maxBytes == 0 || forall p <- pats :: |p| <= 1
  {
    KeepTailIs(pats);
    assert [] + Joined(chunks) == Joined(chunks);
    QuietStream(pats, mask, maxBytes, State([], 0), chunks);
  }

  /** The state after `chunks` none of which is the last, and what was sent for them. */
  function Fed(pats: seq<Bytes>, mask: Bytes, maxBytes: nat, st: State, chunks: seq<Bytes>): (State, Bytes)
    requires Proper(pats)
    decreases |chunks|
  {
    if chunks == [] then (st, [])
    else
      var (st', out) := ApplyChunk(pats, mask, maxBytes, st, chunks[0], false);
      var (end, more) := Fed(pats, mask, maxBytes, st', chunks[1..]);
      (end, out + more)
  }

  lemma {:induction false} StreamSplits(pats: seq<Bytes>, mask: Bytes, maxBytes: nat, st: State,
                                        pre: seq<Bytes>, post: seq<Bytes>)
    requires Proper(pats) && post != []
    ensures var (end, out) := Fed(pats, mask, maxBytes, st, pre);
      Stream(pats, mask, maxBytes, st, pre + post) == out + Stream(pats, mask, maxBytes, end, post)
    decreases |pre|
  {
    if pre == [] {
      assert pre + post == post;
    } else {
      var (st', out) := ApplyChunk(pats, mask, maxBytes, st, pre[0], false);
      var (end, more) := Fed(pats, mask, maxBytes, st', pre[1..]);
      assert (pre + post)[1..] == pre[1..] + post;
      StreamSplits(pats, mask, maxBytes, st', pre[1..], post);
      Assoc(out, more, Stream(pats, mask, maxBytes, end, post));
    }
  }

  /** A scan keeps nothing back exactly when no tail is kept or nothing was there. */
  lemma {:induction false} ScanKeepsTail(pats: seq<Bytes>, mask: Bytes, buf: Bytes, keep: nat)
    requires Proper(pats)
    ensures Scan(pats, mask, buf, keep).1 == [] <==> keep == 0 || buf == []
    decreases |buf|
  {
    var f := Find(pats, buf);
    if f.Some? && f.value.start + f.value.len + keep <= |buf| {
      ScanKeepsTail(pats, mask, buf[f.value.start + f.value.len..], keep);
    }
  }

  lemma {:induction false} FedKeepsTail(pats: seq<Bytes>, mask: Bytes, maxBytes: nat, st: State, chunks: seq<Bytes>)
    requires Proper(pats) && (st.tail == [] <==> KeepTail(pats) == 0 || st.processed == 0)
    requires chunks != [] ==> st.processed + BeforeLast(chunks) < maxBytes
    ensures var end := Fed(pats, mask, maxBytes, st, chunks).0;
      && end.processed == st.processed + |Joined(chunks)|
      && (end.tail == [] <==> KeepTail(pats) == 0 || end.processed == 0)
    decreases |chunks|
  {
    if chunks != [] {
      var (st', _) := ApplyChunk(pats, mask, maxBytes, st, chunks[0], false);
      ScanKeepsTail(pats, mask, st.tail + chunks[0], KeepTail(pats));
      FedKeepsTail(pats, mask, maxBytes, st', chunks[1..]);
    }
  }

  /** What was sent below the ceiling is final, for settled patterns. */
  lemma {:induction false} FedIsFinal(pats: seq<Bytes>, limit: nat, mask: Bytes, maxBytes: nat, st: State,
                                      chunks: seq<Bytes>)
    requires Proper(pats) && Settled(pats, limit) && |st.tail| <= st.processed
    requires st.processed + |Joined(chunks)| < limit
    requires chunks != [] ==> st.processed + BeforeLast(chunks) < maxBytes
    ensures var (end, out) := Fed(pats, mask, maxBytes, st, chunks);
      Mask(pats, mask, st.tail + Joined(chunks)) == out + Mask(pats, mask, end.tail)
    decreases |chunks|
  {
    if chunks == [] {
      assert st.tail + Joined(chunks) == st.tail;
    } else {
      var (st', out) := ApplyChunk(pats, mask, maxBytes, st, chunks[0], false);
      var (end, more) := Fed(pats, mask, maxBytes, st', chunks[1..]);
      ScanIsFinal(pats, limit, mask, st.tail + chunks[0], Joined(chunks[1..]));
      TailBounded(pats, mask, st.tail + chunks[0], KeepTail(pats));
      FedIsFinal(pats, limit, mask, maxBytes, st', chunks[1..]);
      Assoc(st.tail, chunks[0], Joined(chunks[1..]));
      Assoc(out, more, Mask(pats, mask, end.tail));
    }
  }

  /**
   A body of any kind whose ceiling is first reached by the last chunk of `pre`,
   with more to come: the client gets what was sent for `pre`, and then `post` as
   it is.  For settled patterns that lacks the masked tail, so it is the masked
   `pre` followed by `post` exactly when the tail masks to nothing; with a mask
   that is not empty, exactly when no pattern is longer than one byte.
   */
  lemma CeilingReached(pats: seq<Bytes>, limit: nat, mask: Bytes, maxBytes: nat, pre: seq<Bytes>, post: seq<Bytes>)
    requires Proper(pats) && post != [] && BeforeLast(pre) < maxBytes <= |Joined(pre)|
    ensures var (end, sent) := Fed(pats, mask, maxBytes, State([], 0), pre);
      && Received(pats, mask, maxBytes, pre + post) == sent + Joined(post)
      && (Settled(pats, limit) && |Joined(pre)| < limit ==>
        && Mask(pats, mask, Joined(pre)) == sent + Mask(pats, mask, end.tail)
        && (Received(pats, mask, maxBytes, pre + post) == Mask(pats, mask, Joined(pre)) + Joined(post)
            <==> Mask(pats, mask, end.tail) == [])
        && (mask != [] ==> (Mask(pats, mask, end.tail) == [] <==> forall p <- pats :: |p| <= 1)))
  {
    KeepTailIs(pats);
    var (end, sent) := Fed(pats, mask, maxBytes, State([], 0), pre);
    SentThenPassed(pats, mask, maxBytes, pre, post, end, sent);
    if Settled(pats, limit) && |Joined(pre)| < limit {
      FedIsFinal(pats, limit, mask, maxBytes, State([], 0), pre);
      assert [] + Joined(pre) == Joined(pre);
      LacksTail(sent, Mask(pats, mask, end.tail), Joined(post));
    }
  }

  lemma SentThenPassed(pats: seq<Bytes>, mask: Bytes, maxBytes: nat, pre: seq<Bytes>, post: seq<Bytes>,
                       end: State, sent: Bytes)
    requires Proper(pats) && post != [] && BeforeLast(pre) < maxBytes <= |Joined(pre)|
    requires Fed(pats, mask, maxBytes, State([], 0), pre) == (end, sent)
    ensures Received(pats, mask, maxBytes, pre + post) == sent + Joined(post)
    ensures mask != [] ==> (Mask(pats, mask, end.tail) == [] <==> KeepTail(pats) == 0)
  {
    FedKeepsTail(pats, mask, maxBytes, State([], 0), pre);
    if mask != [] && end.tail != [] { MaskIsNotEmpty(pats, mask, end.tail); }
    StreamSplits(pats, mask, maxBytes, State([], 0), pre, post);
    PastCeiling(pats, mask, maxBytes, end, post);
  }

  lemma LacksTail(sent: Bytes, tail: Bytes, post: Bytes)
    ensures sent + post == sent + tail + post <==> tail == []
  {
    assert |sent + post| == |sent| + |post| && |sent + tail + post| == |sent| + |tail| + |post|;
    if tail == [] { assert sent + tail == sent; }
  }
}
