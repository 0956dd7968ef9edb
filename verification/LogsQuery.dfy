/** The read-only guard on LogsQL queries (waf-api/src/logs.rs, `ensure_read_only`). */
module LogsQuery {
  import opened Basics
  import opened Text

  const FORBIDDEN: seq<string> := ["delete", "drop", "alter", "insert", "update", "copy"]

  /** ASCII letter, digit or underscore. */
  predicate WordChar(c: char) {
    'a' <= c <= 'z' || 'A' <= c <= 'Z' || '0' <= c <= '9' || c == '_'
  }

  predicate Keyword(k: string) {
    k != [] && forall i :: 0 <= i < |k| ==> WordChar(k[i])
  }

  // ---------------------------------------------------------------------------
  // What is to be rejected
  // ---------------------------------------------------------------------------

  predicate Blank(s: string, from: nat, to: nat)
    requires to <= |s|
  {
    forall j :: from <= j < to ==> IsSpace(s[j])
  }

  /** The whole word `k` at `q`. */
  predicate WordAt(s: string, k: string, q: nat) {
    q + |k| <= |s| && s[q..q + |k|] == k && (q + |k| == |s| || !WordChar(s[q + |k|]))
  }

  /** `|` at `p`, only white space up to `q`, then the word `k`. */
  predicate PipedAt(s: string, k: string, p: nat, q: nat) {
    p < q <= |s| && s[p] == '|' && Blank(s, p + 1, q) && WordAt(s, k, q)
  }

  ghost predicate Piped(s: string, k: string) {
    exists p: nat, q: nat :: PipedAt(s, k, p, q)
  }

  /** `c` is the letter `l`, or its capital. */
  predicate SameLetter(c: char, l: char) {
    (c == l && !('A' <= c <= 'Z')) || ('A' <= c <= 'Z' && l as int == c as int + 32)
  }

  /** The same on a query as written: the word in any ASCII case. */
  predicate MentionedAt(query: string, k: string, p: nat, q: nat) {
    && p < q && q + |k| <= |query| && query[p] == '|' && Blank(query, p + 1, q)
    && (forall i :: 0 <= i < |k| ==> SameLetter(query[q + i], k[i]))
    && (q + |k| == |query| || !WordChar(query[q + |k|]))
  }

  ghost predicate Mentions(query: string, k: string) {
    exists p: nat, q: nat :: MentionedAt(query, k, p, q)
  }

  // ---------------------------------------------------------------------------
  // The test at one pipe
  // ---------------------------------------------------------------------------

  /** `search[idx + 1..].trim_start()` */
  method TrimmedRest(s: string, p: nat) returns (after: string)
    requires p < |s|
    ensures p + 1 + |after| <= |s| && after == s[|s| - |after|..] && Blank(s, p + 1, |s| - |after|)
    ensures after != [] ==> !IsSpace(after[0])
  {
    var rest := s[p + 1..];
    after := TrimStart(rest);
    assert forall j :: p + 1 <= j < |s| ==> s[j] == rest[j - p - 1];
  }

  lemma WordIsNotSpace(s: string, k: string, q: nat)
    requires Keyword(k) && WordAt(s, k, q)
    ensures q < |s| && !IsSpace(s[q])
  {
    assert s[q] == s[q..q + |k|][0];
  }

  /** The test of the source at one `|`: does the trimmed rest start with the word? */
  method TestPipe(s: string, k: string, p: nat) returns (hit: bool)
    requires Keyword(k) && p < |s| && s[p] == '|'
    ensures hit <==> exists q: nat :: PipedAt(s, k, p, q)
  {
    var after := TrimmedRest(s, p);
    hit := false;
    if k <= after {
      var next := if |k| < |after| then after[|k|] else ' ';
      hit := !WordChar(next);
    }
    ghost var q := |s| - |after|;
    assert |k| <= |after| ==> s[q..q + |k|] == after[..|k|];
    assert hit <==> PipedAt(s, k, p, q);
    forall q': nat | PipedAt(s, k, p, q') ensures q' == q {
      WordIsNotSpace(s, k, q');
    }
  }

  method FindPiped(lower: string, pipe: string) returns (found: bool)
    requires Keyword(pipe)
    ensures found <==> Piped(lower, pipe)
  {
    var offset := 0;
    while IndexOf(lower[offset..], '|') < |lower[offset..]|
      invariant offset <= |lower|
      invariant forall p: nat, q: nat :: PipedAt(lower, pipe, p, q) ==> p >= offset
      decreases |lower| - offset
    {
      var idx := IndexOf(lower[offset..], '|');
      NoPipeBetween(lower, offset, idx);
      var hit := TestPipe(lower, pipe, offset + idx);
      if hit { return true; }
      offset := offset + idx + 1;
    }
    NoPipeBetween(lower, offset, |lower| - offset);
    return false;
  }

  lemma NoPipeBetween(s: string, from: nat, n: nat)
    requires from <= |s| && n <= IndexOf(s[from..], '|')
    ensures forall p :: from <= p < from + n ==> s[p] != '|'
  {
    assert forall p :: from <= p < from + n ==> s[p] == s[from..][p - from];
  }

  /** `Some(k)` is the error that names `k`: the first piped word of the list. */
  method FirstPiped(lower: string, pipes: seq<string>) returns (r: Option<string>)
    requires forall k <- pipes :: Keyword(k)
    ensures r.None? ==> forall k <- pipes :: !Piped(lower, k)
    ensures r.Some? ==> exists n :: 0 <= n < |pipes| && pipes[n] == r.value && Piped(lower, pipes[n])
                                    && forall m :: 0 <= m < n ==> !Piped(lower, pipes[m])
  {
    for n := 0 to |pipes|
      invariant forall m :: 0 <= m < n ==> !Piped(lower, pipes[m])
    {
      var found := FindPiped(lower, pipes[n]);
      if found { return Some(pipes[n]); }
    }
    return None;
  }

  lemma LowerKeeps(query: string, k: string, p: nat, q: nat)
    ensures PipedAt(Lower(query), k, p, q) <==> MentionedAt(query, k, p, q)
  {
    if p < q && q + |k| <= |query| {
      assert Lower(query)[q..q + |k|] == k <==> forall i :: 0 <= i < |k| ==> LowerChar(query[q + i]) == k[i];
      assert forall c: char, l: char :: LowerChar(c) == l <==> SameLetter(c, l);
      assert forall c: char :: IsSpace(LowerChar(c)) == IsSpace(c);
      assert Blank(Lower(query), p + 1, q) <==> Blank(query, p + 1, q);
    }
  }

  lemma PipedIsMention(query: string, k: string)
    ensures Piped(Lower(query), k) <==> Mentions(query, k)
  {
    forall p: nat, q: nat ensures PipedAt(Lower(query), k, p, q) <==> MentionedAt(query, k, p, q) {
      LowerKeeps(query, k, p, q);
    }
  }

  /**
   A query is accepted exactly if no forbidden word, in any case, stands behind a
   `|` with only white space between, as a whole word.
   */
  method Check(query: string, pipes: seq<string>) returns (r: Option<string>)
    requires forall k <- pipes :: Keyword(k)
    ensures r.None? <==> forall k <- pipes :: !Mentions(query, k)
    ensures r.Some? ==> r.value in pipes && Mentions(query, r.value)
  {
    r := FirstPiped(Lower(query), pipes);
    forall k <- pipes ensures Piped(Lower(query), k) <==> Mentions(query, k) {
      PipedIsMention(query, k);
    }
  }

  method EnsureReadOnly(query: string) returns (r: Option<string>)
    ensures r.None? <==> forall k <- ["delete", "drop", "alter", "insert", "update", "copy"] :: !Mentions(query, k)
    ensures r.Some? ==>
      r.value in ["delete", "drop", "alter", "insert", "update", "copy"] && Mentions(query, r.value)
  {
    r := Check(query, FORBIDDEN);
  }
}
