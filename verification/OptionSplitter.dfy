/**
 Splitting ModSecurity option lists on commas outside quotes
 (`_split_options`, rules/tools/modsec2yaml.py).
 */
module OptionSplitter {
  import opened Basics

  /** The open quote after reading `ch`. */
  function NextQuote(q: Option<char>, ch: char): Option<char> {
    if q.None? then (if ch == '\'' || ch == '"' then Some(ch) else None)
    else if ch == q.value then None else q
  }

  function QuoteAfter(q: Option<char>, s: string): Option<char>
    decreases |s|
  {
    if s == [] then q else QuoteAfter(NextQuote(q, s[0]), s[1..])
  }

  /** Quotes in `s` close again. */
  predicate Balanced(s: string) {
    QuoteAfter(None, s).None?
  }

  predicate NoOuterComma(q: Option<char>, s: string)
    decreases |s|
  {
    s == [] || (!(q.None? && s[0] == ',') && NoOuterComma(NextQuote(q, s[0]), s[1..]))
  }

  /** The last character of `s` is a comma outside quotes. */
  predicate EndsInOuterComma(q: Option<char>, s: string) {
    s != [] && s[|s| - 1] == ',' && QuoteAfter(q, s[..|s| - 1]).None?
  }

  /** The scan over `s` with `current` read so far and `q` open. */
  function Scan(s: string, current: string, q: Option<char>): seq<string>
    decreases |s|
  {
    if s == [] then (if current == [] then [] else [current])
    else if q.None? && s[0] == ',' then [current] + Scan(s[1..], [], None)
    else Scan(s[1..], current + [s[0]], NextQuote(q, s[0]))
  }

  function Split(s: string): seq<string> {
    Scan(s, [], None)
  }

  function Join(parts: seq<string>): string {
    if parts == [] then [] else if |parts| == 1 then parts[0] else parts[0] + [','] + Join(parts[1..])
  }

  /** The loop of the tool. */
  method SplitOptions(s: string) returns (parts: seq<string>)
    ensures parts == Split(s)
  {
    parts := [];
    var current: string := [];
    var inQuote := false;
    var quoteChar: Option<char> := None;
    for i := 0 to |s|
      invariant inQuote == quoteChar.Some?
      invariant parts + Scan(s[i..], current, quoteChar) == Split(s)
    {
      var ch := s[i];
      assert s[i..][1..] == s[i + 1..];
      if !inQuote && (ch == '\'' || ch == '"') {
        inQuote := true;
        quoteChar := Some(ch);
        current := current + [ch];
      } else if inQuote && Some(ch) == quoteChar {
        inQuote := false;
        quoteChar := None;
        current := current + [ch];
      } else if !inQuote && ch == ',' {
        parts := parts + [current];
        current := [];
      } else {
        current := current + [ch];
      }
    }
    if current != [] {
      parts := parts + [current];
    }
  }

  lemma {:induction false} QuoteAppend(q: Option<char>, a: string, b: string)
    ensures QuoteAfter(q, a + b) == QuoteAfter(QuoteAfter(q, a), b)
    ensures NoOuterComma(q, a + b) <==> NoOuterComma(q, a) && NoOuterComma(QuoteAfter(q, a), b)
    decreases |a|
  {
    if a == [] {
      assert a + b == b;
    } else {
      QuoteAppend(NextQuote(q, a[0]), a[1..], b);
      assert (a + b)[1..] == a[1..] + b;
    }
  }

  lemma JoinFirst(current: string, tail: seq<string>, rest: string, end: string)
    requires tail != [] && rest == Join(tail) + end
    ensures current + ([','] + rest) == Join([current] + tail) + end
  {
    assert ([current] + tail)[1..] == tail;
    assert Join([current] + tail) == current + [','] + Join(tail);
  }

  /** A comma outside quotes, or nothing. */
  function LostComma(q: Option<char>, s: string): string {
    if EndsInOuterComma(q, s) then [','] else []
  }

  lemma LostCommaStep(q: Option<char>, s: string)
    requires s != []
    ensures LostComma(q, s) ==
      if |s| == 1 && q.None? && s[0] == ',' then [','] else LostComma(NextQuote(q, s[0]), s[1..])
  {
    if |s| == 1 { assert s[..0] == []; } else { EndsShift(q, s); }
  }

  /** Rejoining gives back the text, up to one trailing comma outside quotes. */
  ghost predicate Rejoins(s: string, current: string, q: Option<char>) {
    && current + s == Join(Scan(s, current, q)) + LostComma(q, s)
    && (Scan(s, current, q) == [] ==> current == [] && s == [])
  }

  lemma RejoinsAtComma(s: string, current: string)
    requires s != [] && s[0] == ',' && Rejoins(s[1..], [], None)
    ensures Rejoins(s, current, None)
  {
    var rest := s[1..];
    LostCommaStep(None, s);
    assert s == [','] + rest && [] + rest == rest;
    if rest == [] {
      assert Scan(s, current, None) == [current];
    } else {
      JoinFirst(current, Scan(rest, [], None), rest, LostComma(None, rest));
    }
  }

  lemma RejoinsAtChar(s: string, current: string, q: Option<char>)
    requires s != [] && !(q.None? && s[0] == ',') && Rejoins(s[1..], current + [s[0]], NextQuote(q, s[0]))
    ensures Rejoins(s, current, q)
  {
    LostCommaStep(q, s);
    assert current + s == (current + [s[0]]) + s[1..];
  }

  lemma {:induction false} ScanRejoins(s: string, current: string, q: Option<char>)
    ensures Rejoins(s, current, q)
    decreases |s|
  {
    if s == [] {
    } else if q.None? && s[0] == ',' {
      ScanRejoins(s[1..], [], None);
      RejoinsAtComma(s, current);
    } else {
      ScanRejoins(s[1..], current + [s[0]], NextQuote(q, s[0]));
      RejoinsAtChar(s, current, q);
    }
  }

  lemma EndsShift(q: Option<char>, s: string)
    requires |s| > 1
    ensures EndsInOuterComma(q, s) <==> EndsInOuterComma(NextQuote(q, s[0]), s[1..])
  {
    assert s[..|s| - 1][1..] == s[1..][..|s| - 2];
  }

  /** Nothing is lost but at most that comma. */
  lemma SplitRejoins(s: string)
    ensures s == Join(Split(s)) + LostComma(None, s)
  {
    ScanRejoins(s, [], None);
    assert [] + s == s;
  }

  /** Parts hold no comma outside quotes, and all but the last close their quotes. */
  ghost predicate CleanParts(parts: seq<string>) {
    && (forall i :: 0 <= i < |parts| ==> NoOuterComma(None, parts[i]))
    && (forall i :: 0 <= i < |parts| - 1 ==> Balanced(parts[i]))
  }

  lemma {:induction false} ScanIsClean(s: string, current: string, q: Option<char>)
    requires NoOuterComma(None, current) && QuoteAfter(None, current) == q
    ensures CleanParts(Scan(s, current, q))
    decreases |s|
  {
    if s != [] {
      if q.None? && s[0] == ',' {
        ScanIsClean(s[1..], [], None);
      } else {
        QuoteAppend(None, current, [s[0]]);
        ScanIsClean(s[1..], current + [s[0]], NextQuote(q, s[0]));
      }
    }
  }

  /** A stretch without outer commas is read into the current part. */
  lemma {:induction false} ScanAbsorbs(p: string, rest: string, current: string, q: Option<char>)
    requires NoOuterComma(q, p)
    ensures Scan(p + rest, current, q) == Scan(rest, current + p, QuoteAfter(q, p))
    decreases |p|
  {
    if p == [] {
      assert p + rest == rest && current + p == current;
    } else {
      assert (p + rest)[1..] == p[1..] + rest;
      ScanAbsorbs(p[1..], rest, current + [p[0]], NextQuote(q, p[0]));
      assert current + [p[0]] + p[1..] == current + p;
    }
  }

  /** Parts that survive a round trip. */
  ghost predicate Printable(parts: seq<string>) {
    CleanParts(parts) && (parts != [] ==> parts[|parts| - 1] != [])
  }

  lemma {:induction false} SplitJoin(parts: seq<string>)
    requires Printable(parts)
    ensures Split(Join(parts)) == parts
    decreases |parts|
  {
    if |parts| == 1 {
      ScanAbsorbs(parts[0], [], [], None);
      assert parts[0] + [] == parts[0] && [] + parts[0] == parts[0];
    } else if |parts| > 1 {
      var p, rest := parts[0], parts[1..];
      SplitJoin(rest);
      assert Join(parts) == p + ([','] + Join(rest));
      ScanAbsorbs(p, [','] + Join(rest), [], None);
      assert [] + p == p && ([','] + Join(rest))[1..] == Join(rest);
    }
  }

  lemma {:induction false} JoinBalanced(parts: seq<string>)
    requires forall i :: 0 <= i < |parts| ==> Balanced(parts[i])
    ensures Balanced(Join(parts))
    decreases |parts|
  {
    if |parts| > 1 {
      JoinBalanced(parts[1..]);
      QuoteAppend(None, parts[0] + [','], Join(parts[1..]));
      QuoteAppend(None, parts[0], [',']);
    }
  }

  lemma {:induction false} JoinLast(parts: seq<string>)
    requires |parts| >= 2
    ensures Join(parts) == Join(parts[..|parts| - 1]) + [','] + parts[|parts| - 1]
    decreases |parts|
  {
    if |parts| == 2 {
      assert parts[1..] == [parts[1]] && parts[..1] == [parts[0]];
    } else {
      JoinLast(parts[1..]);
      assert parts[1..][..|parts| - 2] == parts[..|parts| - 1][1..];
    }
  }

  /** An empty last part is lost: its separator is the trailing comma that
      `SplitRejoins` gives up. */
  lemma EmptyLastIsLost(parts: seq<string>)
    requires CleanParts(parts) && parts != [] && parts[|parts| - 1] == []
    ensures Split(Join(parts)) != parts
  {
    var n := |parts| - 1;
    if n > 0 {
      var init := parts[..n];
      JoinLast(parts);
      assert forall i :: 0 <= i < |init| ==> init[i] == parts[i];
      JoinBalanced(init);
      assert Join(parts) == Join(init) + [','];
      assert Join(parts)[..|Join(parts)| - 1] == Join(init);
      SplitRejoins(Join(parts));
    }
  }

  /**
   Splitting undoes joining exactly for parts without outer commas, balanced
   except perhaps the last, and with a last part that is not empty.
   */
  lemma RoundTrip(parts: seq<string>)
    ensures Split(Join(parts)) == parts <==> Printable(parts)
  {
    ScanIsClean(Join(parts), [], None);
    if Printable(parts) {
      SplitJoin(parts);
    } else if CleanParts(parts) {
      EmptyLastIsLost(parts);
    }
  }

  // ---------------------------------------------------------------------------
  // What quotes do
  // ---------------------------------------------------------------------------

  predicate Unquoted(s: string) {
    '\'' !in s && '"' !in s
  }

  lemma {:induction false} PlainText(s: string)
    requires Unquoted(s)
    ensures QuoteAfter(None, s) == None && (NoOuterComma(None, s) <==> ',' !in s)
    decreases |s|
  {
    if s != [] {
      assert s[0] in s && forall c <- s[1..] :: c in s;
      PlainText(s[1..]);
      assert s == [s[0]] + s[1..];
    }
  }

  /** Inside quotes nothing but the same quote matters. */
  lemma {:induction false} InsideQuotes(q: char, s: string)
    requires q !in s
    ensures QuoteAfter(Some(q), s) == Some(q) && NoOuterComma(Some(q), s)
    decreases |s|
  {
    if s != [] {
      assert s[0] in s && forall c <- s[1..] :: c in s;
      InsideQuotes(q, s[1..]);
    }
  }

  /** Text without quotes is split at every comma: such parts survive exactly if they
      hold no comma and the last is not empty. */
  lemma PlainRoundTrip(parts: seq<string>)
    requires forall i :: 0 <= i < |parts| ==> Unquoted(parts[i])
    ensures Split(Join(parts)) == parts <==>
      (forall i :: 0 <= i < |parts| ==> ',' !in parts[i]) && (parts != [] ==> parts[|parts| - 1] != [])
  {
    forall i | 0 <= i < |parts| ensures Balanced(parts[i]) && (NoOuterComma(None, parts[i]) <==> ',' !in parts[i]) {
      PlainText(parts[i]);
    }
    RoundTrip(parts);
  }

  /** Text between two equal quotes of either kind stays in one part, with all its commas
      and quotes of the other kind. */
  lemma QuotedStays(before: string, q: char, s: string, after: string)
    requires (q == '\'' || q == '"') && q !in s
    requires Unquoted(before) && Unquoted(after) && ',' !in before && ',' !in after
    ensures Split(before + [q] + s + [q] + after) == [before + [q] + s + [q] + after]
  {
    var whole := before + [q] + s + [q] + after;
    PlainText(before);
    InsideQuotes(q, s);
    PlainText(after);
    QuoteAppend(None, before, [q]);
    QuoteAppend(None, before + [q], s);
    QuoteAppend(None, before + [q] + s, [q]);
    QuoteAppend(None, before + [q] + s + [q], after);
    assert QuoteAfter(None, [q]) == Some(q) && QuoteAfter(Some(q), [q]) == None;
    RoundTrip([whole]);
    assert Join([whole]) == whole;
  }
}
