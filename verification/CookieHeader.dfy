/** Parsing of the Cookie header (waf-common/src/types.rs, `parse_cookie_header`). */
module CookieHeader {
  import opened Basics
  import opened Text

  /** `header.split(';')` */
  function Split(s: string): (r: seq<string>)
    ensures r != []
  {
    if s == [] then [""]
    else
      var r := Split(s[1..]);
      if s[0] == ';' then [""] + r else [[s[0]] + r[0]] + r[1..]
  }

  /** The cookie one piece holds, if any. */
  function Cookie(piece: string): Option<(string, string)> {
    var pair := Trim(piece);
    var i := IndexOf(pair, '=');
    if i == |pair| then None
    else
      var name := Trim(pair[..i]);
      if name == "" then None else Some((name, Trim(pair[i + 1..])))
  }

  function Cookies(pieces: seq<string>): (r: seq<Option<(string, string)>>)
    ensures |r| == |pieces|
  {
    if pieces == [] then [] else [Cookie(pieces[0])] + Cookies(pieces[1..])
  }

  lemma {:induction false} CookiesAt(pieces: seq<string>, i: nat)
    requires i < |pieces|
    ensures Cookies(pieces)[i] == Cookie(pieces[i])
    decreases i
  {
    if i > 0 {
      CookiesAt(pieces[1..], i - 1);
    }
  }

  /** Later cookies replace earlier ones of the same name. */
  function Stored(cs: seq<Option<(string, string)>>): map<string, string> {
    if cs == [] then map[]
    else
      var m := Stored(cs[..|cs| - 1]);
      match cs[|cs| - 1]
      case None => m
      case Some((name, value)) => m[name := value]
  }

  function Parse(header: string): map<string, string> {
    Stored(Cookies(Split(header)))
  }

  method ParsePair(piece: string) returns (c: Option<(string, string)>)
    ensures c == Cookie(piece)
  {
    var pair := Trim(piece);
    if pair == "" { return None; }
    var i := IndexOf(pair, '=');
    if i == |pair| { return None; }
    var name := Trim(pair[..i]);
    if name == "" { return None; }
    return Some((name, Trim(pair[i + 1..])));
  }

  method ParseCookieHeader(header: string) returns (out: map<string, string>)
    ensures out == Parse(header)
  {
    out := map[];
    var pieces := Split(header);
    ghost var cs := Cookies(pieces);
    for n := 0 to |pieces|
      invariant out == Stored(cs[..n])
    {
      assert cs[..n + 1][..n] == cs[..n];
      var c := ParsePair(pieces[n]);
      CookiesAt(pieces, n);
      if c.Some? {
        out := out[c.value.0 := c.value.1];
      }
    }
    assert cs[..|cs|] == cs;
  }

  // ---------------------------------------------------------------------------
  // What can come out
  // ---------------------------------------------------------------------------

  predicate GoodName(name: string) {
    name != "" && Trimmed(name) && ';' !in name && '=' !in name
  }

  predicate GoodValue(value: string) {
    Trimmed(value) && ';' !in value
  }

  lemma TrimKeepsOut(s: string, c: char)
    requires c !in s
    ensures c !in Trim(s)
  {
    var a := TrimStart(s);
    assert forall i :: 0 <= i < |a| ==> a[i] == s[|s| - |a| + i];
    assert c !in a;
    assert TrimEnd(a) <= a;
  }

  lemma CookieIsGood(piece: string)
    requires ';' !in piece
    ensures var c := Cookie(piece); c.Some? ==> GoodName(c.value.0) && GoodValue(c.value.1)
  {
    var pair := Trim(piece);
    var i := IndexOf(pair, '=');
    if i < |pair| {
      TrimKeepsOut(piece, ';');
      TrimIsTrimmed(pair[..i]);
      TrimKeepsOut(pair[..i], ';');
      TrimKeepsOut(pair[..i], '=');
      TrimIsTrimmed(pair[i + 1..]);
      TrimKeepsOut(pair[i + 1..], ';');
    }
  }

  ghost predicate AllGood(m: map<string, string>) {
    forall name <- m :: GoodName(name) && GoodValue(m[name])
  }

  lemma {:induction false} StoredIsGood(cs: seq<Option<(string, string)>>)
    requires forall c <- cs :: c.Some? ==> GoodName(c.value.0) && GoodValue(c.value.1)
    ensures AllGood(Stored(cs))
    decreases |cs|
  {
    if cs != [] {
      StoredIsGood(cs[..|cs| - 1]);
      assert cs[|cs| - 1] in cs;
    }
  }

  lemma {:induction false} SplitIsClean(s: string)
    ensures forall i :: 0 <= i < |Split(s)| ==> ';' !in Split(s)[i]
    decreases |s|
  {
    if s != [] {
      SplitIsClean(s[1..]);
    }
  }

  lemma CookiesAreGood(pieces: seq<string>)
    requires forall i :: 0 <= i < |pieces| ==> ';' !in pieces[i]
    ensures AllGood(Stored(Cookies(pieces)))
  {
    var cs := Cookies(pieces);
    forall i | 0 <= i < |cs| ensures cs[i].Some? ==> GoodName(cs[i].value.0) && GoodValue(cs[i].value.1) {
      CookiesAt(pieces, i);
      CookieIsGood(pieces[i]);
    }
    StoredIsGood(cs);
  }

  /** Whatever the header: names are non-empty, trimmed and free of `;` and `=`;
      values are trimmed and free of `;`. */
  lemma ParseIsGood(header: string)
    ensures AllGood(Parse(header))
  {
    SplitIsClean(header);
    CookiesAreGood(Split(header));
  }

  predicate Holds(c: Option<(string, string)>, name: string) {
    c.Some? && c.value.0 == name
  }

  /** The last cookie called `name`. */
  ghost predicate LastHolder(cs: seq<Option<(string, string)>>, name: string, n: nat) {
    n < |cs| && Holds(cs[n], name) && forall m :: n < m < |cs| ==> !Holds(cs[m], name)
  }

  /** Whatever the header: a name is present exactly if some piece holds it, and
      its value is that of the last such piece. */
  lemma {:induction false} LastOneWins(cs: seq<Option<(string, string)>>, name: string)
    ensures name in Stored(cs) <==> exists n: nat :: LastHolder(cs, name, n)
    ensures forall n: nat :: LastHolder(cs, name, n) ==> name in Stored(cs) && Stored(cs)[name] == cs[n].value.1
    decreases |cs|
  {
    if cs != [] {
      var init, last := cs[..|cs| - 1], |cs| - 1;
      LastOneWins(init, name);
      if Holds(cs[last], name) {
        assert LastHolder(cs, name, last);
      } else {
        forall n: nat ensures LastHolder(cs, name, n) <==> LastHolder(init, name, n) {
          SkipLast(cs, name, n);
        }
      }
    }
  }

  lemma SkipLast(cs: seq<Option<(string, string)>>, name: string, n: nat)
    requires cs != [] && !Holds(cs[|cs| - 1], name)
    ensures LastHolder(cs, name, n) <==> LastHolder(cs[..|cs| - 1], name, n)
  {
    var init := cs[..|cs| - 1];
    assert forall m :: 0 <= m < |init| ==> init[m] == cs[m];
  }

  // ---------------------------------------------------------------------------
  // Printing and parsing
  // ---------------------------------------------------------------------------

  function PrintPair(p: (string, string)): string {
    p.0 + "=" + p.1
  }

  /** `n1=v1; n2=v2; ...` */
  function Print(pairs: seq<(string, string)>): string {
    if pairs == [] then ""
    else if |pairs| == 1 then PrintPair(pairs[0])
    else PrintPair(pairs[0]) + ";" + (" " + Print(pairs[1..]))
  }

  function LastWins(pairs: seq<(string, string)>): map<string, string> {
    if pairs == [] then map[] else LastWins(pairs[..|pairs| - 1])[pairs[|pairs| - 1].0 := pairs[|pairs| - 1].1]
  }

  ghost predicate Good(pairs: seq<(string, string)>) {
    forall p <- pairs :: GoodName(p.0) && GoodValue(p.1)
  }

  lemma {:induction false} SplitAtFirst(a: string, rest: string)
    requires ';' !in a
    ensures Split(a + ";" + rest) == [a] + Split(rest)
    decreases |a|
  {
    var s := a + ";" + rest;
    if a == [] {
      assert s[1..] == rest;
    } else {
      assert s[1..] == a[1..] + ";" + rest;
      SplitAtFirst(a[1..], rest);
      assert [a[0]] + a[1..] == a;
    }
  }

  lemma {:induction false} SplitWhole(a: string)
    requires ';' !in a
    ensures Split(a) == [a]
    decreases |a|
  {
    if a != [] {
      SplitWhole(a[1..]);
      assert [a[0]] + a[1..] == a;
    }
  }

  lemma NoSemicolon(p: (string, string))
    requires GoodName(p.0) && GoodValue(p.1)
    ensures ';' !in PrintPair(p) && ';' !in " " + PrintPair(p)
  {
  }

  lemma PairIsTrimmed(p: (string, string))
    requires GoodName(p.0) && GoodValue(p.1)
    ensures Trimmed(PrintPair(p))
  {
    var s := PrintPair(p);
    assert s[0] == p.0[0] && s[|s| - 1] == if p.1 == "" then '=' else p.1[|p.1| - 1];
  }

  lemma PairParts(p: (string, string))
    requires GoodName(p.0)
    ensures var s := PrintPair(p); IndexOf(s, '=') == |p.0| < |s| && s[..|p.0|] == p.0 && s[|p.0| + 1..] == p.1
  {
    var s := PrintPair(p);
    assert s[|p.0|] == '=' && forall i :: 0 <= i < |p.0| ==> s[i] == p.0[i];
  }

  /** A piece that trims to a printed pair holds that pair. */
  lemma CookieOfPiece(piece: string, p: (string, string))
    requires GoodName(p.0) && GoodValue(p.1) && Trim(piece) == PrintPair(p)
    ensures Cookie(piece) == Some(p)
  {
    PairParts(p);
    TrimFixed(p.0);
    TrimFixed(p.1);
  }

  lemma CookieOfPair(p: (string, string))
    requires GoodName(p.0) && GoodValue(p.1)
    ensures Cookie(PrintPair(p)) == Some(p) && Cookie(" " + PrintPair(p)) == Some(p)
  {
    var s := PrintPair(p);
    PairIsTrimmed(p);
    TrimFixed(s);
    TrimSkipsSpace(' ', s);
    CookieOfPiece(s, p);
    CookieOfPiece(" " + s, p);
  }

  /** The pieces of a printed list: all but the first start with a blank. */
  function Pieces(pairs: seq<(string, string)>, lead: string): seq<string> {
    if pairs == [] then [] else [lead + PrintPair(pairs[0])] + Pieces(pairs[1..], " ")
  }

  lemma {:induction false} SplitPrint(pairs: seq<(string, string)>, lead: string)
    requires pairs != [] && Good(pairs) && (lead == "" || lead == " ")
    ensures Split(lead + Print(pairs)) == Pieces(pairs, lead)
    decreases |pairs|
  {
    var first := lead + PrintPair(pairs[0]);
    NoSemicolon(pairs[0]);
    assert lead == "" ==> first == PrintPair(pairs[0]);
    if |pairs| == 1 {
      SplitWhole(first);
    } else {
      var rest := " " + Print(pairs[1..]);
      assert lead + (PrintPair(pairs[0]) + ";" + rest) == first + ";" + rest;
      SplitAtFirst(first, rest);
      SplitPrint(pairs[1..], " ");
    }
  }

  lemma {:induction false} PiecesHold(pairs: seq<(string, string)>, lead: string)
    requires Good(pairs) && (lead == "" || lead == " ")
    ensures Cookies(Pieces(pairs, lead)) == Present(pairs)
    decreases |pairs|
  {
    if pairs != [] {
      var first := lead + PrintPair(pairs[0]);
      assert Cookie(first) == Some(pairs[0]) by {
        CookieOfPair(pairs[0]);
        assert lead == "" ==> first == PrintPair(pairs[0]);
      }
      PiecesHold(pairs[1..], " ");
      PiecesCons(first, Pieces(pairs[1..], " "), pairs[0]);
    }
  }

  lemma PiecesCons(first: string, rest: seq<string>, p: (string, string))
    requires Cookie(first) == Some(p)
    ensures Cookies([first] + rest) == [Some(p)] + Cookies(rest)
  {
    assert ([first] + rest)[1..] == rest;
  }

  function Present(pairs: seq<(string, string)>): seq<Option<(string, string)>> {
    if pairs == [] then [] else [Some(pairs[0])] + Present(pairs[1..])
  }

  lemma {:induction false} PresentInit(pairs: seq<(string, string)>)
    ensures |Present(pairs)| == |pairs| && forall i :: 0 <= i < |pairs| ==> Present(pairs)[i] == Some(pairs[i])
    decreases |pairs|
  {
    if pairs != [] {
      PresentInit(pairs[1..]);
    }
  }

  lemma {:induction false} StoredPairs(cs: seq<Option<(string, string)>>, pairs: seq<(string, string)>)
    requires |cs| == |pairs| && forall i :: 0 <= i < |pairs| ==> cs[i] == Some(pairs[i])
    ensures Stored(cs) == LastWins(pairs)
    decreases |pairs|
  {
    if pairs != [] {
      StoredPairs(cs[..|cs| - 1], pairs[..|pairs| - 1]);
    }
  }

  lemma NoPieces()
    ensures Parse("") == map[]
  {
    assert Split("") == [""] && Trim("") == "";
    var cs := Cookies([""]);
    assert cs == [None] && cs[..0] == [];
  }

  /** Parsing a printed list of cookies gives them back; of equal names the last. */
  lemma RoundTrip(pairs: seq<(string, string)>)
    requires Good(pairs)
    ensures Parse(Print(pairs)) == LastWins(pairs)
  {
    if pairs == [] {
      NoPieces();
    } else {
      assert "" + Print(pairs) == Print(pairs);
      SplitPrint(pairs, "");
      PiecesHold(pairs, "");
      PresentInit(pairs);
      StoredPairs(Present(pairs), pairs);
    }
  }

  /** For a single cookie, exactly the good ones survive. */
  lemma SurvivesIffGood(p: (string, string))
    ensures Parse(Print([p])) == map[p.0 := p.1] <==> GoodName(p.0) && GoodValue(p.1)
  {
    ParseIsGood(Print([p]));
    assert p.0 in map[p.0 := p.1];
    if GoodName(p.0) && GoodValue(p.1) {
      RoundTrip([p]);
      assert [p][..0] == [] && LastWins([p]) == LastWins([p][..0])[p.0 := p.1];
    }
  }

  lemma {:induction false} LastWinsHas(pairs: seq<(string, string)>, m: map<string, string>)
    requires forall p <- pairs :: p.0 in m && m[p.0] == p.1
    ensures forall n <- LastWins(pairs) :: n in m && LastWins(pairs)[n] == m[n]
    ensures forall p <- pairs :: p.0 in LastWins(pairs)
    decreases |pairs|
  {
    if pairs != [] {
      LastWinsHas(pairs[..|pairs| - 1], m);
      assert pairs == pairs[..|pairs| - 1] + [pairs[|pairs| - 1]];
    }
  }

  lemma PrintsBack(m: map<string, string>, pairs: seq<(string, string)>)
    requires AllGood(m)
    requires forall p <- pairs :: p.0 in m && m[p.0] == p.1
    requires forall n <- m :: (n, m[n]) in pairs
    ensures Parse(Print(pairs)) == m
  {
    RoundTrip(pairs);
    LastWinsHas(pairs, m);
  }

  /** Printing what was parsed, in any order, and parsing again changes nothing. */
  lemma Normalises(header: string, m: map<string, string>, pairs: seq<(string, string)>)
    requires m == Parse(header)
    requires forall p <- pairs :: p.0 in m && m[p.0] == p.1
    requires forall n <- m :: (n, m[n]) in pairs
    ensures Parse(Print(pairs)) == m
  {
    ParseIsGood(header);
    PrintsBack(m, pairs);
  }
}
