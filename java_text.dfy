/**
 * The two `java.lang.String` operations the request parser relies on:
 * `trim()` and `split(regex)` for the two patterns it uses, `"(\\s+)"` and
 * `"(:\\s*)"`. `split` keeps a leading empty piece when the input begins with
 * a match and drops every trailing empty piece; an input with no match at
 * all comes back whole.
 */
module JavaText {

  /** The characters `trim()` removes: every code point up to U+0020. */
  predicate IsTrimmed(c: char) {
    c <= ' '
  }

  function TrimStart(s: string): (r: string)
    ensures |r| <= |s| && r == s[|s| - |r|..]
    ensures |r| > 0 ==> !IsTrimmed(r[0])
    ensures forall i :: 0 <= i < |s| - |r| ==> IsTrimmed(s[i])
  {
    if |s| > 0 && IsTrimmed(s[0]) then TrimStart(s[1..]) else s
  }

  function TrimEnd(s: string): (r: string)
    ensures |r| <= |s| && r == s[..|r|]
    ensures |r| > 0 ==> !IsTrimmed(r[|r| - 1])
    ensures forall i :: |r| <= i < |s| ==> IsTrimmed(s[i])
  {
    if |s| > 0 && IsTrimmed(s[|s| - 1]) then TrimEnd(s[..|s| - 1]) else s
  }

  /** `s.trim()` */
  function Trim(s: string): string {
    TrimEnd(TrimStart(s))
  }

  /** The regular-expression class `\s`: space, tab, newline, vertical tab, form feed, carriage return. */
  predicate IsRegexSpace(c: char) {
    c == ' ' || c == '\t' || c == '\n' || c == '\r' || c as int == 0x0B || c as int == 0x0C
  }

  /** The two patterns the parser splits on. */
  datatype Separator =
    | Spaces        // "(\\s+)"
    | ColonSpaces   // "(:\\s*)"

  /** Whether a match of the pattern can begin with `c`. */
  predicate StartsSeparator(sep: Separator, c: char) {
    match sep
    case Spaces => IsRegexSpace(c)
    case ColonSpaces => c == ':'
  }

  /** No match of the pattern begins anywhere in `s`. */
  predicate NoSeparator(sep: Separator, s: string) {
    forall i :: 0 <= i < |s| ==> !StartsSeparator(sep, s[i])
  }

  /** Where the leftmost match at or after `from` begins, or `|s|`. */
  function NextSeparator(sep: Separator, s: string, from: nat): (i: nat)
    requires from <= |s|
    ensures from <= i <= |s|
    ensures i < |s| ==> StartsSeparator(sep, s[i])
    ensures forall j :: from <= j < i ==> !StartsSeparator(sep, s[j])
    decreases |s| - from
  {
    if from == |s| || StartsSeparator(sep, s[from]) then from else NextSeparator(sep, s, from + 1)
  }

  /** The end of the run of `\s` that starts at `from`: where a greedy match stops. */
  function SkipSpaces(s: string, from: nat): (j: nat)
    requires from <= |s|
    ensures from <= j <= |s|
    ensures j < |s| ==> !IsRegexSpace(s[j])
    ensures forall k :: from <= k < j ==> IsRegexSpace(s[k])
    decreases |s| - from
  {
    if from == |s| || !IsRegexSpace(s[from]) then from else SkipSpaces(s, from + 1)
  }

  /** The text between successive leftmost, greedy matches, empty pieces included. */
  function Pieces(sep: Separator, s: string): (r: seq<string>)
    ensures |r| >= 1
    decreases |s|
  {
    var i := NextSeparator(sep, s, 0);
    if i == |s| then [s]
    else [s[..i]] + Pieces(sep, s[SkipSpaces(s, i + 1)..])
  }

  /** The pieces without the empty ones at the end. */
  function DropTrailingEmpty(ps: seq<string>): (r: seq<string>)
    ensures |r| <= |ps| && r == ps[..|r|]
    ensures |r| > 0 ==> r[|r| - 1] != ""
    ensures forall k :: |r| <= k < |ps| ==> ps[k] == ""
  {
    if |ps| > 0 && ps[|ps| - 1] == "" then DropTrailingEmpty(ps[..|ps| - 1]) else ps
  }

  /** `s.split(regex)` with the default limit. */
  function Split(sep: Separator, s: string): seq<string> {
    if NextSeparator(sep, s, 0) == |s| then [s] else DropTrailingEmpty(Pieces(sep, s))
  }

  // ---------------------------------------------------------------- lemmas

  /** `match` is the text of one match of the pattern. */
  predicate IsSeparatorText(sep: Separator, match_: string) {
    |match_| > 0 && StartsSeparator(sep, match_[0])
    && forall k :: 1 <= k < |match_| ==> IsRegexSpace(match_[k])
  }

  /** Text without a match is one piece. */
  lemma PiecesOfToken(sep: Separator, tok: string)
    requires NoSeparator(sep, tok)
    ensures Pieces(sep, tok) == [tok]
  {
  }

  /** The leftmost match in a piece followed by a match is that match. */
  lemma NextSeparatorAfterToken(sep: Separator, tok: string, match_: string, rest: string)
    requires NoSeparator(sep, tok)
    requires IsSeparatorText(sep, match_)
    ensures NextSeparator(sep, tok + match_ + rest, 0) == |tok|
  {
    var s := tok + match_ + rest;
    assert forall k :: 0 <= k < |tok| ==> s[k] == tok[k];
    assert s[|tok|] == match_[0];
  }

  /** A greedy match takes the whole run of `\s` and stops where the rest begins. */
  lemma SkipSpacesOverMatch(sep: Separator, tok: string, match_: string, rest: string)
    requires IsSeparatorText(sep, match_)
    requires |rest| > 0 ==> !IsRegexSpace(rest[0])
    ensures SkipSpaces(tok + match_ + rest, |tok| + 1) == |tok| + |match_|
  {
    var s := tok + match_ + rest;
    assert forall k :: |tok| <= k < |tok| + |match_| ==> s[k] == match_[k - |tok|];
    assert |rest| > 0 ==> s[|tok| + |match_|] == rest[0];
  }

  /** A piece, one whole match, then text that does not go on with `\s`. */
  lemma PiecesStep(sep: Separator, tok: string, match_: string, rest: string)
    requires NoSeparator(sep, tok)
    requires IsSeparatorText(sep, match_)
    requires |rest| > 0 ==> !IsRegexSpace(rest[0])
    ensures Pieces(sep, tok + match_ + rest) == [tok] + Pieces(sep, rest)
  {
    var s := tok + match_ + rest;
    NextSeparatorAfterToken(sep, tok, match_, rest);
    SkipSpacesOverMatch(sep, tok, match_, rest);
    assert s[..|tok|] == tok;
    assert s[|tok| + |match_|..] == rest;
  }

  /** Two or more pieces, the last one not empty, are what `split` returns. */
  lemma SplitOfPieces(sep: Separator, s: string, ps: seq<string>)
    requires Pieces(sep, s) == ps
    requires |ps| >= 2 && ps[|ps| - 1] != ""
    ensures Split(sep, s) == ps
  {
    assert NextSeparator(sep, s, 0) < |s|;
  }

  /** `trim()` strips the leading characters at or below U+0020. */
  lemma {:induction false} TrimStartAround(lead: string, rest: string)
    requires forall i :: 0 <= i < |lead| ==> IsTrimmed(lead[i])
    requires |rest| > 0 && !IsTrimmed(rest[0])
    ensures TrimStart(lead + rest) == rest
  {
    if lead == [] {
      assert lead + rest == rest;
    } else {
      assert (lead + rest)[1..] == lead[1..] + rest;
      TrimStartAround(lead[1..], rest);
    }
  }

  /** `trim()` strips the trailing characters at or below U+0020. */
  lemma {:induction false} TrimEndAround(rest: string, trail: string)
    requires forall i :: 0 <= i < |trail| ==> IsTrimmed(trail[i])
    requires |rest| > 0 && !IsTrimmed(rest[|rest| - 1])
    ensures TrimEnd(rest + trail) == rest
  {
    if trail == [] {
      assert rest + trail == rest;
    } else {
      assert (rest + trail)[..|rest + trail| - 1] == rest + trail[..|trail| - 1];
      TrimEndAround(rest, trail[..|trail| - 1]);
    }
  }

  /** `trim()` keeps text that begins and ends above U+0020, and strips what surrounds it. */
  lemma TrimAround(lead: string, core: string, trail: string)
    requires |core| > 0 && !IsTrimmed(core[0]) && !IsTrimmed(core[|core| - 1])
    requires forall i :: 0 <= i < |lead| ==> IsTrimmed(lead[i])
    requires forall i :: 0 <= i < |trail| ==> IsTrimmed(trail[i])
    ensures Trim(lead + core + trail) == core
  {
    assert lead + core + trail == lead + (core + trail);
    TrimStartAround(lead, core + trail);
    TrimEndAround(core, trail);
  }

  /** A token with no `\s` and no character at or below U+0020. */
  predicate IsToken(t: string) {
    |t| > 0 && forall i :: 0 <= i < |t| ==> !IsTrimmed(t[i])
  }

  /** Text made only of `\s`. */
  predicate IsWhitespace(w: string) {
    forall i :: 0 <= i < |w| ==> IsRegexSpace(w[i])
  }

  /** A token holds no `\s`, since every `\s` character is at or below U+0020. */
  lemma TokenHasNoSpace(t: string)
    requires IsToken(t)
    ensures NoSeparator(Spaces, t) && !IsRegexSpace(t[0])
  {
  }

  /** A token, white space, then more text beginning with a token. */
  lemma PiecesOfTokenThen(t: string, sp: string, rest: string)
    requires IsToken(t) && |sp| > 0 && IsWhitespace(sp)
    requires |rest| > 0 && !IsRegexSpace(rest[0])
    ensures Pieces(Spaces, t + sp + rest) == [t] + Pieces(Spaces, rest)
  {
    TokenHasNoSpace(t);
    assert IsSeparatorText(Spaces, sp);
    PiecesStep(Spaces, t, sp, rest);
  }

  /** Three tokens with white space between them are three pieces. */
  lemma SplitTokens(m: string, sp1: string, p: string, sp2: string, v: string)
    requires IsToken(m) && IsToken(p) && IsToken(v)
    requires |sp1| > 0 && |sp2| > 0 && IsWhitespace(sp1) && IsWhitespace(sp2)
    ensures Split(Spaces, m + sp1 + p + sp2 + v) == [m, p, v]
  {
    var tail := p + sp2 + v;
    assert m + sp1 + p + sp2 + v == m + sp1 + tail;
    TokenHasNoSpace(v);
    PiecesOfToken(Spaces, v);
    PiecesOfTokenThen(p, sp2, v);
    assert tail[0] == p[0];
    PiecesOfTokenThen(m, sp1, tail);
    SplitOfPieces(Spaces, m + sp1 + tail, [m, p, v]);
  }

  /**
   * A request line `method SP path SP version` (section 3.1.1 of RFC 7230),
   * with any white space around and between the parts, splits into its three
   * parts.
   */
  lemma SplitRequestLine(lead: string, m: string, sp1: string, p: string, sp2: string, v: string, trail: string)
    requires IsToken(m) && IsToken(p) && IsToken(v)
    requires |sp1| > 0 && |sp2| > 0 && IsWhitespace(sp1) && IsWhitespace(sp2)
    requires forall i :: 0 <= i < |lead| ==> IsTrimmed(lead[i])
    requires forall i :: 0 <= i < |trail| ==> IsTrimmed(trail[i])
    ensures Split(Spaces, Trim(lead + m + sp1 + p + sp2 + v + trail)) == [m, p, v]
  {
    var core := m + sp1 + p + sp2 + v;
    assert lead + m + sp1 + p + sp2 + v + trail == lead + core + trail;
    assert core[0] == m[0] && core[|core| - 1] == v[|v| - 1];
    TrimAround(lead, core, trail);
    SplitTokens(m, sp1, p, sp2, v);
  }

  /**
   * A header line `name ":" OWS value` (section 3.2 of RFC 7230) whose name and
   * value hold no colon splits into name and value.
   */
  lemma SplitHeaderLine(name: string, ows: string, value: string)
    requires NoSeparator(ColonSpaces, name) && NoSeparator(ColonSpaces, value)
    requires IsWhitespace(ows)
    requires |value| > 0 && !IsRegexSpace(value[0])
    ensures Split(ColonSpaces, name + ":" + ows + value) == [name, value]
  {
    var s := name + ":" + ows + value;
    assert s == name + (":" + ows) + value;
    PiecesOfToken(ColonSpaces, value);
    PiecesStep(ColonSpaces, name, ":" + ows, value);
    SplitOfPieces(ColonSpaces, s, [name, value]);
  }

  /**
   * A value with a colon in it, as in `Host: a:8124`, splits into three pieces,
   * not into name and value.
   */
  lemma SplitColonInValue(name: string, ows: string, a: string, b: string)
    requires NoSeparator(ColonSpaces, name) && NoSeparator(ColonSpaces, a) && NoSeparator(ColonSpaces, b)
    requires IsWhitespace(ows)
    requires |a| > 0 && !IsRegexSpace(a[0])
    requires |b| > 0 && !IsRegexSpace(b[0])
    ensures Split(ColonSpaces, name + ":" + ows + a + ":" + b) == [name, a, b]
  {
    var s := name + ":" + ows + a + ":" + b;
    assert s == name + (":" + ows) + (a + ":" + b);
    assert a + ":" + b == a + ":" + "" + b;
    PiecesOfToken(ColonSpaces, b);
    PiecesStep(ColonSpaces, a, ":", b);
    PiecesStep(ColonSpaces, name, ":" + ows, a + ":" + b);
    SplitOfPieces(ColonSpaces, s, [name, a, b]);
  }

  /** A header with nothing after the colon, as in `Name:`, splits into one piece. */
  lemma SplitEmptyValue(name: string, ows: string)
    requires |name| > 0 && NoSeparator(ColonSpaces, name)
    requires IsWhitespace(ows)
    ensures Split(ColonSpaces, name + ":" + ows) == [name]
  {
    var s := name + ":" + ows;
    assert s == name + (":" + ows) + "";
    PiecesStep(ColonSpaces, name, ":" + ows, "");
    assert Pieces(ColonSpaces, "") == [""];
    assert s[|name|] == ':';
    assert Pieces(ColonSpaces, s) == [name, ""];
    assert DropTrailingEmpty([name, ""]) == DropTrailingEmpty([name]);
  }
}
