/**
 * `java.util.StringTokenizer` as the track parser uses it (Landmarks.java line 319): the
 * tokens of a string are its maximal runs of characters that are not delimiters, in order.
 */
module Tokenizer {

  /** The delimiter set `" =<>\""` passed to the tokenizer. */
  predicate IsDelimiter(c: char)
  {
    c == ' ' || c == '=' || c == '<' || c == '>' || c == '"'
  }

  /** A non-empty string without delimiters: what a token looks like. */
  ghost predicate IsWord(w: string)
  {
    |w| > 0 && forall i :: 0 <= i < |w| ==> !IsDelimiter(w[i])
  }

  /** The length of the run of non-delimiters at the start of `s`. */
  function RunLength(s: string): (n: nat)
    ensures n <= |s|
    ensures forall i :: 0 <= i < n ==> !IsDelimiter(s[i])
    ensures n < |s| ==> IsDelimiter(s[n])
  {
    if s == [] || IsDelimiter(s[0]) then 0 else 1 + RunLength(s[1..])
  }

  /** The tokens `nextToken` returns one after the other until `hasMoreTokens` is false. */
  function Tokens(s: string): (r: seq<string>)
    ensures forall i :: 0 <= i < |r| ==> IsWord(r[i])
    decreases |s|
  {
    if s == [] then []
    else if IsDelimiter(s[0]) then Tokens(s[1..])
    else
      var n := RunLength(s);
      [s[..n]] + Tokens(s[n..])
  }

  /** Words separated by single spaces. */
  function JoinWords(ws: seq<string>): string
  {
    if ws == [] then "" else if |ws| == 1 then ws[0] else ws[0] + " " + JoinWords(ws[1..])
  }

  /** A word followed by a delimiter (or by nothing) is the first token. */
  lemma WordThenRest(w: string, rest: string)
    requires IsWord(w)
    requires rest == [] || IsDelimiter(rest[0])
    ensures Tokens(w + rest) == [w] + Tokens(rest)
  {
    var s := w + rest;
    RunLengthOfWord(w, rest);
    assert s[..|w|] == w && s[|w|..] == rest;
  }

  lemma {:induction false} RunLengthOfWord(w: string, rest: string)
    requires forall i :: 0 <= i < |w| ==> !IsDelimiter(w[i])
    requires rest == [] || IsDelimiter(rest[0])
    ensures RunLength(w + rest) == |w|
  {
    if w != [] {
      assert (w + rest)[1..] == w[1..] + rest;
      RunLengthOfWord(w[1..], rest);
    }
  }

  /** Tokenizing space-separated words gives the words back. */
  lemma {:induction false} TokensOfJoinedWords(ws: seq<string>)
    requires forall i :: 0 <= i < |ws| ==> IsWord(ws[i])
    ensures Tokens(JoinWords(ws)) == ws
  {
    if |ws| == 1 {
      WordThenRest(ws[0], "");
      assert ws[0] + "" == ws[0];
    } else if |ws| > 1 {
      var rest := JoinWords(ws[1..]);
      assert JoinWords(ws) == ws[0] + (" " + rest);
      WordThenRest(ws[0], " " + rest);
      assert (" " + rest)[1..] == rest;
      TokensOfJoinedWords(ws[1..]);
    }
  }

  // ---------------------------------------------------------------------------
  // The tokens are the maximal runs of non-delimiters, in order
  // ---------------------------------------------------------------------------

  /** A string of delimiters only (possibly empty). */
  ghost predicate IsGap(g: string)
  {
    forall i :: 0 <= i < |g| ==> IsDelimiter(g[i])
  }

  /** `gaps[0] + toks[0] + gaps[1] + ... + toks[n - 1] + gaps[n]`. */
  function Weave(gaps: seq<string>, toks: seq<string>): string
    requires |gaps| == |toks| + 1
    decreases |toks|
  {
    if toks == [] then gaps[0] else gaps[0] + toks[0] + Weave(gaps[1..], toks[1..])
  }

  /**
   * `s` is the tokens `toks` with the delimiter runs `gaps` around and between them, and every
   * gap between two tokens holds at least one delimiter, so no token can be extended.
   */
  ghost predicate SplitsInto(s: string, gaps: seq<string>, toks: seq<string>)
  {
    && |gaps| == |toks| + 1
    && Weave(gaps, toks) == s
    && (forall i :: 0 <= i < |gaps| ==> IsGap(gaps[i]))
    && (forall i :: 0 < i < |toks| ==> gaps[i] != [])
  }

  /** The gaps of `s` around its tokens; the first is non-empty when `s` starts with a delimiter. */
  lemma {:induction false} GapsOf(s: string) returns (gaps: seq<string>)
    ensures SplitsInto(s, gaps, Tokens(s))
    ensures s != [] && IsDelimiter(s[0]) ==> gaps[0] != []
    decreases |s|
  {
    if s == [] {
      gaps := [""];
    } else if IsDelimiter(s[0]) {
      var rest := GapsOf(s[1..]);
      gaps := LeadingDelimiter(s, rest);
    } else {
      var n := RunLength(s);
      var rest := GapsOf(s[n..]);
      gaps := LeadingRun(s, n, rest);
    }
  }

  /** A delimiter in front of a split string joins the first gap. */
  lemma LeadingDelimiter(s: string, rest: seq<string>) returns (gaps: seq<string>)
    requires s != [] && IsDelimiter(s[0]) && SplitsInto(s[1..], rest, Tokens(s[1..]))
    ensures SplitsInto(s, gaps, Tokens(s)) && gaps[0] != []
  {
    var toks := Tokens(s[1..]);
    gaps := [[s[0]] + rest[0]] + rest[1..];
    assert gaps[1..] == rest[1..];
    WeavePrepend([s[0]], rest, toks);
    assert [s[0]] + s[1..] == s;
    assert forall i :: 1 <= i < |gaps| ==> gaps[i] == rest[i];
  }

  /** Weaving with a longer first gap puts the extra text in front. */
  lemma WeavePrepend(c: string, gaps: seq<string>, toks: seq<string>)
    requires |gaps| == |toks| + 1
    ensures Weave([c + gaps[0]] + gaps[1..], toks) == c + Weave(gaps, toks)
  {
    var g := [c + gaps[0]] + gaps[1..];
    assert g[1..] == gaps[1..];
    if toks != [] {
      assert Weave(g, toks) == (c + gaps[0]) + toks[0] + Weave(gaps[1..], toks[1..]);
    }
  }

  /** A run of non-delimiters in front of a split string is a new first token after an empty gap. */
  lemma LeadingRun(s: string, n: nat, rest: seq<string>) returns (gaps: seq<string>)
    requires s != [] && !IsDelimiter(s[0]) && n == RunLength(s)
    requires SplitsInto(s[n..], rest, Tokens(s[n..]))
    requires s[n..] != [] && IsDelimiter(s[n..][0]) ==> rest[0] != []
    ensures SplitsInto(s, gaps, Tokens(s))
  {
    var toks := Tokens(s);
    gaps := [""] + rest;
    assert toks == [s[..n]] + Tokens(s[n..]);
    assert gaps[1..] == rest && toks[1..] == Tokens(s[n..]);
    assert Weave(gaps, toks) == "" + s[..n] + Weave(rest, Tokens(s[n..]));
    assert s[..n] + s[n..] == s;
    assert forall i :: 1 <= i < |gaps| ==> gaps[i] == rest[i - 1];
    if |toks| > 1 {
      assert s[n..] != [] && s[n..][0] == s[n];
    }
  }

  /**
   * Every string splits into its tokens and the delimiter runs around them, with at least one
   * delimiter between consecutive tokens: the tokens are the maximal runs of non-delimiters of
   * the string, in order.
   */
  lemma TokensAreMaximalRuns(s: string)
    ensures exists gaps :: SplitsInto(s, gaps, Tokens(s))
  {
    var gaps := GapsOf(s);
  }

  /** The characters of `s` that are not delimiters, in order. */
  function Strip(s: string): (r: string)
    ensures |r| <= |s|
  {
    if s == [] then "" else (if IsDelimiter(s[0]) then "" else [s[0]]) + Strip(s[1..])
  }

  /** The words one after the other. */
  function Concat(ws: seq<string>): string
  {
    if ws == [] then "" else ws[0] + Concat(ws[1..])
  }

  lemma {:induction false} StripAppend(a: string, b: string)
    ensures Strip(a + b) == Strip(a) + Strip(b)
    decreases |a|
  {
    if a != [] {
      assert (a + b)[0] == a[0] && (a + b)[1..] == a[1..] + b;
      StripAppend(a[1..], b);
      var head: string := if IsDelimiter(a[0]) then "" else [a[0]];
      assert Strip(a + b) == head + Strip(a[1..] + b);
      assert head + (Strip(a[1..]) + Strip(b)) == (head + Strip(a[1..])) + Strip(b);
    } else {
      assert a + b == b;
    }
  }

  lemma {:induction false} StripWord(w: string)
    requires forall i :: 0 <= i < |w| ==> !IsDelimiter(w[i])
    ensures Strip(w) == w
    decreases |w|
  {
    if w != [] {
      StripWord(w[1..]);
      assert [w[0]] + w[1..] == w;
    }
  }

  /** The tokens, put together, are the string with its delimiters removed: no character is lost or added. */
  lemma {:induction false} TokensKeepCharacters(s: string)
    ensures Concat(Tokens(s)) == Strip(s)
    decreases |s|
  {
    if s != [] {
      if IsDelimiter(s[0]) {
        TokensKeepCharacters(s[1..]);
      } else {
        var n := RunLength(s);
        TokensKeepCharacters(s[n..]);
        StripWord(s[..n]);
        StripAppend(s[..n], s[n..]);
        assert s[..n] + s[n..] == s;
        assert ([s[..n]] + Tokens(s[n..]))[1..] == Tokens(s[n..]);
      }
    }
  }
}
