/**
 * The three Python string builtins the edge-list parser relies on:
 * `s.split(sep)` for a one-character separator, `s.strip()` and `s.split()`
 * (both without arguments, so they act on runs of whitespace as `str.isspace`
 * defines it).
 */
module PyStr {

  /** A character for which Python's `str.isspace()` is true. */
  predicate IsSpace(c: char) {
    || c == ' '
    || ('\t' <= c <= '\r')                 // \t \n \v \f \r
    || ('\U{1c}' <= c <= '\U{1f}')         // file, group, record and unit separators
    || c == '\U{85}' || c == '\U{a0}' || c == '\U{1680}'
    || ('\U{2000}' <= c <= '\U{200a}')
    || c == '\U{2028}' || c == '\U{2029}' || c == '\U{202f}' || c == '\U{205f}' || c == '\U{3000}'
  }

  predicate AllSpace(s: string) {
    forall k | 0 <= k < |s| :: IsSpace(s[k])
  }

  /** A non-empty string without whitespace: what `s.split()` can return as one token. */
  predicate IsToken(t: string) {
    |t| > 0 && forall k | 0 <= k < |t| :: !IsSpace(t[k])
  }

  // ---------------------------------------------------------------------------
  // s.split(sep)

  /** Python's `s.split(sep)` for a single character `sep`: the pieces between separators, empty ones included. */
  function SplitOn(s: string, sep: char): (r: seq<string>)
    ensures |r| >= 1
    decreases |s|
  {
    if |s| == 0 then [""]
    else
      var rest := SplitOn(s[1..], sep);
      if s[0] == sep then [""] + rest
      else [[s[0]] + rest[0]] + rest[1..]
  }

  /** No piece contains the separator. */
  lemma {:induction false} SplitOnPieces(s: string, sep: char)
    ensures forall i | 0 <= i < |SplitOn(s, sep)| :: sep !in SplitOn(s, sep)[i]
    decreases |s|
  {
    if |s| > 0 {
      SplitOnPieces(s[1..], sep);
      var rest := SplitOn(s[1..], sep);
      if s[0] != sep {
        assert sep !in [s[0]] + rest[0];
      }
    }
  }

  /** The pieces of a whitespace-only text are whitespace-only. */
  lemma {:induction false} SplitOnAllSpace(s: string, sep: char)
    requires AllSpace(s)
    ensures forall i | 0 <= i < |SplitOn(s, sep)| :: AllSpace(SplitOn(s, sep)[i])
    decreases |s|
  {
    if |s| > 0 {
      assert AllSpace(s[1..]) by {
        forall k | 0 <= k < |s[1..]| ensures IsSpace(s[1..][k]) {
          assert s[1..][k] == s[k + 1];
        }
      }
      SplitOnAllSpace(s[1..], sep);
      var rest := SplitOn(s[1..], sep);
      if s[0] != sep {
        var first := [s[0]] + rest[0];
        assert AllSpace(first) by {
          forall k | 0 <= k < |first| ensures IsSpace(first[k]) {
            if k > 0 {
              assert first[k] == rest[0][k - 1];
            }
          }
        }
        assert SplitOn(s, sep) == [first] + rest[1..];
      }
    }
  }

  /** Python's `sep.join(pieces)`: the inverse of SplitOn. */
  function JoinOn(pieces: seq<string>, sep: char): string
  {
    if |pieces| == 0 then ""
    else if |pieces| == 1 then pieces[0]
    else pieces[0] + [sep] + JoinOn(pieces[1..], sep)
  }

  /** Splitting loses nothing: joining the pieces back gives the original text. */
  lemma {:induction false} JoinSplitOn(s: string, sep: char)
    ensures JoinOn(SplitOn(s, sep), sep) == s
    decreases |s|
  {
    if |s| > 0 {
      var rest := SplitOn(s[1..], sep);
      JoinSplitOn(s[1..], sep);
      if s[0] != sep && |rest| > 1 {
        var r := SplitOn(s, sep);
        assert r[1..] == rest[1..];
        assert JoinOn(rest, sep) == rest[0] + [sep] + JoinOn(rest[1..], sep);
        assert JoinOn(r, sep) == [s[0]] + rest[0] + [sep] + JoinOn(rest[1..], sep);
      }
      assert s == [s[0]] + s[1..];
    }
  }

  lemma {:induction false} SplitOnPiece(p: string, sep: char, t: string)
    requires sep !in p
    ensures SplitOn(p + t, sep) == [p + SplitOn(t, sep)[0]] + SplitOn(t, sep)[1..]
    decreases |p|
  {
    if |p| > 0 {
      assert (p + t)[1..] == p[1..] + t;
      SplitOnPiece(p[1..], sep, t);
      assert [p[0]] + (p[1..] + SplitOn(t, sep)[0]) == p + SplitOn(t, sep)[0];
    } else {
      assert p + t == t;
      assert p + SplitOn(t, sep)[0] == SplitOn(t, sep)[0];
    }
  }

  /** Pieces without the separator come back unchanged from a join followed by a split. */
  lemma {:induction false} SplitOnJoin(pieces: seq<string>, sep: char)
    requires |pieces| >= 1
    requires forall i | 0 <= i < |pieces| :: sep !in pieces[i]
    ensures SplitOn(JoinOn(pieces, sep), sep) == pieces
    decreases |pieces|
  {
    if |pieces| == 1 {
      SplitOnPiece(pieces[0], sep, "");
      assert pieces[0] + "" == pieces[0];
    } else {
      var t := [sep] + JoinOn(pieces[1..], sep);
      assert JoinOn(pieces, sep) == pieces[0] + t;
      SplitOnPiece(pieces[0], sep, t);
      assert t[1..] == JoinOn(pieces[1..], sep);
      SplitOnJoin(pieces[1..], sep);
      assert SplitOn(t, sep) == [""] + pieces[1..];
      assert pieces[0] + "" == pieces[0];
      assert pieces == [pieces[0]] + pieces[1..];
    }
  }

  // ---------------------------------------------------------------------------
  // s.strip()

  /** `s.lstrip()`: drop leading whitespace. */
  function LStrip(s: string): (r: string)
    ensures |r| <= |s|
    decreases |s|
  {
    if |s| > 0 && IsSpace(s[0]) then LStrip(s[1..]) else s
  }

  /** `s.rstrip()`: drop trailing whitespace. */
  function RStrip(s: string): (r: string)
    ensures |r| <= |s|
    decreases |s|
  {
    if |s| > 0 && IsSpace(s[|s| - 1]) then RStrip(s[..|s| - 1]) else s
  }

  /** `s.strip()`: drop whitespace at both ends. */
  function Strip(s: string): (r: string)
    ensures |r| <= |s|
  {
    RStrip(LStrip(s))
  }

  /** What `lstrip` keeps is a suffix, what it drops is whitespace, and what it keeps starts with a non-space. */
  lemma {:induction false} LStripFacts(s: string)
    ensures LStrip(s) == s[|s| - |LStrip(s)|..]
    ensures AllSpace(s[..|s| - |LStrip(s)|])
    ensures LStrip(s) != [] ==> !IsSpace(LStrip(s)[0])
    decreases |s|
  {
    if |s| > 0 && IsSpace(s[0]) {
      LStripFacts(s[1..]);
      var k := |s| - |LStrip(s)|;
      assert s[..k] == [s[0]] + s[1..][..k - 1];
    }
  }

  /** What `rstrip` keeps is a prefix, what it drops is whitespace, and what it keeps ends with a non-space. */
  lemma {:induction false} RStripFacts(s: string)
    ensures RStrip(s) == s[..|RStrip(s)|]
    ensures AllSpace(s[|RStrip(s)|..])
    ensures RStrip(s) != [] ==> !IsSpace(RStrip(s)[|RStrip(s)| - 1])
    decreases |s|
  {
    if |s| > 0 && IsSpace(s[|s| - 1]) {
      var init := s[..|s| - 1];
      RStripFacts(init);
      var k := |RStrip(s)|;
      assert s[k..] == init[k..] + [s[|s| - 1]];
    }
  }

  /** Neither end of `s.strip()` is whitespace. */
  lemma StripEnds(s: string)
    ensures Strip(s) != [] ==> !IsSpace(Strip(s)[0]) && !IsSpace(Strip(s)[|Strip(s)| - 1])
  {
    var l := LStrip(s);
    LStripFacts(s);
    RStripFacts(l);
    var r := RStrip(l);
    assert r != [] ==> r[0] == l[0];
  }

  // ---------------------------------------------------------------------------
  // s.split()

  /** Length of the leading run of non-whitespace characters. */
  function WordLength(s: string): (n: nat)
    ensures n <= |s|
  {
    if |s| == 0 || IsSpace(s[0]) then 0 else 1 + WordLength(s[1..])
  }

  /** The leading run is non-whitespace, and what follows it (if anything) is whitespace. */
  lemma {:induction false} WordLengthFacts(s: string)
    ensures forall k | 0 <= k < WordLength(s) :: !IsSpace(s[k])
    ensures WordLength(s) < |s| ==> IsSpace(s[WordLength(s)])
    decreases |s|
  {
    if |s| > 0 && !IsSpace(s[0]) {
      WordLengthFacts(s[1..]);
    }
  }

  /** Python's `s.split()`: the maximal runs of non-whitespace characters, in order. */
  function Split(s: string): seq<string>
    decreases |s|
  {
    if |s| == 0 then []
    else if IsSpace(s[0]) then Split(s[1..])
    else
      var n := WordLength(s);
      [s[..n]] + Split(s[n..])
  }

  /** Every part of `s.split()` is a non-empty run without whitespace. */
  lemma {:induction false} SplitTokens(s: string)
    ensures forall k | 0 <= k < |Split(s)| :: IsToken(Split(s)[k])
    decreases |s|
  {
    if |s| > 0 {
      if IsSpace(s[0]) {
        SplitTokens(s[1..]);
      } else {
        var n := WordLength(s);
        WordLengthFacts(s);
        SplitTokens(s[n..]);
      }
    }
  }

  /** A whitespace-only (or empty) string has no tokens. */
  lemma {:induction false} SplitAllSpace(w: string)
    requires AllSpace(w)
    ensures Split(w) == []
    decreases |w|
  {
    if |w| > 0 {
      SplitAllSpace(w[1..]);
    }
  }

  /** Leading whitespace does not change the tokens. */
  lemma {:induction false} SplitSpacePrefix(w: string, t: string)
    requires AllSpace(w)
    ensures Split(w + t) == Split(t)
    decreases |w|
  {
    if |w| > 0 {
      assert (w + t)[1..] == w[1..] + t;
      SplitSpacePrefix(w[1..], t);
    } else {
      assert w + t == t;
    }
  }

  /** A token followed by nothing or by whitespace is split off as it is. */
  lemma SplitToken(t: string, rest: string)
    requires IsToken(t)
    requires rest == [] || IsSpace(rest[0])
    ensures Split(t + rest) == [t] + Split(rest)
  {
    var s := t + rest;
    WordLengthOfToken(t, rest);
    assert s[..|t|] == t && s[|t|..] == rest;
  }

  lemma {:induction false} WordLengthOfToken(t: string, rest: string)
    requires forall k | 0 <= k < |t| :: !IsSpace(t[k])
    requires rest == [] || IsSpace(rest[0])
    ensures WordLength(t + rest) == |t|
    decreases |t|
  {
    if |t| > 0 {
      assert (t + rest)[1..] == t[1..] + rest;
      WordLengthOfToken(t[1..], rest);
    } else {
      assert t + rest == rest;
    }
  }

  /** Trailing whitespace does not change the tokens. */
  lemma {:induction false} SplitSpaceSuffix(t: string, w: string)
    requires AllSpace(w)
    ensures Split(t + w) == Split(t)
    decreases |t|
  {
    var s := t + w;
    if |t| == 0 {
      assert s == w;
      SplitAllSpace(w);
    } else if IsSpace(t[0]) {
      assert s[1..] == t[1..] + w;
      SplitSpaceSuffix(t[1..], w);
    } else {
      var n := WordLength(t);
      WordLengthFacts(t);
      var tok := t[..n];
      assert t == tok + t[n..];
      if n < |t| {
        SplitToken(tok, t[n..]);
        assert s == tok + (t[n..] + w);
        SplitToken(tok, t[n..] + w);
        SplitSpaceSuffix(t[n..], w);
      } else {
        assert t == tok;
        SplitToken(tok, w);
        SplitToken(tok, []);
        assert tok + [] == tok;
        SplitAllSpace(w);
      }
    }
  }

  lemma SplitLStrip(s: string)
    ensures Split(LStrip(s)) == Split(s)
  {
    var l := LStrip(s);
    LStripFacts(s);
    var front := s[..|s| - |l|];
    assert s == front + l;
    SplitSpacePrefix(front, l);
  }

  lemma SplitRStrip(s: string)
    ensures Split(RStrip(s)) == Split(s)
  {
    var r := RStrip(s);
    RStripFacts(s);
    var back := s[|r|..];
    assert s == r + back;
    SplitSpaceSuffix(r, back);
  }

  /** `line.strip().split()` is `line.split()`: the strip before the split changes nothing. */
  lemma SplitStrip(s: string)
    ensures Split(Strip(s)) == Split(s)
  {
    SplitLStrip(s);
    SplitRStrip(LStrip(s));
  }

  /** Python's `" ".join(tokens)`. */
  function JoinWords(tokens: seq<string>): string
  {
    if |tokens| == 0 then ""
    else if |tokens| == 1 then tokens[0]
    else tokens[0] + " " + JoinWords(tokens[1..])
  }

  /** Tokens joined by single spaces split back into the same tokens. */
  lemma {:induction false} SplitJoinWords(tokens: seq<string>)
    requires forall k | 0 <= k < |tokens| :: IsToken(tokens[k])
    ensures Split(JoinWords(tokens)) == tokens
    decreases |tokens|
  {
    if |tokens| == 1 {
      SplitToken(tokens[0], []);
      assert tokens[0] + [] == tokens[0];
    } else if |tokens| > 1 {
      var rest := " " + JoinWords(tokens[1..]);
      assert JoinWords(tokens) == tokens[0] + rest;
      SplitToken(tokens[0], rest);
      assert rest[1..] == JoinWords(tokens[1..]);
      SplitJoinWords(tokens[1..]);
      assert tokens == [tokens[0]] + tokens[1..];
    }
  }
}
