/** The parts of Rust's string library that the solvers' parsers rely on:
    `split` on a separator, `lines`, `trim`, `split_whitespace`, `find`, and
    integer `parse`. Strings are sequences of Unicode scalar values; the
    solvers only slice at indices that `find` and `split` return, so
    indexing by character instead of by UTF-8 byte does not change a result. */
module Text {
  import opened Wrappers

  // ---------------------------------------------------------------------------
  // split on a single separator
  // ---------------------------------------------------------------------------

  /** The pieces of `s` between occurrences of `sep`, as `split(sep)` yields
      them: empty pieces are kept, so there is always at least one piece. */
  function Split<T(==)>(s: seq<T>, sep: T): (pieces: seq<seq<T>>)
    ensures |pieces| >= 1
    decreases |s|
  {
    if s == [] then [[]]
    else
      var rest := Split(s[1..], sep);
      if s[0] == sep then [[]] + rest
      else [[s[0]] + rest[0]] + rest[1..]
  }

  /** The pieces glued back together with one separator between neighbours. */
  function Join<T>(pieces: seq<seq<T>>, sep: T): seq<T>
    requires |pieces| >= 1
  {
    if |pieces| == 1 then pieces[0] else pieces[0] + [sep] + Join(pieces[1..], sep)
  }

  /** Splitting loses nothing: the separators are exactly the glue between
      the pieces. */
  lemma {:induction false} SplitJoin<T>(s: seq<T>, sep: T)
    ensures Join(Split(s, sep), sep) == s
    decreases |s|
  {
    if |s| > 0 {
      var rest := Split(s[1..], sep);
      SplitJoin(s[1..], sep);
      if s[0] == sep {
        assert Split(s, sep) == [[]] + rest;
        JoinCons([], rest, sep);
      } else {
        assert Split(s, sep) == [[s[0]] + rest[0]] + rest[1..];
        JoinGrowFirst([s[0]], rest, sep);
      }
      assert [s[0]] + s[1..] == s;
    }
  }

  /** One more piece in front adds it and a separator in front of the join. */
  lemma {:induction false} JoinCons<T>(x: seq<T>, rest: seq<seq<T>>, sep: T)
    requires |rest| >= 1
    ensures Join([x] + rest, sep) == x + [sep] + Join(rest, sep)
  {
    assert ([x] + rest)[1..] == rest;
  }

  /** Growing the first piece at its front grows the join the same way. */
  lemma {:induction false} JoinGrowFirst<T>(x: seq<T>, rest: seq<seq<T>>, sep: T)
    requires |rest| >= 1
    ensures Join([x + rest[0]] + rest[1..], sep) == x + Join(rest, sep)
  {
    var first := [x + rest[0]] + rest[1..];
    var tail := rest[1..];
    if |rest| == 1 {
      assert |first| == 1 && first[0] == x + rest[0];
    } else {
      assert |first| > 1 && first[0] == x + rest[0] && first[1..] == tail;
      assert Join(first, sep) == (x + rest[0]) + [sep] + Join(tail, sep);
      assert Join(rest, sep) == rest[0] + [sep] + Join(tail, sep);
    }
  }

  /** No piece contains the separator, and there is one piece more than there
      are separators. */
  lemma {:induction false} SplitPieces<T>(s: seq<T>, sep: T)
    ensures forall k :: 0 <= k < |Split(s, sep)| ==> sep !in Split(s, sep)[k]
    ensures |Split(s, sep)| == multiset(s)[sep] + 1
    decreases |s|
  {
    if s != [] {
      SplitPieces(s[1..], sep);
      assert s == [s[0]] + s[1..];
      assert multiset(s) == multiset{s[0]} + multiset(s[1..]);
      var rest := Split(s[1..], sep);
      if s[0] != sep {
        assert Split(s, sep)[1..] == rest[1..];
      } else {
        assert Split(s, sep)[1..] == rest;
      }
    }
  }

  /** The other direction: pieces free of the separator come back unchanged
      when their join is split again. */
  lemma {:induction false} JoinSplit<T>(pieces: seq<seq<T>>, sep: T)
    requires |pieces| >= 1
    requires forall k :: 0 <= k < |pieces| ==> sep !in pieces[k]
    ensures Split(Join(pieces, sep), sep) == pieces
    decreases |pieces|
  {
    if |pieces| == 1 {
      SplitFree(pieces[0], sep);
    } else {
      JoinSplit(pieces[1..], sep);
      SplitAfterFree(pieces[0], Join(pieces[1..], sep), sep);
      assert [pieces[0]] + pieces[1..] == pieces;
    }
  }

  /** A sequence without the separator is a single piece. */
  lemma {:induction false} SplitFree<T>(a: seq<T>, sep: T)
    requires sep !in a
    ensures Split(a, sep) == [a]
    decreases |a|
  {
    if a != [] {
      SplitFree(a[1..], sep);
      assert [a[0]] + a[1..] == a;
    }
  }

  /** A separator-free prefix ended by a separator becomes the first piece. */
  lemma {:induction false} SplitAfterFree<T>(a: seq<T>, b: seq<T>, sep: T)
    requires sep !in a
    ensures Split(a + [sep] + b, sep) == [a] + Split(b, sep)
    decreases |a|
  {
    if a == [] {
      assert a + [sep] + b == [sep] + b;
      assert ([sep] + b)[1..] == b;
    } else {
      SplitAfterFree(a[1..], b, sep);
      assert (a + [sep] + b)[1..] == a[1..] + [sep] + b;
      assert [a[0]] + a[1..] == a;
    }
  }

  /** Gluing one more piece on adds a separator and that piece. */
  lemma {:induction false} JoinAppend<T>(pieces: seq<seq<T>>, last: seq<T>, sep: T)
    requires |pieces| >= 1
    ensures Join(pieces + [last], sep) == Join(pieces, sep) + [sep] + last
    decreases |pieces|
  {
    if |pieces| > 1 {
      JoinAppend(pieces[1..], last, sep);
      assert (pieces + [last])[1..] == pieces[1..] + [last];
    }
  }

  /** An element that is neither the separator nor in any piece is not in
      the joined text. */
  lemma {:induction false} JoinAvoids<T>(pieces: seq<seq<T>>, sep: T, x: T)
    requires |pieces| >= 1 && x != sep
    requires forall k :: 0 <= k < |pieces| ==> x !in pieces[k]
    ensures x !in Join(pieces, sep)
    decreases |pieces|
  {
    if |pieces| > 1 {
      JoinAvoids(pieces[1..], sep, x);
    }
  }

  /** A text ending in the separator splits into the pieces of the text
      before it and one more, empty, piece. */
  lemma {:induction false} SplitTrailingSeparator<T>(s: seq<T>, sep: T)
    ensures Split(s + [sep], sep) == Split(s, sep) + [[]]
  {
    var pieces := Split(s, sep);
    SplitJoin(s, sep);
    SplitPieces(s, sep);
    JoinAppend(pieces, [], sep);
    assert Join(pieces + [[]], sep) == s + [sep];
    JoinSplit(pieces + [[]], sep);
  }

  // ---------------------------------------------------------------------------
  // lines
  // ---------------------------------------------------------------------------

  /** Drops one trailing carriage return. */
  function StripCarriageReturn(line: string): string
  {
    if |line| > 0 && line[|line| - 1] == '\r' then line[..|line| - 1] else line
  }

  /** `str::lines`: the text is cut after every '\n'; a line ended by '\n'
      loses it and then one '\r' before it, a last line without '\n' is kept as
      it is, and a final empty piece (text ending in '\n', or empty text) is
      not a line. */
  function Lines(s: string): (lines: seq<string>)
    ensures |lines| == |Split(s, '\n')| || |lines| == |Split(s, '\n')| - 1
    ensures forall k :: 0 <= k < |lines| ==> '\n' !in lines[k]
  {
    var pieces := Split(s, '\n');
    var n := |pieces| - 1;
    SplitPieces(s, '\n');
    var ended := seq(n, k requires 0 <= k < n => StripCarriageReturn(pieces[k]));
    ended + (if pieces[n] == [] then [] else [pieces[n]])
  }

  /** The last piece is empty exactly when the text is empty or ends with the
      separator. */
  lemma {:induction false} LastPieceEmpty<T>(s: seq<T>, sep: T)
    ensures Split(s, sep)[|Split(s, sep)| - 1] == [] <==> (s == [] || s[|s| - 1] == sep)
    decreases |s|
  {
    if s != [] {
      var t := s[1..];
      var rest := Split(t, sep);
      LastPieceEmpty(t, sep);
      assert t != [] ==> s[|s| - 1] == t[|t| - 1];
      var pieces := Split(s, sep);
      if s[0] == sep || |rest| > 1 {
        assert pieces[|pieces| - 1] == rest[|rest| - 1];
      } else {
        assert pieces == [[s[0]] + rest[0]];
        SinglePiece(t, sep);
        assert t != [] ==> t[|t| - 1] in t;
      }
    }
  }

  /** A text that splits into one piece is that piece, and holds no
      separator. */
  lemma {:induction false} SinglePiece<T>(t: seq<T>, sep: T)
    requires |Split(t, sep)| == 1
    ensures Split(t, sep)[0] == t && sep !in t
  {
    SplitJoin(t, sep);
    SplitPieces(t, sep);
  }

  /** `lines()` yields one line per line feed, and one more for a last line
      without one: a line ended by '\n' is the text before it less one
      trailing '\r', and an unterminated last line is kept as it is. */
  lemma {:induction false} LinesMeans(s: string)
    ensures |Lines(s)| == multiset(s)['\n'] + (if s != [] && s[|s| - 1] != '\n' then 1 else 0)
    ensures forall k :: 0 <= k < multiset(s)['\n'] ==> Lines(s)[k] == StripCarriageReturn(Split(s, '\n')[k])
    ensures s != [] && s[|s| - 1] != '\n' ==> Lines(s)[|Lines(s)| - 1] == Split(s, '\n')[multiset(s)['\n']]
  {
    SplitPieces(s, '\n');
    LastPieceEmpty(s, '\n');
  }

  // ---------------------------------------------------------------------------
  // whitespace, trim, split_whitespace
  // ---------------------------------------------------------------------------

  /** `char::is_whitespace`: the characters with the Unicode White_Space
      property. */
  predicate IsWhitespace(c: char)
  {
    var n := c as int;
    (9 <= n <= 13) || n == 0x20 || n == 0x85 || n == 0xA0 || n == 0x1680
    || (0x2000 <= n <= 0x200A) || n == 0x2028 || n == 0x2029 || n == 0x202F
    || n == 0x205F || n == 0x3000
  }

  /** The text without its leading whitespace. */
  function TrimStart(s: string): (r: string)
    ensures |r| <= |s| && r == s[|s| - |r|..]
    ensures forall k :: 0 <= k < |s| - |r| ==> IsWhitespace(s[k])
    ensures r == [] || !IsWhitespace(r[0])
  {
    if s != [] && IsWhitespace(s[0]) then TrimStart(s[1..]) else s
  }

  /** The text without its trailing whitespace. */
  function TrimEnd(s: string): (r: string)
    ensures |r| <= |s| && r == s[..|r|]
    ensures forall k :: |r| <= k < |s| ==> IsWhitespace(s[k])
    ensures r == [] || !IsWhitespace(r[|r| - 1])
  {
    if s != [] && IsWhitespace(s[|s| - 1]) then TrimEnd(s[..|s| - 1]) else s
  }

  /** `str::trim`: whitespace removed from both ends. */
  function Trim(s: string): string
  {
    TrimEnd(TrimStart(s))
  }

  /** Trimming keeps a contiguous middle part of the text, everything cut off
      is whitespace, and the result neither starts nor ends with whitespace. */
  lemma {:induction false} TrimKeepsMiddle(s: string)
    ensures exists i, j ::
              && 0 <= i <= j <= |s| && Trim(s) == s[i..j]
              && (forall k :: 0 <= k < i ==> IsWhitespace(s[k]))
              && (forall k :: j <= k < |s| ==> IsWhitespace(s[k]))
    ensures Trim(s) == [] || (!IsWhitespace(Trim(s)[0]) && !IsWhitespace(Trim(s)[|Trim(s)| - 1]))
  {
    var i := |s| - |TrimStart(s)|;
    var j := i + |Trim(s)|;
    TrimCuts(s, i, j);
    assert && 0 <= i <= j <= |s| && Trim(s) == s[i..j]
           && (forall k :: 0 <= k < i ==> IsWhitespace(s[k]))
           && (forall k :: j <= k < |s| ==> IsWhitespace(s[k]));
    TrimEnds(s);
  }

  /** The trimmed text neither starts nor ends with whitespace. */
  lemma {:induction false} TrimEnds(s: string)
    ensures Trim(s) == [] || (!IsWhitespace(Trim(s)[0]) && !IsWhitespace(Trim(s)[|Trim(s)| - 1]))
  {
    var t := TrimStart(s);
    var e := TrimEnd(t);
    assert e != [] ==> e[0] == t[0];
  }

  /** Trimming cuts `i` characters at the front and keeps `j - i`. */
  lemma {:induction false} TrimCuts(s: string, i: nat, j: nat)
    requires i == |s| - |TrimStart(s)| && j == i + |Trim(s)|
    ensures 0 <= i <= j <= |s| && Trim(s) == s[i..j]
    ensures forall k :: 0 <= k < i ==> IsWhitespace(s[k])
    ensures forall k :: j <= k < |s| ==> IsWhitespace(s[k])
  {
    var t := TrimStart(s);
    var e := TrimEnd(t);
    assert Trim(s) == e;
    WhitespaceAfterCut(s, t, i, |e|);
    assert e == t[..|e|] == s[i..j];
  }

  /** The whitespace at the end of a suffix is whitespace at the end of the
      whole text. */
  lemma {:induction false} WhitespaceAfterCut(s: string, t: string, i: nat, n: nat)
    requires i <= |s| && t == s[i..] && n <= |t|
    requires forall k :: n <= k < |t| ==> IsWhitespace(t[k])
    ensures forall k :: i + n <= k < |s| ==> IsWhitespace(s[k])
  {
    forall k | i + n <= k < |s|
      ensures IsWhitespace(s[k])
    {
      assert s[k] == t[k - i];
    }
  }

  /** A token holds no whitespace character, the line feed and the space
      among them. */
  lemma {:induction false} TokenAvoids(t: string, c: char)
    requires IsToken(t) && IsWhitespace(c)
    ensures c !in t
  {
    assert forall k :: 0 <= k < |t| ==> !IsWhitespace(t[k]) && t[k] != c;
  }

  /** Trimming a text that is whitespace followed by a part that neither
      starts nor ends with whitespace gives that part. */
  lemma {:induction false} TrimPadded(w: string, t: string)
    requires AllWhitespace(w)
    requires t != [] && !IsWhitespace(t[0]) && !IsWhitespace(t[|t| - 1])
    ensures Trim(w + t) == t
  {
    var s := w + t;
    var r := TrimStart(s);
    var n := |s| - |r|;
    assert s[|w|] == t[0];
    assert n <= |w|;
    assert r == s[n..];
    assert r[0] == s[n];
    assert forall k :: 0 <= k < |w| ==> s[k] == w[k];
    assert n == |w|;
    assert r == t;
    var e := TrimEnd(t);
    assert |e| == |t|;
  }

  /** The length of the run of non-whitespace characters that starts `s`. */
  function TokenLength(s: string): (n: nat)
    ensures n <= |s|
    ensures forall k :: 0 <= k < n ==> !IsWhitespace(s[k])
    ensures n == |s| || IsWhitespace(s[n])
  {
    if s == [] || IsWhitespace(s[0]) then 0 else 1 + TokenLength(s[1..])
  }

  /** `str::split_whitespace`: the maximal runs of non-whitespace characters,
      in order. */
  function SplitWhitespace(s: string): (tokens: seq<string>)
    ensures forall t :: 0 <= t < |tokens| ==> tokens[t] != []
    ensures forall t, k :: 0 <= t < |tokens| && 0 <= k < |tokens[t]| ==> !IsWhitespace(tokens[t][k])
    decreases |s|
  {
    if s == [] then []
    else if IsWhitespace(s[0]) then SplitWhitespace(s[1..])
    else
      var n := TokenLength(s);
      [s[..n]] + SplitWhitespace(s[n..])
  }

  /** Every character is whitespace. */
  predicate AllWhitespace(w: string)
  {
    forall k :: 0 <= k < |w| ==> IsWhitespace(w[k])
  }

  /** A token as `split_whitespace` yields it: non-empty, without whitespace. */
  predicate IsToken(t: string)
  {
    t != [] && forall k :: 0 <= k < |t| ==> !IsWhitespace(t[k])
  }

  /** gaps[0] + tokens[0] + gaps[1] + ... + tokens[n - 1] + gaps[n]. */
  function Interleave(gaps: seq<string>, tokens: seq<string>): string
    requires |gaps| == |tokens| + 1
    decreases |tokens|
  {
    if tokens == [] then gaps[0] else gaps[0] + tokens[0] + Interleave(gaps[1..], tokens[1..])
  }

  /** Whitespace gaps around tokens, the gaps between two tokens not empty. */
  predicate Separates(gaps: seq<string>, tokens: seq<string>)
  {
    && |gaps| == |tokens| + 1
    && (forall i :: 0 <= i < |gaps| ==> AllWhitespace(gaps[i]))
    && (forall i :: 0 <= i < |tokens| ==> IsToken(tokens[i]))
    && (forall i :: 0 < i < |tokens| ==> gaps[i] != [])
  }

  /** Leading whitespace yields no token. */
  lemma {:induction false} SplitWhitespaceSkip(w: string, r: string)
    requires AllWhitespace(w)
    ensures SplitWhitespace(w + r) == SplitWhitespace(r)
    decreases |w|
  {
    if w != [] {
      assert (w + r)[0] == w[0] && (w + r)[1..] == w[1..] + r;
      assert AllWhitespace(w[1..]) by {
        assert forall k :: 0 <= k < |w| - 1 ==> w[1..][k] == w[k + 1];
      }
      SplitWhitespaceSkip(w[1..], r);
    } else {
      assert w + r == r;
    }
  }

  /** The run of non-whitespace at the front ends where whitespace or the
      text does. */
  lemma {:induction false} TokenLengthOf(t: string, r: string)
    requires forall k :: 0 <= k < |t| ==> !IsWhitespace(t[k])
    requires r == [] || IsWhitespace(r[0])
    ensures TokenLength(t + r) == |t|
    decreases |t|
  {
    if t != [] {
      assert (t + r)[1..] == t[1..] + r;
      TokenLengthOf(t[1..], r);
    } else {
      assert t + r == r;
    }
  }

  /** A token followed by whitespace or by the end is the next token. */
  lemma {:induction false} SplitWhitespaceToken(t: string, r: string)
    requires IsToken(t) && (r == [] || IsWhitespace(r[0]))
    ensures SplitWhitespace(t + r) == [t] + SplitWhitespace(r)
  {
    TokenLengthOf(t, r);
    assert (t + r)[..|t|] == t && (t + r)[|t|..] == r;
  }

  /** `split_whitespace` gives back exactly the tokens of a text built from
      tokens and whitespace gaps: nothing is split further or merged. */
  lemma {:induction false} SplitWhitespaceInterleave(gaps: seq<string>, tokens: seq<string>)
    requires Separates(gaps, tokens)
    ensures SplitWhitespace(Interleave(gaps, tokens)) == tokens
    decreases |tokens|
  {
    if tokens == [] {
      assert gaps[0] + [] == gaps[0];
      SplitWhitespaceSkip(gaps[0], []);
    } else {
      assert Separates(gaps[1..], tokens[1..]) by {
        assert forall i :: 0 < i < |tokens| - 1 ==> gaps[1..][i] == gaps[i + 1];
      }
      var rest := Interleave(gaps[1..], tokens[1..]);
      SplitWhitespaceInterleave(gaps[1..], tokens[1..]);
      if |tokens| > 1 {
        assert gaps[1] != [] && rest == gaps[1] + tokens[1] + Interleave(gaps[2..], tokens[2..]);
        assert rest[0] == gaps[1][0];
      }
      assert Interleave(gaps, tokens) == gaps[0] + (tokens[0] + rest);
      SplitWhitespaceSkip(gaps[0], tokens[0] + rest);
      SplitWhitespaceToken(tokens[0], rest);
      assert [tokens[0]] + tokens[1..] == tokens;
    }
  }

  /** A whitespace character in front of an interleaving joins its first gap. */
  lemma {:induction false} CoverWhitespaceStep(c: char, g: seq<string>, tokens: seq<string>)
    requires IsWhitespace(c) && Separates(g, tokens)
    ensures Separates([[c] + g[0]] + g[1..], tokens)
    ensures Interleave([[c] + g[0]] + g[1..], tokens) == [c] + Interleave(g, tokens)
  {
    var gaps := [[c] + g[0]] + g[1..];
    assert gaps[1..] == g[1..];
    assert forall i :: 0 < i < |gaps| ==> gaps[i] == g[i];
    assert AllWhitespace(gaps[0]) by {
      assert forall k :: 0 < k < |gaps[0]| ==> gaps[0][k] == g[0][k - 1];
    }
    if tokens != [] {
      assert Interleave(gaps, tokens) == [c] + (g[0] + tokens[0] + Interleave(g[1..], tokens[1..]));
    }
  }

  /** A token in front of an interleaving whose first gap is not empty
      (unless no token follows) becomes its first token, after an empty gap. */
  lemma {:induction false} CoverTokenStep(t: string, g: seq<string>, rest: seq<string>)
    requires IsToken(t) && Separates(g, rest) && (rest != [] ==> g[0] != [])
    ensures Separates([[]] + g, [t] + rest)
    ensures Interleave([[]] + g, [t] + rest) == t + Interleave(g, rest)
  {
    var gaps := [[]] + g;
    var tokens := [t] + rest;
    assert gaps[1..] == g && tokens[1..] == rest;
    assert forall i :: 0 < i < |gaps| ==> gaps[i] == g[i - 1];
    assert forall i :: 0 < i < |tokens| ==> tokens[i] == rest[i - 1];
    assert Interleave(gaps, tokens) == [] + t + Interleave(g, rest);
  }

  /** The whitespace runs of `s`, one before each token and one after the last. */
  ghost function Gaps(s: string): (gaps: seq<string>)
    ensures |gaps| == |SplitWhitespace(s)| + 1
    decreases |s|
  {
    if s == [] then [[]]
    else if IsWhitespace(s[0]) then
      var g := Gaps(s[1..]);
      [[s[0]] + g[0]] + g[1..]
    else [[]] + Gaps(s[TokenLength(s)..])
  }

  /** The gaps and tokens of `s` rebuild `s`. */
  ghost predicate GapsRebuild(s: string)
  {
    Separates(Gaps(s), SplitWhitespace(s)) && Interleave(Gaps(s), SplitWhitespace(s)) == s
    && (s != [] && IsWhitespace(s[0]) ==> Gaps(s)[0] != [])
  }

  lemma {:induction false} GapsWhitespaceCase(s: string)
    requires s != [] && IsWhitespace(s[0]) && GapsRebuild(s[1..])
    ensures GapsRebuild(s)
  {
    var g := Gaps(s[1..]);
    var tokens := SplitWhitespace(s[1..]);
    assert Gaps(s) == [[s[0]] + g[0]] + g[1..] && SplitWhitespace(s) == tokens;
    CoverWhitespaceStep(s[0], g, tokens);
    assert [s[0]] + s[1..] == s;
  }

  lemma {:induction false} GapsTokenCase(s: string)
    requires s != [] && !IsWhitespace(s[0]) && GapsRebuild(s[TokenLength(s)..])
    ensures GapsRebuild(s)
  {
    var n := TokenLength(s);
    var g := Gaps(s[n..]);
    var rest := SplitWhitespace(s[n..]);
    assert Gaps(s) == [[]] + g && SplitWhitespace(s) == [s[..n]] + rest;
    assert IsToken(s[..n]) by {
      assert forall k :: 0 <= k < n ==> s[..n][k] == s[k];
    }
    assert rest != [] ==> g[0] != [] by {
      if rest != [] {
        assert s[n..] != [] && s[n..][0] == s[n];
      }
    }
    CoverTokenStep(s[..n], g, rest);
    assert Interleave(Gaps(s), SplitWhitespace(s)) == s[..n] + s[n..];
    assert s[..n] + s[n..] == s;
  }

  lemma {:induction false} GapsSeparate(s: string)
    ensures GapsRebuild(s)
    decreases |s|
  {
    if s == [] {
    } else if IsWhitespace(s[0]) {
      GapsSeparate(s[1..]);
      GapsWhitespaceCase(s);
    } else {
      GapsSeparate(s[TokenLength(s)..]);
      GapsTokenCase(s);
    }
  }

  /** Every text is its tokens with whitespace gaps around them, so
      `split_whitespace` drops only whitespace. */
  lemma SplitWhitespaceCovers(s: string)
    ensures exists gaps :: Separates(gaps, SplitWhitespace(s)) && Interleave(gaps, SplitWhitespace(s)) == s
  {
    GapsSeparate(s);
  }

  // ---------------------------------------------------------------------------
  // find
  // ---------------------------------------------------------------------------

  /** `pat` occurs in `s` starting at index `i`. */
  predicate OccursAt<T(==)>(s: seq<T>, pat: seq<T>, i: int)
  {
    0 <= i && i + |pat| <= |s| && s[i..i + |pat|] == pat
  }

  /** The first occurrence of `pat` in `s` at or after `from`. */
  function FindFrom<T(==)>(s: seq<T>, pat: seq<T>, from: nat): (r: Option<nat>)
    ensures r.Some? ==> from <= r.value && OccursAt(s, pat, r.value)
    ensures forall k :: from <= k && (r.None? || k < r.value) ==> !OccursAt(s, pat, k)
    decreases |s| - from
  {
    if from + |pat| > |s| then None
    else if s[from..from + |pat|] == pat then Some(from)
    else FindFrom(s, pat, from + 1)
  }

  /** `str::find`: the index of the first occurrence of `pat`, if any. */
  function Find<T(==)>(s: seq<T>, pat: seq<T>): Option<nat>
  {
    FindFrom(s, pat, 0)
  }

  /** `Find` is determined by its contract: the first occurrence, or none. */
  lemma {:induction false} FindIsFirst<T>(s: seq<T>, pat: seq<T>, i: nat)
    requires OccursAt(s, pat, i)
    requires forall k :: 0 <= k < i ==> !OccursAt(s, pat, k)
    ensures Find(s, pat) == Some(i)
  {
  }

  /** A first occurrence that lies inside a prefix stays the first occurrence
      whatever follows the prefix. */
  lemma {:induction false} FindInPrefix<T>(a: seq<T>, b: seq<T>, pat: seq<T>)
    requires Find(a, pat).Some?
    ensures Find(a + b, pat) == Find(a, pat)
  {
    var i := Find(a, pat).value;
    assert (a + b)[i..i + |pat|] == a[i..i + |pat|];
    forall k | 0 <= k < i
      ensures !OccursAt(a + b, pat, k)
    {
      assert !OccursAt(a, pat, k);
      assert (a + b)[k..k + |pat|] == a[k..k + |pat|];
    }
    FindIsFirst(a + b, pat, i);
  }

  // ---------------------------------------------------------------------------
  // integer parse
  // ---------------------------------------------------------------------------

  predicate IsDigit(c: char)
  {
    '0' <= c <= '9'
  }

  predicate AllDigits(s: string)
  {
    forall k :: 0 <= k < |s| ==> IsDigit(s[k])
  }

  /** The value of a string of ASCII decimal digits. */
  function DigitsValue(ds: string): nat
    requires AllDigits(ds)
  {
    if ds == [] then 0 else DigitsValue(ds[..|ds| - 1]) * 10 + (ds[|ds| - 1] as int - '0' as int)
  }

  /** `str::parse` for an integer type whose values are `min..=max`: an
      optional '+' (or '-' when the type is signed) followed by at least one
      ASCII digit, with a value in range. */
  function ParseInteger(s: string, signed: bool, min: int, max: int): (r: Option<int>)
    ensures r.Some? ==> min <= r.value <= max
    ensures r.Some? ==> s != [] && (IsDigit(s[0]) || s[0] == '+' || (signed && s[0] == '-'))
  {
    if s == [] then None
    else
      var negative := signed && s[0] == '-';
      var digits := if s[0] == '+' || negative then s[1..] else s;
      if digits == [] || !AllDigits(digits) then None
      else
        var magnitude: int := DigitsValue(digits);
        var v := if negative then -magnitude else magnitude;
        if min <= v <= max then Some(v) else None
  }

  const U8_MAX: int := 0xFF
  const USIZE_MAX: int := 0xFFFF_FFFF_FFFF_FFFF
  const I32_MIN: int := -0x8000_0000
  const I32_MAX: int := 0x7FFF_FFFF

  function ParseU8(s: string): Option<int> { ParseInteger(s, false, 0, U8_MAX) }
  function ParseUsize(s: string): Option<int> { ParseInteger(s, false, 0, USIZE_MAX) }
  function ParseI32(s: string): Option<int> { ParseInteger(s, true, I32_MIN, I32_MAX) }

  /** The shortest decimal spelling of a natural number. */
  function DecimalString(n: nat): (ds: string)
    ensures ds != [] && AllDigits(ds)
  {
    if n < 10 then [('0' as int + n) as char]
    else DecimalString(n / 10) + [('0' as int + n % 10) as char]
  }

  lemma {:induction false} DecimalStringValue(n: nat)
    ensures DigitsValue(DecimalString(n)) == n
  {
    if n >= 10 {
      DecimalStringValue(n / 10);
      var ds := DecimalString(n);
      assert ds[..|ds| - 1] == DecimalString(n / 10);
    }
  }

  /** A character that is not a digit does not occur in a string of digits. */
  lemma {:induction false} DigitsAvoid(ds: string, c: char)
    requires AllDigits(ds) && !IsDigit(c)
    ensures c !in ds
  {
    assert forall k :: 0 <= k < |ds| ==> IsDigit(ds[k]) && ds[k] != c;
  }

  /** A single ASCII digit parses to its value in any type that holds it. */
  lemma {:induction false} DigitParses(c: char, signed: bool, min: int, max: int)
    requires IsDigit(c) && min <= c as int - '0' as int <= max
    ensures ParseInteger([c], signed, min, max) == Some(c as int - '0' as int)
  {
    var digits := [c];
    assert digits[0] == c && c != '+' && c != '-';
    assert AllDigits(digits);
    assert digits[..0] == [];
    assert DigitsValue(digits) == DigitsValue([]) * 10 + (c as int - '0' as int);
  }

  /** Parsing is the inverse of printing: every in-range number, written in
      decimal with a '-' when it is negative, parses back to itself. */
  lemma {:induction false} ParsePrinted(v: int, signed: bool, min: int, max: int)
    requires min <= v <= max
    requires v < 0 ==> signed
    ensures v >= 0 ==> ParseInteger(DecimalString(v), signed, min, max) == Some(v)
    ensures v < 0 ==> ParseInteger("-" + DecimalString(-v), signed, min, max) == Some(v)
  {
    if v >= 0 {
      DecimalStringValue(v);
    } else {
      DecimalStringValue(-v);
      assert ("-" + DecimalString(-v))[1..] == DecimalString(-v);
    }
  }

  /** The signs `str::parse` accepts in front of the digits: none, '+', or
      '-' for a signed type. */
  predicate IsSign(sign: string, signed: bool)
  {
    sign == "" || sign == "+" || (signed && sign == "-")
  }

  /** The value of digits after a sign. */
  function SignedValue(sign: string, ds: string): int
    requires AllDigits(ds)
  {
    var magnitude: int := DigitsValue(ds);
    if sign == "-" then -magnitude else magnitude
  }

  /** A successful parse read an accepted sign followed by at least one
      digit, and its value is the signed value of those digits. */
  lemma {:induction false} ParseIntegerSound(s: string, signed: bool, min: int, max: int)
    ensures ParseInteger(s, signed, min, max).Some? ==>
              exists sign, ds ::
                && IsSign(sign, signed) && ds != [] && AllDigits(ds) && s == sign + ds
                && ParseInteger(s, signed, min, max).value == SignedValue(sign, ds)
  {
    if ParseInteger(s, signed, min, max).Some? {
      var n := if s[0] == '+' || (signed && s[0] == '-') then 1 else 0;
      var sign, ds := s[..n], s[n..];
      assert s == sign + ds;
      assert IsSign(sign, signed) && ds != [] && AllDigits(ds);
      assert ParseInteger(s, signed, min, max).value == SignedValue(sign, ds);
    }
  }

  /** Conversely, every accepted sign followed by digits parses, leading
      zeros and a '+' included, exactly when its value is in range. */
  lemma {:induction false} ParseIntegerComplete(sign: string, ds: string, signed: bool, min: int, max: int)
    requires IsSign(sign, signed) && ds != [] && AllDigits(ds)
    ensures ParseInteger(sign + ds, signed, min, max)
            == if min <= SignedValue(sign, ds) <= max then Some(SignedValue(sign, ds)) else None
  {
    var s := sign + ds;
    assert IsDigit(ds[0]);
    if sign == "" {
      assert s == ds && s[0] == ds[0];
    } else {
      assert s[0] == sign[0] && s[1..] == ds;
    }
  }

  /** The spellings `str::parse` accepts besides the shortest one, and a
      value one past the range of `u8`. */
  lemma {:induction false} ParseOtherSpellings()
    ensures ParseU8("+5") == Some(5)
    ensures ParseU8("007") == Some(7)
    ensures ParseU8("256") == None
  {
    ParseIntegerComplete("+", "5", false, 0, U8_MAX);
    assert "+" + "5" == "+5";
    assert "007"[..2] == "00" && "00"[..1] == "0" && "0"[..0] == [];
    assert DigitsValue("007") == 7;
    ParseIntegerComplete("", "007", false, 0, U8_MAX);
    assert "" + "007" == "007";
    assert "256"[..2] == "25" && "25"[..1] == "2" && "2"[..0] == [];
    assert DigitsValue("256") == 256;
    ParseIntegerComplete("", "256", false, 0, U8_MAX);
    assert "" + "256" == "256";
  }
}
