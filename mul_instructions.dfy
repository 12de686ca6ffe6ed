/** The corrupted multiplication program of aoc_2024/src/bin/day3.rs.

    The only instructions that count are exact `mul(X,Y)` with X and Y of one
    to three ASCII digits; `multiply` sums their products. In
    `conditional_multiply`, a `don't()` switches counting off until the next
    `do()`. */
module MulInstructions {
  import opened Wrappers
  import Text

  const MulOpen: string := "mul("
  const Dont: string := "don't()"
  const Do: string := "do()"

  // ---------------------------------------------------------------------------
  // The fixed pattern mul(\d{1,3},\d{1,3})
  // ---------------------------------------------------------------------------

  /** The two captured factor texts of one match. */
  datatype MulMatch = MulMatch(first: string, second: string)

  /** One to three ASCII digits (`\d{1,3}`, ASCII digits only). */
  predicate ValidFactor(ds: string)
  {
    1 <= |ds| <= 3 && Text.AllDigits(ds)
  }

  /** The text of the instruction with the given factor texts. */
  function MulText(a: string, b: string): string
  {
    MulOpen + a + "," + b + ")"
  }

  function Pow10(n: nat): nat
  {
    if n == 0 then 1 else 10 * Pow10(n - 1)
  }

  lemma {:induction false} DigitsBelow(ds: string)
    requires Text.AllDigits(ds)
    ensures Text.DigitsValue(ds) < Pow10(|ds|)
  {
    if ds != [] {
      DigitsBelow(ds[..|ds| - 1]);
    }
  }

  /** A factor is at most 999. */
  lemma {:induction false} FactorBound(ds: string)
    requires ValidFactor(ds)
    ensures Text.DigitsValue(ds) <= 999
  {
    DigitsBelow(ds);
  }

  /** The length of the run of ASCII digits at the start of t. */
  function DigitRun(t: string): (n: nat)
    ensures n <= |t| && Text.AllDigits(t[..n])
    ensures n < |t| ==> !Text.IsDigit(t[n])
  {
    if t == [] || !Text.IsDigit(t[0]) then 0
    else
      var n := 1 + DigitRun(t[1..]);
      assert t[..n] == [t[0]] + t[1..][..n - 1];
      n
  }

  /** The match of the pattern at the start of t, if any. The regex's greedy
      `\d{1,3}` followed by ',' (or ')') matches exactly when the whole digit
      run has one to three digits and the next character is ',' (or ')'). */
  function MatchPrefix(t: string): (r: Option<MulMatch>)
    ensures r.Some? ==> ValidFactor(r.value.first) && ValidFactor(r.value.second)
  {
    if |t| < 4 || t[..4] != MulOpen then None
    else
      var n1 := DigitRun(t[4..]);
      var c := 4 + n1;
      if n1 < 1 || n1 > 3 || c >= |t| || t[c] != ',' then None
      else
        var n2 := DigitRun(t[c + 1..]);
        var e := c + 1 + n2;
        if n2 < 1 || n2 > 3 || e >= |t| || t[e] != ')' then None
        else
          var a, b := t[4..c], t[c + 1..e];
          assert a == t[4..][..n1] && b == t[c + 1..][..n2];
          Some(MulMatch(a, b))
  }

  /** A match is the instruction text at the start of t. */
  lemma {:induction false} MatchSound(t: string)
    ensures MatchPrefix(t).Some? ==>
              && |MulText(MatchPrefix(t).value.first, MatchPrefix(t).value.second)| <= |t|
              && t[..|MulText(MatchPrefix(t).value.first, MatchPrefix(t).value.second)|]
                 == MulText(MatchPrefix(t).value.first, MatchPrefix(t).value.second)
  {
    if MatchPrefix(t).Some? {
      var c := 4 + DigitRun(t[4..]);
      var e := c + 1 + DigitRun(t[c + 1..]);
      assert MatchPrefix(t).value == MulMatch(t[4..c], t[c + 1..e]);
      assert t[..e + 1] == t[..4] + t[4..c] + [t[c]] + t[c + 1..e] + [t[e]];
    }
  }

  lemma {:induction false} MatchStartsWithMulOpen(t: string)
    ensures MatchPrefix(t).Some? ==> |t| >= 4 && t[..4] == MulOpen
  {
  }

  lemma {:induction false} DigitRunExact(u: string, a: string)
    requires Text.AllDigits(a) && |a| < |u| && u[..|a|] == a && !Text.IsDigit(u[|a|])
    ensures DigitRun(u) == |a|
  {
    if a != [] {
      assert u[0] == a[0];
      assert u[1..][..|a| - 1] == a[1..];
      DigitRunExact(u[1..], a[1..]);
    }
  }

  /** The pieces of an instruction text, by position. */
  lemma {:induction false} MulTextParts(a: string, b: string)
    ensures var m := MulText(a, b);
            && |m| == 6 + |a| + |b|
            && m[..4] == MulOpen
            && m[4..4 + |a|] == a && m[4 + |a|] == ','
            && m[5 + |a|..5 + |a| + |b|] == b && m[5 + |a| + |b|] == ')'
  {
    var m := MulText(a, b);
    assert m == MulOpen + a + [','] + b + [')'];
  }

  /** A factor written at position p of t and followed by a non-digit is the
      whole digit run there. */
  lemma {:induction false} FactorRunAt(t: string, p: nat, a: string)
    requires Text.AllDigits(a) && p + |a| < |t|
    requires t[p..p + |a|] == a && !Text.IsDigit(t[p + |a|])
    ensures DigitRun(t[p..]) == |a|
  {
    var u := t[p..];
    assert u[..|a|] == t[p..p + |a|];
    assert u[|a|] == t[p + |a|];
    DigitRunExact(u, a);
  }

  /** The other direction: a text that starts with an instruction with valid
      factors matches with exactly those factors. */
  lemma {:induction false} MatchComplete(t: string, a: string, b: string)
    requires ValidFactor(a) && ValidFactor(b)
    requires |MulText(a, b)| <= |t| && t[..|MulText(a, b)|] == MulText(a, b)
    ensures MatchPrefix(t) == Some(MulMatch(a, b))
  {
    var m := MulText(a, b);
    MulTextParts(a, b);
    var c := 4 + |a|;
    var e := c + 1 + |b|;
    assert t[..4] == m[..4];
    assert t[4..c] == m[4..c];
    assert t[c] == m[c];
    assert t[c + 1..e] == m[c + 1..e];
    assert t[e] == m[e];
    FactorRunAt(t, 4, a);
    FactorRunAt(t, c + 1, b);
  }

  /** Inside an instruction text only the first character is 'm', and no
      character is 'd'. */
  lemma {:induction false} MulTextChars(a: string, b: string)
    requires Text.AllDigits(a) && Text.AllDigits(b)
    ensures forall k :: 0 <= k < |MulText(a, b)| ==> MulText(a, b)[k] != 'd'
    ensures forall k :: 0 < k < |MulText(a, b)| ==> MulText(a, b)[k] != 'm'
  {
    var m := MulText(a, b);
    forall k | 0 <= k < |m|
      ensures m[k] != 'd' && (k > 0 ==> m[k] != 'm')
    {
      if 4 <= k < 4 + |a| {
        assert m[k] == a[k - 4];
      } else if 5 + |a| <= k < 5 + |a| + |b| {
        assert m[k] == b[k - 5 - |a|];
      }
    }
  }

  function MatchAt(s: string, i: nat): Option<MulMatch>
    requires i <= |s|
  {
    MatchPrefix(s[i..])
  }

  function MatchLength(m: MulMatch): nat
  {
    |MulText(m.first, m.second)|
  }

  /** The product an instruction at the start of t contributes (0 if none). */
  function ValueAt(t: string): nat
  {
    match MatchPrefix(t)
    case None => 0
    case Some(m) => Text.DigitsValue(m.first) * Text.DigitsValue(m.second)
  }

  /** The sum of the products of the instructions at positions i and later. */
  function MulFrom(s: string, i: nat): nat
    requires i <= |s|
    decreases |s| - i
  {
    if i == |s| then 0 else ValueAt(s[i..]) + MulFrom(s, i + 1)
  }

  /** The sum over every position where an instruction starts. */
  function MulSum(s: string): nat
  {
    MulFrom(s, 0)
  }

  // ---------------------------------------------------------------------------
  // multiply
  // ---------------------------------------------------------------------------

  /** No instruction starts strictly inside another one. */
  lemma {:induction false} NoMatchInside(s: string, i: nat, j: nat)
    requires i < j <= |s|
    requires MatchAt(s, i).Some? && j < i + MatchLength(MatchAt(s, i).value)
    ensures MatchAt(s, j).None?
  {
    var m := MatchAt(s, i).value;
    MatchSound(s[i..]);
    MulTextChars(m.first, m.second);
    assert s[j] == s[i..][..MatchLength(m)][j - i];
    MatchStartsWithMulOpen(s[j..]);
    assert |s[j..]| >= 4 ==> s[j..][..4][0] == s[j];
  }

  lemma {:induction false} MulFromSkip(s: string, i: nat, j: nat)
    requires i <= j <= |s|
    requires forall k :: i <= k < j ==> MatchAt(s, k).None?
    ensures MulFrom(s, i) == MulFrom(s, j)
    decreases j - i
  {
    if i < j {
      assert MatchAt(s, i).None?;
      MulFromSkip(s, i + 1, j);
    }
  }

  /** `multiply`: the instructions taken leftmost first, without overlap, as
      `captures_iter` yields them, each adding its product. The total is the
      sum over all positions where an instruction starts. */
  method Multiply(s: string) returns (answer: nat)
    ensures answer == MulSum(s)
  {
    answer := 0;
    var i := 0;
    while i < |s|
      invariant i <= |s|
      invariant answer + MulFrom(s, i) == MulSum(s)
    {
      var m := MatchAt(s, i);
      if m.Some? {
        var next := i + MatchLength(m.value);
        forall j | i + 1 <= j < next
          ensures MatchAt(s, j).None?
        {
          NoMatchInside(s, i, j);
        }
        MulFromSkip(s, i + 1, next);
        answer := answer + Text.DigitsValue(m.value.first) * Text.DigitsValue(m.value.second);
        i := next;
      } else {
        i := i + 1;
      }
    }
  }

  /** Text without "mul(" multiplies to 0. */
  lemma {:induction false} NoMulFromZero(s: string, i: nat)
    requires i <= |s| && Text.Find(s, MulOpen).None?
    ensures MulFrom(s, i) == 0
    decreases |s| - i
  {
    if i < |s| {
      NoMulFromZero(s, i + 1);
      assert !Text.OccursAt(s, MulOpen, i);
    }
  }

  lemma {:induction false} NoMulZero(s: string)
    requires Text.Find(s, MulOpen).None?
    ensures MulSum(s) == 0
  {
    NoMulFromZero(s, 0);
  }

  /** Appending text that starts with 'd' cannot complete or extend an
      instruction. */
  lemma {:induction false} MatchPrefixExtend(t: string, u: string)
    requires u != [] && u[0] == 'd'
    ensures MatchPrefix(t + u) == MatchPrefix(t)
  {
    if MatchPrefix(t).Some? {
      var m := MatchPrefix(t).value;
      MatchSound(t);
      assert (t + u)[..MatchLength(m)] == t[..MatchLength(m)];
      MatchComplete(t + u, m.first, m.second);
    } else {
      MatchPrefixShrink(t, u);
    }
  }

  lemma {:induction false} MatchPrefixShrink(t: string, u: string)
    requires u != [] && u[0] == 'd'
    ensures MatchPrefix(t + u).Some? ==> MatchPrefix(t) == MatchPrefix(t + u)
  {
    if MatchPrefix(t + u).Some? {
      var m := MatchPrefix(t + u).value;
      var n := MatchLength(m);
      MatchSound(t + u);
      MulTextChars(m.first, m.second);
      var k := if |t| < n then |t| else 0;
      assert (t + u)[..n][k] == (t + u)[k];
      assert n <= |t|;
      assert (t + u)[..n] == t[..n];
      MatchComplete(t, m.first, m.second);
    }
  }

  lemma {:induction false} MulFromShift(a: string, b: string, j: nat)
    requires j <= |b|
    ensures MulFrom(a + b, |a| + j) == MulFrom(b, j)
    decreases |b| - j
  {
    if j < |b| {
      MulFromShift(a, b, j + 1);
      assert (a + b)[|a| + j..] == b[j..];
    }
  }

  lemma {:induction false} MulFromConcat(a: string, b: string, i: nat)
    requires b != [] && b[0] == 'd' && i <= |a|
    ensures MulFrom(a + b, i) == MulFrom(a, i) + MulFrom(b, 0)
    decreases |a| - i
  {
    if i == |a| {
      MulFromShift(a, b, 0);
    } else {
      MulFromConcat(a, b, i + 1);
      assert (a + b)[i..] == a[i..] + b;
      MatchPrefixExtend(a[i..], b);
    }
  }

  /** Cutting the text just before a 'd' (where every `don't()` and `do()`
      starts) splits the sum: no instruction spans the cut. */
  lemma {:induction false} MulSumConcat(a: string, b: string)
    requires b != [] && b[0] == 'd'
    ensures MulSum(a + b) == MulSum(a) + MulSum(b)
  {
    MulFromConcat(a, b, 0);
  }

  // ---------------------------------------------------------------------------
  // conditional_multiply
  // ---------------------------------------------------------------------------

  /** In text that starts with `don't()`, the first `do()` is not at 0. */
  lemma {:induction false} DoAfterDont(s: string)
    requires Text.OccursAt(s, Dont, 0)
    ensures Text.Find(s, Do).Some? ==> Text.Find(s, Do).value > 0
  {
    assert s[..|Dont|][2] == s[2] == 'n';
    assert |s| >= |Do| ==> s[..|Do|][2] == s[2];
    assert !Text.OccursAt(s, Do, 0);
  }

  /** The sum `conditional_multiply` computes: the products before the first
      `don't()`, then, from the first `do()` after it, the same again; with
      no `do()` after it, the rest is ignored. */
  function ConditionalSum(s: string): nat
    decreases |s|
  {
    match Text.Find(s, Dont)
    case None => MulSum(s)
    case Some(d) =>
      var rest := s[d..];
      assert rest[..|Dont|] == s[d..d + |Dont|];
      DoAfterDont(rest);
      match Text.Find(rest, Do)
      case None => MulSum(s[..d])
      case Some(e) => MulSum(s[..d]) + ConditionalSum(rest[e..])
  }

  /** `conditional_multiply`: the loop over the remaining slice `s`, which
      drops each chunk before a `don't()` after multiplying it and then skips
      to the next `do()`. */
  method ConditionalMultiply(input: string) returns (answer: nat)
    ensures answer == ConditionalSum(input)
  {
    var s := input;
    answer := 0;
    while true
      invariant answer + ConditionalSum(s) == ConditionalSum(input)
      decreases |s|
    {
      var dontIdx := Text.Find(s, Dont);
      if dontIdx.None? {
        break;
      }
      var d := dontIdx.value;
      var product := Multiply(s[..d]);
      answer := answer + product;
      ghost var before := s;
      s := s[d..];
      assert s[..|Dont|] == before[d..d + |Dont|];
      DoAfterDont(s);
      var doIdx := Text.Find(s, Do);
      if doIdx.Some? {
        s := s[doIdx.value..];
      } else {
        s := "";
        break;
      }
    }
    var product := Multiply(s);
    answer := answer + product;
  }

  /** Without any `don't()`, every instruction counts. */
  lemma {:induction false} NoDontCountsAll(s: string)
    requires Text.Find(s, Dont).None?
    ensures ConditionalSum(s) == MulSum(s)
  {
  }

  /** Switching instructions off can only lower the sum. */
  lemma {:induction false} ConditionalAtMostAll(s: string)
    ensures ConditionalSum(s) <= MulSum(s)
    decreases |s|
  {
    match Text.Find(s, Dont)
    case None =>
    case Some(d) =>
      var rest := s[d..];
      assert rest[..|Dont|] == s[d..d + |Dont|];
      assert s == s[..d] + rest;
      MulSumConcat(s[..d], rest);
      DoAfterDont(rest);
      match Text.Find(rest, Do)
      case None =>
      case Some(e) =>
        assert rest == rest[..e] + rest[e..];
        assert rest[e..][0] == Do[0];
        MulSumConcat(rest[..e], rest[e..]);
        ConditionalAtMostAll(rest[e..]);
  }

  /** A pattern whose first character occurs nowhere else in it is first
      found where it starts the second part, when the first part lacks it. */
  lemma {:induction false} FindAtJoin(a: string, b: string, pat: string)
    requires pat != [] && forall k :: 0 < k < |pat| ==> pat[k] != pat[0]
    requires Text.Find(a, pat).None? && Text.OccursAt(b, pat, 0)
    ensures Text.Find(a + b, pat) == Some(|a|)
  {
    assert (a + b)[|a|..|a| + |pat|] == b[..|pat|];
    forall k | 0 <= k < |a|
      ensures !Text.OccursAt(a + b, pat, k)
    {
      if k + |pat| <= |a| {
        assert !Text.OccursAt(a, pat, k);
        assert (a + b)[k..k + |pat|] == a[k..k + |pat|];
      } else {
        assert (a + b)[|a|] == b[0] == pat[0] != pat[|a| - k];
        assert k + |pat| <= |a + b| ==> (a + b)[k..k + |pat|][|a| - k] == (a + b)[|a|];
      }
    }
    Text.FindIsFirst(a + b, pat, |a|);
  }

  /** Text from a `don't()` up to the next `do()` contributes nothing: with
      no `don't()` in a, and b starting with `don't()` and holding no `do()`,
      the instructions in b are skipped and counting resumes at c. */
  lemma {:induction false} DisabledSpanIgnored(a: string, b: string, c: string)
    requires Text.Find(a, Dont).None?
    requires Text.OccursAt(b, Dont, 0) && Text.Find(b, Do).None?
    requires Text.OccursAt(c, Do, 0)
    ensures ConditionalSum(a + b + c) == MulSum(a) + ConditionalSum(c)
  {
    var s := a + b + c;
    assert s == a + (b + c);
    assert (b + c)[..|Dont|] == b[..|Dont|];
    FindAtJoin(a, b + c, Dont);
    assert s[|a|..] == b + c && s[..|a|] == a;
    FindAtJoin(b, c, Do);
    assert (b + c)[|b|..] == c;
  }

  /** After a `don't()` with no `do()` anywhere later, the rest is ignored. */
  lemma {:induction false} TrailingDisabledIgnored(a: string, b: string)
    requires Text.Find(a, Dont).None?
    requires Text.OccursAt(b, Dont, 0) && Text.Find(b, Do).None?
    ensures ConditionalSum(a + b) == MulSum(a)
  {
    FindAtJoin(a, b, Dont);
    assert (a + b)[|a|..] == b && (a + b)[..|a|] == a;
  }

  // ---------------------------------------------------------------------------
  // Reading a text left to right, and the examples of the tests
  // ---------------------------------------------------------------------------

  /** Text without 'm' starts no instruction. */
  lemma {:induction false} SkipPlain(p: string, r: string)
    requires forall k :: 0 <= k < |p| ==> p[k] != 'm'
    ensures MulSum(p + r) == MulSum(r)
  {
    forall k | 0 <= k < |p|
      ensures MatchAt(p + r, k).None?
    {
      MatchStartsWithMulOpen((p + r)[k..]);
      assert |(p + r)[k..]| >= 4 ==> (p + r)[k..][..4][0] == p[k];
    }
    MulFromSkip(p + r, 0, |p|);
    MulFromShift(p, r, 0);
  }

  /** A character where no instruction starts adds nothing. */
  lemma {:induction false} SkipBroken(r: string)
    requires r != [] && MatchPrefix(r).None?
    ensures MulSum(r) == MulSum(r[1..])
  {
    assert r == [r[0]] + r[1..];
    MulFromShift([r[0]], r[1..], 0);
  }

  /** An instruction at the front is matched there, and no instruction
      starts inside it. */
  lemma {:induction false} InstructionBodySkipped(a: string, b: string, r: string)
    requires ValidFactor(a) && ValidFactor(b)
    ensures MatchAt(MulText(a, b) + r, 0) == Some(MulMatch(a, b))
    ensures MulFrom(MulText(a, b) + r, 1) == MulFrom(MulText(a, b) + r, |MulText(a, b)|)
  {
    var s := MulText(a, b) + r;
    var n := |MulText(a, b)|;
    assert s[..n] == MulText(a, b);
    MatchComplete(s, a, b);
    forall j | 0 < j < n
      ensures MatchAt(s, j).None?
    {
      NoMatchInside(s, 0, j);
    }
    MulFromSkip(s, 1, n);
  }

  /** An instruction at the front adds its product, and reading resumes
      after it. */
  lemma {:induction false} TakeInstruction(a: string, b: string, r: string)
    requires ValidFactor(a) && ValidFactor(b)
    ensures MulSum(MulText(a, b) + r) == Text.DigitsValue(a) * Text.DigitsValue(b) + MulSum(r)
  {
    var m := MulText(a, b);
    var s := m + r;
    InstructionBodySkipped(a, b, r);
    MulFromShift(m, r, 0);
    assert s[0..] == s;
    assert ValueAt(s) == Text.DigitsValue(a) * Text.DigitsValue(b);
  }

  lemma {:induction false} NotFound(s: string, pat: string)
    requires pat != []
    requires forall k :: 0 <= k < |s| && s[k] == pat[0] ==> !Text.OccursAt(s, pat, k)
    ensures Text.Find(s, pat).None?
  {
    forall k | 0 <= k && k + |pat| <= |s|
      ensures !Text.OccursAt(s, pat, k)
    {
      assert s[k..k + |pat|][0] == s[k];
    }
  }

  /** The first example of the tests of `conditional_multiply` (written in
      three pieces, cut before each `don't()` and `do()`): 48. */
  lemma {:induction false} SampleConditionalFirst()
    ensures ConditionalSum("xmul(2,4)&mul[3,7]!^" + "don't()_mul(5,5)+mul(32,64](mul(11,8)un" + "do()?mul(8,5))") == 48
  {
    FirstExample("xmul(2,4)&mul[3,7]!^" + "don't()_mul(5,5)+mul(32,64](mul(11,8)un" + "do()?mul(8,5))",
      "xmul(2,4)&mul[3,7]!^", "don't()_mul(5,5)+mul(32,64](mul(11,8)un", "do()?mul(8,5))");
  }

  lemma {:induction false} FirstExample(s: string, a: string, b: string, c: string)
    requires a == "xmul(2,4)&mul[3,7]!^" && b == "don't()_mul(5,5)+mul(32,64](mul(11,8)un"
    requires c == "do()?mul(8,5))" && s == a + b + c
    ensures ConditionalSum(s) == 48
  {
    FirstExampleMarkers(a, b, c);
    DisabledSpanIgnored(a, b, c);
    FirstExampleEnabled(a);
    FirstExampleResumed(c);
  }

  /** Where the `don't()` and `do()` of the first example are. */
  lemma {:induction false} FirstExampleMarkers(a: string, b: string, c: string)
    requires a == "xmul(2,4)&mul[3,7]!^" && b == "don't()_mul(5,5)+mul(32,64](mul(11,8)un"
    requires c == "do()?mul(8,5))"
    ensures Text.Find(a, Dont).None? && Text.Find(b, Do).None? && Text.Find(c, Dont).None?
  {
    FirstEnabledHasNoDont(a);
    FirstDisabledHasNoDo(b);
    ResumedHasNoDont(c);
  }

  lemma {:induction false} FirstEnabledHasNoDont(a: string)
    requires a == "xmul(2,4)&mul[3,7]!^"
    ensures Text.Find(a, Dont).None?
  {
    NotFound(a, Dont);
  }

  lemma {:induction false} FirstDisabledHasNoDo(b: string)
    requires b == "don't()_mul(5,5)+mul(32,64](mul(11,8)un"
    ensures Text.Find(b, Do).None?
  {
    assert b[3] == '\'' && b[..4][3] == b[3];
    NotFound(b, Do);
  }

  /** The resumed pieces of both examples hold no `don't()`. */
  lemma {:induction false} ResumedHasNoDont(c: string)
    requires c == "do()?mul(8,5))" || c == "do()mul(4,5)"
    ensures Text.Find(c, Dont).None?
  {
    assert c[..|Dont|][2] == '(';
    NotFound(c, Dont);
  }

  lemma {:induction false} FirstExampleEnabled(a: string)
    requires a == "xmul(2,4)&mul[3,7]!^"
    ensures MulSum(a) == 8
  {
    FirstExampleEnabledParts(a, "x", "&", "mul[3,7]!^");
  }

  lemma {:induction false} FirstExampleResumed(c: string)
    requires c == "do()?mul(8,5))"
    ensures MulSum(c) == 40
  {
    FirstExampleResumedParts(c, "do()?", ")");
  }

  lemma {:induction false} FirstExampleEnabledParts(a: string, x: string, amp: string, r: string)
    requires x == "x" && amp == "&" && r == "mul[3,7]!^"
    requires a == x + (MulText("2", "4") + (amp + r))
    ensures MulSum(a) == 8
  {
    SkipPlain(x, MulText("2", "4") + (amp + r));
    TakeInstruction("2", "4", amp + r);
    assert Text.DigitsValue("2") == 2 && Text.DigitsValue("4") == 4;
    SkipPlain(amp, r);
    BrokenInstructionScoresNothing(r);
  }

  /** "mul[3,7]!^" holds no instruction: square brackets do not match. */
  lemma {:induction false} BrokenInstructionScoresNothing(r: string)
    requires r == "mul[3,7]!^"
    ensures MulSum(r) == 0
  {
    assert r[..4][3] == '[';
    SkipBroken(r);
    assert r[1..] == r[1..] + "";
    SkipPlain(r[1..], "");
  }

  lemma {:induction false} FirstExampleResumedParts(c: string, p: string, r: string)
    requires p == "do()?" && r == ")" && c == p + (MulText("8", "5") + r)
    ensures MulSum(c) == 40
  {
    SkipPlain(p, MulText("8", "5") + r);
    TakeInstruction("8", "5", r);
    assert Text.DigitsValue("8") == 8 && Text.DigitsValue("5") == 5;
    assert r == r + "";
    SkipPlain(r, "");
  }

  /** The second example of the tests of `conditional_multiply` (written in
      pieces, cut before each `don't()` and `do()`): 44. */
  lemma {:induction false} SampleConditionalSecond()
    ensures ConditionalSum("mul(1,8)undo()?mul(8,2))" + "don't()mul(1,2)" + ("do()mul(4,5)" + "don't()mul(6,7)")) == 44
  {
    SecondExample("mul(1,8)undo()?mul(8,2))" + "don't()mul(1,2)" + ("do()mul(4,5)" + "don't()mul(6,7)"),
      "mul(1,8)undo()?mul(8,2))", "don't()mul(1,2)", "do()mul(4,5)", "don't()mul(6,7)");
  }

  lemma {:induction false} SecondExample(s: string, a: string, b: string, c1: string, c2: string)
    requires a == "mul(1,8)undo()?mul(8,2))" && b == "don't()mul(1,2)"
    requires c1 == "do()mul(4,5)" && c2 == "don't()mul(6,7)" && s == a + b + (c1 + c2)
    ensures ConditionalSum(s) == 44
  {
    SecondExampleMarkers(a, b, c1, c2);
    DisabledSpanIgnored(a, b, c1 + c2);
    TrailingDisabledIgnored(c1, c2);
    SecondExampleEnabled(a);
    SecondExampleResumed(c1);
  }

  /** Where the `don't()`s and the `do()` of the second example are. */
  lemma {:induction false} SecondExampleMarkers(a: string, b: string, c1: string, c2: string)
    requires a == "mul(1,8)undo()?mul(8,2))" && b == "don't()mul(1,2)"
    requires c1 == "do()mul(4,5)" && c2 == "don't()mul(6,7)"
    ensures Text.Find(a, Dont).None? && Text.Find(b, Do).None?
    ensures Text.Find(c1, Dont).None? && Text.Find(c2, Do).None?
  {
    SecondEnabledHasNoDont(a);
    SecondDisabledHasNoDo(b);
    ResumedHasNoDont(c1);
    SecondDisabledHasNoDo(c2);
  }

  lemma {:induction false} SecondEnabledHasNoDont(a: string)
    requires a == "mul(1,8)undo()?mul(8,2))"
    ensures Text.Find(a, Dont).None?
  {
    assert a[10..10 + |Dont|][2] == '(';
    NotFound(a, Dont);
  }

  /** Both disabled pieces of the second example, "don't()mul(1,2)" and
      "don't()mul(6,7)", hold no `do()`. */
  lemma {:induction false} SecondDisabledHasNoDo(b: string)
    requires b == "don't()mul(1,2)" || b == "don't()mul(6,7)"
    ensures Text.Find(b, Do).None?
  {
    assert b[3] == '\'' && b[..4][3] == b[3];
    NotFound(b, Do);
  }

  lemma {:induction false} SecondExampleEnabled(a: string)
    requires a == "mul(1,8)undo()?mul(8,2))"
    ensures MulSum(a) == 24
  {
    SecondExampleEnabledParts(a, "undo()?", ")");
  }

  lemma {:induction false} SecondExampleResumed(c: string)
    requires c == "do()mul(4,5)"
    ensures MulSum(c) == 20
  {
    SecondExampleResumedParts(c, "do()");
  }

  lemma {:induction false} SecondExampleEnabledParts(a: string, p: string, r: string)
    requires p == "undo()?" && r == ")"
    requires a == MulText("1", "8") + (p + (MulText("8", "2") + r))
    ensures MulSum(a) == 24
  {
    TakeInstruction("1", "8", p + (MulText("8", "2") + r));
    SkipPlain(p, MulText("8", "2") + r);
    TakeInstruction("8", "2", r);
    assert Text.DigitsValue("1") == 1 && Text.DigitsValue("8") == 8 && Text.DigitsValue("2") == 2;
    assert r == r + "";
    SkipPlain(r, "");
  }

  lemma {:induction false} SecondExampleResumedParts(c: string, p: string)
    requires p == "do()" && c == p + (MulText("4", "5") + "")
    ensures MulSum(c) == 20
  {
    SkipPlain(p, MulText("4", "5") + "");
    TakeInstruction("4", "5", "");
    assert MulSum("") == 0;
    assert Text.DigitsValue("4") == 4 && Text.DigitsValue("5") == 5;
  }
}
