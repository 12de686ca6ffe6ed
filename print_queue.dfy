/** The print queue of aoc_2024/src/bin/day5.rs: ordering rules "p1|p2" say
    that page p1 must be printed before page p2; an update (a list of pages)
    is valid when no page comes after a page it must precede, and the answer
    is the sum of the middle pages of the valid updates. */
module PrintQueue {
  import opened Wrappers
  import Text

  /** A page number, a `u8`. */
  type Page = p: int | 0 <= p < 256

  /** `PrintInput`: for each page, the set of pages that must come after it,
      and the updates to check. */
  datatype PrintInput = PrintInput(rules: map<Page, set<Page>>, updates: seq<seq<Page>>)

  /** The pages that must come after `page`; the empty fallback set when the
      page has no rule. */
  function RulesOf(rules: map<Page, set<Page>>, page: Page): set<Page>
  {
    if page in rules then rules[page] else {}
  }

  /** No page is preceded by a page that must come after it. */
  predicate ValidUpdate(rules: map<Page, set<Page>>, update: seq<Page>)
  {
    forall i, j :: 0 <= i < j < |update| ==> update[i] !in RulesOf(rules, update[j])
  }

  // ---------------------------------------------------------------------------
  // is_page_update_valid
  // ---------------------------------------------------------------------------

  /** `.any(|p| subsequent_pages.contains(p))` over the pages before a given
      one (the reversed update, skipping that page and those after it). */
  function AnyIn(s: seq<Page>, pages: set<Page>): (r: bool)
    ensures r <==> exists k :: 0 <= k < |s| && s[k] in pages
  {
    if s == [] then false
    else if s[|s| - 1] in pages then true
    else
      var r := AnyIn(s[..|s| - 1], pages);
      assert forall k :: 0 <= k < |s| - 1 ==> s[..|s| - 1][k] == s[k];
      r
  }

  /** `is_page_update_valid`: the pages are visited from the last one back;
      the first page preceded by one of its followers makes the update
      invalid. */
  method IsPageUpdateValid(input: PrintInput, update: seq<Page>) returns (valid: bool)
    ensures valid <==> ValidUpdate(input.rules, update)
  {
    var idx := 0;
    while idx < |update|
      invariant idx <= |update|
      invariant forall i, j :: 0 <= i < j < |update| && |update| - idx <= j ==> update[i] !in RulesOf(input.rules, update[j])
    {
      var j := |update| - 1 - idx;
      var subsequentPages := RulesOf(input.rules, update[j]);
      var pageInInvalidOrder := AnyIn(update[..j], subsequentPages);
      if pageInInvalidOrder {
        var k :| 0 <= k < j && update[..j][k] in subsequentPages;
        assert update[k] in RulesOf(input.rules, update[j]);
        return false;
      }
      idx := idx + 1;
    }
    return true;
  }

  /** Updates of at most one page are valid. */
  lemma {:induction false} ShortUpdateValid(rules: map<Page, set<Page>>, update: seq<Page>)
    requires |update| <= 1
    ensures ValidUpdate(rules, update)
  {
  }

  /** Pages without rules impose nothing: an update none of whose pages has
      a rule is valid whatever it contains. */
  lemma {:induction false} UnruledPagesValid(rules: map<Page, set<Page>>, update: seq<Page>)
    requires forall k :: 0 <= k < |update| ==> update[k] !in rules
    ensures ValidUpdate(rules, update)
  {
  }

  /** Validity read as "every rule is respected": whenever a rule puts page
      u[a] before page u[b] of the update (two different positions), u[a]
      comes first. */
  lemma {:induction false} ValidRespectsRules(rules: map<Page, set<Page>>, u: seq<Page>)
    ensures ValidUpdate(rules, u)
            <==> forall a, b :: 0 <= a < |u| && 0 <= b < |u| && a != b && u[b] in RulesOf(rules, u[a]) ==> a < b
  {
  }

  /** More rules can only invalidate updates, never validate them. */
  lemma {:induction false} MoreRulesFewerValid(rules: map<Page, set<Page>>, more: map<Page, set<Page>>, update: seq<Page>)
    requires forall p: Page :: RulesOf(rules, p) <= RulesOf(more, p)
    ensures ValidUpdate(more, update) ==> ValidUpdate(rules, update)
  {
  }

  // ---------------------------------------------------------------------------
  // sum_of_valid_update_middle_page
  // ---------------------------------------------------------------------------

  /** `update[update.len() / 2]`. */
  function MiddlePage(update: seq<Page>): Page
    requires |update| > 0
  {
    update[|update| / 2]
  }

  /** Every update has a page: what `from_str` produces, and what the sum
      needs, since an empty update is valid and has no middle page. */
  predicate NonEmptyUpdates(updates: seq<seq<Page>>)
  {
    forall k :: 0 <= k < |updates| ==> |updates[k]| > 0
  }

  /** The sum over the first n updates. */
  function MiddleSumUpTo(rules: map<Page, set<Page>>, updates: seq<seq<Page>>, n: nat): (total: nat)
    requires n <= |updates| && NonEmptyUpdates(updates)
  {
    if n == 0 then 0
    else
      MiddleSumUpTo(rules, updates, n - 1)
      + (if ValidUpdate(rules, updates[n - 1]) then MiddlePage(updates[n - 1]) else 0)
  }

  /** `sum_of_valid_update_middle_page`: the middle pages of the valid
      updates, added up. */
  function SumOfValidMiddlePages(input: PrintInput): nat
    requires NonEmptyUpdates(input.updates)
  {
    MiddleSumUpTo(input.rules, input.updates, |input.updates|)
  }

  /** The number of valid updates among the first n. */
  function ValidCountUpTo(rules: map<Page, set<Page>>, updates: seq<seq<Page>>, n: nat): nat
    requires n <= |updates|
  {
    if n == 0 then 0
    else ValidCountUpTo(rules, updates, n - 1) + (if ValidUpdate(rules, updates[n - 1]) then 1 else 0)
  }

  lemma {:induction false} MiddleSumBound(rules: map<Page, set<Page>>, updates: seq<seq<Page>>, n: nat)
    requires n <= |updates| && NonEmptyUpdates(updates)
    ensures MiddleSumUpTo(rules, updates, n) <= 255 * ValidCountUpTo(rules, updates, n)
    ensures MiddleSumUpTo(rules, updates, n) == 0 <==> forall k :: 0 <= k < n && ValidUpdate(rules, updates[k]) ==> MiddlePage(updates[k]) == 0
  {
    if n > 0 {
      MiddleSumBound(rules, updates, n - 1);
    }
  }

  /** Only valid updates contribute, each by a page number of at most 255;
      the sum is 0 exactly when every valid update has middle page 0. */
  lemma {:induction false} SumOfValidMiddlePagesBound(input: PrintInput)
    requires NonEmptyUpdates(input.updates)
    ensures SumOfValidMiddlePages(input) <= 255 * ValidCountUpTo(input.rules, input.updates, |input.updates|)
    ensures SumOfValidMiddlePages(input) == 0
            <==> forall k :: 0 <= k < |input.updates| && ValidUpdate(input.rules, input.updates[k]) ==> MiddlePage(input.updates[k]) == 0
  {
    MiddleSumBound(input.rules, input.updates, |input.updates|);
  }

  // ---------------------------------------------------------------------------
  // from_str
  // ---------------------------------------------------------------------------

  /** The number of lines before the first empty one: the rule section that
      `take_while(|line| !line.is_empty())` reads. */
  function RuleSectionLength(lines: seq<string>): (n: nat)
    ensures n <= |lines|
    ensures forall k :: 0 <= k < n ==> |lines[k]| > 0
    ensures n < |lines| ==> |lines[n]| == 0
  {
    if |lines| == 0 || |lines[0]| == 0 then 0 else 1 + RuleSectionLength(lines[1..])
  }

  /** The lines after the rule section: `take_while` has consumed the empty
      line that ended it. */
  function UpdateSection(lines: seq<string>): seq<string>
  {
    var n := RuleSectionLength(lines);
    if n < |lines| then lines[n + 1..] else []
  }

  /** `sscanf!(line, "{u8}|{u8}")`: two page numbers around a '|'. */
  function ParseRule(line: string): Option<(Page, Page)>
  {
    var pieces := Text.Split(line, '|');
    if |pieces| != 2 then None
    else
      match (Text.ParseU8(pieces[0]), Text.ParseU8(pieces[1]))
      case (Some(p1), Some(p2)) => Some((p1 as Page, p2 as Page))
      case _ => None
  }

  /** A parsed rule line is two `u8` numbers around a '|'. */
  lemma {:induction false} ParseRuleSound(line: string)
    ensures ParseRule(line).Some? ==>
              exists a, b :: line == a + ['|'] + b && Text.ParseU8(a) == Some(ParseRule(line).value.0 as int)
                                                  && Text.ParseU8(b) == Some(ParseRule(line).value.1 as int)
  {
    if ParseRule(line).Some? {
      var pieces := Text.Split(line, '|');
      Text.SplitJoin(line, '|');
      Text.JoinCons(pieces[0], [pieces[1]], '|');
      assert [pieces[0]] + [pieces[1]] == pieces;
      assert line == pieces[0] + ['|'] + pieces[1];
    }
  }

  /** The text of a rule, as the puzzle writes it. */
  function RuleText(rule: (Page, Page)): string
  {
    Text.DecimalString(rule.0) + ['|'] + Text.DecimalString(rule.1)
  }

  /** The other direction: every rule, written out, parses back to itself. */
  lemma {:induction false} ParseRuleComplete(rule: (Page, Page))
    ensures ParseRule(RuleText(rule)) == Some(rule)
  {
    var a, b := Text.DecimalString(rule.0), Text.DecimalString(rule.1);
    forall c | c in a ensures c != '|' {
      var k :| 0 <= k < |a| && a[k] == c;
      assert Text.IsDigit(a[k]);
    }
    forall c | c in b ensures c != '|' {
      var k :| 0 <= k < |b| && b[k] == c;
      assert Text.IsDigit(b[k]);
    }
    Text.JoinCons(a, [b], '|');
    assert [a] + [b] == [a, b];
    Text.JoinSplit([a, b], '|');
    Text.ParsePrinted(rule.0, false, 0, Text.U8_MAX);
    Text.ParsePrinted(rule.1, false, 0, Text.U8_MAX);
  }

  /** The text of an update, as the puzzle writes it: its pages in decimal,
      separated by commas. */
  function UpdateText(update: seq<Page>): string
    requires |update| > 0
  {
    Text.Join(PageTexts(update), ',')
  }

  function PageTexts(update: seq<Page>): seq<string>
  {
    seq(|update|, k requires 0 <= k < |update| => Text.DecimalString(update[k]))
  }

  /** Every non-empty update, written out, parses back to itself. */
  lemma {:induction false} ParseUpdateComplete(update: seq<Page>)
    requires |update| > 0
    ensures ParseUpdate(UpdateText(update)) == Some(update)
  {
    var parts := PageTexts(update);
    forall k | 0 <= k < |parts|
      ensures ',' !in parts[k] && Text.ParseU8(parts[k]) == Some(update[k] as int)
    {
      Text.DigitsAvoid(parts[k], ',');
      Text.ParsePrinted(update[k], false, 0, Text.U8_MAX);
    }
    Text.JoinSplit(parts, ',');
    var r := ParseUpdate(UpdateText(update));
    assert r.Some?;
    assert r.value == update;
  }

  /** The comma-separated parts of an update line. */
  function UpdateParts(line: string): seq<string>
  {
    Text.Split(line, ',')
  }

  /** `line.split(',').map(|part| part.parse::<u8>())`, all of them. */
  function ParseUpdate(line: string): (r: Option<seq<Page>>)
    ensures r.Some? ==> |r.value| == |UpdateParts(line)|
    ensures r.Some? ==> forall k :: 0 <= k < |r.value| ==> Text.ParseU8(UpdateParts(line)[k]) == Some(r.value[k] as int)
    ensures r.Some? <==> forall k :: 0 <= k < |UpdateParts(line)| ==> Text.ParseU8(UpdateParts(line)[k]).Some?
  {
    ParsePages(UpdateParts(line), |UpdateParts(line)|)
  }

  /** An empty line is one empty part, which is not a number. */
  lemma {:induction false} EmptyUpdateLineFails()
    ensures ParseUpdate([]).None?
  {
    assert UpdateParts([]) == [[]];
    assert Text.ParseU8([]).None?;
  }

  function ParsePages(parts: seq<string>, n: nat): (r: Option<seq<Page>>)
    requires n <= |parts|
    ensures r.Some? ==> |r.value| == n
    ensures r.Some? ==> forall k :: 0 <= k < n ==> Text.ParseU8(parts[k]) == Some(r.value[k] as int)
    ensures r.Some? <==> forall k :: 0 <= k < n ==> Text.ParseU8(parts[k]).Some?
  {
    if n == 0 then Some([])
    else
      match (ParsePages(parts, n - 1), Text.ParseU8(parts[n - 1]))
      case (Some(pages), Some(p)) => Some(pages + [p as Page])
      case _ => None
  }

  /** `lines.map(parse).collect::<Option<Vec<_>>>()` over the first n
      lines: every line parsed, or None once one of them fails. */
  function ParseAll<T>(lines: seq<string>, n: nat, parse: string -> Option<T>): Option<seq<T>>
    requires n <= |lines|
  {
    if n == 0 then Some([])
    else
      var prev := ParseAll(lines, n - 1, parse);
      var last := parse(lines[n - 1]);
      if prev.Some? && last.Some? then Some(prev.value + [last.value]) else None
  }

  /** The first n lines parse exactly when each of them does, and then
      element k is line k parsed. */
  lemma {:induction false} ParseAllMeans<T>(lines: seq<string>, n: nat, parse: string -> Option<T>)
    requires n <= |lines|
    ensures ParseAll(lines, n, parse).Some? ==>
              |ParseAll(lines, n, parse).value| == n &&
              forall k :: 0 <= k < n ==> parse(lines[k]) == Some(ParseAll(lines, n, parse).value[k])
    ensures ParseAll(lines, n, parse).Some? <==> forall k :: 0 <= k < n ==> parse(lines[k]).Some?
  {
    if n > 0 {
      ParseAllMeans(lines, n - 1, parse);
      var prev := ParseAll(lines, n - 1, parse);
      var last := parse(lines[n - 1]);
      if prev.Some? && last.Some? {
        AppendKeepsPrefix(prev.value, last.value);
      }
    }
  }

  /** Appending keeps every earlier element in place. */
  lemma {:induction false} AppendKeepsPrefix<T>(prefix: seq<T>, x: T)
    ensures |prefix + [x]| == |prefix| + 1 && (prefix + [x])[|prefix|] == x
    ensures forall k :: 0 <= k < |prefix| ==> (prefix + [x])[k] == prefix[k]
  {
  }

  /** The first n rule lines, parsed. */
  function ParseRulesUpTo(lines: seq<string>, n: nat): Option<seq<(Page, Page)>>
    requires n <= |lines|
  {
    ParseAll(lines, n, ParseRule)
  }

  lemma {:induction false} RulesUpToMeans(lines: seq<string>, n: nat)
    requires n <= |lines|
    ensures ParseRulesUpTo(lines, n).Some? ==>
              |ParseRulesUpTo(lines, n).value| == n &&
              forall k :: 0 <= k < n ==> ParseRule(lines[k]) == Some(ParseRulesUpTo(lines, n).value[k])
    ensures ParseRulesUpTo(lines, n).Some? <==> forall k :: 0 <= k < n ==> ParseRule(lines[k]).Some?
  {
    ParseAllMeans(lines, n, ParseRule);
  }

  /** The first n update lines, parsed. */
  function ParseUpdatesUpTo(lines: seq<string>, n: nat): Option<seq<seq<Page>>>
    requires n <= |lines|
  {
    ParseAll(lines, n, ParseUpdate)
  }

  lemma {:induction false} UpdatesUpToMeans(lines: seq<string>, n: nat)
    requires n <= |lines|
    ensures ParseUpdatesUpTo(lines, n).Some? ==>
              |ParseUpdatesUpTo(lines, n).value| == n &&
              forall k :: 0 <= k < n ==> ParseUpdate(lines[k]) == Some(ParseUpdatesUpTo(lines, n).value[k])
    ensures ParseUpdatesUpTo(lines, n).Some? <==> forall k :: 0 <= k < n ==> ParseUpdate(lines[k]).Some?
  {
    ParseAllMeans(lines, n, ParseUpdate);
  }

  /** `map.entry(p1).or_default().insert(p2)`. */
  function AddRule(rules: map<Page, set<Page>>, rule: (Page, Page)): map<Page, set<Page>>
  {
    rules[rule.0 := RulesOf(rules, rule.0) + {rule.1}]
  }

  /** The fold of the parsed rules into the map. */
  function BuildRules(rules: seq<(Page, Page)>): map<Page, set<Page>>
  {
    if rules == [] then map[] else AddRule(BuildRules(rules[..|rules| - 1]), rules[|rules| - 1])
  }

  /** The map holds exactly the rules read: p2 must follow p1 iff "p1|p2" was
      a rule line. */
  lemma {:induction false} BuildRulesMeans(rules: seq<(Page, Page)>, p1: Page, p2: Page)
    ensures p2 in RulesOf(BuildRules(rules), p1) <==> (p1, p2) in rules
  {
    if rules != [] {
      BuildRulesMeans(rules[..|rules| - 1], p1, p2);
      assert rules == rules[..|rules| - 1] + [rules[|rules| - 1]];
    }
  }

  /** The rules of a text, when every rule line parses. */
  function RulesOfText(s: string): Option<seq<(Page, Page)>>
  {
    var lines := Text.Split(s, '\n');
    ParseRulesUpTo(lines, RuleSectionLength(lines))
  }

  /** Read back from the rule lines: page p2 must follow page p1 exactly
      when one of the first n lines reads "p1|p2". */
  lemma {:induction false} RuleLinesMeans(lines: seq<string>, n: nat, p1: Page, p2: Page)
    requires n <= |lines| && ParseRulesUpTo(lines, n).Some?
    ensures p2 in RulesOf(BuildRules(ParseRulesUpTo(lines, n).value), p1)
            <==> exists k :: 0 <= k < n && ParseRule(lines[k]) == Some((p1, p2))
  {
    var rules := ParseRulesUpTo(lines, n).value;
    RulesUpToMeans(lines, n);
    BuildRulesMeans(rules, p1, p2);
    if (p1, p2) in rules {
      var k :| 0 <= k < |rules| && rules[k] == (p1, p2);
      assert ParseRule(lines[k]) == Some((p1, p2));
    }
  }

  /** The updates of a text, when every update line parses. */
  function UpdatesOfText(s: string): Option<seq<seq<Page>>>
  {
    var section := UpdateSection(Text.Split(s, '\n'));
    ParseUpdatesUpTo(section, |section|)
  }

  /** `PrintInput::from_str`: the rule lines folded into the map, then the
      update lines pushed in order. None where an `unwrap` panics. */
  method FromStr(s: string) returns (r: Option<PrintInput>)
    ensures r.Some? <==> RulesOfText(s).Some? && UpdatesOfText(s).Some?
    ensures r.Some? ==> r.value == PrintInput(BuildRules(RulesOfText(s).value), UpdatesOfText(s).value)
  {
    var lines := Text.Split(s, '\n');
    var rules := FoldRules(lines);
    if rules.None? {
      return None;
    }
    var updates := CollectUpdates(UpdateSection(lines));
    if updates.None? {
      return None;
    }
    return Some(PrintInput(rules.value, updates.value));
  }

  /** The lines of an input as the puzzle writes it: one line per rule, an
      empty line, one line per update. */
  function InputLines(rules: seq<(Page, Page)>, updates: seq<seq<Page>>): seq<string>
    requires NonEmptyUpdates(updates)
  {
    seq(|rules|, k requires 0 <= k < |rules| => RuleText(rules[k])) + [[]]
    + seq(|updates|, k requires 0 <= k < |updates| => UpdateText(updates[k]))
  }

  /** The text of an input: its lines joined by line feeds. */
  function InputText(rules: seq<(Page, Page)>, updates: seq<seq<Page>>): string
    requires NonEmptyUpdates(updates)
  {
    Text.Join(InputLines(rules, updates), '\n')
  }

  /** No line of a written input holds a line feed. */
  lemma {:induction false} InputLinesFree(rules: seq<(Page, Page)>, updates: seq<seq<Page>>)
    requires NonEmptyUpdates(updates)
    ensures forall k :: 0 <= k < |InputLines(rules, updates)| ==> '\n' !in InputLines(rules, updates)[k]
  {
    var lines := InputLines(rules, updates);
    forall k | 0 <= k < |lines|
      ensures '\n' !in lines[k]
    {
      if k < |rules| {
        var rule := rules[k];
        Text.DigitsAvoid(Text.DecimalString(rule.0), '\n');
        Text.DigitsAvoid(Text.DecimalString(rule.1), '\n');
        assert lines[k] == Text.DecimalString(rule.0) + ['|'] + Text.DecimalString(rule.1);
      } else if k > |rules| {
        var update := updates[k - |rules| - 1];
        var parts := PageTexts(update);
        forall j | 0 <= j < |parts|
          ensures '\n' !in parts[j]
        {
          Text.DigitsAvoid(parts[j], '\n');
        }
        Text.JoinAvoids(parts, ',', '\n');
        assert lines[k] == UpdateText(update);
      }
    }
  }

  /** `from_str` reads back what was written: the rule section of a written
      input is its rules, in order, and the update section its updates. */
  lemma {:induction false} FromStrRoundTrip(rules: seq<(Page, Page)>, updates: seq<seq<Page>>)
    requires NonEmptyUpdates(updates)
    ensures RulesOfText(InputText(rules, updates)) == Some(rules)
    ensures UpdatesOfText(InputText(rules, updates)) == Some(updates)
  {
    var lines := InputLines(rules, updates);
    InputLinesFree(rules, updates);
    Text.JoinSplit(lines, '\n');
    RuleSectionOfInput(rules, updates);
    RuleLinesRoundTrip(rules, updates);
    UpdateLinesRoundTrip(rules, updates);
  }

  /** The rule section of a written input is its rule lines. */
  lemma {:induction false} RuleSectionOfInput(rules: seq<(Page, Page)>, updates: seq<seq<Page>>)
    requires NonEmptyUpdates(updates)
    ensures RuleSectionLength(InputLines(rules, updates)) == |rules|
    ensures UpdateSection(InputLines(rules, updates)) == InputLines(rules, updates)[|rules| + 1..]
  {
    var lines := InputLines(rules, updates);
    assert lines[|rules|] == [];
    assert forall k :: 0 <= k < |rules| ==> lines[k] == RuleText(rules[k]) && |lines[k]| > 0;
  }

  lemma {:induction false} RuleLinesRoundTrip(rules: seq<(Page, Page)>, updates: seq<seq<Page>>)
    requires NonEmptyUpdates(updates)
    ensures ParseRulesUpTo(InputLines(rules, updates), |rules|) == Some(rules)
  {
    var lines := InputLines(rules, updates);
    var n := |rules|;
    RulesUpToMeans(lines, n);
    forall k | 0 <= k < n
      ensures ParseRule(lines[k]) == Some(rules[k])
    {
      assert lines[k] == RuleText(rules[k]);
      ParseRuleComplete(rules[k]);
    }
    assert ParseRulesUpTo(lines, n).value == rules;
  }

  lemma {:induction false} UpdateLinesRoundTrip(rules: seq<(Page, Page)>, updates: seq<seq<Page>>)
    requires NonEmptyUpdates(updates)
    ensures var section := InputLines(rules, updates)[|rules| + 1..];
            ParseUpdatesUpTo(section, |section|) == Some(updates)
  {
    var section := InputLines(rules, updates)[|rules| + 1..];
    UpdatesUpToMeans(section, |section|);
    forall k | 0 <= k < |section|
      ensures ParseUpdate(section[k]) == Some(updates[k])
    {
      assert section[k] == UpdateText(updates[k]);
      ParseUpdateComplete(updates[k]);
    }
    assert ParseUpdatesUpTo(section, |section|).value == updates;
  }

  /** The `take_while` and `fold` over the rule lines. */
  method FoldRules(lines: seq<string>) returns (r: Option<map<Page, set<Page>>>)
    ensures r == RuleMapUpTo(lines, RuleSectionLength(lines))
  {
    var n := RuleSectionLength(lines);
    r := Some(map[]);
    var i := 0;
    while i < |lines| && |lines[i]| > 0 && r.Some?
      invariant i <= n
      invariant r.Some? ==> RuleMapUpTo(lines, i) == r
      invariant r.None? ==> RuleMapUpTo(lines, n).None?
    {
      r := FoldLine(lines, i, n, r.value);
      i := i + 1;
    }
  }

  /** One step of the `fold`: add rule line i to the map, or fail. */
  method FoldLine(lines: seq<string>, i: nat, n: nat, rules: map<Page, set<Page>>) returns (next: Option<map<Page, set<Page>>>)
    requires i < n <= |lines| && RuleMapUpTo(lines, i) == Some(rules)
    ensures next.None? ==> RuleMapUpTo(lines, n).None?
    ensures next.Some? ==> RuleMapUpTo(lines, i + 1) == next
  {
    var rule := ParseRule(lines[i]);
    if rule.None? {
      RuleLineFails(lines, i, n);
      return None;
    }
    RuleLineParsed(lines, i);
    return Some(AddRule(rules, rule.value));
  }

  /** The map of the first n rule lines, when they all parse. */
  function RuleMapUpTo(lines: seq<string>, n: nat): Option<map<Page, set<Page>>>
    requires n <= |lines|
  {
    var parsed := ParseRulesUpTo(lines, n);
    if parsed.Some? then Some(BuildRules(parsed.value)) else None
  }

  /** One more parsed rule line extends the parsed rules by its rule, and
      the map by that rule. */
  lemma {:induction false} RuleLineParsed(lines: seq<string>, i: nat)
    requires i < |lines| && RuleMapUpTo(lines, i).Some? && ParseRule(lines[i]).Some?
    ensures RuleMapUpTo(lines, i + 1) == Some(AddRule(RuleMapUpTo(lines, i).value, ParseRule(lines[i]).value))
  {
    var before := ParseRulesUpTo(lines, i).value;
    var after := before + [ParseRule(lines[i]).value];
    assert after[..|after| - 1] == before;
  }

  /** A rule line that does not parse makes the whole rule section fail. */
  lemma {:induction false} RuleLineFails(lines: seq<string>, i: nat, n: nat)
    requires i < n <= |lines| && ParseRule(lines[i]).None?
    ensures RuleMapUpTo(lines, n).None?
  {
    RulesUpToMeans(lines, n);
  }

  lemma {:induction false} UpdateLineParsed(section: seq<string>, k: nat)
    requires k < |section| && ParseUpdatesUpTo(section, k).Some? && ParseUpdate(section[k]).Some?
    ensures ParseUpdatesUpTo(section, k + 1)
            == Some(ParseUpdatesUpTo(section, k).value + [ParseUpdate(section[k]).value])
  {
  }

  /** An update line that does not parse makes the whole update section
      fail. */
  lemma {:induction false} UpdateLineFails(section: seq<string>, k: nat)
    requires k < |section| && ParseUpdate(section[k]).None?
    ensures ParseUpdatesUpTo(section, |section|).None?
  {
    UpdatesUpToMeans(section, |section|);
  }

  /** The `fold` pushing each parsed update line. */
  method CollectUpdates(section: seq<string>) returns (r: Option<seq<seq<Page>>>)
    ensures r == ParseUpdatesUpTo(section, |section|)
  {
    r := Some([]);
    var k := 0;
    while k < |section| && r.Some?
      invariant k <= |section|
      invariant r.Some? ==> ParseUpdatesUpTo(section, k) == r
      invariant r.None? ==> ParseUpdatesUpTo(section, |section|).None?
    {
      r := CollectLine(section, k, r.value);
      k := k + 1;
    }
  }

  /** One step of the `fold`: parse line k and push it, or fail. */
  method CollectLine(section: seq<string>, k: nat, updates: seq<seq<Page>>) returns (next: Option<seq<seq<Page>>>)
    requires k < |section| && ParseUpdatesUpTo(section, k) == Some(updates)
    ensures next.None? ==> ParseUpdatesUpTo(section, |section|).None?
    ensures next.Some? ==> ParseUpdatesUpTo(section, k + 1) == next
  {
    var update := ParseUpdate(section[k]);
    if update.None? {
      UpdateLineFails(section, k);
      return None;
    }
    UpdateLineParsed(section, k);
    return Some(updates + [update.value]);
  }

  /** Each comma-separated part yields a page, so a parsed update is never
      empty and the sum can take its middle page. */
  lemma {:induction false} ParsedUpdatesNonEmpty(s: string)
    requires UpdatesOfText(s).Some?
    ensures NonEmptyUpdates(UpdatesOfText(s).value)
  {
    var section := UpdateSection(Text.Split(s, '\n'));
    UpdatesUpToMeans(section, |section|);
    forall k | 0 <= k < |UpdatesOfText(s).value|
      ensures |UpdatesOfText(s).value[k]| > 0
    {
      assert ParseUpdate(section[k]) == Some(UpdatesOfText(s).value[k]);
    }
  }

  /** A text that has an update section and ends in '\n' fails: its last
      line is empty, and `"".parse::<u8>()` is an error. */
  lemma {:induction false} TrailingLineFeedFails(s: string)
    requires RuleSectionLength(Text.Split(s, '\n')) < |Text.Split(s, '\n')|
    ensures UpdatesOfText(s + "\n").None?
  {
    var lines := Text.Split(s, '\n');
    Text.SplitTrailingSeparator(s, '\n');
    assert s + "\n" == s + ['\n'];
    var longer := lines + [[]];
    assert RuleSectionLength(longer) == RuleSectionLength(lines) by {
      RuleSectionPrefix(lines, [[]]);
    }
    var section := UpdateSection(longer);
    assert section[|section| - 1] == [];
    EmptyUpdateLineFails();
    assert ParseUpdate(section[|section| - 1]).None?;
  }

  lemma {:induction false} RuleSectionPrefix(lines: seq<string>, more: seq<string>)
    requires RuleSectionLength(lines) < |lines|
    ensures RuleSectionLength(lines + more) == RuleSectionLength(lines)
  {
    if |lines[0]| > 0 {
      assert (lines + more)[1..] == lines[1..] + more;
      RuleSectionPrefix(lines[1..], more);
    }
  }

  // ---------------------------------------------------------------------------
  // The example of the tests
  // ---------------------------------------------------------------------------

  /** The rules of the example, in the order of its rule lines. */
  function SampleRules(): seq<(Page, Page)>
  {
    [(47, 53), (97, 13), (97, 61), (97, 47), (75, 29), (61, 13), (75, 53), (29, 13), (97, 29), (53, 29),
     (61, 53), (97, 53), (61, 29), (47, 13), (75, 47), (97, 75), (47, 61), (75, 61), (47, 29), (75, 13),
     (53, 13)]
  }

  function SampleUpdates(): seq<seq<Page>>
  {
    [[75, 47, 61, 53, 29], [97, 61, 53, 29, 13], [75, 29, 13], [75, 97, 47, 61, 53], [61, 13, 29],
     [97, 13, 75, 29, 47]]
  }

  /** No rule of the example puts a later page of u before an earlier one. */
  predicate NoSampleRuleAgainst(u: seq<Page>)
  {
    forall i, j :: 0 <= i < j < |u| ==> (u[j], u[i]) !in SampleRules()
  }

  /** An update that no rule of the example speaks against is valid. */
  lemma {:induction false} SampleValid(u: seq<Page>)
    requires NoSampleRuleAgainst(u)
    ensures ValidUpdate(BuildRules(SampleRules()), u)
  {
    forall i, j | 0 <= i < j < |u|
      ensures u[i] !in RulesOf(BuildRules(SampleRules()), u[j])
    {
      BuildRulesMeans(SampleRules(), u[j], u[i]);
    }
  }

  lemma {:induction false} SampleFirstAgreed()
    ensures NoSampleRuleAgainst([75, 47, 61, 53, 29])
  {
  }

  lemma {:induction false} SampleSecondAgreed()
    ensures NoSampleRuleAgainst([97, 61, 53, 29, 13])
  {
  }

  lemma {:induction false} SampleThirdAgreed()
    ensures NoSampleRuleAgainst([75, 29, 13])
  {
  }

  lemma {:induction false} SampleInvalid(u: seq<Page>, i: nat, j: nat)
    requires i < j < |u| && (u[j], u[i]) in SampleRules()
    ensures !ValidUpdate(BuildRules(SampleRules()), u)
  {
    BuildRulesMeans(SampleRules(), u[j], u[i]);
  }

  lemma {:induction false} SampleUpdatesNonEmpty()
    ensures NonEmptyUpdates(SampleUpdates())
  {
  }

  /** The test's expected answer: the valid updates are the first three,
      with middle pages 61, 53 and 29. */
  lemma {:induction false} SampleSum()
    ensures SumOfValidMiddlePages(PrintInput(BuildRules(SampleRules()), SampleUpdates())) == 143
  {
    var rules := BuildRules(SampleRules());
    var us := SampleUpdates();
    SampleUpdatesNonEmpty();
    SampleFirstAgreed();
    SampleSecondAgreed();
    SampleThirdAgreed();
    SampleValid(us[0]);
    SampleValid(us[1]);
    SampleValid(us[2]);
    SampleInvalid(us[3], 0, 1);
    SampleInvalid(us[4], 1, 2);
    SampleInvalid(us[5], 1, 3);
    assert MiddleSumUpTo(rules, us, 3) == 143;
    assert MiddleSumUpTo(rules, us, 6) == 143;
  }

  /** The test's input text: the example's rules, an empty line and its
      updates, written one per line. */
  function SampleInput(): string
  {
    SampleUpdatesNonEmpty();
    InputText(SampleRules(), SampleUpdates())
  }

  /** The test itself: `from_str` on the example's text, then the sum of the
      middle pages of the valid updates, 143. */
  method SampleFromStr() returns (total: nat)
    ensures total == 143
  {
    SampleUpdatesNonEmpty();
    FromStrRoundTrip(SampleRules(), SampleUpdates());
    var r := FromStr(SampleInput());
    SampleSum();
    total := SumOfValidMiddlePages(r.value);
  }
}
