/**
Scrubbing of machine paths from result files: one textual replacement after another,
longest needle first (tasks/shared/eval/readback.py).
*/
module Scrub {

  // ---- One replacement ----

  /** Every leftmost, non-overlapping needle becomes the token; an empty needle is found around every character. */
  function Replace(text: string, needle: string, token: string): string
    decreases |text|
  {
    if needle == [] then (if text == [] then token else token + [text[0]] + Replace(text[1..], needle, token))
    else if needle <= text then token + Replace(text[|needle|..], needle, token)
    else if text == [] then []
    else [text[0]] + Replace(text[1..], needle, token)
  }

  predicate OccursAt(needle: string, text: string, i: nat) {
    i <= |text| && needle <= text[i..]
  }

  ghost predicate Occurs(needle: string, text: string) {
    exists i: nat :: OccursAt(needle, text, i)
  }

  /** The needle cannot overlap a copy of the token: it lacks the token's two ends and is no part of it. */
  ghost predicate IsApart(needle: string, token: string) {
    token != [] && token[0] !in needle && token[|token| - 1] !in needle && !Occurs(needle, token)
  }

  lemma OccursLater(needle: string, text: string, skipped: nat)
    requires skipped <= |text| && Occurs(needle, text[skipped..])
    ensures Occurs(needle, text)
  {
    var i: nat :| OccursAt(needle, text[skipped..], i);
    assert text[skipped..][i..] == text[skipped + i..];
    assert OccursAt(needle, text, skipped + i);
  }

  /** Text that does not begin like the token was there before the replacement. */
  lemma {:induction false} PrefixWasThere(start: string, text: string, needle: string, token: string)
    requires token != [] && token[0] !in start && start <= Replace(text, needle, token)
    ensures start <= text
    decreases |text|
  {
    if start != [] {
      assert start[0] == Replace(text, needle, token)[0];
      PrefixWasThere(start[1..], text[1..], needle, token);
    }
  }

  /** An occurrence that begins in a leading token covers the token's end or lies within it. */
  lemma WithinToken(needle: string, token: string, rest: string, i: nat)
    requires i < |token| && OccursAt(needle, token + rest, i)
    ensures token[|token| - 1] in needle || Occurs(needle, token)
  {
    var whole := token + rest;
    if i + |needle| <= |token| {
      assert needle == whole[i..][..|needle|] == token[i..][..|needle|];
      assert OccursAt(needle, token, i);
    } else {
      assert needle[|token| - 1 - i] == whole[i..][|token| - 1 - i] == token[|token| - 1];
    }
  }

  /** So one that is apart from the token lies entirely behind it. */
  lemma BehindToken(needle: string, token: string, rest: string, i: nat)
    requires IsApart(needle, token) && OccursAt(needle, token + rest, i)
    ensures i >= |token| && OccursAt(needle, rest, i - |token|)
  {
    if i < |token| {
      WithinToken(needle, token, rest, i);
    } else {
      assert (token + rest)[i..] == rest[i - |token|..];
    }
  }

  /** A replacement brings no other needle into being, and leaves none of its own. */
  lemma {:induction false} OccurrenceWasThere(other: string, text: string, needle: string, token: string)
    requires other != [] && IsApart(other, token) && Occurs(other, Replace(text, needle, token))
    ensures Occurs(other, text) && other != needle
    decreases |text|
  {
    var result := Replace(text, needle, token);
    var i: nat :| OccursAt(other, result, i);
    if needle == [] {
      OccurrenceAmongTokens(other, text, token, i);
    } else if needle <= text {
      var rest := Replace(text[|needle|..], needle, token);
      BehindToken(other, token, rest, i);
      OccurrenceWasThere(other, text[|needle|..], needle, token);
      OccursLater(other, text, |needle|);
    } else if i == 0 {
      assert result[0..] == result;
      PrefixWasThere(other, text, needle, token);
      assert text[0..] == text && OccursAt(other, text, 0);
    } else {
      assert result[i..] == result[1..][i - 1..];
      assert OccursAt(other, Replace(text[1..], needle, token), i - 1);
      OccurrenceWasThere(other, text[1..], needle, token);
      OccursLater(other, text, 1);
    }
  }

  /** Between two tokens there is room for one character only. */
  lemma HeadAmongTokens(other: string, text: string, rest: string, token: string)
    requires other != [] && text != [] && token != [] && token <= rest && other <= [text[0]] + rest
    ensures token[0] in other || OccursAt(other, text, 0)
  {
    var second := if |other| > 1 then other[1] else other[0];
    assert second in other && ([text[0]] + rest)[1] == token[0];
    assert text[0..] == text;
  }

  lemma BehindHead(other: string, c: char, rest: string, j: nat)
    requires j > 0 && OccursAt(other, [c] + rest, j)
    ensures OccursAt(other, rest, j - 1)
  {
    assert ([c] + rest)[j..] == rest[j - 1..];
  }

  lemma SpacedOut(text: string, token: string)
    requires text != []
    ensures token <= Replace(text[1..], [], token)
    ensures Replace(text, [], token) == token + ([text[0]] + Replace(text[1..], [], token))
  {
  }

  lemma {:induction false} OccurrenceAmongTokens(other: string, text: string, token: string, i: nat)
    requires other != [] && IsApart(other, token) && OccursAt(other, Replace(text, [], token), i)
    ensures Occurs(other, text)
    decreases |text|
  {
    if text != [] {
      var rest := Replace(text[1..], [], token);
      SpacedOut(text, token);
      BehindToken(other, token, [text[0]] + rest, i);
      var j := i - |token|;
      if j == 0 {
        assert ([text[0]] + rest)[0..] == [text[0]] + rest;
        HeadAmongTokens(other, text, rest, token);
      } else {
        BehindHead(other, text[0], rest, j);
        OccurrenceAmongTokens(other, text[1..], token, j - 1);
        OccursLater(other, text, 1);
      }
    }
  }

  lemma {:induction false} NothingToReplace(text: string, needle: string, token: string)
    requires needle != [] && !Occurs(needle, text)
    ensures Replace(text, needle, token) == text
    decreases |text|
  {
    assert text[0..] == text && !OccursAt(needle, text, 0);
    if text != [] {
      if Occurs(needle, text[1..]) {
        OccursLater(needle, text, 1);
      }
      NothingToReplace(text[1..], needle, token);
    }
  }

  // ---- Replacement as splitting and joining ----

  function JoinWith(pieces: seq<string>, separator: string): string
    requires pieces != []
  {
    if |pieces| == 1 then pieces[0] else pieces[0] + separator + JoinWith(pieces[1..], separator)
  }

  /** The text between the needles. */
  function Pieces(text: string, needle: string): (pieces: seq<string>)
    requires needle != []
    ensures pieces != []
    decreases |text|
  {
    if needle <= text then [[]] + Pieces(text[|needle|..], needle)
    else if text == [] then [[]]
    else
      var rest := Pieces(text[1..], needle);
      [[text[0]] + rest[0]] + rest[1..]
  }

  /** The same pieces make the text when joined with the needle and the result when joined with the token. */
  lemma {:induction false} ReplaceRejoins(text: string, needle: string, token: string)
    requires needle != []
    ensures JoinWith(Pieces(text, needle), needle) == text
    ensures JoinWith(Pieces(text, needle), token) == Replace(text, needle, token)
    decreases |text|
  {
    if needle <= text {
      ReplaceRejoins(text[|needle|..], needle, token);
      var rest := Pieces(text[|needle|..], needle);
      JoinWithEmpty(rest, needle);
      JoinWithEmpty(rest, token);
      assert text == needle + text[|needle|..];
    } else if text != [] {
      ReplaceRejoins(text[1..], needle, token);
      var rest := Pieces(text[1..], needle);
      JoinWithGrown(text[0], rest, needle);
      JoinWithGrown(text[0], rest, token);
    }
  }

  function Singles(text: string): seq<string> {
    if text == [] then [] else [[text[0]]] + Singles(text[1..])
  }

  /** An empty needle is found in front of every character and at the end. */
  lemma {:induction false} EmptyNeedleRejoins(text: string, token: string)
    ensures JoinWith([[]] + (Singles(text) + [[]]), token) == Replace(text, [], token)
    decreases |text|
  {
    if text == [] {
      assert Singles(text) + [[]] == [[]];
      JoinWithEmpty([[]], token);
      assert token + [] == token;
    } else {
      var rest := Singles(text[1..]) + [[]];
      EmptyNeedleRejoins(text[1..], token);
      assert Singles(text) + [[]] == [[text[0]]] + rest;
      JoinWithEmpty([[text[0]]] + rest, token);
      var gap := [[]] + rest;
      assert gap[1..] == rest && [text[0]] + gap[0] == [text[0]];
      JoinWithGrown(text[0], gap, token);
      assert token + [text[0]] + Replace(text[1..], [], token) == token + ([text[0]] + Replace(text[1..], [], token));
    }
  }

  lemma JoinWithEmpty(pieces: seq<string>, separator: string)
    requires pieces != []
    ensures JoinWith([[]] + pieces, separator) == separator + JoinWith(pieces, separator)
  {
    assert ([[]] + pieces)[1..] == pieces && [] + separator == separator;
  }

  lemma JoinWithGrown(c: char, pieces: seq<string>, separator: string)
    requires pieces != []
    ensures JoinWith([[c] + pieces[0]] + pieces[1..], separator) == [c] + JoinWith(pieces, separator)
  {
    var grown := [[c] + pieces[0]] + pieces[1..];
    assert grown[1..] == pieces[1..];
    if |pieces| > 1 {
      var rest := JoinWith(pieces[1..], separator);
      assert [c] + (pieces[0] + separator + rest) == [c] + pieces[0] + separator + rest;
    }
  }

  /** Each needle is taken where it first occurs, and none is left over. */
  ghost predicate IsLeftmost(pieces: seq<string>, needle: string)
    requires pieces != []
  {
    && (forall k, j: nat | 0 <= k < |pieces| - 1 && j < |pieces[k]| :: !OccursAt(needle, pieces[k] + needle, j))
    && !Occurs(needle, pieces[|pieces| - 1])
  }

  lemma {:induction false} PiecesAreLeftmost(text: string, needle: string)
    requires needle != []
    ensures IsLeftmost(Pieces(text, needle), needle)
    decreases |text|
  {
    var pieces := Pieces(text, needle);
    if needle <= text {
      PiecesAreLeftmost(text[|needle|..], needle);
      assert pieces[1..] == Pieces(text[|needle|..], needle);
    } else if text != [] {
      var rest := Pieces(text[1..], needle);
      PiecesAreLeftmost(text[1..], needle);
      ReplaceRejoins(text, needle, needle);
      FirstPieceIsLeftmost(text, pieces, rest, needle);
    }
  }

  lemma FirstPieceIsLeftmost(text: string, pieces: seq<string>, rest: seq<string>, needle: string)
    requires pieces != [] && rest != [] && text != [] && !(needle <= text) && IsLeftmost(rest, needle)
    requires pieces == [[text[0]] + rest[0]] + rest[1..] && JoinWith(pieces, needle) == text
    ensures IsLeftmost(pieces, needle)
  {
    var head := pieces[0];
    assert head[0..] == head && (head + needle)[0..] == head + needle;
    if |pieces| == 1 {
      forall j: nat ensures !OccursAt(needle, head, j) {
        if 0 < j <= |head| {
          assert head[j..] == rest[0][j - 1..] && !OccursAt(needle, rest[0], j - 1);
        }
      }
    } else {
      assert pieces[|pieces| - 1] == rest[|rest| - 1] && head + needle <= text;
      forall k, j: nat | 0 <= k < |pieces| - 1 && j < |pieces[k]| ensures !OccursAt(needle, pieces[k] + needle, j) {
        if k > 0 {
          assert pieces[k] == rest[k] && !OccursAt(needle, rest[k] + needle, j);
        } else if j > 0 {
          assert (head + needle)[j..] == (rest[0] + needle)[j - 1..] && !OccursAt(needle, rest[0] + needle, j - 1);
        }
      }
    }
  }

  // ---- The whole scrub ----

  datatype Rule = Rule(needle: string, token: string)

  function ApplyAll(text: string, rules: seq<Rule>): string
    decreases |rules|
  {
    if rules == [] then text else ApplyAll(Replace(text, rules[0].needle, rules[0].token), rules[1..])
  }

  /** Puts a rule before every rule whose needle is not longer, so that equal lengths keep their order. */
  function Place(rule: Rule, sorted: seq<Rule>): seq<Rule> {
    if sorted == [] || |sorted[0].needle| <= |rule.needle| then [rule] + sorted
    else [sorted[0]] + Place(rule, sorted[1..])
  }

  /** A stable sort, longest needle first. */
  function MostSpecificFirst(rules: seq<Rule>): seq<Rule> {
    if rules == [] then [] else Place(rules[0], MostSpecificFirst(rules[1..]))
  }

  function TmpRules(tmpDirs: seq<string>): (rules: seq<Rule>)
    ensures |rules| == |tmpDirs|
    ensures forall i | 0 <= i < |rules| :: rules[i] == Rule(tmpDirs[i], "<tmp>")
  {
    if tmpDirs == [] then [] else [Rule(tmpDirs[0], "<tmp>")] + TmpRules(tmpDirs[1..])
  }

  function Rules(repoRoot: string, home: string, tmpDirs: seq<string>): seq<Rule> {
    TmpRules(tmpDirs) + [Rule(repoRoot, "."), Rule(home, "~")]
  }

  method ScrubPaths(text: string, repoRoot: string, home: string, tmpDirs: seq<string>) returns (scrubbed: string)
    ensures scrubbed == ApplyAll(text, MostSpecificFirst(Rules(repoRoot, home, tmpDirs)))
  {
    scrubbed := text;
    var rules := MostSpecificFirst(Rules(repoRoot, home, tmpDirs));
    var i := 0;
    while i < |rules|
      invariant i <= |rules|
      invariant ApplyAll(scrubbed, rules[i..]) == ApplyAll(text, rules)
    {
      assert rules[i..][1..] == rules[i + 1..];
      scrubbed := Replace(scrubbed, rules[i].needle, rules[i].token);
      i := i + 1;
    }
  }

  lemma {:induction false} PlaceKeepsRules(rule: Rule, sorted: seq<Rule>, x: Rule)
    ensures x in Place(rule, sorted) <==> x == rule || x in sorted
  {
    if sorted != [] {
      PlaceKeepsRules(rule, sorted[1..], x);
    }
  }

  lemma {:induction false} SortKeepsRules(rules: seq<Rule>, x: Rule)
    ensures x in MostSpecificFirst(rules) <==> x in rules
  {
    if rules != [] {
      SortKeepsRules(rules[1..], x);
      PlaceKeepsRules(rules[0], MostSpecificFirst(rules[1..]), x);
    }
  }

  function OfLength(rules: seq<Rule>, n: nat): seq<Rule> {
    if rules == [] then []
    else if |rules[0].needle| == n then [rules[0]] + OfLength(rules[1..], n)
    else OfLength(rules[1..], n)
  }

  lemma OfLengthCons(rule: Rule, rest: seq<Rule>, n: nat)
    ensures OfLength([rule] + rest, n) == if |rule.needle| == n then [rule] + OfLength(rest, n) else OfLength(rest, n)
  {
    assert ([rule] + rest)[1..] == rest;
  }

  lemma {:induction false} PlaceIsStable(rule: Rule, sorted: seq<Rule>, n: nat)
    ensures OfLength(Place(rule, sorted), n) == OfLength([rule] + sorted, n)
  {
    OfLengthCons(rule, sorted, n);
    if sorted != [] && |sorted[0].needle| > |rule.needle| {
      PlaceIsStable(rule, sorted[1..], n);
      OfLengthCons(rule, sorted[1..], n);
      OfLengthCons(sorted[0], Place(rule, sorted[1..]), n);
      OfLengthCons(sorted[0], sorted[1..], n);
      assert sorted == [sorted[0]] + sorted[1..];
    }
  }

  /** Sorting is a stable permutation: the rules of each length are the same, in the same order. */
  lemma {:induction false} SortIsStable(rules: seq<Rule>, n: nat)
    ensures OfLength(MostSpecificFirst(rules), n) == OfLength(rules, n)
  {
    if rules != [] {
      SortIsStable(rules[1..], n);
      PlaceIsStable(rules[0], MostSpecificFirst(rules[1..]), n);
      OfLengthCons(rules[0], MostSpecificFirst(rules[1..]), n);
      OfLengthCons(rules[0], rules[1..], n);
      assert rules == [rules[0]] + rules[1..];
    }
  }

  /** A needle that is apart from every token and absent at first, or replaced on the way, is absent at the end. */
  lemma {:induction false} NeedleIsGone(text: string, rules: seq<Rule>, needle: string)
    requires needle != [] && forall rule | rule in rules :: IsApart(needle, rule.token)
    requires !Occurs(needle, text) || exists rule :: rule in rules && rule.needle == needle
    ensures !Occurs(needle, ApplyAll(text, rules))
    decreases |rules|
  {
    if rules != [] {
      var next := Replace(text, rules[0].needle, rules[0].token);
      if Occurs(needle, next) {
        OccurrenceWasThere(needle, text, rules[0].needle, rules[0].token);
      }
      NeedleIsGone(next, rules[1..], needle);
    }
  }

  /** Only the tokens of a needle's own rule and of the later ones matter. */
  lemma {:induction false} NeedleIsGoneFrom(text: string, rules: seq<Rule>, k: nat)
    requires k < |rules| && rules[k].needle != []
    requires forall j | k <= j < |rules| :: IsApart(rules[k].needle, rules[j].token)
    ensures !Occurs(rules[k].needle, ApplyAll(text, rules))
    decreases |rules|
  {
    if k == 0 {
      NeedleIsGone(text, rules, rules[0].needle);
    } else {
      NeedleIsGoneFrom(Replace(text, rules[0].needle, rules[0].token), rules[1..], k - 1);
    }
  }

  lemma OccursWithin(part: string, whole: string, text: string)
    requires Occurs(part, whole) && Occurs(whole, text)
    ensures Occurs(part, text)
  {
    var i: nat :| OccursAt(part, whole, i);
    var j: nat :| OccursAt(whole, text, j);
    assert text[j..][..|whole|] == whole;
    assert text[i + j..] == text[j..][i..] && part <= whole[i..];
    assert text[j..][i..][..|whole| - i] == whole[i..];
    assert OccursAt(part, text, i + j);
  }

  /**
  A path is nowhere in the scrubbed text, and nor is any path that contains it, when it lacks
  the end characters of its own token and of those applied later, and is no part of one;
  whatever the text and the other paths are.
  */
  lemma ScrubLeavesNoNeedle(text: string, repoRoot: string, home: string, tmpDirs: seq<string>, k: nat, path: string)
    requires var sorted := MostSpecificFirst(Rules(repoRoot, home, tmpDirs));
             && k < |sorted| && sorted[k].needle != []
             && (forall j | k <= j < |sorted| :: IsApart(sorted[k].needle, sorted[j].token))
             && Occurs(sorted[k].needle, path)
    ensures !Occurs(path, ApplyAll(text, MostSpecificFirst(Rules(repoRoot, home, tmpDirs))))
  {
    var sorted := MostSpecificFirst(Rules(repoRoot, home, tmpDirs));
    NeedleIsGoneFrom(text, sorted, k);
    if Occurs(path, ApplyAll(text, sorted)) {
      OccursWithin(sorted[k].needle, path, ApplyAll(text, sorted));
    }
  }

  lemma OneCharApart(needle: string, c: char)
    requires needle != [] && c !in needle
    ensures IsApart(needle, [c])
  {
    assert [c][0..] == [c] && [c][1..] == [];
  }

  /** No needle is empty or can overlap a token of any of the rules. */
  ghost predicate AreApart(rules: seq<Rule>) {
    forall i, j | 0 <= i < |rules| && 0 <= j < |rules| ::
      rules[i].needle != [] && IsApart(rules[i].needle, rules[j].token)
  }

  /** Every needle is longer than its token. */
  predicate AreShortening(rules: seq<Rule>) {
    forall i | 0 <= i < |rules| :: |rules[i].needle| > |rules[i].token|
  }

  /** Scrubbing leaves a text alone exactly when no needle occurs in it. */
  lemma UnchangedIff(text: string, rules: seq<Rule>)
    requires AreShortening(rules) || AreApart(rules)
    ensures ApplyAll(text, rules) == text <==> forall rule | rule in rules :: !Occurs(rule.needle, text)
  {
    if AreShortening(rules) {
      ScrubShortens(text, rules);
    } else if ApplyAll(text, rules) == text {
      forall rule | rule in rules ensures !Occurs(rule.needle, text) {
        ApartFromAll(rules, rule);
        NeedleIsGone(text, rules, rule.needle);
      }
    }
    if forall rule | rule in rules :: !Occurs(rule.needle, text) {
      forall rule | rule in rules ensures rule.needle != [] {
        NeedleIsText(rules, rule);
      }
      NothingToApply(text, rules);
    }
  }

  lemma NeedleIsText(rules: seq<Rule>, rule: Rule)
    requires (AreShortening(rules) || AreApart(rules)) && rule in rules
    ensures rule.needle != []
  {
    var i :| 0 <= i < |rules| && rules[i] == rule;
    assert AreApart(rules) ==> IsApart(rules[i].needle, rules[i].token);
  }

  /** A replacement that shortens the needle shortens every text in which it occurs, and no text grows. */
  lemma {:induction false} ReplaceShortens(text: string, needle: string, token: string)
    requires |needle| > |token|
    ensures |Replace(text, needle, token)| <= |text|
    ensures Occurs(needle, text) ==> |Replace(text, needle, token)| < |text|
    decreases |text|
  {
    if needle <= text {
      ReplaceShortens(text[|needle|..], needle, token);
    } else if text != [] {
      ReplaceShortens(text[1..], needle, token);
      if i: nat :| OccursAt(needle, text, i) {
        assert text[0..] == text;
        assert text[i..] == text[1..][i - 1..] && OccursAt(needle, text[1..], i - 1);
      }
    }
  }

  lemma {:induction false} ScrubShortens(text: string, rules: seq<Rule>)
    requires AreShortening(rules)
    ensures |ApplyAll(text, rules)| <= |text|
    ensures ApplyAll(text, rules) == text ==> forall rule | rule in rules :: !Occurs(rule.needle, text)
    decreases |rules|
  {
    if rules != [] {
      var first := rules[0];
      var next := Replace(text, first.needle, first.token);
      ReplaceShortens(text, first.needle, first.token);
      ScrubShortens(next, rules[1..]);
      if !Occurs(first.needle, text) {
        NothingToReplace(text, first.needle, first.token);
      }
    }
  }

  lemma ApartFromAll(rules: seq<Rule>, rule: Rule)
    requires AreApart(rules) && rule in rules
    ensures rule.needle != [] && forall other | other in rules :: IsApart(rule.needle, other.token)
  {
    var i :| 0 <= i < |rules| && rules[i] == rule;
    forall other | other in rules ensures IsApart(rule.needle, other.token) {
      var j :| 0 <= j < |rules| && rules[j] == other;
    }
  }

  lemma {:induction false} NothingToApply(text: string, rules: seq<Rule>)
    requires forall rule | rule in rules :: rule.needle != [] && !Occurs(rule.needle, text)
    ensures ApplyAll(text, rules) == text
    decreases |rules|
  {
    if rules != [] {
      NothingToReplace(text, rules[0].needle, rules[0].token);
      NothingToApply(text, rules[1..]);
    }
  }

  // ---- Longest first ----

  ghost predicate IsSorted(rules: seq<Rule>) {
    forall i, j | 0 <= i < j < |rules| :: |rules[i].needle| >= |rules[j].needle|
  }

  lemma {:induction false} PlaceKeepsSorted(rule: Rule, sorted: seq<Rule>)
    requires IsSorted(sorted)
    ensures IsSorted(Place(rule, sorted))
  {
    if sorted != [] && |sorted[0].needle| > |rule.needle| {
      PlaceKeepsSorted(rule, sorted[1..]);
      var rest := Place(rule, sorted[1..]);
      forall j | 0 <= j < |rest| ensures |rest[j].needle| <= |sorted[0].needle| {
        PlaceKeepsRules(rule, sorted[1..], rest[j]);
      }
    }
  }

  lemma {:induction false} SortIsSorted(rules: seq<Rule>)
    ensures IsSorted(MostSpecificFirst(rules))
  {
    if rules != [] {
      SortIsSorted(rules[1..]);
      PlaceKeepsSorted(rules[0], MostSpecificFirst(rules[1..]));
    }
  }

  lemma NotShorterNotInside(needle: string, text: string)
    requires |needle| >= |text| && needle != text
    ensures !Occurs(needle, text)
  {
    assert text[0..] == text;
  }

  lemma ReplaceItself(needle: string, token: string)
    requires needle != []
    ensures Replace(needle, needle, token) == token
  {
    assert needle[|needle|..] == [] && Replace([], needle, token) == [];
  }

  /** No needle is empty, and no later rule finds its needle in the token of rule `k`. */
  ghost predicate TokenStays(rules: seq<Rule>, k: nat) {
    && k < |rules| && (forall j | 0 <= j < |rules| :: rules[j].needle != [])
    && forall j | k < j < |rules| :: !Occurs(rules[j].needle, rules[k].token)
  }

  /**
  The most specific rule wins: a path that is a needle becomes its own token, however many
  shorter needles it contains, when no later needle lies within that token. (For a home inside
  which the repository lies, the repository path becomes `.` and not something below `~`.)
  */
  lemma {:induction false} MostSpecificWins(rules: seq<Rule>, k: nat)
    requires IsSorted(rules) && TokenStays(rules, k)
    requires forall i | 0 <= i < k :: rules[i].needle != rules[k].needle
    ensures ApplyAll(rules[k].needle, rules) == rules[k].token
    decreases |rules|
  {
    var path := rules[k].needle;
    if k == 0 {
      ReplaceItself(path, rules[0].token);
      forall rule | rule in rules[1..] ensures rule.needle != [] && !Occurs(rule.needle, rules[0].token) {
        var j :| 0 <= j < |rules[1..]| && rules[1..][j] == rule;
        assert rule == rules[j + 1];
      }
      NothingToApply(rules[0].token, rules[1..]);
    } else {
      NotShorterNotInside(rules[0].needle, path);
      NothingToReplace(path, rules[0].needle, rules[0].token);
      TailTokenStays(rules, k);
      MostSpecificWins(rules[1..], k - 1);
    }
  }

  lemma TailTokenStays(rules: seq<Rule>, k: nat)
    requires TokenStays(rules, k) && k > 0
    ensures TokenStays(rules[1..], k - 1)
  {
    assert forall j | 0 <= j < |rules[1..]| :: rules[1..][j] == rules[j + 1];
  }

  // ---- What a path itself becomes ----

  /** The first rule for a needle, when there is one. */
  function FirstFor(rules: seq<Rule>, needle: string): seq<Rule> {
    if rules == [] then [] else if rules[0].needle == needle then [rules[0]] else FirstFor(rules[1..], needle)
  }

  lemma {:induction false} FirstOfLength(rules: seq<Rule>, needle: string)
    ensures FirstFor(OfLength(rules, |needle|), needle) == FirstFor(rules, needle)
  {
    if rules != [] {
      FirstOfLength(rules[1..], needle);
    }
  }

  lemma {:induction false} FirstForAt(rules: seq<Rule>, needle: string) returns (k: nat)
    requires FirstFor(rules, needle) != []
    ensures k < |rules| && rules[k].needle == needle && FirstFor(rules, needle) == [rules[k]]
    ensures forall i | 0 <= i < k :: rules[i].needle != needle
  {
    if rules[0].needle == needle {
      k := 0;
    } else {
      var j := FirstForAt(rules[1..], needle);
      k := j + 1;
      assert forall i | 1 <= i < k :: rules[i] == rules[1..][i - 1];
    }
  }

  lemma {:induction false} FirstAmongRules(repoRoot: string, home: string, tmpDirs: seq<string>, path: string)
    ensures FirstFor(Rules(repoRoot, home, tmpDirs), path)
         == if path in tmpDirs then [Rule(path, "<tmp>")]
            else if path == repoRoot then [Rule(path, ".")]
            else if path == home then [Rule(path, "~")] else []
    decreases tmpDirs
  {
    var rules := Rules(repoRoot, home, tmpDirs);
    if tmpDirs == [] {
      assert rules == [Rule(repoRoot, "."), Rule(home, "~")];
      assert rules[1..] == [Rule(home, "~")] && rules[1..][1..] == [];
      assert FirstFor(rules[1..][1..], path) == [];
      assert FirstFor(rules[1..], path) == if path == home then [Rule(home, "~")] else [];
    } else {
      FirstAmongRules(repoRoot, home, tmpDirs[1..], path);
      assert rules[1..] == Rules(repoRoot, home, tmpDirs[1..]);
    }
  }

  predicate HaveSeparator(paths: seq<string>) {
    forall i | 0 <= i < |paths| :: '/' in paths[i]
  }

  lemma RulesOfPaths(repoRoot: string, home: string, tmpDirs: seq<string>, rule: Rule)
    requires HaveSeparator(tmpDirs + [repoRoot, home]) && rule in Rules(repoRoot, home, tmpDirs)
    ensures '/' in rule.needle && '/' !in rule.token
  {
    var rules, all := Rules(repoRoot, home, tmpDirs), tmpDirs + [repoRoot, home];
    var i :| 0 <= i < |rules| && rules[i] == rule;
    assert rules[i].needle == all[i];
  }

  /**
  A temporary directory becomes `<tmp>`, the repository `.` and the home `~`, whatever
  contains what; a path that is several of them counts as the first in this order.
  */
  lemma PathBecomesItsToken(repoRoot: string, home: string, tmpDirs: seq<string>, path: string)
    requires HaveSeparator(tmpDirs + [repoRoot, home]) && path in tmpDirs + [repoRoot, home]
    ensures ApplyAll(path, MostSpecificFirst(Rules(repoRoot, home, tmpDirs)))
         == if path in tmpDirs then "<tmp>" else if path == repoRoot then "." else "~"
  {
    var rules := Rules(repoRoot, home, tmpDirs);
    var sorted := MostSpecificFirst(rules);
    FirstAmongRules(repoRoot, home, tmpDirs, path);
    SortIsStable(rules, |path|);
    FirstOfLength(rules, path);
    FirstOfLength(sorted, path);
    var k := FirstForAt(sorted, path);
    SortIsSorted(rules);
    forall j | 0 <= j < |sorted| ensures '/' in sorted[j].needle && '/' !in sorted[j].token {
      SortKeepsRules(rules, sorted[j]);
      RulesOfPaths(repoRoot, home, tmpDirs, sorted[j]);
    }
    forall j | k < j < |sorted| ensures !Occurs(sorted[j].needle, sorted[k].token) {
      PartLacks(sorted[j].needle, sorted[k].token, '/');
    }
    MostSpecificWins(sorted, k);
  }

  // ---- When a single replacement can leave its needle behind ----

  predicate IsFirst(needle: string, c: char, i: nat) {
    i < |needle| && needle[i] == c && c !in needle[..i]
  }

  lemma {:induction false} FirstIndex(needle: string, c: char) returns (i: nat)
    requires c in needle
    ensures IsFirst(needle, c, i)
  {
    if needle[0] == c {
      i := 0;
    } else {
      var j := FirstIndex(needle[1..], c);
      i := j + 1;
      assert needle[..i] == [needle[0]] + needle[1..][..j];
    }
  }

  /** The needle wrapped in what stands around its first `c`. */
  function Wrapped(needle: string, i: nat): string
    requires i < |needle|
  {
    needle[..i] + needle + needle[i + 1..]
  }

  ghost predicate NoMatchBefore(needle: string, text: string, n: nat) {
    forall j: nat | j < n :: !OccursAt(needle, text, j)
  }

  lemma NoMatchHere(text: string, needle: string, token: string, n: nat)
    requires needle != [] && text != [] && n > 0 && NoMatchBefore(needle, text, n)
    ensures Replace(text, needle, token) == [text[0]] + Replace(text[1..], needle, token)
    ensures NoMatchBefore(needle, text[1..], n - 1)
  {
    assert text[0..] == text && !OccursAt(needle, text, 0);
    forall j: nat | j < n - 1 ensures !OccursAt(needle, text[1..], j) {
      assert j < |text| ==> text[j + 1..] == text[1..][j..];
      assert !OccursAt(needle, text, j + 1);
    }
  }

  lemma {:induction false} ReplaceAfter(before: string, text: string, needle: string, token: string)
    requires needle != [] && NoMatchBefore(needle, before + text, |before|)
    ensures Replace(before + text, needle, token) == before + Replace(text, needle, token)
    decreases |before|
  {
    if before == [] {
      assert before + text == text;
    } else {
      assert (before + text)[1..] == before[1..] + text;
      NoMatchHere(before + text, needle, token, |before|);
      ReplaceAfter(before[1..], text, needle, token);
      ConsAppend(before, Replace(text, needle, token));
    }
  }

  lemma ConsAppend(a: string, b: string)
    requires a != []
    ensures [a[0]] + (a[1..] + b) == a + b
  {
  }

  /** In the wrapped needle no match begins before the needle itself. */
  lemma NoEarlierMatch(needle: string, c: char, i: nat, j: nat)
    requires IsFirst(needle, c, i) && j < i
    ensures !OccursAt(needle, Wrapped(needle, i), j)
  {
    var text := Wrapped(needle, i);
    assert text[j..][i] == text[j + i] == needle[j] == needle[..i][j];
  }

  lemma TooLongToOccur(needle: string, text: string)
    requires |needle| > |text|
    ensures !Occurs(needle, text)
  {
  }

  lemma WrappedComesBack(needle: string, c: char, i: nat)
    requires IsFirst(needle, c, i)
    ensures Replace(Wrapped(needle, i), needle, [c]) == needle
  {
    var before, after := needle[..i], needle[i + 1..];
    var tail := needle + after;
    assert Wrapped(needle, i) == before + tail;
    assert NoMatchBefore(needle, before + tail, |before|) by {
      forall j: nat | j < |before| ensures !OccursAt(needle, before + tail, j) {
        NoEarlierMatch(needle, c, i, j);
      }
    }
    ReplaceAfter(before, tail, needle, [c]);
    LeadingReplaced(needle, after, [c]);
    assert needle == before + ([c] + after);
  }

  lemma LeadingReplaced(needle: string, after: string, token: string)
    requires |after| < |needle|
    ensures Replace(needle + after, needle, token) == token + after
  {
    assert (needle + after)[|needle|..] == after && needle <= needle + after;
    TooLongToOccur(needle, after);
    NothingToReplace(after, needle, token);
  }

  /**
  Replacing by a one-character token gets rid of the needle in every text exactly when the
  needle does not contain that character: a repository root with a dot in it can survive.
  */
  lemma NeedleIsGoneIff(needle: string, c: char)
    requires needle != []
    ensures (forall text :: !Occurs(needle, Replace(text, needle, [c]))) <==> c !in needle
  {
    if c in needle {
      var i := FirstIndex(needle, c);
      WrappedComesBack(needle, c, i);
      assert OccursAt(needle, needle, 0);
      assert Occurs(needle, Replace(Wrapped(needle, i), needle, [c]));
    } else {
      OneCharApart(needle, c);
      forall text ensures !Occurs(needle, Replace(text, needle, [c])) {
        if Occurs(needle, Replace(text, needle, [c])) {
          OccurrenceWasThere(needle, text, needle, [c]);
        }
      }
    }
  }

  // ---- When the scrub can leave a path behind ----

  /** The texts that `text` can have come from when some of the characters `c` in it are replaced needles. */
  function Unfoldings(text: string, needle: string, c: char): set<string> {
    if text == [] then {[]}
    else
      var rest := Unfoldings(text[1..], needle, c);
      (set t | t in rest :: [text[0]] + t) + (if text[0] == c then set t | t in rest :: needle + t else {})
  }

  /** With a longer token nothing is undone: the text can only have been there before. */
  function Origins(text: string, rule: Rule): set<string> {
    if |rule.token| == 1 then Unfoldings(text, rule.needle, rule.token[0]) else {text}
  }

  /** The finitely many texts, made of the path and the needles, that the rules turn into exactly the path. */
  function Sources(path: string, rules: seq<Rule>): set<string>
    decreases |rules|
  {
    if rules == [] then {path}
    else
      var rule := rules[0];
      set after, before | after in Sources(path, rules[1..]) && before in Origins(after, rule)
                          && Replace(before, rule.needle, rule.token) == after :: before
  }

  predicate AreOneChar(rules: seq<Rule>) {
    forall i | 0 <= i < |rules| :: rules[i].needle != [] && |rules[i].token| == 1
  }

  /** Has a separator and neither of the brackets of `<tmp>`. */
  predicate IsPathLike(text: string) {
    '/' in text && '<' !in text && '>' !in text
  }

  predicate ArePaths(rules: seq<Rule>) {
    forall i | 0 <= i < |rules| :: IsPathLike(rules[i].needle) && (|rules[i].token| == 1 || rules[i].token == "<tmp>")
  }

  /** One-character tokens only, or `<tmp>` too with needles and a path that cannot overlap it. */
  predicate AreTraceable(path: string, rules: seq<Rule>) {
    AreOneChar(rules) || (IsPathLike(path) && ArePaths(rules))
  }

  lemma PartLacks(part: string, whole: string, c: char)
    ensures Occurs(part, whole) && c !in whole ==> c !in part
  {
    if Occurs(part, whole) && c !in whole {
      var i: nat :| OccursAt(part, whole, i);
      forall k | 0 <= k < |part| ensures part[k] != c {
        assert part[k] == whole[i..][k] == whole[i + k];
      }
    }
  }

  lemma PathLikeIsApart(text: string)
    requires IsPathLike(text)
    ensures IsApart(text, "<tmp>")
  {
    PartLacks(text, "<tmp>", '/');
  }

  lemma {:induction false} UnfoldingsArePathLike(text: string, needle: string, c: char, before: string)
    requires IsPathLike(needle) && '<' !in text && '>' !in text && before in Unfoldings(text, needle, c)
    ensures '<' !in before && '>' !in before && ('/' in text ==> '/' in before)
  {
    if text != [] {
      var rest := Unfoldings(text[1..], needle, c);
      if t :| t in rest && before == [text[0]] + t {
        UnfoldingsArePathLike(text[1..], needle, c, t);
      } else {
        var t :| t in rest && before == needle + t;
        UnfoldingsArePathLike(text[1..], needle, c, t);
      }
    }
  }

  lemma {:induction false} SourceIsPathLike(path: string, rules: seq<Rule>, source: string)
    requires IsPathLike(path) && ArePaths(rules) && source in Sources(path, rules)
    ensures IsPathLike(source)
    decreases |rules|
  {
    if rules != [] {
      var rule := rules[0];
      var after :| after in Sources(path, rules[1..]) && source in Origins(after, rule);
      SourceIsPathLike(path, rules[1..], after);
      if |rule.token| == 1 {
        UnfoldingsArePathLike(after, rule.needle, rule.token[0], source);
      }
    }
  }

  /** A path-like text found behind the replacement by `<tmp>` was there before, free of the needle. */
  lemma PathLikeWasThere(after: string, text: string, needle: string)
    requires IsPathLike(after) && IsPathLike(needle) && Occurs(after, Replace(text, needle, "<tmp>"))
    ensures Occurs(after, text) && Replace(after, needle, "<tmp>") == after
  {
    PathLikeIsApart(after);
    PathLikeIsApart(needle);
    OccurrenceWasThere(after, text, needle, "<tmp>");
    if Occurs(needle, after) {
      OccursWithin(needle, after, Replace(text, needle, "<tmp>"));
      OccurrenceWasThere(needle, text, needle, "<tmp>");
    }
    NothingToReplace(after, needle, "<tmp>");
  }

  lemma {:induction false} Preimage(start: string, text: string, needle: string, c: char) returns (before: string)
    requires needle != [] && start <= Replace(text, needle, [c])
    ensures before <= text && before in Unfoldings(start, needle, c) && Replace(before, needle, [c]) == start
    decreases |text|
  {
    if start == [] {
      before := [];
    } else if needle <= text {
      var tail := text[|needle|..];
      CutPrefix(start, c, Replace(tail, needle, [c]));
      var rest := Preimage(start[1..], tail, needle, c);
      before := needle + rest;
      GrowPrefix(needle, rest, text);
      ReplaceLeading(rest, needle, [c]);
      UnfoldLeading(start, needle, c, rest);
    } else {
      CutPrefix(start, text[0], Replace(text[1..], needle, [c]));
      var rest := Preimage(start[1..], text[1..], needle, c);
      before := [text[0]] + rest;
      GrowPrefix([text[0]], rest, text);
      ReplaceKept(text, rest, needle, [c]);
      UnfoldLeading(start, needle, c, rest);
    }
  }

  lemma CutPrefix(start: string, c: char, rest: string)
    requires start != [] && start <= [c] + rest
    ensures start == [c] + start[1..] && start[1..] <= rest
  {
    assert start[1..] == ([c] + rest)[..|start|][1..] == rest[..|start| - 1];
  }

  lemma PrefixOfPrefix(a: string, b: string, c: string)
    requires b <= c
    ensures a <= b ==> a <= c
  {
  }

  lemma GrowPrefix(head: string, rest: string, text: string)
    requires head <= text && rest <= text[|head|..]
    ensures head + rest <= text
  {
    assert text == head + text[|head|..];
  }

  lemma UnfoldLeading(text: string, needle: string, c: char, rest: string)
    requires text != [] && rest in Unfoldings(text[1..], needle, c)
    ensures [text[0]] + rest in Unfoldings(text, needle, c)
    ensures text[0] == c ==> needle + rest in Unfoldings(text, needle, c)
  {
  }

  lemma ReplaceLeading(rest: string, needle: string, token: string)
    requires needle != []
    ensures Replace(needle + rest, needle, token) == token + Replace(rest, needle, token)
  {
    assert (needle + rest)[|needle|..] == rest;
  }

  lemma ReplaceKept(text: string, rest: string, needle: string, token: string)
    requires needle != [] && text != [] && !(needle <= text) && [text[0]] + rest <= text
    ensures Replace([text[0]] + rest, needle, token) == [text[0]] + Replace(rest, needle, token)
  {
    var kept := [text[0]] + rest;
    assert kept[1..] == rest;
    PrefixOfPrefix(needle, kept, text);
  }

  lemma {:induction false} PreimageAt(path: string, text: string, needle: string, c: char, i: nat)
      returns (before: string)
    requires needle != [] && OccursAt(path, Replace(text, needle, [c]), i)
    ensures Occurs(before, text) && before in Unfoldings(path, needle, c) && Replace(before, needle, [c]) == path
    decreases |text|
  {
    var result := Replace(text, needle, [c]);
    if i == 0 {
      assert result[0..] == result && text[0..] == text;
      before := Preimage(path, text, needle, c);
      assert OccursAt(before, text, 0);
    } else {
      var skipped := if needle <= text then |needle| else 1;
      assert result[i..] == Replace(text[skipped..], needle, [c])[i - 1..];
      before := PreimageAt(path, text[skipped..], needle, c, i - 1);
      OccursLater(before, text, skipped);
    }
  }

  lemma {:induction false} SourceScrubs(path: string, rules: seq<Rule>, source: string)
    requires source in Sources(path, rules)
    ensures ApplyAll(source, rules) == path
    decreases |rules|
  {
    if rules != [] {
      var after := Replace(source, rules[0].needle, rules[0].token);
      SourceScrubs(path, rules[1..], after);
    }
  }

  lemma {:induction false} SourceExists(path: string, rules: seq<Rule>, text: string) returns (source: string)
    requires AreTraceable(path, rules) && Occurs(path, ApplyAll(text, rules))
    ensures source in Sources(path, rules) && Occurs(source, text)
    decreases |rules|
  {
    if rules == [] {
      source := path;
    } else {
      var rule := rules[0];
      var after := SourceExists(path, rules[1..], Replace(text, rule.needle, rule.token));
      if !AreOneChar(rules) {
        SourceIsPathLike(path, rules[1..], after);
      }
      source := OriginExists(rule, text, after);
      SourceFrom(path, rules, after, source);
    }
  }

  ghost predicate IsOrigin(rule: Rule, before: string, after: string) {
    before in Origins(after, rule) && Replace(before, rule.needle, rule.token) == after
  }

  lemma SourceFrom(path: string, rules: seq<Rule>, after: string, before: string)
    requires rules != [] && after in Sources(path, rules[1..]) && IsOrigin(rules[0], before, after)
    ensures before in Sources(path, rules)
  {
  }

  lemma OriginExists(rule: Rule, text: string, after: string) returns (before: string)
    requires rule.needle != [] && (|rule.token| == 1
             || (rule.token == "<tmp>" && IsPathLike(rule.needle) && IsPathLike(after)))
    requires Occurs(after, Replace(text, rule.needle, rule.token))
    ensures IsOrigin(rule, before, after) && Occurs(before, text)
  {
    if |rule.token| == 1 {
      assert rule.token == [rule.token[0]];
      var i: nat :| OccursAt(after, Replace(text, rule.needle, rule.token), i);
      before := PreimageAt(after, text, rule.needle, rule.token[0], i);
    } else {
      PathLikeWasThere(after, text, rule.needle);
      before := after;
    }
  }

  /** No text leaves the path behind: it occurs in no result of the rules. */
  ghost predicate IsAlwaysGone(path: string, rules: seq<Rule>) {
    forall text :: !Occurs(path, ApplyAll(text, rules))
  }

  /**
  A path is gone from every result if and only if it has no source: finitely many
  candidates, all of which can be tried beforehand.
  */
  lemma GoneIffNoSource(path: string, rules: seq<Rule>)
    requires AreTraceable(path, rules)
    ensures IsAlwaysGone(path, rules) <==> Sources(path, rules) == {}
  {
    if source :| source in Sources(path, rules) {
      SourceScrubs(path, rules, source);
      assert path[0..] == path && OccursAt(path, path, 0);
      assert Occurs(path, ApplyAll(source, rules));
    }
    if text :| Occurs(path, ApplyAll(text, rules)) {
      var source := SourceExists(path, rules, text);
    }
  }

  /**
  So it is for the scrub of a repository, a home and any temporary directories, whichever
  path is asked for; with temporary directories, for paths that have a separator and no
  angle bracket.
  */
  lemma ScrubGoneIffNoSource(repoRoot: string, home: string, tmpDirs: seq<string>, path: string)
    requires repoRoot != [] && home != []
    requires tmpDirs == [] || AllPathLike(tmpDirs + [repoRoot, home, path])
    ensures var sorted := MostSpecificFirst(Rules(repoRoot, home, tmpDirs));
            IsAlwaysGone(path, sorted) <==> Sources(path, sorted) == {}
  {
    var rules := Rules(repoRoot, home, tmpDirs);
    var sorted := MostSpecificFirst(rules);
    if tmpDirs == [] {
      TwoRules(repoRoot, home);
    } else {
      assert (tmpDirs + [repoRoot, home, path])[|tmpDirs| + 2] == path;
      RulesArePaths(repoRoot, home, tmpDirs, path);
      SortedArePaths(rules);
    }
    GoneIffNoSource(path, sorted);
  }

  lemma RulesArePaths(repoRoot: string, home: string, tmpDirs: seq<string>, path: string)
    requires AllPathLike(tmpDirs + [repoRoot, home, path])
    ensures ArePaths(Rules(repoRoot, home, tmpDirs))
  {
    var all, rules := tmpDirs + [repoRoot, home, path], Rules(repoRoot, home, tmpDirs);
    assert forall i | 0 <= i < |rules| :: rules[i].needle == all[i];
  }

  lemma SortedArePaths(rules: seq<Rule>)
    requires ArePaths(rules)
    ensures ArePaths(MostSpecificFirst(rules))
  {
    var sorted := MostSpecificFirst(rules);
    forall i | 0 <= i < |sorted|
      ensures IsPathLike(sorted[i].needle) && (|sorted[i].token| == 1 || sorted[i].token == "<tmp>")
    {
      SortKeepsRules(rules, sorted[i]);
    }
  }

  predicate AllPathLike(texts: seq<string>) {
    forall i | 0 <= i < |texts| :: IsPathLike(texts[i])
  }

  lemma TwoRules(repoRoot: string, home: string)
    ensures var rules := [Rule(repoRoot, "."), Rule(home, "~")];
            && Rules(repoRoot, home, []) == rules
            && MostSpecificFirst(rules)
               == (if |repoRoot| >= |home| then rules else [Rule(home, "~"), Rule(repoRoot, ".")])
  {
    var repo, last := Rule(repoRoot, "."), Rule(home, "~");
    assert TmpRules([]) + [repo, last] == [repo, last];
    assert [repo, last][1..] == [last] && [last][1..] == [];
    assert MostSpecificFirst([]) == [] && Place(last, []) == [last] && Place(repo, []) == [repo];
    assert MostSpecificFirst([last]) == [last];
    assert MostSpecificFirst([repo, last]) == Place(repo, [last]);
    assert [repo] + [last] == [repo, last] && [last] + [repo] == [last, repo];
  }

  lemma ApplyTwo(text: string, first: Rule, second: Rule)
    ensures ApplyAll(text, [first, second])
            == Replace(Replace(text, first.needle, first.token), second.needle, second.token)
  {
    var once := Replace(text, first.needle, first.token);
    assert [first, second][1..] == [second] && [second][1..] == [];
    assert ApplyAll(once, [second]) == ApplyAll(Replace(once, second.needle, second.token), []);
  }

  /** A dot in the repository path, and a home outside it: the wrapped path is scrubbed into the path itself. */
  lemma RepoSurvives(repoRoot: string, home: string, i: nat)
    requires home != [] && |repoRoot| >= |home| && IsFirst(repoRoot, '.', i) && !Occurs(home, repoRoot)
    ensures ApplyAll(Wrapped(repoRoot, i), MostSpecificFirst(Rules(repoRoot, home, []))) == repoRoot
  {
    TwoRules(repoRoot, home);
    ApplyTwo(Wrapped(repoRoot, i), Rule(repoRoot, "."), Rule(home, "~"));
    WrappedComesBack(repoRoot, '.', i);
    NothingToReplace(repoRoot, home, "~");
  }

  /**
  A repository path at least as long as the home, and without a tilde, is gone from every
  scrubbed text if and only if it has no dot or contains the home.
  */
  lemma RepoIsGoneIff(repoRoot: string, home: string)
    requires home != [] && |repoRoot| >= |home| && '~' !in repoRoot
    ensures IsAlwaysGone(repoRoot, MostSpecificFirst(Rules(repoRoot, home, [])))
            <==> '.' !in repoRoot || Occurs(home, repoRoot)
  {
    var sorted := MostSpecificFirst(Rules(repoRoot, home, []));
    TwoRules(repoRoot, home);
    assert repoRoot[0..] == repoRoot && OccursAt(repoRoot, repoRoot, 0);
    if '.' !in repoRoot {
      OneCharApart(repoRoot, '.');
      OneCharApart(repoRoot, '~');
      forall text ensures !Occurs(repoRoot, ApplyAll(text, sorted)) {
        ScrubLeavesNoNeedle(text, repoRoot, home, [], 0, repoRoot);
      }
    } else if Occurs(home, repoRoot) {
      PartLacks(home, repoRoot, '~');
      OneCharApart(home, '~');
      forall text ensures !Occurs(repoRoot, ApplyAll(text, sorted)) {
        ScrubLeavesNoNeedle(text, repoRoot, home, [], 1, repoRoot);
      }
    } else {
      var i := FirstIndex(repoRoot, '.');
      RepoSurvives(repoRoot, home, i);
      assert Occurs(repoRoot, ApplyAll(Wrapped(repoRoot, i), sorted));
    }
  }
}
