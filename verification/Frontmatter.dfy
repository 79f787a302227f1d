/** Splitting a markdown file at its frontmatter fences (cli/config-adapters/src/frontmatter.rs). */
module Frontmatter {
  import opened Wrappers
  import opened Text

  datatype Split = Split(frontmatter: string, body: string)

  const UNTERMINATED := "unterminated frontmatter block"

  predicate IsFence(line: string) {
    Content(line) == "---"
  }

  /** Index of the first fence line, or the number of lines. */
  function FirstFence(lines: seq<string>): (k: nat)
    ensures k <= |lines|
    ensures k < |lines| ==> IsFence(lines[k])
    ensures forall i | 0 <= i < k :: !IsFence(lines[i])
  {
    if lines == [] || IsFence(lines[0]) then 0 else 1 + FirstFence(lines[1..])
  }

  predicate OpensFrontmatter(content: string) {
    Lines(content) != [] && IsFence(Lines(content)[0])
  }

  /** The split by position: all body without an opening fence, else cut at the next fence. */
  function SplitOf(content: string): Result<Split, string> {
    SplitLines(content, Lines(content))
  }

  function SplitLines(content: string, lines: seq<string>): Result<Split, string> {
    if lines == [] || !IsFence(lines[0]) then Success(Split("", content))
    else
      var k := 1 + FirstFence(lines[1..]);
      if k == |lines| then Failure(UNTERMINATED) else Success(Split(Join(lines[1..k]), Join(lines[k + 1..])))
  }

  /** The one-pass splitter: a flag and two buffers. */
  method SplitContent(content: string) returns (r: Result<Split, string>)
    ensures r == SplitOf(content)
  {
    var segments := Lines(content);
    r := SplitSegments(content, segments);
  }

  method SplitSegments(content: string, segments: seq<string>) returns (r: Result<Split, string>)
    ensures r == SplitLines(content, segments)
  {
    if segments == [] || !IsFence(segments[0]) {
      return Success(Split("", content));
    }
    ghost var fence := 1 + FirstFence(segments[1..]);
    assert forall j | 1 <= j < |segments| :: segments[j] == segments[1..][j - 1];
    var frontmatter, body, closed := "", "", false;
    var i := 1;
    while i < |segments|
      invariant 1 <= i <= |segments|
      invariant closed <==> fence < i
      invariant frontmatter == Join(segments[1..if closed then fence else i])
      invariant closed ==> body == Join(segments[fence + 1..i])
      invariant !closed ==> body == ""
    {
      if !closed && IsFence(segments[i]) {
        closed := true;
      } else if closed {
        JoinTake(segments, fence + 1, i);
        body := body + segments[i];
      } else {
        JoinTake(segments, 1, i);
        frontmatter := frontmatter + segments[i];
      }
      i := i + 1;
    }
    if !closed {
      return Failure(UNTERMINATED);
    }
    assert segments[fence + 1..|segments|] == segments[fence + 1..];
    r := Success(Split(frontmatter, body));
  }

  lemma JoinTake(lines: seq<string>, i: nat, j: nat)
    requires i <= j < |lines|
    ensures Join(lines[i..j + 1]) == Join(lines[i..j]) + lines[j]
  {
    assert lines[i..j + 1] == lines[i..j] + [lines[j]];
    JoinAppend(lines[i..j], [lines[j]]);
    JoinOne(lines[j]);
  }

  /** No line after the first is a fence. */
  predicate IsNeverClosed(lines: seq<string>) {
    forall i | 1 <= i < |lines| :: !IsFence(lines[i])
  }

  /** A content is refused exactly when its first line is a fence and no later line is. */
  lemma SplitFailsIff(content: string)
    ensures SplitOf(content).Failure? <==>
              OpensFrontmatter(content) && IsNeverClosed(Lines(content))
  {
    SplitLinesFailsIff(content, Lines(content));
  }

  lemma SplitLinesFailsIff(content: string, lines: seq<string>)
    ensures SplitLines(content, lines).Failure? <==>
              lines != [] && IsFence(lines[0]) && IsNeverClosed(lines)
  {
    if lines != [] {
      assert forall i | 0 <= i < |lines[1..]| :: lines[1..][i] == lines[i + 1];
      assert forall i | 1 <= i < |lines| :: lines[i] == lines[1..][i - 1];
    }
  }

  /** A text made of whole lines, none of them a fence: what may stand between the two fences. */
  predicate IsFenceFree(text: string) {
    (text == "" || EndsInLf(text)) && forall i | 0 <= i < |Lines(text)| :: !IsFence(Lines(text)[i])
  }

  /** One line, fence or not, with its terminator. */
  predicate IsClosedLine(line: string) {
    EndsInLf(line) && IsLine(line)
  }

  /** The lines of a split content: one fence, fence-free lines, one fence, the rest. */
  function Layout(opening: string, before: seq<string>, closing: string, after: seq<string>): seq<string> {
    [opening] + (before + ([closing] + after))
  }

  lemma JoinLayout(opening: string, before: seq<string>, closing: string, after: seq<string>)
    ensures Join(Layout(opening, before, closing, after)) == opening + Join(before) + closing + Join(after)
  {
    JoinOne(opening);
    JoinOne(closing);
    JoinAppend([opening], before + ([closing] + after));
    JoinAppend(before, [closing] + after);
    JoinAppend([closing], after);
  }

  lemma JoinOne(line: string)
    ensures Join([line]) == line
  {
    assert [line][1..] == [];
  }

  lemma PartOfLines(lines: seq<string>, i: nat, j: nat)
    requires AreLines(lines) && i <= j <= |lines|
    ensures AreLines(lines[i..j]) && Lines(Join(lines[i..j])) == lines[i..j]
    ensures Join(lines[i..j]) == "" || EndsInLf(Join(lines[i..j])) || j == |lines|
  {
    var part := lines[i..j];
    SliceAreLines(lines, i, j);
    LinesUnique(part);
    LinesPartition(Join(part));
    if part != [] {
      JoinIsNotEmpty(part);
    }
  }

  /** Nothing is lost: the two fences, the frontmatter and the body are the content. */
  lemma SplitLosesNothing(content: string) returns (opening: string, closing: string)
    requires OpensFrontmatter(content) && SplitOf(content).Success?
    ensures var split := SplitOf(content).value;
            content == opening + split.frontmatter + closing + split.body
    ensures IsFence(opening) && IsFence(closing) && IsClosedLine(opening)
    ensures IsClosedLine(closing) || SplitOf(content).value.body == ""
    ensures IsFenceFree(SplitOf(content).value.frontmatter)
  {
    LinesPartition(content);
    opening, closing := SplitLinesLosesNothing(content, Lines(content));
  }

  lemma SplitLinesLosesNothing(content: string, lines: seq<string>) returns (opening: string, closing: string)
    requires AreLines(lines) && lines != [] && IsFence(lines[0]) && SplitLines(content, lines).Success?
    ensures var split := SplitLines(content, lines).value;
            && Join(lines) == opening + split.frontmatter + closing + split.body
            && IsFence(opening) && IsFence(closing) && IsClosedLine(opening)
            && (IsClosedLine(closing) || split.body == "")
            && IsFenceFree(split.frontmatter)
  {
    var k := 1 + FirstFence(lines[1..]);
    opening, closing := lines[0], lines[k];
    var before, after := lines[1..k], lines[k + 1..];
    assert forall i | 0 <= i < |before| :: before[i] == lines[1..][i];
    assert lines == Layout(opening, before, closing, after);
    JoinLayout(opening, before, closing, after);
    PartOfLines(lines, 1, k);
    assert EndsInLf(lines[0]);
    assert after != [] ==> EndsInLf(lines[k]);
  }

  /** The cut is the only one possible: fence, fence-free lines, fence, then anything. */
  lemma SplitUnique(opening: string, frontmatter: string, closing: string, body: string)
    requires IsFence(opening) && IsFence(closing) && IsClosedLine(opening) && IsClosedLine(closing)
    requires IsFenceFree(frontmatter)
    ensures var content := opening + frontmatter + closing + body;
            OpensFrontmatter(content) && SplitOf(content) == Success(Split(frontmatter, body))
  {
    var before, after := Lines(frontmatter), Lines(body);
    LinesPartition(frontmatter);
    LinesPartition(body);
    var content := opening + frontmatter + closing + body;
    LinesOfLayout(content, opening, before, closing, after);
    SplitLayout(content, opening, before, closing, after);
  }

  lemma SplitLayout(content: string, opening: string, before: seq<string>, closing: string, after: seq<string>)
    requires IsFence(opening) && IsFence(closing) && forall i | 0 <= i < |before| :: !IsFence(before[i])
    ensures SplitLines(content, Layout(opening, before, closing, after)) == Success(Split(Join(before), Join(after)))
  {
    var lines := Layout(opening, before, closing, after);
    FirstFenceIs(lines[1..], |before|);
    assert lines[1..|before| + 1] == before && lines[|before| + 2..] == after;
  }

  lemma LinesOfLayout(content: string, opening: string, before: seq<string>, closing: string, after: seq<string>)
    requires IsClosedLine(opening) && IsClosedLine(closing) && AreLines(before) && AreLines(after)
    requires before == [] || EndsInLf(before[|before| - 1])
    requires content == opening + Join(before) + closing + Join(after)
    ensures Lines(content) == Layout(opening, before, closing, after)
  {
    JoinLayout(opening, before, closing, after);
    LinesCons(closing, after);
    AppendLines(before, [closing] + after);
    LinesCons(opening, before + ([closing] + after));
    LinesUnique(Layout(opening, before, closing, after));
  }

  lemma {:induction false} FirstFenceIs(lines: seq<string>, k: nat)
    requires k < |lines| && IsFence(lines[k]) && forall i | 0 <= i < k :: !IsFence(lines[i])
    ensures FirstFence(lines) == k
  {
    if k > 0 {
      FirstFenceIs(lines[1..], k - 1);
    }
  }

  // ---- What opens a frontmatter, read off the text itself ----

  /** Three dashes and the end of a line, in any of its forms, or of the text. */
  predicate BeginsWithFence(content: string) {
    "---" <= content
    && (|content| == 3 || content[3] == '\n' || (content[3] == '\r' && (|content| == 4 || content[4] == '\n')))
  }

  lemma LineIsFenceIff(line: string)
    requires IsLine(line)
    ensures IsFence(line) <==> line == "---" || line == "---\n" || line == "---\r\n" || line == "---\r"
  {
    if IsFence(line) {
      var n := ContentLength(line);
      assert line[..n] == "---" && line == "---" + line[n..];
    }
  }

  /** A frontmatter is opened exactly by a text that begins with a fence and a line's end. */
  lemma OpensIff(content: string)
    ensures OpensFrontmatter(content) <==> BeginsWithFence(content)
  {
    if content != "" {
      var line := content[..LineLength(content)];
      FirstLineIsLine(content);
      LineIsFenceIff(line);
      FirstLineIs(content);
    }
  }

  lemma FirstLineIs(content: string)
    requires content != ""
    ensures forall i | 0 <= i < LineLength(content) - 1 :: content[i] != '\n'
    ensures LineLength(content) == |content| || content[LineLength(content) - 1] == '\n'
  {
    var k := LineLength(content);
    FirstLineIsLine(content);
    assert forall i | 0 <= i < k :: content[..k][i] == content[i];
  }

  /** Without such a beginning the whole content is body, and nothing is frontmatter. */
  lemma PlainContentIsBody(content: string)
    ensures !BeginsWithFence(content) <==> SplitOf(content) == Success(Split("", content))
  {
    OpensIff(content);
    if BeginsWithFence(content) && SplitOf(content).Success? {
      var opening, closing := SplitLosesNothing(content);
      assert |opening| > 0;
    }
  }
}
