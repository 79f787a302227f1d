/**
Trimming a document's body and joining the two levels into one prompt fragment
(cli/config/src/fragment.rs). Offsets count characters.
*/
module Fragment {
  import opened Wrappers
  import opened Text
  import opened ConfigService

  predicate HasText(line: string) {
    !IsBlank(Content(line))
  }

  /** Position of the first line with text, or the number of lines. */
  function FirstText(lines: seq<string>): (f: nat)
    ensures f <= |lines|
  {
    if lines == [] || HasText(lines[0]) then 0 else 1 + FirstText(lines[1..])
  }

  /** Position just after the last line with text, or 0. */
  function EndOfText(lines: seq<string>): (e: nat)
    ensures e <= |lines|
  {
    if lines == [] then 0
    else
      var n := |lines| - 1;
      if HasText(lines[n]) then |lines| else EndOfText(lines[..n])
  }

  /** No line from one position up to another has text. */
  predicate IsGap(lines: seq<string>, from: nat, to: nat) {
    forall i | from <= i < to && i < |lines| :: !HasText(lines[i])
  }

  lemma {:induction false} FirstTextIff(lines: seq<string>, f: nat)
    ensures FirstText(lines) == f <==> f <= |lines| && (f < |lines| ==> HasText(lines[f])) && IsGap(lines, 0, f)
  {
    if lines != [] && !HasText(lines[0]) && f > 0 {
      FirstTextIff(lines[1..], f - 1);
      assert forall i | 1 <= i < |lines| :: lines[i] == lines[1..][i - 1];
      assert IsGap(lines[1..], 0, f - 1) <==> IsGap(lines, 0, f) by {
        assert forall i | 0 <= i < |lines| - 1 :: lines[1..][i] == lines[i + 1];
      }
    }
  }

  lemma {:induction false} EndOfTextIff(lines: seq<string>, e: nat)
    ensures EndOfText(lines) == e <==> e <= |lines| && (e > 0 ==> HasText(lines[e - 1])) && IsGap(lines, e, |lines|)
  {
    if lines != [] {
      var n := |lines| - 1;
      if !HasText(lines[n]) && e <= n {
        EndOfTextIff(lines[..n], e);
      }
    }
  }

  /** The lines from `f` up to `e` begin and end with text, and there is none outside. */
  predicate AreBounds(lines: seq<string>, f: nat, e: nat) {
    && f < e <= |lines| && HasText(lines[f]) && HasText(lines[e - 1])
    && IsGap(lines, 0, f) && IsGap(lines, e, |lines|)
  }

  lemma BoundsIff(lines: seq<string>, f: nat, e: nat)
    ensures AreBounds(lines, f, e) <==> FirstText(lines) == f && EndOfText(lines) == e && f < e
  {
    FirstTextIff(lines, f);
    EndOfTextIff(lines, e);
  }

  lemma TextIsWithin(lines: seq<string>, i: nat)
    requires i < |lines| && HasText(lines[i])
    ensures AreBounds(lines, FirstText(lines), EndOfText(lines)) && FirstText(lines) <= i < EndOfText(lines)
  {
    FirstTextIff(lines, FirstText(lines));
    EndOfTextIff(lines, EndOfText(lines));
  }

  /**
  The trimmed text, line by line: the lines without text at either end go, and so
  does the terminator of the last line kept; everything between stays.
  */
  function TrimmedLines(lines: seq<string>): string {
    Between(lines, FirstText(lines), EndOfText(lines))
  }

  function Between(lines: seq<string>, f: nat, e: nat): string
    requires e <= |lines|
  {
    if f < e then Join(lines[f..e - 1]) + Content(lines[e - 1]) else ""
  }

  function Trimmed(body: string): string {
    TrimmedLines(Lines(body))
  }

  /** The one-pass trim: a running offset, the first offset with text and the end of the last text. */
  method TrimBlankLines(body: string) returns (r: string)
    ensures r == Trimmed(body)
  {
    var segments := Lines(body);
    LinesPartition(body);
    var start, end := TextBounds(segments);
    if start.None? {
      return "";
    }
    TextSlice(segments, FirstText(segments), EndOfText(segments));
    r := body[start.value..end];
  }

  method TextBounds(segments: seq<string>) returns (first: Option<nat>, lastEnd: nat)
    ensures first.Some? <==> FirstText(segments) < EndOfText(segments)
    ensures first.Some? ==>
              first.value == |Join(segments[..FirstText(segments)])|
                && lastEnd == TextEnd(segments, EndOfText(segments))
  {
    var offset := 0;
    first, lastEnd := None, 0;
    var i := 0;
    while i < |segments|
      invariant i <= |segments| && offset == |Join(segments[..i])|
      invariant IsScanned(segments, i, first, lastEnd)
    {
      JoinTo(segments, i);
      ScanStep(segments, i, first, lastEnd);
      if HasText(segments[i]) {
        if first.None? {
          first := Some(offset);
        }
        lastEnd := offset + |Content(segments[i])|;
      }
      offset := offset + |segments[i]|;
      i := i + 1;
    }
    ScanEnd(segments, first, lastEnd);
  }

  /** Offset where the text of the first `e` lines ends. */
  function TextEnd(lines: seq<string>, e: nat): nat
    requires e <= |lines|
  {
    if e == 0 then 0 else |Join(lines[..e - 1])| + |Content(lines[e - 1])|
  }

  /** What the two offsets say about the first `i` lines. */
  ghost predicate IsScanned(lines: seq<string>, i: nat, first: Option<nat>, lastEnd: nat)
    requires i <= |lines|
  {
    match first
    case None => IsGap(lines, 0, i)
    case Some(offset) => exists f: nat, e: nat :: AreOffsets(lines, i, f, e, offset, lastEnd)
  }

  ghost predicate AreOffsets(lines: seq<string>, i: nat, f: nat, e: nat, first: nat, lastEnd: nat)
    requires i <= |lines|
  {
    && f < e <= i && HasText(lines[f]) && HasText(lines[e - 1]) && IsGap(lines, 0, f) && IsGap(lines, e, i)
    && first == |Join(lines[..f])| && lastEnd == TextEnd(lines, e)
  }

  lemma ScanStep(lines: seq<string>, i: nat, first: Option<nat>, lastEnd: nat)
    requires i < |lines| && IsScanned(lines, i, first, lastEnd)
    ensures var offset := |Join(lines[..i])|;
            if HasText(lines[i])
            then IsScanned(lines, i + 1, if first.None? then Some(offset) else first, offset + |Content(lines[i])|)
            else IsScanned(lines, i + 1, first, lastEnd)
  {
    var offset := |Join(lines[..i])|;
    if first.Some? {
      var f: nat, e: nat :| AreOffsets(lines, i, f, e, first.value, lastEnd);
      if HasText(lines[i]) {
        assert AreOffsets(lines, i + 1, f, i + 1, first.value, offset + |Content(lines[i])|);
      } else {
        assert AreOffsets(lines, i + 1, f, e, first.value, lastEnd);
      }
    } else if HasText(lines[i]) {
      assert AreOffsets(lines, i + 1, i, i + 1, offset, offset + |Content(lines[i])|);
    }
  }

  lemma ScanEnd(lines: seq<string>, first: Option<nat>, lastEnd: nat)
    requires IsScanned(lines, |lines|, first, lastEnd)
    ensures first.Some? <==> FirstText(lines) < EndOfText(lines)
    ensures first.Some? ==>
              first.value == |Join(lines[..FirstText(lines)])| && lastEnd == TextEnd(lines, EndOfText(lines))
  {
    if first.Some? {
      var f: nat, e: nat :| AreOffsets(lines, |lines|, f, e, first.value, lastEnd);
      BoundsIff(lines, f, e);
    } else {
      EndOfTextIff(lines, 0);
    }
  }

  lemma JoinTo(lines: seq<string>, i: nat)
    requires i < |lines|
    ensures Join(lines[..i + 1]) == Join(lines[..i]) + lines[i]
  {
    assert lines[..i + 1] == lines[..i] + [lines[i]];
    JoinAppend(lines[..i], [lines[i]]);
    assert [lines[i]][1..] == [];
  }

  /** The characters between the two offsets are exactly the trimmed lines. */
  lemma TextSlice(lines: seq<string>, f: nat, e: nat)
    requires f < e <= |lines|
    ensures |Join(lines[..f])| <= TextEnd(lines, e) <= |Join(lines)|
    ensures Join(lines)[|Join(lines[..f])|..TextEnd(lines, e)] == Join(lines[f..e - 1]) + Content(lines[e - 1])
  {
    var before, kept, last, after := lines[..f], lines[f..e - 1], lines[e - 1], lines[e..];
    JoinAppend(before, kept);
    assert lines[..e - 1] == before + kept;
    JoinTo(lines, e - 1);
    JoinAppend(lines[..e], after);
    assert lines == lines[..e] + after;
    var c := Content(last);
    CutAt(last, |c|);
    RegroupCut(Join(before), Join(kept), c, last[|c|..], Join(after));
    Slice(Join(before), Join(kept), c, last[|c|..] + Join(after));
  }

  lemma RegroupCut(a: string, k: string, c: string, t: string, z: string)
    ensures (a + k) + (c + t) + z == a + k + c + (t + z)
  {
  }

  lemma Slice(a: string, k: string, c: string, z: string)
    ensures (a + k + c + z)[|a|..|a| + |k| + |c|] == k + c
  {
    assert a + k + c + z == a + ((k + c) + z);
  }

  // ---- What trimming leaves ----

  /** A line has text exactly when the whole line, terminator included, is not blank. */
  lemma HasTextIff(line: string)
    ensures HasText(line) <==> !IsBlank(line)
  {
    var c := Content(line);
    IsBlankIff(line[|c|..]);
    assert line == c + line[|c|..];
    IsBlankAppend(c, line[|c|..]);
  }

  lemma {:induction false} JoinBlankIff(lines: seq<string>)
    ensures IsBlank(Join(lines)) <==> forall i | 0 <= i < |lines| :: !HasText(lines[i])
  {
    if lines != [] {
      HasTextIff(lines[0]);
      JoinBlankIff(lines[1..]);
      IsBlankAppend(lines[0], Join(lines[1..]));
      assert forall i | 1 <= i < |lines| :: lines[i] == lines[1..][i - 1];
      assert forall i | 0 <= i < |lines[1..]| :: lines[1..][i] == lines[i + 1];
    }
  }

  /** Text survives trimming exactly when the body has a character that is not whitespace. */
  lemma TrimmedEmptyIff(body: string)
    ensures Trimmed(body) == "" <==> IsBlank(body)
  {
    LinesPartition(body);
    BlankIffNoText(Lines(body));
  }

  lemma BlankIffNoText(lines: seq<string>)
    ensures TrimmedLines(lines) == "" <==> IsBlank(Join(lines))
    ensures FirstText(lines) < EndOfText(lines) <==> !IsBlank(Join(lines))
  {
    JoinBlankIff(lines);
    var f, e := FirstText(lines), EndOfText(lines);
    if i :| 0 <= i < |lines| && HasText(lines[i]) {
      TextIsWithin(lines, i);
      assert Content(lines[e - 1]) != "";
    } else {
      EndOfTextIff(lines, 0);
    }
  }

  /** The lines kept, the last without its terminator. */
  function KeptLines(lines: seq<string>, f: nat, e: nat): (kept: seq<string>)
    requires f < e <= |lines|
    ensures |kept| == e - f
  {
    lines[f..e - 1] + [Content(lines[e - 1])]
  }

  /** A line with text stays a line with text without its terminator, and has no LF any more. */
  lemma ContentOfLine(line: string)
    requires IsLine(line) && HasText(line)
    ensures var c := Content(line); IsLine(c) && HasText(c) && !EndsInLf(c)
  {
    HasTextIff(Content(line));
  }

  lemma KeptAreLines(lines: seq<string>, f: nat, e: nat)
    requires f < e <= |lines| && AreLines(lines) && HasText(lines[e - 1])
    ensures AreLines(KeptLines(lines, f, e)) && Join(KeptLines(lines, f, e)) == Between(lines, f, e)
  {
    var front, c := lines[f..e - 1], Content(lines[e - 1]);
    ContentOfLine(lines[e - 1]);
    SliceAreLines(lines, f, e - 1);
    AppendLines(front, [c]);
    JoinAppend(front, [c]);
    assert [c][1..] == [];
  }

  /** The lines of the trimmed text are the lines kept. */
  lemma LinesOfTrimmed(body: string) returns (f: nat, e: nat)
    requires !IsBlank(body)
    ensures AreLines(Lines(body)) && AreBounds(Lines(body), f, e)
    ensures Trimmed(body) == Between(Lines(body), f, e) && Lines(Trimmed(body)) == KeptLines(Lines(body), f, e)
  {
    LinesPartition(body);
    var lines := Lines(body);
    f, e := FirstText(lines), EndOfText(lines);
    BlankIffNoText(lines);
    BoundsIff(lines, f, e);
    KeptAreLines(lines, f, e);
    LinesUnique(KeptLines(lines, f, e));
  }

  /** The trimmed text starts with a line that has text and ends inside one: never with an LF. */
  lemma TrimmedEnds(body: string)
    requires !IsBlank(body)
    ensures IsTrimmedText(Trimmed(body))
  {
    var f, e := LinesOfTrimmed(body);
    TrimmedEmptyIff(body);
    KeptEnds(Lines(body), f, e);
    LinesPartition(Trimmed(body));
  }

  /** A text without an LF at its end, whose first and last line have text. */
  ghost predicate IsTrimmedText(t: string) {
    && t != "" && !EndsInLf(t) && Lines(t) != []
    && HasText(Lines(t)[0]) && HasText(Lines(t)[|Lines(t)| - 1])
  }

  lemma KeptEnds(lines: seq<string>, f: nat, e: nat)
    requires AreLines(lines) && f < e <= |lines| && HasText(lines[f]) && HasText(lines[e - 1])
    ensures var kept := KeptLines(lines, f, e);
            && kept != [] && HasText(kept[0]) && HasText(kept[|kept| - 1])
            && kept[|kept| - 1] != "" && !EndsInLf(kept[|kept| - 1])
  {
    ContentOfLine(lines[e - 1]);
  }

  /** A line's end in any of its forms, a bare CR only at the very end. */
  predicate BeginsWithEnd(s: string) {
    s == "" || s[0] == '\n' || s == "\r" || "\r\n" <= s
  }

  /**
  Trimming cuts the body in three: blank lines in front, the text kept as it is, and blank lines
  behind, beginning with the end of the last line kept.
  */
  lemma TrimmedIsCutOut(body: string) returns (front: string, back: string)
    requires !IsBlank(body)
    ensures body == front + Trimmed(body) + back && IsTrimmedText(Trimmed(body))
    ensures IsBlank(front) && (front == "" || EndsInLf(front))
    ensures IsBlank(back) && BeginsWithEnd(back)
  {
    TrimmedEnds(body);
    var lines := Lines(body);
    var f, e := LinesOfTrimmed(body);
    LinesPartition(body);
    CutLines(lines, f, e);
    front, back := Join(lines[..f]), lines[e - 1][|Content(lines[e - 1])|..] + Join(lines[e..]);
    FrontIsBlank(lines, f);
    BackIsBlank(lines, e);
  }

  lemma FrontIsBlank(lines: seq<string>, f: nat)
    requires AreLines(lines) && f < |lines| && IsGap(lines, 0, f)
    ensures IsBlank(Join(lines[..f])) && (lines[..f] == [] || EndsInLf(Join(lines[..f])))
  {
    GapIsBlank(lines, 0, f);
    assert lines[0..f] == lines[..f];
    SliceAreLines(lines, 0, f);
    if f > 0 {
      JoinEnds(lines[..f]);
    }
  }

  lemma BackIsBlank(lines: seq<string>, e: nat)
    requires AreLines(lines) && 0 < e <= |lines| && IsGap(lines, e, |lines|)
    ensures var back := lines[e - 1][|Content(lines[e - 1])|..] + Join(lines[e..]);
            IsBlank(back) && BeginsWithEnd(back)
  {
    var last := lines[e - 1];
    GapIsBlank(lines, e, |lines|);
    assert lines[e..|lines|] == lines[e..];
    EndIsBlank(last);
    IsBlankAppend(last[|Content(last)|..], Join(lines[e..]));
    BeginsAfter(last[|Content(last)|..], Join(lines[e..]));
  }

  lemma BeginsAfter(end: string, rest: string)
    requires end == "\n" || end == "\r\n" || ((end == "" || end == "\r") && rest == "")
    ensures BeginsWithEnd(end + rest)
  {
    if rest == "" {
      assert end + rest == end;
    }
  }

  lemma CutLines(lines: seq<string>, f: nat, e: nat)
    requires f < e <= |lines|
    ensures var c := Content(lines[e - 1]);
            Join(lines) == Join(lines[..f]) + Between(lines, f, e) + (lines[e - 1][|c|..] + Join(lines[e..]))
  {
    var c := Content(lines[e - 1]);
    JoinAppend(lines[..e], lines[e..]);
    assert lines == lines[..e] + lines[e..];
    JoinTo(lines, e - 1);
    JoinAppend(lines[..f], lines[f..e - 1]);
    assert lines[..e - 1] == lines[..f] + lines[f..e - 1];
    CutAt(lines[e - 1], |c|);
    RegroupCut(Join(lines[..f]), Join(lines[f..e - 1]), c, lines[e - 1][|c|..], Join(lines[e..]));
    RegroupFront(Join(lines[..f]), Join(lines[f..e - 1]), c);
  }

  lemma RegroupFront(a: string, k: string, c: string)
    ensures a + k + c == a + (k + c)
  {
  }

  lemma GapIsBlank(lines: seq<string>, i: nat, j: nat)
    requires i <= j <= |lines| && IsGap(lines, i, j)
    ensures IsBlank(Join(lines[i..j]))
  {
    var part := lines[i..j];
    assert forall k | 0 <= k < |part| :: part[k] == lines[i + k];
    JoinBlankIff(part);
  }

  /** What a line ends in: nothing, a CR, an LF or both. */
  lemma EndIsBlank(line: string)
    ensures var end := line[|Content(line)|..];
            && (end == "" || end == "\r" || end == "\n" || end == "\r\n") && IsBlank(end)
            && (EndsInLf(line) ==> end != "" && end[|end| - 1] == '\n')
            && (!EndsInLf(line) ==> end == "" || end == "\r")
  {
    var end := line[|Content(line)|..];
    IsBlankIff(end);
  }

  /** The last line with text, without its terminator; nothing when no line has text. */
  function LastContent(body: string): string {
    var e := EndOfText(Lines(body));
    if e == 0 then "" else Content(Lines(body)[e - 1])
  }

  predicate EndsInCr(s: string) {
    s != "" && s[|s| - 1] == '\r'
  }

  /**
  Trimming twice is trimming once, exactly unless the last line with text still ends in CR without
  its terminator.
  */
  lemma TrimIdempotentIff(body: string)
    ensures Trimmed(Trimmed(body)) == Trimmed(body) <==> !EndsInCr(LastContent(body))
  {
    if IsBlank(body) {
      TrimmedEmptyIff(body);
      TrimmedEmptyIff("");
      BlankHasNoLast(body);
    } else {
      var f, e := LinesOfTrimmed(body);
      TrimAgain(Trimmed(body), Lines(body), f, e);
      LastContentIs(body, f, e);
    }
  }

  lemma BlankHasNoLast(body: string)
    requires IsBlank(body)
    ensures LastContent(body) == ""
  {
    LinesPartition(body);
    JoinBlankIff(Lines(body));
    EndOfTextIff(Lines(body), 0);
  }

  lemma LastContentIs(body: string, f: nat, e: nat)
    requires AreBounds(Lines(body), f, e)
    ensures LastContent(body) == Content(Lines(body)[e - 1])
  {
    EndOfTextIff(Lines(body), e);
  }

  /** The trimmed text is its kept lines, so trimming it again only looks at the last of them. */
  lemma TrimAgain(t: string, lines: seq<string>, f: nat, e: nat)
    requires AreLines(lines) && AreBounds(lines, f, e) && t == Between(lines, f, e)
    requires Lines(t) == KeptLines(lines, f, e)
    ensures Trimmed(t) == t <==> !EndsInCr(Content(lines[e - 1]))
  {
    KeptAreLines(lines, f, e);
    KeptEnds(lines, f, e);
    TrimKept(KeptLines(lines, f, e));
  }

  lemma TrimKept(kept: seq<string>)
    requires kept != [] && HasText(kept[0]) && HasText(kept[|kept| - 1]) && !EndsInLf(kept[|kept| - 1])
    ensures TrimmedLines(kept) == Join(kept) <==> !EndsInCr(kept[|kept| - 1])
  {
    var n := |kept|;
    var front, last := kept[..n - 1], kept[n - 1];
    BoundsIff(kept, 0, n);
    JoinTo(kept, n - 1);
    assert kept[..n] == kept && kept[0..n - 1] == front;
    SameBehind(Join(front), Content(last), last);
    ContentSameIff(last);
  }

  lemma SameBehind(front: string, a: string, b: string)
    ensures front + a == front + b <==> a == b
  {
    assert (front + a)[|front|..] == a && (front + b)[|front|..] == b;
  }

  lemma ContentSameIff(line: string)
    requires !EndsInLf(line)
    ensures Content(line) == line <==> !EndsInCr(line)
  {
  }

  /** A last line that ends in two CRs loses one at each pass. */
  lemma TrimNotIdempotent()
    ensures Trimmed("abc\r\r\n") == "abc\r" && Trimmed("abc\r") == "abc"
  {
    OneLineTrims("abc\r\r\n", "abc\r");
    OneLineTrims("abc\r", "abc");
  }

  lemma OneLineTrims(line: string, content: string)
    requires content != "" && content[0] == 'a' && (line == content + "\r" || line == content + "\r\n")
    requires forall c | c in content :: c != '\n'
    ensures Trimmed(line) == content
  {
    ContentIs(line, content);
    TrimOfOneLine(line);
  }

  lemma ContentIs(line: string, content: string)
    requires content != "" && content[0] == 'a' && (line == content + "\r" || line == content + "\r\n")
    requires forall c | c in content :: c != '\n'
    ensures Content(line) == content && HasText(line) && IsLine(line)
  {
    assert line[..|content|] == content;
    assert !IsWhitespace(content[0]) && !IsBlank(content);
    forall j | 0 <= j < |line| - 1 ensures line[j] != '\n' {
      assert j < |content| ==> line[j] in content;
    }
  }

  lemma TrimOfOneLine(line: string)
    requires IsLine(line) && HasText(line)
    ensures Trimmed(line) == Content(line)
  {
    var lines := [line];
    assert lines[1..] == [] && Join(lines) == line;
    assert AreLines(lines);
    LinesUnique(lines);
    TrimOfOne(line);
  }

  lemma TrimOfOne(line: string)
    requires HasText(line)
    ensures TrimmedLines([line]) == Content(line)
  {
    BoundsIff([line], 0, 1);
    assert [line][0..0] == [];
  }

  // ---- Two levels ----

  /** The non-empty trimmed bodies, team first, with a blank line between them. */
  function Combine(team: string, personal: string): Option<string> {
    CombineTexts(Trimmed(team), Trimmed(personal))
  }

  function CombineTexts(t: string, p: string): Option<string> {
    if t == "" && p == "" then None
    else if p == "" then Some(t)
    else if t == "" then Some(p)
    else Some(t + "\n\n" + p)
  }

  /** One level's read: its body when the file was there. */
  datatype LevelBody = LevelBody(path: string, body: Option<string>)

  datatype Contribution = Contribution(level: Level, path: string, discovered: bool, hasBody: bool)

  datatype Assembly = Assembly(fragment: Option<string>, team: Contribution, personal: Contribution)

  function BodyOrEmpty(read: LevelBody): string {
    match read.body case Some(text) => text case None => ""
  }

  function Contributed(level: Level, read: LevelBody): Contribution {
    Contribution(level, read.path, read.body.Some?, Trimmed(BodyOrEmpty(read)) != "")
  }

  /** Both levels read once, or the first failure. */
  function Assemble<E>(team: Result<LevelBody, E>, personal: Result<LevelBody, E>): Result<Assembly, E> {
    if team.Failure? then Failure(team.error)
    else if personal.Failure? then Failure(personal.error)
    else
      Success(Assembly(Combine(BodyOrEmpty(team.value), BodyOrEmpty(personal.value)),
                       Contributed(Team, team.value), Contributed(Personal, personal.value)))
  }

  /** The team's failure is the one reported when both levels fail, and one failure is enough. */
  lemma AssembleFailsIff<E>(team: Result<LevelBody, E>, personal: Result<LevelBody, E>, error: E)
    ensures Assemble(team, personal) == Failure(error)
            <==> team == Failure(error) || (team.Success? && personal == Failure(error))
  {
  }

  /**
  What the assembly says and what it shows agree: a level is reported to have a body
  exactly when its body has a character that is not whitespace, which is exactly when
  its trimmed text stands in the fragment; two texts stand team first, one blank line
  apart, and the whole never ends in an LF.
  */
  lemma AssemblyAgrees(team: LevelBody, personal: LevelBody)
    ensures var a := Assemble<ConfigError>(Success(team), Success(personal)).value;
            var t, p := Trimmed(BodyOrEmpty(team)), Trimmed(BodyOrEmpty(personal));
            && (a.team.hasBody <==> !IsBlank(BodyOrEmpty(team)))
            && (a.personal.hasBody <==> !IsBlank(BodyOrEmpty(personal)))
            && (a.fragment == None <==> !a.team.hasBody && !a.personal.hasBody)
            && (a.team.hasBody && !a.personal.hasBody ==> a.fragment == Some(t))
            && (!a.team.hasBody && a.personal.hasBody ==> a.fragment == Some(p))
            && (a.team.hasBody && a.personal.hasBody ==>
                  a.fragment == Some(t + "\n\n" + p) && BlankLineBetween(t, p))
            && (a.fragment.Some? ==> a.fragment.value != "" && !EndsInLf(a.fragment.value))
  {
    var tb, pb := BodyOrEmpty(team), BodyOrEmpty(personal);
    TrimmedIsText(tb);
    TrimmedIsText(pb);
    if !IsBlank(tb) && !IsBlank(pb) {
      LinesOfJoined(Trimmed(tb), Trimmed(pb));
    }
  }

  lemma TrimmedIsText(body: string)
    ensures if IsBlank(body) then Trimmed(body) == "" else IsTrimmedText(Trimmed(body))
  {
    TrimmedEmptyIff(body);
    if !IsBlank(body) {
      TrimmedEnds(body);
    }
  }

  /** The lines of `t`, one blank line, the lines of `p`, with text on either side of the blank one. */
  ghost predicate BlankLineBetween(t: string, p: string) {
    var n := |Lines(t)|;
    var lines := Lines(t + "\n\n" + p);
    && 0 < n && n + 1 < |lines|
    && lines[n - 1] == Lines(t)[n - 1] + "\n" && HasText(lines[n - 1])
    && lines[n] == "\n"
    && lines[n + 1..] == Lines(p) && HasText(lines[n + 1])
  }

  lemma LinesOfJoined(t: string, p: string)
    requires IsTrimmedText(t) && IsTrimmedText(p)
    ensures BlankLineBetween(t, p)
  {
    LinesPartition(t);
    LinesPartition(p);
    var n := |Lines(t)|;
    var all := JoinedLines(Lines(t), Lines(p));
    JoinedAreLines(Lines(t), Lines(p));
    LinesUnique(all);
    assert all[n + 1..] == Lines(p);
  }

  /** The lines of two texts set one blank line apart. */
  function JoinedLines(above: seq<string>, below: seq<string>): (all: seq<string>)
    requires above != []
    ensures |all| == |above| + 1 + |below|
  {
    above[..|above| - 1] + ([above[|above| - 1] + "\n"] + (["\n"] + below))
  }

  lemma JoinedAreLines(above: seq<string>, below: seq<string>)
    requires above != [] && AreLines(above) && AreLines(below)
    requires HasText(above[|above| - 1]) && !EndsInLf(above[|above| - 1])
    ensures var all := JoinedLines(above, below);
            AreLines(all) && Join(all) == Join(above) + "\n\n" + Join(below)
    ensures HasText(above[|above| - 1] + "\n")
  {
    var n := |above|;
    var front, last, tail := above[..n - 1], above[n - 1] + "\n", ["\n"] + below;
    ClosedLine(above[n - 1]);
    LinesCons("\n", below);
    LinesCons(last, tail);
    SliceAreLines(above, 0, n - 1);
    assert above[0..n - 1] == front;
    AppendLines(front, [last] + tail);
    JoinAppend(front, [last] + tail);
    JoinTo(above, n - 1);
    assert above[..n] == above;
    Regroup(Join(front), above[n - 1], Join(below));
  }

  lemma Regroup(front: string, last: string, below: string)
    ensures front + ((last + "\n") + ("\n" + below)) == (front + last) + "\n\n" + below
  {
  }

  lemma ClosedLine(line: string)
    requires IsLine(line) && !EndsInLf(line) && HasText(line)
    ensures IsLine(line + "\n") && EndsInLf(line + "\n") && HasText(line + "\n")
  {
    HasTextIff(line);
    HasTextIff(line + "\n");
    IsBlankAppend(line, "\n");
  }
}
