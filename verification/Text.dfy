/** Lines, terminators and whitespace of a text, as the configuration files see them. */
module Text {

  /** `split_inclusive('\n')`: every line keeps its terminator; the empty text has no line. */
  function Lines(s: string): (lines: seq<string>)
    decreases |s|
  {
    if s == "" then []
    else
      var k := LineLength(s);
      [s[..k]] + Lines(s[k..])
  }

  /** Length of the first line of a non-empty text, its LF included. */
  function LineLength(s: string): (k: nat)
    requires s != ""
    ensures 0 < k <= |s|
    decreases |s|
  {
    if s[0] == '\n' || |s| == 1 then 1 else 1 + LineLength(s[1..])
  }

  function Join(lines: seq<string>): (s: string)
  {
    if lines == [] then "" else lines[0] + Join(lines[1..])
  }

  predicate EndsInLf(s: string) {
    s != "" && s[|s| - 1] == '\n'
  }

  /** The text of a line without its LF, CRLF or bare final CR. */
  function Content(line: string): string {
    line[..ContentLength(line)]
  }

  function ContentLength(line: string): (n: nat)
    ensures n <= |line|
  {
    var n := if EndsInLf(line) then |line| - 1 else |line|;
    if n > 0 && line[n - 1] == '\r' then n - 1 else n
  }

  /** Unicode White_Space. */
  predicate IsWhitespace(c: char) {
    || '\t' <= c <= '\r'
    || c == ' ' || c == '\U{85}' || c == '\U{A0}' || c == '\U{1680}'
    || '\U{2000}' <= c <= '\U{200A}'
    || c == '\U{2028}' || c == '\U{2029}' || c == '\U{202F}' || c == '\U{205F}' || c == '\U{3000}'
  }

  /** The 25 characters with the property White_Space. */
  const WHITE_SPACE := "\t\n\U{B}\U{C}\r \U{85}\U{A0}\U{1680}\U{2000}\U{2001}\U{2002}\U{2003}\U{2004}\U{2005}"
    + "\U{2006}\U{2007}\U{2008}\U{2009}\U{200A}\U{2028}\U{2029}\U{202F}\U{205F}\U{3000}"

  lemma WhitespaceIff(c: char)
    ensures IsWhitespace(c) <==> c in WHITE_SPACE
  {
    if '\t' <= c <= '\r' {
      assert WHITE_SPACE[c as int - 9] == c;
    } else if '\U{2000}' <= c <= '\U{200A}' {
      assert WHITE_SPACE[9 + c as int - 0x2000] == c;
    } else if IsWhitespace(c) {
      var i := if c == ' ' then 5 else if c == '\U{85}' then 6 else if c == '\U{A0}' then 7
        else if c == '\U{1680}' then 8 else if c == '\U{2028}' then 20 else if c == '\U{2029}' then 21
        else if c == '\U{202F}' then 22 else if c == '\U{205F}' then 23 else 24;
      assert WHITE_SPACE[i] == c;
    }
  }

  /** `s.trim().is_empty()` */
  predicate IsBlank(s: string) {
    s == "" || (IsWhitespace(s[0]) && IsBlank(s[1..]))
  }

  lemma {:induction false} IsBlankIff(s: string)
    ensures IsBlank(s) <==> forall i | 0 <= i < |s| :: IsWhitespace(s[i])
  {
    if s != "" {
      IsBlankIff(s[1..]);
      assert forall i | 1 <= i < |s| :: s[i] == s[1..][i - 1];
      assert forall i | 0 <= i < |s[1..]| :: s[1..][i] == s[i + 1];
    }
  }

  lemma {:induction false} IsBlankAppend(a: string, b: string)
    ensures IsBlank(a + b) <==> IsBlank(a) && IsBlank(b)
  {
    if a == "" {
      assert a + b == b;
    } else {
      assert (a + b)[1..] == a[1..] + b;
      IsBlankAppend(a[1..], b);
    }
  }

  /** A non-empty piece with an LF at most at its end. */
  predicate IsLine(line: string) {
    line != "" && forall j | 0 <= j < |line| - 1 :: line[j] != '\n'
  }

  /** What `Lines` yields: lines, all but the last ended by an LF. */
  ghost predicate AreLines(lines: seq<string>) {
    && (forall i | 0 <= i < |lines| :: IsLine(lines[i]))
    && (forall i | 0 <= i < |lines| - 1 :: EndsInLf(lines[i]))
  }

  lemma LinesPartition(s: string)
    ensures AreLines(Lines(s)) && Join(Lines(s)) == s
    ensures s != "" ==> Lines(s) != [] && (EndsInLf(Lines(s)[|Lines(s)| - 1]) <==> EndsInLf(s))
  {
    LinesRejoin(s);
    if s != "" {
      JoinEnds(Lines(s));
    }
  }

  lemma {:induction false} LinesRejoin(s: string)
    ensures AreLines(Lines(s)) && Join(Lines(s)) == s
    decreases |s|
  {
    if s != "" {
      var line, tail := s[..LineLength(s)], s[LineLength(s)..];
      CutAt(s, LineLength(s));
      FirstLineIsLine(s);
      LinesRejoin(tail);
      RejoinStep(s, line, tail, Lines(tail));
    }
  }

  lemma CutAt(s: string, k: nat)
    requires k <= |s|
    ensures s == s[..k] + s[k..]
  {
  }

  lemma RejoinStep(s: string, line: string, tail: string, rest: seq<string>)
    requires s == line + tail && IsLine(line) && (EndsInLf(line) || tail == "")
    requires AreLines(rest) && Join(rest) == tail
    ensures AreLines([line] + rest) && Join([line] + rest) == s
  {
    if rest != [] {
      JoinIsNotEmpty(rest);
    }
    LinesCons(line, rest);
  }

  lemma {:induction false} FirstLineIsLine(s: string)
    requires s != ""
    ensures IsLine(s[..LineLength(s)]) && (EndsInLf(s[..LineLength(s)]) || s[LineLength(s)..] == "")
    decreases |s|
  {
    var k := LineLength(s);
    if s[0] != '\n' && |s| > 1 {
      FirstLineIsLine(s[1..]);
      assert s[1..][..k - 1] == s[..k][1..] && s[1..][k - 1..] == s[k..];
      GrownLine(s[0], s[..k][1..]);
      assert s[..k] == [s[0]] + s[..k][1..];
    }
  }

  lemma GrownLine(c: char, line: string)
    requires c != '\n' && IsLine(line)
    ensures IsLine([c] + line) && (EndsInLf([c] + line) <==> EndsInLf(line))
  {
  }

  lemma {:induction false} JoinEnds(lines: seq<string>)
    requires AreLines(lines) && lines != []
    ensures EndsInLf(Join(lines)) <==> EndsInLf(lines[|lines| - 1])
    decreases |lines|
  {
    if |lines| > 1 {
      var rest := lines[1..];
      SliceAreLines(lines, 1, |lines|);
      assert lines[1..|lines|] == rest;
      JoinEnds(rest);
      JoinIsNotEmpty(rest);
      EndsAfter(lines[0], Join(rest));
    } else {
      assert Join(lines) == lines[0] + "";
    }
  }

  lemma JoinIsNotEmpty(lines: seq<string>)
    requires AreLines(lines) && lines != []
    ensures Join(lines) != ""
  {
    assert IsLine(lines[0]);
  }

  lemma EndsAfter(a: string, b: string)
    requires b != ""
    ensures EndsInLf(a + b) <==> EndsInLf(b)
  {
  }

  lemma LinesCons(line: string, rest: seq<string>)
    requires IsLine(line) && AreLines(rest) && (rest == [] || EndsInLf(line))
    ensures AreLines([line] + rest) && Join([line] + rest) == line + Join(rest)
  {
    var lines := [line] + rest;
    assert lines[1..] == rest;
    forall i | 0 <= i < |lines| - 1 ensures EndsInLf(lines[i]) {
      assert i == 0 || lines[i] == rest[i - 1];
    }
  }

  lemma {:induction false} LineLengthIs(s: string, n: nat)
    requires 0 < n <= |s| && (s[n - 1] == '\n' || n == |s|)
    requires forall i | 0 <= i < n - 1 :: s[i] != '\n'
    ensures LineLength(s) == n
    decreases |s|
  {
    if 1 < n {
      LineLengthIs(s[1..], n - 1);
    }
  }

  /** The partition into lines is the only one of its shape. */
  lemma {:induction false} LinesUnique(lines: seq<string>)
    requires AreLines(lines)
    ensures Lines(Join(lines)) == lines
    decreases |lines|
  {
    if lines != [] {
      var s := Join(lines);
      var n := |lines[0]|;
      assert s[..n] == lines[0] && s[n..] == Join(lines[1..]);
      assert s[n - 1] == '\n' || n == |s| by {
        assert |lines| == 1 || EndsInLf(lines[0]);
      }
      LineLengthIs(s, n);
      SliceAreLines(lines, 1, |lines|);
      assert lines[1..|lines|] == lines[1..];
      LinesUnique(lines[1..]);
    }
  }

  lemma {:induction false} JoinAppend(a: seq<string>, b: seq<string>)
    ensures Join(a + b) == Join(a) + Join(b)
    decreases |a|
  {
    if a == [] {
      assert a + b == b;
    } else {
      assert (a + b)[1..] == a[1..] + b;
      JoinAppend(a[1..], b);
    }
  }

  lemma AppendLines(a: seq<string>, b: seq<string>)
    requires AreLines(a) && AreLines(b) && (a == [] || b == [] || EndsInLf(a[|a| - 1]))
    ensures AreLines(a + b)
  {
    forall i | 0 <= i < |a + b| - 1 ensures EndsInLf((a + b)[i]) {
      assert (a + b)[i] == if i < |a| then a[i] else b[i - |a|];
    }
  }

  lemma SliceAreLines(lines: seq<string>, i: nat, j: nat)
    requires AreLines(lines) && i <= j <= |lines|
    ensures AreLines(lines[i..j])
    ensures i < j < |lines| ==> EndsInLf(lines[i..j][j - i - 1])
  {
    var part := lines[i..j];
    assert forall k | 0 <= k < |part| :: part[k] == lines[i + k];
  }
}
