/** Keys such as `a.b.c`: parsing and display, and the texts that are no key (cli/config/src/key.rs). */
module ConfigKey {
  import opened Wrappers

  predicate IsSegment(s: string) {
    s != "" && '.' !in s
  }

  type Key = segments: seq<string> | segments != [] && forall i | 0 <= i < |segments| :: IsSegment(segments[i])
    witness ["k"]

  /** `raw.split('.')`: always at least one piece. */
  function SplitDots(raw: string): (pieces: seq<string>)
    ensures pieces != []
    ensures forall i | 0 <= i < |pieces| :: '.' !in pieces[i]
  {
    if raw == "" then [""]
    else
      var rest := SplitDots(raw[1..]);
      if raw[0] == '.' then [""] + rest else [[raw[0]] + rest[0]] + rest[1..]
  }

  /** `segments.join(".")` */
  function JoinDots(pieces: seq<string>): string {
    if pieces == [] then ""
    else if |pieces| == 1 then pieces[0]
    else pieces[0] + "." + JoinDots(pieces[1..])
  }

  function Parse(raw: string): (r: Result<Key, string>)
    ensures r.Failure? ==> r.error == raw
  {
    var pieces := SplitDots(raw);
    if exists i | 0 <= i < |pieces| :: pieces[i] == "" then Failure(raw) else Success(pieces)
  }

  function Display(key: Key): string {
    JoinDots(key)
  }

  lemma {:induction false} JoinSplit(raw: string)
    ensures JoinDots(SplitDots(raw)) == raw
  {
    if raw != "" {
      JoinSplit(raw[1..]);
      var rest := SplitDots(raw[1..]);
      if raw[0] == '.' {
        assert ([""] + rest)[1..] == rest;
      } else {
        assert SplitDots(raw)[1..] == rest[1..];
      }
    }
  }

  lemma {:induction false} SplitPiece(piece: string)
    requires '.' !in piece
    ensures SplitDots(piece) == [piece]
  {
    if piece != "" {
      assert piece[0] in piece && [piece[0]] + piece[1..] == piece;
      SplitPiece(piece[1..]);
      assert SplitDots(piece[1..])[1..] == [];
    }
  }

  lemma {:induction false} SplitAtDot(piece: string, rest: string)
    requires '.' !in piece
    ensures SplitDots(piece + "." + rest) == [piece] + SplitDots(rest)
  {
    var raw := piece + "." + rest;
    if piece == "" {
      assert raw[1..] == rest;
    } else {
      assert piece[0] in piece && [piece[0]] + piece[1..] == piece;
      assert raw[1..] == piece[1..] + "." + rest;
      SplitAtDot(piece[1..], rest);
      assert ([piece[1..]] + SplitDots(rest))[1..] == SplitDots(rest);
    }
  }

  lemma {:induction false} SplitJoin(pieces: seq<string>)
    requires pieces != [] && forall i | 0 <= i < |pieces| :: '.' !in pieces[i]
    ensures SplitDots(JoinDots(pieces)) == pieces
  {
    if |pieces| == 1 {
      SplitPiece(pieces[0]);
    } else {
      SplitAtDot(pieces[0], JoinDots(pieces[1..]));
      SplitJoin(pieces[1..]);
    }
  }

  /** Displaying a parsed key gives back the raw text. */
  lemma DisplayParsed(raw: string)
    requires Parse(raw).Success?
    ensures Display(Parse(raw).value) == raw
  {
    JoinSplit(raw);
  }

  /** Parsing a displayed key gives back the key. */
  lemma ParseDisplayed(key: Key)
    ensures Parse(Display(key)) == Success(key)
  {
    SplitJoin(key);
  }

  /** Some piece from position `from` on is empty. */
  ghost predicate HasEmptyPiece(pieces: seq<string>, from: nat) {
    exists i :: from <= i < |pieces| && pieces[i] == ""
  }

  ghost predicate HasDoubleDot(raw: string) {
    exists i :: 0 <= i < |raw| - 1 && raw[i] == '.' && raw[i + 1] == '.'
  }

  lemma DoubleDotStep(raw: string)
    requires raw != ""
    ensures HasDoubleDot(raw) <==> (|raw| > 1 && raw[0] == '.' && raw[1] == '.') || HasDoubleDot(raw[1..])
  {
    var tail := raw[1..];
    if HasDoubleDot(tail) {
      var i :| 0 <= i < |tail| - 1 && tail[i] == '.' && tail[i + 1] == '.';
      assert raw[i + 1] == '.' && raw[i + 2] == '.';
    }
    if HasDoubleDot(raw) {
      var i :| 0 <= i < |raw| - 1 && raw[i] == '.' && raw[i + 1] == '.';
      assert i == 0 || (tail[i - 1] == '.' && tail[i] == '.');
    }
  }

  /** The first piece is empty at a leading dot, a later one at a double or a final dot. */
  lemma {:induction false} EmptyPieceIff(raw: string)
    ensures SplitDots(raw)[0] == "" <==> raw == "" || raw[0] == '.'
    ensures HasEmptyPiece(SplitDots(raw), 1) <==> raw != "" && (raw[|raw| - 1] == '.' || HasDoubleDot(raw))
  {
    if raw != "" {
      var all, rest := SplitDots(raw), SplitDots(raw[1..]);
      EmptyPieceIff(raw[1..]);
      DoubleDotStep(raw);
      if raw[0] == '.' {
        assert forall i | 1 <= i < |all| :: all[i] == rest[i - 1];
        assert forall i | 0 <= i < |rest| :: rest[i] == all[i + 1];
        assert HasEmptyPiece(all, 1) <==> rest[0] == "" || HasEmptyPiece(rest, 1);
      } else {
        assert forall i | 1 <= i < |all| :: all[i] == rest[i];
      }
    }
  }

  /** A raw key is refused exactly when it is empty, starts or ends with a dot, or has two adjacent dots. */
  lemma ParseFailsIff(raw: string)
    ensures Parse(raw).Failure? <==> raw == "" || raw[0] == '.' || raw[|raw| - 1] == '.' || HasDoubleDot(raw)
  {
    EmptyPieceIff(raw);
    var pieces := SplitDots(raw);
    assert Parse(raw).Failure? <==> pieces[0] == "" || HasEmptyPiece(pieces, 1);
  }

  /** A text without dots is the key of itself; what stands before a dot is the first segment, and the rest follows. */
  lemma ParseInOrder(segment: string, rest: string)
    requires IsSegment(segment)
    ensures Parse(segment) == Success([segment])
    ensures Parse(rest).Success? ==> Parse(segment + "." + rest) == Success([segment] + Parse(rest).value)
    ensures Parse(rest).Failure? ==> Parse(segment + "." + rest).Failure?
  {
    SplitPiece(segment);
    SplitAtDot(segment, rest);
    var all, pieces := [segment] + SplitDots(rest), SplitDots(rest);
    assert forall i | 0 <= i < |pieces| :: pieces[i] == all[i + 1];
    assert forall i | 1 <= i < |all| :: all[i] == pieces[i - 1];
  }
}
