/**
 The tokenizer of src/utilities.c: cstring_get_token finds one piece of a line that is
 split at every single space.
 */
module Tokens {

  const NULL: int := -1

  /** The line cut at every space; two spaces in a row have an empty piece between them. */
  function Split(line: string): (pieces: seq<string>)
    ensures |pieces| > 0
  {
    if line == "" then [""]
    else if line[0] == ' ' then [""] + Split(line[1..])
    else
      var rest := Split(line[1..]);
      [[line[0]] + rest[0]] + rest[1..]
  }

  function Join(pieces: seq<string>): (line: string)
    requires |pieces| > 0
  {
    if |pieces| == 1 then pieces[0] else pieces[0] + " " + Join(pieces[1..])
  }

  function Spaces(line: string): (n: nat) {
    if line == "" then 0 else (if line[0] == ' ' then 1 else 0) + Spaces(line[1..])
  }

  /** Where the idx-th piece starts in the line. */
  function Offset(pieces: seq<string>, idx: nat): (n: nat)
    requires idx < |pieces|
  {
    if idx == 0 then 0 else |pieces[0]| + 1 + Offset(pieces[1..], idx - 1)
  }

  lemma {:induction false} JoinSplit(line: string)
    ensures Join(Split(line)) == line
    ensures |Split(line)| == Spaces(line) + 1
    ensures forall i :: 0 <= i < |Split(line)| ==> ' ' !in Split(line)[i]
  {
    if line == "" {
    } else {
      JoinSplit(line[1..]);
      var rest := Split(line[1..]);
      assert line == [line[0]] + line[1..];
      if line[0] == ' ' {
        assert Split(line)[1..] == rest;
      } else {
        assert Split(line)[1..] == rest[1..];
      }
    }
  }

  /** Cutting is the only way to get space-free pieces that join to the line. */
  lemma {:induction false} SplitIsUnique(pieces: seq<string>)
    requires |pieces| > 0 && forall i :: 0 <= i < |pieces| ==> ' ' !in pieces[i]
    ensures Split(Join(pieces)) == pieces
    decreases |pieces|, |pieces[0]|
  {
    hide Split, Join;
    if |pieces| == 1 && pieces[0] == "" {
      SplitNothing(pieces);
    } else if pieces[0] == "" {
      SplitIsUnique(pieces[1..]);
      SplitSpace(pieces);
    } else {
      var shorter := [pieces[0][1..]] + pieces[1..];
      SplitIsUnique(shorter);
      SplitCharacter(pieces, shorter);
    }
  }

  lemma SplitNothing(pieces: seq<string>)
    requires pieces == [""]
    ensures Split(Join(pieces)) == pieces
  {
  }

  lemma SplitSpace(pieces: seq<string>)
    requires |pieces| > 1 && pieces[0] == "" && Split(Join(pieces[1..])) == pieces[1..]
    ensures Split(Join(pieces)) == pieces
  {
    var line := Join(pieces);
    assert line == " " + Join(pieces[1..]);
    assert line[1..] == Join(pieces[1..]);
    assert pieces == [""] + pieces[1..];
  }

  lemma SplitCharacter(pieces: seq<string>, shorter: seq<string>)
    requires |pieces| > 0 && pieces[0] != "" && pieces[0][0] != ' '
    requires shorter == [pieces[0][1..]] + pieces[1..] && Split(Join(shorter)) == shorter
    ensures Split(Join(pieces)) == pieces
  {
    var line := Join(pieces);
    assert shorter[1..] == pieces[1..];
    assert line == [pieces[0][0]] + Join(shorter);
    assert line[1..] == Join(shorter);
    assert pieces[0] == [pieces[0][0]] + pieces[0][1..];
    assert pieces == [[line[0]] + shorter[0]] + shorter[1..];
  }

  /** The idx-th piece lies at its offset, and ends at a space or at the end of the line. */
  lemma {:induction false} PieceAtOffset(line: string, idx: nat)
    requires idx < |Split(line)|
    ensures PieceIs(line, Offset(Split(line), idx), Split(line)[idx], idx + 1 < |Split(line)|)
  {
    hide PieceIs;
    if line == "" {
      EmptyPiece(line);
    } else {
      var rest := Split(line[1..]);
      if line[0] == ' ' {
        EmptyPiece(line);
        assert Split(line)[1..] == rest;
        if idx > 0 {
          PieceAtOffset(line[1..], idx - 1);
          Shift(line, Offset(rest, idx - 1), rest[idx - 1], idx < |rest|);
        }
      } else if idx > 0 {
        PieceAtOffset(line[1..], idx);
        Shift(line, Offset(rest, idx), rest[idx], idx + 1 < |rest|);
        assert Split(line)[1..] == rest[1..];
      } else {
        PieceAtOffset(line[1..], 0);
        Extend(line, rest[0], 1 < |rest|);
      }
    }
  }

  /** The piece is in the line at offset o, and a space follows exactly if there are more pieces. */
  ghost predicate PieceIs(line: string, o: int, piece: string, more: bool) {
    && 0 <= o && o + |piece| <= |line| && line[o..o + |piece|] == piece
    && (more <==> o + |piece| < |line|)
    && (more ==> line[o + |piece|] == ' ')
  }

  lemma EmptyPiece(line: string)
    ensures line == "" ==> PieceIs(line, 0, "", false)
    ensures line != "" && line[0] == ' ' ==> PieceIs(line, 0, "", true)
  {
  }

  lemma Shift(line: string, o: nat, piece: string, more: bool)
    requires line != "" && PieceIs(line[1..], o, piece, more)
    ensures PieceIs(line, o + 1, piece, more)
  {
  }

  lemma Extend(line: string, piece: string, more: bool)
    requires line != "" && PieceIs(line[1..], 0, piece, more)
    ensures PieceIs(line, 0, [line[0]] + piece, more)
  {
  }

  lemma {:induction false} OffsetNext(pieces: seq<string>, idx: nat)
    requires idx + 1 < |pieces|
    ensures Offset(pieces, idx + 1) == Offset(pieces, idx) + |pieces[idx]| + 1
  {
    if idx == 0 {
    } else {
      OffsetNext(pieces[1..], idx - 1);
    }
  }

  lemma OffsetFirst(pieces: seq<string>)
    requires |pieces| > 0
    ensures Offset(pieces, 0) == 0
  {
  }

  /**
   cstring_get_token: a pointer to the idx-th piece, as an offset, with its size; NULL and 0 when
   the line has fewer pieces.
   */
  method GetToken(line: string, idx: nat) returns (token: int, tokenSize: nat)
    ensures idx < |Split(line)| ==>
              && 0 <= token && token + tokenSize <= |line|
              && line[token..token + tokenSize] == Split(line)[idx]
              && token == Offset(Split(line), idx)
    ensures idx >= |Split(line)| ==> token == NULL && tokenSize == 0
  {
    hide Split, Offset, Join, Spaces;
    ghost var pieces := Split(line);
    token, tokenSize := NULL, 0;
    OffsetFirst(pieces);
    var ptr, tokenIdx := 0, 0;
    var i := 0;
    PieceAtOffset(line, 0);
    while i < |line|
      invariant 0 <= tokenIdx < |pieces| && tokenIdx <= idx
      invariant token == NULL && tokenSize == 0
      invariant ptr == Offset(pieces, tokenIdx) <= i <= ptr + |pieces[tokenIdx]|
      invariant ptr + |pieces[tokenIdx]| <= |line|
    {
      PieceAtOffset(line, tokenIdx);
      if line[i] == ' ' {
        SpaceEndsPiece(line, tokenIdx, i);
        if tokenIdx == idx {
          token := ptr;
          tokenSize := i - ptr;
          return;
        }
        OffsetNext(pieces, tokenIdx);
        tokenIdx := tokenIdx + 1;
        ptr := i + 1;
        PieceAtOffset(line, tokenIdx);
      }
      i := i + 1;
    }
    PieceAtOffset(line, tokenIdx);
    if tokenIdx == idx {
      token := ptr;
      tokenSize := |line| - ptr;
    }
  }

  /** A space inside the line from a piece's start on marks the piece's end. */
  lemma SpaceEndsPiece(line: string, idx: nat, i: int)
    requires idx < |Split(line)|
    requires Offset(Split(line), idx) <= i <= Offset(Split(line), idx) + |Split(line)[idx]| && i < |line| && line[i] == ' '
    ensures i == Offset(Split(line), idx) + |Split(line)[idx]|
  {
    hide Split, Offset, Join, Spaces;
    PieceAtOffset(line, idx);
    JoinSplit(line);
    var o, piece := Offset(Split(line), idx), Split(line)[idx];
    assert forall j :: 0 <= j < |piece| ==> piece[j] == line[o + j] && piece[j] in piece;
  }
}
