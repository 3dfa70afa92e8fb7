/**
  The moves of the cube (RubiksCube::MOVE): a quarter turn, an inverse
  quarter turn or a half turn of one of the six faces, and the text
  notation the simplifier works on ("U", "U'", "U2").
 */
module Moves {

  datatype Face = U | L | F | R | B | D

  datatype Turn = Quarter | Inverse | Half

  datatype Move = Move(face: Face, turn: Turn)

  /** The faces in the order the simplifier's rule blocks list them. */
  const Faces: seq<Face> := [U, L, F, R, B, D]

  function Letter(f: Face): char {
    match f
    case U => 'U'
    case L => 'L'
    case F => 'F'
    case R => 'R'
    case B => 'B'
    case D => 'D'
  }

  predicate IsFaceLetter(c: char) {
    c == 'U' || c == 'L' || c == 'F' || c == 'R' || c == 'B' || c == 'D'
  }

  /** The face letter, then `'` for an inverse turn or `2` for a half turn. */
  function Notation(m: Move): (s: string)
    ensures |s| >= 1 && s[0] == Letter(m.face)
  {
    match m.turn
    case Quarter => [Letter(m.face)]
    case Inverse => [Letter(m.face), '\'']
    case Half => [Letter(m.face), '2']
  }

  function QuarterOf(f: Face): string { Notation(Move(f, Quarter)) }
  function InverseOf(f: Face): string { Notation(Move(f, Inverse)) }
  function HalfOf(f: Face): string { Notation(Move(f, Half)) }

  /** Distinct moves are written differently. */
  lemma {:induction false} NotationInjective(m1: Move, m2: Move)
    ensures Notation(m1) == Notation(m2) <==> m1 == m2
  {
    if Notation(m1) == Notation(m2) {
      var s := Notation(m1);
      assert Letter(m1.face) == s[0] == Letter(m2.face);
      assert m1.face == m2.face;
    }
  }

  /** The position of a face in `Faces`. */
  function FaceIndex(f: Face): (i: nat)
    ensures i < |Faces| && Faces[i] == f
  {
    match f
    case U => 0
    case L => 1
    case F => 2
    case R => 3
    case B => 4
    case D => 5
  }
}
