/** Pitch classes: a note's identity modulo the octave, as an integer 0..11
    (C = 0). The note arithmetic the sources borrow from the tonal library
    (`Note.transpose`, `Note.pitchClass`, `Interval.fromSemitones`) is
    reduced to transposition of a pitch class by a number of semitones. */
module Pitch {

  type PitchClass = x: int | 0 <= x < 12

  /** The pitch class `semitones` above `pc` (below, for a negative count). */
  function Transpose(pc: PitchClass, semitones: int): (r: PitchClass)
    ensures semitones == 0 ==> r == pc
    ensures 0 <= pc + semitones < 12 ==> r == pc + semitones
    ensures 12 <= pc + semitones < 24 ==> r == pc + semitones - 12
    ensures -12 <= pc + semitones < 0 ==> r == pc + semitones + 12
  {
    (pc + semitones) % 12
  }

  /** Transposing by a whole octave more lands on the same pitch class. */
  lemma {:induction false} TransposeOctave(pc: PitchClass, semitones: int)
    ensures Transpose(pc, semitones + 12) == Transpose(pc, semitones)
  {
    var a := pc + semitones;
    assert (a + 12) % 12 == a % 12 by {
      assert a + 12 == 12 * ((a / 12) + 1) + a % 12;
    }
  }
}
