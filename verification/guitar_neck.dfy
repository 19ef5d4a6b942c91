/** The `GuitarNeck` class of src/utils/GuitarNeck.js: a tuning (one open
    pitch per string) and the notes sounded by a list of frets. */
module GuitarNeck {
  import opened Pitch
  import Chord

  /** A guitar neck: the open pitch class of each string, in string order. */
  datatype Neck = Neck(tuning: seq<PitchClass>)

  /** The note names of the default tuning. */
  const StandardTuningNames: seq<string> := ["E", "A", "D", "G", "B", "E"]

  /** The default tuning as pitch classes. */
  const StandardTuning: seq<PitchClass> := [4, 9, 2, 7, 11, 4]

  /** `new GuitarNeck()`: the constructor's default argument. */
  function DefaultNeck(): (n: Neck)
    ensures |n.tuning| == |StandardTuningNames| == 6
    ensures forall i :: 0 <= i < 6 ==>
      StandardTuningNames[i] in Chord.NoteMap() && n.tuning[i] == Chord.NoteMap()[StandardTuningNames[i]]
  {
    Chord.NoteMapUnfolded();
    Neck(StandardTuning)
  }

  /** A note as the sources pass it around: a pitch class, or the empty note
      that tonal returns when asked to transpose `undefined` (a string index
      past the end of the tuning). */
  datatype Sound = Pitched(pc: PitchClass) | NoNote

  /** An entry of the list handed to `getNotesAtFrets`: the literal `'x'`,
      or a fret number (which `parseInt` reads as itself). */
  datatype Fret = X | At(n: int)

  /** `getNoteAtStringAndFret(stringIndex, fret)`: the open string moved up
      by `fret` semitones. */
  function NoteAt(neck: Neck, stringIndex: int, fret: int): (r: Sound)
    ensures r.Pitched? <==> 0 <= stringIndex < |neck.tuning|
    ensures r.Pitched? ==> (r.pc - neck.tuning[stringIndex] - fret) % 12 == 0
  {
    if 0 <= stringIndex < |neck.tuning| then Pitched(Transpose(neck.tuning[stringIndex], fret)) else NoNote
  }

  /** Fret 0 is the open string, and twelve frets higher is the same pitch class. */
  lemma NoteAtOpenAndOctave(neck: Neck, stringIndex: int, fret: int)
    requires 0 <= stringIndex < |neck.tuning|
    ensures NoteAt(neck, stringIndex, 0) == Pitched(neck.tuning[stringIndex])
    ensures NoteAt(neck, stringIndex, fret + 12) == NoteAt(neck, stringIndex, fret)
  {
    TransposeOctave(neck.tuning[stringIndex], fret);
  }

  /** The `map` then `filter` of `getNotesAtFrets`, from position `i` on:
      each entry keeps the string index it had in the full list. */
  function NotesFrom(neck: Neck, frets: seq<Fret>, i: nat): seq<Sound>
    decreases |frets| - i
  {
    if i >= |frets| then []
    else (if frets[i].X? then [] else [NoteAt(neck, i, frets[i].n)]) + NotesFrom(neck, frets, i + 1)
  }

  /** `getNotesAtFrets(frets)`: at most one note per entry; what the notes
      are is `NotesAtFretsSpec`. */
  function NotesAtFrets(neck: Neck, frets: seq<Fret>): (r: seq<Sound>)
    ensures |r| <= |frets|
  {
    NotesFromLength(neck, frets, 0);
    NotesFrom(neck, frets, 0)
  }

  lemma {:induction false} NotesFromLength(neck: Neck, frets: seq<Fret>, i: nat)
    requires i <= |frets|
    ensures |NotesFrom(neck, frets, i)| <= |frets| - i
    decreases |frets| - i
  {
    if i < |frets| {
      NotesFromLength(neck, frets, i + 1);
    }
  }

  /** The positions, from `i` on, that hold a fret number rather than `'x'`,
      in increasing order. */
  function SoundedFrom(frets: seq<Fret>, i: nat): (r: seq<nat>)
    decreases |frets| - i
    ensures forall k :: 0 <= k < |r| ==> i <= r[k] < |frets| && frets[r[k]].At?
    ensures forall k, l :: 0 <= k < l < |r| ==> r[k] < r[l]
    ensures forall j :: i <= j < |frets| && frets[j].At? ==> j in r
  {
    if i >= |frets| then []
    else (if frets[i].X? then [] else [i]) + SoundedFrom(frets, i + 1)
  }

  function SoundedStrings(frets: seq<Fret>): seq<nat>
  {
    SoundedFrom(frets, 0)
  }

  lemma {:induction false} NotesFromSpec(neck: Neck, frets: seq<Fret>, i: nat)
    ensures |NotesFrom(neck, frets, i)| == |SoundedFrom(frets, i)|
    ensures forall k :: 0 <= k < |SoundedFrom(frets, i)| ==>
      NotesFrom(neck, frets, i)[k] == NoteAt(neck, SoundedFrom(frets, i)[k], frets[SoundedFrom(frets, i)[k]].n)
    decreases |frets| - i
  {
    if i < |frets| {
      NotesFromSpec(neck, frets, i + 1);
    }
  }

  /** With no `'x'` entry every position sounds, a -1 included: it reads one
      semitone below the open string. */
  lemma {:induction false} NotesAtNumericFrets(neck: Neck, frets: seq<Fret>)
    requires forall j :: 0 <= j < |frets| ==> frets[j].At?
    ensures |NotesAtFrets(neck, frets)| == |frets|
    ensures forall j :: 0 <= j < |frets| ==> NotesAtFrets(neck, frets)[j] == NoteAt(neck, j, frets[j].n)
  {
    NotesAtFretsSpec(neck, frets);
    var s := SoundedStrings(frets);
    assert forall k :: 0 <= k < |s| ==> k <= s[k] by {
      forall k | 0 <= k < |s| ensures k <= s[k] {
        StrictlyIncreasingFloor(s, k);
      }
    }
    assert forall j :: 0 <= j < |frets| ==> j in s;
    SoundedAllPositions(s, |frets|);
  }

  /** `getNotesAtFrets` yields one note per entry other than `'x'`, in string
      order, each read on the string at that entry's original position. */
  lemma NotesAtFretsSpec(neck: Neck, frets: seq<Fret>)
    ensures |NotesAtFrets(neck, frets)| == |SoundedStrings(frets)|
    ensures forall k :: 0 <= k < |SoundedStrings(frets)| ==>
      NotesAtFrets(neck, frets)[k] == NoteAt(neck, SoundedStrings(frets)[k], frets[SoundedStrings(frets)[k]].n)
  {
    NotesFromSpec(neck, frets, 0);
  }

  lemma {:induction false} StrictlyIncreasingFloor(s: seq<nat>, k: nat)
    requires forall a, b :: 0 <= a < b < |s| ==> s[a] < s[b]
    requires k < |s|
    ensures k <= s[k]
  {
    if k > 0 {
      StrictlyIncreasingFloor(s, k - 1);
    }
  }

  /** A strictly increasing list below `n` that holds every position below
      `n` is exactly 0, 1, ..., n-1. */
  lemma {:induction false} SoundedAllPositions(s: seq<nat>, n: nat)
    requires forall a, b :: 0 <= a < b < |s| ==> s[a] < s[b]
    requires forall k :: 0 <= k < |s| ==> s[k] < n
    requires forall j :: 0 <= j < n ==> j in s
    ensures |s| == n
    ensures forall k :: 0 <= k < |s| ==> s[k] == k
  {
    // Each s[k] is at least k (strictly increasing naturals) ...
    forall k | 0 <= k < |s| ensures k <= s[k] {
      StrictlyIncreasingFloor(s, k);
    }
    // ... and the elements are distinct values below n, so there are at most n.
    assert |s| <= n by {
      if |s| > n {
        StrictlyIncreasingFloor(s, |s| - 1);
      }
    }
    // Position j occurs at some index k with s[k] == j; since s[k] >= k, k <= j.
    forall j | 0 <= j < n ensures j < |s| && s[j] == j {
      SoundedPositionAt(s, n, j);
    }
    if n > 0 {
      SoundedPositionAt(s, n, n - 1);
    }
  }

  lemma {:induction false} SoundedPositionAt(s: seq<nat>, n: nat, j: nat)
    requires forall a, b :: 0 <= a < b < |s| ==> s[a] < s[b]
    requires forall k :: 0 <= k < |s| ==> s[k] < n
    requires forall i :: 0 <= i < n ==> i in s
    requires j < n
    ensures j < |s| && s[j] == j
    decreases j
  {
    assert j in s;
    var k :| 0 <= k < |s| && s[k] == j;
    StrictlyIncreasingFloor(s, k);
    if j > 0 {
      // s[j-1] == j-1 and s is strictly increasing, so no index below j holds j.
      SoundedPositionAt(s, n, j - 1);
    }
  }
}
