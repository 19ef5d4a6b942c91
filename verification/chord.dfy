/** The `Chord` class of src/classes/Chord.js: a root note name, a chord type
    carrying its intervals in semitones, and a tab string, with `getNotes`
    spelling the chord's notes through a fixed note-name table. */
module Chord {
  import opened JsBasics

  /** The entries of `noteMap`, in the order the object literal lists them. */
  const NoteEntries: seq<(string, int)> := [
    ("C", 0), ("C#", 1), ("Db", 1),
    ("D", 2), ("D#", 3), ("Eb", 3),
    ("E", 4),
    ("F", 5), ("F#", 6), ("Gb", 6),
    ("G", 7), ("G#", 8), ("Ab", 8),
    ("A", 9), ("A#", 10), ("Bb", 10),
    ("B", 11)
  ]

  /** An object built by assigning the entries in order; a later entry for
      the same key overwrites an earlier one. */
  function BuildNoteMap(entries: seq<(string, int)>): map<string, int>
  {
    if |entries| == 0 then map[]
    else BuildNoteMap(entries[..|entries| - 1])[entries[|entries| - 1].0 := entries[|entries| - 1].1]
  }

  /** `reverseNoteMap`: the entries folded with pitch number as key, so the
      entry listed last for a number is the one kept. */
  function BuildReverseMap(entries: seq<(string, int)>): map<int, string>
  {
    if |entries| == 0 then map[]
    else
      var e := entries[|entries| - 1];
      var m0 := BuildReverseMap(entries[..|entries| - 1]);
      m0[e.1 := e.0]
  }

  /** `noteMap`: every name the literal lists keeps the number listed with
      it (no name is listed twice), and every number is a pitch class. */
  function NoteMap(): (r: map<string, int>)
    ensures forall n :: n in r ==> 0 <= r[n] < 12
  {
    NoteTableUnfolded();
    BuildNoteMap(NoteEntries)
  }

  /** `reverseNoteMap`: its keys are exactly the pitch classes 0..11, and
      looking a spelling up in `noteMap` gives its key back. */
  function ReverseNoteMap(): (r: map<int, string>)
    ensures forall k :: k in r <==> 0 <= k < 12
    ensures forall k :: k in r ==> r[k] in NoteMap() && NoteMap()[r[k]] == k
  {
    NoteTableUnfolded();
    ReverseTableUnfolded();
    BuildReverseMap(NoteEntries)
  }

  lemma NoteMapStep(entries: seq<(string, int)>, k: int)
    requires 0 <= k < |entries|
    ensures BuildNoteMap(entries[..k + 1]) == BuildNoteMap(entries[..k])[entries[k].0 := entries[k].1]
  {
    assert entries[..k + 1][..k] == entries[..k];
  }

  lemma ReverseMapStep(entries: seq<(string, int)>, k: int)
    requires 0 <= k < |entries|
    ensures BuildReverseMap(entries[..k + 1]) == BuildReverseMap(entries[..k])[entries[k].1 := entries[k].0]
  {
    assert entries[..k + 1][..k] == entries[..k];
  }

  /** The fold of the literal's entries, as the chain of assignments it performs. */
  lemma NoteTableUnfolded()
    ensures BuildNoteMap(NoteEntries) == map[]["C" := 0]["C#" := 1]["Db" := 1]["D" := 2]["D#" := 3]["Eb" := 3]["E" := 4]
                            ["F" := 5]["F#" := 6]["Gb" := 6]["G" := 7]["G#" := 8]["Ab" := 8]
                            ["A" := 9]["A#" := 10]["Bb" := 10]["B" := 11]
  {
    var e := NoteEntries;
    assert e[..0] == [];
    NoteMapStep(e, 0); NoteMapStep(e, 1); NoteMapStep(e, 2); NoteMapStep(e, 3);
    NoteMapStep(e, 4); NoteMapStep(e, 5); NoteMapStep(e, 6); NoteMapStep(e, 7);
    NoteMapStep(e, 8); NoteMapStep(e, 9); NoteMapStep(e, 10); NoteMapStep(e, 11);
    NoteMapStep(e, 12); NoteMapStep(e, 13); NoteMapStep(e, 14); NoteMapStep(e, 15);
    NoteMapStep(e, 16);
    assert e[..17] == e;
  }

  /** The reverse fold of the literal's entries, as the chain of assignments
      the `reduce` performs. */
  lemma ReverseTableUnfolded()
    ensures BuildReverseMap(NoteEntries) == map[][0 := "C"][1 := "C#"][1 := "Db"][2 := "D"][3 := "D#"][3 := "Eb"][4 := "E"]
                                   [5 := "F"][6 := "F#"][6 := "Gb"][7 := "G"][8 := "G#"][8 := "Ab"]
                                   [9 := "A"][10 := "A#"][10 := "Bb"][11 := "B"]
  {
    var e := NoteEntries;
    assert e[..0] == [];
    ReverseMapStep(e, 0); ReverseMapStep(e, 1); ReverseMapStep(e, 2); ReverseMapStep(e, 3);
    ReverseMapStep(e, 4); ReverseMapStep(e, 5); ReverseMapStep(e, 6); ReverseMapStep(e, 7);
    ReverseMapStep(e, 8); ReverseMapStep(e, 9); ReverseMapStep(e, 10); ReverseMapStep(e, 11);
    ReverseMapStep(e, 12); ReverseMapStep(e, 13); ReverseMapStep(e, 14); ReverseMapStep(e, 15);
    ReverseMapStep(e, 16);
    assert e[..17] == e;
  }

  /** `noteMap` as the chain of assignments the object literal performs. */
  lemma NoteMapUnfolded()
    ensures NoteMap() == map[]["C" := 0]["C#" := 1]["Db" := 1]["D" := 2]["D#" := 3]["Eb" := 3]["E" := 4]
                            ["F" := 5]["F#" := 6]["Gb" := 6]["G" := 7]["G#" := 8]["Ab" := 8]
                            ["A" := 9]["A#" := 10]["Bb" := 10]["B" := 11]
  {
    NoteTableUnfolded();
  }

  /** `reverseNoteMap` as the chain of assignments the `reduce` performs. */
  lemma ReverseNoteMapUnfolded()
    ensures ReverseNoteMap() == map[][0 := "C"][1 := "C#"][1 := "Db"][2 := "D"][3 := "D#"][3 := "Eb"][4 := "E"]
                                   [5 := "F"][6 := "F#"][6 := "Gb"][7 := "G"][8 := "G#"][8 := "Ab"]
                                   [9 := "A"][10 := "A#"][10 := "Bb"][11 := "B"]
  {
    ReverseTableUnfolded();
  }

  /** The later, flat spelling wins for every black key. */
  lemma BlackKeysSpellFlat()
    ensures 1 in ReverseNoteMap() && 3 in ReverseNoteMap() && 6 in ReverseNoteMap()
    ensures 8 in ReverseNoteMap() && 10 in ReverseNoteMap()
    ensures ReverseNoteMap()[1] == "Db" && ReverseNoteMap()[3] == "Eb"
    ensures ReverseNoteMap()[6] == "Gb" && ReverseNoteMap()[8] == "Ab"
    ensures ReverseNoteMap()[10] == "Bb"
  {
    ReverseNoteMapUnfolded();
  }

  /** What the source calls a chord type: only its `intervals` are read. */
  datatype ChordType = ChordType(name: string, intervals: seq<int>)

  /** `new Chord(root, type, tab)` keeps its three arguments as they are. */
  datatype Chord = Chord(root: string, chordType: ChordType, tab: string)

  /** The pitch number of one chord note: `(rootMidi + interval) % 12` with
      JavaScript's remainder, or `undefined` when the root is unknown (NaN). */
  function NoteNumber(root: string, interval: int): Option<int>
  {
    if root in NoteMap() then Some(Rem(NoteMap()[root] + interval, 12)) else None
  }

  /** The spelling of one chord note: `reverseNoteMap[noteMidi]`, which is
      `undefined` for a NaN or negative number. */
  function Spell(n: Option<int>): Option<string>
  {
    if n.Some? && n.value in ReverseNoteMap() then Some(ReverseNoteMap()[n.value]) else None
  }

  /** What one note of `getNotes` is: defined exactly when the root is
      known and the sum is non-negative or a multiple of 12 (only then is
      the truncating remainder a key of the map); a defined note is the
      canonical spelling of the sum taken modulo 12, and its pitch number
      is congruent to the sum. */
  predicate IsNoteOf(root: string, interval: int, note: Option<string>)
  {
    && (note.Some? <==> root in NoteMap() && (NoteMap()[root] + interval >= 0 || (NoteMap()[root] + interval) % 12 == 0))
    && (note.Some? ==>
          var k := (NoteMap()[root] + interval) % 12;
          && k in ReverseNoteMap() && note.value == ReverseNoteMap()[k]
          && note.value in NoteMap() && (NoteMap()[note.value] - NoteMap()[root] - interval) % 12 == 0)
  }

  lemma SpellNoteNumber(root: string, interval: int)
    ensures IsNoteOf(root, interval, Spell(NoteNumber(root, interval)))
  {
  }

  /** `chord.getNotes()`: one entry per interval, in interval order. */
  function GetNotes(c: Chord): (r: seq<Option<string>>)
    ensures |r| == |c.chordType.intervals|
    ensures forall i :: 0 <= i < |r| ==> IsNoteOf(c.root, c.chordType.intervals[i], r[i])
  {
    var r := seq(|c.chordType.intervals|, i requires 0 <= i < |c.chordType.intervals| =>
      Spell(NoteNumber(c.root, c.chordType.intervals[i])));
    assert forall i :: 0 <= i < |r| ==> IsNoteOf(c.root, c.chordType.intervals[i], r[i]) by {
      forall i | 0 <= i < |r| {
        SpellNoteNumber(c.root, c.chordType.intervals[i]);
      }
    }
    r
  }

  /** Interval 0 spells the root in the map's canonical spelling: a sharp
      root comes back flat. */
  lemma SharpRootSpelledFlat(name: string, tab: string)
    ensures GetNotes(Chord("C#", ChordType(name, [0]), tab)) == [Some("Db")]
  {
    NoteMapUnfolded();
    BlackKeysSpellFlat();
    var r := GetNotes(Chord("C#", ChordType(name, [0]), tab));
    assert NoteMap()["C#"] == 1;
    assert r[0].Some?;
  }
}
