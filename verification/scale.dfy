/** The `Scale` class of src/classes/Scale.js: a note list with two
    parallel tables of chord patterns (triads and sevenths), and
    `getChords(key)`, which builds one triad and one seventh chord on each
    note, reading the tables rotated by the key's position. */
module Scale {
  import opened JsBasics
  import opened Chord

  /** An entry of the pattern tables: the chord type and its tab. */
  datatype Pattern = Pattern(chordType: ChordType, tab: string)

  /** `new Scale(name, notes, triads, sevenths)` keeps its arguments. */
  datatype Scale = Scale(name: string, notes: seq<string>, triads: seq<Pattern>, sevenths: seq<Pattern>)

  /** One element of `getChords`' result. */
  datatype DegreeChords = DegreeChords(triad: Chord, seventh: Chord)

  /** `table[k % table.length]` with JavaScript's `%`, for the indices
      `keyIndex + index` that occur (never below -1): `undefined` for an
      empty table (the index is NaN), and for index -1 unless the table has
      a single entry (`-1 % 1` is -0, which reads entry 0). */
  function PatternAt(table: seq<Pattern>, k: int): (r: Option<Pattern>)
    requires k >= -1
    ensures r.Some? <==> |table| > 0 && (k >= 0 || |table| == 1)
    ensures r.Some? ==> r == Some(Cyclic(table, k))
  {
    if |table| == 0 then None
    else
      var j := Rem(k, |table|);
      if j >= 0 then Some(table[j]) else None
  }

  /** Entry k of a table read cyclically (k taken modulo the length, the
      result never negative). */
  function Cyclic(table: seq<Pattern>, k: int): Pattern
    requires |table| > 0
  {
    table[k % |table|]
  }

  /** The callback of `notes.map` for the note at `index`: reading `.type`
      of an `undefined` pattern throws. */
  function ChordsAt(s: Scale, keyIndex: int, index: nat): Result<DegreeChords>
    requires keyIndex >= -1 && index < |s.notes|
  {
    var t := PatternAt(s.triads, keyIndex + index);
    var v := PatternAt(s.sevenths, keyIndex + index);
    if t.None? || v.None? then TypeError
    else Ok(DegreeChords(Chord(s.notes[index], t.value.chordType, t.value.tab),
                         Chord(s.notes[index], v.value.chordType, v.value.tab)))
  }

  /** `scale.getChords(key)`. It throws exactly when there are notes and
      either table is empty, or the key is absent (index -1, so the first
      note reads index -1) and a table has more than one entry. Otherwise
      the note at position i gets both chords rooted on itself, from the
      tables rotated by the key's index. */
  method GetChords(s: Scale, key: string) returns (r: Result<seq<DegreeChords>>)
    ensures r.TypeError? <==>
      |s.notes| > 0 && (|s.triads| == 0 || |s.sevenths| == 0 || (key !in s.notes && (|s.triads| > 1 || |s.sevenths| > 1)))
    ensures r.Ok? ==> |r.value| == |s.notes|
    ensures r.Ok? ==> forall i :: 0 <= i < |r.value| ==> ChordsAt(s, IndexOf(s.notes, key), i) == Ok(r.value[i])
  {
    var keyIndex := IndexOf(s.notes, key);
    var chords: seq<DegreeChords> := [];
    var index := 0;
    while index < |s.notes|
      invariant 0 <= index <= |s.notes|
      invariant |chords| == index
      invariant forall i :: 0 <= i < index ==> ChordsAt(s, keyIndex, i) == Ok(chords[i])
    {
      var c := ChordsAt(s, keyIndex, index);
      if c.TypeError? {
        ThrowsExactly(s, key, index);
        return TypeError;
      }
      chords := chords + [c.value];
      index := index + 1;
    }
    if |s.notes| > 0 {
      ThrowsExactly(s, key, 0);
    }
    r := Ok(chords);
  }

  /** Which note positions throw: only with an empty table, or at position
      0 when the key is absent and a table has more than one entry. */
  lemma ThrowsExactly(s: Scale, key: string, index: nat)
    requires index < |s.notes|
    ensures ChordsAt(s, IndexOf(s.notes, key), index).TypeError? <==>
      (|s.triads| == 0 || |s.sevenths| == 0 || (index == 0 && key !in s.notes && (|s.triads| > 1 || |s.sevenths| > 1)))
  {
  }

  /** A note position that does not throw gets both chords rooted on
      itself, from entry (keyIndex + index) mod length of each table. */
  lemma ChordsAtValue(s: Scale, keyIndex: int, index: nat)
    requires keyIndex >= -1 && index < |s.notes|
    requires ChordsAt(s, keyIndex, index).Ok?
    ensures var k := keyIndex + index;
      && |s.triads| > 0 && |s.sevenths| > 0
      && ChordsAt(s, keyIndex, index).value
           == DegreeChords(Chord(s.notes[index], Cyclic(s.triads, k).chordType, Cyclic(s.triads, k).tab),
                           Chord(s.notes[index], Cyclic(s.sevenths, k).chordType, Cyclic(s.sevenths, k).tab))
  {
  }

  /** When the key is the first note the tables are read unrotated. */
  lemma KeyIsFirstNote(s: Scale, i: nat)
    requires 0 < |s.triads| && 0 < |s.sevenths| && i < |s.notes|
    ensures ChordsAt(s, IndexOf(s.notes, s.notes[0]), i)
      == Ok(DegreeChords(Chord(s.notes[i], s.triads[i % |s.triads|].chordType, s.triads[i % |s.triads|].tab),
                         Chord(s.notes[i], s.sevenths[i % |s.sevenths|].chordType, s.sevenths[i % |s.sevenths|].tab)))
  {
  }

  /** A key outside the notes has index -1, so the first note reads entry
      -1 of the triads, which is `undefined` once the table has more than
      one entry. */
  lemma AbsentKeyThrows(s: Scale, key: string)
    requires |s.notes| > 0 && key !in s.notes && |s.triads| > 1
    ensures ChordsAt(s, IndexOf(s.notes, key), 0).TypeError?
  {
  }
}
