/** The `GuitarChord` class of src/utils/GuitarChord.js: the chord's root,
    type, intervals and notes, a default guitar neck, and a tab that is
    always the empty string (the call to the tab search is commented out). */
module GuitarChordJs {
  import GuitarNeck

  datatype GuitarChord = GuitarChord(
    root: string, chordType: string, intervals: seq<string>, notes: seq<string>,
    guitarNeck: GuitarNeck.Neck, tab: string)

  /** `new GuitarChord(root, type, intervals, notes)`. */
  function NewGuitarChord(root: string, chordType: string, intervals: seq<string>, notes: seq<string>): (c: GuitarChord)
    ensures c.root == root && c.chordType == chordType && c.intervals == intervals && c.notes == notes
    ensures c.guitarNeck.tuning == GuitarNeck.StandardTuning
    ensures c.tab == ""
  {
    GuitarChord(root, chordType, intervals, notes, GuitarNeck.DefaultNeck(), "")
  }

  /** `s.split('')`: one single-character string per character. */
  function SplitChars(s: string): (r: seq<string>)
    ensures |r| == |s|
    ensures forall i :: 0 <= i < |s| ==> r[i] == [s[i]]
  {
    if |s| == 0 then [] else [[s[0]]] + SplitChars(s[1..])
  }

  /** `parts.join('')`. */
  function Concat(parts: seq<string>): string
  {
    if |parts| == 0 then "" else parts[0] + Concat(parts[1..])
  }

  /** `fret => (fret === 'x' ? 'x' : fret)`. */
  function KeepFret(fret: string): string
  {
    if fret == "x" then "x" else fret
  }

  /** The `map` of `formatTab` over the characters. */
  function KeepFrets(frets: seq<string>): (r: seq<string>)
    ensures |r| == |frets|
    ensures forall i :: 0 <= i < |frets| ==> r[i] == KeepFret(frets[i])
  {
    if |frets| == 0 then [] else [KeepFret(frets[0])] + KeepFrets(frets[1..])
  }

  /** `chord.formatTab()`: split into characters, map each to itself, and
      join back, which gives the tab unchanged. */
  function FormatTab(tab: string): (r: string)
    ensures r == tab
  {
    SplitJoinChars(tab);
    Concat(KeepFrets(SplitChars(tab)))
  }

  lemma {:induction false} SplitJoinChars(s: string)
    ensures Concat(KeepFrets(SplitChars(s))) == s
  {
    if |s| > 0 {
      SplitJoinChars(s[1..]);
      var parts := KeepFrets(SplitChars(s));
      assert parts[1..] == KeepFrets(SplitChars(s[1..]));
      assert [s[0]] + s[1..] == s;
    }
  }

  /** Formatting a freshly built chord's tab gives the empty string, and
      formatting twice is formatting once. */
  lemma FormatTabOfNewChord(root: string, chordType: string, intervals: seq<string>, notes: seq<string>, tab: string)
    ensures FormatTab(NewGuitarChord(root, chordType, intervals, notes).tab) == ""
    ensures FormatTab(FormatTab(tab)) == FormatTab(tab)
  {
  }
}
