/** The `GuitarChord` class of src/utils/GuitarChord.ts: a chord from the
    tonal library copied field by field, its note names as "pitches", and a
    text tab with one `"<string> - <pitch> -"` line per string of the chosen
    tuning. */
module GuitarChordTs {
  import opened JsBasics

  /** The fields of tonal's `Chord` that the constructor copies. */
  datatype TonalChord = TonalChord(
    name: string, notes: seq<string>, intervals: seq<string>, tonic: Option<string>,
    chordType: string, quality: string, aliases: seq<string>, empty: bool,
    setNum: int, chroma: string, normalized: string)

  datatype GuitarChord = GuitarChord(
    name: string, notes: seq<string>, intervals: seq<string>, tonic: Option<string>,
    chordType: string, quality: string, aliases: seq<string>, empty: bool,
    setNum: int, chroma: string, normalized: string,
    pitches: seq<Option<string>>, tuning: string, tabNotation: string)

  /** The constructor's default tuning name. */
  const DefaultTuning := "standard"

  /** `this.pitches[i] || 'x'`: the pitch, or `'x'` when it is missing
      (past the end, or `null`) or the empty string. The label is `'x'`
      exactly when the pitch is missing, empty, or `'x'` itself. */
  function PitchLabel(pitches: seq<Option<string>>, i: nat): (r: string)
    ensures r == "x" <==>
      (i >= |pitches| || pitches[i] == None || pitches[i].value == "" || pitches[i].value == "x")
    ensures r != "x" ==> i < |pitches| && pitches[i] == Some(r)
  {
    if i < |pitches| && pitches[i].Some? && pitches[i].value != "" then pitches[i].value else "x"
  }

  /** Line i without its final newline. */
  function LineBody(strings: seq<string>, pitches: seq<Option<string>>, i: nat): string
    requires i < |strings|
  {
    strings[i] + " - " + PitchLabel(pitches, i) + " -"
  }

  /** The first k lines, each with its newline. */
  function Lines(strings: seq<string>, pitches: seq<Option<string>>, k: nat): string
    requires k <= |strings|
  {
    if k == 0 then "" else Lines(strings, pitches, k - 1) + LineBody(strings, pitches, k - 1) + "\n"
  }

  /** The line bodies, in string order. */
  function LineBodies(strings: seq<string>, pitches: seq<Option<string>>): (r: seq<string>)
    ensures |r| == |strings|
    ensures forall i :: 0 <= i < |strings| ==> r[i] == LineBody(strings, pitches, i)
  {
    seq(|strings|, i requires 0 <= i < |strings| => LineBody(strings, pitches, i))
  }

  /** `generateTabNotation()` for the tuning's string names `strings`. */
  method GenerateTabNotation(strings: seq<string>, pitches: seq<Option<string>>) returns (tab: string)
    ensures tab == Lines(strings, pitches, |strings|)
    ensures |strings| == 0 ==> tab == ""
  {
    tab := "";
    var i := 0;
    while i < |strings|
      invariant 0 <= i <= |strings|
      invariant tab == Lines(strings, pitches, i)
    {
      var pitch := PitchLabel(pitches, i);
      var line := strings[i] + " - " + pitch + " -";
      assert line == LineBody(strings, pitches, i);
      tab := tab + (line + "\n");
      i := i + 1;
    }
  }

  lemma {:induction false} JoinSnoc(parts: seq<string>, last: string, sep: char)
    requires |parts| >= 1
    ensures Join(parts + [last], sep) == Join(parts, sep) + [sep] + last
  {
    if |parts| == 1 {
      assert parts + [last] == [parts[0], last];
    } else {
      JoinSnoc(parts[1..], last, sep);
      assert (parts + [last])[1..] == parts[1..] + [last];
    }
  }

  /** The first k parts, each followed by a newline. */
  function Terminated(parts: seq<string>, k: nat): string
    requires k <= |parts|
  {
    if k == 0 then "" else Terminated(parts, k - 1) + parts[k - 1] + "\n"
  }

  /** Newline-terminating each of the first k parts is joining them with
      newlines and an empty part at the end. */
  lemma {:induction false} TerminatedAsJoin(parts: seq<string>, k: nat)
    requires k <= |parts|
    ensures Terminated(parts, k) == Join(parts[..k] + [""], '\n')
  {
    if k > 0 {
      TerminatedAsJoin(parts, k - 1);
      var prefix, b := parts[..k - 1], parts[k - 1];
      assert parts[..k] == prefix + [b];
      JoinSnoc(prefix + [b], "", '\n');
      if k == 1 {
        assert prefix + [b] == [b];
        assert prefix + [""] == [""];
      } else {
        JoinSnoc(prefix, b, '\n');
        JoinSnoc(prefix, "", '\n');
      }
    }
  }

  lemma {:induction false} LinesAreTerminated(strings: seq<string>, pitches: seq<Option<string>>, k: nat)
    requires k <= |strings|
    ensures Lines(strings, pitches, k) == Terminated(LineBodies(strings, pitches), k)
  {
    if k > 0 {
      LinesAreTerminated(strings, pitches, k - 1);
    }
  }

  /** The tab holds exactly one newline-terminated line per tuning string:
      splitting it at newlines gives the line bodies and then the empty
      remainder after the final newline (provided no string name or pitch
      holds a newline itself). */
  lemma TabNotationLines(strings: seq<string>, pitches: seq<Option<string>>)
    requires forall i :: 0 <= i < |strings| ==> '\n' !in strings[i] && '\n' !in PitchLabel(pitches, i)
    ensures Split(Lines(strings, pitches, |strings|), '\n') == LineBodies(strings, pitches) + [""]
  {
    var bodies := LineBodies(strings, pitches);
    LinesAreTerminated(strings, pitches, |strings|);
    TerminatedAsJoin(bodies, |strings|);
    assert bodies[..|strings|] == bodies;
    forall i | 0 <= i < |bodies + [""]| ensures '\n' !in (bodies + [""])[i] {
      if i < |bodies| {
        assert bodies[i] == strings[i] + " - " + PitchLabel(pitches, i) + " -";
      }
    }
    SplitJoin(bodies + [""], '\n');
  }

  /** Pitches past the last string are never read. */
  lemma {:induction false} ExtraPitchesIgnored(strings: seq<string>, pitches: seq<Option<string>>, k: nat)
    requires k <= |strings| <= |pitches|
    ensures Lines(strings, pitches, k) == Lines(strings, pitches[..|strings|], k)
  {
    if k > 0 {
      ExtraPitchesIgnored(strings, pitches, k - 1);
    }
  }

  /** `new GuitarChord(chord, tuning)`: `tuning` is `None` when the argument
      is left out, which selects the default. Looking the tuning up in
      `tunings` (a module not modelled here, passed in as a map) yields
      `undefined` for an unknown name, and reading its `length` throws. */
  method NewGuitarChord(chord: TonalChord, tunings: map<string, seq<string>>, tuning: Option<string>)
    returns (r: Result<GuitarChord>)
    ensures var name := if tuning.Some? then tuning.value else DefaultTuning;
      r.TypeError? <==> name !in tunings
    ensures r.Ok? ==>
      && r.value.name == chord.name && r.value.notes == chord.notes && r.value.intervals == chord.intervals
      && r.value.tonic == chord.tonic && r.value.chordType == chord.chordType && r.value.quality == chord.quality
      && r.value.aliases == chord.aliases && r.value.empty == chord.empty && r.value.setNum == chord.setNum
      && r.value.chroma == chord.chroma && r.value.normalized == chord.normalized
    ensures r.Ok? ==> |r.value.pitches| == |chord.notes|
    ensures r.Ok? ==> forall i :: 0 <= i < |chord.notes| ==> r.value.pitches[i] == Some(chord.notes[i])
    ensures r.Ok? ==> r.value.tuning == (if tuning.Some? then tuning.value else DefaultTuning)
    ensures r.Ok? ==> r.value.tuning in tunings
    ensures r.Ok? ==> r.value.tabNotation == Lines(tunings[r.value.tuning], r.value.pitches, |tunings[r.value.tuning]|)
  {
    var name := if tuning.Some? then tuning.value else DefaultTuning;
    var pitches := seq(|chord.notes|, i requires 0 <= i < |chord.notes| => Some(chord.notes[i]));
    if name !in tunings {
      return TypeError;
    }
    var tab := GenerateTabNotation(tunings[name], pitches);
    r := Ok(GuitarChord(chord.name, chord.notes, chord.intervals, chord.tonic, chord.chordType, chord.quality,
                        chord.aliases, chord.empty, chord.setNum, chord.chroma, chord.normalized,
                        pitches, name, tab));
  }
}
