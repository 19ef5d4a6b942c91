# chordhack core, modelled in Dafny

chordhack is a small browser app. It lists the chords of a scale in a given
key, groups them by how many "fingers" their tab needs, and plays scales and
chords. This project models the pure logic underneath it and proves
properties of that logic:

- the depth-first chord-tab search `generateChordTab` (module `ChordTab`);
- the permutation/diagonal search `minimizeDiagonalSpan` (module `DiagonalSpan`);
- the pitch helpers:
  - `GuitarNeck` (module `GuitarNeck`);
  - the `noteMap`/`reverseNoteMap` spelling of `Chord.getNotes` (module `Chord`);
  - the rotated pattern tables of `Scale.getChords` (module `Scale`);
- the two `GuitarChord` classes: the TypeScript one with its text tab (module
  `GuitarChordTs`) and the JavaScript one with `formatTab` (module `GuitarChordJs`);
- the computational fragments of `main.js` (module `MainPage`): finger-count
  bucketing, group titles, the octave walk of `playScale`, the palindromic
  scale, and `getOctave`.

Notes are pitch classes 0..11 (module `Pitch`), which replaces the tonal
library's note arithmetic. JavaScript behaviour the code relies on is written
out in module `JsBasics`:

- the truncating `%`;
- `indexOf` returning -1;
- `split`/`join`;
- `String(n)`;
- `Math.min`/`Math.max` of a non-empty list.

A thrown `TypeError` (reading a property of `undefined`) is the `TypeError`
case of a `Result`.

Files:

- `js_basics.dfy`, `pitch.dfy`, `chord.dfy`, `guitar_neck.dfy`;
- `chord_tab.dfy`, `diagonal_span.dfy`, `scale.dfy`;
- `guitar_chord_ts.dfy`, `guitar_chord_js.dfy`, `main_page.dfy`.

## Model

| member | source | states |
|---|---|---|
| JsBasics.Rem | src/classes/Scale.js:14-15 | JavaScript's `%`: the dividend is the divisor times the quotient rounded toward zero, plus the remainder; the remainder has the sign of the dividend and is below the divisor in size |
| JsBasics.RemOfNonNegative | src/classes/Chord.js:30 | for a non-negative dividend, `%` is the mathematical modulus |
| JsBasics.IndexOf | src/classes/Scale.js:12 | `indexOf` is -1 exactly when the element is absent; otherwise it is the first position holding it |
| JsBasics.SplitJoin | src/utils/utils.js:51 | splitting a join at the separator gives the parts back when no part holds the separator |
| JsBasics.ParseNatToString | src/utils/utils.js:51 | a fret number printed in decimal reads back as the same number |
| JsBasics.MinOf | src/utils/utils.js:28 | `Math.min` of a non-empty list is an element of it and no element is smaller |
| JsBasics.MaxOf | src/utils/utils.js:27 | `Math.max` of a non-empty list is an element of it and no element is larger |
| JsBasics.CountOtherOccurrences | src/main.js:83 | the number of characters other than `'x'` is the length minus the occurrences of `'x'` |
| JsBasics.CountOtherConcat | src/main.js:83 | counting non-`'x'` characters distributes over concatenation |
| JsBasics.Reverse | src/main.js:159 | `reverse` keeps the length and mirrors positions |
| Pitch.Transpose | src/utils/GuitarNeck.js:13 | transposing a pitch class by a semitone count wraps around the octave, and by 0 is the identity |
| Pitch.TransposeOctave | src/utils/GuitarNeck.js:13 | twelve semitones more give the same pitch class |
| Chord.NoteMap | src/classes/Chord.js:11-19 | every value of `noteMap` is a pitch number 0..11 |
| Chord.NoteMapUnfolded | src/classes/Chord.js:11-19 | `noteMap` is the object literal's assignments, in order |
| Chord.ReverseNoteMap | src/classes/Chord.js:11-24 | the keys of `reverseNoteMap` are exactly 0..11, and `noteMap` of the spelling stored under a key gives the key back |
| Chord.ReverseNoteMapUnfolded | src/classes/Chord.js:21-24 | `reverseNoteMap` is the `reduce`'s assignments, in the literal's order |
| Chord.BlackKeysSpellFlat | src/classes/Chord.js:12-24 | later entries overwrite earlier ones, so 1, 3, 6, 8, 10 spell as Db, Eb, Gb, Ab, Bb |
| Chord.GetNotes | src/classes/Chord.js:26-34 | one entry per interval, in order; an entry is defined exactly when the root is known and the sum is non-negative or a multiple of 12; a defined entry is the `reverseNoteMap` spelling of the sum mod 12, so its pitch is congruent to root + interval |
| Chord.SharpRootSpelledFlat | src/classes/Chord.js:21-31 | a sharp root comes back under its flat name: the root of a C# chord is spelled Db |
| GuitarNeck.DefaultNeck | src/utils/GuitarNeck.js:4-9 | the default tuning is E, A, D, G, B, E, as the pitch numbers `noteMap` gives those names |
| GuitarNeck.NoteAt | src/utils/GuitarNeck.js:11-14 | a string index inside the tuning gives a pitch congruent to the open string plus the fret; outside it gives no note |
| GuitarNeck.NoteAtOpenAndOctave | src/utils/GuitarNeck.js:11-14 | fret 0 is the open string, and fret f + 12 sounds like fret f |
| GuitarNeck.SoundedFrom | src/utils/GuitarNeck.js:17-20 | the positions kept by the filter are exactly the non-`'x'` ones, increasing |
| GuitarNeck.NotesAtFrets | src/utils/GuitarNeck.js:16-21 | at most one note per entry of the list |
| GuitarNeck.NotesAtFretsSpec | src/utils/GuitarNeck.js:16-21 | `getNotesAtFrets` gives one note per non-`'x'` entry, in order, each read on the string at that entry's original index |
| GuitarNeck.NotesAtNumericFrets | src/utils/GuitarNeck.js:17-19 | with no `'x'`, every entry sounds on its own string, a -1 included (one semitone below open) |
| ChordTab.Feasible | src/utils/utils.js:13-16 | a shape is feasible exactly when the number of distinct notes of its six strings equals the chord's note count; membership in the chord is not checked |
| ChordTab.Fretted | src/utils/utils.js:26 | the filter keeps exactly the entries other than -1 |
| ChordTab.BestOf | src/utils/utils.js:25-33 | a kept shape is acceptable: feasible, with a fretted string, and within a span of 3 |
| ChordTab.BestOfNone | src/utils/utils.js:25-33 | the search keeps a shape exactly when some evaluated shape is acceptable |
| ChordTab.BestOfKept | src/utils/utils.js:25-33 | the kept shape is acceptable and has the lowest minimum fret among the acceptable evaluated shapes |
| ChordTab.BestOfFirst | src/utils/utils.js:30-32 | the kept shape is the first to reach its minimum: every acceptable shape evaluated before it has a strictly higher minimum |
| ChordTab.BestOfChosen | src/utils/utils.js:30-32 | conversely, the first acceptable shape with the lowest minimum is the one kept |
| ChordTab.BestOfSnoc | src/utils/utils.js:30-32 | evaluating one more shape replaces the best only when that shape improves on it |
| ChordTab.UnfrettedNeverAcceptable | src/utils/utils.js:8 | the all -1 start shape is never kept, because its minimum is Infinity |
| ChordTab.MinFretOfValid | src/utils/utils.js:33 | a valid shape's minimum fret is in 1..12, never 0 |
| ChordTab.ChildrenSpec | src/utils/utils.js:37-46 | each child differs from its parent in one entry, which strictly increases (-1 jumps to 1); every entry below 12 gives a child; children of a valid shape are valid |
| ChordTab.Children | src/utils/utils.js:37-46 | the children of a valid shape are valid shapes |
| ChordTab.CoveredAfterSkip | src/utils/utils.js:19-22 | skipping a visited shape loses no unexplored child |
| ChordTab.CoveredAfterExpand | src/utils/utils.js:19-46 | recording a fresh shape and pushing its children loses no unexplored child |
| ChordTab.SkipKeepsInvariant | src/utils/utils.js:19-22 | a visited shape is popped without being evaluated or expanded, and the search state stays consistent |
| ChordTab.ExpandKeepsInvariant | src/utils/utils.js:19-48 | evaluating and expanding a fresh shape keeps visited, the stack and the best shape consistent |
| ChordTab.TabRoundTrip | src/utils/utils.js:51 | a valid shape's tab has six dash-separated tokens, `'x'` exactly where the entry is -1, and parses back to the shape |
| ChordTab.TabResultSpec | src/utils/utils.js:51 | the result is `null` exactly when no shape was kept; otherwise it parses back to the kept shape |
| ChordTab.SearchStep | src/utils/utils.js:19-48 | one pass of the loop keeps the search state consistent and the processed shapes a prefix of the reference depth-first order `Dfs`; the early exit of line 33 is never taken |
| ChordTab.GenerateChordTab | src/utils/utils.js:4-52 | the shapes processed are exactly the reference depth-first order `Dfs` (last-pushed child first, visited shapes skipped, at most 1000), each once and each valid, starting with the all -1 shape; the tab is that of the best processed shape; the closure clause for a stack that empties early never applies on six strings |
| DiagonalSpan.InsertAtSpec | src/utils/minimizeDiagonalSpan.js:14 | inserting an element adds exactly it; for a new element, it is found at the insertion point and removing it gives the original |
| DiagonalSpan.InsertEverywhere | src/utils/minimizeDiagonalSpan.js:13-16 | the inner loop inserts the element at every position 0..length, in order |
| DiagonalSpan.PermsCount | src/utils/minimizeDiagonalSpan.js:6-19 | `generatePermutations` of `[]` is `[[]]`, and of k elements gives k! lists |
| DiagonalSpan.Perms | src/utils/minimizeDiagonalSpan.js:6-19 | every generated list is a rearrangement of the input |
| DiagonalSpan.PermsComplete | src/utils/minimizeDiagonalSpan.js:6-19 | every rearrangement of the input is generated |
| DiagonalSpan.PermsDistinct | src/utils/minimizeDiagonalSpan.js:6-19 | for distinct input elements, no list is generated twice |
| DiagonalSpan.ColumnPerms | src/utils/minimizeDiagonalSpan.js:32 | the column permutations are n! distinct permutations of 0..n-1 |
| DiagonalSpan.ColumnPermsComplete | src/utils/minimizeDiagonalSpan.js:32 | every permutation of 0..n-1 is among them |
| DiagonalSpan.Submatrices | src/utils/minimizeDiagonalSpan.js:22-30 | m-n+1 windows when m >= n, none otherwise; window i holds rows i..i+n-1 and the row indices i..i+n-1 |
| DiagonalSpan.SpanOkMeans | src/utils/minimizeDiagonalSpan.js:45-46 | the span test passes exactly when every entry is defined and no two are more than 3 apart |
| DiagonalSpan.PickDiagonal | src/utils/minimizeDiagonalSpan.js:41-44 | the diagonal holds row i's entry at column p[i], `undefined` when that column is missing |
| DiagonalSpan.ScanWindow | src/utils/minimizeDiagonalSpan.js:40-49 | the permutation loop keeps exactly the passing diagonals of one window, in permutation order |
| DiagonalSpan.WindowDiagonalsSound | src/utils/minimizeDiagonalSpan.js:40-49 | every diagonal kept for a window is picked out of the matrix by one of the permutations and spans at most 3 frets |
| DiagonalSpan.WindowDiagonalsComplete | src/utils/minimizeDiagonalSpan.js:40-49 | every diagonal a permutation picks out of the window within 3 frets is kept |
| DiagonalSpan.PicksOutUnique | src/utils/minimizeDiagonalSpan.js:42-47 | a window and permutation pick out at most one passing diagonal |
| DiagonalSpan.MinimizeDiagonalSpan | src/utils/minimizeDiagonalSpan.js:1-53 | an empty matrix throws; otherwise the result is the passing diagonals of every window, in window order and then permutation order |
| DiagonalSpan.MinimizeDiagonalSpanSpec | src/utils/minimizeDiagonalSpan.js:1-53 | every returned diagonal has length n, spans at most 3, and takes one entry per row of a window at distinct columns; every such diagonal is returned; fewer rows than columns gives nothing |
| Scale.PatternAt | src/classes/Scale.js:14-15 | a table read is defined exactly when the table is non-empty and the index is non-negative or the table has one entry; it is then the cyclic entry |
| Scale.GetChords | src/classes/Scale.js:11-22 | throws exactly when there are notes and a table is empty, or the key is absent and a table has more than one entry; otherwise one entry per note, each built from the rotated tables |
| Scale.ThrowsExactly | src/classes/Scale.js:12-18 | which note positions throw: any with an empty table, and position 0 when the key is absent and a table has several entries |
| Scale.ChordsAtValue | src/classes/Scale.js:13-19 | entry i has triad and seventh rooted at note i, from entry keyIndex + i, taken cyclically, of each table |
| Scale.KeyIsFirstNote | src/classes/Scale.js:12-15 | with the first note as key, entry i reads triads[i mod len] and sevenths[i mod len] |
| Scale.AbsentKeyThrows | src/classes/Scale.js:12-17 | an absent key makes entry 0 read index -1 of a multi-entry table, which throws |
| GuitarChordTs.GenerateTabNotation | src/utils/GuitarChord.ts:39-49 | the loop builds one newline-terminated line per tuning string, and nothing for an empty tuning |
| GuitarChordTs.TabNotationLines | src/utils/GuitarChord.ts:43-46 | splitting the tab at newlines gives exactly the line bodies `"<string> - <pitch> -"` and one empty remainder |
| GuitarChordTs.TerminatedAsJoin | src/utils/GuitarChord.ts:43-46 | newline-terminating each part equals joining the parts with newlines plus an empty final part |
| GuitarChordTs.ExtraPitchesIgnored | src/utils/GuitarChord.ts:43-44 | pitches beyond the tuning's length do not change the tab |
| GuitarChordTs.PitchLabel | src/utils/GuitarChord.ts:44 | the label is `'x'` exactly when the pitch is missing, null, empty or `'x'`; otherwise it is the pitch |
| GuitarChordTs.NewGuitarChord | src/utils/GuitarChord.ts:22-37 | an unknown tuning name (default `'standard'`) throws; otherwise the stored tuning is the argument, or `'standard'` without one, the chord's fields are copied, the pitches equal the notes element by element, and the tab is generated from the tuning |
| GuitarChordJs.NewGuitarChord | src/utils/GuitarChord.js:5-13 | the arguments are stored unchanged, the neck has the standard tuning, and the tab is `''` |
| GuitarChordJs.FormatTab | src/utils/GuitarChord.js:15-17 | `formatTab` returns the tab unchanged |
| GuitarChordJs.SplitJoinChars | src/utils/GuitarChord.js:16 | splitting into characters, mapping each to itself, and joining gives the string back |
| GuitarChordJs.FormatTabOfNewChord | src/utils/GuitarChord.js:12-17 | a new chord formats to `''`, and formatting is idempotent |
| MainPage.BucketOf | src/main.js:82-87 | an empty tab or fewer than two fingers joins no group; exactly 2, 3 or 4 fingers join the 2-, 3- or 4-finger group; more than four join the extended group |
| MainPage.FingerCount | src/main.js:83 | the finger count is the tab's length minus its `'x'` characters |
| MainPage.Bucketize | src/main.js:81-88 | after the loop, each group holds exactly the chords, in order, whose tab belongs in it |
| MainPage.InBucket | src/main.js:84-87 | a group holds no more chords than the list |
| MainPage.InBucketMembers | src/main.js:84-87 | a group holds only chords of the list whose finger count selects that group |
| MainPage.InBucketSnoc | src/main.js:81-88 | one more chord is appended to its own group and to no other |
| MainPage.BucketsPartition | src/main.js:84-87 | the four groups and the dropped chords together account for every chord once |
| MainPage.InAtMostOneGroup | src/main.js:84-87 | no chord is in two groups |
| MainPage.NewChordsJoinNoGroup | src/main.js:80-82 | chords with the empty tab, as `GuitarChord` builds them, join no group |
| MainPage.SearchTabsAreExtended | src/main.js:83 | a six-string tab from the search always counts as more than four fingers, since its dashes count too |
| MainPage.Title | src/main.js:95 | the title is the key with its first character uppercased, followed by `" Chords"` |
| MainPage.GroupTitles | src/main.js:95 | the titles read "2-finger Chords" and "Extended Chords" |
| MainPage.RenderedSpec | src/main.js:93-97 | only non-empty groups are rendered, each under its own title, and every non-empty group is rendered |
| MainPage.RenderedGroupsSpec | src/main.js:93-97 | a group is rendered exactly when it is non-empty |
| MainPage.OctaveWalk | src/main.js:143-157 | the octave starts at 4 and rises by exactly 1 at each note that is lower than its predecessor |
| MainPage.OctavesCountDescents | src/main.js:144-156 | the octave at each note is 4 plus the number of descents so far, so it never decreases and never drops below 4 |
| MainPage.Label | src/main.js:156 | the name given to the synthesizer starts with the note and ends with the octave's digits, which read back as the octave |
| MainPage.Palindrome | src/main.js:159 | the palindromic list has length 2n-1 (empty for n = 0), starts with the list, and equals its own reverse |
| MainPage.GetOctave | src/main.js:169-174 | the octave is 4 plus the floor of the index difference over 12 |
| MainPage.GetOctaveOfPresentNames | src/main.js:169-174 | with both names among at most twelve, the octave is 4 when the note is at or after the key and 3 otherwise; equal names give 4 |

## Left out

- Notes are pitch classes 0..11, not tonal's spelled names. In `generateChordTab` the `Set` of `Note.pitchClass` results therefore counts pitch classes: enharmonic spellings that tonal's transposition could produce (C# and Db) count once here.
- tonal internals (`Note.transpose`, `Note.pitchClass`, `Interval.fromSemitones`, `Scale.get`, `Chord.getChord`, `Scale.scaleChords`) are not modelled. Transposition is pitch-class arithmetic; the other calls produce inputs the model takes as given.
- `Note.names()` is the parameter `names` of `MainPage.GetOctave`.
- `MainPage.OctaveWalk`: `Note.freq(prev + octave) > Note.freq(note + octave)` is the parameter `lower`, a comparison of the two names that does not depend on the octave (the frequencies are floating point).
- `MainPage.OctaveWalk` returns the octaves; the names `note + octave` are given by `MainPage.Label`; the synthesizer calls that play them are I/O.
- The `tunings` module of `GuitarChord.ts` is not part of this model; it is the map parameter `tunings` of `GuitarChordTs.NewGuitarChord`.
- The contents of src/data/scales.js (tables built from a `chordPatterns` module that is not part of this model): `Scale` takes any note list and tables.
- ChordTab.GenerateChordTab: that the 1000-shape cap always binds on six strings (so `|processed| == 1000`) is not proved; it would need a count of the shapes reachable from the start shape.
- MainPage.FingerCount: JavaScript's `split('')` splits into UTF-16 code units, while the model splits into Dafny characters; the two differ only for tabs with characters outside the Basic Multilingual Plane, which the program never builds.
- GuitarChordJs.SplitJoinChars: the same difference between UTF-16 code units and Dafny characters; the round trip holds either way.
- Scale.PatternAt: only table indices of at least -1 are modelled, since `keyIndex + index` never goes lower.
- Tone.js audio (`startAudioContext`, `PolySynth`, `triggerAttackRelease`, timing offsets) is asynchronous I/O.
- DOM code (`initializeSelectors`, `updateChordsAndDisplay`, `addChordsToContainer`, `createChordElement`, event listeners) is presentation.
- `displayChords` builds its chord list through tonal; `MainPage.Bucketize` takes that list as input.
- MainPage.UpperCase: `toUpperCase` is modelled on ASCII letters only, which covers the group keys.
- The non-mutation of the matrix in `minimizeDiagonalSpan` holds by construction, since Dafny sequences are immutable values.
- `MinimizeDiagonalSpan` takes an integer matrix. Entries of other types are not modelled; a ragged row's missing entries are modelled as `undefined`.
- `GenerateChordTab` takes a pitch-class neck; the chord notes are used only through their count.
- src/__tests__/GuitarChord.test.js constructs a chord in a way neither class supports, so no property is drawn from it.
