/** The computational fragments of src/main.js: grouping chords by how
    many non-'x' characters their tab has, titling and filtering the
    groups, walking a scale upward through octaves, mirroring it into a
    palindrome, and the octave offset `getOctave`. */
module MainPage {
  import opened JsBasics
  import GuitarChordJs
  import ChordTab

  type GuitarChord = GuitarChordJs.GuitarChord

  // ---------------------------------------------------------------------------
  // Grouping by finger count (displayChords)

  /** The keys of the `chords` object, in the order of its literal. */
  datatype Bucket = TwoFinger | ThreeFinger | FourFinger | Extended

  const BucketOrder: seq<Bucket> := [TwoFinger, ThreeFinger, FourFinger, Extended]

  function BucketKey(b: Bucket): string
  {
    match b
    case TwoFinger => "2-finger"
    case ThreeFinger => "3-finger"
    case FourFinger => "4-finger"
    case Extended => "extended"
  }

  /** `shape.split('').filter(f => f !== 'x').length`: every character other
      than `'x'` counts, separators included. */
  function FingerCount(tab: string): (n: nat)
    ensures n <= |tab|
    ensures n == |tab| - multiset(tab)['x']
  {
    CountOtherOccurrences(tab, 'x');
    CountOther(tab, 'x')
  }

  /** The group a chord with this tab joins: none for an empty tab (it is
      falsy) or for fewer than two fingers. */
  function BucketOf(tab: string): (r: Option<Bucket>)
    ensures r.None? <==> tab == "" || FingerCount(tab) < 2
    ensures r == Some(TwoFinger) <==> tab != "" && FingerCount(tab) == 2
    ensures r == Some(ThreeFinger) <==> tab != "" && FingerCount(tab) == 3
    ensures r == Some(FourFinger) <==> tab != "" && FingerCount(tab) == 4
    ensures r == Some(Extended) <==> tab != "" && FingerCount(tab) > 4
  {
    if tab == "" then None
    else
      var fingers := FingerCount(tab);
      if fingers == 2 then Some(TwoFinger)
      else if fingers == 3 then Some(ThreeFinger)
      else if fingers == 4 then Some(FourFinger)
      else if fingers > 4 then Some(Extended)
      else None
  }

  /** The chords, in order, whose tab puts them in group `b` (`None`: in no
      group). */
  function InBucket(chords: seq<GuitarChord>, b: Option<Bucket>): (r: seq<GuitarChord>)
    ensures |r| <= |chords|
  {
    if |chords| == 0 then []
    else
      var last := chords[|chords| - 1];
      InBucket(chords[..|chords| - 1], b) + (if BucketOf(last.tab) == b then [last] else [])
  }

  /** Group `b` holds chords of the list, each with a tab that belongs in
      `b`. */
  lemma {:induction false} InBucketMembers(chords: seq<GuitarChord>, b: Option<Bucket>)
    ensures forall c :: c in InBucket(chords, b) ==> c in chords && BucketOf(c.tab) == b
  {
    if |chords| > 0 {
      InBucketMembers(chords[..|chords| - 1], b);
    }
  }

  /** The `chords` object after the loop. */
  datatype Groups = Groups(two: seq<GuitarChord>, three: seq<GuitarChord>, four: seq<GuitarChord>, extended: seq<GuitarChord>)

  function Group(g: Groups, b: Bucket): seq<GuitarChord>
  {
    match b
    case TwoFinger => g.two
    case ThreeFinger => g.three
    case FourFinger => g.four
    case Extended => g.extended
  }

  lemma InBucketSnoc(chords: seq<GuitarChord>, i: nat, b: Option<Bucket>)
    requires i < |chords|
    ensures InBucket(chords[..i + 1], b)
      == InBucket(chords[..i], b) + (if BucketOf(chords[i].tab) == b then [chords[i]] else [])
  {
    assert chords[..i + 1][..i] == chords[..i];
  }

  /** The grouping loop of `displayChords` over the chords it built. */
  method Bucketize(chords: seq<GuitarChord>) returns (g: Groups)
    ensures forall b :: Group(g, b) == InBucket(chords, Some(b))
  {
    g := Groups([], [], [], []);
    var i := 0;
    while i < |chords|
      invariant 0 <= i <= |chords|
      invariant g.two == InBucket(chords[..i], Some(TwoFinger))
      invariant g.three == InBucket(chords[..i], Some(ThreeFinger))
      invariant g.four == InBucket(chords[..i], Some(FourFinger))
      invariant g.extended == InBucket(chords[..i], Some(Extended))
    {
      var chord := chords[i];
      var shape := chord.tab;
      InBucketSnoc(chords, i, Some(TwoFinger));
      InBucketSnoc(chords, i, Some(ThreeFinger));
      InBucketSnoc(chords, i, Some(FourFinger));
      InBucketSnoc(chords, i, Some(Extended));
      if shape != "" {
        var fingers := FingerCount(shape);
        if fingers == 2 {
          assert BucketOf(shape) == Some(TwoFinger);
          g := g.(two := g.two + [chord]);
        } else if fingers == 3 {
          assert BucketOf(shape) == Some(ThreeFinger);
          g := g.(three := g.three + [chord]);
        } else if fingers == 4 {
          assert BucketOf(shape) == Some(FourFinger);
          g := g.(four := g.four + [chord]);
        } else if fingers > 4 {
          assert BucketOf(shape) == Some(Extended);
          g := g.(extended := g.extended + [chord]);
        } else {
          assert BucketOf(shape) == None;
        }
      } else {
        assert BucketOf(shape) == None;
      }
      i := i + 1;
    }
    assert chords[..i] == chords;
  }

  /** Every chord lands in exactly one group or in none: the group sizes
      and the dropped chords add up to the number of chords. */
  lemma {:induction false} BucketsPartition(chords: seq<GuitarChord>)
    ensures |InBucket(chords, Some(TwoFinger))| + |InBucket(chords, Some(ThreeFinger))|
          + |InBucket(chords, Some(FourFinger))| + |InBucket(chords, Some(Extended))|
          + |InBucket(chords, None)| == |chords|
  {
    if |chords| > 0 {
      BucketsPartition(chords[..|chords| - 1]);
    }
  }

  /** A chord is never in two groups. */
  lemma InAtMostOneGroup(chords: seq<GuitarChord>, g: Groups, c: GuitarChord, b: Bucket, b': Bucket)
    requires forall x :: Group(g, x) == InBucket(chords, Some(x))
    requires c in Group(g, b) && c in Group(g, b')
    ensures b == b'
  {
    assert Group(g, b) == InBucket(chords, Some(b));
    assert Group(g, b') == InBucket(chords, Some(b'));
    InBucketMembers(chords, Some(b));
    InBucketMembers(chords, Some(b'));
  }

  /** A chord built by `new GuitarChord(...)` has the empty tab, so it
      joins no group. */
  lemma NewChordsJoinNoGroup(chords: seq<GuitarChord>, b: Bucket)
    requires forall i :: 0 <= i < |chords| ==> chords[i].tab == ""
    ensures InBucket(chords, Some(b)) == []
  {
    InBucketMembers(chords, Some(b));
  }

  lemma {:induction false} JoinCountsSeparators(parts: seq<string>, sep: char)
    requires sep != 'x' && |parts| >= 1
    ensures CountOther(Join(parts, sep), 'x') >= |parts| - 1
  {
    if |parts| > 1 {
      JoinCountsSeparators(parts[1..], sep);
      CountOtherConcat(parts[0], [sep], 'x');
      CountOtherConcat(parts[0] + [sep], Join(parts[1..], sep), 'x');
      assert [sep][1..] == [];
    }
  }

  /** Any tab the chord-tab search renders has five `'-'` separators, each
      counted as a finger, so it always falls in the extended group. */
  lemma SearchTabsAreExtended(s: ChordTab.Shape)
    requires |s| == ChordTab.StringCount
    ensures BucketOf(ChordTab.TabOf(s)) == Some(Extended)
  {
    JoinCountsSeparators(ChordTab.Tokens(s), '-');
  }

  // ---------------------------------------------------------------------------
  // Group titles

  /** `toUpperCase` on one character, for the ASCII letters. */
  function UpperCase(c: char): char
  {
    if 'a' <= c <= 'z' then (c as int - 32) as char else c
  }

  /** `` `${key.charAt(0).toUpperCase() + key.slice(1)} Chords` ``. */
  function Title(key: string): (t: string)
    ensures |t| == |key| + 7
    ensures t[|key|..] == " Chords"
    ensures |key| > 0 ==> t[0] == UpperCase(key[0]) && t[1..|key|] == key[1..]
  {
    if |key| == 0 then " Chords" else [UpperCase(key[0])] + key[1..] + " Chords"
  }

  lemma GroupTitles()
    ensures Title(BucketKey(TwoFinger)) == "2-finger Chords"
    ensures Title(BucketKey(Extended)) == "Extended Chords"
  {
  }

  /** The `forEach` over `Object.entries(chords)` for the keys `bs`, in
      order: each non-empty group with its title. */
  function Rendered(g: Groups, bs: seq<Bucket>): seq<(string, seq<GuitarChord>)>
  {
    if |bs| == 0 then []
    else (if |Group(g, bs[0])| > 0 then [(Title(BucketKey(bs[0])), Group(g, bs[0]))] else []) + Rendered(g, bs[1..])
  }

  function RenderedGroups(g: Groups): seq<(string, seq<GuitarChord>)>
  {
    Rendered(g, BucketOrder)
  }

  /** What is rendered: non-empty groups only, each under its own title,
      and every non-empty group. */
  lemma {:induction false} RenderedSpec(g: Groups, bs: seq<Bucket>)
    ensures forall e :: e in Rendered(g, bs) ==>
      |e.1| > 0 && exists b :: b in bs && e == (Title(BucketKey(b)), Group(g, b))
    ensures forall b :: b in bs && |Group(g, b)| > 0 ==> (Title(BucketKey(b)), Group(g, b)) in Rendered(g, bs)
  {
    if |bs| > 0 {
      RenderedSpec(g, bs[1..]);
      assert forall b :: b in bs ==> b == bs[0] || b in bs[1..];
    }
  }

  /** A group is rendered exactly when it is non-empty. */
  lemma RenderedGroupsSpec(g: Groups, b: Bucket)
    ensures (Title(BucketKey(b)), Group(g, b)) in RenderedGroups(g) <==> |Group(g, b)| > 0
    ensures forall e :: e in RenderedGroups(g) ==> |e.1| > 0
  {
    RenderedSpec(g, BucketOrder);
    assert b in BucketOrder;
  }

  // ---------------------------------------------------------------------------
  // Scale playback (playScale)

  /** The number of steps up to position i where a note sounds lower than
      its predecessor. */
  function Descents(notes: seq<string>, lower: (string, string) -> bool, i: nat): nat
    requires i < |notes|
  {
    if i == 0 then 0 else Descents(notes, lower, i - 1) + (if lower(notes[i], notes[i - 1]) then 1 else 0)
  }

  /** The `forEach` of `playScale`. `lower(a, b)` stands for
      `Note.freq(a + octave) < Note.freq(b + octave)`; both notes are read in
      the same octave. */
  method OctaveWalk(notes: seq<string>, lower: (string, string) -> bool) returns (octaves: seq<int>)
    ensures |octaves| == |notes|
    ensures |notes| > 0 ==> octaves[0] == 4
    ensures forall i :: 0 < i < |notes| ==>
      octaves[i] == octaves[i - 1] + (if lower(notes[i], notes[i - 1]) then 1 else 0)
  {
    octaves := [];
    var currentOctave := 4;
    var index := 0;
    while index < |notes|
      invariant 0 <= index <= |notes|
      invariant |octaves| == index
      invariant currentOctave == (if index == 0 then 4 else octaves[index - 1])
      invariant index > 0 ==> octaves[0] == 4
      invariant forall i :: 0 < i < index ==>
        octaves[i] == octaves[i - 1] + (if lower(notes[i], notes[i - 1]) then 1 else 0)
    {
      if index > 0 {
        if lower(notes[index], notes[index - 1]) {
          currentOctave := currentOctave + 1;
        }
      }
      octaves := octaves + [currentOctave];
      index := index + 1;
    }
  }

  /** `note + currentOctave`, the name the synthesizer is given: it starts
      with the note name, and a non-negative octave follows as decimal
      digits that read back as the octave. */
  function Label(note: string, octave: int): (r: string)
    ensures |r| > |note| && r[..|note|] == note
    ensures octave >= 0 ==> var digits := r[|note|..];
      (forall i :: 0 <= i < |digits| ==> IsDigit(digits[i])) && ParseDigits(digits) == octave
    ensures octave < 0 ==> r[|note|] == '-'
  {
    var r := note + IntToString(octave);
    assert r[|note|..] == IntToString(octave);
    if octave >= 0 then
      ParseNatToString(octave);
      r
    else r
  }

  /** The walk's octaves, closed form: octave 4 plus the descents so far,
      so they never decrease and never drop below 4. */
  lemma {:induction false} OctavesCountDescents(notes: seq<string>, lower: (string, string) -> bool, octaves: seq<int>)
    requires |octaves| == |notes|
    requires |notes| > 0 ==> octaves[0] == 4
    requires forall i :: 0 < i < |notes| ==>
      octaves[i] == octaves[i - 1] + (if lower(notes[i], notes[i - 1]) then 1 else 0)
    ensures forall i :: 0 <= i < |notes| ==> octaves[i] == 4 + Descents(notes, lower, i)
    ensures forall i, j :: 0 <= i <= j < |notes| ==> 4 <= octaves[i] <= octaves[j]
  {
    forall i | 0 <= i < |notes| ensures octaves[i] == 4 + Descents(notes, lower, i) {
      OctaveAt(notes, lower, octaves, i);
    }
    DescentsMonotone(notes, lower);
  }

  lemma {:induction false} OctaveAt(notes: seq<string>, lower: (string, string) -> bool, octaves: seq<int>, i: nat)
    requires |octaves| == |notes| && i < |notes|
    requires octaves[0] == 4
    requires forall k :: 0 < k < |notes| ==>
      octaves[k] == octaves[k - 1] + (if lower(notes[k], notes[k - 1]) then 1 else 0)
    ensures octaves[i] == 4 + Descents(notes, lower, i)
  {
    if i > 0 {
      OctaveAt(notes, lower, octaves, i - 1);
    }
  }

  lemma DescentsMonotone(notes: seq<string>, lower: (string, string) -> bool)
    ensures forall i, j :: 0 <= i <= j < |notes| ==> Descents(notes, lower, i) <= Descents(notes, lower, j)
  {
    forall i, j | 0 <= i <= j < |notes| ensures Descents(notes, lower, i) <= Descents(notes, lower, j) {
      DescentsUpTo(notes, lower, i, j);
    }
  }

  lemma {:induction false} DescentsUpTo(notes: seq<string>, lower: (string, string) -> bool, i: nat, j: nat)
    requires i <= j < |notes|
    ensures Descents(notes, lower, i) <= Descents(notes, lower, j)
    decreases j - i
  {
    if i < j {
      DescentsUpTo(notes, lower, i, j - 1);
    }
  }

  /** `xs.slice(0, -1)`: everything but the last element (nothing for an
      empty list). */
  function DropLast<T>(xs: seq<T>): seq<T>
  {
    if |xs| == 0 then [] else xs[..|xs| - 1]
  }

  /** `[...xs, ...xs.slice(0, -1).reverse()]`: up the scale and back down. */
  function Palindrome<T>(xs: seq<T>): (r: seq<T>)
    ensures |xs| > 0 ==> |r| == 2 * |xs| - 1
    ensures |xs| == 0 ==> r == []
    ensures |r| >= |xs| && r[..|xs|] == xs
    ensures Reverse(r) == r
  {
    var r := xs + Reverse(DropLast(xs));
    assert forall i :: 0 <= i < |r| ==> r[i] == r[|r| - 1 - i] by {
      forall i | 0 <= i < |r| ensures r[i] == r[|r| - 1 - i] {
        if i < |xs| {
          if |r| - 1 - i >= |xs| {
            assert r[|r| - 1 - i] == Reverse(DropLast(xs))[|r| - 1 - i - |xs|];
          }
        }
      }
    }
    r
  }

  // ---------------------------------------------------------------------------
  // getOctave

  /** `getOctave(note, key)` over the name list `names` (tonal's
      `Note.names()`): 4 plus the floor of the index difference over 12. An
      absent name has index -1. */
  function GetOctave(names: seq<string>, note: string, key: string): (r: int)
    ensures var d := IndexOf(names, note) - IndexOf(names, key);
      12 * (r - 4) <= d < 12 * (r - 4) + 12
  {
    4 + (IndexOf(names, note) - IndexOf(names, key)) / 12
  }

  /** With at most twelve names, both present, the octave is 4 when the
      note comes at or after the key, and 3 otherwise; the same name gives 4. */
  lemma GetOctaveOfPresentNames(names: seq<string>, note: string, key: string)
    requires |names| <= 12 && note in names && key in names
    ensures GetOctave(names, note, key) == if IndexOf(names, note) >= IndexOf(names, key) then 4 else 3
    ensures GetOctave(names, key, key) == 4
  {
  }
}
