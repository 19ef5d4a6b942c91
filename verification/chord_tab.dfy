/** `generateChordTab` of src/utils/utils.js: a depth-first worklist search
    over six-string fret vectors that keeps the feasible shape with the
    lowest minimum fret among those spanning at most three frets, and
    renders it as a dash-separated tab. */
module ChordTab {
  import opened JsBasics
  import opened Pitch
  import opened GuitarNeck

  const MaxFret := 12
  const MaxIterations := 1000
  const StringCount := 6
  const SpanLimit := 3

  /** A fret vector: one entry per string, -1 meaning not yet fretted. */
  type Shape = seq<int>

  /** The search's starting point, every entry -1. */
  const Unfretted: Shape := [-1, -1, -1, -1, -1, -1]

  /** The shapes the search can ever hold: six entries, each -1 or a fret 1..12. */
  predicate ValidShape(s: Shape)
  {
    |s| == StringCount && forall i :: 0 <= i < |s| ==> s[i] == -1 || 1 <= s[i] <= MaxFret
  }

  // ---------------------------------------------------------------------------
  // Feasibility and span

  /** The shape as handed to `getNotesAtFrets`: every entry is a number. */
  function AsFrets(s: Shape): (r: seq<Fret>)
    ensures |r| == |s|
    ensures forall i :: 0 <= i < |s| ==> r[i] == At(s[i])
  {
    seq(|s|, i requires 0 <= i < |s| => At(s[i]))
  }

  /** The distinct notes a shape sounds (the `Set` of pitch classes). */
  function SoundSet(neck: Neck, s: Shape): set<Sound>
  {
    set x | x in NotesAtFrets(neck, AsFrets(s))
  }

  /** `isFeasibleShape`: as many distinct sounded pitch classes as chord
      notes, every entry of the shape, -1 included, read on its own string. */
  predicate Feasible(neck: Neck, noteCount: nat, s: Shape): (r: bool)
    ensures r <==> |set i | 0 <= i < |s| :: NoteAt(neck, i, s[i])| == noteCount
  {
    SoundSetMeans(neck, s);
    |SoundSet(neck, s)| == noteCount
  }

  /** The set of sounded notes is the note of each string at its entry. */
  lemma SoundSetMeans(neck: Neck, s: Shape)
    ensures SoundSet(neck, s) == set i | 0 <= i < |s| :: NoteAt(neck, i, s[i])
  {
    NotesAtNumericFrets(neck, AsFrets(s));
    var notes := NotesAtFrets(neck, AsFrets(s));
    forall x | x in SoundSet(neck, s) ensures x in set i | 0 <= i < |s| :: NoteAt(neck, i, s[i]) {
      var k :| 0 <= k < |notes| && notes[k] == x;
    }
  }

  /** `shape.filter(f => f !== -1)`. */
  function Fretted(s: Shape): (r: seq<int>)
    ensures |r| <= |s|
    ensures forall x :: x in r <==> x in s && x != -1
  {
    if |s| == 0 then []
    else (if s[0] == -1 then [] else [s[0]]) + Fretted(s[1..])
  }

  /** A shape the search is willing to keep: feasible, with at least one
      fretted string (otherwise `Math.min` is Infinity and never wins), and
      its fretted strings within three frets of each other. */
  predicate Acceptable(neck: Neck, noteCount: nat, s: Shape)
  {
    && Feasible(neck, noteCount, s)
    && |Fretted(s)| > 0
    && MaxOf(Fretted(s)) - MinOf(Fretted(s)) <= SpanLimit
  }

  /** The lowest fretted position of a shape. */
  function MinFret(s: Shape): int
    requires |Fretted(s)| > 0
  {
    MinOf(Fretted(s))
  }

  /** The test on line 30: acceptable, and a strictly lower minimum fret than
      the shape kept so far (any minimum beats the initial Infinity). */
  predicate Improves(neck: Neck, noteCount: nat, s: Shape, best: Option<Shape>)
  {
    && Acceptable(neck, noteCount, s)
    && (best.None? || (|Fretted(best.value)| > 0 && MinFret(s) < MinFret(best.value)))
  }

  /** The shape kept after evaluating `ps` in order. */
  function BestOf(neck: Neck, noteCount: nat, ps: seq<Shape>): (r: Option<Shape>)
    ensures r.Some? ==> Acceptable(neck, noteCount, r.value)
  {
    if |ps| == 0 then None
    else
      var b := BestOf(neck, noteCount, ps[..|ps| - 1]);
      if Improves(neck, noteCount, ps[|ps| - 1], b) then Some(ps[|ps| - 1]) else b
  }

  /** Evaluating one more shape. */
  lemma BestOfSnoc(neck: Neck, noteCount: nat, ps: seq<Shape>, s: Shape)
    ensures BestOf(neck, noteCount, ps + [s]) ==
      if Improves(neck, noteCount, s, BestOf(neck, noteCount, ps)) then Some(s) else BestOf(neck, noteCount, ps)
  {
    assert (ps + [s])[..|ps|] == ps;
  }

  /** Some shape is kept exactly when some evaluated shape is acceptable. */
  lemma {:induction false} BestOfNone(neck: Neck, noteCount: nat, ps: seq<Shape>)
    ensures BestOf(neck, noteCount, ps).None? <==> forall i :: 0 <= i < |ps| ==> !Acceptable(neck, noteCount, ps[i])
  {
    if |ps| > 0 {
      var pre := ps[..|ps| - 1];
      BestOfNone(neck, noteCount, pre);
      assert forall i :: 0 <= i < |pre| ==> pre[i] == ps[i];
    }
  }

  /** The kept shape is acceptable and has the lowest minimum fret of all
      acceptable evaluated shapes. */
  lemma {:induction false} BestOfKept(neck: Neck, noteCount: nat, ps: seq<Shape>)
    requires BestOf(neck, noteCount, ps).Some?
    ensures var b := BestOf(neck, noteCount, ps).value;
      && Acceptable(neck, noteCount, b)
      && (forall i :: 0 <= i < |ps| && Acceptable(neck, noteCount, ps[i]) ==> MinFret(b) <= MinFret(ps[i]))
  {
    var pre := ps[..|ps| - 1];
    var b0 := BestOf(neck, noteCount, pre);
    assert forall i :: 0 <= i < |pre| ==> pre[i] == ps[i];
    if b0.Some? {
      BestOfKept(neck, noteCount, pre);
    } else {
      BestOfNone(neck, noteCount, pre);
    }
  }

  /** The kept shape is the first to reach its minimum: every acceptable
      shape evaluated before it has a strictly higher minimum fret. */
  lemma {:induction false} BestOfFirst(neck: Neck, noteCount: nat, ps: seq<Shape>)
    requires BestOf(neck, noteCount, ps).Some?
    ensures var b := BestOf(neck, noteCount, ps).value;
      |Fretted(b)| > 0 &&
      exists k :: 0 <= k < |ps| && ps[k] == b &&
        forall j :: 0 <= j < k && Acceptable(neck, noteCount, ps[j]) ==> MinFret(ps[j]) > MinFret(b)
  {
    var pre := ps[..|ps| - 1];
    var last := ps[|ps| - 1];
    var b0 := BestOf(neck, noteCount, pre);
    assert forall i :: 0 <= i < |pre| ==> pre[i] == ps[i];
    BestOfKept(neck, noteCount, ps);
    if Improves(neck, noteCount, last, b0) {
      if b0.Some? {
        BestOfKept(neck, noteCount, pre);
      } else {
        BestOfNone(neck, noteCount, pre);
      }
      assert ps[|ps| - 1] == last;
    } else {
      BestOfFirst(neck, noteCount, pre);
      var k :| 0 <= k < |pre| && pre[k] == b0.value &&
        forall j :: 0 <= j < k && Acceptable(neck, noteCount, pre[j]) ==> MinFret(pre[j]) > MinFret(b0.value);
      assert ps[k] == b0.value;
    }
  }

  /** Conversely, the first acceptable shape reaching the lowest minimum fret
      is the one kept. */
  lemma BestOfChosen(neck: Neck, noteCount: nat, ps: seq<Shape>, i: nat)
    requires i < |ps| && Acceptable(neck, noteCount, ps[i])
    requires forall j :: 0 <= j < i && Acceptable(neck, noteCount, ps[j]) ==> MinFret(ps[j]) > MinFret(ps[i])
    requires forall j :: i < j < |ps| && Acceptable(neck, noteCount, ps[j]) ==> MinFret(ps[j]) >= MinFret(ps[i])
    ensures BestOf(neck, noteCount, ps) == Some(ps[i])
  {
    BestOfNone(neck, noteCount, ps);
    BestOfKept(neck, noteCount, ps);
    BestOfFirst(neck, noteCount, ps);
    var b := BestOf(neck, noteCount, ps).value;
    var k :| 0 <= k < |ps| && ps[k] == b &&
      forall j :: 0 <= j < k && Acceptable(neck, noteCount, ps[j]) ==> MinFret(ps[j]) > MinFret(b);
    assert MinFret(b) <= MinFret(ps[i]);
  }

  /** The all-(-1) start shape is never kept: it frets no string. */
  lemma UnfrettedNeverAcceptable(neck: Neck, noteCount: nat)
    ensures !Acceptable(neck, noteCount, Unfretted)
  {
    assert Unfretted[1..][1..][1..][1..][1..][1..] == [];
  }

  /** A valid shape's fretted entries are 1..12, so its minimum is never 0. */
  lemma MinFretOfValid(s: Shape)
    requires ValidShape(s) && |Fretted(s)| > 0
    ensures 1 <= MinFret(s) <= MaxFret
  {
  }

  // ---------------------------------------------------------------------------
  // Expansion

  /** The new value of one entry: -1 is first read as 0, then incremented. */
  function Bump(v: int): int
  {
    (if v == -1 then 0 else v) + 1
  }

  /** `c` is `s` with exactly one entry raised. */
  predicate ChildOf(c: Shape, s: Shape)
  {
    |c| == |s| && exists k :: 0 <= k < |s| && c[k] > s[k] && c == s[k := c[k]]
  }

  /** The shapes pushed for strings `k`..5, in push order. */
  function ChildrenFrom(s: Shape, k: nat): seq<Shape>
    requires |s| == StringCount && k <= StringCount
    decreases StringCount - k
  {
    if k == StringCount then []
    else
      var rest := ChildrenFrom(s, k + 1);
      if s[k] < MaxFret && Bump(s[k]) <= MaxFret then [s[k := Bump(s[k])]] + rest else rest
  }

  /** The loop on lines 37-46: the children of a shape, in push order. */
  function Children(s: Shape): (r: seq<Shape>)
    requires |s| == StringCount
    ensures ValidShape(s) ==> AllValid(r)
  {
    ChildrenSpec(s);
    ChildrenFrom(s, 0)
  }

  lemma {:induction false} ChildrenFromSpec(s: Shape, k: nat)
    requires |s| == StringCount && k <= StringCount
    ensures |ChildrenFrom(s, k)| <= StringCount - k
    ensures forall c :: c in ChildrenFrom(s, k) ==> exists j :: k <= j < StringCount && s[j] < MaxFret && c == s[j := Bump(s[j])]
    ensures forall j :: k <= j < StringCount && s[j] >= -1 && s[j] < MaxFret ==> s[j := Bump(s[j])] in ChildrenFrom(s, k)
    decreases StringCount - k
  {
    if k < StringCount {
      ChildrenFromSpec(s, k + 1);
    }
  }

  /** Each child differs from its parent in exactly one entry, which strictly
      increases (-1 jumping to 1); every entry below 12 yields a child; and
      children of a valid shape are valid, so no entry ever becomes 0 or
      passes 12. */
  lemma ChildrenSpec(s: Shape)
    requires |s| == StringCount
    ensures |ChildrenFrom(s, 0)| <= StringCount
    ensures forall c :: c in ChildrenFrom(s, 0) ==> ChildOf(c, s)
    ensures ValidShape(s) ==> AllValid(ChildrenFrom(s, 0))
    ensures ValidShape(s) ==> forall j :: 0 <= j < StringCount && s[j] < MaxFret ==> s[j := Bump(s[j])] in ChildrenFrom(s, 0)
  {
    ChildrenFromSpec(s, 0);
    var r := ChildrenFrom(s, 0);
    forall c | c in r ensures ChildOf(c, s) && (ValidShape(s) ==> ValidShape(c)) {
      var j :| 0 <= j < StringCount && s[j] < MaxFret && c == s[j := Bump(s[j])];
      assert c[j] > s[j];
    }
  }

  /** Every child of a processed shape has itself been processed. */
  ghost predicate Closed(ps: seq<Shape>)
  {
    forall p, c :: p in ps && |p| == StringCount && c in Children(p) ==> c in ps
  }

  /** The worklist never loses a candidate: every child of a processed shape
      has been processed or is waiting on the stack. */
  ghost predicate Covered(ps: seq<Shape>, stack: seq<Shape>)
  {
    forall p, c :: p in ps && |p| == StringCount && c in Children(p) ==> c in ps || c in stack
  }

  predicate AllValid(ss: seq<Shape>)
  {
    forall i :: 0 <= i < |ss| ==> ValidShape(ss[i])
  }

  /** Once the stack is empty, the cover is the closure. */
  lemma CoveredEmptyIsClosed(ps: seq<Shape>)
    requires Covered(ps, [])
    ensures Closed(ps)
  {
  }

  /** Popping a shape that was already processed keeps the cover. */
  lemma CoveredAfterSkip(ps: seq<Shape>, stack: seq<Shape>)
    requires |stack| > 0 && stack[|stack| - 1] in ps
    requires Covered(ps, stack)
    ensures Covered(ps, stack[..|stack| - 1])
  {
    assert forall s :: s in stack ==> s in stack[..|stack| - 1] || s == stack[|stack| - 1];
  }

  /** Popping a fresh shape, recording it and pushing its children keeps the cover. */
  lemma CoveredAfterExpand(ps: seq<Shape>, stack: seq<Shape>)
    requires |stack| > 0 && |stack[|stack| - 1]| == StringCount
    requires Covered(ps, stack)
    ensures Covered(ps + [stack[|stack| - 1]], stack[..|stack| - 1] + Children(stack[|stack| - 1]))
  {
    var shape := stack[|stack| - 1];
    var rest := stack[..|stack| - 1];
    forall p, c | p in ps + [shape] && |p| == StringCount && c in Children(p)
      ensures c in ps + [shape] || c in rest + Children(shape)
    {
      if p != shape {
        assert p in ps;
        if c !in ps {
          assert c in stack;
          assert stack == rest + [shape];
        }
      }
    }
  }

  // ---------------------------------------------------------------------------
  // Rendering

  /** One tab token: `'x'` for -1, otherwise the fret number. */
  function Token(v: int): string
  {
    if v == -1 then "x" else IntToString(v)
  }

  function Tokens(s: Shape): (r: seq<string>)
    ensures |r| == |s|
  {
    seq(|s|, i requires 0 <= i < |s| => Token(s[i]))
  }

  /** `bestShape.map(fret => fret === -1 ? 'x' : fret).join('-')`. */
  function TabOf(s: Shape): string
  {
    Join(Tokens(s), '-')
  }

  /** The tab returned for the kept shape, `null` when none was kept. */
  function TabResult(best: Option<Shape>): Option<string>
  {
    if best.Some? then Some(TabOf(best.value)) else None
  }

  /** Reads one token back: `'x'` is -1, a digit string is its value. */
  function ParseToken(t: string): Option<int>
  {
    if t == "x" then Some(-1)
    else if |t| > 0 && forall i :: 0 <= i < |t| ==> IsDigit(t[i]) then Some(ParseDigits(t) as int)
    else None
  }

  function ParseTokens(ts: seq<string>): Option<Shape>
  {
    if |ts| == 0 then Some([])
    else
      var h := ParseToken(ts[0]);
      var t := ParseTokens(ts[1..]);
      if h.Some? && t.Some? then Some([h.value] + t.value) else None
  }

  /** Reads a tab back into a shape. */
  function ParseTab(tab: string): Option<Shape>
  {
    ParseTokens(Split(tab, '-'))
  }

  lemma {:induction false} ParseTokensOfShape(s: Shape)
    requires forall i :: 0 <= i < |s| ==> s[i] == -1 || s[i] >= 0
    ensures ParseTokens(Tokens(s)) == Some(s)
  {
    if |s| > 0 {
      assert Tokens(s)[1..] == Tokens(s[1..]);
      ParseTokensOfShape(s[1..]);
      if s[0] >= 0 {
        ParseNatToString(s[0]);
      }
      assert [s[0]] + s[1..] == s;
    }
  }

  /** The tab of a valid shape has six dash-separated tokens, `'x'` exactly
      where the entry is -1, and reads back as the shape. */
  lemma TabRoundTrip(s: Shape)
    requires ValidShape(s)
    ensures |Split(TabOf(s), '-')| == StringCount
    ensures forall i :: 0 <= i < StringCount ==> (Split(TabOf(s), '-')[i] == "x" <==> s[i] == -1)
    ensures ParseTab(TabOf(s)) == Some(s)
  {
    var ts := Tokens(s);
    forall i | 0 <= i < |ts| ensures '-' !in ts[i] && (ts[i] == "x" <==> s[i] == -1) {
      if s[i] != -1 {
        var d := NatToString(s[i]);
        assert IsDigit(d[0]) && ts[i] == d;
      }
    }
    SplitJoin(ts, '-');
    ParseTokensOfShape(s);
  }

  /** The search returns `null` exactly when no shape was kept; otherwise its
      tab reads back as the kept shape. */
  lemma TabResultSpec(best: Option<Shape>)
    requires best.Some? ==> ValidShape(best.value)
    ensures TabResult(best).None? <==> best.None?
    ensures best.Some? ==> ParseTab(TabResult(best).value) == best
  {
    if best.Some? {
      TabRoundTrip(best.value);
    }
  }

  // ---------------------------------------------------------------------------
  // The search

  /** The shapes the search evaluates from a given state, in order: pop the
      top of the stack; skip it if it was visited; otherwise evaluate it and
      push its children; stop when the stack is empty or the iteration cap
      is reached. */
  function Dfs(stack: seq<Shape>, visited: set<Shape>, iterations: nat): seq<Shape>
    requires AllValid(stack) && iterations <= MaxIterations
    decreases MaxIterations - iterations, |stack|
  {
    if |stack| == 0 || iterations == MaxIterations then []
    else
      var shape := stack[|stack| - 1];
      var rest := stack[..|stack| - 1];
      if shape in visited then Dfs(rest, visited, iterations)
      else
        AllValidAfterExpand(stack);
        [shape] + Dfs(rest + Children(shape), visited + {shape}, iterations + 1)
  }

  /** Popping a valid shape and pushing its children leaves a valid stack. */
  lemma AllValidAfterExpand(stack: seq<Shape>)
    requires AllValid(stack) && |stack| > 0
    ensures AllValid(stack[..|stack| - 1])
    ensures AllValid(stack[..|stack| - 1] + Children(stack[|stack| - 1]))
  {
    var rest, kids := stack[..|stack| - 1], Children(stack[|stack| - 1]);
    assert ValidShape(stack[|stack| - 1]);
    forall i | 0 <= i < |rest + kids| ensures ValidShape((rest + kids)[i]) {
      if i < |rest| {
        assert (rest + kids)[i] == stack[i];
      } else {
        assert (rest + kids)[i] == kids[i - |rest|];
      }
    }
  }

  /** The shapes evaluated so far, followed by the reference order from the
      current stack, make up the whole reference order. */
  ghost predicate OrderKept(order: seq<Shape>, processed: seq<Shape>, stack: seq<Shape>,
                            visited: set<Shape>, iterations: nat)
  {
    AllValid(stack) && iterations <= MaxIterations && processed + Dfs(stack, visited, iterations) == order
  }

  /** Popping a visited shape keeps the reference order. */
  lemma DfsSkip(order: seq<Shape>, processed: seq<Shape>, stack: seq<Shape>, visited: set<Shape>, iterations: nat)
    requires OrderKept(order, processed, stack, visited, iterations) && iterations < MaxIterations
    requires |stack| > 0 && stack[|stack| - 1] in visited
    ensures OrderKept(order, processed, stack[..|stack| - 1], visited, iterations)
  {
    AllValidAfterExpand(stack);
  }

  /** Evaluating a fresh shape and pushing its children keeps the reference
      order. */
  lemma DfsExpand(order: seq<Shape>, processed: seq<Shape>, stack: seq<Shape>, visited: set<Shape>, iterations: nat)
    requires OrderKept(order, processed, stack, visited, iterations) && iterations < MaxIterations
    requires |stack| > 0 && stack[|stack| - 1] !in visited
    ensures var shape := stack[|stack| - 1];
      OrderKept(order, processed + [shape], stack[..|stack| - 1] + Children(shape), visited + {shape}, iterations + 1)
  {
    var shape := stack[|stack| - 1];
    AllValidAfterExpand(stack);
    var tail := Dfs(stack[..|stack| - 1] + Children(shape), visited + {shape}, iterations + 1);
    assert Dfs(stack, visited, iterations) == [shape] + tail;
    assert processed + [shape] + tail == processed + ([shape] + tail);
  }

  /** When the loop stops, the shapes evaluated are the whole reference order. */
  lemma DfsDone(order: seq<Shape>, processed: seq<Shape>, stack: seq<Shape>, visited: set<Shape>, iterations: nat)
    requires OrderKept(order, processed, stack, visited, iterations)
    requires |stack| == 0 || iterations == MaxIterations
    ensures processed == order
  {
    assert Dfs(stack, visited, iterations) == [];
  }

  /** What the loop of lines 18-49 keeps true between iterations. */
  ghost predicate SearchInvariant(neck: Neck, noteCount: nat, visited: set<Shape>, stack: seq<Shape>,
                                  processed: seq<Shape>, best: Option<Shape>)
  {
    && (forall p :: p in visited <==> p in processed)
    && (forall i, j :: 0 <= i < j < |processed| ==> processed[i] != processed[j])
    && AllValid(stack) && AllValid(processed)
    && (|processed| == 0 ==> stack == [Unfretted])
    && (|processed| > 0 ==> processed[0] == Unfretted)
    && Covered(processed, stack)
    && best == BestOf(neck, noteCount, processed)
  }

  /** Lines 19-23 when the popped shape was seen before. */
  lemma SkipKeepsInvariant(neck: Neck, noteCount: nat, visited: set<Shape>, stack: seq<Shape>,
                           processed: seq<Shape>, best: Option<Shape>)
    requires SearchInvariant(neck, noteCount, visited, stack, processed, best)
    requires |stack| > 0 && stack[|stack| - 1] in visited
    ensures SearchInvariant(neck, noteCount, visited, stack[..|stack| - 1], processed, best)
  {
    CoveredAfterSkip(processed, stack);
  }

  /** Lines 19-48 when the popped shape is fresh. */
  lemma ExpandKeepsInvariant(neck: Neck, noteCount: nat, visited: set<Shape>, stack: seq<Shape>,
                             processed: seq<Shape>, best: Option<Shape>)
    requires SearchInvariant(neck, noteCount, visited, stack, processed, best)
    requires |stack| > 0 && stack[|stack| - 1] !in visited
    ensures var shape := stack[|stack| - 1];
      SearchInvariant(neck, noteCount, visited + {shape}, stack[..|stack| - 1] + Children(shape),
                      processed + [shape], if Improves(neck, noteCount, shape, best) then Some(shape) else best)
  {
    var shape := stack[|stack| - 1];
    CoveredAfterExpand(processed, stack);
    BestOfSnoc(neck, noteCount, processed, shape);
  }

  /** Lines 19-48, one pass of the loop: pop a shape; skip it when it was
      seen, otherwise mark it, keep it when it improves on the best so far,
      and push its children. `stop` is the early exit of line 33, which a
      valid shape never takes (its lowest fret is at least 1). */
  method SearchStep(neck: Neck, noteCount: nat, visited: set<Shape>, stack: seq<Shape>, processed: seq<Shape>,
                    best: Option<Shape>, iterations: nat, ghost order: seq<Shape>)
    returns (visited': set<Shape>, stack': seq<Shape>, processed': seq<Shape>, best': Option<Shape>,
             iterations': nat, stop: bool)
    requires |stack| > 0 && iterations == |processed| < MaxIterations
    requires SearchInvariant(neck, noteCount, visited, stack, processed, best)
    requires OrderKept(order, processed, stack, visited, iterations)
    ensures !stop
    ensures iterations' == |processed'| <= MaxIterations
    ensures SearchInvariant(neck, noteCount, visited', stack', processed', best')
    ensures OrderKept(order, processed', stack', visited', iterations')
    ensures iterations' == iterations + 1 || (iterations' == iterations && |stack'| < |stack|)
  {
    var shape := stack[|stack| - 1];
    var rest := stack[..|stack| - 1];
    if shape in visited {
      SkipKeepsInvariant(neck, noteCount, visited, stack, processed, best);
      DfsSkip(order, processed, stack, visited, iterations);
      return visited, rest, processed, best, iterations, false;
    }
    ExpandKeepsInvariant(neck, noteCount, visited, stack, processed, best);
    DfsExpand(order, processed, stack, visited, iterations);
    visited', processed', best', stop := visited + {shape}, processed + [shape], best, false;
    if Improves(neck, noteCount, shape, best) {
      best' := Some(shape);
      MinFretOfValid(shape);
      stop := MinFret(shape) == 0;
    }
    stack' := rest + Children(shape);
    iterations' := iterations + 1;
  }

  method GenerateChordTab(neck: Neck, notes: seq<string>) returns (tab: Option<string>, processed: seq<Shape>)
    ensures 1 <= |processed| <= MaxIterations
    ensures processed[0] == Unfretted
    ensures AllValid(processed)
    ensures forall i, j :: 0 <= i < j < |processed| ==> processed[i] != processed[j]
    ensures |processed| < MaxIterations ==> Closed(processed)
    ensures processed == Dfs([Unfretted], {}, 0)
    ensures tab == TabResult(BestOf(neck, |notes|, processed))
  {
    var visited: set<Shape> := {};
    var stack: seq<Shape> := [Unfretted];
    var best: Option<Shape> := None;
    var iterations: nat := 0;
    processed := [];
    ghost var order := Dfs(stack, visited, iterations);

    while |stack| > 0 && iterations < MaxIterations
      invariant iterations == |processed| <= MaxIterations
      invariant SearchInvariant(neck, |notes|, visited, stack, processed, best)
      invariant OrderKept(order, processed, stack, visited, iterations)
      decreases MaxIterations - iterations, |stack|
    {
      var stop;
      visited, stack, processed, best, iterations, stop :=
        SearchStep(neck, |notes|, visited, stack, processed, best, iterations, order);
      if stop {
        break;
      }
    }

    if |stack| == 0 {
      CoveredEmptyIsClosed(processed);
    }
    DfsDone(order, processed, stack, visited, iterations);
    tab := TabResult(best);
  }

}
