/** `minimizeDiagonalSpan` of src/utils/minimizeDiagonalSpan.js: for an
    m-by-n fret matrix, every n-row window combined with every permutation
    of the n columns gives a diagonal (one entry per row, distinct columns);
    the diagonals whose frets lie within three of each other are kept, in
    window-major, permutation-minor order. */
module DiagonalSpan {
  import opened JsBasics
  import ChordTab

  // ---------------------------------------------------------------------------
  // generatePermutations

  /** `[...perm.slice(0, i), x, ...perm.slice(i)]`. */
  function InsertAt(p: seq<int>, x: int, i: nat): (q: seq<int>)
    requires i <= |p|
    ensures |q| == |p| + 1
  {
    p[..i] + [x] + p[i..]
  }

  /** The list with the first occurrence of `x` taken out. */
  function Remove(q: seq<int>, x: int): seq<int>
    requires x in q
  {
    var k := IndexOf(q, x);
    q[..k] + q[k + 1..]
  }

  lemma FirstOccurrence(q: seq<int>, x: int, i: nat)
    requires i < |q| && q[i] == x && x !in q[..i]
    ensures IndexOf(q, x) == i
  {
  }

  /** Inserting `x` adds one `x` to the elements, and when `x` was absent,
      taking it out again gives the list back. */
  lemma InsertAtSpec(p: seq<int>, x: int, i: nat)
    requires i <= |p|
    ensures multiset(InsertAt(p, x, i)) == multiset(p) + multiset{x}
    ensures x in InsertAt(p, x, i)
    ensures x !in p ==> IndexOf(InsertAt(p, x, i), x) == i && Remove(InsertAt(p, x, i), x) == p
  {
    var q := InsertAt(p, x, i);
    assert p == p[..i] + p[i..];
    assert q[i] == x;
    if x !in p {
      assert q[..i] == p[..i];
      FirstOccurrence(q, x, i);
      assert q[..i] + q[i + 1..] == p;
    }
  }

  /** The inner `for` loop of `generatePermutations`: `x` inserted at
      positions i, i+1, ..., |p|, in that order. */
  function InsertEverywhere(p: seq<int>, x: int, i: nat): (r: seq<seq<int>>)
    requires i <= |p| + 1
    decreases |p| + 1 - i
    ensures |r| == |p| + 1 - i
    ensures forall k :: 0 <= k < |r| ==> r[k] == InsertAt(p, x, i + k)
  {
    if i > |p| then [] else [InsertAt(p, x, i)] + InsertEverywhere(p, x, i + 1)
  }

  /** The `forEach` over the permutations of the rest. */
  function InsertAll(ps: seq<seq<int>>, x: int): seq<seq<int>>
  {
    if |ps| == 0 then [] else InsertEverywhere(ps[0], x, 0) + InsertAll(ps[1..], x)
  }

  /** `generatePermutations(arr)`: every list it returns holds the input's
      elements with their multiplicities. */
  function Perms(a: seq<int>): (r: seq<seq<int>>)
    ensures forall q :: q in r ==> multiset(q) == multiset(a)
  {
    if |a| == 0 then [[]]
    else
      var ps := Perms(a[1..]);
      assert forall j :: 0 <= j < |ps| ==> multiset(ps[j]) == multiset(a[1..]) by {
        forall j | 0 <= j < |ps| ensures multiset(ps[j]) == multiset(a[1..]) {
          assert ps[j] in ps;
        }
      }
      InsertAllMultiset(ps, a[0], multiset(a[1..]));
      assert a == [a[0]] + a[1..];
      InsertAll(ps, a[0])
  }

  function Factorial(n: nat): nat
  {
    if n == 0 then 1 else n * Factorial(n - 1)
  }

  predicate Distinct(s: seq<seq<int>>)
  {
    forall i, j :: 0 <= i < j < |s| ==> s[i] != s[j]
  }

  /** Every insertion of `x` into an input list is produced. */
  lemma {:induction false} InsertAllComplete(ps: seq<seq<int>>, x: int, j: nat, i: nat)
    requires j < |ps| && i <= |ps[j]|
    ensures InsertAt(ps[j], x, i) in InsertAll(ps, x)
  {
    var e := InsertEverywhere(ps[0], x, 0);
    if j == 0 {
      assert e[i] == InsertAt(ps[0], x, i);
    } else {
      assert ps[j] == ps[1..][j - 1];
      InsertAllComplete(ps[1..], x, j - 1, i);
    }
  }

  /** Every list produced holds one more `x` than the input lists. */
  lemma {:induction false} InsertAllMultiset(ps: seq<seq<int>>, x: int, m: multiset<int>)
    requires forall j :: 0 <= j < |ps| ==> multiset(ps[j]) == m
    ensures forall q :: q in InsertAll(ps, x) ==> multiset(q) == m + multiset{x}
  {
    if |ps| > 0 {
      InsertAllMultiset(ps[1..], x, m);
      var e := InsertEverywhere(ps[0], x, 0);
      forall k | 0 <= k < |e| ensures multiset(e[k]) == m + multiset{x} {
        InsertAtSpec(ps[0], x, k);
      }
    }
  }

  /** When `x` is in no input list, taking it out of a produced list gives
      back the input list it was inserted into. */
  lemma {:induction false} InsertAllRemove(ps: seq<seq<int>>, x: int)
    requires forall j :: 0 <= j < |ps| ==> x !in ps[j]
    ensures forall q :: q in InsertAll(ps, x) ==> x in q && Remove(q, x) in ps
  {
    if |ps| > 0 {
      InsertAllRemove(ps[1..], x);
      var e := InsertEverywhere(ps[0], x, 0);
      forall k | 0 <= k < |e| ensures x in e[k] && Remove(e[k], x) == ps[0] {
        InsertAtSpec(ps[0], x, k);
      }
    }
  }

  /** Inserting into lists of one length L multiplies their number by L + 1. */
  lemma {:induction false} InsertAllLength(ps: seq<seq<int>>, x: int, len: nat)
    requires forall j :: 0 <= j < |ps| ==> |ps[j]| == len
    ensures |InsertAll(ps, x)| == |ps| * (len + 1)
  {
    if |ps| > 0 {
      InsertAllLength(ps[1..], x, len);
      MultiplyStep(|ps|, len + 1);
    }
  }

  lemma MultiplyStep(a: int, b: int)
    ensures a * b == (a - 1) * b + b
  {
  }

  /** `generatePermutations` of k elements returns k! lists; of none, the
      one empty list. */
  lemma {:induction false} PermsCount(a: seq<int>)
    ensures |Perms(a)| == Factorial(|a|)
    ensures |a| == 0 ==> Perms(a) == [[]]
  {
    if |a| > 0 {
      PermsCount(a[1..]);
      var ps := Perms(a[1..]);
      forall j | 0 <= j < |ps| ensures |ps[j]| == |a| - 1 {
        assert ps[j] in ps;
        assert |multiset(ps[j])| == |multiset(a[1..])|;
      }
      InsertAllLength(ps, a[0], |a| - 1);
    }
  }

  /** Every rearrangement of the input is among the lists returned. */
  lemma {:induction false} PermsComplete(a: seq<int>, q: seq<int>)
    requires multiset(q) == multiset(a)
    ensures q in Perms(a)
    decreases |a|
  {
    if |a| == 0 {
      assert |q| == |multiset(q)| == 0;
    } else {
      assert a == [a[0]] + a[1..];
      assert multiset(a) == multiset{a[0]} + multiset(a[1..]);
      assert a[0] in multiset(q);
      var i :| 0 <= i < |q| && q[i] == a[0];
      var rest := q[..i] + q[i + 1..];
      assert q == q[..i] + [q[i]] + q[i + 1..];
      assert multiset(q) == multiset(q[..i]) + multiset{a[0]} + multiset(q[i + 1..]);
      assert multiset(rest) == multiset(q[..i]) + multiset(q[i + 1..]);
      assert multiset(rest) == multiset(q) - multiset{a[0]};
      PermsComplete(a[1..], rest);
      var ps := Perms(a[1..]);
      var j :| 0 <= j < |ps| && ps[j] == rest;
      assert rest[..i] == q[..i] && rest[i..] == q[i + 1..];
      assert InsertAt(rest, a[0], i) == q;
      InsertAllComplete(ps, a[0], j, i);
    }
  }

  lemma {:induction false} InsertAllDistinct(ps: seq<seq<int>>, x: int)
    requires Distinct(ps)
    requires forall j :: 0 <= j < |ps| ==> x !in ps[j]
    ensures Distinct(InsertAll(ps, x))
  {
    if |ps| > 0 {
      InsertAllDistinct(ps[1..], x);
      InsertAllRemove(ps[1..], x);
      var e := InsertEverywhere(ps[0], x, 0);
      var r := InsertAll(ps[1..], x);
      forall k | 0 <= k < |e| ensures IndexOf(e[k], x) == k && Remove(e[k], x) == ps[0] {
        InsertAtSpec(ps[0], x, k);
      }
      assert ps[0] !in ps[1..] by {
        forall m | 0 <= m < |ps[1..]| ensures ps[1..][m] != ps[0] {
          assert ps[1..][m] == ps[m + 1];
        }
      }
      forall k, l | 0 <= k < |e| && 0 <= l < |r| ensures e[k] != r[l] {
        assert r[l] in r;
      }
      assert InsertAll(ps, x) == e + r;
    }
  }

  /** For an input without repeats, no list is returned twice. */
  lemma {:induction false} PermsDistinct(a: seq<int>)
    requires forall i, j :: 0 <= i < j < |a| ==> a[i] != a[j]
    ensures Distinct(Perms(a))
  {
    if |a| > 0 {
      PermsDistinct(a[1..]);
      var ps := Perms(a[1..]);
      forall j | 0 <= j < |ps| ensures a[0] !in ps[j] {
        assert ps[j] in ps;
        assert a[0] !in multiset(a[1..]);
      }
      InsertAllDistinct(ps, a[0]);
    }
  }

  // ---------------------------------------------------------------------------
  // Column permutations

  /** `[...Array(n).keys()]`. */
  function Range(n: nat): (r: seq<int>)
    ensures |r| == n
    ensures forall i :: 0 <= i < n ==> r[i] == i
  {
    if n == 0 then [] else Range(n - 1) + [n - 1]
  }

  /** A list of the column indices 0..n-1, each exactly once. */
  predicate IsColumnPermutation(p: seq<int>, n: nat)
  {
    && |p| == n
    && (forall i :: 0 <= i < n ==> 0 <= p[i] < n)
    && (forall i, j :: 0 <= i < j < n ==> p[i] != p[j])
  }

  function Elements(s: seq<int>): set<int>
  {
    set x | x in s
  }

  /** A list without repeats counts each element once. */
  lemma {:induction false} DistinctCounts(s: seq<int>, v: int)
    requires forall i, j :: 0 <= i < j < |s| ==> s[i] != s[j]
    ensures multiset(s)[v] == if v in s then 1 else 0
    ensures |Elements(s)| == |s|
  {
    if |s| > 0 {
      var init := s[..|s| - 1];
      var last := s[|s| - 1];
      DistinctCounts(init, v);
      assert s == init + [last];
      assert last !in init by {
        forall i | 0 <= i < |init| ensures init[i] != last {
          assert init[i] == s[i];
        }
      }
      assert Elements(s) == Elements(init) + {last};
    }
  }

  lemma TwoOccurrences(s: seq<int>, i: nat, j: nat)
    requires i < j < |s| && s[i] == s[j]
    ensures multiset(s)[s[i]] >= 2
  {
    assert s == s[..j] + [s[j]] + s[j + 1..];
    assert s[..j][i] == s[i];
    assert s[i] in multiset(s[..j]);
  }

  /** A rearrangement of 0..n-1 is a column permutation. */
  lemma RearrangedRange(p: seq<int>, n: nat)
    requires multiset(p) == multiset(Range(n))
    ensures IsColumnPermutation(p, n)
  {
    assert |p| == |multiset(p)| == |multiset(Range(n))| == n;
    forall i | 0 <= i < n ensures 0 <= p[i] < n {
      assert p[i] in multiset(Range(n));
    }
    forall i, j | 0 <= i < j < n ensures p[i] != p[j] {
      if p[i] == p[j] {
        TwoOccurrences(p, i, j);
        DistinctCounts(Range(n), p[i]);
      }
    }
  }

  /** `columnPermutations`: n! distinct orderings of the columns. */
  function ColumnPerms(n: nat): (r: seq<seq<int>>)
    ensures |r| == Factorial(n)
    ensures forall j :: 0 <= j < |r| ==> IsColumnPermutation(r[j], n)
    ensures Distinct(r)
  {
    var r := Perms(Range(n));
    PermsCount(Range(n));
    PermsDistinct(Range(n));
    forall j | 0 <= j < |r| ensures IsColumnPermutation(r[j], n) {
      assert r[j] in r;
      RearrangedRange(r[j], n);
    }
    r
  }

  /** Every column permutation is tried. */
  lemma ColumnPermsComplete(p: seq<int>, n: nat)
    requires IsColumnPermutation(p, n)
    ensures p in ColumnPerms(n)
  {
    // p has n distinct values among the n values 0..n-1, so it takes all of them.
    DistinctCounts(p, 0);
    DistinctCounts(Range(n), 0);
    forall v | v in Elements(p) ensures v in Elements(Range(n)) {
      var i :| 0 <= i < |p| && p[i] == v;
      assert Range(n)[v] == v;
    }
    SubsetSameSize(Elements(p), Elements(Range(n)));
    assert multiset(p) == multiset(Range(n)) by {
      forall v ensures multiset(p)[v] == multiset(Range(n))[v] {
        DistinctCounts(p, v);
        DistinctCounts(Range(n), v);
        assert v in p <==> v in Elements(p);
      }
    }
    PermsComplete(Range(n), p);
  }

  lemma SubsetSameSize(a: set<int>, b: set<int>)
    requires a <= b && |a| == |b|
    ensures a == b
  {
    assert b == a + (b - a);
    assert |b - a| == 0;
  }

  // ---------------------------------------------------------------------------
  // getSubmatrices

  /** One element of `getSubmatrices`' result: n consecutive rows and the
      positions they had in the matrix. */
  datatype Window = Window(rows: seq<seq<int>>, rowIndices: seq<int>)

  /** The windows starting at row `i` or later (the loop `i <= m - n`). */
  function WindowsFrom(matrix: seq<seq<int>>, n: nat, i: nat): (ws: seq<Window>)
    decreases |matrix| - i
    ensures |ws| == if i + n <= |matrix| then |matrix| - n + 1 - i else 0
    ensures forall k :: 0 <= k < |ws| ==>
      && i + k + n <= |matrix|
      && ws[k].rows == matrix[i + k..i + k + n]
      && |ws[k].rowIndices| == n
      && (forall t :: 0 <= t < n ==> ws[k].rowIndices[t] == i + k + t)
  {
    if i + n > |matrix| then []
    else [Window(matrix[i..i + n], seq(n, t => i + t))] + WindowsFrom(matrix, n, i + 1)
  }

  /** `getSubmatrices(matrix)`: m - n + 1 windows when m >= n, none
      otherwise; window i holds rows i..i+n-1. */
  function Submatrices(matrix: seq<seq<int>>, n: nat): (ws: seq<Window>)
    ensures |ws| == if n <= |matrix| then |matrix| - n + 1 else 0
    ensures forall i :: 0 <= i < |ws| ==>
      && i + n <= |matrix|
      && ws[i].rows == matrix[i..i + n]
      && |ws[i].rowIndices| == n
      && (forall t :: 0 <= t < n ==> ws[i].rowIndices[t] == i + t)
  {
    WindowsFrom(matrix, n, 0)
  }

  // ---------------------------------------------------------------------------
  // Diagonals and the span test

  /** `submatrix[i][perm[i]]`: `undefined` past the end of a short row. */
  function Entry(row: seq<int>, c: int): Option<int>
  {
    if 0 <= c < |row| then Some(row[c]) else None
  }

  /** The diagonal a column permutation picks out of a window's rows. */
  function DiagonalOf(rows: seq<seq<int>>, p: seq<int>): seq<Option<int>>
    requires |p| == |rows|
  {
    seq(|rows|, i requires 0 <= i < |rows| => Entry(rows[i], p[i]))
  }

  predicate AllDefined(d: seq<Option<int>>)
  {
    forall i :: 0 <= i < |d| ==> d[i].Some?
  }

  function Values(d: seq<Option<int>>): (r: seq<int>)
    requires AllDefined(d)
    ensures |r| == |d| && forall i :: 0 <= i < |d| ==> r[i] == d[i].value
  {
    seq(|d|, i requires 0 <= i < |d| => d[i].value)
  }

  /** `Math.max(...diagonal) - Math.min(...diagonal) <= 3`. An `undefined`
      entry makes both NaN and the test false; an empty diagonal gives
      -Infinity - Infinity, and the test is true. */
  predicate SpanOk(d: seq<Option<int>>)
  {
    |d| == 0 || (AllDefined(d) && MaxOf(Values(d)) - MinOf(Values(d)) <= ChordTab.SpanLimit)
  }

  /** The span test holds exactly when every entry is defined and no two
      entries are more than three frets apart. */
  lemma SpanOkMeans(d: seq<Option<int>>)
    ensures SpanOk(d) <==> (AllDefined(d) &&
      forall i, j :: 0 <= i < |d| && 0 <= j < |d| ==> d[i].value - d[j].value <= ChordTab.SpanLimit)
  {
    if |d| > 0 && AllDefined(d) {
      var v := Values(d);
      var hi, lo := MaxOf(v), MinOf(v);
      assert forall i :: 0 <= i < |d| ==> lo <= d[i].value <= hi by {
        forall i | 0 <= i < |d| ensures lo <= d[i].value <= hi {
          assert v[i] in v;
        }
      }
      var a :| 0 <= a < |v| && v[a] == hi;
      var b :| 0 <= b < |v| && v[b] == lo;
      assert hi - lo == d[a].value - d[b].value;
    }
  }

  /** One element of the result: the frets of a diagonal and the rows they
      come from. */
  datatype Diagonal = Diagonal(frets: seq<int>, rowIndices: seq<int>)

  /** The diagonals of one window that pass the span test, in the order of
      `perms`. */
  function WindowDiagonals(w: Window, perms: seq<seq<int>>): seq<Diagonal>
    requires forall j :: 0 <= j < |perms| ==> |perms[j]| == |w.rows|
  {
    if |perms| == 0 then []
    else
      var d := DiagonalOf(w.rows, perms[|perms| - 1]);
      WindowDiagonals(w, perms[..|perms| - 1]) + (if SpanOk(d) then [Diagonal(Values(d), w.rowIndices)] else [])
  }

  /** The passing diagonals of every window, window by window. */
  function AllDiagonals(ws: seq<Window>, perms: seq<seq<int>>): seq<Diagonal>
    requires forall i, j :: 0 <= i < |ws| && 0 <= j < |perms| ==> |perms[j]| == |ws[i].rows|
  {
    if |ws| == 0 then []
    else AllDiagonals(ws[..|ws| - 1], perms) + WindowDiagonals(ws[|ws| - 1], perms)
  }

  /** A diagonal of `matrix` starting at row `start`: the entry of row
      start+i in column p[i], each defined. */
  predicate PicksOut(matrix: seq<seq<int>>, start: nat, p: seq<int>, d: Diagonal)
  {
    && start + |p| <= |matrix|
    && |d.frets| == |p| && |d.rowIndices| == |p|
    && forall i :: 0 <= i < |p| ==>
         && 0 <= p[i] < |matrix[start + i]|
         && d.frets[i] == matrix[start + i][p[i]]
         && d.rowIndices[i] == start + i
  }

  /** Within three frets of each other. */
  predicate WithinSpan(frets: seq<int>)
  {
    forall i, j :: 0 <= i < |frets| && 0 <= j < |frets| ==> frets[i] - frets[j] <= ChordTab.SpanLimit
  }

  /** The rows of window `w` are rows start..start+n-1 of `matrix`. */
  predicate WindowAt(matrix: seq<seq<int>>, start: nat, w: Window, n: nat)
  {
    && start + n <= |matrix| && w.rows == matrix[start..start + n]
    && |w.rowIndices| == n && forall t :: 0 <= t < n ==> w.rowIndices[t] == start + t
  }

  /** The diagonal the loop builds for a permutation, when it passes the
      span test, is picked out of the matrix within the span. */
  lemma BuiltPicksOut(matrix: seq<seq<int>>, start: nat, w: Window, p: seq<int>)
    requires WindowAt(matrix, start, w, |p|)
    requires SpanOk(DiagonalOf(w.rows, p))
    ensures PicksOut(matrix, start, p, Diagonal(Values(DiagonalOf(w.rows, p)), w.rowIndices))
    ensures WithinSpan(Values(DiagonalOf(w.rows, p)))
  {
    var dg := DiagonalOf(w.rows, p);
    SpanOkMeans(dg);
    forall i | 0 <= i < |p| ensures 0 <= p[i] < |matrix[start + i]| && dg[i].value == matrix[start + i][p[i]] {
      DiagonalEntryAt(w.rows, p, i);
      assert w.rows[i] == matrix[start + i];
    }
  }

  /** A defined entry of a diagonal is the row's entry in the permuted column. */
  lemma DiagonalEntryAt(rows: seq<seq<int>>, p: seq<int>, i: nat)
    requires |p| == |rows| && i < |rows|
    requires DiagonalOf(rows, p)[i].Some?
    ensures 0 <= p[i] < |rows[i]| && DiagonalOf(rows, p)[i].value == rows[i][p[i]]
  {
    assert DiagonalOf(rows, p)[i] == Entry(rows[i], p[i]);
  }

  /** Every diagonal a window contributes is picked out of the matrix by
      one of the permutations, within the span. */
  lemma {:induction false} WindowDiagonalsSound(matrix: seq<seq<int>>, start: nat, w: Window, perms: seq<seq<int>>, n: nat)
    requires WindowAt(matrix, start, w, n)
    requires forall j :: 0 <= j < |perms| ==> |perms[j]| == n
    ensures forall d :: d in WindowDiagonals(w, perms) ==>
      exists j :: 0 <= j < |perms| && PicksOut(matrix, start, perms[j], d) && WithinSpan(d.frets)
  {
    if |perms| > 0 {
      var init := perms[..|perms| - 1];
      var p := perms[|perms| - 1];
      WindowDiagonalsSound(matrix, start, w, init, n);
      forall d | d in WindowDiagonals(w, init)
        ensures exists j :: 0 <= j < |perms| && PicksOut(matrix, start, perms[j], d) && WithinSpan(d.frets)
      {
        var j :| 0 <= j < |init| && PicksOut(matrix, start, init[j], d) && WithinSpan(d.frets);
        assert perms[j] == init[j];
      }
      if SpanOk(DiagonalOf(w.rows, p)) {
        BuiltPicksOut(matrix, start, w, p);
      }
    }
  }

  /** Every permutation that picks a diagonal out of the window within the
      span contributes it. */
  lemma {:induction false} WindowDiagonalsComplete(matrix: seq<seq<int>>, start: nat, w: Window, perms: seq<seq<int>>, n: nat,
                                                   j: nat, d: Diagonal)
    requires WindowAt(matrix, start, w, n)
    requires forall k :: 0 <= k < |perms| ==> |perms[k]| == n
    requires j < |perms| && PicksOut(matrix, start, perms[j], d) && WithinSpan(d.frets)
    ensures d in WindowDiagonals(w, perms)
  {
    var init := perms[..|perms| - 1];
    if j < |perms| - 1 {
      assert init[j] == perms[j];
      WindowDiagonalsComplete(matrix, start, w, init, n, j, d);
    } else {
      PicksOutUnique(matrix, start, w, perms[j], d);
    }
  }

  /** The diagonal a permutation picks out within the span is the one the
      loop builds. */
  lemma PicksOutUnique(matrix: seq<seq<int>>, start: nat, w: Window, p: seq<int>, d: Diagonal)
    requires WindowAt(matrix, start, w, |p|)
    requires PicksOut(matrix, start, p, d) && WithinSpan(d.frets)
    ensures SpanOk(DiagonalOf(w.rows, p))
    ensures d == Diagonal(Values(DiagonalOf(w.rows, p)), w.rowIndices)
  {
    var dg := DiagonalOf(w.rows, p);
    forall i | 0 <= i < |p| ensures dg[i] == Some(d.frets[i]) {
      assert w.rows[i] == matrix[start + i];
    }
    assert AllDefined(dg);
    assert Values(dg) == d.frets;
    assert d.rowIndices == w.rowIndices;
    SpanOkMeans(dg);
  }


  /** Every diagonal listed comes from some window and some permutation,
      within the span. */
  lemma {:induction false} AllDiagonalsSound(matrix: seq<seq<int>>, ws: seq<Window>, perms: seq<seq<int>>, n: nat)
    requires forall i :: 0 <= i < |ws| ==> WindowAt(matrix, i, ws[i], n) && |ws[i].rows| == n
    requires forall j :: 0 <= j < |perms| ==> |perms[j]| == n
    ensures forall d :: d in AllDiagonals(ws, perms) ==>
      exists start, j :: 0 <= start < |ws| && 0 <= j < |perms| && PicksOut(matrix, start, perms[j], d) && WithinSpan(d.frets)
  {
    if |ws| > 0 {
      var init := ws[..|ws| - 1];
      var last := |ws| - 1;
      AllDiagonalsSound(matrix, init, perms, n);
      WindowDiagonalsSound(matrix, last, ws[last], perms, n);
    }
  }

  /** Every window and permutation that pick a diagonal out within the span
      contribute it. */
  lemma {:induction false} AllDiagonalsComplete(matrix: seq<seq<int>>, ws: seq<Window>, perms: seq<seq<int>>, n: nat,
                                                start: nat, j: nat, d: Diagonal)
    requires forall i :: 0 <= i < |ws| ==> WindowAt(matrix, i, ws[i], n) && |ws[i].rows| == n
    requires forall k :: 0 <= k < |perms| ==> |perms[k]| == n
    requires start < |ws| && j < |perms| && PicksOut(matrix, start, perms[j], d) && WithinSpan(d.frets)
    ensures d in AllDiagonals(ws, perms)
  {
    var init := ws[..|ws| - 1];
    if start < |ws| - 1 {
      assert init[start] == ws[start];
      AllDiagonalsComplete(matrix, init, perms, n, start, j, d);
    } else {
      WindowDiagonalsComplete(matrix, start, ws[start], perms, n, j, d);
    }
  }

  // ---------------------------------------------------------------------------
  // minimizeDiagonalSpan

  lemma WindowDiagonalsSnoc(w: Window, perms: seq<seq<int>>, k: nat)
    requires k < |perms|
    requires forall j :: 0 <= j < |perms| ==> |perms[j]| == |w.rows|
    ensures var d := DiagonalOf(w.rows, perms[k]);
      WindowDiagonals(w, perms[..k + 1])
        == WindowDiagonals(w, perms[..k]) + (if SpanOk(d) then [Diagonal(Values(d), w.rowIndices)] else [])
  {
    assert perms[..k + 1][..k] == perms[..k];
  }

  lemma AllDiagonalsSnoc(ws: seq<Window>, perms: seq<seq<int>>, k: nat)
    requires k < |ws|
    requires forall i, j :: 0 <= i < |ws| && 0 <= j < |perms| ==> |perms[j]| == |ws[i].rows|
    ensures AllDiagonals(ws[..k + 1], perms) == AllDiagonals(ws[..k], perms) + WindowDiagonals(ws[k], perms)
  {
    assert ws[..k + 1][..k] == ws[..k];
  }

  /** The innermost loop: `diagonal.push(submatrix[i][perm[i]])` for each row. */
  method PickDiagonal(rows: seq<seq<int>>, p: seq<int>) returns (diagonal: seq<Option<int>>)
    requires |p| == |rows|
    ensures |diagonal| == |rows|
    ensures forall i :: 0 <= i < |rows| ==> diagonal[i] == (if 0 <= p[i] < |rows[i]| then Some(rows[i][p[i]]) else None)
  {
    diagonal := [];
    var i := 0;
    while i < |rows|
      invariant 0 <= i <= |rows|
      invariant |diagonal| == i
      invariant forall k :: 0 <= k < i ==> diagonal[k] == Entry(rows[k], p[k])
    {
      diagonal := diagonal + [Entry(rows[i], p[i])];
      i := i + 1;
    }
  }

  /** The loop over `columnPermutations` for one window. */
  method ScanWindow(w: Window, perms: seq<seq<int>>) returns (found: seq<Diagonal>)
    requires forall j :: 0 <= j < |perms| ==> |perms[j]| == |w.rows|
    ensures found == WindowDiagonals(w, perms)
  {
    found := [];
    var pj := 0;
    while pj < |perms|
      invariant 0 <= pj <= |perms|
      invariant found == WindowDiagonals(w, perms[..pj])
    {
      var diagonal := PickDiagonal(w.rows, perms[pj]);
      assert diagonal == DiagonalOf(w.rows, perms[pj]);
      WindowDiagonalsSnoc(w, perms, pj);
      if SpanOk(diagonal) {
        found := found + [Diagonal(Values(diagonal), w.rowIndices)];
      }
      pj := pj + 1;
    }
    assert perms[..pj] == perms;
  }

  /** `minimizeDiagonalSpan(matrix)`. Reading `matrix[0].length` of an empty
      matrix throws; otherwise the result lists, window by window and
      within a window in the order of `columnPermutations`, the diagonals
      that pass the span test. */
  method MinimizeDiagonalSpan(matrix: seq<seq<int>>) returns (r: Result<seq<Diagonal>>)
    ensures r.TypeError? <==> |matrix| == 0
    ensures r.Ok? ==> r.value == AllDiagonals(Submatrices(matrix, |matrix[0]|), ColumnPerms(|matrix[0]|))
  {
    if |matrix| == 0 {
      return TypeError;
    }
    var n := |matrix[0]|;
    var perms := ColumnPerms(n);
    var ws := Submatrices(matrix, n);
    assert forall j :: 0 <= j < |perms| ==> |perms[j]| == n;
    assert forall i :: 0 <= i < |ws| ==> |ws[i].rows| == n;
    var valid: seq<Diagonal> := [];
    var wi := 0;
    while wi < |ws|
      invariant 0 <= wi <= |ws|
      invariant valid == AllDiagonals(ws[..wi], perms)
    {
      var found := ScanWindow(ws[wi], perms);
      AllDiagonalsSnoc(ws, perms, wi);
      valid := valid + found;
      wi := wi + 1;
    }
    assert ws[..wi] == ws;
    r := Ok(valid);
  }

  /** Every returned diagonal has one fret per column, within three frets
      of each other, read from n consecutive rows in distinct columns; every
      such diagonal is returned; and a matrix with fewer rows than columns
      gives none. */
  lemma MinimizeDiagonalSpanSpec(matrix: seq<seq<int>>)
    requires |matrix| > 0
    ensures var n := |matrix[0]|;
      var ds := AllDiagonals(Submatrices(matrix, n), ColumnPerms(n));
      && (forall d :: d in ds ==>
            && |d.frets| == n && WithinSpan(d.frets)
            && exists start: nat, p :: IsColumnPermutation(p, n) && PicksOut(matrix, start, p, d))
      && (forall start: nat, p, d :: IsColumnPermutation(p, n) && PicksOut(matrix, start, p, d) && WithinSpan(d.frets) ==>
            d in ds)
      && (|matrix| < n ==> ds == [])
  {
    var n := |matrix[0]|;
    var ws := Submatrices(matrix, n);
    var perms := ColumnPerms(n);
    AllDiagonalsSound(matrix, ws, perms, n);
    forall start: nat, p, d | IsColumnPermutation(p, n) && PicksOut(matrix, start, p, d) && WithinSpan(d.frets)
      ensures d in AllDiagonals(ws, perms)
    {
      ColumnPermsComplete(p, n);
      var j :| 0 <= j < |perms| && perms[j] == p;
      AllDiagonalsComplete(matrix, ws, perms, n, start, j, d);
    }
  }
}
