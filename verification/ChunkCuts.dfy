/** Where the text splitter cuts, stated by the parts alone (app/domain/workflows/nodes/chunking.py). */
module ChunkCuts {
  import opened Text
  import opened Chunking

  /** Where each of `count` parts starts in the text, and whether it fits into a window from a given start. */
  datatype Layouter = Layouter(count: nat, start: nat -> nat, fits: (nat, nat) -> bool)

  /** A part fits if the window holds at most the chunk size with it, its separator not counted. */
  ghost function LayouterOf(parts: seq<string>, sep: string, chunkSize: int): Layouter {
    Layouter(|parts|, (i: nat) => if i <= |parts| then |Terminated(parts[..i], sep)| else 0,
             (lo: nat, i: nat) =>
               i < |parts| && |Terminated(parts[..i], sep)| - lo + |parts[i]| <= chunkSize)
  }

  /** The first part of window `j`, if window `i` ends before part `cuts[i]`. */
  ghost function First(cuts: seq<nat>, j: nat): nat
    requires j <= |cuts|
  {
    if j == 0 then 0 else cuts[j - 1]
  }

  /** A window holds its first part and then the parts that fit. */
  ghost predicate Joins(y: Layouter, lo: nat, first: nat, end: nat) {
    forall i: nat :: first < i < end ==> y.fits(lo, i)
  }

  /** It ends before the first part that does not fit. */
  ghost predicate Ends(y: Layouter, w: Window, first: nat, end: nat) {
    && first < end <= y.count && w.hi == y.start(end) && Joins(y, w.lo, first, end)
    && (end < y.count ==> !y.fits(w.lo, end))
  }

  ghost predicate EndsAll(y: Layouter, ws: seq<Window>, cuts: seq<nat>) {
    |cuts| == |ws| && forall j {:trigger ws[j]} :: 0 <= j < |ws| ==> Ends(y, ws[j], First(cuts, j), cuts[j])
  }

  /** Every window ends before the first part that does not fit, and the last one at the end. */
  ghost predicate Greedy(y: Layouter, ws: seq<Window>, cuts: seq<nat>) {
    EndsAll(y, ws, cuts) && (ws != [] ==> cuts[|ws| - 1] == y.count)
  }

  lemma {:induction false} EndsMore(y: Layouter, ws: seq<Window>, cuts: seq<nat>, w: Window, end: nat)
    requires EndsAll(y, ws, cuts) && Ends(y, w, First(cuts, |cuts|), end)
    ensures EndsAll(y, ws + [w], cuts + [end])
  {
    forall j | 0 <= j < |ws + [w]| ensures Ends(y, (ws + [w])[j], First(cuts + [end], j), (cuts + [end])[j]) {
      assert First(cuts + [end], j) == First(cuts, j);
      if j < |ws| { assert Ends(y, ws[j], First(cuts, j), cuts[j]); }
    }
  }

  // ----- The splitter cuts greedily

  /** The layout of the first `n` parts. */
  ghost predicate Planned(y: Layouter, n: nat, l: Layout, cuts: seq<nat>) {
    && n <= y.count && l.lo <= l.hi == y.start(n)
    && EndsAll(y, l.ws, cuts) && Joins(y, l.lo, First(cuts, |cuts|), n)
    && (if n == 0 then cuts == [] else First(cuts, |cuts|) < n)
    && (if cuts == [] then l.lo == 0 else l.lo < l.hi)
  }

  lemma {:induction false} PlanGrows(y: Layouter, n: nat, l: Layout, cuts: seq<nat>)
    requires Planned(y, n, l, cuts) && n < y.count && l.hi <= y.start(n + 1)
    requires n > 0 ==> y.fits(l.lo, n)
    ensures Planned(y, n + 1, l.(hi := y.start(n + 1)), cuts)
  {
  }

  lemma {:induction false} PlanCuts(y: Layouter, n: nat, l: Layout, cuts: seq<nat>, lo: nat)
    requires Planned(y, n, l, cuts) && 0 < n < y.count && lo <= l.hi < y.start(n + 1)
    requires l.lo < l.hi && !y.fits(l.lo, n)
    ensures Planned(y, n + 1, Layout(l.ws + [Window(l.lo, l.hi)], lo, y.start(n + 1)), cuts + [n])
  {
    assert Ends(y, Window(l.lo, l.hi), First(cuts, |cuts|), n);
    EndsMore(y, l.ws, cuts, Window(l.lo, l.hi), n);
  }

  lemma {:induction false} StartNext(parts: seq<string>, sep: string, chunkSize: int, n: nat)
    requires n < |parts|
    ensures
      var y := LayouterOf(parts, sep, chunkSize);
      && y.start(n + 1) == y.start(n) + |parts[n]| + |sep|
      && forall lo: nat :: y.fits(lo, n) <==> y.start(n) - lo + |parts[n]| <= chunkSize
  {
    assert parts[..n + 1][..n] == parts[..n];
  }

  lemma {:induction false} PlanNext(parts: seq<string>, sep: string, chunkSize: int, overlap: nat, n: nat, l: Layout,
                                    cuts: seq<nat>)
    returns (more: seq<nat>)
    requires n < |parts| && (|parts| > 1 ==> sep != []) && Planned(LayouterOf(parts, sep, chunkSize), n, l, cuts)
    ensures
      Planned(LayouterOf(parts, sep, chunkSize), n + 1, NextLayout(l, parts[n], sep, chunkSize, overlap), more)
  {
    var y := LayouterOf(parts, sep, chunkSize);
    StartNext(parts, sep, chunkSize, n);
    if l.hi - l.lo + |parts[n]| <= chunkSize || n == 0 {
      PlanGrows(y, n, l, cuts);
      more := cuts;
    } else {
      assert l.lo < l.hi by { Opened(parts, sep, chunkSize, n, l, cuts); }
      PlanCuts(y, n, l, cuts, l.hi - Min(overlap, l.hi - l.lo));
      more := cuts + [n];
    }
  }

  /** After the first part the open window is not empty. */
  lemma {:induction false} Opened(parts: seq<string>, sep: string, chunkSize: int, n: nat, l: Layout, cuts: seq<nat>)
    requires 0 < n < |parts| && sep != [] && Planned(LayouterOf(parts, sep, chunkSize), n, l, cuts)
    ensures l.lo < l.hi
  {
    var y := LayouterOf(parts, sep, chunkSize);
    StartNext(parts, sep, chunkSize, n - 1);
  }

  lemma {:induction false} PlanIsGreedy(parts: seq<string>, sep: string, chunkSize: int, overlap: nat, n: nat)
    returns (cuts: seq<nat>)
    requires n <= |parts| && (|parts| > 1 ==> sep != [])
    ensures Planned(LayouterOf(parts, sep, chunkSize), n, Plan(parts[..n], sep, chunkSize, overlap), cuts)
  {
    if n == 0 {
      cuts := [];
    } else {
      cuts := PlanIsGreedy(parts, sep, chunkSize, overlap, n - 1);
      cuts := PlanNext(parts, sep, chunkSize, overlap, n - 1, Plan(parts[..n - 1], sep, chunkSize, overlap), cuts);
      assert parts[..n][..n - 1] == parts[..n - 1];
    }
  }

  lemma {:induction false} CloseLast(y: Layouter, l: Layout, cuts: seq<nat>)
    requires Planned(y, y.count, l, cuts) && l.lo < l.hi && y.count > 0
    ensures Greedy(y, Windows(l), cuts + [y.count])
  {
    assert Ends(y, Window(l.lo, l.hi), First(cuts, |cuts|), y.count);
    EndsMore(y, l.ws, cuts, Window(l.lo, l.hi), y.count);
  }

  lemma {:induction false} WindowsAreGreedy(parts: seq<string>, sep: string, chunkSize: int, overlap: nat)
    returns (cuts: seq<nat>)
    requires parts != [] && (|parts| > 1 ==> sep != [])
    ensures Greedy(LayouterOf(parts, sep, chunkSize), Windows(Plan(parts, sep, chunkSize, overlap)), cuts)
  {
    var l := Plan(parts, sep, chunkSize, overlap);
    cuts := PlanIsGreedy(parts, sep, chunkSize, overlap, |parts|);
    assert parts[..|parts|] == parts;
    if l.lo < l.hi {
      CloseLast(LayouterOf(parts, sep, chunkSize), l, cuts);
      cuts := cuts + [|parts|];
    }
  }

  /** The windows of a split end before the first part that does not fit. */
  lemma {:induction false} CutsAreGreedy(text: string, chunkSize: int, chunkOverlap: int, separators: seq<string>,
                                         ws: seq<Window>, chunks: seq<string>)
    returns (cuts: seq<nat>)
    requires separators == [] || separators[0] != []
    requires SplitOf(text, chunkSize, chunkOverlap, separators, ws, chunks)
    ensures Greedy(LayouterOf(PartsOf(text, separators), SeparatorOf(separators), chunkSize), ws, cuts)
  {
    cuts := WindowsAreGreedy(PartsOf(text, separators), SeparatorOf(separators), chunkSize, Max(0, chunkOverlap));
  }

  // ----- Tiling windows that are cut greedily are determined

  lemma {:induction false} SameWindow(y: Layouter, v: Window, w: Window, first: nat, a: nat, b: nat)
    requires v.lo == w.lo && Ends(y, v, first, a) && Ends(y, w, first, b)
    ensures a == b && v == w
  {
  }

  lemma {:induction false} SameUpTo(y: Layouter, overlap: nat, v: seq<Window>, a: seq<nat>, w: seq<Window>, b: seq<nat>,
                                    n: nat)
    requires EndsAll(y, v, a) && EndsAll(y, w, b) && Tiled(v, overlap) && Tiled(w, overlap) && n <= |v| && n <= |w|
    ensures forall j :: 0 <= j < n ==> v[j] == w[j] && a[j] == b[j]
  {
    if n > 0 {
      var j := n - 1;
      SameUpTo(y, overlap, v, a, w, b, j);
      if j > 0 {
        assert Follows(v[j - 1], v[j], overlap) && Follows(w[j - 1], w[j], overlap);
      }
      assert First(a, j) == First(b, j) && v[j].lo == w[j].lo;
      SameWindow(y, v[j], w[j], First(a, j), a[j], b[j]);
    }
  }

  lemma {:induction false} NotLastCut(y: Layouter, ws: seq<Window>, cuts: seq<nat>, j: nat)
    requires EndsAll(y, ws, cuts) && j + 1 < |ws|
    ensures cuts[j] < y.count
  {
    assert Ends(y, ws[j + 1], First(cuts, j + 1), cuts[j + 1]);
  }

  lemma {:induction false} NotLonger(y: Layouter, w: seq<Window>, b: seq<nat>, n: nat)
    requires EndsAll(y, w, b) && 0 < n <= |w| && b[n - 1] == y.count
    ensures n == |w|
  {
    if n < |w| { NotLastCut(y, w, b, n - 1); }
  }

  lemma {:induction false} SameAsLonger(y: Layouter, overlap: nat, v: seq<Window>, a: seq<nat>, w: seq<Window>,
                                        b: seq<nat>)
    requires Greedy(y, v, a) && Greedy(y, w, b) && Tiled(v, overlap) && Tiled(w, overlap) && 0 < |v| <= |w|
    ensures v == w
  {
    SameUpTo(y, overlap, v, a, w, b, |v|);
    assert a[|v| - 1] == b[|v| - 1];
    NotLonger(y, w, b, |v|);
  }

  /** There is one way to tile the text with windows that end greedily. */
  lemma {:induction false} GreedyUnique(y: Layouter, overlap: nat, v: seq<Window>, a: seq<nat>, w: seq<Window>,
                                        b: seq<nat>)
    requires Greedy(y, v, a) && Greedy(y, w, b) && Tiled(v, overlap) && Tiled(w, overlap) && v != [] && w != []
    ensures v == w
  {
    if |v| <= |w| {
      SameAsLonger(y, overlap, v, a, w, b);
    } else {
      SameAsLonger(y, overlap, w, b, v, a);
    }
  }
}
