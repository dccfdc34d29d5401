/** When chunks of the text splitter exceed the chunk size (app/domain/workflows/nodes/chunking.py). */
module ChunkSizes {
  import opened Prelude
  import opened Text
  import opened Chunking

  /** The content of the window, without its final separator, exceeds the chunk size. */
  ghost predicate Oversized(w: Window, sep: string, chunkSize: int) {
    w.hi - w.lo - |sep| > chunkSize
  }

  ghost function OpenWindow(l: Layout): Window {
    Window(l.lo, l.hi)
  }

  /** The part does not fit even behind the overlap that a cut keeps of the open window. */
  ghost predicate TooLong(l: Layout, part: string, sep: string, chunkSize: int, overlap: nat) {
    l.lo <= l.hi && Min(overlap, l.hi - l.lo) + |part| > chunkSize && |part| + |sep| > 0
  }

  /** One part adds its window to the oversized ones exactly when it is too long. */
  lemma {:induction false} NextOversized(l: Layout, part: string, sep: string, chunkSize: int, overlap: nat, w: Window)
    requires l.lo <= l.hi && (l.lo < l.hi ==> |part| + |sep| > 0)
    ensures
      var next := NextLayout(l, part, sep, chunkSize, overlap);
      w in Windows(next) && Oversized(w, sep, chunkSize) <==>
      (w in Windows(l) && Oversized(w, sep, chunkSize)) ||
      (TooLong(l, part, sep, chunkSize, overlap) && w == OpenWindow(next))
  {
  }

  /** Part `i` is too long when its turn comes. */
  ghost predicate Overflows(parts: seq<string>, sep: string, chunkSize: int, overlap: nat, i: nat)
    requires i < |parts|
  {
    TooLong(Plan(parts[..i], sep, chunkSize, overlap), parts[i], sep, chunkSize, overlap)
  }

  /** The window that is open after part `i`. */
  ghost function WindowAfter(parts: seq<string>, sep: string, chunkSize: int, overlap: nat, i: nat): Window
    requires i < |parts|
  {
    OpenWindow(Plan(parts[..i + 1], sep, chunkSize, overlap))
  }

  ghost predicate LeavesOpen(parts: seq<string>, sep: string, chunkSize: int, overlap: nat, i: nat, w: Window)
    requires i < |parts|
  {
    Overflows(parts, sep, chunkSize, overlap, i) && w == WindowAfter(parts, sep, chunkSize, overlap, i)
  }

  /** `w` is an oversized window of the first `n` parts. */
  ghost predicate IsOversized(parts: seq<string>, sep: string, chunkSize: int, overlap: nat, n: nat, w: Window)
    requires n <= |parts|
  {
    w in Windows(Plan(parts[..n], sep, chunkSize, overlap)) && Oversized(w, sep, chunkSize)
  }

  lemma {:induction false} OversizedStep(parts: seq<string>, sep: string, chunkSize: int, overlap: nat, i: nat,
                                         w: Window)
    requires i < |parts| && (|parts| > 1 ==> sep != [])
    ensures IsOversized(parts, sep, chunkSize, overlap, i + 1, w) <==>
      IsOversized(parts, sep, chunkSize, overlap, i, w) || LeavesOpen(parts, sep, chunkSize, overlap, i, w)
  {
    var l := Plan(parts[..i], sep, chunkSize, overlap);
    assert parts[..i + 1][..i] == parts[..i];
    assert Plan(parts[..i + 1], sep, chunkSize, overlap) == NextLayout(l, parts[i], sep, chunkSize, overlap);
    NextOversized(l, parts[i], sep, chunkSize, overlap, w);
  }

  /** What starts false holds after `n` steps exactly if some step made it true. */
  lemma {:induction false} FirstTime(holds: nat -> bool, starts: nat -> bool, n: nat)
    requires !holds(0) && forall i: nat :: i < n ==> (holds(i + 1) <==> holds(i) || starts(i))
    ensures holds(n) <==> exists i: nat :: i < n && starts(i)
  {
    if n > 0 {
      FirstTime(holds, starts, n - 1);
      assert holds(n - 1 + 1) <==> holds(n - 1) || starts(n - 1);
    }
  }

  /** The oversized windows are exactly the ones that a too long part leaves open. */
  lemma {:induction false} OversizedWindows(parts: seq<string>, sep: string, chunkSize: int, overlap: nat, n: nat,
                                            w: Window)
    requires n <= |parts| && (|parts| > 1 ==> sep != [])
    ensures IsOversized(parts, sep, chunkSize, overlap, n, w) <==>
      exists i: nat :: i < n && LeavesOpen(parts, sep, chunkSize, overlap, i, w)
  {
    var big := (i: nat) => i <= |parts| && IsOversized(parts, sep, chunkSize, overlap, i, w);
    var left := (i: nat) => i < |parts| && LeavesOpen(parts, sep, chunkSize, overlap, i, w);
    forall i: nat | i < n ensures big(i + 1) <==> big(i) || left(i) {
      OversizedStep(parts, sep, chunkSize, overlap, i, w);
    }
    FirstTime(big, left, n);
    assert forall i: nat :: i < n ==> (left(i) <==> LeavesOpen(parts, sep, chunkSize, overlap, i, w));
  }

  // ----- Chunks

  ghost predicate TrimsTo(full: string, w: Window, chunkSize: int) {
    w.lo <= w.hi <= |full| && |Strip(full[w.lo..w.hi])| <= chunkSize
  }

  /** If part `i` is too long, the window it leaves open is trimmed down to the chunk size. */
  ghost predicate TrimmedAway(full: string, parts: seq<string>, sep: string, chunkSize: int, overlap: nat, i: nat)
    requires i < |parts|
  {
    Overflows(parts, sep, chunkSize, overlap, i) ==>
      TrimsTo(full, WindowAfter(parts, sep, chunkSize, overlap, i), chunkSize)
  }

  lemma {:induction false} OpenIsWindow(parts: seq<string>, sep: string, chunkSize: int, overlap: nat, i: nat)
    requires i < |parts| && (|parts| > 1 ==> sep != []) && Overflows(parts, sep, chunkSize, overlap, i)
    ensures WindowAfter(parts, sep, chunkSize, overlap, i) in Windows(Plan(parts, sep, chunkSize, overlap))
  {
    var w := WindowAfter(parts, sep, chunkSize, overlap, i);
    assert LeavesOpen(parts, sep, chunkSize, overlap, i, w);
    OversizedWindows(parts, sep, chunkSize, overlap, |parts|, w);
    assert parts[..|parts|] == parts;
  }

  lemma {:induction false} FittingChunk(full: string, parts: seq<string>, sep: string, chunkSize: int, overlap: nat,
                                        w: Window, bound: int)
    requires (|parts| > 1 ==> sep != []) && w in Windows(Plan(parts, sep, chunkSize, overlap))
    requires AllSpace(sep) && w.lo < w.hi && Bounded(full, sep, w, bound)
    requires forall i :: 0 <= i < |parts| ==> TrimmedAway(full, parts, sep, chunkSize, overlap, i)
    ensures |Strip(full[w.lo..w.hi])| <= chunkSize
  {
    if Oversized(w, sep, chunkSize) {
      assert parts[..|parts|] == parts;
      OversizedWindows(parts, sep, chunkSize, overlap, |parts|, w);
      var i: nat :| i < |parts| && LeavesOpen(parts, sep, chunkSize, overlap, i, w);
      assert TrimmedAway(full, parts, sep, chunkSize, overlap, i);
    } else {
      PieceSize(full, sep, w, chunkSize);
    }
  }

  lemma {:induction false} ManyParts(text: string, separators: seq<string>)
    requires separators == [] || separators[0] != []
    ensures |PartsOf(text, separators)| > 1 ==> SeparatorOf(separators) != []
  {
  }

  /**
   With a whitespace separator no chunk exceeds the chunk size if and only if every part fits behind the
   overlap kept before it, or trimming takes the excess away.
  */
  lemma {:induction false} ChunksFitIff(text: string, chunkSize: int, chunkOverlap: int, separators: seq<string>,
                                        ws: seq<Window>, chunks: seq<string>)
    requires separators == [] || separators[0] != []
    requires SplitOf(text, chunkSize, chunkOverlap, separators, ws, chunks) && AllSpace(SeparatorOf(separators))
    ensures
      var sep, parts := SeparatorOf(separators), PartsOf(text, separators);
      (forall i :: 0 <= i < |chunks| ==> |chunks[i]| <= chunkSize) <==>
      (forall i :: 0 <= i < |parts| ==> TrimmedAway(text + sep, parts, sep, chunkSize, Max(0, chunkOverlap), i))
  {
    var sep, parts, overlap := SeparatorOf(separators), PartsOf(text, separators), Max(0, chunkOverlap);
    var full := text + sep;
    ManyParts(text, separators);
    if forall i :: 0 <= i < |chunks| ==> |chunks[i]| <= chunkSize {
      forall i | 0 <= i < |parts| ensures TrimmedAway(full, parts, sep, chunkSize, overlap, i) {
        if Overflows(parts, sep, chunkSize, overlap, i) {
          OpenIsWindow(parts, sep, chunkSize, overlap, i);
          var j :| 0 <= j < |ws| && ws[j] == WindowAfter(parts, sep, chunkSize, overlap, i);
          assert IsCut(full, ws[j], chunks[j]);
        }
      }
    }
    if forall i :: 0 <= i < |parts| ==> TrimmedAway(full, parts, sep, chunkSize, overlap, i) {
      forall i | 0 <= i < |chunks| ensures |chunks[i]| <= chunkSize {
        assert IsCut(full, ws[i], chunks[i]);
        FittingChunk(full, parts, sep, chunkSize, overlap, ws[i], SizeBound(chunkSize, chunkOverlap, parts));
      }
    }
  }

  // ----- The bound is attained

  function Repeat(c: char, n: nat): string {
    seq(n, _ => c)
  }

  /** Two parts as long as the chunk size. */
  function TwoBlocks(size: nat): string {
    Repeat('a', size) + "\n" + Repeat('b', size)
  }

  lemma {:induction false} BlockParts(size: nat)
    ensures Split(TwoBlocks(size), "\n") == [Repeat('a', size), Repeat('b', size)]
    ensures Longest([Repeat('a', size), Repeat('b', size)]) == size
  {
    var parts := [Repeat('a', size), Repeat('b', size)];
    assert parts[1..] == [Repeat('b', size)] && parts[1..][1..] == [];
    assert Longest(parts[1..]) == size;
    assert Join(parts, "\n") == TwoBlocks(size);
    SplitJoin(parts, '\n');
  }

  lemma {:induction false} BlockPlan(size: nat, overlap: nat)
    requires 0 < size && overlap <= size
    ensures Windows(Plan([Repeat('a', size), Repeat('b', size)], "\n", size, overlap)) ==
      [Window(0, size + 1), Window(size + 1 - overlap, 2 * size + 2)]
  {
    var parts := [Repeat('a', size), Repeat('b', size)];
    assert parts[..1] == [parts[0]] && parts[..1][..0] == [];
    assert Plan([], "\n", size, overlap) == Layout([], 0, 0);
    assert Plan(parts[..1], "\n", size, overlap) == Layout([], 0, size + 1);
  }

  lemma {:induction false} BlockStrip(size: nat, overlap: nat)
    requires 1 < overlap <= size
    ensures |Strip((TwoBlocks(size) + "\n")[size + 1 - overlap..2 * size + 2])| == size + overlap
  {
    var piece := (TwoBlocks(size) + "\n")[size + 1 - overlap..2 * size + 2];
    assert piece[0] == 'a' && piece[size + overlap - 1] == 'b' && piece[size + overlap] == '\n';
    StripKeeps(piece, 0);
    StripKeeps(piece, size + overlap - 1);
    StripDropsSuffix(piece, 1);
  }

  /** For every size and overlap over one character, a text with a chunk that attains the bound, over the size. */
  lemma {:induction false} BoundAttained(size: nat, overlap: nat, ws: seq<Window>, chunks: seq<string>)
    requires 1 < overlap <= size && SplitOf(TwoBlocks(size), size, overlap, ["\n"], ws, chunks)
    ensures
      var bound := SizeBound(size, overlap, PartsOf(TwoBlocks(size), ["\n"]));
      |chunks| == 2 && |chunks[1]| == bound == overlap + size
  {
    BlockParts(size);
    BlockPlan(size, overlap);
    assert ws == [Window(0, size + 1), Window(size + 1 - overlap, 2 * size + 2)];
    BlockStrip(size, overlap);
    assert IsCut(TwoBlocks(size) + "\n", ws[1], chunks[1]);
  }
}
