/** Text splitters (app/domain/workflows/nodes/chunking.py). */
module Chunking {
  import opened Prelude
  import opened Text

  function Min(a: int, b: int): int {
    if a <= b then a else b
  }

  function Max(a: int, b: int): int {
    if a <= b then b else a
  }

  // ----- Overlapping windows

  /** The half-open range `lo..hi` of the text that a chunk was cut from. */
  datatype Window = Window(lo: nat, hi: nat)

  ghost predicate Within(ws: seq<Window>, n: nat) {
    forall i :: 0 <= i < |ws| ==> ws[i].lo < ws[i].hi <= n
  }

  /** `w` starts exactly the overlap, or all of `v` if that is shorter, before the end of `v`, and goes further. */
  ghost predicate Follows(v: Window, w: Window, overlap: nat) {
    w.lo == v.hi - Min(overlap, v.hi - v.lo) && v.hi < w.hi
  }

  ghost predicate Tiled(ws: seq<Window>, overlap: nat) {
    && (ws != [] ==> ws[0].lo == 0)
    && (forall i {:trigger Follows(ws[i - 1], ws[i], overlap)} :: 0 < i < |ws| ==> Follows(ws[i - 1], ws[i], overlap))
  }

  lemma {:induction false} TiledGrow(ws: seq<Window>, v: Window, w: Window, overlap: nat)
    requires Tiled(ws + [v], overlap) && w.lo == v.lo && v.hi <= w.hi
    ensures Tiled(ws + [w], overlap)
  {
    forall i | 0 < i < |ws + [w]| ensures Follows((ws + [w])[i - 1], (ws + [w])[i], overlap) {
      assert Follows((ws + [v])[i - 1], (ws + [v])[i], overlap);
    }
    assert (ws + [w])[0].lo == (ws + [v])[0].lo;
  }

  lemma {:induction false} TiledAppend(ws: seq<Window>, w: Window, overlap: nat)
    requires Tiled(ws, overlap) && ws != [] && Follows(ws[|ws| - 1], w, overlap)
    ensures Tiled(ws + [w], overlap)
  {
  }

  lemma {:induction false} TilesCover(ws: seq<Window>, overlap: nat, n: nat, k: nat) returns (i: nat)
    requires Tiled(ws, overlap) && Within(ws, n) && ws != [] && k < ws[|ws| - 1].hi
    ensures i < |ws| && ws[i].lo <= k < ws[i].hi
  {
    var last := |ws| - 1;
    if ws[last].lo <= k {
      i := last;
    } else {
      assert last > 0 && Follows(ws[last - 1], ws[last], overlap);
      forall j | 0 < j < last ensures Follows(ws[..last][j - 1], ws[..last][j], overlap) {
        assert Follows(ws[j - 1], ws[j], overlap);
      }
      i := TilesCover(ws[..last], overlap, n, k);
    }
  }

  ghost predicate IsCut(full: string, w: Window, chunk: string)
    requires w.lo < w.hi <= |full|
  {
    chunk == Strip(full[w.lo..w.hi])
  }

  /** The chunks are the trimmed windows. */
  ghost predicate Renders(full: string, ws: seq<Window>, chunks: seq<string>) {
    && |ws| == |chunks| && Within(ws, |full|)
    && forall i {:trigger IsCut(full, ws[i], chunks[i])} :: 0 <= i < |ws| ==> IsCut(full, ws[i], chunks[i])
  }

  lemma {:induction false} RendersAppend(full: string, ws: seq<Window>, chunks: seq<string>, w: Window)
    requires Renders(full, ws, chunks) && w.lo < w.hi <= |full|
    ensures Renders(full, ws + [w], chunks + [Strip(full[w.lo..w.hi])])
  {
  }

  /** No character other than whitespace is lost by trimming: each one is in a chunk, at its place. */
  lemma {:induction false} NothingLost(full: string, ws: seq<Window>, overlap: nat, chunks: seq<string>, k: nat)
    returns (i: nat, at: nat)
    requires Renders(full, ws, chunks) && Tiled(ws, overlap)
    requires ws != [] && ws[|ws| - 1].hi == |full|
    requires k < |full| && !IsSpace(full[k])
    ensures i < |chunks| && at < |chunks[i]| && chunks[i][at] == full[k]
    ensures ws[i].lo + StripLo(full[ws[i].lo..ws[i].hi]) + at == k
  {
    i := TilesCover(ws, overlap, |full|, k);
    var piece := full[ws[i].lo..ws[i].hi];
    assert IsCut(full, ws[i], chunks[i]);
    assert piece[k - ws[i].lo] == full[k];
    StripKeeps(piece, k - ws[i].lo);
    at := k - ws[i].lo - StripLo(piece);
  }

  // ----- The character splitter

  datatype SplitResult = Chunks(chunks: seq<string>) | EmptySeparator

  /** Every window ends with a separator and its content obeys the size bound. */
  ghost predicate Bounded(full: string, sep: string, w: Window, bound: int) {
    && w.lo + |sep| <= w.hi <= |full|
    && full[w.hi - |sep|..w.hi] == sep
    && w.hi - w.lo - |sep| <= bound
  }

  ghost predicate AllBounded(full: string, sep: string, ws: seq<Window>, bound: int) {
    forall i :: 0 <= i < |ws| ==> Bounded(full, sep, ws[i], bound)
  }

  lemma {:induction false} BoundedAppend(full: string, sep: string, ws: seq<Window>, v: Window, w: Window, bound: int)
    requires AllBounded(full, sep, ws + [v], bound) && Bounded(full, sep, w, bound)
    ensures AllBounded(full, sep, ws + [w], bound)
  {
    assert forall i :: 0 <= i < |ws| ==> (ws + [w])[i] == (ws + [v])[i];
  }

  function SeparatorOf(separators: seq<string>): string {
    if separators == [] then [] else separators[0]
  }

  function PartsOf(text: string, separators: seq<string>): seq<string>
    requires separators == [] || separators[0] != []
  {
    if separators == [] then [text] else Split(text, separators[0])
  }

  lemma {:induction false} PartsReassemble(text: string, separators: seq<string>)
    requires separators == [] || separators[0] != []
    ensures PartsOf(text, separators) != []
    ensures Terminated(PartsOf(text, separators), SeparatorOf(separators)) == text + SeparatorOf(separators)
    ensures separators == [] ==> PartsOf(text, separators) == [text]
  {
    if separators == [] {
      assert [text][..0] == [];
    } else {
      TerminatedSplit(text, separators[0]);
    }
  }

  function Longest(parts: seq<string>): nat {
    if parts == [] then 0 else Max(|parts[0]|, Longest(parts[1..]))
  }

  lemma {:induction false} LongestBounds(parts: seq<string>, i: nat)
    requires i < |parts|
    ensures |parts[i]| <= Longest(parts)
  {
    if i > 0 { LongestBounds(parts[1..], i - 1); }
  }

  /** What stays fixed during one call: text with final separator, separator, size bound, effective overlap. */
  datatype Task = Task(full: string, sep: string, bound: int, overlap: nat)

  /** The loop state after `hi` characters: finished windows and chunks, and the current window from `lo`. */
  datatype Cursor = Cursor(ws: seq<Window>, chunks: seq<string>, current: string, lo: nat, hi: nat)

  ghost predicate Splitting(t: Task, c: Cursor) {
    match c
    case Cursor(ws, chunks, current, lo, hi) =>
      && lo < hi <= |t.full| && current == t.full[lo..hi]
      && Renders(t.full, ws, chunks)
      && Tiled(ws + [Window(lo, hi)], t.overlap)
      && AllBounded(t.full, t.sep, ws + [Window(lo, hi)], t.bound)
  }

  /** Before the first character nothing is there; afterwards `Splitting` holds. */
  ghost predicate Progress(t: Task, c: Cursor) {
    match c
    case Cursor(ws, chunks, current, lo, hi) =>
      if hi == 0 then current == [] && chunks == [] && ws == [] && lo == 0 else Splitting(t, c)
  }

  /** `piece` is the next part with its separator, up to `next`. */
  ghost predicate NextPiece(t: Task, hi: nat, next: nat, piece: string) {
    hi + |t.sep| <= next <= |t.full| && t.full[next - |t.sep|..next] == t.sep && t.full[hi..next] == piece
  }

  /** One more part extends the prefix of the text that has been consumed. */
  lemma {:induction false} Consume(t: Task, parts: seq<string>, i: nat, hi: nat, piece: string)
    requires i < |parts| && t.full == Terminated(parts, t.sep)
    requires hi == |Terminated(parts[..i], t.sep)| && piece == parts[i] + t.sep
    ensures |Terminated(parts[..i + 1], t.sep)| == hi + |piece|
    ensures NextPiece(t, hi, hi + |piece|, piece)
  {
    var full, before := t.full, Terminated(parts[..i], t.sep);
    assert parts[..i + 1][..i] == parts[..i];
    TerminatedPrefix(parts, t.sep, i + 1);
    var after := Terminated(parts[..i + 1], t.sep);
    assert after == before + parts[i] + t.sep;
    assert full[..|after|] == after;
    assert full[|before|..|after|] == after[|before|..];
    assert after[|before|..] == parts[i] + t.sep;
    assert full[|after| - |t.sep|..|after|] == after[|after| - |t.sep|..];
  }

  /** `current[max(0, len(current) - overlap):]`, which is empty for a negative overlap. */
  function Tail(current: string, overlap: int): string {
    var from := Max(0, |current| - overlap);
    if from <= |current| then current[from..] else []
  }

  lemma {:induction false} TailClamps(current: string, overlap: int)
    ensures Tail(current, overlap) == Tail(current, Max(0, overlap))
  {
  }

  /** The tail of a window together with the next piece is the next window. */
  lemma {:induction false} CutText(full: string, current: string, overlap: nat, lo: nat, hi: nat, next: nat,
                                   tail: string, piece: string)
    requires lo < hi <= next <= |full| && current == full[lo..hi] && piece == full[hi..next]
    requires tail == Tail(current, overlap)
    ensures tail + piece == full[hi - Min(overlap, hi - lo)..next]
  {
  }

  lemma {:induction false} Extend(t: Task, c: Cursor, next: nat, piece: string)
    requires Splitting(t, c) && NextPiece(t, c.hi, next, piece) && |c.current| + |piece| - |t.sep| <= t.bound
    ensures Splitting(t, c.(current := c.current + piece, hi := next))
  {
    assert c.current + piece == t.full[c.lo..next];
    TiledGrow(c.ws, Window(c.lo, c.hi), Window(c.lo, next), t.overlap);
    BoundedAppend(t.full, t.sep, c.ws, Window(c.lo, c.hi), Window(c.lo, next), t.bound);
  }

  /** Emitting the current window and opening the next one `overlap` before its end. */
  lemma {:induction false} CutWindow(t: Task, c: Cursor, lo: nat, next: nat)
    requires Splitting(t, c) && lo == c.hi - Min(t.overlap, c.hi - c.lo) && c.hi < next
    requires Bounded(t.full, t.sep, Window(lo, next), t.bound)
    ensures
      var ws := c.ws + [Window(c.lo, c.hi)];
      && Renders(t.full, ws, c.chunks + [Strip(c.current)])
      && Tiled(ws + [Window(lo, next)], t.overlap)
      && AllBounded(t.full, t.sep, ws + [Window(lo, next)], t.bound)
  {
    TiledAppend(c.ws + [Window(c.lo, c.hi)], Window(lo, next), t.overlap);
    RendersAppend(t.full, c.ws, c.chunks, Window(c.lo, c.hi));
  }

  /** The current window is emitted and its tail starts the next one. */
  lemma {:induction false} Cut(t: Task, c: Cursor, next: nat, tail: string, piece: string) returns (d: Cursor)
    requires Splitting(t, c) && NextPiece(t, c.hi, next, piece) && c.hi < next
    requires tail == Tail(c.current, t.overlap) && t.overlap + |piece| - |t.sep| <= t.bound
    ensures Splitting(t, d) && d.hi == next && d.current == tail + piece && d.chunks == c.chunks + [Strip(c.current)]
    ensures d.ws == c.ws + [Window(c.lo, c.hi)] && d.lo == c.hi - Min(t.overlap, c.hi - c.lo)
  {
    var lo := c.hi - Min(t.overlap, c.hi - c.lo);
    CutText(t.full, c.current, t.overlap, c.lo, c.hi, next, tail, piece);
    CutWindow(t, c, lo, next);
    d := Cursor(c.ws + [Window(c.lo, c.hi)], c.chunks + [Strip(c.current)], tail + piece, lo, next);
  }

  lemma {:induction false} FirstPart(t: Task, next: nat, piece: string)
    requires NextPiece(t, 0, next, piece) && next > 0 && |piece| - |t.sep| <= t.bound
    ensures Splitting(t, Cursor([], [], piece, 0, next))
  {
  }

  /** The part fits: the current window grows. */
  lemma {:induction false} AddPart(t: Task, c: Cursor, next: nat, piece: string) returns (d: Cursor)
    requires Progress(t, c) && NextPiece(t, c.hi, next, piece) && |c.current| + |piece| - |t.sep| <= t.bound
    ensures Progress(t, d) && d.hi == next && d.current == c.current + piece && d.chunks == c.chunks
    ensures d.ws == c.ws && d.lo == c.lo
  {
    d := Cursor(c.ws, c.chunks, c.current + piece, c.lo, next);
    if c.hi > 0 {
      Extend(t, c, next, piece);
    } else if next > 0 {
      FirstPart(t, next, piece);
      assert c.current + piece == piece;
    }
  }

  /** The final chunk closes the tiling. */
  lemma {:induction false} Close(t: Task, c: Cursor)
    requires Progress(t, c) && c.hi == |t.full|
    ensures c.current == [] <==> t.full == []
    ensures
      var ws, chunks := c.ws + [Window(c.lo, c.hi)], c.chunks + [Strip(c.current)];
      if c.current == [] then c.ws == [] && c.chunks == []
      else Renders(t.full, ws, chunks) && Tiled(ws, t.overlap) && AllBounded(t.full, t.sep, ws, t.bound)
  {
  }

  /** The size bound of the splitter: content without the final separator. */
  function SizeBound(chunkSize: int, chunkOverlap: int, parts: seq<string>): int {
    Max(chunkSize, Max(0, chunkOverlap) + Longest(parts))
  }

  // The layout of the windows depends on the lengths of the parts alone.

  /** Finished windows, and the open window `lo..hi`. */
  datatype Layout = Layout(ws: seq<Window>, lo: nat, hi: nat)

  /** A part goes into the open window if it fits the chunk size; otherwise the window is cut before it. */
  function NextLayout(l: Layout, part: string, sep: string, chunkSize: int, overlap: nat): Layout
    requires l.lo <= l.hi
  {
    var hi := l.hi + |part| + |sep|;
    if l.hi - l.lo + |part| <= chunkSize then l.(hi := hi)
    else if l.lo == l.hi then Layout(l.ws, l.hi, hi)
    else Layout(l.ws + [Window(l.lo, l.hi)], l.hi - Min(overlap, l.hi - l.lo), hi)
  }

  function Plan(parts: seq<string>, sep: string, chunkSize: int, overlap: nat): (l: Layout)
    ensures l.lo <= l.hi
  {
    if parts == [] then Layout([], 0, 0)
    else NextLayout(Plan(parts[..|parts| - 1], sep, chunkSize, overlap), parts[|parts| - 1], sep, chunkSize, overlap)
  }

  function Windows(l: Layout): seq<Window> {
    if l.lo < l.hi then l.ws + [Window(l.lo, l.hi)] else l.ws
  }

  ghost function LayoutOf(c: Cursor): Layout {
    Layout(c.ws, c.lo, c.hi)
  }

  /** What the splitter promises about its chunks; `ws` are the windows they were cut from. */
  ghost predicate SplitOf(text: string, chunkSize: int, chunkOverlap: int, separators: seq<string>,
                          ws: seq<Window>, chunks: seq<string>)
    requires separators == [] || separators[0] != []
  {
    var sep := SeparatorOf(separators);
    var full, parts := text + sep, PartsOf(text, separators);
    && Renders(full, ws, chunks)
    && Tiled(ws, Max(0, chunkOverlap))
    && (ws == [] <==> full == [])
    && (ws != [] ==> ws[|ws| - 1].hi == |full|)
    && AllBounded(full, sep, ws, SizeBound(chunkSize, chunkOverlap, parts))
    && |chunks| <= |parts|
    && ws == Windows(Plan(parts, sep, chunkSize, Max(0, chunkOverlap)))
  }

  /** The parameters of the call fix the task. */
  ghost predicate TaskOf(t: Task, parts: seq<string>, sep: string, chunkSize: int, chunkOverlap: int) {
    && t.sep == sep && t.full == Terminated(parts, sep) && (|parts| > 1 ==> sep != [])
    && t.bound == SizeBound(chunkSize, chunkOverlap, parts) && t.overlap == Max(0, chunkOverlap)
  }

  /** What part `i` adds to the text, and that it fits the size bound. */
  lemma {:induction false} PartFits(t: Task, hi: nat, parts: seq<string>, sep: string, chunkSize: int,
                                    chunkOverlap: int, i: nat, piece: string)
    requires TaskOf(t, parts, sep, chunkSize, chunkOverlap) && i < |parts| && piece == parts[i] + sep
    requires hi == |Terminated(parts[..i], sep)| && (i == 0 ==> hi == 0)
    ensures NextPiece(t, hi, hi + |piece|, piece) && |Terminated(parts[..i + 1], sep)| == hi + |piece|
    ensures hi > 0 ==> |piece| > 0
    ensures chunkSize <= t.bound && t.overlap + |piece| - |t.sep| <= t.bound
  {
    Consume(t, parts, i, hi, piece);
    LongestBounds(parts, i);
  }

  lemma {:induction false} Grow(t: Task, c: Cursor, part: string, chunkSize: int) returns (d: Cursor)
    requires Progress(t, c) && NextPiece(t, c.hi, c.hi + |part + t.sep|, part + t.sep)
    requires |c.current| + |part| <= chunkSize <= t.bound
    ensures Progress(t, d) && d.hi == c.hi + |part + t.sep|
    ensures d.current == c.current + (part + t.sep) && d.chunks == c.chunks
    ensures LayoutOf(d) == NextLayout(LayoutOf(c), part, t.sep, chunkSize, t.overlap)
  {
    assert |c.current| == c.hi - c.lo;
    d := AddPart(t, c, c.hi + |part + t.sep|, part + t.sep);
  }

  lemma {:induction false} Emit(t: Task, c: Cursor, part: string, chunkSize: int) returns (d: Cursor)
    requires Progress(t, c) && NextPiece(t, c.hi, c.hi + |part + t.sep|, part + t.sep)
    requires c.hi > 0 && |part + t.sep| > 0 && t.overlap + |part + t.sep| - |t.sep| <= t.bound
    requires c.current != [] && |c.current| + |part| > chunkSize
    ensures Progress(t, d) && d.hi == c.hi + |part + t.sep|
    ensures d.current == Tail(c.current, t.overlap) + (part + t.sep) && d.chunks == c.chunks + [Strip(c.current)]
    ensures LayoutOf(d) == NextLayout(LayoutOf(c), part, t.sep, chunkSize, t.overlap)
  {
    assert Splitting(t, c) && |c.current| == c.hi - c.lo;
    d := Cut(t, c, c.hi + |part + t.sep|, Tail(c.current, t.overlap), part + t.sep);
  }

  /** A round in which part `i` extends the current window. */
  lemma {:induction false} RoundAdds(t: Task, c: Cursor, parts: seq<string>, sep: string, chunkSize: int,
                                     chunkOverlap: int, i: nat)
    returns (d: Cursor)
    requires TaskOf(t, parts, sep, chunkSize, chunkOverlap) && i < |parts|
    requires Progress(t, c) && c.hi == |Terminated(parts[..i], sep)| && (i == 0 ==> c.hi == 0)
    requires |c.current| + |parts[i]| <= chunkSize
    ensures Progress(t, d) && d.hi == |Terminated(parts[..i + 1], sep)|
    ensures d.current == c.current + (parts[i] + sep) && d.chunks == c.chunks
    ensures LayoutOf(d) == NextLayout(LayoutOf(c), parts[i], sep, chunkSize, t.overlap)
  {
    PartFits(t, c.hi, parts, sep, chunkSize, chunkOverlap, i, parts[i] + sep);
    d := Grow(t, c, parts[i], chunkSize);
  }

  /** A round in which the current window is emitted and part `i` follows its overlap. */
  lemma {:induction false} RoundEmits(t: Task, c: Cursor, parts: seq<string>, sep: string, chunkSize: int,
                                      chunkOverlap: int, i: nat)
    returns (d: Cursor)
    requires TaskOf(t, parts, sep, chunkSize, chunkOverlap) && i < |parts|
    requires Progress(t, c) && c.hi == |Terminated(parts[..i], sep)| && (i == 0 ==> c.hi == 0)
    requires c.current != [] && |c.current| + |parts[i]| > chunkSize
    ensures Progress(t, d) && d.hi == |Terminated(parts[..i + 1], sep)|
    ensures d.current == Tail(c.current, chunkOverlap) + (parts[i] + sep) && d.chunks == c.chunks + [Strip(c.current)]
    ensures LayoutOf(d) == NextLayout(LayoutOf(c), parts[i], sep, chunkSize, t.overlap)
  {
    assert c.hi > 0;
    PartFits(t, c.hi, parts, sep, chunkSize, chunkOverlap, i, parts[i] + sep);
    TailClamps(c.current, chunkOverlap);
    d := Emit(t, c, parts[i], chunkSize);
  }

  /** A first part that is too long by itself starts the first window all the same. */
  lemma {:induction false} RoundOversized(t: Task, c: Cursor, parts: seq<string>, sep: string, chunkSize: int,
                                          chunkOverlap: int, i: nat)
    returns (d: Cursor)
    requires TaskOf(t, parts, sep, chunkSize, chunkOverlap) && i < |parts|
    requires Progress(t, c) && c.hi == |Terminated(parts[..i], sep)| && (i == 0 ==> c.hi == 0)
    requires c.current == [] && |c.current| + |parts[i]| > chunkSize
    ensures Progress(t, d) && d.hi == |Terminated(parts[..i + 1], sep)|
    ensures d.current == Tail(c.current, chunkOverlap) + (parts[i] + sep) && d.chunks == c.chunks
    ensures LayoutOf(d) == NextLayout(LayoutOf(c), parts[i], sep, chunkSize, t.overlap)
  {
    var piece := parts[i] + sep;
    PartFits(t, c.hi, parts, sep, chunkSize, chunkOverlap, i, piece);
    assert Tail(c.current, chunkOverlap) == [];
    d := AddPart(t, c, c.hi + |piece|, piece);
  }

  /** The loop over the parts, up to the window that is still open. */
  method PackParts(ghost t: Task, parts: seq<string>, sep: string, chunkSize: int, chunkOverlap: int)
    returns (chunks: seq<string>, current: string, ghost c: Cursor)
    requires TaskOf(t, parts, sep, chunkSize, chunkOverlap)
    ensures Progress(t, c) && c.chunks == chunks && c.current == current && c.hi == |t.full|
    ensures LayoutOf(c) == Plan(parts, sep, chunkSize, t.overlap)
    ensures |chunks| <= |parts| && (current != [] ==> |chunks| < |parts|)
  {
    c := Cursor([], [], [], 0, 0);
    chunks, current := [], [];
    for i := 0 to |parts|
      invariant Progress(t, c) && c.chunks == chunks && c.current == current
      invariant c.hi == |Terminated(parts[..i], sep)|
      invariant i == 0 ==> c.hi == 0
      invariant c.lo <= c.hi && LayoutOf(c) == Plan(parts[..i], sep, chunkSize, t.overlap)
      invariant |chunks| <= i && (current != [] ==> |chunks| < i)
    {
      assert parts[..i + 1][..i] == parts[..i];
      if |current| + |parts[i]| <= chunkSize {
        c := RoundAdds(t, c, parts, sep, chunkSize, chunkOverlap, i);
        current := current + (parts[i] + sep);
      } else {
        if current != [] {
          c := RoundEmits(t, c, parts, sep, chunkSize, chunkOverlap, i);
          chunks := chunks + [Strip(current)];
        } else {
          c := RoundOversized(t, c, parts, sep, chunkSize, chunkOverlap, i);
        }
        current := Tail(current, chunkOverlap) + (parts[i] + sep);
      }
    }
    assert parts[..|parts|] == parts;
  }

  /**
   `_split_recursive`: despite its name, one pass over the parts between occurrences of the first
   separator. An empty first separator is rejected by `str.split`; a negative overlap acts as none.
  */
  method SplitRecursive(text: string, chunkSize: int, chunkOverlap: int, separators: seq<string>)
    returns (r: SplitResult, ghost ws: seq<Window>)
    ensures r.EmptySeparator? <==> separators != [] && separators[0] == []
    ensures r.Chunks? ==> SplitOf(text, chunkSize, chunkOverlap, separators, ws, r.chunks)
  {
    if separators != [] && separators[0] == [] {
      return EmptySeparator, [];
    }
    var sep, parts := SeparatorOf(separators), PartsOf(text, separators);
    PartsReassemble(text, separators);
    ghost var t := Task(text + sep, sep, SizeBound(chunkSize, chunkOverlap, parts), Max(0, chunkOverlap));
    ghost var c;
    var chunks, current;
    chunks, current, c := PackParts(t, parts, sep, chunkSize, chunkOverlap);
    Close(t, c);
    ws := c.ws;
    if current != [] {
      chunks := chunks + [Strip(current)];
      ws := ws + [Window(c.lo, c.hi)];
    }
    r := Chunks(chunks);
  }

  /** Chunk sizes: a whitespace separator is trimmed away, any other adds at most its length. */
  lemma {:induction false} ChunkSize(text: string, chunkSize: int, chunkOverlap: int, separators: seq<string>,
                                     ws: seq<Window>, chunks: seq<string>, i: nat)
    requires separators == [] || separators[0] != []
    requires SplitOf(text, chunkSize, chunkOverlap, separators, ws, chunks) && i < |chunks|
    ensures
      var sep, bound := SeparatorOf(separators), SizeBound(chunkSize, chunkOverlap, PartsOf(text, separators));
      |chunks[i]| <= bound + |sep| && (AllSpace(sep) ==> |chunks[i]| <= bound)
  {
    var sep := SeparatorOf(separators);
    var full, w := text + sep, ws[i];
    assert IsCut(full, w, chunks[i]);
    assert Bounded(full, sep, w, SizeBound(chunkSize, chunkOverlap, PartsOf(text, separators)));
    PieceSize(full, sep, w, SizeBound(chunkSize, chunkOverlap, PartsOf(text, separators)));
  }

  lemma {:induction false} PieceSize(full: string, sep: string, w: Window, bound: int)
    requires w.lo < w.hi && Bounded(full, sep, w, bound)
    ensures |Strip(full[w.lo..w.hi])| <= bound + |sep|
    ensures AllSpace(sep) ==> |Strip(full[w.lo..w.hi])| <= bound
  {
    var piece := full[w.lo..w.hi];
    if AllSpace(sep) {
      assert piece[|piece| - |sep|..] == full[w.hi - |sep|..w.hi];
      StripDropsSuffix(piece, |sep|);
    }
  }

  // ----- Configuration

  /** A configuration override. */
  datatype ChunkConfig = ChunkConfig(chunkSize: Option<int>, chunkOverlap: Option<int>,
                                     separators: Option<seq<string>>) {
    // Absent keys take the defaults.
    function Size(): int { chunkSize.GetOr(DEFAULT_SIZE) }

    function Overlap(): int { chunkOverlap.GetOr(DEFAULT_OVERLAP) }

    function Separators(): seq<string> { separators.GetOr(DEFAULT_SEPARATORS) }

    ghost predicate Accepted() {
      100 <= Size() <= 10000 && 0 <= Overlap() < Size()
    }
  }

  const DEFAULT_SIZE := 1000
  const DEFAULT_OVERLAP := 200
  const DEFAULT_SEPARATORS: seq<string> := ["\n\n", "\n", ". ", " ", ""]

  method ValidateConfig(config: ChunkConfig) returns (errors: seq<string>)
    ensures errors == [] <==> config.Accepted()
    ensures
      var size, overlap := config.chunkSize.GetOr(1000), config.chunkOverlap.GetOr(200);
      && ("chunk_size must be at least 100" in errors <==> size < 100)
      && ("chunk_size must be at most 10000" in errors <==> size > 10000)
      && ("chunk_overlap must be less than chunk_size" in errors <==> overlap >= size)
      && ("chunk_overlap must be non-negative" in errors <==> overlap < 0)
  {
    errors := [];
    var size, overlap := config.chunkSize.GetOr(1000), config.chunkOverlap.GetOr(200);
    if size < 100 {
      errors := errors + ["chunk_size must be at least 100"];
    }
    if size > 10000 {
      errors := errors + ["chunk_size must be at most 10000"];
    }
    if overlap >= size {
      errors := errors + ["chunk_overlap must be less than chunk_size"];
    }
    if overlap < 0 {
      errors := errors + ["chunk_overlap must be non-negative"];
    }
  }

  /** `run` of the character splitter: merge the override into the defaults and split non-empty text. */
  method RunSplitter(text: string, config: ChunkConfig) returns (r: SplitResult, ghost ws: seq<Window>)
    ensures text == [] ==> r == Chunks([])
    ensures text != [] ==> (r.EmptySeparator? <==> config.Separators() != [] && config.Separators()[0] == [])
    ensures text != [] && r.Chunks? ==>
      SplitOf(text, config.Size(), config.Overlap(), config.Separators(), ws, r.chunks)
    ensures text != [] && config == ChunkConfig(None, None, None) ==>
      r.Chunks? && SplitOf(text, 1000, 200, ["\n\n", "\n", ". ", " ", ""], ws, r.chunks)
  {
    if text == [] {
      return Chunks([]), [];
    }
    r, ws := SplitRecursive(text, config.Size(), config.Overlap(), config.Separators());
  }

  /**
   Under a configuration that `validate_config` accepts and with no oversized part, whitespace-separated
   chunks stay under twice the size.
  */
  lemma {:induction false} AcceptedConfigBound(text: string, config: ChunkConfig, ws: seq<Window>,
                                               chunks: seq<string>, i: nat)
    requires config.Accepted() && (config.Separators() == [] || config.Separators()[0] != [])
    requires AllSpace(SeparatorOf(config.Separators()))
    requires Longest(PartsOf(text, config.Separators())) <= config.Size()
    requires SplitOf(text, config.Size(), config.Overlap(), config.Separators(), ws, chunks) && i < |chunks|
    ensures |chunks[i]| < 2 * config.Size()
  {
    ChunkSize(text, config.Size(), config.Overlap(), config.Separators(), ws, chunks, i);
  }
}
