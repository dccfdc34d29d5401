/** The markdown header splitter (app/domain/workflows/nodes/chunking.py). */
module Markdown {
  import opened Text

  datatype Section = Section(content: string, header: string)

  const DEFAULT_MARKERS: seq<string> := ["#", "##", "###"]

  predicate StartsWith(line: string, prefix: string) {
    |prefix| <= |line| && line[..|prefix|] == prefix
  }

  /** `re.match("^(m1|m2|...) ", line)` with escaped markers; no markers leave an empty alternative. */
  predicate IsHeader(markers: seq<string>, line: string) {
    if markers == [] then StartsWith(line, " ")
    else exists i :: 0 <= i < |markers| && StartsWith(line, markers[i] + " ")
  }

  /** A header line is a marker, a blank and any rest. */
  lemma {:induction false} HeaderLine(markers: seq<string>, line: string)
    ensures IsHeader(markers, line) <==>
      exists marker, rest :: (marker in markers || (markers == [] && marker == "")) && line == marker + " " + rest
  {
    if IsHeader(markers, line) {
      var marker := if markers == [] then ""
                    else var i :| 0 <= i < |markers| && StartsWith(line, markers[i] + " "); markers[i];
      assert marker + " " == if markers == [] then " " else marker + " ";
      assert line == marker + " " + line[|marker| + 1..];
    }
    if marker, rest :|
      (marker in markers || (markers == [] && marker == "")) && line == marker + " " + rest
    {
      assert line[..|marker + " "|] == marker + " ";
      assert markers == [] ==> marker + " " == " ";
    }
  }

  // ----- Where sections start

  /** Indices of the first line and of all header lines. */
  function Starts(markers: seq<string>, lines: seq<string>): seq<nat> {
    if lines == [] then []
    else
      var n := |lines| - 1;
      Starts(markers, lines[..n]) + if n == 0 || IsHeader(markers, lines[n]) then [n] else []
  }

  function HeaderCount(markers: seq<string>, lines: seq<string>): nat {
    if lines == [] then 0
    else
      var n := |lines| - 1;
      HeaderCount(markers, lines[..n]) + if IsHeader(markers, lines[n]) then 1 else 0
  }

  /** Line `k` opens a section. */
  ghost predicate Opens(markers: seq<string>, lines: seq<string>, k: nat)
    requires k < |lines|
  {
    k == 0 || IsHeader(markers, lines[k])
  }

  ghost predicate Increasing(s: seq<nat>, bound: nat) {
    (forall j :: 0 <= j < |s| ==> s[j] < bound) && (forall i, j :: 0 <= i < j < |s| ==> s[i] < s[j])
  }

  lemma {:induction false} StartsIncrease(markers: seq<string>, lines: seq<string>)
    ensures Increasing(Starts(markers, lines), |lines|)
    ensures lines != [] ==> Starts(markers, lines) != [] && Starts(markers, lines)[0] == 0
  {
    if lines == [] {
    } else {
      StartsIncrease(markers, lines[..|lines| - 1]);
    }
  }

  /** Sections start exactly at the first line and at the header lines. */
  lemma {:induction false} StartsAre(markers: seq<string>, lines: seq<string>, k: nat)
    requires k < |lines|
    ensures k in Starts(markers, lines) <==> Opens(markers, lines, k)
  {
    var n := |lines| - 1;
    if k < n {
      StartsAre(markers, lines[..n], k);
    } else {
      StartsIncrease(markers, lines[..n]);
    }
  }

  /** One section per header line, and one more when the text does not begin with a header. */
  lemma {:induction false} SectionCount(markers: seq<string>, lines: seq<string>)
    requires lines != []
    ensures |Starts(markers, lines)| == HeaderCount(markers, lines) + if IsHeader(markers, lines[0]) then 0 else 1
  {
    var n := |lines| - 1;
    if n == 0 {
      assert lines[..0] == [];
    } else {
      SectionCount(markers, lines[..n]);
    }
  }

  /** A section opens with a header line, unless it is the preamble, and has no other header line. */
  lemma {:induction false} SectionShape(markers: seq<string>, lines: seq<string>, j: nat, k: nat)
    requires j < |Starts(markers, lines)| && k < |lines| && Starts(markers, lines)[j] <= k
    requires j + 1 < |Starts(markers, lines)| ==> k < Starts(markers, lines)[j + 1]
    ensures k > Starts(markers, lines)[j] ==> !IsHeader(markers, lines[k])
    ensures k == Starts(markers, lines)[j] && k > 0 ==> IsHeader(markers, lines[k])
    ensures j > 0 <==> Starts(markers, lines)[j] > 0
  {
    var starts := Starts(markers, lines);
    StartsIncrease(markers, lines);
    StartsAre(markers, lines, k);
    if k in starts {
      var m :| 0 <= m < |starts| && starts[m] == k;
      assert m == j;
    }
  }

  // ----- Sections

  function HeaderOf(markers: seq<string>, line: string): string {
    if IsHeader(markers, line) then Strip(line) else []
  }

  /** The untrimmed text of lines `a..b`. */
  function Raw(lines: seq<string>, a: nat, b: nat): string
    requires a <= b <= |lines|
  {
    Terminated(lines[a..b], "\n")
  }

  function SectionAt(markers: seq<string>, lines: seq<string>, a: nat, b: nat): Section
    requires a < b <= |lines|
  {
    Section(Strip(Raw(lines, a, b)), HeaderOf(markers, lines[a]))
  }

  lemma {:induction false} RawNext(lines: seq<string>, a: nat, b: nat)
    requires a <= b < |lines|
    ensures Raw(lines, a, b + 1) == Raw(lines, a, b) + (lines[b] + "\n")
  {
    assert lines[a..b + 1][..b - a] == lines[a..b];
  }

  lemma {:induction false} RawConcat(lines: seq<string>, a: nat, b: nat, c: nat)
    requires a <= b <= c <= |lines|
    ensures Raw(lines, a, b) + Raw(lines, b, c) == Raw(lines, a, c)
    decreases c
  {
    if b < c {
      RawConcat(lines, a, b, c - 1);
      RawNext(lines, b, c - 1);
      RawNext(lines, a, c - 1);
    }
  }

  /** The untrimmed texts of all sections, concatenated. */
  function AllRaw(lines: seq<string>, starts: seq<nat>, end: nat): string
    requires end <= |lines|
    requires Increasing(starts, end)
    decreases |starts|
  {
    if starts == [] then []
    else
      var n := |starts| - 1;
      AllRaw(lines, starts[..n], starts[n]) + Raw(lines, starts[n], end)
  }

  lemma {:induction false} AllRawIsEverything(lines: seq<string>, starts: seq<nat>, end: nat)
    requires end <= |lines| && starts != [] && starts[0] == 0
    requires Increasing(starts, end)
    ensures AllRaw(lines, starts, end) == Raw(lines, 0, end)
    decreases |starts|
  {
    var n := |starts| - 1;
    if n > 0 {
      AllRawIsEverything(lines, starts[..n], starts[n]);
      RawConcat(lines, 0, starts[n], end);
    }
  }

  /** The untrimmed sections concatenate to the text with a final newline. */
  lemma {:induction false} SectionsReassemble(markers: seq<string>, text: string)
    ensures
      var lines := Split(text, "\n");
      var starts := Starts(markers, lines);
      Increasing(starts, |lines|) && AllRaw(lines, starts, |lines|) == text + "\n"
  {
    var lines := Split(text, "\n");
    StartsIncrease(markers, lines);
    AllRawIsEverything(lines, Starts(markers, lines), |lines|);
    TerminatedSplit(text, "\n");
    assert lines[0..|lines|] == lines;
  }

  // ----- Headers

  /** The trimmed header lines in order. */
  function Titles(markers: seq<string>, lines: seq<string>): seq<string> {
    if lines == [] then []
    else
      var n := |lines| - 1;
      Titles(markers, lines[..n]) + if IsHeader(markers, lines[n]) then [Strip(lines[n])] else []
  }

  function NonEmpty(s: seq<string>): seq<string> {
    if s == [] then []
    else
      var n := |s| - 1;
      NonEmpty(s[..n]) + if s[n] != [] then [s[n]] else []
  }

  function HeadersOf(chunks: seq<Section>): seq<string> {
    if chunks == [] then []
    else
      var n := |chunks| - 1;
      HeadersOf(chunks[..n]) + if chunks[n].header != [] then [chunks[n].header] else []
  }

  lemma {:induction false} HeadersAppend(chunks: seq<Section>, c: Section)
    ensures HeadersOf(chunks + [c]) == HeadersOf(chunks) + if c.header != [] then [c.header] else []
  {
  }

  lemma {:induction false} TitlesNext(markers: seq<string>, lines: seq<string>, i: nat)
    requires i < |lines|
    ensures NonEmpty(Titles(markers, lines[..i + 1])) ==
      NonEmpty(Titles(markers, lines[..i])) +
      if HeaderOf(markers, lines[i]) != [] then [HeaderOf(markers, lines[i])] else []
  {
    assert lines[..i + 1][..i] == lines[..i];
    var before := Titles(markers, lines[..i]);
    if IsHeader(markers, lines[i]) {
      assert (before + [Strip(lines[i])])[..|before|] == before;
    } else {
      assert Titles(markers, lines[..i + 1]) == before;
    }
  }

  ghost predicate NoBlank(s: seq<string>) {
    forall i :: 0 <= i < |s| ==> s[i] != []
  }

  lemma {:induction false} NonEmptyIsAll(s: seq<string>)
    ensures |NonEmpty(s)| <= |s| && (NonEmpty(s) == s <==> NoBlank(s))
  {
    if s == [] {
    } else {
      var n := |s| - 1;
      NonEmptyIsAll(s[..n]);
      assert s == s[..n] + [s[n]];
      if s[n] != [] && NonEmpty(s) == s {
        assert NonEmpty(s)[..|NonEmpty(s)| - 1] == NonEmpty(s[..n]);
      }
    }
  }

  ghost predicate SomeVisible(s: string) {
    exists k :: 0 <= k < |s| && !IsSpace(s[k])
  }

  // ----- The splitter

  ghost predicate IsSection(markers: seq<string>, lines: seq<string>, starts: seq<nat>, end: nat, j: nat,
                            chunk: Section)
    requires Increasing(starts, end) && end <= |lines| && j < |starts|
  {
    chunk == SectionAt(markers, lines, starts[j], if j + 1 < |starts| then starts[j + 1] else end)
  }

  /** The first `n` sections of the lines before `end` have been cut. */
  ghost predicate Sectioned(markers: seq<string>, lines: seq<string>, end: nat, n: int, chunks: seq<Section>)
    requires end <= |lines|
  {
    var starts := Starts(markers, lines[..end]);
    && |chunks| == n <= |starts| && Increasing(starts, end)
    && forall j: nat {:trigger IsSection(markers, lines, starts, end, j, chunks[j])} ::
         j < n ==> IsSection(markers, lines, starts, end, j, chunks[j])
  }

  function LastStart(markers: seq<string>, lines: seq<string>, end: nat): (k: nat)
    requires 0 < end <= |lines|
    ensures k < end
  {
    StartsIncrease(markers, lines[..end]);
    var starts := Starts(markers, lines[..end]);
    starts[|starts| - 1]
  }

  /** Line `end` continues the open section. */
  lemma {:induction false} ContinueSection(markers: seq<string>, lines: seq<string>, end: nat, n: int,
                                           chunks: seq<Section>)
    requires 0 < end < |lines| && Sectioned(markers, lines, end, n, chunks) && !IsHeader(markers, lines[end])
    requires n == |Starts(markers, lines[..end])| - 1
    ensures Sectioned(markers, lines, end + 1, n, chunks)
    ensures Starts(markers, lines[..end + 1]) == Starts(markers, lines[..end])
  {
    assert lines[..end + 1][..end] == lines[..end];
    var starts := Starts(markers, lines[..end]);
    assert Starts(markers, lines[..end + 1]) == starts;
    forall j: nat | j < n ensures IsSection(markers, lines, starts, end + 1, j, chunks[j]) {
      assert IsSection(markers, lines, starts, end, j, chunks[j]);
    }
  }

  /** The open section ends before line `end`. */
  lemma {:induction false} CloseSection(markers: seq<string>, lines: seq<string>, end: nat, chunks: seq<Section>,
                                        c: Section)
    requires 0 < end <= |lines| && Sectioned(markers, lines, end, |Starts(markers, lines[..end])| - 1, chunks)
    requires c == SectionAt(markers, lines, LastStart(markers, lines, end), end)
    ensures Sectioned(markers, lines, end, |Starts(markers, lines[..end])|, chunks + [c])
  {
  }

  /** Line `end` opens a new section. */
  lemma {:induction false} OpenSection(markers: seq<string>, lines: seq<string>, end: nat, chunks: seq<Section>)
    requires end < |lines| && (end == 0 || IsHeader(markers, lines[end]))
    requires Sectioned(markers, lines, end, |Starts(markers, lines[..end])|, chunks)
    ensures Sectioned(markers, lines, end + 1, |Starts(markers, lines[..end + 1])| - 1, chunks)
    ensures LastStart(markers, lines, end + 1) == end
  {
    assert lines[..end + 1][..end] == lines[..end];
    var before, after := Starts(markers, lines[..end]), Starts(markers, lines[..end + 1]);
    assert after == before + [end];
    StartsIncrease(markers, lines[..end + 1]);
    forall j: nat | j < |before| ensures IsSection(markers, lines, after, end + 1, j, chunks[j]) {
      assert IsSection(markers, lines, before, end, j, chunks[j]);
    }
  }

  /** The titles collected so far: those of the finished sections and of the open one. */
  ghost predicate Collected(markers: seq<string>, lines: seq<string>, i: nat, chunks: seq<Section>, header: string)
    requires i <= |lines|
  {
    HeadersOf(chunks) + (if header != [] then [header] else []) == NonEmpty(Titles(markers, lines[..i]))
  }

  /** The variables of the loop. */
  datatype Builder = Builder(chunks: seq<Section>, current: string, header: string)

  /** The loop state before line `i`. */
  ghost predicate Building(markers: seq<string>, lines: seq<string>, i: nat, b: Builder)
    requires i <= |lines|
  {
    && Collected(markers, lines, i, b.chunks, b.header)
    && if i == 0 then b == Builder([], [], [])
       else
         var open := LastStart(markers, lines, i);
         && Sectioned(markers, lines, i, |Starts(markers, lines[..i])| - 1, b.chunks)
         && b.current == Raw(lines, open, i) && b.header == HeaderOf(markers, lines[open])
  }

  lemma {:induction false} RawIsNotEmpty(lines: seq<string>, a: nat, b: nat)
    requires a < b <= |lines|
    ensures Raw(lines, a, b) != []
  {
  }

  lemma {:induction false} BuildHeader(markers: seq<string>, lines: seq<string>, i: nat, b: Builder)
    returns (d: Builder)
    requires i < |lines| && Building(markers, lines, i, b) && IsHeader(markers, lines[i])
    ensures Building(markers, lines, i + 1, d)
    ensures d == Builder(if b.current == [] then b.chunks else b.chunks + [Section(Strip(b.current), b.header)],
                         lines[i] + "\n", Strip(lines[i]))
  {
    var c := Section(Strip(b.current), b.header);
    if i == 0 {
      assert lines[..0] == [];
      OpenSection(markers, lines, i, b.chunks);
      d := Builder(b.chunks, lines[i] + "\n", Strip(lines[i]));
    } else {
      RawIsNotEmpty(lines, LastStart(markers, lines, i), i);
      CloseSection(markers, lines, i, b.chunks, c);
      OpenSection(markers, lines, i, b.chunks + [c]);
      HeadersAppend(b.chunks, c);
      d := Builder(b.chunks + [c], lines[i] + "\n", Strip(lines[i]));
    }
    TitlesNext(markers, lines, i);
    RawNext(lines, i, i);
  }

  lemma {:induction false} BuildLine(markers: seq<string>, lines: seq<string>, i: nat, b: Builder) returns (d: Builder)
    requires i < |lines| && Building(markers, lines, i, b) && !IsHeader(markers, lines[i])
    ensures Building(markers, lines, i + 1, d)
    ensures d == b.(current := b.current + (lines[i] + "\n"))
  {
    d := b.(current := b.current + (lines[i] + "\n"));
    TitlesNext(markers, lines, i);
    if i == 0 {
      assert lines[..0] == [];
      OpenSection(markers, lines, i, b.chunks);
      RawNext(lines, i, i);
      assert d.current == lines[i] + "\n";
    } else {
      ContinueSection(markers, lines, i, |b.chunks|, b.chunks);
      RawNext(lines, LastStart(markers, lines, i), i);
    }
  }

  lemma {:induction false} StartBuilding(markers: seq<string>, lines: seq<string>) returns (b: Builder)
    ensures b == Builder([], [], []) && Building(markers, lines, 0, b)
  {
    b := Builder([], [], []);
    assert lines[..0] == [];
  }

  /** One round of the loop. */
  lemma {:induction false} BuildNext(markers: seq<string>, lines: seq<string>, i: nat, b: Builder, isHeader: bool)
    returns (d: Builder)
    requires i < |lines| && Building(markers, lines, i, b) && isHeader == IsHeader(markers, lines[i])
    ensures Building(markers, lines, i + 1, d)
    ensures isHeader ==>
      && d.chunks == (if b.current == [] then b.chunks else b.chunks + [Section(Strip(b.current), b.header)])
      && d.current == lines[i] + "\n" && d.header == Strip(lines[i])
    ensures !isHeader ==>
      d.chunks == b.chunks && d.current == b.current + (lines[i] + "\n") && d.header == b.header
  {
    if isHeader {
      d := BuildHeader(markers, lines, i, b);
    } else {
      d := BuildLine(markers, lines, i, b);
    }
  }

  /** The loop over the lines, up to the section that is still open. */
  method BuildSections(markers: seq<string>, lines: seq<string>)
    returns (chunks: seq<Section>, current: string, header: string, ghost b: Builder)
    ensures Building(markers, lines, |lines|, b) && b.chunks == chunks && b.current == current && b.header == header
  {
    chunks, current, header := [], [], [];
    b := StartBuilding(markers, lines);
    for i := 0 to |lines|
      invariant b.chunks == chunks && b.current == current && b.header == header
      invariant Building(markers, lines, i, b)
    {
      var isHeader := IsHeader(markers, lines[i]);
      b := BuildNext(markers, lines, i, b, isHeader);
      if isHeader {
        if current != [] {
          chunks := chunks + [Section(Strip(current), header)];
        }
        header := Strip(lines[i]);
        current := lines[i] + "\n";
      } else {
        current := current + (lines[i] + "\n");
      }
    }
  }

  /**
   `run` of the markdown splitter. Chunk `j` is the trimmed text of the lines from one section
   start to the next; `headers` are the trimmed header lines in order, blank ones left out.
  */
  method SplitMarkdown(text: string, markers: seq<string>) returns (chunks: seq<Section>, headers: seq<string>)
    ensures text == [] ==> chunks == [] && headers == []
    ensures text != [] ==>
      var lines := Split(text, "\n");
      Sectioned(markers, lines, |lines|, |Starts(markers, lines[..|lines|])|, chunks) &&
      headers == NonEmpty(Titles(markers, lines))
  {
    if text == [] {
      return [], [];
    }
    var lines := Split(text, "\n");
    var current, header;
    ghost var b;
    chunks, current, header, b := BuildSections(markers, lines);
    FinishBuilding(markers, lines, b);
    if current != [] {
      chunks := chunks + [Section(Strip(current), header)];
    }
    headers := HeadersOf(chunks);
  }

  /** `t` is `s` with the whitespace at both ends removed. */
  ghost predicate Trims(s: string, t: string) {
    Trimmed(t) && exists a: nat, b: nat :: TrimmedTo(s, a, b, t)
  }

  /**
   What a chunk holds: its lines joined and trimmed, under its opening header line, trimmed, if it has one.
   The chunks are in the order of their sections.
  */
  lemma {:induction false} ChunkHolds(markers: seq<string>, lines: seq<string>, chunks: seq<Section>, j: nat)
    requires Sectioned(markers, lines, |lines|, |Starts(markers, lines[..|lines|])|, chunks) && j < |chunks|
    ensures
      var starts := Starts(markers, lines);
      && |chunks| == |starts| && Increasing(starts, |lines|)
      && var end := if j + 1 < |starts| then starts[j + 1] else |lines|;
         && Trims(Join(lines[starts[j]..end], "\n") + "\n", chunks[j].content)
         && if IsHeader(markers, lines[starts[j]]) then Trims(lines[starts[j]], chunks[j].header)
            else chunks[j].header == ""
  {
    assert lines[..|lines|] == lines;
    var starts := Starts(markers, lines);
    assert IsSection(markers, lines, starts, |lines|, j, chunks[j]);
    var a, b := starts[j], if j + 1 < |starts| then starts[j + 1] else |lines|;
    TerminatedJoin(lines[a..b], "\n");
    StripExactly(Raw(lines, a, b), chunks[j].content);
    StripExactly(lines[a], Strip(lines[a]));
  }

  lemma {:induction false} FinishBuilding(markers: seq<string>, lines: seq<string>, b: Builder)
    requires lines != [] && Building(markers, lines, |lines|, b)
    ensures
      var all := b.chunks + [Section(Strip(b.current), b.header)];
      && b.current != []
      && Sectioned(markers, lines, |lines|, |Starts(markers, lines[..|lines|])|, all)
      && HeadersOf(all) == NonEmpty(Titles(markers, lines))
  {
    RawIsNotEmpty(lines, LastStart(markers, lines, |lines|), |lines|);
    assert lines[..|lines|] == lines;
    CloseSection(markers, lines, |lines|, b.chunks, Section(Strip(b.current), b.header));
    HeadersAppend(b.chunks, Section(Strip(b.current), b.header));
  }

  // ----- When `headers` is complete

  /** A marker that cannot give a blank header line: it has a visible character or spans lines. */
  ghost predicate NeverBlank(marker: string) {
    SomeVisible(marker) || '\n' in marker
  }

  lemma {:induction false} SafeMarkers(markers: seq<string>, lines: seq<string>)
    requires markers != [] && forall i :: 0 <= i < |markers| ==> NeverBlank(markers[i])
    requires forall i :: 0 <= i < |lines| ==> '\n' !in lines[i]
    ensures NoBlank(Titles(markers, lines))
  {
    if lines != [] {
      var n := |lines| - 1;
      SafeMarkers(markers, lines[..n]);
      if IsHeader(markers, lines[n]) { HeaderIsVisible(markers, lines[n]); }
    }
  }

  lemma {:induction false} HeaderIsVisible(markers: seq<string>, line: string)
    requires markers != [] && forall i :: 0 <= i < |markers| ==> NeverBlank(markers[i])
    requires '\n' !in line && IsHeader(markers, line)
    ensures Strip(line) != []
  {
    var i :| 0 <= i < |markers| && StartsWith(line, markers[i] + " ");
    var m := markers[i];
    assert forall k :: 0 <= k < |m| ==> line[k] == line[..|m| + 1][k] == m[k];
    assert NeverBlank(m);
    var k :| 0 <= k < |m| && !IsSpace(m[k]);
    StripKeeps(line, k);
  }

  lemma {:induction false} BlankMarkerText(markers: seq<string>, marker: string)
    requires !NeverBlank(marker) && (marker in markers || (markers == [] && marker == []))
    ensures !NoBlank(Titles(markers, Split(marker + " ", "\n")))
  {
    var text := marker + " ";
    FindChar(text, '\n');
    assert Split(text, "\n") == [text];
    assert StartsWith(text, marker + " ");
    assert [text][..0] == [];
    assert AllSpace(text);
    StripEmpty(text);
    assert Titles(markers, [text]) == [] + [Strip(text)];
    assert Titles(markers, [text])[0] == [];
  }

  /** `headers` lists all header lines of every text if and only if the markers exclude blank header lines. */
  lemma {:induction false} HeadersCompleteIff(markers: seq<string>)
    ensures
      (forall text: string {:trigger Split(text, "\n")} ::
         NonEmpty(Titles(markers, Split(text, "\n"))) == Titles(markers, Split(text, "\n")))
      <==> markers != [] && forall i :: 0 <= i < |markers| ==> NeverBlank(markers[i])
  {
    if markers != [] && forall i :: 0 <= i < |markers| ==> NeverBlank(markers[i]) {
      forall text: string ensures NonEmpty(Titles(markers, Split(text, "\n"))) == Titles(markers, Split(text, "\n")) {
        SplitParts(text, '\n');
        SafeMarkers(markers, Split(text, "\n"));
        NonEmptyIsAll(Titles(markers, Split(text, "\n")));
      }
    } else {
      var marker := if markers == [] then [] else var i :| 0 <= i < |markers| && !NeverBlank(markers[i]); markers[i];
      BlankMarkerText(markers, marker);
      NonEmptyIsAll(Titles(markers, Split(marker + " ", "\n")));
    }
  }

  /** The default markers are of that kind. */
  lemma {:induction false} DefaultMarkers()
    ensures forall i :: 0 <= i < |DEFAULT_MARKERS| ==> NeverBlank(DEFAULT_MARKERS[i])
  {
    forall i | 0 <= i < |DEFAULT_MARKERS| ensures NeverBlank(DEFAULT_MARKERS[i]) {
      assert !IsSpace(DEFAULT_MARKERS[i][0]);
    }
  }
}
