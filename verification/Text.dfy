/** Python's `str.split`, `str.join` and `str.strip`. */
module Text {

  // ----- Whitespace and strip

  /** The characters removed by `str.strip()`. */
  predicate IsSpace(c: char) {
    var n := c as int;
    0x09 <= n <= 0x0D || 0x1C <= n <= 0x20 || n == 0x85 || n == 0xA0 || n == 0x1680 || 0x2000 <= n <= 0x200A ||
    n == 0x2028 || n == 0x2029 || n == 0x202F || n == 0x205F || n == 0x3000
  }

  ghost predicate AllSpace(s: string) {
    forall i :: 0 <= i < |s| ==> IsSpace(s[i])
  }

  /** Index of the first character that strip keeps. */
  function StripLo(s: string): (i: nat)
    ensures i <= |s| && (i < |s| ==> !IsSpace(s[i]))
    ensures forall k :: 0 <= k < i ==> IsSpace(s[k])
  {
    if s == [] || !IsSpace(s[0]) then 0 else 1 + StripLo(s[1..])
  }

  /** One past the last character that strip keeps. */
  function StripHi(s: string): (i: nat)
    ensures i <= |s| && (i > 0 ==> !IsSpace(s[i - 1]))
    ensures forall k :: i <= k < |s| ==> IsSpace(s[k])
  {
    if s == [] then 0
    else if IsSpace(s[|s| - 1]) then StripHi(s[..|s| - 1])
    else |s|
  }

  function Strip(s: string): string {
    if StripLo(s) <= StripHi(s) then s[StripLo(s)..StripHi(s)] else []
  }

  ghost predicate Trimmed(s: string) {
    s == [] || (!IsSpace(s[0]) && !IsSpace(s[|s| - 1]))
  }

  lemma {:induction false} StripTrims(s: string)
    ensures Trimmed(Strip(s))
  {
  }

  lemma {:induction false} StripOfTrimmed(s: string)
    requires Trimmed(s)
    ensures Strip(s) == s
  {
  }

  lemma {:induction false} StripEmpty(s: string)
    ensures Strip(s) == [] <==> AllSpace(s)
  {
  }

  /** Strip removes no character that is not whitespace. */
  lemma {:induction false} StripKeeps(s: string, k: nat)
    requires k < |s| && !IsSpace(s[k])
    ensures StripLo(s) <= k < StripHi(s) && k - StripLo(s) < |Strip(s)| && Strip(s)[k - StripLo(s)] == s[k]
  {
  }

  /** `t` is `s` without some whitespace before `a` and after `b`. */
  ghost predicate TrimmedTo(s: string, a: nat, b: nat, t: string) {
    a <= b <= |s| && t == s[a..b] && AllSpace(s[..a]) && AllSpace(s[b..])
  }

  /** Strip is the one way to remove whitespace at both ends so that none is left there. */
  lemma {:induction false} StripExactly(s: string, t: string)
    ensures t == Strip(s) <==> Trimmed(t) && exists a: nat, b: nat :: TrimmedTo(s, a, b, t)
  {
    StripTrims(s);
    StripEmpty(s);
    if AllSpace(s) {
      assert TrimmedTo(s, 0, 0, []);
      forall a: nat, b: nat | TrimmedTo(s, a, b, t) && Trimmed(t) ensures t == [] { }
    } else {
      assert TrimmedTo(s, StripLo(s), StripHi(s), Strip(s));
      forall a: nat, b: nat | TrimmedTo(s, a, b, t) && Trimmed(t) ensures t == Strip(s) { TrimUnique(s, a, b, t); }
    }
  }

  lemma {:induction false} TrimUnique(s: string, a: nat, b: nat, t: string)
    requires TrimmedTo(s, a, b, t) && Trimmed(t) && !AllSpace(s)
    ensures t == Strip(s)
  {
    assert (forall k :: 0 <= k < a ==> s[..a][k] == s[k]) && forall k :: b <= k < |s| ==> s[b..][k - b] == s[k];
    var k :| 0 <= k < |s| && !IsSpace(s[k]);
    assert a <= k < b;
    assert t[0] == s[a] && t[|t| - 1] == s[b - 1];
    assert StripLo(s) == a && StripHi(s) == b;
  }

  /** A whitespace suffix never survives. */
  lemma {:induction false} StripDropsSuffix(s: string, n: nat)
    requires n <= |s| && AllSpace(s[|s| - n..])
    ensures |Strip(s)| <= |s| - n
  {
  }

  // ----- Split and join

  ghost predicate OccursAt(text: string, sep: string, i: int) {
    0 <= i && i + |sep| <= |text| && text[i..i + |sep|] == sep
  }

  /** Leftmost occurrence of `sep`, or -1. */
  function Find(text: string, sep: string): (i: int)
    ensures i == -1 || OccursAt(text, sep, i)
  {
    if |text| < |sep| then -1
    else if text[..|sep|] == sep then 0
    else if text == [] then -1
    else
      var r := Find(text[1..], sep);
      if r == -1 then -1
      else
        assert text[r + 1..r + 1 + |sep|] == text[1..][r..r + |sep|];
        r + 1
  }

  lemma {:induction false} FindIsLeftmost(text: string, sep: string, k: nat)
    requires OccursAt(text, sep, k)
    ensures 0 <= Find(text, sep) <= k
    decreases |text|
  {
    if text[..|sep|] != sep {
      assert text[1..][k - 1..k - 1 + |sep|] == text[k..k + |sep|];
      FindIsLeftmost(text[1..], sep, k - 1);
    }
  }

  /** `text.split(sep)`: non-overlapping leftmost occurrences. */
  function Split(text: string, sep: string): (parts: seq<string>)
    requires sep != []
    ensures parts != []
    decreases |text|
  {
    var i := Find(text, sep);
    if i == -1 then [text] else [text[..i]] + Split(text[i + |sep|..], sep)
  }

  function Join(parts: seq<string>, sep: string): string {
    if parts == [] then []
    else if |parts| == 1 then parts[0]
    else parts[0] + sep + Join(parts[1..], sep)
  }

  lemma {:induction false} JoinCons(p: string, rest: seq<string>, sep: string)
    requires rest != []
    ensures Join([p] + rest, sep) == p + sep + Join(rest, sep)
  {
  }

  lemma {:induction false} JoinConcat(p: seq<string>, q: seq<string>, sep: string)
    requires p != [] && q != []
    ensures Join(p + q, sep) == Join(p, sep) + sep + Join(q, sep)
    decreases |p|
  {
    var rest := p[1..] + q;
    assert p + q == [p[0]] + rest;
    JoinCons(p[0], rest, sep);
    if |p| == 1 {
      assert rest == q;
    } else {
      JoinConcat(p[1..], q, sep);
      var head, mid, tail := p[0] + sep, Join(p[1..], sep), Join(q, sep);
      assert head + (mid + sep + tail) == head + mid + sep + tail;
    }
  }

  lemma {:induction false} CutOut(text: string, sep: string, i: nat)
    requires OccursAt(text, sep, i)
    ensures text == text[..i] + sep + text[i + |sep|..]
  {
    assert text == text[..i] + text[i..i + |sep|] + text[i + |sep|..];
  }

  /** Join undoes split. */
  lemma {:induction false} JoinSplit(text: string, sep: string)
    requires sep != []
    ensures Join(Split(text, sep), sep) == text
    decreases |text|
  {
    var i := Find(text, sep);
    if i != -1 {
      var rest := text[i + |sep|..];
      JoinSplit(rest, sep);
      JoinCons(text[..i], Split(rest, sep), sep);
      CutOut(text, sep, i);
    }
  }

  /** The first part ends where `sep` first occurs in the joined text; a single part has no occurrence. */
  ghost predicate CutLeftmost(parts: seq<string>, sep: string)
    requires parts != []
  {
    if |parts| == 1 then forall k :: !OccursAt(parts[0], sep, k)
    else forall k :: k < |parts[0]| ==> !OccursAt(Join(parts, sep), sep, k)
  }

  /** Every part ends at the leftmost occurrence of `sep` in what remains from its start. */
  ghost predicate AllCutLeftmost(parts: seq<string>, sep: string) {
    forall i :: 0 <= i < |parts| ==> CutLeftmost(parts[i..], sep)
  }

  lemma {:induction false} FindNothing(text: string, sep: string)
    ensures Find(text, sep) == -1 <==> forall k :: !OccursAt(text, sep, k)
  {
    forall k | OccursAt(text, sep, k) ensures Find(text, sep) != -1 { FindIsLeftmost(text, sep, k); }
  }

  lemma {:induction false} AllCutCons(p: string, rest: seq<string>, sep: string)
    requires rest != []
    ensures AllCutLeftmost([p] + rest, sep) <==> CutLeftmost([p] + rest, sep) && AllCutLeftmost(rest, sep)
  {
    var parts := [p] + rest;
    assert parts[0..] == parts && forall i :: 0 <= i < |rest| ==> parts[i + 1..] == rest[i..];
    if CutLeftmost(parts, sep) && AllCutLeftmost(rest, sep) {
      forall i | 0 <= i < |parts| ensures CutLeftmost(parts[i..], sep) {
        if i > 0 { assert parts[i..] == rest[i - 1..]; }
      }
    }
    if AllCutLeftmost(parts, sep) {
      forall i | 0 <= i < |rest| ensures CutLeftmost(rest[i..], sep) {
        assert CutLeftmost(parts[i + 1..], sep);
      }
    }
  }

  lemma {:induction false} SplitCutsLeftmost(text: string, sep: string)
    requires sep != []
    ensures AllCutLeftmost(Split(text, sep), sep)
    decreases |text|
  {
    var i := Find(text, sep);
    if i == -1 {
      FindNothing(text, sep);
      assert [text][0..] == [text];
    } else {
      var rest := Split(text[i + |sep|..], sep);
      SplitCutsLeftmost(text[i + |sep|..], sep);
      JoinSplit(text, sep);
      forall k | k < i ensures !OccursAt(text, sep, k) {
        if OccursAt(text, sep, k) { FindIsLeftmost(text, sep, k); }
      }
      AllCutCons(text[..i], rest, sep);
    }
  }

  /** The parts of a split are the one way to cut the text at leftmost occurrences of the separator. */
  lemma {:induction false} SplitExactly(text: string, sep: string, parts: seq<string>)
    requires sep != []
    ensures parts == Split(text, sep) <==> parts != [] && Join(parts, sep) == text && AllCutLeftmost(parts, sep)
    decreases |parts|
  {
    JoinSplit(text, sep);
    SplitCutsLeftmost(text, sep);
    if parts != [] && Join(parts, sep) == text && AllCutLeftmost(parts, sep) {
      assert parts[0..] == parts && CutLeftmost(parts[0..], sep);
      if |parts| == 1 {
        FindNothing(text, sep);
      } else {
        var p, rest := parts[0], parts[1..];
        assert parts == [p] + rest;
        AllCutCons(p, rest, sep);
        FirstCut(p, rest, sep);
        SplitExactly(Join(rest, sep), sep, rest);
      }
    }
  }

  lemma {:induction false} FirstCut(p: string, rest: seq<string>, sep: string)
    requires sep != [] && rest != [] && CutLeftmost([p] + rest, sep)
    ensures Split(Join([p] + rest, sep), sep) == [p] + Split(Join(rest, sep), sep)
  {
    var text := Join([p] + rest, sep);
    JoinCons(p, rest, sep);
    assert text[|p|..|p| + |sep|] == sep && OccursAt(text, sep, |p|);
    FindIsLeftmost(text, sep, |p|);
    assert Find(text, sep) == |p|;
    assert text[..|p|] == p && text[|p| + |sep|..] == Join(rest, sep);
  }

  lemma {:induction false} FindChar(text: string, c: char)
    ensures Find(text, [c]) == -1 <==> c !in text
    ensures var i := Find(text, [c]); i != -1 ==> i < |text| && text[i] == c && c !in text[..i]
  {
    var i := Find(text, [c]);
    forall k | 0 <= k < |text| && text[k] == c ensures 0 <= i <= k {
      assert text[k..k + 1] == [c];
      FindIsLeftmost(text, [c], k);
    }
    if i != -1 { assert text[i..i + 1][0] == c; }
  }

  /** Splitting at a character yields parts without it. */
  lemma {:induction false} SplitParts(text: string, c: char)
    ensures forall i :: 0 <= i < |Split(text, [c])| ==> c !in Split(text, [c])[i]
    decreases |text|
  {
    FindChar(text, c);
    var i := Find(text, [c]);
    if i != -1 { SplitParts(text[i + 1..], c); }
  }

  lemma {:induction false} SplitAt(p: string, c: char, rest: string)
    requires c !in p
    ensures Split(p + [c] + rest, [c]) == [p] + Split(rest, [c])
  {
    var text := p + [c] + rest;
    FindChar(text, c);
    var i := Find(text, [c]);
    assert text[|p|] == c;
    assert i == |p| by {
      assert forall k :: 0 <= k < |p| ==> text[k] == p[k];
      assert forall k :: 0 <= k < i ==> text[..i][k] == text[k];
    }
    assert text[..i] == p && text[i + 1..] == rest;
  }

  /** Split undoes join when no part contains the separator. */
  lemma {:induction false} SplitJoin(parts: seq<string>, c: char)
    requires parts != [] && forall i :: 0 <= i < |parts| ==> c !in parts[i]
    ensures Split(Join(parts, [c]), [c]) == parts
    decreases |parts|
  {
    if |parts| == 1 {
      FindChar(parts[0], c);
    } else {
      SplitJoin(parts[1..], c);
      SplitAt(parts[0], c, Join(parts[1..], [c]));
    }
  }

  // ----- Parts that each end with the separator

  function Terminated(parts: seq<string>, sep: string): string {
    if parts == [] then []
    else Terminated(parts[..|parts| - 1], sep) + parts[|parts| - 1] + sep
  }

  lemma {:induction false} TerminatedJoin(parts: seq<string>, sep: string)
    requires parts != []
    ensures Terminated(parts, sep) == Join(parts, sep) + sep
    decreases |parts|
  {
    if |parts| == 1 {
      assert parts[..0] == [];
    } else {
      TerminatedJoin(parts[1..], sep);
      TerminatedCons(parts, sep);
    }
  }

  lemma {:induction false} TerminatedCons(parts: seq<string>, sep: string)
    requires parts != []
    ensures Terminated(parts, sep) == parts[0] + sep + Terminated(parts[1..], sep)
    decreases |parts|
  {
    var n := |parts| - 1;
    if n > 0 {
      TerminatedCons(parts[..n], sep);
      assert parts[..n][1..] == parts[1..][..n - 1];
    }
  }

  lemma {:induction false} TerminatedSplit(text: string, sep: string)
    requires sep != []
    ensures Terminated(Split(text, sep), sep) == text + sep
  {
    JoinSplit(text, sep);
    TerminatedJoin(Split(text, sep), sep);
  }

  lemma {:induction false} TerminatedPrefix(parts: seq<string>, sep: string, i: nat)
    requires i <= |parts|
    ensures Terminated(parts[..i], sep) <= Terminated(parts, sep)
    decreases |parts| - i
  {
    if i == |parts| {
      assert parts[..i] == parts;
    } else {
      TerminatedPrefix(parts, sep, i + 1);
      assert parts[..i + 1][..i] == parts[..i];
    }
  }
}
