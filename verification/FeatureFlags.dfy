/** Feature flags kept as a comma-joined string (app/core/config/feature_flags.py). */
module FeatureFlags {
  import opened Sequences
  import opened Text

  const KNOWN_FLAGS: seq<string> := [
    "workflow_v2", "langgraph_runtime", "conditional_edges", "ragas_multi_turn", "agent_evaluation",
    "prompt_evaluation", "kafka_events", "semantic_cache", "distributed_locks", "enhanced_audit",
    "pii_detection", "prompt_injection_guard"
  ]

  /** The trimmed non-empty names among `parts`. */
  function Names(parts: seq<string>): set<string> {
    set i | 0 <= i < |parts| && Strip(parts[i]) != [] :: Strip(parts[i])
  }

  /** `_get_enabled_set`. */
  function Parse(features: string): set<string> {
    Names(Split(features, ","))
  }

  /** `is_enabled`. */
  predicate IsOn(features: string, flag: string) {
    "*" in Parse(features) || flag in Parse(features)
  }

  /** Names that survive printing and parsing. */
  ghost predicate Clean(name: string) {
    name != [] && Trimmed(name) && ',' !in name
  }

  /** `text` is `",".join(names)` for some iteration order of the set. */
  ghost predicate Prints(text: string, names: set<string>) {
    exists order :: Distinct(order) && Elements(order) == names && text == Join(order, ",")
  }

  // ----- Parsing what was printed

  lemma {:induction false} SplitConcat(a: string, b: string, c: char)
    ensures Split(a + [c] + b, [c]) == Split(a, [c]) + Split(b, [c])
  {
    var p, q := Split(a, [c]), Split(b, [c]);
    JoinSplit(a, [c]);
    JoinSplit(b, [c]);
    JoinConcat(p, q, [c]);
    SplitParts(a, c);
    SplitParts(b, c);
    SplitJoin(p + q, c);
  }

  lemma {:induction false} NamesConcat(a: seq<string>, b: seq<string>)
    ensures Names(a + b) == Names(a) + Names(b)
  {
    forall n | n in Names(a) ensures n in Names(a + b) {
      var i :| 0 <= i < |a| && Strip(a[i]) == n && n != [];
      assert (a + b)[i] == a[i];
    }
    forall n | n in Names(b) ensures n in Names(a + b) {
      var i :| 0 <= i < |b| && Strip(b[i]) == n && n != [];
      assert (a + b)[|a| + i] == b[i];
    }
  }

  ghost function ParseAll(order: seq<string>): set<string> {
    if order == [] then {} else Parse(order[0]) + ParseAll(order[1..])
  }

  /** Parsing a joined list yields the union of what its members parse to. */
  lemma {:induction false} ParseJoin(order: seq<string>)
    ensures Parse(Join(order, ",")) == ParseAll(order)
    decreases |order|
  {
    if order == [] {
      FindChar([], ',');
      assert Split([], ",") == [[]];
    } else if |order| == 1 {
      assert order[1..] == [];
    } else {
      ParseJoin(order[1..]);
      SplitConcat(order[0], Join(order[1..], ","), ',');
      NamesConcat(Split(order[0], ","), Split(Join(order[1..], ","), ","));
    }
  }

  lemma {:induction false} ParseClean(name: string)
    requires Clean(name)
    ensures Parse(name) == {name}
  {
    FindChar(name, ',');
    StripOfTrimmed(name);
    var parts := Split(name, ",");
    assert parts == [name];
    assert Strip(parts[0]) == name;
  }

  /** Whitespace around a name does not matter. */
  lemma {:induction false} ParsePadded(u: string, name: string, v: string)
    requires Clean(name) && AllSpace(u) && AllSpace(v)
    ensures Parse(u + name + v) == {name}
  {
    var text := u + name + v;
    assert ',' !in text;
    FindChar(text, ',');
    var parts := Split(text, ",");
    assert parts == [text];
    assert TrimmedTo(text, |u|, |u| + |name|, name) by {
      assert text[..|u|] == u && text[|u| + |name|..] == v;
    }
    StripExactly(text, name);
    assert Strip(parts[0]) == name;
  }

  /** A part of whitespace alone names nothing. */
  lemma {:induction false} ParseBlank(u: string)
    requires AllSpace(u)
    ensures Parse(u) == {}
  {
    assert ',' !in u;
    FindChar(u, ',');
    assert Split(u, ",") == [u];
    StripEmpty(u);
  }

  /** Everything parsed is clean. */
  lemma {:induction false} ParsedIsClean(features: string, name: string)
    requires name in Parse(features)
    ensures Clean(name)
  {
    var parts := Split(features, ",");
    var i :| 0 <= i < |parts| && Strip(parts[i]) == name && name != [];
    SplitParts(features, ',');
    StripTrims(parts[i]);
  }

  lemma {:induction false} ParseAllElements(order: seq<string>, name: string)
    requires forall x :: x in order && x != name ==> Clean(x)
    ensures ParseAll(order) == (Elements(order) - {name}) + if name in order then Parse(name) else {}
  {
    if order != [] {
      var x, rest := order[0], order[1..];
      ParseAllElements(rest, name);
      assert order == [x] + rest;
      assert Elements(order) == {x} + Elements(rest);
      if x == name {
        assert Elements(order) - {name} == Elements(rest) - {name};
      } else {
        ParseClean(x);
        assert Elements(order) - {name} == {x} + (Elements(rest) - {name});
      }
    }
  }

  /** Printing a parsed set, with one more arbitrary name, and parsing again. */
  lemma {:induction false} PrintParse(features: string, name: string, names: set<string>, text: string)
    requires names <= Parse(features) + {name} && Prints(text, names)
    ensures Parse(text) == (names - {name}) + if name in names then Parse(name) else {}
  {
    var order :| Distinct(order) && Elements(order) == names && text == Join(order, ",");
    forall x | x in order && x != name ensures Clean(x) {
      assert x in Elements(order);
      ParsedIsClean(features, x);
    }
    ParseJoin(order);
    ParseAllElements(order, name);
    assert name in order <==> name in Elements(order);
  }

  /** What `enable` does to the parsed set, for any name. */
  lemma {:induction false} AfterEnable(features: string, name: string, text: string)
    requires Prints(text, Parse(features) + {name})
    ensures Parse(text) == Parse(features) + Parse(name)
  {
    PrintParse(features, name, Parse(features) + {name}, text);
    if name in Parse(features) {
      ParsedIsClean(features, name);
      ParseClean(name);
    }
  }

  /** What `disable` does to the parsed set, for any name. */
  lemma {:induction false} AfterDisable(features: string, name: string, text: string)
    requires Prints(text, Parse(features) - {name})
    ensures Parse(text) == Parse(features) - {name}
  {
    PrintParse(features, name, Parse(features) - {name}, text);
  }

  /** What `is_enabled` answers after `enable`: the flag was on, or the given name alone turns it on. */
  lemma {:induction false} QueryAfterEnable(features: string, name: string, text: string, flag: string)
    requires Prints(text, Parse(features) + {name})
    ensures IsOn(text, flag) <==> IsOn(features, flag) || IsOn(name, flag)
    ensures IsOn(text, name) <==> IsOn(features, name) || Clean(name) || "*" in Parse(name)
  {
    AfterEnable(features, name, text);
    if Clean(name) {
      ParseClean(name);
    } else if name in Parse(name) {
      ParsedIsClean(name, name);
    }
  }

  /** What `is_enabled` answers after `disable`: under the wildcard a disabled flag stays on. */
  lemma {:induction false} QueryAfterDisable(features: string, name: string, text: string, flag: string)
    requires Prints(text, Parse(features) - {name})
    ensures name == "*" ==> (IsOn(text, flag) <==> flag != "*" && flag in Parse(features))
    ensures name != "*" && flag != name ==> (IsOn(text, flag) <==> IsOn(features, flag))
    ensures IsOn(text, name) <==> name != "*" && IsOn(features, "*")
  {
    AfterDisable(features, name, text);
  }

  /** With the wildcard enabled, any other name survives its `disable`. */
  lemma {:induction false} DisableUnderWildcard(name: string) returns (features: string, text: string)
    requires name != "*"
    ensures Prints(text, Parse(features) - {name}) && IsOn(text, name)
  {
    features, text := "*", "*";
    ParseClean("*");
    assert Elements(["*"]) == {"*"} && Parse(features) - {name} == {"*"};
    assert Prints(text, {"*"}) by {
      assert Distinct(["*"]) && text == Join(["*"], ",");
    }
    QueryAfterDisable(features, name, text, name);
  }

  /** `enable` adds exactly the given name if and only if the name is clean. */
  lemma {:induction false} EnableExact(features: string, name: string, text: string)
    requires Prints(text, Parse(features) + {name})
    ensures Parse(text) == Parse(features) + {name} <==> Clean(name)
  {
    AfterEnable(features, name, text);
    if Clean(name) {
      ParseClean(name);
    } else if name in Parse(text) {
      ParsedIsClean(text, name);
    }
  }

  /** A name with a comma enables the two names around it and not itself. */
  lemma {:induction false} CommaName(a: string, b: string)
    requires Clean(a) && Clean(b)
    ensures Parse(a + "," + b) == {a, b} && a + "," + b !in {a, b}
  {
    SplitConcat(a, b, ',');
    NamesConcat(Split(a, ","), Split(b, ","));
    ParseClean(a);
    ParseClean(b);
    assert |a + "," + b| > |a| && |a + "," + b| > |b|;
  }

  // ----- The settings object

  method Enumerate(names: set<string>) returns (order: seq<string>)
    ensures Distinct(order) && Elements(order) == names
  {
    order := [];
    var rest := names;
    while rest != {}
      invariant Distinct(order) && Elements(order) == names - rest && rest <= names
      decreases |rest|
    {
      var x :| x in rest;
      assert x !in Elements(order);
      assert Elements(order + [x]) == Elements(order) + {x};
      order := order + [x];
      rest := rest - {x};
    }
  }

  class Flags {
    var enabledFeatures: string

    method Enable(flag: string)
      modifies this
      ensures Parse(enabledFeatures) == old(Parse(enabledFeatures)) + Parse(flag)
      ensures Clean(flag) ==> Parse(enabledFeatures) == old(Parse(enabledFeatures)) + {flag}
      ensures Prints(enabledFeatures, old(Parse(enabledFeatures)) + {flag})
    {
      var enabled := Parse(enabledFeatures);
      enabled := enabled + {flag};
      var order := Enumerate(enabled);
      AfterEnable(enabledFeatures, flag, Join(order, ","));
      EnableExact(enabledFeatures, flag, Join(order, ","));
      enabledFeatures := Join(order, ",");
    }

    method Disable(flag: string)
      modifies this
      ensures Parse(enabledFeatures) == old(Parse(enabledFeatures)) - {flag}
      ensures Prints(enabledFeatures, old(Parse(enabledFeatures)) - {flag})
    {
      var enabled := Parse(enabledFeatures);
      enabled := enabled - {flag};
      var order := Enumerate(enabled);
      AfterDisable(enabledFeatures, flag, Join(order, ","));
      enabledFeatures := Join(order, ",");
    }

    /** Every known flag is listed, and its entry is what `is_enabled` answers. */
    method GetAllFlags() returns (r: map<string, bool>)
      ensures r.Keys == Elements(KNOWN_FLAGS)
      ensures forall flag :: flag in KNOWN_FLAGS ==> r[flag] == IsOn(enabledFeatures, flag)
    {
      var enabled := Parse(enabledFeatures);
      r := map flag | flag in KNOWN_FLAGS :: flag in enabled || "*" in enabled;
    }
  }

  // ----- Whole runs against an abstract set

  datatype Op = On(name: string) | Off(name: string)

  /** The set that the code prints back. */
  function Target(names: set<string>, op: Op): set<string> {
    match op
    case On(n) => names + {n}
    case Off(n) => names - {n}
  }

  /** What one operation means: `enable` adds what its name parses to. */
  function Meaning(names: set<string>, op: Op): set<string> {
    match op
    case On(n) => names + Parse(n)
    case Off(n) => names - {n}
  }

  function Abstract(names: set<string>, ops: seq<Op>): set<string> {
    if ops == [] then names else Meaning(Abstract(names, ops[..|ops| - 1]), ops[|ops| - 1])
  }

  /** The same with every name taken as it is. */
  function Literal(names: set<string>, ops: seq<Op>): set<string> {
    if ops == [] then names else Target(Literal(names, ops[..|ops| - 1]), ops[|ops| - 1])
  }

  ghost predicate Follows(texts: seq<string>, ops: seq<Op>, i: nat)
    requires i < |ops| && i + 1 < |texts|
  {
    Prints(texts[i + 1], Target(Parse(texts[i]), ops[i]))
  }

  /** `texts` are the stored strings before and after each operation, joined in any order. */
  ghost predicate IsRun(texts: seq<string>, ops: seq<Op>) {
    && |texts| == |ops| + 1
    && forall i :: 0 <= i < |ops| ==> Follows(texts, ops, i)
  }

  /** The string refines the abstract set over every run. */
  lemma {:induction false} RunRefinesSet(texts: seq<string>, ops: seq<Op>)
    requires IsRun(texts, ops)
    ensures Parse(texts[|ops|]) == Abstract(Parse(texts[0]), ops)
    decreases |ops|
  {
    if ops != [] {
      var n := |ops| - 1;
      var texts', ops' := texts[..n + 1], ops[..n];
      forall i | 0 <= i < n ensures Follows(texts', ops', i) {
        assert Follows(texts, ops, i);
      }
      RunRefinesSet(texts', ops');
      assert Follows(texts, ops, n);
      match ops[n]
      case On(name) => AfterEnable(texts[n], name, texts[n + 1]);
      case Off(name) => AfterDisable(texts[n], name, texts[n + 1]);
    }
  }

  lemma {:induction false} CleanIsLiteral(names: set<string>, ops: seq<Op>)
    requires forall i :: 0 <= i < |ops| && ops[i].On? ==> Clean(ops[i].name)
    ensures Abstract(names, ops) == Literal(names, ops)
    decreases |ops|
  {
    if ops != [] {
      CleanIsLiteral(names, ops[..|ops| - 1]);
      if ops[|ops| - 1].On? {
        ParseClean(ops[|ops| - 1].name);
      }
    }
  }

  /** If every enabled name is clean, each name is added and removed as it is. */
  lemma {:induction false} CleanRunRefinesSet(texts: seq<string>, ops: seq<Op>)
    requires IsRun(texts, ops) && forall i :: 0 <= i < |ops| && ops[i].On? ==> Clean(ops[i].name)
    ensures Parse(texts[|ops|]) == Literal(Parse(texts[0]), ops)
  {
    RunRefinesSet(texts, ops);
    CleanIsLiteral(Parse(texts[0]), ops);
  }
}
