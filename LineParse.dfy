/** What Environments.parse does line by line: a comment changes nothing,
    a header selects (and if new, creates) an environment, an assignment
    adds a value to the selected one or reports a redefinition, and any
    other line, or an assignment before the first header, adds a syntax
    error. Parsing never loses anything, and a parsed store never holds a
    negative index, so a clean check of a parsed store is enough for
    asdict to succeed. */
module LineParse {
  import opened Wrappers
  import opened Text
  import opened Literals
  import opened LineSyntax
  import opened LineModel
  import opened LineCheck

  /** Record f is record e with, at most, values appended. */
  predicate Grows(e: EnvData, f: EnvData) {
    && f.name == e.name && f.parents == e.parents && f.filename == e.filename && f.lineno == e.lineno
    && |e.values| <= |f.values| && f.values[..|e.values|] == e.values
  }

  /** State b extends state a: errors are only appended, no environment
      disappears, and each keeps its header data and its earlier values. */
  predicate Extends(a: ParseState, b: ParseState) {
    && |a.errors| <= |b.errors| && b.errors[..|a.errors|] == a.errors
    && forall n :: n in a.store ==> n in b.store && Grows(a.store[n], b.store[n])
  }

  lemma ExtendsTransitive(a: ParseState, b: ParseState, c: ParseState)
    requires Extends(a, b) && Extends(b, c)
    ensures Extends(a, c)
  {
    assert c.errors[..|b.errors|][..|a.errors|] == c.errors[..|a.errors|];
    forall n | n in a.store ensures n in c.store && Grows(a.store[n], c.store[n]) {
      var e, f, g := a.store[n], b.store[n], c.store[n];
      assert g.values[..|f.values|][..|e.values|] == g.values[..|e.values|];
    }
  }

  /** One line never loses an error, an environment or a value. */
  lemma ParseLineExtends(ps: ParseState, filename: string, lineno: int, raw: string)
    requires ParseOk(ps)
    ensures Extends(ps, ParseLine(ps, filename, lineno, raw))
  {
    var line := RStrip(raw);
    if IsComment(line) {
      ExtendsSelf(ps);
    } else if MatchHeader(line).Some? {
      HeaderExtends(ps, filename, lineno, raw, MatchHeader(line).value);
    } else if MatchAssignment(line).Some? && ps.cur.Some? {
      AssignmentExtends(ps, filename, lineno, raw, MatchAssignment(line).value);
    } else {
      SyntaxErrorLine(ps, filename, lineno, raw);
      var r := ParseLine(ps, filename, lineno, raw);
      assert r.errors[..|ps.errors|] == ps.errors;
      ExtendsSelf(ps);
    }
  }

  lemma HeaderExtends(ps: ParseState, filename: string, lineno: int, raw: string, h: Header)
    requires ParseOk(ps) && MatchHeader(RStrip(raw)) == Some(h)
    ensures Extends(ps, ParseLine(ps, filename, lineno, raw))
  {
    HeaderLine(ps, filename, lineno, raw, h);
    var r := ParseLine(ps, filename, lineno, raw);
    ExtendsSelf(ps);
    ExtendsByStore(ps, r);
  }

  lemma AssignmentExtends(ps: ParseState, filename: string, lineno: int, raw: string, a: Assignment)
    requires ParseOk(ps) && MatchAssignment(RStrip(raw)) == Some(a) && ps.cur.Some?
    ensures Extends(ps, ParseLine(ps, filename, lineno, raw))
  {
    LineIsAssignment(ps, filename, lineno, raw, a);
    AssignStepExtends(ps, filename, lineno, a);
  }

  lemma AssignStepExtends(ps: ParseState, filename: string, lineno: int, a: Assignment)
    requires ParseOk(ps) && ps.cur.Some?
    ensures Extends(ps, AssignStep(ps, filename, lineno, a))
  {
    AssignStepEffect(ps, filename, lineno, a);
    var r := AssignStep(ps, filename, lineno, a);
    var e := ps.store[ps.cur.value];
    assert r.store[ps.cur.value].values[..|e.values|] == e.values;
    assert r.errors[..|ps.errors|] == ps.errors;
    ExtendsSelf(ps);
  }

  lemma ExtendsSelf(ps: ParseState)
    ensures Extends(ps, ps)
  {
    assert ps.errors[..|ps.errors|] == ps.errors;
    forall n | n in ps.store ensures Grows(ps.store[n], ps.store[n]) {
      assert ps.store[n].values[..|ps.store[n].values|] == ps.store[n].values;
    }
  }

  /** Adding a record under a new name, or adding an error, loses nothing. */
  lemma ExtendsByStore(ps: ParseState, r: ParseState)
    requires Extends(ps, ps)
    requires |ps.errors| <= |r.errors| && r.errors[..|ps.errors|] == ps.errors
    requires forall n :: n in ps.store ==> n in r.store && r.store[n] == ps.store[n]
    ensures Extends(ps, r)
  {
  }

  /** Parsing more lines never loses anything. */
  lemma {:induction false} ParseLinesExtends(ps: ParseState, filename: string, lines: seq<string>)
    requires ParseOk(ps)
    ensures Extends(ps, ParseLines(ps, filename, lines))
    decreases |lines|
  {
    if |lines| == 0 {
      ExtendsSelf(ps);
    } else {
      var prev := ParseLines(ps, filename, lines[..|lines| - 1]);
      ParseLinesExtends(ps, filename, lines[..|lines| - 1]);
      ParseLineExtends(prev, filename, |lines|, lines[|lines| - 1]);
      ExtendsTransitive(ps, prev, ParseLines(ps, filename, lines));
    }
  }

  /** Parsing one more line is parsing that line in the state reached. */
  lemma ParseLinesStep(ps: ParseState, filename: string, lines: seq<string>, i: nat)
    requires ParseOk(ps) && i < |lines|
    ensures ParseLines(ps, filename, lines[..i + 1]) == ParseLine(ParseLines(ps, filename, lines[..i]), filename, i + 1, lines[i])
  {
    assert lines[..i + 1][..i] == lines[..i];
  }

  /** A blank line or a comment changes nothing. */
  lemma CommentLine(ps: ParseState, filename: string, lineno: int, raw: string)
    requires ParseOk(ps) && IsComment(RStrip(raw))
    ensures ParseLine(ps, filename, lineno, raw) == ps
  {
  }

  /** A header selects its environment. A new name gets an empty record
      with the header's parents; a known name keeps its record, and an
      error is added exactly when the parent list differs. */
  lemma HeaderLine(ps: ParseState, filename: string, lineno: int, raw: string, h: Header)
    requires ParseOk(ps) && MatchHeader(RStrip(raw)) == Some(h)
    ensures var r := ParseLine(ps, filename, lineno, raw);
      var parents := if h.parents.Some? then h.parents.value else [];
      && r.cur == Some(h.name)
      && (h.name !in ps.store ==>
            r.store == ps.store[h.name := EnvData(h.name, parents, [], filename, lineno)] && r.errors == ps.errors)
      && (h.name in ps.store && parents == ps.store[h.name].parents ==>
            r.store == ps.store && r.errors == ps.errors)
      && (h.name in ps.store && parents != ps.store[h.name].parents ==>
            r.store == ps.store && r.errors == ps.errors + [EnvRedefinitionMsg(filename, lineno, h.name)])
  {
    LineIsHeader(ps, filename, lineno, raw, h);
  }

  lemma LineIsHeader(ps: ParseState, filename: string, lineno: int, raw: string, h: Header)
    requires ParseOk(ps) && MatchHeader(RStrip(raw)) == Some(h)
    ensures ParseLine(ps, filename, lineno, raw) == HeaderStep(ps, filename, lineno, h)
  {
    LineKindsExclusive(RStrip(raw));
  }

  /** An assignment under a header adds its value to the selected
      environment, unless that environment already holds the key, which is
      an error; nothing else changes. */
  lemma AssignmentLine(ps: ParseState, filename: string, lineno: int, raw: string, a: Assignment)
    requires ParseOk(ps) && MatchAssignment(RStrip(raw)) == Some(a) && ps.cur.Some?
    ensures var r := ParseLine(ps, filename, lineno, raw);
      var n := ps.cur.value;
      var kv := MakeKeyValue(a.key, a.value, filename, lineno);
      && r.cur == ps.cur && r.store.Keys == ps.store.Keys
      && (forall m :: m in ps.store && m != n ==> r.store[m] == ps.store[m])
      && (HasKey(ps.store[n].values, kv.key) ==>
            r.store == ps.store && r.errors == ps.errors + [ValueRedefinitionMsg(filename, lineno, a.key)])
      && (!HasKey(ps.store[n].values, kv.key) ==>
            r.store[n] == ps.store[n].(values := ps.store[n].values + [kv]) && r.errors == ps.errors)
  {
    LineIsAssignment(ps, filename, lineno, raw, a);
    AssignStepEffect(ps, filename, lineno, a);
  }

  lemma LineIsAssignment(ps: ParseState, filename: string, lineno: int, raw: string, a: Assignment)
    requires ParseOk(ps) && MatchAssignment(RStrip(raw)) == Some(a) && ps.cur.Some?
    ensures ParseLine(ps, filename, lineno, raw) == AssignStep(ps, filename, lineno, a)
  {
    LineKindsExclusive(RStrip(raw));
  }

  lemma AssignStepEffect(ps: ParseState, filename: string, lineno: int, a: Assignment)
    requires ParseOk(ps) && ps.cur.Some?
    ensures var r := AssignStep(ps, filename, lineno, a);
      var n := ps.cur.value;
      var kv := MakeKeyValue(a.key, a.value, filename, lineno);
      && (forall m :: m in ps.store && m != n ==> r.store[m] == ps.store[m])
      && (HasKey(ps.store[n].values, kv.key) ==>
            r.store == ps.store && r.errors == ps.errors + [ValueRedefinitionMsg(filename, lineno, a.key)])
      && (!HasKey(ps.store[n].values, kv.key) ==>
            r.store[n] == ps.store[n].(values := ps.store[n].values + [kv]) && r.errors == ps.errors)
  {
  }

  /** Any other line, and an assignment before the first header, adds one
      syntax error quoting the stripped line; nothing else changes. */
  lemma SyntaxErrorLine(ps: ParseState, filename: string, lineno: int, raw: string)
    requires ParseOk(ps)
    requires var line := RStrip(raw);
      !IsComment(line) && MatchHeader(line).None? && (MatchAssignment(line).None? || ps.cur.None?)
    ensures ParseLine(ps, filename, lineno, raw) ==
            ps.(errors := ps.errors + [SyntaxMsg(filename, lineno, RStrip(raw))])
  {
  }

  /** Every line of the assignment grammar can reach the store: parsed
      keys hold only names and non-negative indexes. */
  lemma {:induction false} ParseLinesNonNeg(ps: ParseState, filename: string, lines: seq<string>)
    requires ParseOk(ps) && NonNegStore(ps.store)
    ensures NonNegStore(ParseLines(ps, filename, lines).store)
    decreases |lines|
  {
    if |lines| > 0 {
      var prev := ParseLines(ps, filename, lines[..|lines| - 1]);
      ParseLinesNonNeg(ps, filename, lines[..|lines| - 1]);
      ParseLineNonNeg(prev, filename, |lines|, lines[|lines| - 1]);
    }
  }

  lemma ParseLineNonNeg(ps: ParseState, filename: string, lineno: int, raw: string)
    requires ParseOk(ps) && NonNegStore(ps.store)
    ensures NonNegStore(ParseLine(ps, filename, lineno, raw).store)
  {
    var line := RStrip(raw);
    if IsComment(line) {
      CommentLine(ps, filename, lineno, raw);
    } else if MatchHeader(line).Some? {
      HeaderLine(ps, filename, lineno, raw, MatchHeader(line).value);
    } else if MatchAssignment(line).Some? && ps.cur.Some? {
      LineIsAssignment(ps, filename, lineno, raw, MatchAssignment(line).value);
      AssignStepNonNeg(ps, filename, lineno, MatchAssignment(line).value);
    } else {
      SyntaxErrorLine(ps, filename, lineno, raw);
    }
  }

  lemma AssignStepNonNeg(ps: ParseState, filename: string, lineno: int, a: Assignment)
    requires ParseOk(ps) && NonNegStore(ps.store) && ps.cur.Some? && IsKeyText(a.key)
    ensures NonNegStore(AssignStep(ps, filename, lineno, a).store)
  {
    var r := AssignStep(ps, filename, lineno, a);
    var kv := MakeKeyValue(a.key, a.value, filename, lineno);
    KeyNonNeg(a.key);
    AssignStepEffect(ps, filename, lineno, a);
    var n := ps.cur.value;
    forall m, i | m in r.store && 0 <= i < |r.store[m].values| ensures NonNegKey(r.store[m].values[i].key) {
      if m == n && i == |ps.store[n].values| {
        assert r.store[m].values[i] == kv;
      } else {
        assert r.store[m].values[i] == ps.store[m].values[i];
      }
    }
  }

  /** A key of the assignment grammar parses to names and digit runs. */
  lemma KeyNonNeg(k: string)
    requires IsKeyText(k)
    ensures NonNegKey(ParseKey(k))
  {
    KeyTextSegments(k);
  }

  /** The command line's guarantee for environment files: after parsing,
      when check() over the given environments records no error, asdict
      succeeds for each of them, holding exactly the keys of the values
      handed on, each with the last value written for it. */
  lemma ParsedCleanCheckAsDict(filename: string, lines: seq<string>, names: seq<string>, name: string)
    requires var st := ParseLines(ParseState(map[], None, []), filename, lines).store;
      && (forall i :: 0 <= i < |names| ==> names[i] in st)
      && name in names && CheckNames(st, names, []) == []
    ensures var st := ParseLines(ParseState(map[], None, []), filename, lines).store;
      var out := IterateValues(st, name, []).value.out;
      && AsDict(st, name).Ok?
      && LastWins(out, AsDict(st, name).value) && LeavesFrom(out, AsDict(st, name).value)
  {
    var ps := ParseState(map[], None, []);
    ParseLinesNonNeg(ps, filename, lines);
    var st := ParseLines(ps, filename, lines).store;
    CleanCheckAsDict(st, names, name);
  }
}
