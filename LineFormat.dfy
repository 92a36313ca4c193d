/** The objects of the current engine (template_specialize/environment.py):
    an Environment whose value list add_value appends to, and the
    Environments dictionary whose methods parse a file into it, check it
    and build the template variables of one environment. Each method is
    proved to compute the function of LineModel that describes it, so the
    theorems of LineCheck and LineParse hold for these objects. */
module LineFormat {
  import opened Wrappers
  import opened Text
  import opened Literals
  import opened LineSyntax
  import opened LineModel
  import opened LineParse

  /** Environment: a name, parents and the place of its header are fixed;
      the value list grows. */
  class Environment {
    const name: string
    const parents: seq<string>
    var values: seq<KeyValue>
    const filename: string
    const lineno: int

    constructor (name: string, parents: seq<string>, filename: string, lineno: int)
      ensures Data() == EnvData(name, parents, [], filename, lineno)
    {
      this.name := name;
      this.parents := parents;
      this.values := [];
      this.filename := filename;
      this.lineno := lineno;
    }

    function Data(): EnvData
      reads this
    {
      EnvData(name, parents, values, filename, lineno)
    }

    /** add_value: append the parsed value unless the key is already held,
        which is reported instead. */
    method AddValue(keyStr: string, valueStr: string, filename: string, lineno: int, errors: seq<string>)
      returns (added: Option<KeyValue>, errs: seq<string>)
      modifies this
      ensures var kv := MakeKeyValue(keyStr, valueStr, filename, lineno);
        && (Data(), errs) == AddValueTo(old(Data()), kv, keyStr, errors)
        && added == (if HasKey(old(values), kv.key) then None else Some(kv))
    {
      var kv := MakeKeyValue(keyStr, valueStr, filename, lineno);
      if HasKey(values, kv.key) {
        errs := errors + [ValueRedefinitionMsg(filename, lineno, keyStr)];
        added := None;
      } else {
        values := values + [kv];
        errs := errors;
        added := Some(kv);
      }
    }
  }

  /** The name an optional current environment goes by. */
  function NameOf(cur: Option<Environment>): Option<string> {
    if cur.Some? then Some(cur.value.name) else None
  }

  /** Environments: the dictionary from names to Environment objects. */
  class Environments {
    var envs: map<string, Environment>

    constructor ()
      ensures Valid() && envs == map[]
    {
      envs := map[];
    }

    /** Every environment is filed under its own name (so two names never
        share an object) and holds a well-formed record. */
    ghost predicate Valid()
      reads this, envs.Values
    {
      (forall n :: n in envs ==> envs[n].name == n) && StoreOk(State())
    }

    /** The records the objects hold. */
    function State(): (st: Store)
      reads this, envs.Values
      ensures st.Keys == envs.Keys
    {
      map n | n in envs :: envs[n].Data()
    }

    /** add_environment: a known name keeps its object (a different
        parent list is reported); a new name gets a new, empty one. */
    method AddEnvironment(name: string, parents: seq<string>, filename: string, lineno: int, errors: seq<string>)
      returns (env: Environment, errs: seq<string>)
      requires Valid()
      modifies this
      ensures Valid()
      ensures (State(), errs) == AddEnvironmentTo(old(State()), name, parents, filename, lineno, errors)
      ensures name in envs && envs[name] == env
      ensures name in old(envs) ==> envs == old(envs)
      ensures name !in old(envs) ==> fresh(env) && envs == old(envs)[name := env]
    {
      if name in envs {
        env := envs[name];
        errs := if parents != env.parents then errors + [EnvRedefinitionMsg(filename, lineno, name)] else errors;
      } else {
        env := new Environment(name, parents, filename, lineno);
        envs := envs[name := env];
        errs := errors;
        assert State() == old(State())[name := env.Data()];
      }
    }

    /** parse: each line in turn, numbered from 1, with the environment
        of the last header receiving assignments. */
    method Parse(lines: seq<string>, filename: string, errors: seq<string>) returns (errs: seq<string>)
      requires Valid()
      modifies this, envs.Values
      ensures Valid()
      ensures var r := ParseLines(ParseState(old(State()), None, errors), filename, lines);
        State() == r.store && errs == r.errors
    {
      errs := errors;
      var cur: Option<Environment> := None;
      var i := 0;
      while i < |lines|
        invariant 0 <= i <= |lines|
        invariant Valid()
        invariant forall n :: n in envs ==> envs[n] in old(envs.Values) || fresh(envs[n])
        invariant cur.Some? ==> cur.value.name in envs && envs[cur.value.name] == cur.value
        invariant ParseLines(ParseState(old(State()), None, errors), filename, lines[..i]) ==
                  ParseState(State(), NameOf(cur), errs)
      {
        ParseLinesStep(ParseState(old(State()), None, errors), filename, lines, i);
        cur, errs := ParseOneLine(cur, filename, i + 1, lines[i], errs);
        i := i + 1;
      }
      assert lines[..|lines|] == lines;
    }

    /** One line of parse. */
    method ParseOneLine(cur: Option<Environment>, filename: string, lineno: int, raw: string, errors: seq<string>)
      returns (cur': Option<Environment>, errs: seq<string>)
      requires Valid()
      requires cur.Some? ==> cur.value.name in envs && envs[cur.value.name] == cur.value
      modifies this, envs.Values
      ensures Valid()
      ensures forall n :: n in envs ==> envs[n] in old(envs.Values) || fresh(envs[n])
      ensures cur'.Some? ==> cur'.value.name in envs && envs[cur'.value.name] == cur'.value
      ensures ParseLine(ParseState(old(State()), NameOf(cur), errors), filename, lineno, raw) ==
              ParseState(State(), NameOf(cur'), errs)
    {
      var line := RStrip(raw);
      cur', errs := cur, errors;
      ghost var ps := ParseState(State(), NameOf(cur), errors);
      if IsComment(line) {
        CommentLine(ps, filename, lineno, raw);
      } else if MatchHeader(line).Some? {
        LineIsHeader(ps, filename, lineno, raw, MatchHeader(line).value);
        cur', errs := ParseHeader(MatchHeader(line).value, cur, filename, lineno, errors);
      } else if MatchAssignment(line).Some? && cur.Some? {
        var a := MatchAssignment(line).value;
        AssignmentLine(ps, filename, lineno, raw, a);
        errs := AddToCurrent(cur.value, a, filename, lineno, errors);
      } else {
        SyntaxErrorLine(ps, filename, lineno, raw);
        errs := errors + [SyntaxMsg(filename, lineno, line)];
      }
    }

    /** A header line: add_environment, and its environment becomes the
        current one. */
    method ParseHeader(h: Header, cur: Option<Environment>, filename: string, lineno: int, errors: seq<string>)
      returns (cur': Option<Environment>, errs: seq<string>)
      requires Valid()
      requires cur.Some? ==> cur.value.name in envs && envs[cur.value.name] == cur.value
      modifies this
      ensures Valid()
      ensures forall n :: n in envs ==> envs[n] in old(envs.Values) || fresh(envs[n])
      ensures cur'.Some? ==> cur'.value.name in envs && envs[cur'.value.name] == cur'.value
      ensures HeaderStep(ParseState(old(State()), NameOf(cur), errors), filename, lineno, h) ==
              ParseState(State(), NameOf(cur'), errs)
    {
      var parents := if h.parents.Some? then h.parents.value else [];
      var env;
      env, errs := AddEnvironment(h.name, parents, filename, lineno, errors);
      cur' := Some(env);
    }

    /** An assignment line: add_value on the current environment, which
        changes that record only. */
    method AddToCurrent(env: Environment, a: Assignment, filename: string, lineno: int, errors: seq<string>)
      returns (errs: seq<string>)
      requires Valid() && env.name in envs && envs[env.name] == env
      modifies env
      ensures Valid() && envs == old(envs)
      ensures (env.Data(), errs) == AddValueTo(old(env.Data()), MakeKeyValue(a.key, a.value, filename, lineno), a.key, errors)
      ensures State() == old(State())[env.name := env.Data()]
    {
      ghost var st := State();
      var kv := MakeKeyValue(a.key, a.value, filename, lineno);
      var _, e := env.AddValue(a.key, a.value, filename, lineno, errors);
      errs := e;
      AddValueKeepsRecord(old(env.Data()), kv, a.key, errors, env.name);
      ghost var st' := st[env.name := env.Data()];
      forall m | m in envs
        ensures State()[m] == st'[m]
      {
        if m != env.name {
          assert envs[m] != env;
          assert envs[m].Data() == old(envs[m].Data());
        }
      }
      assert State() == st';
    }

    /** _iterate_values(name): hand each value of the walk over the
        parents through the checks, keeping the ones that pass. */
    method IterateValues(name: string, errors: seq<string>) returns (r: Result<Scan, Exc>)
      requires Valid()
      ensures r == LineModel.IterateValues(State(), name, errors)
    {
      r := IterateStore(State(), name, errors);
    }

    /** check: _iterate_values over every environment, in name order. */
    method Check(errors: seq<string>) returns (errs: seq<string>)
      requires Valid()
      ensures errs == CheckNames(State(), SortedKeys(State().Keys), errors)
    {
      var names := SortedNames();
      errs := CheckStore(State(), names, errors);
    }

    /** sorted(self.keys()). */
    method SortedNames() returns (names: seq<string>)
      requires Valid()
      ensures names == SortedKeys(envs.Keys)
    {
      names := [];
      var rest := envs.Keys;
      while rest != {}
        invariant names + SortedKeys(rest) == SortedKeys(envs.Keys)
        decreases |rest|
      {
        LeastExists(rest);
        var n :| IsLeast(n, rest);
        SortedKeysHead(rest, n);
        assert names + SortedKeys(rest) == (names + [n]) + SortedKeys(rest - {n});
        names := names + [n];
        rest := rest - {n};
      }
      assert names + [] == names;
    }

    /** asdict(name): write each value handed on into the growing tree. */
    method AsDict(name: string) returns (r: Result<Value, Exc>)
      requires Valid()
      ensures r == LineModel.AsDict(State(), name)
    {
      var it := IterateValues(name, []);
      if it.Err? {
        return Err(it.error);
      }
      var st := State();
      WalkKeysNonEmpty(st, name, {});
      ScanOutKeys(Scan(EmptyTables(), [], []), Walk(st, name, {}));
      var out := it.value.out;
      var dict := Dict(map[]);
      var i := 0;
      while i < |out|
        invariant 0 <= i <= |out|
        invariant Materialise(out[..i]) == Ok(dict)
      {
        assert out[..i + 1][..i] == out[..i];
        var w := Put(dict, out[i].key, out[i].value);
        if w.Err? {
          MaterialiseStops(out, i + 1);
          return Err(w.error);
        }
        dict := w.value;
        i := i + 1;
      }
      assert out[..|out|] == out;
      return Ok(dict);
    }
  }

  /** The loop of _iterate_values over the records of st. */
  method IterateStore(st: Store, name: string, errors: seq<string>) returns (r: Result<Scan, Exc>)
    requires StoreOk(st)
    ensures r == IterateValues(st, name, errors)
  {
    if name !in st {
      return Err(KeyError);
    }
    WalkKeysNonEmpty(st, name, {});
    var events := Walk(st, name, {});
    var tables := EmptyTables();
    var errs := errors;
    var out: seq<KeyValue> := [];
    var i := 0;
    while i < |events|
      invariant 0 <= i <= |events|
      invariant Scan(tables, errs, out) == ScanEvents(Scan(EmptyTables(), errors, []), events[..i])
    {
      ScanEventsSnoc(Scan(EmptyTables(), errors, []), events, i);
      tables, errs, out := ScanOne(tables, errs, out, events[i]);
      i := i + 1;
    }
    assert events[..|events|] == events;
    return Ok(Scan(tables, errs, out));
  }

  /** The loop of check over the given names. */
  method CheckStore(st: Store, names: seq<string>, errors: seq<string>) returns (errs: seq<string>)
    requires StoreOk(st) && forall j :: 0 <= j < |names| ==> names[j] in st
    ensures errs == CheckNames(st, names, errors)
  {
    errs := errors;
    var i := 0;
    while i < |names|
      invariant 0 <= i <= |names|
      invariant errs == CheckNames(st, names[..i], errors)
    {
      CheckNamesSnoc(st, names, i, errors);
      var r := IterateStore(st, names[i], errs);
      errs := r.value.errors;
      i := i + 1;
    }
    assert names[..|names|] == names;
  }

  /** One event of _iterate_values: an error from the walk is noted, a
      value is checked and handed on when it passes. */
  method ScanOne(tables: Tables, errors: seq<string>, out: seq<KeyValue>, e: Event)
    returns (tables': Tables, errs: seq<string>, out': seq<KeyValue>)
    requires e.Yield? ==> |e.kv.key| > 0
    ensures Scan(tables', errs, out') == ScanEvent(Scan(tables, errors, out), e)
  {
    tables', errs, out' := tables, errors, out;
    if e.Report? {
      if e.msg !in errs {
        errs := errs + [e.msg];
      }
    } else {
      var c := CheckKeyValue(tables, e.kv, errors);
      tables', errs := c.tables, c.errors;
      if !c.skip {
        out' := out + [e.kv];
      }
    }
  }

  lemma ScanEventsSnoc(s: Scan, events: seq<Event>, i: nat)
    requires KeysNonEmpty(events) && i < |events|
    ensures KeysNonEmpty(events[..i]) && KeysNonEmpty(events[..i + 1])
    ensures ScanEvents(s, events[..i + 1]) == ScanEvent(ScanEvents(s, events[..i]), events[i])
  {
    assert events[..i + 1][..i] == events[..i];
  }

  lemma CheckNamesSnoc(st: Store, names: seq<string>, i: nat, errors: seq<string>)
    requires StoreOk(st) && (forall j :: 0 <= j < |names| ==> names[j] in st) && i < |names|
    ensures CheckNames(st, names[..i + 1], errors) ==
            IterateValues(st, names[i], CheckNames(st, names[..i], errors)).value.errors
  {
    assert names[..i + 1][..i] == names[..i];
  }

  /** Once a write fails, building the whole tree fails the same way. */
  lemma {:induction false} MaterialiseStops(values: seq<KeyValue>, n: nat)
    requires AllKeysNonEmpty(values) && 0 < n <= |values| && Materialise(values[..n]).Err?
    ensures Materialise(values) == Materialise(values[..n])
    decreases |values| - n
  {
    if n == |values| {
      assert values[..n] == values;
    } else {
      assert values[..n + 1][..n] == values[..n];
      MaterialiseStops(values, n + 1);
    }
  }

  /** The body of _iterate_values's loop for one value: the checks at
      each proper prefix, then the check at the whole key. */
  method CheckKeyValue(tables: Tables, kv: KeyValue, errors: seq<string>) returns (c: Check)
    requires |kv.key| > 0
    ensures c == CheckValue(tables, kv, errors)
  {
    var key := kv.key;
    var lists, types := tables.lists, tables.types;
    var errs := errors;
    var skip := false;
    var idx := 0;
    while idx < |key| - 1
      invariant 0 <= idx <= |key| - 1
      invariant Check(Tables(lists, types), errs, skip) == PrefixRun(Check(tables, errors, false), kv, idx)
    {
      lists, types, errs, skip := CheckPrefix(lists, types, errs, skip, kv, idx);
      idx := idx + 1;
    }
    if key !in types {
      types := types[key := KLeaf];
    } else if types[key] != KLeaf {
      skip := true;
      var error := ContainerMsg(kv, key);
      if error !in errs {
        errs := errs + [error];
      }
    }
    c := Check(Tables(lists, types), errs, skip);
  }

  /** One turn of the prefix loop: the list index check on key[idx + 1],
      then the container type check on key[..idx + 1]. */
  method CheckPrefix(lists: map<Key, int>, types: map<Key, Kind>, errs: seq<string>, skip: bool, kv: KeyValue, idx: nat)
    returns (lists': map<Key, int>, types': map<Key, Kind>, errs': seq<string>, skip': bool)
    requires idx + 1 < |kv.key|
    ensures Check(Tables(lists', types'), errs', skip') == PrefixStep(Check(Tables(lists, types), errs, skip), kv, idx)
  {
    var key := kv.key;
    var subkey := key[..idx + 1];
    var listIndex := key[idx + 1];
    lists', types', errs', skip' := lists, types, errs, skip;
    if listIndex.Index? {
      var listLength := if subkey in lists then lists[subkey] else 0;
      if listIndex.n > listLength {
        skip' := true;
        var error := InvalidIndexMsg(kv, key[..idx + 2]);
        if error !in errs' {
          errs' := errs' + [error];
        }
      } else {
        lists' := lists[subkey := Max(listLength, listIndex.n + 1)];
      }
    }
    if subkey !in types {
      types' := types[subkey := SegKind(listIndex)];
    } else if types[subkey] != SegKind(listIndex) {
      skip' := true;
      var error := ContainerMsg(kv, subkey);
      if error !in errs' {
        errs' := errs' + [error];
      }
    }
  }

  // ---------------------------------------------------------------------
  // Name order

  /** n is the first of the names in s. */
  predicate IsLeast(n: string, s: set<string>) {
    n in s && forall m :: m in s ==> !StrLess(m, n)
  }

  lemma {:induction false} LeastExists(s: set<string>)
    requires s != {}
    ensures exists n :: IsLeast(n, s)
    decreases |s|
  {
    var x :| x in s;
    if s - {x} == {} {
      assert s == {x};
      StrLessIrreflexive(x);
      assert IsLeast(x, s);
    } else {
      LeastExists(s - {x});
      var y :| IsLeast(y, s - {x});
      if StrLess(x, y) {
        forall m | m in s ensures !StrLess(m, x) {
          if m != x && StrLess(m, x) { StrLessTransitive(m, x, y); }
          if m == x { StrLessIrreflexive(x); }
        }
        assert IsLeast(x, s);
      } else {
        assert IsLeast(y, s);
      }
    }
  }

  lemma LeastUnique(a: string, b: string, s: set<string>)
    requires IsLeast(a, s) && IsLeast(b, s)
    ensures a == b
  {
    if a != b { StrLessTotal(a, b); }
  }

  /** The names of s in increasing order. */
  ghost function SortedKeys(s: set<string>): (r: seq<string>)
    ensures forall i :: 0 <= i < |r| ==> r[i] in s
    decreases |s|
  {
    if s == {} then []
    else
      LeastExists(s);
      var n :| IsLeast(n, s);
      [n] + SortedKeys(s - {n})
  }

  /** The order starts with the least name. */
  lemma SortedKeysHead(s: set<string>, n: string)
    requires IsLeast(n, s)
    ensures SortedKeys(s) == [n] + SortedKeys(s - {n})
  {
    var r := SortedKeys(s);
    assert r == [r[0]] + SortedKeys(s - {r[0]}) && IsLeast(r[0], s);
    LeastUnique(r[0], n, s);
  }

  /** SortedKeys lists each name of s once, in increasing order. */
  lemma {:induction false} SortedKeysSorted(s: set<string>)
    ensures var r := SortedKeys(s);
      && |r| == |s| && (forall x :: x in r <==> x in s)
      && forall i, j :: 0 <= i < j < |r| ==> StrLess(r[i], r[j])
    decreases |s|
  {
    if s != {} {
      LeastExists(s);
      var n :| IsLeast(n, s);
      SortedKeysHead(s, n);
      SortedKeysSorted(s - {n});
      var r := SortedKeys(s);
      forall j | 0 < j < |r| ensures StrLess(n, r[j]) {
        assert r[j] in s - {n};
        StrLessTotal(n, r[j]);
      }
    }
  }
}
