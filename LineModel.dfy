/** The current line-format engine (template_specialize/environment.py) as
    functions over values: the environment store, the effect of one parsed
    line, the depth-first walk over parents, the per-prefix checks of
    _iterate_values and the nested containers asdict builds. The classes in
    LineFormat are proved to compute exactly these functions. */
module LineModel {
  import opened Text
  import opened Wrappers
  import opened Literals
  import opened LineSyntax

  // ---------------------------------------------------------------------
  // Entities

  /** EnvironmentKeyValue: a parsed key and value and where they were read. */
  datatype KeyValue = KeyValue(key: Key, value: Scalar, filename: string, lineno: int)

  function KeyOf(kv: KeyValue): Key { kv.key }

  /** EnvironmentKeyValue(key_str, value_str, filename, lineno). */
  function MakeKeyValue(keyStr: string, valueStr: string, filename: string, lineno: int): (kv: KeyValue)
    ensures |kv.key| == Count(keyStr, '.') + 1
  {
    KeyValue(ParseKey(keyStr), ParseValue(valueStr), filename, lineno)
  }

  /** The contents of one Environment record. */
  datatype EnvData = EnvData(name: string, parents: seq<string>, values: seq<KeyValue>, filename: string, lineno: int)

  /** Environments: the records by name. */
  type Store = map<string, EnvData>

  /** What every record in a store satisfies: it is filed under its own
      name, its keys are non-empty and no two of its values share a key. */
  predicate StoreOk(st: Store) {
    forall n :: n in st ==> RecordOk(st[n], n)
  }

  predicate RecordOk(e: EnvData, n: string) {
    && e.name == n
    && (forall i :: 0 <= i < |e.values| ==> |e.values[i].key| > 0)
    && DistinctKeys(e.values, KeyOf)
  }

  function HasKey(values: seq<KeyValue>, key: Key): bool {
    exists i :: 0 <= i < |values| && values[i].key == key
  }

  // ---------------------------------------------------------------------
  // Messages

  function At(filename: string, lineno: int): string {
    filename + ":" + IntToString(lineno) + ": "
  }

  function Quoted(s: string): string { "\"" + s + "\"" }

  function ValueRedefinitionMsg(filename: string, lineno: int, keyStr: string): string {
    At(filename, lineno) + "Redefinition of value " + Quoted(keyStr)
  }

  function EnvRedefinitionMsg(filename: string, lineno: int, name: string): string {
    At(filename, lineno) + "Redefinition of environment " + Quoted(name)
  }

  function SyntaxMsg(filename: string, lineno: int, line: string): string {
    At(filename, lineno) + "Syntax error: " + Quoted(line)
  }

  function InvalidIndexMsg(kv: KeyValue, prefix: Key): string
    requires |prefix| > 0
  {
    At(kv.filename, kv.lineno) + "Invalid list index " + Quoted(KeyText(prefix))
  }

  function ContainerMsg(kv: KeyValue, prefix: Key): string
    requires |prefix| > 0
  {
    At(kv.filename, kv.lineno) + "Redefinition of container type " + Quoted(KeyText(prefix))
  }

  function UnknownParentMsg(env: EnvData, parent: string): string {
    At(env.filename, env.lineno) + "Environment " + Quoted(env.name) + " has unknown parent environment " + Quoted(parent)
  }

  function CircularParentMsg(env: EnvData, parent: string): string {
    At(env.filename, env.lineno) + "Environment " + Quoted(env.name) + " has circular parent environment " + Quoted(parent)
  }

  /** `if error not in errors: errors.append(error)` */
  function Note(errors: seq<string>, e: string): (r: seq<string>)
    ensures e in r && |errors| <= |r| <= |errors| + 1 && r[..|errors|] == errors
  {
    if e in errors then errors else errors + [e]
  }

  // ---------------------------------------------------------------------
  // Building the store

  /** Environment.add_value: a value whose key the record already holds is
      refused with an error; any other is appended. */
  function AddValueTo(e: EnvData, kv: KeyValue, keyStr: string, errors: seq<string>): (r: (EnvData, seq<string>))
    ensures r.0 == e.(values := r.0.values)
    ensures HasKey(e.values, kv.key) ==>
      r.0.values == e.values && r.1 == errors + [ValueRedefinitionMsg(kv.filename, kv.lineno, keyStr)]
    ensures !HasKey(e.values, kv.key) ==> r.0.values == e.values + [kv] && r.1 == errors
  {
    if HasKey(e.values, kv.key) then (e, errors + [ValueRedefinitionMsg(kv.filename, kv.lineno, keyStr)])
    else (e.(values := e.values + [kv]), errors)
  }

  /** Environments.add_environment: a known name keeps its record, and a
      different parent list is reported; a new name gets an empty record. */
  function AddEnvironmentTo(st: Store, name: string, parents: seq<string>, filename: string, lineno: int, errors: seq<string>): (r: (Store, seq<string>))
    ensures name in r.0
    ensures name in st ==> r.0 == st
    ensures name in st ==> r.1 == (if parents != st[name].parents then errors + [EnvRedefinitionMsg(filename, lineno, name)] else errors)
    ensures name !in st ==> r.0 == st[name := EnvData(name, parents, [], filename, lineno)] && r.1 == errors
  {
    if name in st then
      (st, if parents != st[name].parents then errors + [EnvRedefinitionMsg(filename, lineno, name)] else errors)
    else (st[name := EnvData(name, parents, [], filename, lineno)], errors)
  }

  /** The scanner's state between lines: the store, the environment that
      assignments go to, and the errors so far. */
  datatype ParseState = ParseState(store: Store, cur: Option<string>, errors: seq<string>)

  predicate ParseOk(ps: ParseState) {
    StoreOk(ps.store) && (ps.cur.Some? ==> ps.cur.value in ps.store)
  }

  /** One physical line of Environments.parse, numbered from 1. */
  function ParseLine(ps: ParseState, filename: string, lineno: int, raw: string): (r: ParseState)
    requires ParseOk(ps)
    ensures ParseOk(r)
  {
    var line := RStrip(raw);
    if IsComment(line) then ps
    else match MatchHeader(line)
      case Some(h) => HeaderStep(ps, filename, lineno, h)
      case None =>
        match MatchAssignment(line)
        case Some(a) =>
          if ps.cur.Some? then AssignStep(ps, filename, lineno, a)
          else SyntaxStep(ps, filename, lineno, line)
        case None => SyntaxStep(ps, filename, lineno, line)
  }

  /** A header line: add_environment, which also selects the environment. */
  function HeaderStep(ps: ParseState, filename: string, lineno: int, h: Header): (r: ParseState)
    requires ParseOk(ps)
    ensures ParseOk(r) && r.cur == Some(h.name)
  {
    var parents := if h.parents.Some? then h.parents.value else [];
    var (st, errs) := AddEnvironmentTo(ps.store, h.name, parents, filename, lineno, ps.errors);
    ParseState(st, Some(h.name), errs)
  }

  /** An assignment line under a header: add_value on the selected environment. */
  function AssignStep(ps: ParseState, filename: string, lineno: int, a: Assignment): (r: ParseState)
    requires ParseOk(ps) && ps.cur.Some?
    ensures ParseOk(r) && r.cur == ps.cur && r.store.Keys == ps.store.Keys
  {
    var n := ps.cur.value;
    var kv := MakeKeyValue(a.key, a.value, filename, lineno);
    var (e, errs) := AddValueTo(ps.store[n], kv, a.key, ps.errors);
    AddValueKeepsRecord(ps.store[n], kv, a.key, ps.errors, n);
    ParseState(ps.store[n := e], ps.cur, errs)
  }

  /** Any other line: a syntax error quoting the stripped line. */
  function SyntaxStep(ps: ParseState, filename: string, lineno: int, line: string): (r: ParseState)
    ensures r.store == ps.store && r.cur == ps.cur && |r.errors| == |ps.errors| + 1
  {
    ps.(errors := ps.errors + [SyntaxMsg(filename, lineno, line)])
  }

  /** Adding a value keeps a record well formed. */
  lemma AddValueKeepsRecord(e: EnvData, kv: KeyValue, keyStr: string, errors: seq<string>, n: string)
    requires RecordOk(e, n) && |kv.key| > 0
    ensures RecordOk(AddValueTo(e, kv, keyStr, errors).0, n)
  {
    var r := AddValueTo(e, kv, keyStr, errors).0;
    if !HasKey(e.values, kv.key) {
      forall i, j | 0 <= i < j < |r.values| ensures r.values[i].key != r.values[j].key {
        if j == |e.values| {
          assert r.values[j] == kv;
          assert r.values[i] == e.values[i];
        } else {
          assert r.values[i] == e.values[i] && r.values[j] == e.values[j];
        }
      }
    }
  }

  /** Environments.parse over the lines seen so far (lines[i] is line i + 1). */
  function ParseLines(ps: ParseState, filename: string, lines: seq<string>): (r: ParseState)
    requires ParseOk(ps)
    ensures ParseOk(r)
    decreases |lines|
  {
    if |lines| == 0 then ps
    else ParseLine(ParseLines(ps, filename, lines[..|lines| - 1]), filename, |lines|, lines[|lines| - 1])
  }

  // ---------------------------------------------------------------------
  // _iterate_values_inner: the walk over parents

  /** What the generator does, in order: hand out a value, or add an error. */
  datatype Event = Yield(kv: KeyValue) | Report(msg: string)

  function Yields(values: seq<KeyValue>): (r: seq<Event>)
    ensures |r| == |values| && forall i :: 0 <= i < |r| ==> r[i] == Yield(values[i])
  {
    seq(|values|, i requires 0 <= i < |values| => Yield(values[i]))
  }

  /** The events of walking environment name with the given names on the
      recursion path: each parent in order (skipped with an error when it
      is unknown or already on the path), then the environment's own
      values in key order. The name itself is not added to the path. */
  function Walk(st: Store, name: string, onPath: set<string>): seq<Event>
    requires name in st
    decreases st.Keys - onPath, 1, 0
  {
    WalkParents(st, st[name], 0, onPath) + Yields(SortByKey(st[name].values, KeyOf))
  }

  function WalkParents(st: Store, env: EnvData, i: nat, onPath: set<string>): seq<Event>
    requires i <= |env.parents|
    decreases st.Keys - onPath, 0, |env.parents| - i
  {
    if i == |env.parents| then []
    else
      var p := env.parents[i];
      var unknown := if p !in st then [Report(UnknownParentMsg(env, p))] else [];
      var circular := if p in onPath then [Report(CircularParentMsg(env, p))] else [];
      var here :=
        if p !in st || p in onPath then unknown + circular
        else
          assert st.Keys - (onPath + {p}) < st.Keys - onPath;
          Walk(st, p, onPath + {p});
      here + WalkParents(st, env, i + 1, onPath)
  }

  // ---------------------------------------------------------------------
  // _iterate_values: the per-prefix checks

  /** type(key[idx + 1]) for a part, or NoneType for a leaf. */
  datatype Kind = KInt | KStr | KLeaf

  function SegKind(s: Seg): Kind {
    if s.Index? then KInt else KStr
  }

  /** The `lists` and `types` dictionaries, keyed by key prefixes. */
  datatype Tables = Tables(lists: map<Key, int>, types: map<Key, Kind>)

  function EmptyTables(): Tables { Tables(map[], map[]) }

  /** lists.get(subkey, 0) */
  function ListLength(t: Tables, p: Key): int {
    if p in t.lists then t.lists[p] else 0
  }

  /** The state of the checks inside one value: tables, errors, skip flag. */
  datatype Check = Check(tables: Tables, errors: seq<string>, skip: bool)

  function Max(a: int, b: int): int { if a < b then b else a }

  /** One `idx` of the loop over a key's prefixes: the list index check,
      then the container type check. Table updates happen even when the
      value is being skipped. */
  function PrefixStep(c: Check, kv: KeyValue, idx: nat): Check
    requires idx + 1 < |kv.key|
  {
    var key := kv.key;
    var sub := key[..idx + 1];
    var next := key[idx + 1];
    var c1 :=
      if next.Index? then
        var len := ListLength(c.tables, sub);
        if next.n > len then Check(c.tables, Note(c.errors, InvalidIndexMsg(kv, key[..idx + 2])), true)
        else c.(tables := c.tables.(lists := c.tables.lists[sub := Max(len, next.n + 1)]))
      else c;
    var types := c1.tables.types;
    if sub !in types then c1.(tables := c1.tables.(types := types[sub := SegKind(next)]))
    else if types[sub] != SegKind(next) then Check(c1.tables, Note(c1.errors, ContainerMsg(kv, sub)), true)
    else c1
  }

  /** The first n iterations of the prefix loop. */
  function PrefixRun(c: Check, kv: KeyValue, n: nat): Check
    requires n < |kv.key|
  {
    if n == 0 then c else PrefixStep(PrefixRun(c, kv, n - 1), kv, n - 1)
  }

  /** The value type check on the whole key: a leaf may be re-assigned,
      a container may not become a leaf. */
  function LeafStep(c: Check, kv: KeyValue): Check
    requires |kv.key| > 0
  {
    var types := c.tables.types;
    if kv.key !in types then c.(tables := c.tables.(types := types[kv.key := KLeaf]))
    else if types[kv.key] != KLeaf then Check(c.tables, Note(c.errors, ContainerMsg(kv, kv.key)), true)
    else c
  }

  /** All checks on one value. */
  function CheckValue(t: Tables, kv: KeyValue, errors: seq<string>): Check
    requires |kv.key| > 0
  {
    LeafStep(PrefixRun(Check(t, errors, false), kv, |kv.key| - 1), kv)
  }

  /** The state of _iterate_values between events: tables, errors and the
      values handed on so far. */
  datatype Scan = Scan(tables: Tables, errors: seq<string>, out: seq<KeyValue>)

  predicate KeysNonEmpty(events: seq<Event>) {
    forall i :: 0 <= i < |events| ==> events[i].Yield? ==> |events[i].kv.key| > 0
  }

  function ScanEvent(s: Scan, e: Event): Scan
    requires e.Yield? ==> |e.kv.key| > 0
  {
    match e
    case Report(m) => s.(errors := Note(s.errors, m))
    case Yield(kv) =>
      var c := CheckValue(s.tables, kv, s.errors);
      Scan(c.tables, c.errors, if c.skip then s.out else s.out + [kv])
  }

  /** _iterate_values over the events seen so far. */
  function ScanEvents(s: Scan, events: seq<Event>): Scan
    requires KeysNonEmpty(events)
    decreases |events|
  {
    if |events| == 0 then s
    else ScanEvent(ScanEvents(s, events[..|events| - 1]), events[|events| - 1])
  }

  /** The exceptions asdict can raise. */
  datatype Exc = KeyError | TypeError | IndexError | AttributeError

  /** _iterate_values(name): the values handed on, and the errors, after
      the given earlier errors. KeyError when the name is unknown. */
  function IterateValues(st: Store, name: string, errors: seq<string>): Result<Scan, Exc>
    requires StoreOk(st)
  {
    if name !in st then Err(KeyError)
    else
      WalkKeysNonEmpty(st, name, {});
      Ok(ScanEvents(Scan(EmptyTables(), errors, []), Walk(st, name, {})))
  }

  /** Every value the walk hands out comes from a record, so its key is non-empty. */
  lemma WalkKeysNonEmpty(st: Store, name: string, onPath: set<string>)
    requires StoreOk(st) && name in st
    ensures KeysNonEmpty(Walk(st, name, onPath))
    decreases st.Keys - onPath, 1, 0
  {
    WalkParentsKeysNonEmpty(st, st[name], 0, onPath);
    var own := SortByKey(st[name].values, KeyOf);
    forall i | 0 <= i < |own| ensures |own[i].key| > 0 {
      assert own[i] in multiset(st[name].values);
    }
  }

  lemma WalkParentsKeysNonEmpty(st: Store, env: EnvData, i: nat, onPath: set<string>)
    requires StoreOk(st) && i <= |env.parents|
    ensures KeysNonEmpty(WalkParents(st, env, i, onPath))
    decreases st.Keys - onPath, 0, |env.parents| - i
  {
    if i < |env.parents| {
      var p := env.parents[i];
      if p in st && p !in onPath {
        assert st.Keys - (onPath + {p}) < st.Keys - onPath;
        WalkKeysNonEmpty(st, p, onPath + {p});
      }
      WalkParentsKeysNonEmpty(st, env, i + 1, onPath);
    }
  }

  /** Environments.check: every environment in name order, errors
      accumulating across them. */
  function CheckNames(st: Store, names: seq<string>, errors: seq<string>): seq<string>
    requires StoreOk(st) && forall i :: 0 <= i < |names| ==> names[i] in st
    decreases |names|
  {
    if |names| == 0 then errors
    else
      var prev := CheckNames(st, names[..|names| - 1], errors);
      IterateValues(st, names[|names| - 1], prev).value.errors
  }

  // ---------------------------------------------------------------------
  // asdict: nested containers

  /** A Python value asdict builds: a leaf, a list or a dict. */
  datatype Value = Leaf(scalar: Scalar) | List(items: seq<Value>) | Dict(fields: map<Seg, Value>)

  /** The empty container made for a missing level: a list when the next
      part is an int, a dict otherwise. */
  function Fresh(next: Seg): Value {
    if next.Index? then List([]) else Dict(map[])
  }

  /** Python's index into a list of length len, for -len <= n < len. */
  function PyIndex(n: int, len: nat): nat
    requires -(len as int) <= n < len
  {
    if n < 0 then len + n else n
  }

  /** One value of asdict's loop: walk down the key, creating what is
      missing, and write the value at the last part. */
  function Put(c: Value, key: Key, v: Scalar): Result<Value, Exc>
    requires |key| > 0
    decreases |key|
  {
    var k := key[0];
    if |key| == 1 then
      match c
      case List(xs) =>
        if k.Field? then Err(TypeError)
        else if k.n < |xs| then
          if k.n < -|xs| then Err(IndexError) else Ok(List(xs[PyIndex(k.n, |xs|) := Leaf(v)]))
        else Ok(List(xs + [Leaf(v)]))
      case Dict(m) => Ok(Dict(m[k := Leaf(v)]))
      case Leaf(_) => Err(TypeError)
    else
      match c
      case List(xs) =>
        if k.Field? then Err(TypeError)
        else if k.n < |xs| then
          if k.n < -|xs| then Err(IndexError)
          else
            var i := PyIndex(k.n, |xs|);
            (match Put(xs[i], key[1..], v)
             case Ok(child) => Ok(List(xs[i := child]))
             case Err(e) => Err(e))
        else
          (match Put(Fresh(key[1]), key[1..], v)
           case Ok(child) => Ok(List(xs + [child]))
           case Err(e) => Err(e))
      case Dict(m) =>
        var prior := if k in m then m[k] else Fresh(key[1]);
        (match Put(prior, key[1..], v)
         case Ok(child) => Ok(Dict(m[k := child]))
         case Err(e) => Err(e))
      case Leaf(_) => Err(AttributeError)
  }

  predicate AllKeysNonEmpty(values: seq<KeyValue>) {
    forall i :: 0 <= i < |values| ==> |values[i].key| > 0
  }

  /** The containers asdict builds from the values handed on, in order. */
  function Materialise(values: seq<KeyValue>): Result<Value, Exc>
    requires AllKeysNonEmpty(values)
    decreases |values|
  {
    if |values| == 0 then Ok(Dict(map[]))
    else
      var last := values[|values| - 1];
      match Materialise(values[..|values| - 1])
      case Ok(t) => Put(t, last.key, last.value)
      case Err(e) => Err(e)
  }

  /** Environments.asdict(name). */
  function AsDict(st: Store, name: string): Result<Value, Exc>
    requires StoreOk(st)
  {
    match IterateValues(st, name, [])
    case Err(e) => Err(e)
    case Ok(s) =>
      WalkKeysNonEmpty(st, name, {});
      ScanOutKeys(Scan(EmptyTables(), [], []), Walk(st, name, {}));
      Materialise(s.out)
  }

  /** The values handed on are among those that came in, so their keys are non-empty. */
  lemma {:induction false} ScanOutKeys(s: Scan, events: seq<Event>)
    requires KeysNonEmpty(events) && AllKeysNonEmpty(s.out)
    ensures AllKeysNonEmpty(ScanEvents(s, events).out)
    decreases |events|
  {
    if |events| > 0 {
      ScanOutKeys(s, events[..|events| - 1]);
    }
  }
}
