/** The oldest engine (class Environment of template_specialize/__init__.py)
    as functions over values. parse scans the lines and raises at the first
    line it cannot use; asdict writes the values of an environment, its
    own sorted ones first and then those of each parent in turn, into one
    container of nested Python lists and dicts, where a value already
    present is never replaced. The containers are Python objects with an
    identity, so they are modelled as a heap: a sequence of objects that
    refer to each other by position. LegacyFormat is proved to compute
    these functions. */
module LegacyModel {
  import opened Text
  import opened Wrappers
  import opened Literals
  import opened LineSyntax
  import opened Floats
  import opened LegacySyntax
  import LineModel

  // ---------------------------------------------------------------------
  // Environments

  /** One parsed value: the (key, value, environment name) tuple parse appends. */
  datatype Binding = Binding(key: Key, value: Scalar, env: string)

  function BindingKey(b: Binding): Key { b.key }

  /** An Environment object: its name, its parents (None when no header
      gave parentheses) and its values in the order they were read. */
  datatype Env = Env(name: string, parents: Option<seq<string>>, values: seq<Binding>)

  type Envs = map<string, Env>

  /** What parse keeps true of every environment: it is filed under its
      own name, each value carries that name and a non-empty key, and no
      two values share a key. */
  predicate EnvOk(e: Env, n: string) {
    && e.name == n
    && (forall i :: 0 <= i < |e.values| ==> e.values[i].env == n && |e.values[i].key| > 0)
    && DistinctKeys(e.values, BindingKey)
  }

  predicate EnvsOk(envs: Envs) {
    forall n :: n in envs ==> EnvOk(envs[n], n)
  }

  /** Python's truth value of a parents attribute: None and [] are false. */
  predicate HasParents(ps: Option<seq<string>>) { ps.Some? && |ps.value| > 0 }

  // ---------------------------------------------------------------------
  // Messages

  function InconsistentMsg(filename: string, lineno: int, name: string): string {
    LineModel.At(filename, lineno) + "Inconsistent definition of environment " + LineModel.Quoted(name)
  }

  function LegacySyntaxMsg(filename: string, lineno: int, line: string): string {
    LineModel.At(filename, lineno) + "Syntax error : " + LineModel.Quoted(line)
  }

  // ---------------------------------------------------------------------
  // parse

  /** The state of the scan: the environments and the name of the current one. */
  datatype Scan = Scan(envs: Envs, cur: Option<string>)

  predicate ScanOk(s: Scan) {
    EnvsOk(s.envs) && (s.cur.Some? ==> s.cur.value in s.envs)
  }

  /** The object a header leaves under its name, given the one found there:
      None is an inconsistent header. A new name, or parents for an
      environment that had none, gives a new object that keeps the values
      read so far; different parents are inconsistent; anything else keeps
      the object found. */
  function Reopen(found: Option<Env>, name: string, parents: Option<seq<string>>): Option<Env> {
    if found.None? then Some(Env(name, parents, []))
    else if !HasParents(found.value.parents) && HasParents(parents) then Some(Env(name, parents, found.value.values))
    else if HasParents(parents) && parents != found.value.parents then None
    else found
  }

  function Lookup(envs: Envs, name: string): Option<Env> {
    if name in envs then Some(envs[name]) else None
  }

  /** A header line: the environment it names becomes the current one. */
  function HeaderLine(s: Scan, filename: string, lineno: int, h: Header): (r: Result<Scan, string>)
    requires ScanOk(s)
    ensures r.Ok? ==> ScanOk(r.value) && r.value.envs.Keys == s.envs.Keys + {h.name}
  {
    match Reopen(Lookup(s.envs, h.name), h.name, h.parents)
    case None => Err(InconsistentMsg(filename, lineno, h.name))
    case Some(e) => Ok(Scan(s.envs[h.name := e], Some(h.name)))
  }

  /** The tuple an assignment appends to the current environment. */
  function BindingOf(a: Assignment, env: string): Binding {
    Binding(ParseKey(a.key), ParseValue(a.value), env)
  }

  /** An assignment line under a current environment: a key that
      environment already holds raises, any other is appended. */
  function AssignLine(s: Scan, filename: string, lineno: int, a: Assignment): (r: Result<Scan, string>)
    requires ScanOk(s) && s.cur.Some?
    ensures r.Ok? ==> ScanOk(r.value) && r.value.envs.Keys == s.envs.Keys
  {
    var e := s.envs[s.cur.value];
    var b := BindingOf(a, e.name);
    if exists i :: 0 <= i < |e.values| && e.values[i].key == b.key && e.values[i].env == e.name then
      Err(LineModel.ValueRedefinitionMsg(filename, lineno, a.key))
    else
      var e' := e.(values := e.values + [b]);
      assert EnvOk(e', s.cur.value) by {
        assert forall i :: 0 <= i < |e.values| ==> e'.values[i] == e.values[i];
      }
      Ok(Scan(s.envs[s.cur.value := e'], s.cur))
  }

  /** One line, numbered from 1: a comment is skipped, a header or an
      assignment under a header is applied, anything else raises. */
  function ParseLine(s: Scan, filename: string, lineno: int, line: string): (r: Result<Scan, string>)
    requires ScanOk(s)
    ensures r.Ok? ==> ScanOk(r.value) && s.envs.Keys <= r.value.envs.Keys
  {
    if IsComment(line) then Ok(s)
    else
      match MatchLegacyHeader(line)
      case Some(h) => HeaderLine(s, filename, lineno, h)
      case None =>
        if s.cur.Some? && MatchLegacyAssignment(line).Some? then AssignLine(s, filename, lineno, MatchLegacyAssignment(line).value)
        else Err(LegacySyntaxMsg(filename, lineno, line))
  }

  /** The lines in order, stopping at the first that raises; the error
      carries the environments as the raising line found them. */
  function ParseFrom(s: Scan, filename: string, lines: seq<string>): (r: Result<Scan, (Envs, string)>)
    requires ScanOk(s)
    ensures r.Ok? ==> ScanOk(r.value) && s.envs.Keys <= r.value.envs.Keys
    ensures r.Err? ==> EnvsOk(r.error.0)
    decreases |lines|
  {
    if |lines| == 0 then Ok(s)
    else
      match ParseFrom(s, filename, lines[..|lines| - 1])
      case Err(e) => Err(e)
      case Ok(t) =>
        match ParseLine(t, filename, |lines|, lines[|lines| - 1])
        case Err(m) => Err((t.envs, m))
        case Ok(u) => Ok(u)
  }

  /** Environment.parse(lines, filename, environments): the environments
      after the lines, and the message of the SyntaxError raised, if any.
      When one is raised the dictionary passed in is left as the lines
      before the raising one made it. */
  function Parse(envs: Envs, filename: string, lines: seq<string>): (r: (Envs, Option<string>))
    requires EnvsOk(envs)
    ensures EnvsOk(r.0)
  {
    match ParseFrom(Scan(envs, None), filename, lines)
    case Ok(s) => (s.envs, None)
    case Err((e, m)) => (e, Some(m))
  }

  // ---------------------------------------------------------------------
  // The containers asdict builds

  /** What a list element or a dict entry holds: a scalar, or a reference
      to a container object. */
  datatype Item = Atom(a: Scalar) | Ref(id: nat)

  /** A container object: a list or a dict from key parts to items. */
  datatype Obj = ListObj(items: seq<Item>) | DictObj(fields: map<Seg, Item>)

  /** The objects in order of creation; object 0 is the container asdict returns. */
  type Heap = seq<Obj>

  predicate ItemIn(h: Heap, v: Item) { v.Ref? ==> v.id < |h| }

  predicate ObjIn(h: Heap, o: Obj) {
    match o
    case ListObj(items) => forall i :: 0 <= i < |items| ==> ItemIn(h, items[i])
    case DictObj(f) => forall k :: k in f ==> ItemIn(h, f[k])
  }

  /** Every reference names an object, and the returned container is a dict. */
  predicate HeapOk(h: Heap) {
    |h| > 0 && h[0].DictObj? && forall x :: 0 <= x < |h| ==> ObjIn(h, h[x])
  }

  /** The Python exceptions asdict can raise. RecursionError stands for
      Python's limit on nested calls, since nothing stops a cycle of parents. */
  datatype PyError = KeyError | TypeError | IndexError | RecursionError

  /** How `container in new_lists` decides: the code compares with ==, so a
      list equal to one made in this call passes (ByEquality); ByIdentity
      asks whether the list object was made during this call. */
  datatype ListTest = ByIdentity | ByEquality

  // ---------------------------------------------------------------------
  // Python equality

  /** A scalar as a Python number: booleans are 0 and 1, a float token is
      the value float() reads from it. */
  function NumberOf(a: Scalar): Option<FloatValue> {
    match a
    case Bool(b) => Some(Finite(if b then 1 else 0, 0))
    case Int(i) => Some(Finite(i, 0))
    case Float(t) => FloatOf(t)
    case Str(_) => None
  }

  /** Python's == on two scalars: strings by text, numbers by value across
      bool, int and float. */
  predicate AtomEq(a: Scalar, b: Scalar) {
    if a.Str? || b.Str? then a == b
    else
      match (NumberOf(a), NumberOf(b))
      case (Some(x), Some(y)) => NumEq(x, y)
      case _ => a == b
  }

  /** A key part as the Python object it is: an int or a str. */
  function SegScalar(s: Seg): Scalar {
    match s
    case Index(n) => Int(n)
    case Field(f) => Str(f)
  }

  /** `s in items` for a list: some element is == to the key part. */
  predicate SegIn(s: Seg, items: seq<Item>) {
    exists i :: 0 <= i < |items| && items[i].Atom? && AtomEq(items[i].a, SegScalar(s))
  }

  /** Python's == on two items: identical objects are equal, lists
      element by element, dicts key by key. The depth bound stands for
      the nesting of the objects, which never exceeds their number. */
  predicate ItemEq(h: Heap, x: Item, y: Item, depth: nat)
    decreases depth, 1
  {
    match (x, y)
    case (Atom(a), Atom(b)) => AtomEq(a, b)
    case (Ref(i), Ref(j)) => i == j || (depth > 0 && i < |h| && j < |h| && ObjEq(h, h[i], h[j], depth - 1))
    case _ => false
  }

  predicate ObjEq(h: Heap, o1: Obj, o2: Obj, depth: nat)
    decreases depth, 2
  {
    match (o1, o2)
    case (ListObj(a), ListObj(b)) => |a| == |b| && forall i :: 0 <= i < |a| ==> ItemEq(h, a[i], b[i], depth)
    case (DictObj(f), DictObj(g)) => f.Keys == g.Keys && forall k :: k in f ==> ItemEq(h, f[k], g[k], depth)
    case _ => false
  }

  /** `container in new_lists` for the list object x. */
  predicate Admitted(h: Heap, x: nat, newLists: seq<nat>, test: ListTest) {
    match test
    case ByIdentity => x in newLists
    case ByEquality => exists j :: 0 <= j < |newLists| && ItemEq(h, Ref(newLists[j]), Ref(x), |h|)
  }

  // ---------------------------------------------------------------------
  // _add_value

  /** A fresh container for the next key part: a list, which is recorded
      in new_lists, before an int part, a dict before a str part. */
  function Fresh(h: Heap, forIndex: bool, newLists: seq<nat>): (r: (Heap, Item, seq<nat>))
    requires HeapOk(h)
    ensures HeapOk(r.0) && |r.0| == |h| + 1 && r.0[..|h|] == h && r.1 == Ref(|h|)
    ensures r.2 == (if forIndex then newLists + [|h|] else newLists)
  {
    var o := if forIndex then ListObj([]) else DictObj(map[]);
    var h' := h + [o];
    assert forall x :: 0 <= x < |h| ==> h'[x] == h[x];
    (h', Ref(|h|), if forIndex then newLists + [|h|] else newLists)
  }

  /** An object replaced by one whose references name objects of the heap. */
  function Replace(h: Heap, x: nat, o: Obj): (h': Heap)
    requires HeapOk(h) && x < |h| && ObjIn(h, o) && (x == 0 ==> o.DictObj?)
    ensures HeapOk(h') && |h'| == |h| && h'[x] == o
    ensures forall y :: 0 <= y < |h| && y != x ==> h'[y] == h[y]
  {
    h[x := o]
  }

  /** One pass of the loop over the leading key parts: the container
      holding the part s is looked up, or a fresh one is put there. A
      list takes an int part that is in range; whether the slot is reused
      is decided by `s in container`, which on a list tests the elements.
      A scalar in the way, or a str part on a list, raises TypeError. */
  function Descend(h: Heap, c: Item, s: Seg, forIndex: bool, newLists: seq<nat>): (r: Result<(Heap, Item, seq<nat>), PyError>)
    requires HeapOk(h) && ItemIn(h, c)
    ensures r.Ok? ==> HeapOk(r.value.0) && ItemIn(r.value.0, r.value.1) && |h| <= |r.value.0|
  {
    match c
    case Atom(_) => Err(TypeError)
    case Ref(x) =>
      match h[x]
      case DictObj(f) =>
        if s in f then Ok((h, f[s], newLists))
        else
          var (h1, next, n1) := Fresh(h, forIndex, newLists);
          assert ObjIn(h1, DictObj(f[s := next])) by { assert h1[x] == h[x]; }
          Ok((Replace(h1, x, DictObj(f[s := next])), next, n1))
      case ListObj(items) =>
        if s.Field? then Err(TypeError)
        else if !(-|items| <= s.n < |items|) then Err(IndexError)
        else
          var pos := if s.n < 0 then s.n + |items| else s.n;
          if SegIn(s, items) then Ok((h, items[pos], newLists))
          else
            var (h1, next, n1) := Fresh(h, forIndex, newLists);
            assert ObjIn(h1, ListObj(items[pos := next])) by { assert h1[x] == h[x]; }
            Ok((Replace(h1, x, ListObj(items[pos := next])), next, n1))
  }

  /** The last key part: a list takes the value at its end when it passes
      `container in new_lists`, a dict takes it when the part is not yet a
      key, and a str container only survives the `not in` test when the
      part occurs in it as a substring. */
  function Final(h: Heap, c: Item, last: Seg, value: Scalar, newLists: seq<nat>, test: ListTest): (r: Result<Heap, PyError>)
    requires HeapOk(h) && ItemIn(h, c)
    ensures r.Ok? ==> HeapOk(r.value) && |r.value| == |h|
  {
    match c
    case Ref(x) =>
      (match h[x]
       case ListObj(items) =>
         if Admitted(h, x, newLists, test) then Ok(Replace(h, x, ListObj(items + [Atom(value)]))) else Ok(h)
       case DictObj(f) =>
         if last in f then Ok(h) else Ok(Replace(h, x, DictObj(f[last := Atom(value)]))))
    case Atom(Str(t)) => if last.Field? && Contains(t, last.name) then Ok(h) else Err(TypeError)
    case Atom(_) => Err(TypeError)
  }

  /** The loop of _add_value from part i on, with the container c reached so far. */
  function AddFrom(h: Heap, c: Item, key: Key, i: nat, value: Scalar, newLists: seq<nat>, test: ListTest): (r: Result<(Heap, seq<nat>), PyError>)
    requires HeapOk(h) && ItemIn(h, c) && i < |key|
    ensures r.Ok? ==> HeapOk(r.value.0) && |h| <= |r.value.0|
    decreases |key| - i
  {
    if i == |key| - 1 then
      match Final(h, c, key[i], value, newLists, test)
      case Err(e) => Err(e)
      case Ok(h') => Ok((h', newLists))
    else
      match Descend(h, c, key[i], key[i + 1].Index?, newLists)
      case Err(e) => Err(e)
      case Ok((h1, c1, n1)) => AddFrom(h1, c1, key, i + 1, value, n1, test)
  }

  /** _add_value(container, key, value, new_lists) on the returned
      container; an empty key has no last part and raises IndexError. */
  function AddValue(h: Heap, key: Key, value: Scalar, newLists: seq<nat>, test: ListTest): (r: Result<(Heap, seq<nat>), PyError>)
    requires HeapOk(h)
    ensures r.Ok? ==> HeapOk(r.value.0) && |h| <= |r.value.0|
  {
    if |key| == 0 then Err(IndexError) else AddFrom(h, Ref(0), key, 0, value, newLists, test)
  }

  /** A (key, value) pair to be written. */
  datatype Write = Write(key: Key, value: Scalar)

  /** The loop `for key, value in ...: _add_value(...)` over ws with one new_lists. */
  function AddEach(h: Heap, newLists: seq<nat>, ws: seq<Write>, test: ListTest): (r: Result<(Heap, seq<nat>), PyError>)
    requires HeapOk(h)
    ensures r.Ok? ==> HeapOk(r.value.0) && |h| <= |r.value.0|
    decreases |ws|
  {
    if |ws| == 0 then Ok((h, newLists))
    else
      match AddEach(h, newLists, ws[..|ws| - 1], test)
      case Err(e) => Err(e)
      case Ok((h1, n1)) => AddValue(h1, ws[|ws| - 1].key, ws[|ws| - 1].value, n1, test)
  }

  // ---------------------------------------------------------------------
  // asdict

  /** Two keys Python cannot order: at their first difference one part
      is an int and the other a str. */
  predicate Clash(a: Key, b: Key) {
    |a| > 0 && |b| > 0 && (if a[0] == b[0] then Clash(a[1..], b[1..]) else a[0].Index? != b[0].Index?)
  }

  /** Some two values have keys that clash. */
  predicate AnyClash(values: seq<Binding>) {
    exists i, j :: 0 <= i < |values| && 0 <= j < |values| && Clash(values[i].key, values[j].key)
  }

  /** sorted(values): TypeError when two keys clash; otherwise the values
      in ascending key order (the keys are distinct, so the rest of each
      tuple never takes part). */
  function Sorted(values: seq<Binding>): Result<seq<Binding>, PyError> {
    if AnyClash(values) then Err(TypeError)
    else Ok(SortByKey(values, BindingKey))
  }

  function WritesOf(bs: seq<Binding>): (ws: seq<Write>)
    ensures |ws| == |bs| && forall i :: 0 <= i < |bs| ==> ws[i] == Write(bs[i].key, bs[i].value)
  {
    seq(|bs|, i requires 0 <= i < |bs| => Write(bs[i].key, bs[i].value))
  }

  /** The first loop of asdict: an environment's own values in sorted
      order, with a new new_lists. */
  function OwnValues(e: Env, h: Heap, test: ListTest): (r: Result<Heap, PyError>)
    requires HeapOk(h)
    ensures r.Ok? ==> HeapOk(r.value) && |h| <= |r.value|
  {
    match Sorted(e.values)
    case Err(err) => Err(err)
    case Ok(vs) =>
      match AddEach(h, [], WritesOf(vs), test)
      case Err(err) => Err(err)
      case Ok((h1, _)) => Ok(h1)
  }

  /** asdict(environments, name, container=container): the own values,
      then each parent in order. Each nested call takes one unit of depth. */
  function AsDictInto(envs: Envs, name: string, h: Heap, depth: nat, test: ListTest): (r: Result<Heap, PyError>)
    requires EnvsOk(envs) && HeapOk(h)
    ensures r.Ok? ==> HeapOk(r.value) && |h| <= |r.value|
    decreases depth, 0, 0
  {
    if depth == 0 then Err(RecursionError)
    else if name !in envs then Err(KeyError)
    else AfterOwn(envs, envs[name].parents, h, OwnValues(envs[name], h, test), depth - 1, test)
  }

  /** What follows the own values: an error they raised, or the parents,
      when the attribute is not None. */
  function AfterOwn(envs: Envs, parents: Option<seq<string>>, h: Heap, own: Result<Heap, PyError>, depth: nat, test: ListTest): (r: Result<Heap, PyError>)
    requires EnvsOk(envs) && HeapOk(h) && (own.Ok? ==> HeapOk(own.value) && |h| <= |own.value|)
    ensures r.Ok? ==> HeapOk(r.value) && |h| <= |r.value|
    decreases depth, 2, 0
  {
    match own
    case Err(e) => Err(e)
    case Ok(h1) =>
      match parents
      case None => Ok(h1)
      case Some(ps) => AsDictParents(envs, ps, 0, h1, depth, test)
  }

  /** The loop over the parents, each written into the same container. */
  function AsDictParents(envs: Envs, ps: seq<string>, i: nat, h: Heap, depth: nat, test: ListTest): (r: Result<Heap, PyError>)
    requires EnvsOk(envs) && HeapOk(h) && i <= |ps|
    ensures r.Ok? ==> HeapOk(r.value) && |h| <= |r.value|
    decreases depth, 1, |ps| - i
  {
    if i == |ps| then Ok(h)
    else
      match AsDictInto(envs, ps[i], h, depth, test)
      case Err(e) => Err(e)
      case Ok(h1) => AsDictParents(envs, ps, i + 1, h1, depth, test)
  }

  /** The empty dict asdict starts from. */
  function Empty(): (h: Heap)
    ensures HeapOk(h) && |h| == 1
  {
    [DictObj(map[])]
  }

  /** asdict(environments, name, extra_values): the extra values first,
      with their own new_lists, then the environment and its parents. The
      result is the heap whose object 0 is the returned dict. */
  function AsDict(envs: Envs, name: string, extra: Option<seq<Write>>, depth: nat, test: ListTest): (r: Result<Heap, PyError>)
    requires EnvsOk(envs)
    ensures r.Ok? ==> HeapOk(r.value)
  {
    var start := if extra.Some? then AddEach(Empty(), [], extra.value, test) else Ok((Empty(), []));
    match start
    case Err(e) => Err(e)
    case Ok((h, _)) => AsDictInto(envs, name, h, depth, test)
  }
}
