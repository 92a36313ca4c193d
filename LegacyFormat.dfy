/** The objects of the oldest engine (template_specialize/__init__.py): the
    Environment objects parse files into a dictionary, and the container
    that asdict and _add_value fill in place. The container and everything
    it holds is a heap of objects whose references are indices, so lists
    shared by two keys and lists equal without being the same object are
    told apart. Each method is proved to compute the function of
    LegacyModel that describes it, so the theorems of LegacyProps hold. */
module LegacyFormat {
  import opened Wrappers
  import opened Text
  import opened Literals
  import opened LineSyntax
  import opened LegacySyntax
  import opened LegacyModel
  import opened LegacyProps

  /** Environment: a name and a parents attribute fixed at creation, and a
      value list that grows. */
  class Environment {
    const name: string
    const parents: Option<seq<string>>
    var values: seq<Binding>

    constructor (name: string, parents: Option<seq<string>>, values: seq<Binding>)
      ensures Data() == Env(name, parents, values)
    {
      this.name := name;
      this.parents := parents;
      this.values := values;
    }

    function Data(): Env
      reads this
    {
      Env(name, parents, values)
    }
  }

  /** The name an optional current environment goes by. */
  function NameOf(cur: Option<Environment>): Option<string> {
    if cur.Some? then Some(cur.value.name) else None
  }

  /** The dictionary from names to Environment objects that parse fills. */
  class Environments {
    var envs: map<string, Environment>

    constructor ()
      ensures Valid() && State() == map[]
    {
      envs := map[];
    }

    /** Every environment is filed under its own name (so two names never
        share an object) and holds a well-formed record. */
    ghost predicate Valid()
      reads this, envs.Values
    {
      (forall n :: n in envs ==> envs[n].name == n) && EnvsOk(State())
    }

    /** The records the objects hold. */
    function State(): (st: Envs)
      reads this, envs.Values
      ensures st.Keys == envs.Keys
    {
      map n | n in envs :: envs[n].Data()
    }

    /** parse(lines, filename, environments): the lines in order, numbered
        from 1; the first line that raises ends the call with its message,
        and the dictionary keeps what the lines before it made. */
    method Parse(lines: seq<string>, filename: string) returns (error: Option<string>)
      requires Valid()
      modifies this, envs.Values
      ensures Valid()
      ensures (State(), error) == LegacyModel.Parse(old(State()), filename, lines)
    {
      var cur: Option<Environment> := None;
      ghost var s0 := Scan(old(State()), None);
      var i := 0;
      while i < |lines|
        invariant 0 <= i <= |lines|
        invariant Valid()
        invariant forall n :: n in envs ==> envs[n] in old(envs.Values) || fresh(envs[n])
        invariant cur.Some? ==> cur.value.name in envs && envs[cur.value.name] == cur.value
        invariant ParseFrom(s0, filename, lines[..i]) == Ok(Scan(State(), NameOf(cur)))
      {
        assert lines[..i + 1][..i] == lines[..i];
        ghost var before := State();
        var next, err := ParseOneLine(cur, filename, i + 1, lines[i]);
        if err.Some? {
          FirstErrorStops(s0, filename, lines, i);
          return err;
        }
        cur := next;
        i := i + 1;
      }
      assert lines[..|lines|] == lines;
      return None;
    }

    /** One turn of the loop of parse. */
    method ParseOneLine(cur: Option<Environment>, filename: string, lineno: int, line: string)
      returns (cur': Option<Environment>, error: Option<string>)
      requires Valid()
      requires cur.Some? ==> cur.value.name in envs && envs[cur.value.name] == cur.value
      modifies this, envs.Values
      ensures Valid()
      ensures forall n :: n in envs ==> envs[n] in old(envs.Values) || fresh(envs[n])
      ensures cur'.Some? ==> cur'.value.name in envs && envs[cur'.value.name] == cur'.value
      ensures match ParseLine(Scan(old(State()), NameOf(cur)), filename, lineno, line)
        case Ok(s) => error.None? && s == Scan(State(), NameOf(cur'))
        case Err(m) => error == Some(m) && State() == old(State())
    {
      cur', error := cur, None;
      ghost var s := Scan(old(State()), NameOf(cur));
      if IsComment(line) {
        assert ParseLine(s, filename, lineno, line) == Ok(s);
      } else if MatchLegacyHeader(line).Some? {
        var h := MatchLegacyHeader(line).value;
        assert ParseLine(s, filename, lineno, line) == HeaderLine(s, filename, lineno, h);
        cur', error := ParseHeader(h, filename, lineno, NameOf(cur));
      } else if cur.Some? && MatchLegacyAssignment(line).Some? {
        var a := MatchLegacyAssignment(line).value;
        assert ParseLine(s, filename, lineno, line) == AssignLine(s, filename, lineno, a);
        error := ParseAssignment(cur.value, a, filename, lineno);
      } else {
        error := Some(LegacySyntaxMsg(filename, lineno, line));
      }
    }

    /** A header line: the environment found under the name is kept, or
        replaced by a new object that takes over its values, and becomes
        the current one. */
    method ParseHeader(h: Header, filename: string, lineno: int, ghost cur: Option<string>)
      returns (cur': Option<Environment>, error: Option<string>)
      requires Valid() && (cur.Some? ==> cur.value in envs)
      modifies this
      ensures Valid()
      ensures forall n :: n in envs ==> envs[n] in old(envs.Values) || fresh(envs[n])
      ensures cur'.Some? ==> cur'.value.name in envs && envs[cur'.value.name] == cur'.value
      ensures match HeaderLine(Scan(old(State()), cur), filename, lineno, h)
        case Ok(s) => error.None? && s.envs == State() && cur'.Some? && s.cur == Some(cur'.value.name)
        case Err(m) => error == Some(m) && State() == old(State())
    {
      var found := if h.name in envs then Some(envs[h.name]) else None;
      ghost var s := Scan(old(State()), cur);
      assert Lookup(s.envs, h.name) == if found.Some? then Some(found.value.Data()) else None;
      if found.None? || (!HasParents(found.value.parents) && HasParents(h.parents)) {
        var values := if found.Some? then found.value.values else [];
        var env := Install(h.name, h.parents, values);
        cur', error := Some(env), None;
      } else if HasParents(h.parents) && h.parents != found.value.parents {
        cur', error := None, Some(InconsistentMsg(filename, lineno, h.name));
      } else {
        assert old(State())[h.name := found.value.Data()] == old(State());
        cur', error := found, None;
      }
    }

    /** `envs[name] = Environment(name, parents, values)`. */
    method Install(name: string, parents: Option<seq<string>>, values: seq<Binding>) returns (env: Environment)
      requires Valid() && EnvOk(Env(name, parents, values), name)
      modifies this
      ensures Valid() && fresh(env) && env.name == name && envs == old(envs)[name := env]
      ensures State() == old(State())[name := Env(name, parents, values)]
    {
      ghost var st := State();
      env := new Environment(name, parents, values);
      envs := envs[name := env];
      ghost var st' := st[name := Env(name, parents, values)];
      forall m | m in envs
        ensures envs[m].name == m && State()[m] == st'[m]
      {
        if m != name {
          assert envs[m].Data() == old(envs[m].Data());
        }
      }
      assert State() == st';
    }

    /** An assignment line: the parsed tuple is appended to the current
        environment's values, unless one of them has the same key. */
    method ParseAssignment(env: Environment, a: Assignment, filename: string, lineno: int)
      returns (error: Option<string>)
      requires Valid() && env.name in envs && envs[env.name] == env
      modifies env
      ensures Valid()
      ensures match AssignLine(Scan(old(State()), Some(env.name)), filename, lineno, a)
        case Ok(s) => error.None? && s.envs == State()
        case Err(m) => error == Some(m) && State() == old(State())
    {
      var b := BindingOf(a, env.name);
      ghost var r := AssignLine(Scan(old(State()), Some(env.name)), filename, lineno, a);
      if exists i :: 0 <= i < |env.values| && env.values[i].key == b.key && env.values[i].env == env.name {
        return Some(LineModel.ValueRedefinitionMsg(filename, lineno, a.key));
      }
      env.values := env.values + [b];
      forall m | m in envs
        ensures State()[m] == old(State())[env.name := env.Data()][m]
      {
        if m != env.name {
          assert envs[m] != env;
          assert envs[m].Data() == old(envs[m].Data());
        }
      }
      assert State() == old(State())[env.name := env.Data()];
      assert r == Ok(Scan(State(), Some(env.name)));
      assert EnvsOk(State());
      return None;
    }

    /** asdict(environments, name, extra_values). */
    method AsDict(name: string, extra: Option<seq<Write>>, depth: nat, test: ListTest)
      returns (r: Result<Heap, PyError>)
      requires Valid()
      ensures r == LegacyModel.AsDict(State(), name, extra, depth, test)
    {
      r := AsDictOf(State(), name, extra, depth, test);
    }
  }

  /** asdict on the records of the environments: a new container gets the
      extra values with their own new_lists, then the environment with its
      parents. */
  method AsDictOf(envs: Envs, name: string, extra: Option<seq<Write>>, depth: nat, test: ListTest)
    returns (r: Result<Heap, PyError>)
    requires EnvsOk(envs)
    ensures r == LegacyModel.AsDict(envs, name, extra, depth, test)
  {
    var c := new Container();
    if extra.Some? {
      var e := c.AddEach(extra.value, [], test);
      if e.Err? {
        return Err(e.error);
      }
    }
    assert LegacyModel.AsDict(envs, name, extra, depth, test) == AsDictInto(envs, name, c.heap, depth, test);
    var err := c.Fill(envs, name, depth, test);
    if err.Some? {
      return Err(err.value);
    }
    return Ok(c.heap);
  }

  /** The container asdict fills, with every object reachable from it.
      After an exception the objects are left as the failing write found
      them, which no caller of asdict can observe. */
  class Container {
    var heap: Heap

    constructor ()
      ensures heap == Empty()
    {
      heap := Empty();
    }

    /** asdict(environments, name, container=self) for a nested call:
        the own values in sorted order with a new new_lists, then each
        parent in order. Each nested call takes one unit of depth. */
    method Fill(envs: Envs, name: string, depth: nat, test: ListTest) returns (error: Option<PyError>)
      requires EnvsOk(envs) && HeapOk(heap)
      modifies this
      ensures HeapOk(heap)
      ensures match AsDictInto(envs, name, old(heap), depth, test)
        case Ok(h) => error.None? && heap == h
        case Err(e) => error == Some(e)
      decreases depth, 1
    {
      if depth == 0 {
        return Some(RecursionError);
      }
      if name !in envs {
        return Some(KeyError);
      }
      AsDictIntoUnfold(envs, name, old(heap), depth, test);
      var e := envs[name];
      error := AddOwn(e, test);
      if error.None? {
        match e.parents {
          case None =>
          case Some(ps) => error := FillParents(envs, ps, depth - 1, test);
        }
      }
    }

    /** The loop of asdict over the parents, each written into this container. */
    method FillParents(envs: Envs, ps: seq<string>, depth: nat, test: ListTest) returns (error: Option<PyError>)
      requires EnvsOk(envs) && HeapOk(heap)
      modifies this
      ensures HeapOk(heap)
      ensures match AsDictParents(envs, ps, 0, old(heap), depth, test)
        case Ok(h) => error.None? && heap == h
        case Err(e) => error == Some(e)
      decreases depth, 2
    {
      var i := 0;
      while i < |ps|
        invariant 0 <= i <= |ps| && HeapOk(heap)
        invariant AsDictParents(envs, ps, i, heap, depth, test) == AsDictParents(envs, ps, 0, old(heap), depth, test)
      {
        var err := Fill(envs, ps[i], depth, test);
        if err.Some? {
          return err;
        }
        i := i + 1;
      }
      return None;
    }

    /** The first loop of asdict: sorted(values), then each value with a
        new new_lists. */
    method AddOwn(e: Env, test: ListTest) returns (error: Option<PyError>)
      requires HeapOk(heap)
      modifies this
      ensures HeapOk(heap)
      ensures match OwnValues(e, old(heap), test)
        case Ok(h) => error.None? && heap == h
        case Err(x) => error == Some(x)
    {
      var sorted := Sorted(e.values);
      if sorted.Err? {
        return Some(sorted.error);
      }
      var r := AddEach(WritesOf(sorted.value), [], test);
      if r.Err? {
        return Some(r.error);
      }
      return None;
    }

    /** `for key, value in values: _add_value(container, key, value, new_lists)`. */
    method AddEach(ws: seq<Write>, newLists: seq<nat>, test: ListTest) returns (r: Result<seq<nat>, PyError>)
      requires HeapOk(heap)
      modifies this
      ensures HeapOk(heap)
      ensures match LegacyModel.AddEach(old(heap), newLists, ws, test)
        case Ok((h, n)) => r == Ok(n) && heap == h
        case Err(e) => r == Err(e)
    {
      var nl := newLists;
      var i := 0;
      while i < |ws|
        invariant 0 <= i <= |ws| && HeapOk(heap)
        invariant LegacyModel.AddEach(old(heap), newLists, ws[..i], test) == Ok((heap, nl))
      {
        AddEachSnoc(old(heap), newLists, ws, i, test);
        var a := AddValue(ws[i].key, ws[i].value, nl, test);
        if a.Err? {
          AddEachStops(old(heap), newLists, ws, i + 1, test);
          return Err(a.error);
        }
        nl := a.value;
        i := i + 1;
      }
      assert ws[..|ws|] == ws;
      return Ok(nl);
    }

    /** _add_value(container, key, value, new_lists): walk the leading key
        parts, then write the last one. */
    method AddValue(key: Key, value: Scalar, newLists: seq<nat>, test: ListTest) returns (r: Result<seq<nat>, PyError>)
      requires HeapOk(heap)
      modifies this
      ensures HeapOk(heap)
      ensures match LegacyModel.AddValue(old(heap), key, value, newLists, test)
        case Ok((h, n)) => r == Ok(n) && heap == h
        case Err(e) => r == Err(e)
    {
      if |key| == 0 {
        return Err(IndexError);
      }
      var c := Ref(0);
      var nl := newLists;
      var idx := 0;
      while idx < |key| - 1
        invariant 0 <= idx < |key| && HeapOk(heap) && ItemIn(heap, c)
        invariant AddFrom(heap, c, key, idx, value, nl, test) == LegacyModel.AddValue(old(heap), key, value, newLists, test)
      {
        var step := Step(c, key[idx], key[idx + 1].Index?, nl);
        if step.Err? {
          return Err(step.error);
        }
        c, nl := step.value.0, step.value.1;
        idx := idx + 1;
      }
      var err := SetLast(c, key[idx], value, nl, test);
      if err.Some? {
        return Err(err.value);
      }
      return Ok(nl);
    }

    /** One pass of the loop of _add_value over the leading parts. */
    method Step(c: Item, s: Seg, forIndex: bool, newLists: seq<nat>) returns (r: Result<(Item, seq<nat>), PyError>)
      requires HeapOk(heap) && ItemIn(heap, c)
      modifies this
      ensures HeapOk(heap)
      ensures match Descend(old(heap), c, s, forIndex, newLists)
        case Ok((h, c', n)) => r == Ok((c', n)) && heap == h && ItemIn(heap, c')
        case Err(e) => r == Err(e)
    {
      if c.Atom? {
        return Err(TypeError);
      }
      var x := c.id;
      match heap[x]
      case DictObj(f) =>
        if s in f {
          return Ok((f[s], newLists));
        }
        var next, nl := NewContainer(forIndex, newLists);
        assert ObjIn(heap, DictObj(f[s := next])) by { assert heap[x] == old(heap)[x]; }
        heap := Replace(heap, x, DictObj(f[s := next]));
        return Ok((next, nl));
      case ListObj(items) =>
        if s.Field? {
          return Err(TypeError);
        }
        if !(-|items| <= s.n < |items|) {
          return Err(IndexError);
        }
        var pos := if s.n < 0 then s.n + |items| else s.n;
        if SegIn(s, items) {
          return Ok((items[pos], newLists));
        }
        var next, nl := NewContainer(forIndex, newLists);
        assert ObjIn(heap, ListObj(items[pos := next])) by { assert heap[x] == old(heap)[x]; }
        heap := Replace(heap, x, ListObj(items[pos := next]));
        return Ok((next, nl));
    }

    /** `[]`, recorded in new_lists, before an int part; `{}` before a str part. */
    method NewContainer(forIndex: bool, newLists: seq<nat>) returns (next: Item, nl: seq<nat>)
      requires HeapOk(heap)
      modifies this
      ensures (heap, next, nl) == Fresh(old(heap), forIndex, newLists)
    {
      next := Ref(|heap|);
      heap := heap + [if forIndex then ListObj([]) else DictObj(map[])];
      nl := if forIndex then newLists + [next.id] else newLists;
    }

    /** The last part: append to a list that passes `container in
        new_lists`, set a dict entry that is not there yet. */
    method SetLast(c: Item, last: Seg, value: Scalar, newLists: seq<nat>, test: ListTest) returns (error: Option<PyError>)
      requires HeapOk(heap) && ItemIn(heap, c)
      modifies this
      ensures HeapOk(heap)
      ensures match Final(old(heap), c, last, value, newLists, test)
        case Ok(h) => error.None? && heap == h
        case Err(e) => error == Some(e)
    {
      match c
      case Ref(x) =>
        match heap[x] {
          case ListObj(items) =>
            if Admitted(heap, x, newLists, test) {
              heap := Replace(heap, x, ListObj(items + [Atom(value)]));
            }
          case DictObj(f) =>
            if last !in f {
              heap := Replace(heap, x, DictObj(f[last := Atom(value)]));
            }
        }
        return None;
      case Atom(a) =>
        if a.Str? && last.Field? && Contains(a.s, last.name) {
          return None;
        }
        return Some(TypeError);
    }
  }

  /** The writes up to ws[i] are those up to ws[i - 1] followed by ws[i]. */
  lemma AddEachSnoc(h: Heap, newLists: seq<nat>, ws: seq<Write>, i: nat, test: ListTest)
    requires HeapOk(h) && i < |ws|
    ensures LegacyModel.AddEach(h, newLists, ws[..i + 1], test) ==
      match LegacyModel.AddEach(h, newLists, ws[..i], test)
      case Err(e) => Err(e)
      case Ok((h1, n1)) => LegacyModel.AddValue(h1, ws[i].key, ws[i].value, n1, test)
  {
    assert ws[..i + 1][..i] == ws[..i];
  }

  /** Once a write raises, the loop over the writes raises the same way. */
  lemma {:induction false} AddEachStops(h: Heap, newLists: seq<nat>, ws: seq<Write>, n: nat, test: ListTest)
    requires HeapOk(h) && 0 < n <= |ws| && LegacyModel.AddEach(h, newLists, ws[..n], test).Err?
    ensures LegacyModel.AddEach(h, newLists, ws, test) == LegacyModel.AddEach(h, newLists, ws[..n], test)
    decreases |ws| - n
  {
    if n == |ws| {
      assert ws[..n] == ws;
    } else {
      assert ws[..n + 1][..n] == ws[..n];
      AddEachStops(h, newLists, ws, n + 1, test);
    }
  }
}
