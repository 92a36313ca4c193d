/** What parse and asdict of the oldest engine guarantee, proved on the
    functions of LegacyModel. */
module LegacyProps {
  import opened Wrappers
  import opened Literals
  import opened LineSyntax
  import opened LegacySyntax
  import opened LegacyModel
  import LineModel

  // ---------------------------------------------------------------------
  // parse

  /** A comment line changes nothing. */
  lemma CommentSkipped(s: Scan, filename: string, lineno: int, line: string)
    requires ScanOk(s) && IsComment(line)
    ensures ParseLine(s, filename, lineno, line) == Ok(s)
  {
  }

  /** A header line: a new name gets an environment with the parents
      given (None without parentheses), parents given to an environment
      without any replace its attribute and keep its values, different
      parents for an environment that has some raise, and anything else
      only makes the environment current. */
  lemma HeaderCases(s: Scan, filename: string, lineno: int, line: string, h: Header)
    requires ScanOk(s) && MatchLegacyHeader(line) == Some(h)
    ensures h.name !in s.envs ==>
      ParseLine(s, filename, lineno, line) == Ok(Scan(s.envs[h.name := Env(h.name, h.parents, [])], Some(h.name)))
    ensures h.name in s.envs && HasParents(h.parents) && !HasParents(s.envs[h.name].parents) ==>
      ParseLine(s, filename, lineno, line) ==
        Ok(Scan(s.envs[h.name := Env(h.name, h.parents, s.envs[h.name].values)], Some(h.name)))
    ensures h.name in s.envs && HasParents(h.parents) && HasParents(s.envs[h.name].parents) && h.parents != s.envs[h.name].parents ==>
      ParseLine(s, filename, lineno, line) == Err(InconsistentMsg(filename, lineno, h.name))
    ensures h.name in s.envs && (!HasParents(h.parents) || h.parents == s.envs[h.name].parents) ==>
      ParseLine(s, filename, lineno, line) == Ok(Scan(s.envs, Some(h.name)))
  {
    LegacyLineKindsExclusive(line);
    if h.name in s.envs {
      assert s.envs[h.name := s.envs[h.name]] == s.envs;
    }
  }

  /** An assignment line under a current environment appends its value,
      unless that environment already has a value under the same key,
      which raises. */
  lemma AssignmentCases(s: Scan, filename: string, lineno: int, line: string, a: Assignment)
    requires ScanOk(s) && s.cur.Some? && MatchLegacyAssignment(line) == Some(a)
    ensures var e := s.envs[s.cur.value];
      var b := Binding(ParseKey(a.key), ParseValue(a.value), s.cur.value);
      ParseLine(s, filename, lineno, line) ==
        if exists i :: 0 <= i < |e.values| && e.values[i].key == b.key then
          Err(LineModel.ValueRedefinitionMsg(filename, lineno, a.key))
        else Ok(Scan(s.envs[s.cur.value := Env(e.name, e.parents, e.values + [b])], s.cur))
  {
    LegacyLineKindsExclusive(line);
  }

  /** A line that is no comment, no header, and no assignment under a
      current environment raises a syntax error that quotes it. */
  lemma SyntaxErrorLine(s: Scan, filename: string, lineno: int, line: string)
    requires ScanOk(s) && !IsComment(line) && MatchLegacyHeader(line).None?
    requires s.cur.None? || MatchLegacyAssignment(line).None?
    ensures ParseLine(s, filename, lineno, line) == Err(LegacySyntaxMsg(filename, lineno, line))
  {
  }

  /** What a later state keeps of an earlier one: every environment is
      still there, its values are a prefix of its later values, and
      parents once given never change. */
  predicate Keeps(s: Envs, t: Envs) {
    forall n :: n in s ==>
      && n in t
      && s[n].values <= t[n].values
      && (HasParents(s[n].parents) ==> t[n].parents == s[n].parents)
  }

  lemma KeepsTrans(a: Envs, b: Envs, c: Envs)
    requires Keeps(a, b) && Keeps(b, c)
    ensures Keeps(a, c)
  {
    forall n | n in a ensures n in c && a[n].values <= c[n].values {
      assert a[n].values <= b[n].values <= c[n].values;
    }
  }

  /** One line keeps what it finds: a header reopening an environment
      carries its values over, and only an environment without parents
      takes new ones. */
  lemma ParseLineKeeps(s: Scan, filename: string, lineno: int, line: string)
    requires ScanOk(s) && ParseLine(s, filename, lineno, line).Ok?
    ensures Keeps(s.envs, ParseLine(s, filename, lineno, line).value.envs)
  {
    if !IsComment(line) {
      match MatchLegacyHeader(line)
      case Some(h) => HeaderKeeps(s, filename, lineno, h);
      case None => AssignKeeps(s, filename, lineno, MatchLegacyAssignment(line).value);
    }
  }

  lemma HeaderKeeps(s: Scan, filename: string, lineno: int, h: Header)
    requires ScanOk(s) && HeaderLine(s, filename, lineno, h).Ok?
    ensures Keeps(s.envs, HeaderLine(s, filename, lineno, h).value.envs)
  {
    var e := Reopen(Lookup(s.envs, h.name), h.name, h.parents).value;
    assert HeaderLine(s, filename, lineno, h).value.envs == s.envs[h.name := e];
    if h.name in s.envs {
      var f := s.envs[h.name];
      assert f.values <= e.values;
      assert HasParents(f.parents) ==> e.parents == f.parents;
    }
  }

  lemma AssignKeeps(s: Scan, filename: string, lineno: int, a: Assignment)
    requires ScanOk(s) && s.cur.Some? && AssignLine(s, filename, lineno, a).Ok?
    ensures Keeps(s.envs, AssignLine(s, filename, lineno, a).value.envs)
  {
  }

  /** Over any lines, successful or not, the environments only grow. */
  lemma {:induction false} ParseFromKeeps(s: Scan, filename: string, lines: seq<string>)
    requires ScanOk(s)
    ensures match ParseFrom(s, filename, lines)
      case Ok(t) => Keeps(s.envs, t.envs)
      case Err((e, _)) => Keeps(s.envs, e)
    decreases |lines|
  {
    if |lines| > 0 {
      var prefix := lines[..|lines| - 1];
      ParseFromKeeps(s, filename, prefix);
      match ParseFrom(s, filename, prefix)
      case Err(_) =>
      case Ok(t) =>
        if ParseLine(t, filename, |lines|, lines[|lines| - 1]).Ok? {
          ParseLineKeeps(t, filename, |lines|, lines[|lines| - 1]);
          KeepsTrans(s.envs, t.envs, ParseLine(t, filename, |lines|, lines[|lines| - 1]).value.envs);
        }
    }
  }

  /** parse stops at the first line that raises: the lines after it are
      never looked at, and the environments are those the lines before it
      left. */
  lemma {:induction false} FirstErrorStops(s: Scan, filename: string, lines: seq<string>, k: nat)
    requires ScanOk(s) && k < |lines|
    requires ParseFrom(s, filename, lines[..k]).Ok?
    requires ParseLine(ParseFrom(s, filename, lines[..k]).value, filename, k + 1, lines[k]).Err?
    ensures ParseFrom(s, filename, lines) ==
      Err((ParseFrom(s, filename, lines[..k]).value.envs,
           ParseLine(ParseFrom(s, filename, lines[..k]).value, filename, k + 1, lines[k]).error))
    decreases |lines|
  {
    var prefix := lines[..|lines| - 1];
    if k == |lines| - 1 {
      assert prefix == lines[..k];
    } else {
      assert prefix[..k] == lines[..k] && prefix[k] == lines[k];
      FirstErrorStops(s, filename, prefix, k);
    }
  }

  /** Environment.parse keeps every environment of the dictionary it is
      given, with its values and its parents, whether it raises or not. */
  lemma ParseKeeps(envs: Envs, filename: string, lines: seq<string>)
    requires EnvsOk(envs)
    ensures Keeps(envs, Parse(envs, filename, lines).0)
  {
    ParseFromKeeps(Scan(envs, None), filename, lines);
  }

  // ---------------------------------------------------------------------
  // The containers only grow

  /** o' is what o became: of the same kind, a dict with every entry it
      had, a list at least as long, and as long as before unless it may
      grow. */
  predicate KeptObj(o: Obj, o': Obj, mayGrow: bool) {
    match o
    case DictObj(f) => o'.DictObj? && forall k :: k in f ==> k in o'.fields && o'.fields[k] == f[k]
    case ListObj(a) => o'.ListObj? && |a| <= |o'.items| && (!mayGrow ==> |o'.items| == |a|)
  }

  /** h' keeps every object of h; a list may grow only if the test of
      `container in new_lists` can let it, that is when it is one of the
      lists in grow or any list compared by equality. */
  predicate Grows(h: Heap, h': Heap, grow: seq<nat>, test: ListTest) {
    |h| <= |h'| && forall x :: 0 <= x < |h| ==> KeptObj(h[x], h'[x], test == ByEquality || x in grow)
  }

  /** new_lists gained only objects numbered from bound on. */
  predicate Extends(n: seq<nat>, n': seq<nat>, bound: nat) {
    forall y :: y in n' ==> y in n || bound <= y
  }

  lemma KeptTrans(o1: Obj, o2: Obj, o3: Obj, g1: bool, g2: bool)
    requires KeptObj(o1, o2, g1) && KeptObj(o2, o3, g2)
    ensures KeptObj(o1, o3, g1 || g2)
  {
  }

  lemma GrowsTrans(h1: Heap, h2: Heap, h3: Heap, n1: seq<nat>, n2: seq<nat>, test: ListTest)
    requires Grows(h1, h2, n1, test) && Grows(h2, h3, n2, test) && Extends(n1, n2, |h1|)
    ensures Grows(h1, h3, n1, test)
  {
    forall x | 0 <= x < |h1| ensures KeptObj(h1[x], h3[x], test == ByEquality || x in n1) {
      KeptTrans(h1[x], h2[x], h3[x], test == ByEquality || x in n1, test == ByEquality || x in n2);
    }
  }

  lemma GrowsRefl(h: Heap, n: seq<nat>, test: ListTest)
    ensures Grows(h, h, n, test)
  {
    forall x | 0 <= x < |h| ensures KeptObj(h[x], h[x], test == ByEquality || x in n) {
      match h[x]
      case DictObj(_) =>
      case ListObj(_) =>
    }
  }

  /** A step into the next container changes no list's length. */
  lemma DescendGrows(h: Heap, c: Item, s: Seg, forIndex: bool, n: seq<nat>)
    requires HeapOk(h) && ItemIn(h, c) && Descend(h, c, s, forIndex, n).Ok?
    ensures Grows(h, Descend(h, c, s, forIndex, n).value.0, [], ByIdentity)
    ensures Extends(n, Descend(h, c, s, forIndex, n).value.2, |h|)
  {
    var h' := Descend(h, c, s, forIndex, n).value.0;
    forall y | 0 <= y < |h| ensures KeptObj(h[y], h'[y], false) {
      if y != c.id {
        GrowsRefl(h, [], ByIdentity);
      }
    }
  }

  /** The last key part lengthens a list only if `container in new_lists`
      lets it. */
  lemma FinalGrows(h: Heap, c: Item, last: Seg, value: Scalar, n: seq<nat>, test: ListTest)
    requires HeapOk(h) && ItemIn(h, c) && Final(h, c, last, value, n, test).Ok?
    ensures Grows(h, Final(h, c, last, value, n, test).value, n, test)
  {
    var h' := Final(h, c, last, value, n, test).value;
    forall y | 0 <= y < |h| ensures KeptObj(h[y], h'[y], test == ByEquality || y in n) {
      if c.Atom? || y != c.id {
        GrowsRefl(h, n, test);
      }
    }
  }

  lemma {:induction false} AddFromGrows(h: Heap, c: Item, key: Key, i: nat, value: Scalar, n: seq<nat>, test: ListTest)
    requires HeapOk(h) && ItemIn(h, c) && i < |key| && AddFrom(h, c, key, i, value, n, test).Ok?
    ensures Grows(h, AddFrom(h, c, key, i, value, n, test).value.0, n, test)
    ensures Extends(n, AddFrom(h, c, key, i, value, n, test).value.1, |h|)
    decreases |key| - i
  {
    if i == |key| - 1 {
      FinalGrows(h, c, key[i], value, n, test);
    } else {
      var (h1, c1, n1) := Descend(h, c, key[i], key[i + 1].Index?, n).value;
      DescendGrows(h, c, key[i], key[i + 1].Index?, n);
      AddFromGrows(h1, c1, key, i + 1, value, n1, test);
      var h2 := AddFrom(h1, c1, key, i + 1, value, n1, test).value.0;
      assert Grows(h, h1, n, test) by {
        forall x | 0 <= x < |h| ensures KeptObj(h[x], h1[x], test == ByEquality || x in n) {
          KeptTrans(h[x], h1[x], h1[x], false, test == ByEquality || x in n);
          GrowsRefl(h1, n, test);
        }
      }
      GrowsTrans(h, h1, h2, n, n1, test);
    }
  }

  /** _add_value keeps every object; the lists that existed before the
      call can grow only through the test of new_lists, and new_lists
      gains only lists made by the call. */
  lemma AddValueGrows(h: Heap, key: Key, value: Scalar, n: seq<nat>, test: ListTest)
    requires HeapOk(h) && AddValue(h, key, value, n, test).Ok?
    ensures Grows(h, AddValue(h, key, value, n, test).value.0, n, test)
    ensures Extends(n, AddValue(h, key, value, n, test).value.1, |h|)
  {
    AddFromGrows(h, Ref(0), key, 0, value, n, test);
  }

  lemma {:induction false} AddEachGrows(h: Heap, n: seq<nat>, ws: seq<Write>, test: ListTest)
    requires HeapOk(h) && AddEach(h, n, ws, test).Ok?
    ensures Grows(h, AddEach(h, n, ws, test).value.0, n, test)
    ensures Extends(n, AddEach(h, n, ws, test).value.1, |h|)
    decreases |ws|
  {
    if |ws| == 0 {
      GrowsRefl(h, n, test);
    } else {
      var prefix := ws[..|ws| - 1];
      var w := ws[|ws| - 1];
      AddEachGrows(h, n, prefix, test);
      var (h1, n1) := AddEach(h, n, prefix, test).value;
      AddValueGrows(h1, w.key, w.value, n1, test);
      GrowsTrans(h, h1, AddValue(h1, w.key, w.value, n1, test).value.0, n, n1, test);
    }
  }

  /** asdict into a container keeps every object of it. Each call starts an
      empty new_lists, so when the test is by identity no list that
      existed before the call, the lists of the child included when the
      call is for a parent, ever gets longer. */
  lemma {:induction false} AsDictIntoGrows(envs: Envs, name: string, h: Heap, depth: nat, test: ListTest)
    requires EnvsOk(envs) && HeapOk(h) && AsDictInto(envs, name, h, depth, test).Ok?
    ensures Grows(h, AsDictInto(envs, name, h, depth, test).value, [], test)
    decreases depth, 0, 0
  {
    OwnValuesGrows(envs[name], h, test);
    var h1 := OwnValues(envs[name], h, test).value;
    match envs[name].parents
    case None =>
    case Some(ps) =>
      AsDictParentsGrows(envs, ps, 0, h1, depth - 1, test);
      GrowsTrans(h, h1, AsDictParents(envs, ps, 0, h1, depth - 1, test).value, [], [], test);
  }

  lemma OwnValuesGrows(e: Env, h: Heap, test: ListTest)
    requires HeapOk(h) && OwnValues(e, h, test).Ok?
    ensures Grows(h, OwnValues(e, h, test).value, [], test)
  {
    AddEachGrows(h, [], WritesOf(Sorted(e.values).value), test);
  }

  lemma {:induction false} AsDictParentsGrows(envs: Envs, ps: seq<string>, i: nat, h: Heap, depth: nat, test: ListTest)
    requires EnvsOk(envs) && HeapOk(h) && i <= |ps| && AsDictParents(envs, ps, i, h, depth, test).Ok?
    ensures Grows(h, AsDictParents(envs, ps, i, h, depth, test).value, [], test)
    decreases depth, 1, |ps| - i
  {
    if i == |ps| {
      GrowsRefl(h, [], test);
    } else {
      AsDictIntoGrows(envs, ps[i], h, depth, test);
      var h1 := AsDictInto(envs, ps[i], h, depth, test).value;
      AsDictParentsGrows(envs, ps, i + 1, h1, depth, test);
      GrowsTrans(h, h1, AsDictParents(envs, ps, i + 1, h1, depth, test).value, [], [], test);
    }
  }

  /** With the test by identity the parents leave every list that existed
      when they started, the child's lists among them, as long as it was. */
  lemma ParentsNeverExtend(envs: Envs, ps: seq<string>, h: Heap, depth: nat)
    requires EnvsOk(envs) && HeapOk(h) && AsDictParents(envs, ps, 0, h, depth, ByIdentity).Ok?
    ensures var h' := AsDictParents(envs, ps, 0, h, depth, ByIdentity).value;
      forall x :: 0 <= x < |h| && h[x].ListObj? ==> h'[x].ListObj? && |h'[x].items| == |h[x].items|
  {
    var h' := AsDictParents(envs, ps, 0, h, depth, ByIdentity).value;
    AsDictParentsGrows(envs, ps, 0, h, depth, ByIdentity);
    forall x | 0 <= x < |h| && h[x].ListObj? ensures h'[x].ListObj? && |h'[x].items| == |h[x].items| {
      assert KeptObj(h[x], h'[x], false);
    }
  }

  // ---------------------------------------------------------------------
  // The first writer wins on dict routes

  /** The item reached from c by the key parts p, through dicts only. */
  function PathFrom(h: Heap, c: Item, p: Key): Option<Item>
    decreases |p|
  {
    if |p| == 0 then Some(c)
    else if c.Ref? && c.id < |h| && h[c.id].DictObj? && p[0] in h[c.id].fields then
      PathFrom(h, h[c.id].fields[p[0]], p[1..])
    else None
  }

  /** What a dict route reaches in h it still reaches in any heap that keeps h. */
  lemma {:induction false} PathKept(h: Heap, h': Heap, n: seq<nat>, test: ListTest, c: Item, p: Key)
    requires Grows(h, h', n, test) && PathFrom(h, c, p).Some?
    ensures PathFrom(h', c, p) == PathFrom(h, c, p)
    decreases |p|
  {
    if |p| > 0 {
      assert KeptObj(h[c.id], h'[c.id], test == ByEquality || c.id in n);
      PathKept(h, h', n, test, h[c.id].fields[p[0]], p[1..]);
    }
  }

  /** A value written earlier under a key is never replaced: after any
      number of further asdict calls into the same container, its dict
      route reaches the same item. Values of the extra values thus win
      over the environment's, and the environment's over its parents'. */
  lemma FirstWriterWins(envs: Envs, name: string, h: Heap, depth: nat, test: ListTest, p: Key)
    requires EnvsOk(envs) && HeapOk(h) && AsDictInto(envs, name, h, depth, test).Ok?
    requires PathFrom(h, Ref(0), p).Some?
    ensures PathFrom(AsDictInto(envs, name, h, depth, test).value, Ref(0), p) == PathFrom(h, Ref(0), p)
  {
    AsDictIntoGrows(envs, name, h, depth, test);
    PathKept(h, AsDictInto(envs, name, h, depth, test).value, [], test, Ref(0), p);
  }

  /** Only str parts. */
  predicate AllFields(p: Key) { forall i :: 0 <= i < |p| ==> p[i].Field? }

  /** Writing the key parts p below c meets only dicts, and the last part
      is not yet set. */
  predicate Open(h: Heap, c: Item, p: Key)
    decreases |p|
  {
    && c.Ref? && c.id < |h| && h[c.id].DictObj?
    && (|p| > 0 && p[0] in h[c.id].fields ==> |p| > 1 && Open(h, h[c.id].fields[p[0]], p[1..]))
  }

  lemma {:induction false} AddFromPlaces(h: Heap, c: Item, key: Key, i: nat, value: Scalar, n: seq<nat>, test: ListTest)
    requires HeapOk(h) && ItemIn(h, c) && i < |key| && AllFields(key) && Open(h, c, key[i..])
    ensures AddFrom(h, c, key, i, value, n, test).Ok?
    ensures PathFrom(AddFrom(h, c, key, i, value, n, test).value.0, c, key[i..]) == Some(Atom(value))
    decreases |key| - i
  {
    if i == |key| - 1 {
      LastPlaced(h, c, key, i, value, n, test);
    } else {
      var (h1, c1, n1) := Descend(h, c, key[i], key[i + 1].Index?, n).value;
      DescendOpen(h, c, key, i, n);
      AddFromPlaces(h1, c1, key, i + 1, value, n1, test);
      AddFromGrows(h1, c1, key, i + 1, value, n1, test);
      var h' := AddFrom(h1, c1, key, i + 1, value, n1, test).value.0;
      assert KeptObj(h1[c.id], h'[c.id], test == ByEquality || c.id in n1);
      assert key[i..][0] == key[i] && key[i..][1..] == key[i + 1..];
    }
  }

  lemma LastPlaced(h: Heap, c: Item, key: Key, i: nat, value: Scalar, n: seq<nat>, test: ListTest)
    requires HeapOk(h) && ItemIn(h, c) && i == |key| - 1 && Open(h, c, key[i..])
    ensures AddFrom(h, c, key, i, value, n, test).Ok?
    ensures PathFrom(AddFrom(h, c, key, i, value, n, test).value.0, c, key[i..]) == Some(Atom(value))
  {
    var p := key[i..];
    assert p == [key[i]] && p[1..] == [];
    var h' := AddFrom(h, c, key, i, value, n, test).value.0;
    assert h'[c.id] == DictObj(h[c.id].fields[key[i] := Atom(value)]);
  }

  /** The step into the container for the next part stays on an open route. */
  lemma DescendOpen(h: Heap, c: Item, key: Key, i: nat, n: seq<nat>)
    requires HeapOk(h) && ItemIn(h, c) && i < |key| - 1 && AllFields(key) && Open(h, c, key[i..])
    ensures Descend(h, c, key[i], key[i + 1].Index?, n).Ok?
    ensures var (h1, c1, _) := Descend(h, c, key[i], key[i + 1].Index?, n).value;
      && Open(h1, c1, key[i + 1..])
      && h1[c.id].DictObj? && key[i] in h1[c.id].fields && h1[c.id].fields[key[i]] == c1
  {
    var p := key[i..];
    assert p[0] == key[i] && p[1..] == key[i + 1..];
    var (h1, c1, _) := Descend(h, c, key[i], key[i + 1].Index?, n).value;
    if key[i] !in h[c.id].fields {
      assert h1[|h|] == DictObj(map[]);
    }
  }

  /** A key of str parts whose route meets only dicts and is not yet set
      is written, and the value can be found under it. */
  lemma AddValuePlaces(h: Heap, key: Key, value: Scalar, n: seq<nat>, test: ListTest)
    requires HeapOk(h) && |key| > 0 && AllFields(key) && Open(h, Ref(0), key)
    ensures AddValue(h, key, value, n, test).Ok?
    ensures PathFrom(AddValue(h, key, value, n, test).value.0, Ref(0), key) == Some(Atom(value))
  {
    assert key[0..] == key;
    AddFromPlaces(h, Ref(0), key, 0, value, n, test);
  }

  // ---------------------------------------------------------------------
  // sorted

  /** sorted() either raises or yields the values in strictly ascending
      key order, each exactly once. */
  lemma SortedOrders(values: seq<Binding>)
    requires DistinctKeys(values, BindingKey) && Sorted(values).Ok?
    ensures SortedBy(Sorted(values).value, BindingKey)
    ensures multiset(Sorted(values).value) == multiset(values)
  {
    SortByKeySorted(values, BindingKey);
  }

  /** The order in which the values were read does not change what
      sorted() gives. */
  lemma SortedIgnoresOrder(xs: seq<Binding>, ys: seq<Binding>)
    requires multiset(xs) == multiset(ys) && DistinctKeys(xs, BindingKey)
    ensures Sorted(xs) == Sorted(ys)
  {
    ClashCarried(xs, ys);
    ClashCarried(ys, xs);
    SortIgnoresOrder(xs, ys, BindingKey);
  }

  lemma ClashCarried(xs: seq<Binding>, ys: seq<Binding>)
    requires multiset(xs) <= multiset(ys)
    ensures AnyClash(xs) ==> AnyClash(ys)
  {
    if AnyClash(xs) {
      var i, j :| 0 <= i < |xs| && 0 <= j < |xs| && Clash(xs[i].key, xs[j].key);
      assert xs[i] in multiset(ys) && xs[j] in multiset(ys);
      var i' :| 0 <= i' < |ys| && ys[i'] == xs[i];
      var j' :| 0 <= j' < |ys| && ys[j'] == xs[j];
    }
  }

  /** Two stores that differ only in the order each environment's values
      were read. */
  predicate SameUpToOrder(envs: Envs, envs': Envs) {
    && envs.Keys == envs'.Keys
    && forall n :: n in envs ==>
         envs[n].parents == envs'[n].parents && multiset(envs[n].values) == multiset(envs'[n].values)
  }

  /** asdict does not depend on the order of the value lines. */
  lemma {:induction false} AsDictIgnoresOrder(envs: Envs, envs': Envs, name: string, h: Heap, depth: nat, test: ListTest)
    requires EnvsOk(envs) && EnvsOk(envs') && SameUpToOrder(envs, envs') && HeapOk(h)
    ensures AsDictInto(envs, name, h, depth, test) == AsDictInto(envs', name, h, depth, test)
    decreases depth, 0, 0
  {
    if depth == 0 || name !in envs {
      assert depth == 0 || name !in envs'.Keys;
      AsDictIntoEdge(envs, name, h, depth, test);
      AsDictIntoEdge(envs', name, h, depth, test);
    } else {
      AsDictIntoUnfold(envs, name, h, depth, test);
      AsDictIntoUnfold(envs', name, h, depth, test);
      OwnThenParentsIgnoreOrder(envs, envs', envs[name], envs'[name], h, depth - 1, test);
    }
  }

  lemma AsDictIntoEdge(envs: Envs, name: string, h: Heap, depth: nat, test: ListTest)
    requires EnvsOk(envs) && HeapOk(h) && (depth == 0 || name !in envs)
    ensures AsDictInto(envs, name, h, depth, test) == if depth == 0 then Err(RecursionError) else Err(KeyError)
  {
  }

  lemma {:induction false} OwnThenParentsIgnoreOrder(envs: Envs, envs': Envs, e: Env, e': Env, h: Heap, depth: nat, test: ListTest)
    requires EnvsOk(envs) && EnvsOk(envs') && SameUpToOrder(envs, envs') && HeapOk(h)
    requires e.parents == e'.parents && multiset(e.values) == multiset(e'.values) && DistinctKeys(e.values, BindingKey)
    ensures AfterOwn(envs, e.parents, h, OwnValues(e, h, test), depth, test) ==
            AfterOwn(envs', e'.parents, h, OwnValues(e', h, test), depth, test)
    decreases depth, 3, 0
  {
    OwnValuesIgnoreOrder(e, e', h, test);
    AfterOwnIgnoresOrder(envs, envs', e.parents, h, OwnValues(e, h, test), depth, test);
  }

  lemma OwnValuesIgnoreOrder(e: Env, e': Env, h: Heap, test: ListTest)
    requires HeapOk(h) && multiset(e.values) == multiset(e'.values) && DistinctKeys(e.values, BindingKey)
    ensures OwnValues(e, h, test) == OwnValues(e', h, test)
  {
    SortedIgnoresOrder(e.values, e'.values);
  }

  lemma AsDictIntoUnfold(envs: Envs, name: string, h: Heap, depth: nat, test: ListTest)
    requires EnvsOk(envs) && HeapOk(h) && depth > 0 && name in envs
    ensures AsDictInto(envs, name, h, depth, test) ==
      AfterOwn(envs, envs[name].parents, h, OwnValues(envs[name], h, test), depth - 1, test)
  {
  }

  lemma {:induction false} AfterOwnIgnoresOrder(envs: Envs, envs': Envs, ps: Option<seq<string>>, h: Heap, own: Result<Heap, PyError>, depth: nat, test: ListTest)
    requires EnvsOk(envs) && EnvsOk(envs') && SameUpToOrder(envs, envs') && HeapOk(h)
    requires own.Ok? ==> HeapOk(own.value) && |h| <= |own.value|
    ensures AfterOwn(envs, ps, h, own, depth, test) == AfterOwn(envs', ps, h, own, depth, test)
    decreases depth, 2, 0
  {
    if own.Ok? && ps.Some? {
      ParentsIgnoreOrder(envs, envs', ps.value, 0, own.value, depth, test);
    }
  }

  lemma {:induction false} ParentsIgnoreOrder(envs: Envs, envs': Envs, ps: seq<string>, i: nat, h: Heap, depth: nat, test: ListTest)
    requires EnvsOk(envs) && EnvsOk(envs') && SameUpToOrder(envs, envs') && HeapOk(h) && i <= |ps|
    ensures AsDictParents(envs, ps, i, h, depth, test) == AsDictParents(envs', ps, i, h, depth, test)
    decreases depth, 1, |ps| - i
  {
    if i < |ps| {
      AsDictIgnoresOrder(envs, envs', ps[i], h, depth, test);
      match AsDictInto(envs, ps[i], h, depth, test)
      case Err(_) =>
      case Ok(h1) => ParentsIgnoreOrder(envs, envs', ps, i + 1, h1, depth, test);
    }
  }

  // ---------------------------------------------------------------------
  // Missing and circular parents

  /** An unknown environment name raises KeyError, before anything is written. */
  lemma UnknownRaises(envs: Envs, name: string, h: Heap, depth: nat, test: ListTest, ps: seq<string>, i: nat)
    requires EnvsOk(envs) && HeapOk(h) && depth > 0 && i < |ps| && ps[i] !in envs
    ensures AsDictInto(envs, ps[i], h, depth, test) == Err(KeyError)
    ensures AsDictParents(envs, ps, i, h, depth, test) == Err(KeyError)
  {
  }

  /** An environment that is its own parent never yields a container. */
  lemma {:induction false} SelfParentFails(envs: Envs, name: string, h: Heap, depth: nat, test: ListTest)
    requires EnvsOk(envs) && HeapOk(h) && name in envs
    requires envs[name].parents.Some? && name in envs[name].parents.value
    ensures AsDictInto(envs, name, h, depth, test).Err?
    decreases depth, 1, 0
  {
    if depth > 0 {
      var ps := envs[name].parents.value;
      var j :| 0 <= j < |ps| && ps[j] == name;
      var own := OwnValues(envs[name], h, test);
      AsDictIntoUnfold(envs, name, h, depth, test);
      if own.Ok? {
        CycleStops(envs, name, ps, 0, j, own.value, depth - 1, test);
        assert AfterOwn(envs, Some(ps), h, own, depth - 1, test) == AsDictParents(envs, ps, 0, own.value, depth - 1, test);
      }
    }
  }

  /** The loop over the parents reaches the cycle unless an earlier parent raises. */
  lemma {:induction false} CycleStops(envs: Envs, name: string, ps: seq<string>, i: nat, j: nat, h: Heap, depth: nat, test: ListTest)
    requires EnvsOk(envs) && HeapOk(h) && name in envs && i <= j < |ps| && ps[j] == name
    requires envs[name].parents.Some? && name in envs[name].parents.value
    ensures AsDictParents(envs, ps, i, h, depth, test).Err?
    decreases depth, 2, j - i
  {
    var r := AsDictInto(envs, ps[i], h, depth, test);
    if i == j {
      SelfParentFails(envs, name, h, depth, test);
    } else if r.Ok? {
      CycleStops(envs, name, ps, i + 1, j, r.value, depth, test);
    }
  }

  /** An environment without values whose first parent is itself ends in
      RecursionError, whatever the depth. */
  lemma {:induction false} SelfParentRecursion(envs: Envs, name: string, h: Heap, depth: nat, test: ListTest)
    requires EnvsOk(envs) && HeapOk(h) && name in envs && envs[name].values == []
    requires envs[name].parents.Some? && |envs[name].parents.value| > 0 && envs[name].parents.value[0] == name
    ensures AsDictInto(envs, name, h, depth, test) == Err(RecursionError)
    decreases depth
  {
    if depth > 0 {
      assert OwnValues(envs[name], h, test) == Ok(h) by {
        assert Sorted([]) == Ok([]) && WritesOf([]) == [];
      }
      SelfParentRecursion(envs, name, h, depth - 1, test);
      var ps := envs[name].parents.value;
      assert AsDictParents(envs, ps, 0, h, depth - 1, test) == Err(RecursionError);
      assert AfterOwn(envs, Some(ps), h, Ok(h), depth - 1, test) == Err(RecursionError);
    }
  }
}
