/** The operations of src/template_specialize/main.py as the code performs
    them: the merge of a value walks its list by index and its dict entry
    by entry, the merge of an environment adds each parent to the visited
    set around the recursive call and takes it out again, and the parse
    of a decoded document inserts its environments one by one into the
    store it is given. Each is proved to compute its function in
    TreeModel. */
module TreeMerge {
  import opened Wrappers
  import opened TreeModel

  /** _merge_values(src, dst). The result is the merged value; a dict or
      list of dst's kind is updated position by position, a scalar src
      is returned as it is. */
  method MergeValues(src: Tree, dst: Tree) returns (r: Tree)
    ensures r == Merge(src, dst)
    decreases src, 1
  {
    match src {
      case Leaf(_) => r := src;
      case List(xs) => r := MergeListValues(src, dst);
      case Dict(es) => r := MergeDictValues(src, dst);
    }
  }

  /** The list branch: dst's list (a fresh one when dst is no list) has
      its first positions merged and the rest of src appended. */
  method MergeListValues(src: Tree, dst: Tree) returns (r: Tree)
    requires src.List?
    ensures r == Merge(src, dst)
    decreases src, 0
  {
    var xs := src.items;
    ghost var d0 := if dst.List? then dst.items else [];
    var d := if dst.List? then dst.items else [];
    var lenDst := |d|;
    var idx := 0;
    while idx < |xs|
      invariant 0 <= idx <= |xs| && lenDst == |d0|
      invariant |d| == Max(idx, lenDst)
      invariant forall j :: 0 <= j < idx ==> d[j] == MergedAt(xs, d0, j)
      invariant forall j :: idx <= j < |d| ==> d[j] == d0[j]
    {
      assert xs[idx] in xs;
      if idx < lenDst {
        var v := MergeValues(xs[idx], d[idx]);
        d := d[idx := v];
      } else {
        var v := MergeValues(xs[idx], None_);
        d := d + [v];
      }
      idx := idx + 1;
    }
    MergeList(xs, dst);
    r := List(d);
  }

  /** The dict branch: each entry of src, in order, is merged into what
      dst's dict (a fresh one when dst is no dict) holds under its key. */
  method MergeDictValues(src: Tree, dst: Tree) returns (r: Tree)
    requires src.Dict?
    ensures r == Merge(src, dst)
    decreases src, 0
  {
    var es := src.entries;
    ghost var d0 := if dst.Dict? then dst.entries else [];
    var d := if dst.Dict? then dst.entries else [];
    var n := 0;
    while n < |es|
      invariant 0 <= n <= |es|
      invariant d == MergeEntries(src, d0, n)
    {
      var e := es[n];
      assert e in es;
      var v := MergeValues(e.value, Get(d, e.key));
      assert MergeEntries(src, d0, n + 1) == Store(d, e.key, v);
      d := Store(d, e.key, v);
      n := n + 1;
    }
    assert Merge(src, dst) == Dict(MergeEntries(src, d0, |es|));
    r := Dict(d);
  }

  /** _merge_environment(envs, name, values, visited): an unknown name
      fails, then the parents are merged and the record's own values go
      last. */
  method MergeEnvironment(envs: map<string, Tree>, name: string, values: Tree, visited: set<string>)
    returns (r: Result<Tree, MergeError>)
    requires StoreOk(envs)
    ensures r == MergeEnv(envs, name, values, visited)
    decreases envs.Keys - visited, if name in envs then 2 else 0, 0
  {
    if name !in envs {
      return Err(Unknown(name));
    }
    r := MergeParentsOf(envs, name, values, visited);
    if r.Ok? {
      var own := Field(envs[name], "values");
      if own.Dict? {
        var merged := MergeValues(own, r.value);
        r := Ok(merged);
      }
    }
  }

  /** The loop over the parents of name. Each parent is in the visited
      set for the length of its own merge only, so the set is the same
      after every parent as before. */
  method MergeParentsOf(envs: map<string, Tree>, name: string, values: Tree, visited: set<string>)
    returns (r: Result<Tree, MergeError>)
    requires StoreOk(envs) && name in envs
    ensures r == MergeParents(envs, Parents(envs[name]), 0, values, visited)
    decreases envs.Keys - visited, 1, 2
  {
    var parents := Parents(envs[name]);
    var acc := values;
    var i := 0;
    ghost var goal := MergeParents(envs, parents, 0, values, visited);
    while i < |parents|
      invariant 0 <= i <= |parents|
      invariant goal == MergeParents(envs, parents, i, acc, visited)
    {
      var sub := MergeNextParent(envs, parents, i, acc, visited);
      if sub.Err? {
        return Err(sub.error);
      }
      acc := sub.value;
      i := i + 1;
    }
    r := Ok(acc);
  }

  /** One turn of the loop over the parents: a parent that is being
      merged already is circular, any other is merged. An error ends the
      loop with it; a merge goes on with the next parent. */
  method MergeNextParent(envs: map<string, Tree>, ps: seq<string>, i: nat, values: Tree, visited: set<string>)
    returns (r: Result<Tree, MergeError>)
    requires StoreOk(envs) && i < |ps|
    ensures r.Err? ==> MergeParents(envs, ps, i, values, visited) == Err(r.error)
    ensures r.Ok? ==> MergeParents(envs, ps, i, values, visited) == MergeParents(envs, ps, i + 1, r.value, visited)
    decreases envs.Keys - visited, 1, 1
  {
    ParentStep(envs, ps, i, values, visited);
    var p := ps[i];
    if p in visited {
      return Err(Circular(p));
    }
    var visited';
    r, visited' := MergeParent(envs, p, values, visited);
  }

  /** visited.add(p); merge p; visited.remove(p): the set comes back as
      it was. */
  method MergeParent(envs: map<string, Tree>, p: string, values: Tree, visited: set<string>)
    returns (r: Result<Tree, MergeError>, visited': set<string>)
    requires StoreOk(envs) && p !in visited
    ensures r == MergeEnv(envs, p, values, visited + {p})
    ensures visited' == visited
    decreases envs.Keys - visited, 1, 0
  {
    visited' := visited + {p};
    assert p in envs ==> envs.Keys - visited' < envs.Keys - visited;
    r := MergeEnvironment(envs, p, values, visited');
    visited' := visited' - {p};
  }

  /** One parent: its outcome, then the later parents. */
  lemma ParentStep(envs: map<string, Tree>, ps: seq<string>, i: nat, values: Tree, visited: set<string>)
    requires StoreOk(envs) && i < |ps|
    ensures MergeParents(envs, ps, i, values, visited) ==
      match ParentOutcome(envs, ps[i], values, visited)
      case Err(e) => Err(e)
      case Ok(v) => MergeParents(envs, ps, i + 1, v, visited)
  {
  }

  /** The store that _parse_environments fills and _merge_environment reads. */
  class Environments {
    var envs: map<string, Tree>

    constructor ()
      ensures envs == map[]
    {
      envs := map[];
    }

    /** _parse_environments(doc, envs): the entries of a decoded document
        are checked in order and inserted as they are; the first rejected
        one raises, and the entries inserted before it stay. */
    method Parse(doc: Tree) returns (err: Option<ParseError>)
      modifies this
      ensures (envs, err) == ParseEnvironments(old(envs), doc)
    {
      if !doc.Dict? {
        return Some(InvalidContainer);
      }
      var es := doc.entries;
      var i := 0;
      while i < |es|
        invariant 0 <= i <= |es|
        invariant ParseEntries(old(envs), es) == ParseEntries(envs, es[i..])
      {
        var e := es[i];
        assert es[i..][0] == e && es[i..][1..] == es[i + 1..];
        err := CheckRecord(e);
        if err.Some? {
          return;
        }
        envs := envs[e.key.s := e.value];
        i := i + 1;
      }
      err := None;
    }

    /** The checks of one document entry, in the source's order. */
    method CheckRecord(e: Entry) returns (err: Option<ParseError>)
      ensures err == CheckEntry(envs, e)
    {
      if !e.key.Str? {
        return Some(InvalidName(e.key));
      }
      var name := e.key.s;
      if name in envs {
        return Some(Redefinition(name));
      }
      if !e.value.Dict? {
        return Some(InvalidMetadata(name));
      }
      var parents := Field(e.value, "parents");
      if parents != None_ && (!parents.List? || exists j :: 0 <= j < |parents.items| && !IsString(parents.items[j])) {
        return Some(InvalidParents(name));
      }
      var vals := Field(e.value, "values");
      if vals != None_ && !vals.Dict? {
        return Some(InvalidValues(name));
      }
      err := None;
    }

    /** _merge_environment(envs, name, values, set()), as the command line
        calls it. */
    method MergeInto(name: string, values: Tree) returns (r: Result<Tree, MergeError>)
      requires StoreOk(envs)
      ensures r == MergeEnv(envs, name, values, {})
    {
      r := MergeEnvironment(envs, name, values, {});
    }
  }
}
