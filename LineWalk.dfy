/** What the walk over parents (_iterate_values_inner) guarantees: every
    value it hands out belongs to some environment, every error it reports
    names an environment and one of its declared parents, it reports
    nothing when the inheritance graph is closed and acyclic, and it stops
    on a cycle after reporting it. */
module LineWalk {
  import opened Literals
  import opened LineModel

  /** Every value handed out is one of the values of some environment. */
  predicate FromStore(st: Store, events: seq<Event>) {
    forall i :: 0 <= i < |events| && events[i].Yield? ==>
      exists m :: m in st && events[i].kv in st[m].values
  }

  /** The message names environment m and one of its parents p: p is
      unknown, or p is already being walked. */
  predicate ParentReport(st: Store, msg: string) {
    exists m, p :: m in st && p in st[m].parents &&
      ((p !in st && msg == UnknownParentMsg(st[m], p)) || msg == CircularParentMsg(st[m], p))
  }

  predicate ReportsNamed(st: Store, events: seq<Event>) {
    forall i :: 0 <= i < |events| && events[i].Report? ==> ParentReport(st, events[i].msg)
  }

  predicate NoReports(events: seq<Event>) {
    forall i :: 0 <= i < |events| ==> events[i].Yield?
  }

  lemma JoinEvents(st: Store, a: seq<Event>, b: seq<Event>)
    requires FromStore(st, a) && FromStore(st, b) && ReportsNamed(st, a) && ReportsNamed(st, b)
    ensures FromStore(st, a + b) && ReportsNamed(st, a + b)
  {
    forall i | 0 <= i < |a + b| ensures (a + b)[i] == if i < |a| then a[i] else b[i - |a|] {
    }
  }

  /** The walk hands out only stored values, and reports only named parents. */
  lemma WalkSound(st: Store, name: string, onPath: set<string>)
    requires name in st
    ensures FromStore(st, Walk(st, name, onPath)) && ReportsNamed(st, Walk(st, name, onPath))
    decreases st.Keys - onPath, 1, 0
  {
    WalkParentsSound(st, name, 0, onPath);
    var own := Yields(SortByKey(st[name].values, KeyOf));
    forall i | 0 <= i < |own| ensures own[i].kv in st[name].values {
      assert own[i].kv in multiset(st[name].values);
    }
    JoinEvents(st, WalkParents(st, st[name], 0, onPath), own);
  }

  lemma WalkParentsSound(st: Store, name: string, i: nat, onPath: set<string>)
    requires name in st && i <= |st[name].parents|
    ensures var w := WalkParents(st, st[name], i, onPath);
      FromStore(st, w) && ReportsNamed(st, w)
    decreases st.Keys - onPath, 0, |st[name].parents| - i
  {
    var env := st[name];
    if i < |env.parents| {
      var p := env.parents[i];
      var unknown := if p !in st then [Report(UnknownParentMsg(env, p))] else [];
      var circular := if p in onPath then [Report(CircularParentMsg(env, p))] else [];
      if p in st && p !in onPath {
        assert st.Keys - (onPath + {p}) < st.Keys - onPath;
        WalkSound(st, p, onPath + {p});
        WalkParentsSound(st, name, i + 1, onPath);
        JoinEvents(st, Walk(st, p, onPath + {p}), WalkParents(st, env, i + 1, onPath));
      } else {
        assert p in env.parents;
        assert ReportsNamed(st, unknown + circular);
        WalkParentsSound(st, name, i + 1, onPath);
        JoinEvents(st, unknown + circular, WalkParents(st, env, i + 1, onPath));
      }
    }
  }

  /** rank strictly decreases from every environment to each of its parents,
      and every parent is known: the inheritance graph is closed and acyclic. */
  predicate Ranked(st: Store, rank: map<string, nat>) {
    forall m :: m in st ==>
      && m in rank
      && forall j :: 0 <= j < |st[m].parents| ==>
           st[m].parents[j] in st && st[m].parents[j] in rank && rank[st[m].parents[j]] < rank[m]
  }

  /** In a closed acyclic store the walk reports nothing. */
  lemma RankedNoReports(st: Store, rank: map<string, nat>, name: string, onPath: set<string>)
    requires Ranked(st, rank) && name in st
    requires forall q :: q in onPath ==> q in rank && rank[name] <= rank[q]
    ensures NoReports(Walk(st, name, onPath))
    decreases st.Keys - onPath, 1, 0
  {
    RankedParentsNoReports(st, rank, name, 0, onPath);
  }

  lemma RankedParentsNoReports(st: Store, rank: map<string, nat>, name: string, i: nat, onPath: set<string>)
    requires Ranked(st, rank) && name in st && i <= |st[name].parents|
    requires forall q :: q in onPath ==> q in rank && rank[name] <= rank[q]
    ensures NoReports(WalkParents(st, st[name], i, onPath))
    decreases st.Keys - onPath, 0, |st[name].parents| - i
  {
    var env := st[name];
    if i < |env.parents| {
      var p := env.parents[i];
      assert p in st && rank[p] < rank[name];
      assert p !in onPath;
      assert st.Keys - (onPath + {p}) < st.Keys - onPath;
      RankedNoReports(st, rank, p, onPath + {p});
      RankedParentsNoReports(st, rank, name, i + 1, onPath);
    }
  }

  /** An environment that names itself as its only parent: the walk enters
      it once more, reports the cycle there, and hands out its own values
      twice (once for the parent, once for itself). */
  lemma SelfParent(st: Store, n: string)
    requires n in st && st[n].parents == [n]
    ensures var own := Yields(SortByKey(st[n].values, KeyOf));
      Walk(st, n, {}) == [Report(CircularParentMsg(st[n], n))] + own + own
  {
    var own := Yields(SortByKey(st[n].values, KeyOf));
    SelfParentInner(st, n);
    SelfParentOuter(st, n);
    assert Walk(st, n, {}) == WalkParents(st, st[n], 0, {}) + own;
  }

  /** Inside its own walk, the self-parent is reported and not entered. */
  lemma SelfParentInner(st: Store, n: string)
    requires n in st && st[n].parents == [n]
    ensures Walk(st, n, {n}) == [Report(CircularParentMsg(st[n], n))] + Yields(SortByKey(st[n].values, KeyOf))
  {
    CircularParent(st, st[n], {n});
  }

  /** A single parent already on the path is reported and not entered. */
  lemma CircularParent(st: Store, env: EnvData, onPath: set<string>)
    requires |env.parents| == 1 && env.parents[0] in st && env.parents[0] in onPath
    ensures WalkParents(st, env, 0, onPath) == [Report(CircularParentMsg(env, env.parents[0]))]
  {
    assert WalkParents(st, env, 1, onPath) == [];
  }

  /** From outside, the self-parent is entered once. */
  lemma SelfParentOuter(st: Store, n: string)
    requires n in st && st[n].parents == [n]
    ensures WalkParents(st, st[n], 0, {}) == Walk(st, n, {n})
  {
    EnteredParent(st, st[n], {});
    assert {} + {n} == {n};
  }

  /** A single known parent not yet on the path is entered. */
  lemma EnteredParent(st: Store, env: EnvData, onPath: set<string>)
    requires |env.parents| == 1 && env.parents[0] in st && env.parents[0] !in onPath
    ensures WalkParents(st, env, 0, onPath) == Walk(st, env.parents[0], onPath + {env.parents[0]})
  {
    assert WalkParents(st, env, 1, onPath) == [];
  }

  /** A parent that is not in the store is reported, naming the child. */
  lemma UnknownParentReported(st: Store, name: string, onPath: set<string>, j: nat)
    requires name in st && j < |st[name].parents| && st[name].parents[j] !in st
    ensures Report(UnknownParentMsg(st[name], st[name].parents[j])) in Walk(st, name, onPath)
  {
    ParentEventsIn(st, name, 0, onPath, j);
  }

  /** The events for parent j are part of the events for parents i onwards. */
  lemma {:induction false} ParentEventsIn(st: Store, name: string, i: nat, onPath: set<string>, j: nat)
    requires name in st && i <= j < |st[name].parents| && st[name].parents[j] !in st
    ensures Report(UnknownParentMsg(st[name], st[name].parents[j])) in WalkParents(st, st[name], i, onPath)
    decreases j - i
  {
    var env := st[name];
    var p := env.parents[i];
    if i < j {
      ParentEventsIn(st, name, i + 1, onPath, j);
      if p in st && p !in onPath {
        assert st.Keys - (onPath + {p}) < st.Keys - onPath;
      }
    }
  }
}
