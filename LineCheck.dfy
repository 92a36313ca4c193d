/** What _iterate_values guarantees: the `lists` and `types` tables
    describe the tree asdict has built from the values handed on so far,
    so once check() reports nothing, asdict writes every value without an
    exception and the last value written for a key is the one it holds. */
module LineCheck {
  import opened Wrappers
  import opened Literals
  import opened LineModel
  import opened LineTree
  import opened LineWalk

  // ---------------------------------------------------------------------
  // The tables against the tree

  function TypeOf(tb: Tables, p: Key): Option<Kind> {
    if p in tb.types then Some(tb.types[p]) else None
  }

  /** The tables describe tree t: the kind of every node below the root,
      and the length of every list. */
  ghost predicate TabInv(tb: Tables, t: Value) {
    && t.Dict?
    && (forall p :: |p| > 0 ==> TypeOf(tb, p) == TypeAt(t, p))
    && (forall p :: |p| > 0 ==> ListLength(tb, p) == LenAt(t, p))
  }

  /** No part of the key is a negative index. */
  predicate NonNegKey(k: Key) {
    forall m :: 0 <= m < |k| ==> k[m].Index? ==> k[m].n >= 0
  }

  /** What the checks at prefix k[..m] accept: the kind recorded there (if
      any) is the kind of part m, and an index is at most the list length. */
  predicate StepOk(tb: Tables, k: Key, m: nat)
    requires 1 <= m < |k|
  {
    && (TypeOf(tb, k[..m]).None? || TypeOf(tb, k[..m]) == Some(SegKind(k[m])))
    && (k[m].Index? ==> k[m].n <= ListLength(tb, k[..m]))
  }

  predicate PathOk(tb: Tables, k: Key) {
    forall m :: 1 <= m < |k| ==> StepOk(tb, k, m)
  }

  /** The whole key is new or already a leaf. */
  predicate LeafOk(tb: Tables, k: Key) {
    TypeOf(tb, k).None? || TypeOf(tb, k) == Some(KLeaf)
  }

  /** p is one of the first n proper prefixes k[..1] .. k[..n]. */
  predicate OnPath(p: Key, k: Key, n: nat) {
    1 <= |p| <= n && n < |k| && p == k[..|p|]
  }

  // ---------------------------------------------------------------------
  // The checks on one value

  /** Once set, the skip flag stays set, and errors are only added. */
  lemma {:induction false} PrefixRunNotes(c: Check, kv: KeyValue, n: nat)
    requires n < |kv.key|
    ensures NotesFrom(c, PrefixRun(c, kv, n))
  {
    if n > 0 {
      var c0 := PrefixRun(c, kv, n - 1);
      PrefixRunNotes(c, kv, n - 1);
      PrefixStepNotes(c0, kv, n - 1);
      NotesTransitive(c, c0, PrefixStep(c0, kv, n - 1));
    }
  }

  lemma NotesTransitive(a: Check, b: Check, c: Check)
    requires NotesFrom(a, b) && NotesFrom(b, c)
    ensures NotesFrom(a, c)
  {
    assert c.errors[..|b.errors|][..|a.errors|] == c.errors[..|a.errors|];
  }

  /** From check state c to r, errors were only added, a set skip flag
      stayed set, and a new skip came with an error. */
  predicate NotesFrom(c: Check, r: Check) {
    && |c.errors| <= |r.errors| && r.errors[..|c.errors|] == c.errors
    && (c.skip ==> r.skip)
    && (r.skip ==> c.skip || |r.errors| > 0)
  }

  lemma PrefixStepNotes(c: Check, kv: KeyValue, idx: nat)
    requires idx + 1 < |kv.key|
    ensures NotesFrom(c, PrefixStep(c, kv, idx))
  {
  }

  /** A skipped value always leaves an error behind. */
  lemma CheckValueNotes(tb: Tables, kv: KeyValue, errors: seq<string>)
    requires |kv.key| > 0
    ensures var r := CheckValue(tb, kv, errors);
      && |errors| <= |r.errors| && r.errors[..|errors|] == errors
      && (r.skip ==> |r.errors| > 0)
  {
    var c0 := PrefixRun(Check(tb, errors, false), kv, |kv.key| - 1);
    PrefixRunNotes(Check(tb, errors, false), kv, |kv.key| - 1);
    var r := CheckValue(tb, kv, errors);
    assert r.errors[..|c0.errors|][..|errors|] == r.errors[..|errors|];
  }

  /** The table updates that the check at prefix k[..m] makes when it
      passes: the kind of part m, and the list length it implies. */
  function PathStep(tb: Tables, k: Key, m: nat): Tables
    requires 1 <= m < |k|
  {
    var sub := k[..m];
    var lists := if k[m].Index? then tb.lists[sub := Max(ListLength(tb, sub), k[m].n + 1)] else tb.lists;
    Tables(lists, tb.types[sub := SegKind(k[m])])
  }

  /** The updates of the first n prefix checks. */
  function PathTables(tb: Tables, k: Key, n: nat): Tables
    requires n < |k|
  {
    if n == 0 then tb else PathStep(PathTables(tb, k, n - 1), k, n)
  }

  /** One prefix check that does not skip passed against the tables it
      saw and made only its table updates. */
  lemma PrefixStepClean(c: Check, kv: KeyValue, idx: nat)
    requires idx + 1 < |kv.key| && !PrefixStep(c, kv, idx).skip
    ensures StepOk(c.tables, kv.key, idx + 1)
    ensures PrefixStep(c, kv, idx) == c.(tables := PathStep(c.tables, kv.key, idx + 1))
  {
    var k := kv.key;
    assert k[..idx + 1 + 1][..idx + 1] == k[..idx + 1];
    var r := PrefixStep(c, kv, idx);
    var e := PathStep(c.tables, k, idx + 1);
    assert r.tables.types == e.types;
  }

  /** A run of prefix checks that does not skip: it started unskipped,
      every check passed against the tables it started from, and the run
      made only its table updates. */
  lemma PrefixRunClean(c: Check, kv: KeyValue, n: nat)
    requires n < |kv.key| && !PrefixRun(c, kv, n).skip
    ensures !c.skip
    ensures forall m :: 1 <= m <= n ==> StepOk(c.tables, kv.key, m)
    ensures PrefixRun(c, kv, n) == c.(tables := PathTables(c.tables, kv.key, n))
  {
    PrefixRunSkipMono(c, kv, 0, n);
    PrefixRunTables(c, kv, n);
    forall m | 1 <= m <= n ensures StepOk(c.tables, kv.key, m) {
      PrefixRunStepOk(c, kv, n, m);
    }
  }

  /** A run that does not skip made only its table updates. */
  lemma {:induction false} PrefixRunTables(c: Check, kv: KeyValue, n: nat)
    requires n < |kv.key| && !PrefixRun(c, kv, n).skip
    ensures PrefixRun(c, kv, n) == c.(tables := PathTables(c.tables, kv.key, n))
  {
    if n > 0 {
      PrefixRunLast(c, kv, n);
      PrefixRunTables(c, kv, n - 1);
    }
  }

  /** The last check of a run that does not skip made its table updates. */
  lemma PrefixRunLast(c: Check, kv: KeyValue, n: nat)
    requires 1 <= n < |kv.key| && !PrefixRun(c, kv, n).skip
    ensures !PrefixRun(c, kv, n - 1).skip
    ensures StepOk(PrefixRun(c, kv, n - 1).tables, kv.key, n)
    ensures PrefixRun(c, kv, n).tables == PathStep(PrefixRun(c, kv, n - 1).tables, kv.key, n)
    ensures PrefixRun(c, kv, n).errors == PrefixRun(c, kv, n - 1).errors
  {
    PrefixStepClean(PrefixRun(c, kv, n - 1), kv, n - 1);
  }

  lemma {:induction false} PrefixRunSkipMono(c: Check, kv: KeyValue, m: nat, n: nat)
    requires m <= n < |kv.key| && !PrefixRun(c, kv, n).skip
    ensures !PrefixRun(c, kv, m).skip
    decreases n - m
  {
    if m < n {
      PrefixStepNotes(PrefixRun(c, kv, n - 1), kv, n - 1);
      PrefixRunSkipMono(c, kv, m, n - 1);
    }
  }

  /** In a run that does not skip, check m passed against the starting tables. */
  lemma PrefixRunStepOk(c: Check, kv: KeyValue, n: nat, m: nat)
    requires 1 <= m <= n < |kv.key| && !PrefixRun(c, kv, n).skip
    ensures StepOk(c.tables, kv.key, m)
  {
    PrefixRunStepAt(c, kv, n, m);
    StepOkAside(c.tables, kv.key, m);
  }

  /** Check m passed against the tables the checks before it made. */
  lemma PrefixRunStepAt(c: Check, kv: KeyValue, n: nat, m: nat)
    requires 1 <= m <= n < |kv.key| && !PrefixRun(c, kv, n).skip
    ensures StepOk(PathTables(c.tables, kv.key, m - 1), kv.key, m)
  {
    PrefixRunSkipMono(c, kv, m, n);
    PrefixRunLast(c, kv, m);
    PrefixRunTables(c, kv, m - 1);
  }

  /** The check at k[..n] sees, after the earlier checks, what it would
      have seen before them. */
  lemma StepOkAside(tb: Tables, k: Key, n: nat)
    requires 1 <= n < |k| && StepOk(PathTables(tb, k, n - 1), k, n)
    ensures StepOk(tb, k, n)
  {
    PathTablesAside(tb, k, n - 1, k[..n]);
  }

  /** The first n checks leave every other prefix as it was. */
  lemma {:induction false} PathTablesAside(tb: Tables, k: Key, n: nat, p: Key)
    requires n < |k| && !OnPath(p, k, n)
    ensures TypeOf(PathTables(tb, k, n), p) == TypeOf(tb, p)
    ensures ListLength(PathTables(tb, k, n), p) == ListLength(tb, p)
  {
    if n > 0 {
      assert p != k[..n];
      PathTablesAside(tb, k, n - 1, p);
    }
  }

  /** The first n checks record at prefix k[..j] the kind of part j and,
      for an index, the list length it implies. */
  lemma {:induction false} PathTablesOn(tb: Tables, k: Key, n: nat, p: Key)
    requires OnPath(p, k, n)
    ensures TypeOf(PathTables(tb, k, n), p) == Some(SegKind(k[|p|]))
    ensures ListLength(PathTables(tb, k, n), p) ==
            (if k[|p|].Index? then Max(ListLength(tb, p), k[|p|].n + 1) else ListLength(tb, p))
  {
    if |p| == n {
      PathTablesAside(tb, k, n - 1, p);
    } else {
      PathTablesOn(tb, k, n - 1, p);
      assert p != k[..n];
    }
  }

  /** The tables after all the checks on a value that pass. */
  function CleanTables(tb: Tables, k: Key): Tables
    requires |k| > 0
  {
    var t0 := PathTables(tb, k, |k| - 1);
    t0.(types := t0.types[k := KLeaf])
  }

  /** The final leaf update touches only the whole key. */
  lemma CleanTablesOff(tb: Tables, k: Key, p: Key)
    requires |k| > 0 && p != k
    ensures TypeOf(CleanTables(tb, k), p) == TypeOf(PathTables(tb, k, |k| - 1), p)
    ensures ListLength(CleanTables(tb, k), p) == ListLength(PathTables(tb, k, |k| - 1), p)
  {
  }

  /** All checks on one value pass: they passed against the tables before,
      and made only their table updates. */
  lemma CheckValueClean(tb: Tables, kv: KeyValue, errors: seq<string>)
    requires |kv.key| > 0 && !CheckValue(tb, kv, errors).skip
    ensures PathOk(tb, kv.key) && LeafOk(tb, kv.key)
    ensures CheckValue(tb, kv, errors) == Check(CleanTables(tb, kv.key), errors, false)
  {
    var k := kv.key;
    PrefixRunClean(Check(tb, errors, false), kv, |k| - 1);
    PathTablesAside(tb, k, |k| - 1, k);
    var r := CheckValue(tb, kv, errors);
    assert r.tables.types == CleanTables(tb, k).types;
  }

  // ---------------------------------------------------------------------
  // From the tables to the tree

  /** Checks that pass against tables describing t mean the key fits t. */
  lemma {:induction false} FitsFromTables(tb: Tables, t: Value, k: Key, m: nat, c: Value)
    requires TabInv(tb, t) && |k| > 0 && NonNegKey(k) && PathOk(tb, k) && LeafOk(tb, k) && m < |k|
    requires (m == 0 && c == t) || (m > 0 && c == NodeOr(Get(t, k[..m]), k[m]))
    ensures Fits(c, k[m..], m == 0)
    decreases |k| - m
  {
    var rest := k[m..];
    assert rest[0] == k[m];
    if m > 0 {
      assert StepOk(tb, k, m);
      if Get(t, k[..m]).Some? {
        assert TypeOf(tb, k[..m]) == Some(KindOf(c));
      } else {
        assert LenAt(t, k[..m]) == 0;
      }
    }
    var ch := Child(c, k[m]);
    GetSnoc(t, k[..m], k[m]);
    assert k[..m] + [k[m]] == k[..m + 1];
    assert m == 0 ==> c == Get(t, k[..m]).value;
    assert Get(t, k[..m + 1]) == (if m == 0 || Get(t, k[..m]).Some? then ch else None);
    if m + 1 == |k| {
      assert k[..m + 1] == k;
      assert ch.Some? ==> TypeOf(tb, k) == Some(KindOf(ch.value));
    } else {
      FitsFromTables(tb, t, k, m + 1, NodeOr(Get(t, k[..m + 1]), k[m + 1]));
      assert rest[1..] == k[m + 1..];
      assert NodeOr(ch, rest[1]) == NodeOr(Get(t, k[..m + 1]), k[m + 1]);
    }
  }

  /** A fresh container has the kind of the part that indexes it. */
  lemma FreshKind(next: Seg)
    ensures KindOf(Fresh(next)) == SegKind(next)
  {
  }

  /** Writing a value whose checks all passed: the write succeeds, the
      tables after the checks describe the new tree, the value sits at its
      key, every path branching off the key reads as before, and no earlier
      leaf lies on the key's way or below it. */
  lemma CleanWrite(tb: Tables, t: Value, kv: KeyValue, errors: seq<string>)
    requires TabInv(tb, t) && |kv.key| > 0 && NonNegKey(kv.key)
    requires !CheckValue(tb, kv, errors).skip
    ensures Put(t, kv.key, kv.value).Ok?
    ensures TabInv(CleanTables(tb, kv.key), Put(t, kv.key, kv.value).value)
    ensures Get(Put(t, kv.key, kv.value).value, kv.key) == Some(Leaf(kv.value))
    ensures forall p :: Diverges(p, kv.key) ==> Get(Put(t, kv.key, kv.value).value, p) == Get(t, p)
    ensures forall p :: p != kv.key && IsLeafAt(t, p) ==> Diverges(p, kv.key)
    ensures forall p :: IsLeafAt(Put(t, kv.key, kv.value).value, p) ==> p == kv.key || IsLeafAt(t, p)
  {
    var k := kv.key;
    CheckValueClean(tb, kv, errors);
    FitsFromTables(tb, t, k, 0, t);
    assert k[0..] == k;
    PutShape(t, k, kv.value, true);
    var t' := Put(t, k, kv.value).value;
    forall p | |p| > 0
      ensures TypeOf(CleanTables(tb, k), p) == TypeAt(t', p)
      ensures ListLength(CleanTables(tb, k), p) == LenAt(t', p)
    {
      CleanWriteAt(tb, t, kv, p);
    }
    forall p | Diverges(p, k) ensures Get(t', p) == Get(t, p) {
      PutAside(t, k, kv.value, true, p);
    }
    forall p | p != k && IsLeafAt(t, p) ensures Diverges(p, k) {
      LeafOffPath(tb, t, k, p);
    }
    forall p | IsLeafAt(t', p) ensures p == k || IsLeafAt(t, p) {
      NewLeaf(t, k, kv.value, p);
    }
  }

  /** A leaf of the written tree is the written key or an earlier leaf:
      the containers on the key's way keep their kind. */
  lemma NewLeaf(t: Value, k: Key, v: Scalar, p: Key)
    requires |k| > 0 && Fits(t, k, true)
    requires Put(t, k, v).Ok? && IsLeafAt(Put(t, k, v).value, p)
    ensures p == k || IsLeafAt(t, p)
  {
    var t' := Put(t, k, v).value;
    if p != k {
      if IsPrefix(p, k) {
        var j := |p|;
        PutAlong(t, k, v, true, j);
        var n := NodeOr(Get(t, k[..j]), k[j]);
        PutShape(n, k[j..], v, j == 0);
      } else if IsPrefix(k, p) {
        assert k + p[|k|..] == p;
        PutShape(t, k, v, true);
        GetBelow(t', k, p[|k|..]);
      } else {
        PutAside(t, k, v, true, p);
      }
    }
  }

  predicate IsLeafAt(t: Value, p: Key) {
    Get(t, p).Some? && Get(t, p).value.Leaf?
  }

  /** An earlier leaf is neither on the way to a key that passed the checks
      nor above it. */
  lemma LeafOffPath(tb: Tables, t: Value, k: Key, p: Key)
    requires TabInv(tb, t) && |k| > 0 && PathOk(tb, k) && LeafOk(tb, k)
    requires p != k && IsLeafAt(t, p)
    ensures Diverges(p, k)
  {
    assert |p| > 0;
    assert IsPrefix(p, k) ==> StepOk(tb, k, |p|);
    if IsPrefix(k, p) {
      GetPrefix(t, p, |k|);
    }
  }

  /** CleanWrite at one path. */
  lemma CleanWriteAt(tb: Tables, t: Value, kv: KeyValue, p: Key)
    requires TabInv(tb, t) && |kv.key| > 0 && NonNegKey(kv.key)
    requires PathOk(tb, kv.key) && LeafOk(tb, kv.key) && Fits(t, kv.key, true) && |p| > 0
    ensures Put(t, kv.key, kv.value).Ok?
    ensures TypeOf(CleanTables(tb, kv.key), p) == TypeAt(Put(t, kv.key, kv.value).value, p)
    ensures ListLength(CleanTables(tb, kv.key), p) == LenAt(Put(t, kv.key, kv.value).value, p)
  {
    var k := kv.key;
    var v := kv.value;
    PutShape(t, k, v, true);
    var t' := Put(t, k, v).value;
    var n := |k| - 1;
    if p == k {
      PathTablesAside(tb, k, n, k);
    } else if OnPath(p, k, n) {
      CleanWriteOnPath(tb, t, kv, p);
    } else if IsPrefix(k, p) {
      CleanWriteBelow(tb, t, kv, p);
    } else {
      assert Diverges(p, k);
      PathTablesAside(tb, k, n, p);
      PutAside(t, k, v, true, p);
    }
  }

  /** CleanWrite below the written leaf, where neither tree has a node. */
  lemma CleanWriteBelow(tb: Tables, t: Value, kv: KeyValue, p: Key)
    requires TabInv(tb, t) && |kv.key| > 0 && NonNegKey(kv.key)
    requires PathOk(tb, kv.key) && LeafOk(tb, kv.key) && Fits(t, kv.key, true)
    requires IsPrefix(kv.key, p) && p != kv.key
    ensures Put(t, kv.key, kv.value).Ok?
    ensures TypeOf(CleanTables(tb, kv.key), p) == TypeAt(Put(t, kv.key, kv.value).value, p)
    ensures ListLength(CleanTables(tb, kv.key), p) == LenAt(Put(t, kv.key, kv.value).value, p)
  {
    var k := kv.key;
    PutShape(t, k, kv.value, true);
    var t' := Put(t, k, kv.value).value;
    PathTablesAside(tb, k, |k| - 1, p);
    assert k + p[|k|..] == p;
    GetBelow(t, k, p[|k|..]);
    GetBelow(t', k, p[|k|..]);
  }

  /** CleanWrite at a container on the key's way. */
  lemma CleanWriteOnPath(tb: Tables, t: Value, kv: KeyValue, p: Key)
    requires TabInv(tb, t) && |kv.key| > 0 && NonNegKey(kv.key)
    requires PathOk(tb, kv.key) && Fits(t, kv.key, true) && OnPath(p, kv.key, |kv.key| - 1)
    ensures Put(t, kv.key, kv.value).Ok?
    ensures TypeOf(CleanTables(tb, kv.key), p) == TypeAt(Put(t, kv.key, kv.value).value, p)
    ensures ListLength(CleanTables(tb, kv.key), p) == LenAt(Put(t, kv.key, kv.value).value, p)
  {
    var k := kv.key;
    var j := |p|;
    PathTablesOn(tb, k, |k| - 1, p);
    CleanTablesOff(tb, k, p);
    var w := WrittenOnPath(t, k, kv.value, j);
    NodeOnPath(tb, t, k, j);
  }

  /** The node the written tree holds at depth j along the key: the write
      of the rest of the key into the node found (or created) there, of
      the same kind, and as long as the longer of the two lists. */
  lemma WrittenOnPath(t: Value, k: Key, v: Scalar, j: nat) returns (w: Value)
    requires |k| > 0 && Fits(t, k, true) && 1 <= j < |k|
    ensures Put(t, k, v).Ok? && Get(Put(t, k, v).value, k[..j]) == Some(w)
    ensures var node := NodeOr(Get(t, k[..j]), k[j]);
      && KindOf(w) == KindOf(node)
      && (node.List? && k[j].Index? ==> |w.items| == Max(|node.items|, k[j].n + 1))
  {
    PutAlong(t, k, v, true, j);
    var node := NodeOr(Get(t, k[..j]), k[j]);
    w := Put(node, k[j..], v).value;
    assert k[j..][0] == k[j];
    PutShape(node, k[j..], v, false);
  }

  /** The node a passing key finds (or creates) at depth j has the kind of
      part j, and a list there has the length the tables record. */
  lemma NodeOnPath(tb: Tables, t: Value, k: Key, j: nat)
    requires TabInv(tb, t) && 1 <= j < |k| && StepOk(tb, k, j)
    ensures var node := NodeOr(Get(t, k[..j]), k[j]);
      && KindOf(node) == SegKind(k[j])
      && (node.List? ==> |node.items| == ListLength(tb, k[..j]))
      && (!node.List? ==> ListLength(tb, k[..j]) == 0)
  {
    FreshKind(k[j]);
  }

  // ---------------------------------------------------------------------
  // The whole scan, and asdict after it

  /** The values of the Yield events, in order. */
  function Yielded(events: seq<Event>): seq<KeyValue>
    decreases |events|
  {
    if |events| == 0 then []
    else
      var e := events[|events| - 1];
      Yielded(events[..|events| - 1]) + (if e.Yield? then [e.kv] else [])
  }

  predicate NonNegEvents(events: seq<Event>) {
    forall i :: 0 <= i < |events| && events[i].Yield? ==> NonNegKey(events[i].kv.key)
  }

  /** Value i is the last one written to its key. */
  predicate IsLast(out: seq<KeyValue>, i: int)
    requires 0 <= i < |out|
  {
    forall j :: i < j < |out| ==> out[j].key != out[i].key
  }

  /** Last writer wins: the tree holds, at the key of every value, the
      last value written to that key. */
  ghost predicate LastWins(out: seq<KeyValue>, t: Value) {
    forall i :: 0 <= i < |out| && IsLast(out, i) ==> Get(t, out[i].key) == Some(Leaf(out[i].value))
  }

  /** Nothing else: every leaf of the tree sits at the key of some value. */
  ghost predicate LeavesFrom(out: seq<KeyValue>, t: Value) {
    forall p :: IsLeafAt(t, p) ==> exists i :: 0 <= i < |out| && out[i].key == p
  }

  lemma ScanEventGrows(s: Scan, e: Event)
    requires e.Yield? ==> |e.kv.key| > 0
    ensures var r := ScanEvent(s, e); |s.errors| <= |r.errors| && r.errors[..|s.errors|] == s.errors
  {
    if e.Yield? { CheckValueNotes(s.tables, e.kv, s.errors); }
  }

  /** Errors are only ever added during a scan. */
  lemma {:induction false} ScanErrorsGrow(s: Scan, events: seq<Event>)
    requires KeysNonEmpty(events)
    ensures var r := ScanEvents(s, events); |s.errors| <= |r.errors| && r.errors[..|s.errors|] == s.errors
    decreases |events|
  {
    if |events| > 0 {
      var prev := events[..|events| - 1];
      ScanErrorsGrow(s, prev);
      var s0 := ScanEvents(s, prev);
      ScanEventGrows(s0, events[|events| - 1]);
      var r := ScanEvents(s, events);
      assert r.errors[..|s0.errors|][..|s.errors|] == r.errors[..|s.errors|];
    }
  }

  /** A scan state with no error so far, from whose values asdict builds
      a tree that the tables describe and that holds exactly the keys of
      the values, each with the last value written to it. */
  ghost predicate CleanState(s: Scan) {
    && s.errors == [] && AllKeysNonEmpty(s.out)
    && Materialise(s.out).Ok?
    && TabInv(s.tables, Materialise(s.out).value)
    && LastWins(s.out, Materialise(s.out).value)
    && LeavesFrom(s.out, Materialise(s.out).value)
  }

  /** A scan from fresh tables that records no error: nothing was reported,
      every value was handed on, and asdict builds its tree without an
      exception, holding exactly the keys handed on, each with the last
      value written to it. */
  lemma {:induction false} CleanScan(events: seq<Event>)
    requires KeysNonEmpty(events) && NonNegEvents(events)
    requires ScanEvents(Scan(EmptyTables(), [], []), events).errors == []
    ensures var s := ScanEvents(Scan(EmptyTables(), [], []), events);
      NoReports(events) && s.out == Yielded(events) && CleanState(s)
    decreases |events|
  {
    var init := Scan(EmptyTables(), [], []);
    if |events| == 0 {
      CleanStart();
    } else {
      var prev := events[..|events| - 1];
      var e := events[|events| - 1];
      assert forall i :: 0 <= i < |prev| ==> prev[i] == events[i];
      var s0 := ScanEvents(init, prev);
      var s := ScanEvent(s0, e);
      assert ScanEvents(init, events) == s;
      ScanEventGrows(s0, e);
      CleanScan(prev);
      assert forall m :: e == Report(m) ==> m in s.errors;
      CleanScanStep(s0, e.kv);
      assert Yielded(events) == Yielded(prev) + [e.kv];
      NoReportsSnoc(events);
    }
  }

  lemma NoReportsSnoc(events: seq<Event>)
    requires |events| > 0 && NoReports(events[..|events| - 1]) && events[|events| - 1].Yield?
    ensures NoReports(events)
  {
    forall i | 0 <= i < |events| ensures events[i].Yield? {
      if i < |events| - 1 { assert events[i] == events[..|events| - 1][i]; }
    }
  }

  /** The fresh tables describe the empty dict asdict starts from. */
  lemma CleanStart()
    ensures CleanState(Scan(EmptyTables(), [], []))
  {
    forall p | |p| > 0 ensures TypeOf(EmptyTables(), p) == TypeAt(Dict(map[]), p) && LenAt(Dict(map[]), p) == 0 {
      FreshEmpty(Field(""), p);
    }
  }

  /** One value of a scan that stays free of errors keeps the scan clean. */
  lemma CleanScanStep(s0: Scan, kv: KeyValue)
    requires CleanState(s0) && |kv.key| > 0 && NonNegKey(kv.key)
    requires ScanEvent(s0, Yield(kv)).errors == []
    ensures ScanEvent(s0, Yield(kv)).out == s0.out + [kv]
    ensures CleanState(ScanEvent(s0, Yield(kv)))
  {
    var t0 := Materialise(s0.out).value;
    CheckValueNotes(s0.tables, kv, []);
    CleanWrite(s0.tables, t0, kv, []);
    CheckValueClean(s0.tables, kv, []);
    assert (s0.out + [kv])[..|s0.out|] == s0.out;
    var t := Put(t0, kv.key, kv.value).value;
    LastWinsStep(s0.out, t0, kv, t);
    LeavesFromStep(s0.out, t0, kv, t);
  }

  lemma LastWinsStep(out: seq<KeyValue>, t: Value, kv: KeyValue, t': Value)
    requires LastWins(out, t) && Get(t', kv.key) == Some(Leaf(kv.value))
    requires forall p :: Diverges(p, kv.key) ==> Get(t', p) == Get(t, p)
    requires forall p :: p != kv.key && IsLeafAt(t, p) ==> Diverges(p, kv.key)
    ensures LastWins(out + [kv], t')
  {
    var out' := out + [kv];
    forall i | 0 <= i < |out'| && IsLast(out', i) ensures Get(t', out'[i].key) == Some(Leaf(out'[i].value)) {
      if i < |out| {
        assert out'[i] == out[i];
        assert out'[|out|] == kv;
        forall j | i < j < |out| ensures out[j].key != out[i].key { assert out'[j] == out[j]; }
        assert IsLeafAt(t, out[i].key);
      }
    }
  }

  lemma LeavesFromStep(out: seq<KeyValue>, t: Value, kv: KeyValue, t': Value)
    requires LeavesFrom(out, t)
    requires forall p :: IsLeafAt(t', p) ==> p == kv.key || IsLeafAt(t, p)
    ensures LeavesFrom(out + [kv], t')
  {
    var out' := out + [kv];
    forall p | IsLeafAt(t', p) ensures exists i :: 0 <= i < |out'| && out'[i].key == p {
      if p == kv.key {
        assert out'[|out|].key == p;
      } else {
        var i :| 0 <= i < |out| && out[i].key == p;
        assert out'[i].key == p;
      }
    }
  }

  /** No key stored in any environment holds a negative index. */
  predicate NonNegStore(st: Store) {
    forall n, i :: n in st && 0 <= i < |st[n].values| ==> NonNegKey(st[n].values[i].key)
  }

  /** When _iterate_values(name) records no error, asdict(name) succeeds:
      the walk reported nothing, every value it handed out was kept, and
      the result holds exactly their keys, each with its last value. */
  lemma CleanAsDict(st: Store, name: string)
    requires StoreOk(st) && NonNegStore(st) && name in st
    requires IterateValues(st, name, []).value.errors == []
    ensures AsDict(st, name).Ok?
    ensures var w := Walk(st, name, {}); var out := IterateValues(st, name, []).value.out;
      && NoReports(w) && out == Yielded(w)
      && LastWins(out, AsDict(st, name).value) && LeavesFrom(out, AsDict(st, name).value)
  {
    var w := Walk(st, name, {});
    WalkKeysNonEmpty(st, name, {});
    WalkSound(st, name, {});
    forall i | 0 <= i < |w| && w[i].Yield? ensures NonNegKey(w[i].kv.key) {
      var m :| m in st && w[i].kv in st[m].values;
      var j :| 0 <= j < |st[m].values| && st[m].values[j] == w[i].kv;
    }
    CleanScan(w);
  }

  /** Environments.check over the given names records errors only by
      adding them. */
  lemma {:induction false} CheckNamesGrow(st: Store, names: seq<string>, errors: seq<string>)
    requires StoreOk(st) && forall i :: 0 <= i < |names| ==> names[i] in st
    ensures var r := CheckNames(st, names, errors); |errors| <= |r| && r[..|errors|] == errors
    decreases |names|
  {
    if |names| > 0 {
      var init := names[..|names| - 1];
      CheckNamesGrow(st, init, errors);
      var prev := CheckNames(st, init, errors);
      var n := names[|names| - 1];
      WalkKeysNonEmpty(st, n, {});
      ScanErrorsGrow(Scan(EmptyTables(), prev, []), Walk(st, n, {}));
      var r := CheckNames(st, names, errors);
      assert r[..|prev|][..|errors|] == r[..|errors|];
    }
  }

  /** What the command line relies on: when check() over names records no
      error, asdict succeeds for each of those names, with last writer wins. */
  lemma {:induction false} CleanCheckAsDict(st: Store, names: seq<string>, name: string)
    requires StoreOk(st) && NonNegStore(st) && forall i :: 0 <= i < |names| ==> names[i] in st
    requires name in names && CheckNames(st, names, []) == []
    ensures AsDict(st, name).Ok?
    ensures var out := IterateValues(st, name, []).value.out;
      LastWins(out, AsDict(st, name).value) && LeavesFrom(out, AsDict(st, name).value)
    decreases |names|
  {
    var init := names[..|names| - 1];
    CheckNamesClean(st, names);
    if name == names[|names| - 1] {
      CleanAsDict(st, name);
    } else {
      assert names == init + [names[|names| - 1]];
      assert name in init;
      assert forall i :: 0 <= i < |init| ==> init[i] == names[i];
      CleanCheckAsDict(st, init, name);
    }
  }

  /** A clean check over names is a clean check over all but the last,
      followed by a clean scan of the last. */
  lemma CheckNamesClean(st: Store, names: seq<string>)
    requires StoreOk(st) && forall i :: 0 <= i < |names| ==> names[i] in st
    requires |names| > 0 && CheckNames(st, names, []) == []
    ensures CheckNames(st, names[..|names| - 1], []) == []
    ensures IterateValues(st, names[|names| - 1], []).value.errors == []
  {
    var init := names[..|names| - 1];
    var last := names[|names| - 1];
    CheckNamesGrow(st, init, []);
    var prev := CheckNames(st, init, []);
    WalkKeysNonEmpty(st, last, {});
    ScanErrorsGrow(Scan(EmptyTables(), prev, []), Walk(st, last, {}));
  }

  /** Without NonNegStore the conclusion fails: a value whose key holds a
      negative index (a command-line key such as "a.-1"; the line grammar
      only admits digits) passes every check, and asdict then raises
      IndexError when it assigns into the empty list it has just made. */
  lemma NegativeIndexPassesCheck()
    ensures var kv := KeyValue([Field("a"), Index(-1)], Int(1), "", 1);
      var st := map["" := EnvData("", [], [kv], "", 0)];
      && StoreOk(st) && CheckNames(st, [""], []) == [] && AsDict(st, "") == Err(IndexError)
  {
    var kv := KeyValue([Field("a"), Index(-1)], Int(1), "", 1);
    var st := map["" := EnvData("", [], [kv], "", 0)];
    NegativeIndexIterate(kv, st);
    NegativeIndexRaises(kv, st);
  }

  /** _iterate_values hands on the one value and reports nothing. */
  lemma NegativeIndexIterate(kv: KeyValue, st: Store)
    requires kv.key == [Field("a"), Index(-1)] && st == map["" := EnvData("", [], [kv], "", 0)]
    ensures StoreOk(st) && IterateValues(st, "", []).Ok?
    ensures IterateValues(st, "", []).value.errors == [] && IterateValues(st, "", []).value.out == [kv]
    ensures CheckNames(st, [""], []) == []
  {
    NegativeIndexScan(kv);
    assert StoreOk(st);
    WalkOneValue(st, "", kv);
    assert CheckNames(st, [""][..0], []) == [];
  }

  lemma NegativeIndexScan(kv: KeyValue)
    requires kv.key == [Field("a"), Index(-1)]
    ensures var s := ScanEvents(Scan(EmptyTables(), [], []), [Yield(kv)]);
      s.errors == [] && s.out == [kv]
  {
    NegativeIndexChecks(kv);
    assert [Yield(kv)][..0] == [];
  }

  /** asdict raises IndexError on the list it has just made for "a". */
  lemma NegativeIndexRaises(kv: KeyValue, st: Store)
    requires kv.key == [Field("a"), Index(-1)]
    requires StoreOk(st) && IterateValues(st, "", []).Ok? && IterateValues(st, "", []).value.out == [kv]
    ensures AsDict(st, "") == Err(IndexError)
  {
    NegativeIndexPut(kv);
  }

  lemma NegativeIndexPut(kv: KeyValue)
    requires kv.key == [Field("a"), Index(-1)]
    ensures Materialise([kv]) == Err(IndexError)
  {
    assert Fresh(Index(-1)) == List([]);
    assert kv.key[1..] == [Index(-1)];
    assert Put(List([]), [Index(-1)], kv.value) == Err(IndexError);
    assert Put(Dict(map[]), kv.key, kv.value) == Err(IndexError);
    assert [kv][..0] == [];
  }

  /** An environment without parents that holds one value hands out just
      that value. */
  lemma WalkOneValue(st: Store, name: string, kv: KeyValue)
    requires name in st && st[name].parents == [] && st[name].values == [kv]
    ensures Walk(st, name, {}) == [Yield(kv)]
  {
    assert [kv][1..] == [];
    assert SortByKey([kv], KeyOf) == [kv];
    assert WalkParents(st, st[name], 0, {}) == [];
  }

  /** The one value "a.-1" passes every check on empty tables. */
  lemma NegativeIndexChecks(kv: KeyValue)
    requires kv.key == [Field("a"), Index(-1)]
    ensures !CheckValue(EmptyTables(), kv, []).skip && CheckValue(EmptyTables(), kv, []).errors == []
  {
    var k := kv.key;
    assert k[..1] == [Field("a")];
    var c0 := Check(EmptyTables(), [], false);
    assert PrefixRun(c0, kv, 0) == c0;
    var c1 := PrefixRun(c0, kv, 1);
    assert c1 == PrefixStep(Check(EmptyTables(), [], false), kv, 0);
    assert !c1.skip && c1.errors == [] && c1.tables.types == map[[Field("a")] := KInt];
    assert k != [Field("a")];
  }
}
