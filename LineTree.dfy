/** What asdict's container walk does to a tree: reading a tree along a
    key, the condition under which writing one value succeeds, and what the
    write changes (the written leaf, the containers along its key) and
    leaves alone (every path that branches off the key). */
module LineTree {
  import opened Wrappers
  import opened Literals
  import opened LineModel

  /** The child of a container under one key part (an index must lie
      inside the list). */
  function Child(c: Value, s: Seg): Option<Value> {
    match c
    case Leaf(_) => None
    case List(xs) => if s.Index? && 0 <= s.n < |xs| then Some(xs[s.n]) else None
    case Dict(m) => if s in m then Some(m[s]) else None
  }

  /** The node a key path leads to, if any. */
  function Get(c: Value, p: Key): Option<Value>
    decreases |p|
  {
    if |p| == 0 then Some(c)
    else match Child(c, p[0])
      case None => None
      case Some(d) => Get(d, p[1..])
  }

  /** Which of the three kinds a node is, in the terms of the `types` table. */
  function KindOf(v: Value): Kind {
    match v
    case Leaf(_) => KLeaf
    case List(_) => KInt
    case Dict(_) => KStr
  }

  function TypeAt(t: Value, p: Key): Option<Kind> {
    match Get(t, p)
    case None => None
    case Some(n) => Some(KindOf(n))
  }

  /** The length of the list at a path, 0 when there is none. */
  function LenAt(t: Value, p: Key): int {
    match Get(t, p)
    case Some(List(xs)) => |xs|
    case _ => 0
  }

  /** The existing node, or the container asdict creates for the next part. */
  function NodeOr(o: Option<Value>, next: Seg): Value {
    if o.Some? then o.value else Fresh(next)
  }

  predicate IsPrefix(p: Key, q: Key) { |p| <= |q| && q[..|p|] == p }

  /** Two paths branch apart: neither is a prefix of the other. */
  predicate Diverges(p: Key, q: Key) { !IsPrefix(p, q) && !IsPrefix(q, p) }

  /** The condition for writing key K into node c without an exception and
      without skipping a list position: no leaf on the way, a dict below
      the root is reached by names only, a list by indexes 0..len, and the
      last part lands on nothing or on a leaf. */
  predicate Fits(c: Value, k: Key, top: bool)
    requires |k| > 0
    decreases |k|
  {
    && !c.Leaf?
    && (c.Dict? ==> top || k[0].Field?)
    && (c.List? ==> k[0].Index? && 0 <= k[0].n <= |c.items|)
    && var ch := Child(c, k[0]);
       if |k| == 1 then ch.None? || ch.value.Leaf? else Fits(NodeOr(ch, k[1]), k[1..], false)
  }

  // ---------------------------------------------------------------------
  // Reading along a path

  /** Reading along p + q is reading p, then q from there. */
  lemma {:induction false} GetAppend(c: Value, p: Key, q: Key)
    ensures Get(c, p + q) == (match Get(c, p) case None => None case Some(d) => Get(d, q))
    decreases |p|
  {
    if |p| == 0 {
      assert p + q == q;
    } else {
      assert (p + q)[0] == p[0] && (p + q)[1..] == p[1..] + q;
      match Child(c, p[0])
      case None =>
        assert Get(c, p + q) == None;
      case Some(d) =>
        GetAppend(d, p[1..], q);
        assert Get(c, p + q) == Get(d, p[1..] + q);
    }
  }

  /** Reading one part further. */
  lemma GetSnoc(c: Value, p: Key, s: Seg)
    ensures Get(c, p + [s]) == (match Get(c, p) case None => None case Some(d) => Child(d, s))
  {
    GetAppend(c, p, [s]);
    match Get(c, p)
    case None =>
    case Some(d) => assert [s][1..] == [];
  }

  /** Every proper prefix of a readable path leads to a container. */
  lemma {:induction false} GetPrefix(c: Value, p: Key, j: nat)
    requires j < |p| && Get(c, p).Some?
    ensures Get(c, p[..j]).Some? && !Get(c, p[..j]).value.Leaf?
  {
    GetAppend(c, p[..j], p[j..]);
    assert p[..j] + p[j..] == p;
    var d := Get(c, p[..j]).value;
    assert p[j..][0] == p[j];
  }

  /** A path leading through a missing node or through a leaf reads nothing. */
  lemma GetBelow(c: Value, p: Key, q: Key)
    requires |q| > 0 && (Get(c, p).None? || Get(c, p).value.Leaf?)
    ensures Get(c, p + q).None?
  {
    GetAppend(c, p, q);
  }

  // ---------------------------------------------------------------------
  // Writing one value

  /** A write that fits succeeds, keeps the node's kind, grows a list by at
      most the one position it appends, and leaves the value at the key. */
  lemma {:induction false} PutShape(c: Value, k: Key, v: Scalar, top: bool)
    requires |k| > 0 && Fits(c, k, top)
    ensures Put(c, k, v).Ok?
    ensures KindOf(Put(c, k, v).value) == KindOf(c)
    ensures c.List? ==> |Put(c, k, v).value.items| == Max(|c.items|, k[0].n + 1)
    ensures Get(Put(c, k, v).value, k) == Some(Leaf(v))
    decreases |k|
  {
    var r := Put(c, k, v);
    if |k| > 1 {
      match c
      case Dict(m) =>
        PutShape(NodeOr(Child(c, k[0]), k[1]), k[1..], v, false);
      case List(xs) =>
        if k[0].n < |xs| {
          PutShape(xs[k[0].n], k[1..], v, false);
        } else {
          PutShape(Fresh(k[1]), k[1..], v, false);
        }
    }
  }

  /** A write leaves every path that branches off its key as it was. */
  lemma {:induction false} PutAside(c: Value, k: Key, v: Scalar, top: bool, p: Key)
    requires |k| > 0 && Fits(c, k, top) && Diverges(p, k)
    ensures Put(c, k, v).Ok? && Get(Put(c, k, v).value, p) == Get(c, p)
    decreases |k|
  {
    PutShape(c, k, v, top);
    var r := Put(c, k, v).value;
    assert |p| > 0;
    if p[0] == k[0] {
      assert |k| == 1 ==> IsPrefix(k, p);
      assert |p| == 1 ==> IsPrefix(p, k);
      PrefixCons(p, k);
      PrefixCons(k, p);
      match c
      case Dict(m) =>
        var prior := if k[0] in m then m[k[0]] else Fresh(k[1]);
        PutAside(prior, k[1..], v, false, p[1..]);
        if k[0] !in m { FreshEmpty(k[1], p[1..]); }
      case List(xs) =>
        if k[0].n < |xs| {
          PutAside(xs[k[0].n], k[1..], v, false, p[1..]);
        } else {
          PutAside(Fresh(k[1]), k[1..], v, false, p[1..]);
          FreshEmpty(k[1], p[1..]);
        }
    }
  }

  /** Prefixes that agree on the first part: the tails decide. */
  lemma PrefixCons(p: Key, k: Key)
    requires |p| > 0 && |k| > 0 && p[0] == k[0]
    ensures IsPrefix(p[1..], k[1..]) ==> IsPrefix(p, k)
  {
    if IsPrefix(p[1..], k[1..]) {
      assert k[..|p|] == [k[0]] + k[1..][..|p| - 1];
    }
  }

  /** A freshly created container holds nothing. */
  lemma FreshEmpty(next: Seg, p: Key)
    requires |p| > 0
    ensures Get(Fresh(next), p).None?
  {
  }

  /** Along the key, the node at each depth is the write of the rest of the
      key into the node found there (or created there). */
  lemma {:induction false} PutAlong(c: Value, k: Key, v: Scalar, top: bool, j: nat)
    requires |k| > 0 && Fits(c, k, top) && j < |k|
    ensures Put(c, k, v).Ok?
    ensures var n := NodeOr(Get(c, k[..j]), k[j]);
      && Fits(n, k[j..], top && j == 0)
      && Put(n, k[j..], v).Ok?
      && Get(Put(c, k, v).value, k[..j]) == Some(Put(n, k[j..], v).value)
    decreases |k|
  {
    PutShape(c, k, v, top);
    if j == 0 {
      assert k[..0] == [] && k[0..] == k;
    } else {
      assert |k| > 1;
      var rest := k[1..];
      assert k[..j] == [k[0]] + rest[..j - 1];
      assert k[j..] == rest[j - 1..] && k[j] == rest[j - 1];
      var prior := NodeOr(Child(c, k[0]), k[1]);
      PutAlong(prior, rest, v, false, j - 1);
      PutAlongStep(c, k, v, top, j, prior);
    }
  }

  /** One level of PutAlong: the node at depth j of the written tree is
      the node at depth j - 1 of the written child. */
  lemma PutAlongStep(c: Value, k: Key, v: Scalar, top: bool, j: nat, prior: Value)
    requires |k| > 1 && Fits(c, k, top) && 0 < j < |k|
    requires prior == NodeOr(Child(c, k[0]), k[1])
    requires Put(c, k, v).Ok? && Put(prior, k[1..], v).Ok?
    ensures NodeOr(Get(c, k[..j]), k[j]) == NodeOr(Get(prior, k[1..][..j - 1]), k[1..][j - 1])
    ensures Get(Put(c, k, v).value, k[..j]) == Get(Put(prior, k[1..], v).value, k[1..][..j - 1])
  {
    var rest := k[1..];
    assert k[..j] == [k[0]] + rest[..j - 1];
    if Child(c, k[0]).None? && j > 1 { FreshEmpty(k[1], rest[..j - 1]); }
  }
}
