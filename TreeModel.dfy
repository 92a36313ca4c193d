/** The YAML/JSON-tree engine of src/template_specialize/main.py, as
    functions over decoded values: the deep merge of one value into
    another (_merge_values), the parents-first merge of an environment
    (_merge_environment) and the validation of a decoded environments
    document (_parse_environments). */
module TreeModel {
  import opened Wrappers
  import opened Floats

  /** A scalar of a decoded document. A float is the number it holds. */
  datatype Atom = Null | Bool(b: bool) | Int(i: int) | Float(v: FloatValue) | Str(s: string)

  /** A decoded value: a scalar, a list, or a dict whose entries keep
      their insertion order. */
  datatype Tree = Leaf(a: Atom) | List(items: seq<Tree>) | Dict(entries: seq<Entry>)

  datatype Entry = Entry(key: Atom, value: Tree)

  const None_ := Leaf(Null)

  function Max(a: int, b: int): int { if a < b then b else a }

  // ---------------------------------------------------------------------
  // Dict keys

  /** Which key of a Python dict an atom is: keys that are == are one key,
      so True, 1 and 1.0 share NumKey(1, 0), a number being kept in the
      normal form of Floats.Norm. Every NaN is taken as the same key. */
  datatype KeyId = NullKey | NumKey(m: int, e: nat) | InfKey(neg: bool) | NaNKey | StrKey(s: string)

  function IdOf(a: Atom): KeyId {
    match a
    case Null => NullKey
    case Bool(b) => NumKey(if b then 1 else 0, 0)
    case Int(i) => NumKey(i, 0)
    case Float(Finite(m, e)) => var n := Norm(m, e); NumKey(n.0, n.1)
    case Float(Infinite(neg)) => InfKey(neg)
    case Float(NaN) => NaNKey
    case Str(s) => StrKey(s)
  }

  /** An atom as a Python number: booleans are 0 and 1. */
  function NumberOf(a: Atom): Option<FloatValue> {
    match a
    case Bool(b) => Some(Finite(if b then 1 else 0, 0))
    case Int(i) => Some(Finite(i, 0))
    case Float(v) => Some(v)
    case _ => None
  }

  /** Python's == on two atoms: bool, int and float by numeric value,
      None only to None, strings by text. */
  predicate AtomEq(a: Atom, b: Atom) {
    match (NumberOf(a), NumberOf(b))
    case (Some(x), Some(y)) => NumEq(x, y)
    case (None, None) => a == b
    case _ => false
  }

  /** Two atoms are the same dict key exactly when Python finds them ==,
      NaN aside (a NaN key is found only through the object itself). */
  lemma KeyIdIsEquality(a: Atom, b: Atom)
    requires a != Float(NaN)
    ensures IdOf(a) == IdOf(b) <==> AtomEq(a, b)
  {
    match (NumberOf(a), NumberOf(b))
    case (Some(x), Some(y)) =>
      if x.Finite? && y.Finite? {
        NormSame(x.m, x.e, y.m, y.e);
        assert Norm(x.m, 0) == (x.m, 0) && Norm(y.m, 0) == (y.m, 0);
      }
    case _ =>
  }

  // ---------------------------------------------------------------------
  // Dict entries

  /** The keys of a dict, in order, as the keys they are. */
  function KeysOf(es: seq<Entry>): (ks: seq<KeyId>)
    ensures |ks| == |es| && forall i :: 0 <= i < |es| ==> ks[i] == IdOf(es[i].key)
  {
    if |es| == 0 then [] else [IdOf(es[0].key)] + KeysOf(es[1..])
  }

  /** d.get(k): the value under the key equal to k, None when there is none. */
  function Lookup(es: seq<Entry>, k: Atom): (r: Option<Tree>)
    ensures r.Some? <==> IdOf(k) in KeysOf(es)
    ensures r.Some? ==> exists i :: 0 <= i < |es| && IdOf(es[i].key) == IdOf(k) && es[i].value == r.value
  {
    if |es| == 0 then None
    else if IdOf(es[0].key) == IdOf(k) then Some(es[0].value)
    else Lookup(es[1..], k)
  }

  /** d.get(k) with None as Python's None. */
  function Get(es: seq<Entry>, k: Atom): Tree {
    match Lookup(es, k)
    case None => None_
    case Some(v) => v
  }

  /** d[k] = v: the value of the entry whose key equals k is replaced
      where it stands, that entry keeping its own key object, or a new
      entry is appended. */
  function Store(es: seq<Entry>, k: Atom, v: Tree): seq<Entry> {
    if |es| == 0 then [Entry(k, v)]
    else if IdOf(es[0].key) == IdOf(k) then [Entry(es[0].key, v)] + es[1..]
    else [es[0]] + Store(es[1..], k, v)
  }

  /** No dict in the value holds two keys that are ==, as in a Python dict. */
  predicate WellFormed(t: Tree) {
    match t
    case Leaf(_) => true
    case List(xs) => forall i :: 0 <= i < |xs| ==> WellFormed(xs[i])
    case Dict(es) => Distinct(KeysOf(es)) && forall i :: 0 <= i < |es| ==> WellFormed(es[i].value)
  }

  predicate Distinct<T(==)>(s: seq<T>) {
    forall i, j :: 0 <= i < j < |s| ==> s[i] != s[j]
  }

  /** Reading after a write: the written key holds the new value, every
      key not == to it is as it was, and the keys keep their order and
      their objects, k itself going last when no key equal to it was there. */
  lemma StoreSpec(es: seq<Entry>, k: Atom, v: Tree)
    ensures Lookup(Store(es, k, v), k) == Some(v)
    ensures forall k' :: IdOf(k') != IdOf(k) ==> Lookup(Store(es, k, v), k') == Lookup(es, k')
    ensures KeysOf(Store(es, k, v)) == if IdOf(k) in KeysOf(es) then KeysOf(es) else KeysOf(es) + [IdOf(k)]
    ensures var r := Store(es, k, v);
      && |r| == (if IdOf(k) in KeysOf(es) then |es| else |es| + 1)
      && (forall i :: 0 <= i < |es| ==> r[i].key == es[i].key)
      && (IdOf(k) !in KeysOf(es) ==> r[|es|].key == k)
  {
    StoreLookup(es, k, v);
    StoreKeyOrder(es, k, v);
    StoreKeyObjects(es, k, v);
  }

  lemma {:induction false} StoreKeyObjects(es: seq<Entry>, k: Atom, v: Tree)
    ensures var r := Store(es, k, v);
      && |r| == (if IdOf(k) in KeysOf(es) then |es| else |es| + 1)
      && (forall i :: 0 <= i < |es| ==> r[i].key == es[i].key)
      && (IdOf(k) !in KeysOf(es) ==> r[|es|].key == k)
    decreases |es|
  {
    if |es| > 0 && IdOf(es[0].key) != IdOf(k) {
      StoreKeyObjects(es[1..], k, v);
      assert KeysOf(es) == [IdOf(es[0].key)] + KeysOf(es[1..]);
    }
  }

  lemma {:induction false} StoreLookup(es: seq<Entry>, k: Atom, v: Tree)
    ensures Lookup(Store(es, k, v), k) == Some(v)
    ensures forall k' :: IdOf(k') != IdOf(k) ==> Lookup(Store(es, k, v), k') == Lookup(es, k')
    decreases |es|
  {
    if |es| > 0 && IdOf(es[0].key) != IdOf(k) {
      StoreLookup(es[1..], k, v);
      assert Store(es, k, v) == [es[0]] + Store(es[1..], k, v);
    }
  }

  lemma {:induction false} StoreKeyOrder(es: seq<Entry>, k: Atom, v: Tree)
    ensures KeysOf(Store(es, k, v)) == if IdOf(k) in KeysOf(es) then KeysOf(es) else KeysOf(es) + [IdOf(k)]
    decreases |es|
  {
    if |es| > 0 && IdOf(es[0].key) != IdOf(k) {
      StoreKeyOrder(es[1..], k, v);
      assert KeysOf(es) == [IdOf(es[0].key)] + KeysOf(es[1..]);
      assert Store(es, k, v) == [es[0]] + Store(es[1..], k, v);
      assert KeysOf(Store(es, k, v)) == [IdOf(es[0].key)] + KeysOf(Store(es[1..], k, v));
    }
  }

  /** Writing back the value already stored under a key changes nothing. */
  lemma {:induction false} StoreSame(es: seq<Entry>, k: Atom)
    requires Lookup(es, k).Some?
    ensures Store(es, k, Lookup(es, k).value) == es
    decreases |es|
  {
    if IdOf(es[0].key) != IdOf(k) {
      StoreSame(es[1..], k);
    }
  }

  /** Writing a key that no key equals appends it. */
  lemma {:induction false} StoreFresh(es: seq<Entry>, k: Atom, v: Tree)
    requires IdOf(k) !in KeysOf(es)
    ensures Store(es, k, v) == es + [Entry(k, v)]
    decreases |es|
  {
    if |es| > 0 {
      assert IdOf(k) != IdOf(es[0].key);
      assert KeysOf(es[1..]) == KeysOf(es)[1..];
      StoreFresh(es[1..], k, v);
      assert es == [es[0]] + es[1..];
    }
  }

  // ---------------------------------------------------------------------
  // _merge_values

  /** _merge_values(src, dst): a scalar replaces whatever dst held; a list
      is merged position by position into dst's list (a fresh one when
      dst is no list); a dict is merged key by key into dst's dict (a
      fresh one when dst is no dict). */
  function Merge(src: Tree, dst: Tree): Tree
    decreases src, 1, 0
  {
    match src
    case Leaf(_) => src
    case List(xs) => List(MergeItems(src, if dst.List? then dst.items else [], 0))
    case Dict(es) => Dict(MergeEntries(src, if dst.Dict? then dst.entries else [], |es|))
  }

  /** The merged list from position i on: positions under |src| merge
      src's element into dst's (or into None past dst's end), the rest of
      dst follows unchanged. */
  function MergeItems(src: Tree, d: seq<Tree>, i: nat): seq<Tree>
    requires src.List? && i <= |src.items|
    decreases src, 0, |src.items| - i
  {
    if i == |src.items| then (if i <= |d| then d[i..] else [])
    else
      assert src.items[i] in src.items;
      [Merge(src.items[i], if i < |d| then d[i] else None_)] + MergeItems(src, d, i + 1)
  }

  /** dst after the first n entries of src were merged into it, in src's
      order, each into what dst holds under its key at that point. */
  function MergeEntries(src: Tree, d: seq<Entry>, n: nat): seq<Entry>
    requires src.Dict? && n <= |src.entries|
    decreases src, 0, n
  {
    if n == 0 then d
    else
      var acc := MergeEntries(src, d, n - 1);
      var e := src.entries[n - 1];
      assert e in src.entries;
      Store(acc, e.key, Merge(e.value, Get(acc, e.key)))
  }

  /** The item at position k of a list merge. */
  function MergedAt(xs: seq<Tree>, d: seq<Tree>, k: nat): Tree
    requires k < Max(|xs|, |d|)
  {
    if k < |xs| then Merge(xs[k], if k < |d| then d[k] else None_) else d[k]
  }

  /** A list merge is as long as the longer list; position k under |src|
      holds src's element merged into dst's, and dst's trailing elements
      are kept. */
  lemma {:induction false} MergeItemsAt(src: Tree, d: seq<Tree>, i: nat)
    requires src.List? && i <= |src.items|
    ensures |MergeItems(src, d, i)| == Max(|src.items|, |d|) - i
    ensures forall j :: 0 <= j < |MergeItems(src, d, i)| ==>
      MergeItems(src, d, i)[j] == MergedAt(src.items, d, i + j)
    decreases |src.items| - i
  {
    if i < |src.items| {
      MergeItemsAt(src, d, i + 1);
    }
  }

  lemma {:induction false} MergeList(xs: seq<Tree>, dst: Tree)
    ensures var d := if dst.List? then dst.items else [];
      var r := Merge(List(xs), dst);
      && r.List? && |r.items| == Max(|xs|, |d|)
      && forall k :: 0 <= k < |r.items| ==> r.items[k] == MergedAt(xs, d, k)
  {
    MergeItemsAt(List(xs), if dst.List? then dst.items else [], 0);
  }

  /** The keys of a prefix one entry longer. */
  lemma {:induction false} KeysPrefix(es: seq<Entry>, n: nat)
    requires n < |es|
    ensures KeysOf(es[..n + 1]) == KeysOf(es[..n]) + [IdOf(es[n].key)]
  {
    assert es[..n + 1] == es[..n] + [es[n]];
  }

  /** With distinct keys, no entry before position n has the key of entry n. */
  lemma {:induction false} KeyNotBefore(es: seq<Entry>, n: nat)
    requires Distinct(KeysOf(es)) && n < |es|
    ensures IdOf(es[n].key) !in KeysOf(es[..n])
  {
    var ks := KeysOf(es);
    assert KeysOf(es[..n]) == ks[..n];
    assert forall j :: 0 <= j < n ==> ks[j] != ks[n];
  }

  /** What the first n entries of a distinct-keyed src leave under key k. */
  predicate MergedLookup(src: Tree, d: seq<Entry>, n: nat, k: Atom)
    requires src.Dict? && n <= |src.entries|
  {
    var r := Lookup(MergeEntries(src, d, n), k);
    var es := src.entries;
    if IdOf(k) in KeysOf(es[..n]) then Lookup(es, k).Some? && r == Some(Merge(Lookup(es, k).value, Get(d, k)))
    else r == Lookup(d, k)
  }

  /** After merging the first n entries of a dict with distinct keys, a
      key among them holds its src value merged into dst's value, and
      every other key reads as in dst. */
  lemma {:induction false} MergeEntriesLookup(src: Tree, d: seq<Entry>, n: nat, k: Atom)
    requires src.Dict? && n <= |src.entries| && Distinct(KeysOf(src.entries))
    ensures MergedLookup(src, d, n, k)
    decreases n
  {
    if n > 0 {
      MergeEntriesLookup(src, d, n - 1, k);
      EntryStepLookup(src, d, n - 1, k);
    } else {
      assert KeysOf(src.entries[..0]) == [];
    }
  }

  lemma {:induction false} EntryStepLookup(src: Tree, d: seq<Entry>, n: nat, k: Atom)
    requires src.Dict? && n < |src.entries| && Distinct(KeysOf(src.entries))
    requires MergedLookup(src, d, n, k)
    ensures MergedLookup(src, d, n + 1, k)
  {
    var es := src.entries;
    var acc := MergeEntries(src, d, n);
    var e := es[n];
    var v := Merge(e.value, Get(acc, e.key));
    assert MergeEntries(src, d, n + 1) == Store(acc, e.key, v);
    StoreLookup(acc, e.key, v);
    KeysPrefix(es, n);
    if IdOf(k) == IdOf(e.key) {
      KeyNotBefore(es, n);
      LookupDistinct(es, n);
      LookupById(es, k, e.key);
      LookupById(acc, k, e.key);
      LookupById(d, k, e.key);
      LookupById(Store(acc, e.key, v), k, e.key);
    } else {
      assert IdOf(k) in KeysOf(es[..n + 1]) <==> IdOf(k) in KeysOf(es[..n]);
    }
  }

  /** d.get(k) depends only on which key k is. */
  lemma {:induction false} LookupById(es: seq<Entry>, k1: Atom, k2: Atom)
    requires IdOf(k1) == IdOf(k2)
    ensures Lookup(es, k1) == Lookup(es, k2)
    decreases |es|
  {
    if |es| > 0 {
      LookupById(es[1..], k1, k2);
    }
  }

  /** In a dict with distinct keys the entry at position j is the one found
      under its key. */
  lemma {:induction false} LookupDistinct(es: seq<Entry>, j: nat)
    requires j < |es| && Distinct(KeysOf(es))
    ensures Lookup(es, es[j].key) == Some(es[j].value)
    decreases j
  {
    if j > 0 {
      assert KeysOf(es)[0] != KeysOf(es)[j];
      assert KeysOf(es[1..]) == KeysOf(es)[1..];
      LookupDistinct(es[1..], j - 1);
    }
  }

  /** A dict merge: the keys of dst keep their places, the keys only in
      src follow in src's order; a key of src holds its value merged into
      dst's, a key only in dst is untouched. */
  lemma {:induction false} MergeDict(es: seq<Entry>, dst: Tree, k: Atom)
    requires Distinct(KeysOf(es))
    ensures var d := if dst.Dict? then dst.entries else [];
      var r := Merge(Dict(es), dst);
      && r.Dict?
      && Lookup(r.entries, k) == (if IdOf(k) in KeysOf(es) then Some(Merge(Lookup(es, k).value, Get(d, k))) else Lookup(d, k))
      && KeysOf(r.entries) == KeysOf(d) + NewKeys(KeysOf(es), KeysOf(d))
  {
    var d := if dst.Dict? then dst.entries else [];
    assert es[..|es|] == es;
    MergeEntriesLookup(Dict(es), d, |es|, k);
    MergeEntriesKeys(Dict(es), d, |es|);
  }

  /** The keys of ks that are not in prior, in ks's order. */
  function NewKeys(ks: seq<KeyId>, prior: seq<KeyId>): (r: seq<KeyId>)
    ensures forall x :: x in r <==> x in ks && x !in prior
  {
    if |ks| == 0 then [] else (if ks[0] in prior then [] else [ks[0]]) + NewKeys(ks[1..], prior)
  }

  lemma {:induction false} NewKeysSnoc(ks: seq<KeyId>, prior: seq<KeyId>, x: KeyId)
    ensures NewKeys(ks + [x], prior) == NewKeys(ks, prior) + (if x in prior then [] else [x])
    decreases |ks|
  {
    if |ks| > 0 {
      assert (ks + [x])[0] == ks[0];
      assert (ks + [x])[1..] == ks[1..] + [x];
      NewKeysSnoc(ks[1..], prior, x);
    } else {
      assert ks + [x] == [x];
    }
  }

  lemma {:induction false} MergeEntriesKeys(src: Tree, d: seq<Entry>, n: nat)
    requires src.Dict? && n <= |src.entries| && Distinct(KeysOf(src.entries))
    ensures KeysOf(MergeEntries(src, d, n)) == KeysOf(d) + NewKeys(KeysOf(src.entries[..n]), KeysOf(d))
    decreases n
  {
    if n == 0 {
      assert KeysOf(src.entries[..0]) == [];
    } else {
      MergeEntriesKeys(src, d, n - 1);
      EntryStepKeys(src, d, n - 1);
    }
  }

  lemma {:induction false} EntryStepKeys(src: Tree, d: seq<Entry>, n: nat)
    requires src.Dict? && n < |src.entries| && Distinct(KeysOf(src.entries))
    requires KeysOf(MergeEntries(src, d, n)) == KeysOf(d) + NewKeys(KeysOf(src.entries[..n]), KeysOf(d))
    ensures KeysOf(MergeEntries(src, d, n + 1)) == KeysOf(d) + NewKeys(KeysOf(src.entries[..n + 1]), KeysOf(d))
  {
    var es := src.entries;
    var acc := MergeEntries(src, d, n);
    var e := es[n];
    assert MergeEntries(src, d, n + 1) == Store(acc, e.key, Merge(e.value, Get(acc, e.key)));
    KeysPrefix(es, n);
    KeyNotBefore(es, n);
    StoreKeys(acc, KeysOf(d), KeysOf(es[..n]), e.key, Merge(e.value, Get(acc, e.key)));
  }

  /** The key order after one more write, when the keys so far are dst's
      followed by the new ones among ks. */
  lemma {:induction false} StoreKeys(acc: seq<Entry>, kd: seq<KeyId>, ks: seq<KeyId>, k: Atom, v: Tree)
    requires KeysOf(acc) == kd + NewKeys(ks, kd) && IdOf(k) !in ks
    ensures KeysOf(Store(acc, k, v)) == kd + NewKeys(ks + [IdOf(k)], kd)
  {
    var x := IdOf(k);
    StoreKeyOrder(acc, k, v);
    NewKeysSnoc(ks, kd, x);
    var nk := NewKeys(ks, kd);
    assert x !in nk;
    if x in kd {
      assert x in KeysOf(acc);
    } else {
      assert x !in KeysOf(acc);
      assert (kd + nk) + [x] == kd + (nk + [x]);
    }
  }

  /** Merging a well-formed value into None makes a copy of it: the merge
      into the empty dict or list a missing key starts from. */
  lemma {:induction false} MergeIntoNone(src: Tree)
    requires WellFormed(src)
    ensures Merge(src, None_) == src
    decreases src, 1
  {
    match src
    case Leaf(_) =>
    case List(xs) =>
      MergeItemsAt(src, [], 0);
      forall k | 0 <= k < |xs| ensures MergeItems(src, [], 0)[k] == xs[k] {
        assert xs[k] in xs;
        MergeIntoNone(xs[k]);
      }
    case Dict(es) =>
      CopyEntries(src, |es|);
      assert es[..|es|] == es;
  }

  lemma {:induction false} CopyEntries(src: Tree, n: nat)
    requires src.Dict? && WellFormed(src) && n <= |src.entries|
    ensures MergeEntries(src, [], n) == src.entries[..n]
    decreases src, 0, n
  {
    var es := src.entries;
    if n > 0 {
      CopyEntries(src, n - 1);
      var e := es[n - 1];
      assert e in es;
      MergeIntoNone(e.value);
      assert KeysOf(es[..n - 1]) == KeysOf(es)[..n - 1];
      assert IdOf(e.key) !in KeysOf(es[..n - 1]) by {
        forall j | 0 <= j < n - 1 ensures KeysOf(es)[j] != IdOf(e.key) {
          assert KeysOf(es)[j] != KeysOf(es)[n - 1];
        }
      }
      assert Get(es[..n - 1], e.key) == None_;
      StoreFresh(es[..n - 1], e.key, e.value);
      assert es[..n] == es[..n - 1] + [e];
    }
  }

  /** Merging the same value twice is merging it once; a diamond in the
      inheritance graph, which merges a shared parent twice, is harmless. */
  lemma {:induction false} MergeIdempotent(src: Tree, dst: Tree)
    requires WellFormed(src)
    ensures Merge(src, Merge(src, dst)) == Merge(src, dst)
    decreases src, 1
  {
    match src
    case Leaf(_) =>
    case List(xs) =>
      var d := if dst.List? then dst.items else [];
      var once := Merge(src, dst);
      MergeList(xs, dst);
      MergeList(xs, once);
      forall k | 0 <= k < |once.items| ensures Merge(src, once).items[k] == once.items[k] {
        if k < |xs| {
          assert xs[k] in xs;
          MergeIdempotent(xs[k], if k < |d| then d[k] else None_);
        }
      }
    case Dict(es) =>
      var d := if dst.Dict? then dst.entries else [];
      var once := MergeEntries(src, d, |es|);
      RemergeEntries(src, d, |es|);
  }

  /** Merging the first n entries of src again into the result of merging
      all of them changes nothing. */
  lemma {:induction false} RemergeEntries(src: Tree, d: seq<Entry>, n: nat)
    requires src.Dict? && WellFormed(src) && n <= |src.entries|
    ensures MergeEntries(src, MergeEntries(src, d, |src.entries|), n) == MergeEntries(src, d, |src.entries|)
    decreases src, 0, n
  {
    var es := src.entries;
    var once := MergeEntries(src, d, |es|);
    if n > 0 {
      RemergeEntries(src, d, n - 1);
      var e := es[n - 1];
      assert e in es;
      assert es[..|es|] == es;
      MergeEntriesLookup(src, d, |es|, e.key);
      LookupDistinct(es, n - 1);
      MergeIdempotent(e.value, Get(d, e.key));
      StoreSame(once, e.key);
    }
  }

  // ---------------------------------------------------------------------
  // Environment records

  /** The key a record reads: info.get(name). */
  function Field(info: Tree, name: string): Tree
    requires info.Dict?
  {
    Get(info.entries, Str(name))
  }

  predicate IsString(t: Tree) { t.Leaf? && t.a.Str? }

  /** parents is absent, None, or a list of strings. */
  predicate ParentsOk(p: Tree) {
    p == None_ || (p.List? && forall i :: 0 <= i < |p.items| ==> IsString(p.items[i]))
  }

  /** values is absent, None, or a dict. */
  predicate ValuesOk(v: Tree) { v == None_ || v.Dict? }

  /** What _parse_environments accepts as the record of an environment. */
  predicate InfoOk(info: Tree) {
    info.Dict? && ParentsOk(Field(info, "parents")) && ValuesOk(Field(info, "values"))
  }

  predicate StoreOk(envs: map<string, Tree>) {
    forall n :: n in envs ==> InfoOk(envs[n])
  }

  /** The declared parents of an accepted record, in order. */
  function Parents(info: Tree): (ps: seq<string>)
    requires InfoOk(info)
    ensures var p := Field(info, "parents");
      p.List? ==> |ps| == |p.items| && forall i :: 0 <= i < |ps| ==> p.items[i] == Leaf(Str(ps[i]))
    ensures Field(info, "parents") == None_ ==> ps == []
  {
    var p := Field(info, "parents");
    if p.List? then seq(|p.items|, i requires 0 <= i < |p.items| => p.items[i].a.s) else []
  }

  /** The record's own values merged into the accumulated values. */
  function ApplyOwn(info: Tree, values: Tree): Tree
    requires InfoOk(info)
  {
    var own := Field(info, "values");
    if own.Dict? then Merge(own, values) else values
  }

  // ---------------------------------------------------------------------
  // _merge_environment

  datatype MergeError = Unknown(name: string) | Circular(name: string)

  /** _merge_environment(envs, name, values, visited): unknown names fail;
      each parent in declared order fails when it is already in visited,
      and is merged (with itself added to visited) otherwise; the
      record's own values go last. */
  function MergeEnv(envs: map<string, Tree>, name: string, values: Tree, visited: set<string>): Result<Tree, MergeError>
    requires StoreOk(envs)
    decreases envs.Keys - visited, if name in envs then 2 else 0, 0
  {
    if name !in envs then Err(Unknown(name))
    else
      match MergeParents(envs, Parents(envs[name]), 0, values, visited)
      case Err(e) => Err(e)
      case Ok(v) => Ok(ApplyOwn(envs[name], v))
  }

  /** The parents ps from the i-th on, merged in order. */
  function MergeParents(envs: map<string, Tree>, ps: seq<string>, i: nat, values: Tree, visited: set<string>): Result<Tree, MergeError>
    requires StoreOk(envs) && i <= |ps|
    decreases envs.Keys - visited, 1, |ps| - i
  {
    if i == |ps| then Ok(values)
    else if ps[i] in visited then Err(Circular(ps[i]))
    else
      assert ps[i] in envs ==> envs.Keys - (visited + {ps[i]}) < envs.Keys - visited;
      match MergeEnv(envs, ps[i], values, visited + {ps[i]})
      case Err(e) => Err(e)
      case Ok(v) => MergeParents(envs, ps, i + 1, v, visited)
  }

  /** What one parent contributes: a parent being merged already is
      circular, any other is merged with itself added to visited. */
  function ParentOutcome(envs: map<string, Tree>, p: string, values: Tree, visited: set<string>): Result<Tree, MergeError>
    requires StoreOk(envs)
  {
    if p in visited then Err(Circular(p)) else MergeEnv(envs, p, values, visited + {p})
  }

  /** m names p among its parents. */
  predicate ParentOf(envs: map<string, Tree>, m: string, p: string)
    requires StoreOk(envs)
  {
    m in envs && p in Parents(envs[m])
  }

  /** A path of parent links: each name lists the next one among its parents. */
  predicate Chain(envs: map<string, Tree>, path: seq<string>)
    requires StoreOk(envs)
  {
    forall k :: 0 <= k < |path| - 1 ==> ParentOf(envs, path[k], path[k + 1])
  }

  /** path starts at root, and its last name lists x among its parents. */
  predicate ChainTo(envs: map<string, Tree>, root: string, path: seq<string>, x: string)
    requires StoreOk(envs)
  {
    |path| > 0 && path[0] == root && Chain(envs, path) && ParentOf(envs, path[|path| - 1], x)
  }

  /** Each error names what the source says it does: an unknown name is
      missing from the store and is the name asked for or is reached from
      it through parents; a circular name is reached from the name asked
      for through parents and, when it is reached, was on the path of
      environments being merged or already in visited. */
  ghost predicate ErrorNamed(envs: map<string, Tree>, root: string, visited: set<string>, e: MergeError)
    requires StoreOk(envs)
  {
    match e
    case Unknown(u) => u !in envs && (u == root || exists path :: ChainTo(envs, root, path, u))
    case Circular(p) => exists path :: ChainTo(envs, root, path, p) && (p in visited || p in path[1..])
  }

  lemma {:induction false} MergeEnvErrors(envs: map<string, Tree>, name: string, values: Tree, visited: set<string>)
    requires StoreOk(envs)
    ensures MergeEnv(envs, name, values, visited).Err? ==> ErrorNamed(envs, name, visited, MergeEnv(envs, name, values, visited).error)
    decreases envs.Keys - visited, if name in envs then 2 else 0, 0, 0
  {
    if name in envs {
      MergeParentsErrors(envs, name, 0, values, visited);
    }
  }

  lemma {:induction false} MergeParentsErrors(envs: map<string, Tree>, name: string, i: nat, values: Tree, visited: set<string>)
    requires StoreOk(envs) && name in envs && i <= |Parents(envs[name])|
    ensures var r := MergeParents(envs, Parents(envs[name]), i, values, visited);
      r.Err? ==> ErrorNamed(envs, name, visited, r.error)
    decreases envs.Keys - visited, 1, |Parents(envs[name])| - i, 1
  {
    var ps := Parents(envs[name]);
    if i < |ps| {
      assert ParentOf(envs, name, ps[i]);
      assert ChainTo(envs, name, [name], ps[i]);
      if ps[i] !in visited {
        ParentStepErrors(envs, name, i, values, visited);
      }
    }
  }

  /** The i-th parent is entered: its errors are named for it, and so for name. */
  lemma {:induction false} ParentStepErrors(envs: map<string, Tree>, name: string, i: nat, values: Tree, visited: set<string>)
    requires StoreOk(envs) && name in envs && i < |Parents(envs[name])| && Parents(envs[name])[i] !in visited
    ensures var r := MergeParents(envs, Parents(envs[name]), i, values, visited);
      r.Err? ==> ErrorNamed(envs, name, visited, r.error)
    decreases envs.Keys - visited, 1, |Parents(envs[name])| - i, 0
  {
    var ps := Parents(envs[name]);
    var p := ps[i];
    assert ParentOf(envs, name, p);
    assert p in envs ==> envs.Keys - (visited + {p}) < envs.Keys - visited;
    MergeEnvErrors(envs, p, values, visited + {p});
    var r := MergeEnv(envs, p, values, visited + {p});
    if r.Ok? {
      MergeParentsErrors(envs, name, i + 1, r.value, visited);
    } else {
      ErrorLifted(envs, name, p, visited, r.error);
    }
  }

  /** An error from parent p's merge, named for p, is named for its child. */
  lemma ErrorLifted(envs: map<string, Tree>, name: string, p: string, visited: set<string>, e: MergeError)
    requires StoreOk(envs) && ParentOf(envs, name, p) && p !in visited
    requires ErrorNamed(envs, p, visited + {p}, e)
    ensures ErrorNamed(envs, name, visited, e)
  {
    match e
    case Unknown(u) => UnknownLifted(envs, name, p, u);
    case Circular(q) => CircularLifted(envs, name, p, visited, q);
  }

  lemma UnknownLifted(envs: map<string, Tree>, name: string, p: string, u: string)
    requires StoreOk(envs) && ParentOf(envs, name, p)
    requires u == p || exists path :: ChainTo(envs, p, path, u)
    ensures exists path :: ChainTo(envs, name, path, u)
  {
    if u == p {
      assert ChainTo(envs, name, [name], u);
    } else {
      var path :| ChainTo(envs, p, path, u);
      ChainToCons(envs, name, path, u);
    }
  }

  lemma CircularLifted(envs: map<string, Tree>, name: string, p: string, visited: set<string>, q: string)
    requires StoreOk(envs) && ParentOf(envs, name, p)
    requires exists path :: ChainTo(envs, p, path, q) && (q in visited + {p} || q in path[1..])
    ensures exists path :: ChainTo(envs, name, path, q) && (q in visited || q in path[1..])
  {
    var path :| ChainTo(envs, p, path, q) && (q in visited + {p} || q in path[1..]);
    ChainToCons(envs, name, path, q);
    var longer := [name] + path;
    assert longer[1..] == path;
    assert q in visited || q in path by {
      if q == p { assert path[0] == q; }
      else if q !in visited { assert q in path[1..]; }
    }
  }

  /** A child in front of a path that starts at one of its parents. */
  lemma ChainToCons(envs: map<string, Tree>, name: string, path: seq<string>, x: string)
    requires StoreOk(envs) && |path| > 0 && ParentOf(envs, name, path[0]) && ChainTo(envs, path[0], path, x)
    ensures ChainTo(envs, name, [name] + path, x)
  {
    var longer := [name] + path;
    forall k | 0 <= k < |longer| - 1 ensures ParentOf(envs, longer[k], longer[k + 1]) {
      if k > 0 { assert longer[k] == path[k - 1] && longer[k + 1] == path[k]; }
    }
    assert longer[|longer| - 1] == path[|path| - 1];
  }

  /** An environment naming itself as its only parent: it is entered once
      as its own parent, and there it finds itself in visited. */
  lemma {:induction false} SelfParentCircular(envs: map<string, Tree>, n: string, values: Tree)
    requires StoreOk(envs) && n in envs && Parents(envs[n]) == [n]
    ensures MergeEnv(envs, n, values, {}) == Err(Circular(n))
  {
    assert MergeParents(envs, [n], 0, values, {n}) == Err(Circular(n));
    assert MergeEnv(envs, n, values, {n}) == Err(Circular(n));
    assert {} + {n} == {n};
    assert MergeParents(envs, [n], 0, values, {}) == Err(Circular(n));
  }

  // ---------------------------------------------------------------------
  // Closed acyclic stores

  /** rank strictly decreases from every environment to each of its
      parents, and every parent is known. */
  predicate Ranked(envs: map<string, Tree>, rank: map<string, nat>)
    requires StoreOk(envs)
  {
    forall m :: m in envs ==>
      && m in rank
      && forall j :: 0 <= j < |Parents(envs[m])| ==>
           Parents(envs[m])[j] in envs && Parents(envs[m])[j] in rank && rank[Parents(envs[m])[j]] < rank[m]
  }

  /** The environments merged for name, in order: each parent's lineage in
      declared order, then name itself. Repeats are kept. */
  function Lineage(envs: map<string, Tree>, rank: map<string, nat>, name: string): (r: seq<string>)
    requires StoreOk(envs) && Ranked(envs, rank) && name in envs
    ensures forall x :: x in r ==> x in envs
    decreases rank[name], 1, 0
  {
    LineageFrom(envs, rank, name, 0) + [name]
  }

  function LineageFrom(envs: map<string, Tree>, rank: map<string, nat>, name: string, i: nat): (r: seq<string>)
    requires StoreOk(envs) && Ranked(envs, rank) && name in envs && i <= |Parents(envs[name])|
    ensures forall x :: x in r ==> x in envs
    decreases rank[name], 0, |Parents(envs[name])| - i
  {
    var ps := Parents(envs[name]);
    if i == |ps| then [] else Lineage(envs, rank, ps[i]) + LineageFrom(envs, rank, name, i + 1)
  }

  /** The own values of the named environments merged in order. */
  function ApplyAll(envs: map<string, Tree>, names: seq<string>, values: Tree): Tree
    requires StoreOk(envs) && forall x :: x in names ==> x in envs
    decreases |names|
  {
    if |names| == 0 then values else ApplyAll(envs, names[1..], ApplyOwn(envs[names[0]], values))
  }

  lemma {:induction false} ApplyAllAppend(envs: map<string, Tree>, a: seq<string>, b: seq<string>, values: Tree)
    requires StoreOk(envs) && (forall x :: x in a ==> x in envs) && (forall x :: x in b ==> x in envs)
    ensures ApplyAll(envs, a + b, values) == ApplyAll(envs, b, ApplyAll(envs, a, values))
    decreases |a|
  {
    if |a| > 0 {
      assert (a + b)[0] == a[0] && (a + b)[1..] == a[1..] + b;
      ApplyAllAppend(envs, a[1..], b, ApplyOwn(envs[a[0]], values));
    } else {
      assert a + b == b;
    }
  }

  /** In a closed acyclic store the merge never fails, and it merges the
      environments of the lineage in order. */
  lemma {:induction false} RankedMerge(envs: map<string, Tree>, rank: map<string, nat>, name: string, values: Tree, visited: set<string>)
    requires StoreOk(envs) && Ranked(envs, rank) && name in envs
    requires forall q :: q in visited ==> q in rank && rank[name] <= rank[q]
    ensures MergeEnv(envs, name, values, visited) == Ok(ApplyAll(envs, Lineage(envs, rank, name), values))
    decreases envs.Keys - visited, 2, 0
  {
    var from := LineageFrom(envs, rank, name, 0);
    RankedParents(envs, rank, name, 0, values, visited);
    ApplyAllAppend(envs, from, [name], values);
    assert ApplyAll(envs, [name], ApplyAll(envs, from, values)) == ApplyOwn(envs[name], ApplyAll(envs, from, values));
  }

  lemma {:induction false} RankedParents(envs: map<string, Tree>, rank: map<string, nat>, name: string, i: nat, values: Tree, visited: set<string>)
    requires StoreOk(envs) && Ranked(envs, rank) && name in envs && i <= |Parents(envs[name])|
    requires forall q :: q in visited ==> q in rank && rank[name] <= rank[q]
    ensures MergeParents(envs, Parents(envs[name]), i, values, visited) == Ok(ApplyAll(envs, LineageFrom(envs, rank, name, i), values))
    decreases envs.Keys - visited, 1, |Parents(envs[name])| - i
  {
    var ps := Parents(envs[name]);
    if i < |ps| {
      var p := ps[i];
      assert p in envs && rank[p] < rank[name];
      assert p !in visited;
      assert envs.Keys - (visited + {p}) < envs.Keys - visited;
      RankedMerge(envs, rank, p, values, visited + {p});
      var v := ApplyAll(envs, Lineage(envs, rank, p), values);
      RankedParents(envs, rank, name, i + 1, v, visited);
      ApplyAllAppend(envs, Lineage(envs, rank, p), LineageFrom(envs, rank, name, i + 1), values);
    }
  }

  // ---------------------------------------------------------------------
  // _parse_environments

  datatype ParseError =
    | InvalidContainer
    | InvalidName(key: Atom)
    | Redefinition(name: string)
    | InvalidMetadata(name: string)
    | InvalidParents(name: string)
    | InvalidValues(name: string)

  /** The first check one entry of the document fails, in the source's
      order of checks, or None when it is accepted. */
  function CheckEntry(envs: map<string, Tree>, e: Entry): (r: Option<ParseError>)
    ensures r.None? <==> e.key.Str? && e.key.s !in envs && InfoOk(e.value)
  {
    if !e.key.Str? then Some(InvalidName(e.key))
    else if e.key.s in envs then Some(Redefinition(e.key.s))
    else if !e.value.Dict? then Some(InvalidMetadata(e.key.s))
    else if !ParentsOk(Field(e.value, "parents")) then Some(InvalidParents(e.key.s))
    else if !ValuesOk(Field(e.value, "values")) then Some(InvalidValues(e.key.s))
    else None
  }

  /** The entries checked and inserted in order; the first rejected entry
      stops the pass, and what was inserted before it stays. */
  function ParseEntries(envs: map<string, Tree>, es: seq<Entry>): (map<string, Tree>, Option<ParseError>)
    decreases |es|
  {
    if |es| == 0 then (envs, None)
    else match CheckEntry(envs, es[0])
      case Some(err) => (envs, Some(err))
      case None => ParseEntries(envs[es[0].key.s := es[0].value], es[1..])
  }

  /** _parse_environments(doc, envs): the new store and the error raised, if any. */
  function ParseEnvironments(envs: map<string, Tree>, doc: Tree): (map<string, Tree>, Option<ParseError>) {
    if !doc.Dict? then (envs, Some(InvalidContainer)) else ParseEntries(envs, doc.entries)
  }

  /** The pass only adds: every stored record stays as it was, and every
      added name maps, verbatim, to the record of an entry with that name.
      Every record it adds is accepted, so a valid store stays valid. */
  lemma {:induction false} ParseEntriesAdds(envs: map<string, Tree>, es: seq<Entry>)
    ensures var (r, _) := ParseEntries(envs, es);
      && (forall n :: n in envs ==> n in r && r[n] == envs[n])
      && (forall n :: n in r && n !in envs ==> exists i :: 0 <= i < |es| && es[i] == Entry(Str(n), r[n]))
      && (StoreOk(envs) ==> StoreOk(r))
    decreases |es|
  {
    if |es| > 0 && CheckEntry(envs, es[0]).None? {
      var e := es[0];
      var next := envs[e.key.s := e.value];
      ParseEntriesAdds(next, es[1..]);
      var r := ParseEntries(next, es[1..]).0;
      forall n | n in r && n !in envs ensures exists i :: 0 <= i < |es| && es[i] == Entry(Str(n), r[n]) {
        if n == e.key.s {
          assert es[0] == Entry(Str(n), r[n]);
        } else {
          var i :| 0 <= i < |es[1..]| && es[1..][i] == Entry(Str(n), r[n]);
          assert es[i + 1] == Entry(Str(n), r[n]);
        }
      }
    }
  }

  /** Every entry is accepted when each key is a string naming a new
      environment, the names are distinct, and each record is valid. */
  predicate AllAccepted(envs: map<string, Tree>, es: seq<Entry>) {
    && Distinct(KeysOf(es))
    && forall i :: 0 <= i < |es| ==> es[i].key.Str? && es[i].key.s !in envs && InfoOk(es[i].value)
  }

  /** The pass raises nothing exactly when every entry is accepted, and
      then each entry's record is stored under its name. */
  lemma {:induction false} ParseEntriesOk(envs: map<string, Tree>, es: seq<Entry>)
    ensures ParseEntries(envs, es).1.None? <==> AllAccepted(envs, es)
    ensures AllAccepted(envs, es) ==>
      forall i :: 0 <= i < |es| ==>
        es[i].key.s in ParseEntries(envs, es).0 && ParseEntries(envs, es).0[es[i].key.s] == es[i].value
    decreases |es|
  {
    if |es| > 0 {
      var e := es[0];
      if CheckEntry(envs, e).None? {
        var next := envs[e.key.s := e.value];
        ParseEntriesOk(next, es[1..]);
        ParseEntriesAdds(next, es[1..]);
        AcceptedCons(envs, es);
      } else {
        assert !AllAccepted(envs, es) by {
          assert !(es[0].key.Str? && es[0].key.s !in envs && InfoOk(es[0].value));
        }
      }
    }
  }

  /** Accepting all entries is accepting the first and then the rest,
      against the store with the first inserted. */
  lemma {:induction false} AcceptedCons(envs: map<string, Tree>, es: seq<Entry>)
    requires |es| > 0 && es[0].key.Str? && es[0].key.s !in envs && InfoOk(es[0].value)
    ensures AllAccepted(envs, es) <==> AllAccepted(envs[es[0].key.s := es[0].value], es[1..])
  {
    if AllAccepted(envs, es) { AcceptedTail(envs, es); }
    if AllAccepted(envs[es[0].key.s := es[0].value], es[1..]) { AcceptedFromTail(envs, es); }
  }

  lemma {:induction false} AcceptedTail(envs: map<string, Tree>, es: seq<Entry>)
    requires |es| > 0 && AllAccepted(envs, es)
    ensures AllAccepted(envs[es[0].key.s := es[0].value], es[1..])
  {
    var ks := KeysOf(es);
    assert KeysOf(es[1..]) == ks[1..];
    forall i | 0 <= i < |es| - 1 ensures es[1..][i].key.s != es[0].key.s {
      assert ks[0] != ks[i + 1];
    }
  }

  lemma {:induction false} AcceptedFromTail(envs: map<string, Tree>, es: seq<Entry>)
    requires |es| > 0 && es[0].key.Str? && es[0].key.s !in envs && InfoOk(es[0].value)
    requires AllAccepted(envs[es[0].key.s := es[0].value], es[1..])
    ensures AllAccepted(envs, es)
  {
    var ks := KeysOf(es);
    var tail := KeysOf(es[1..]);
    assert tail == ks[1..];
    forall i, j | 0 <= i < j < |ks| ensures ks[i] != ks[j] {
      if i == 0 {
        assert ks[j] == IdOf(es[1..][j - 1].key);
      } else {
        assert tail[i - 1] != tail[j - 1];
      }
    }
  }
}
