/** The cases of src/tests/test_main.py for the tree engine, stated on the
    model: the outcomes the tests expect follow from the definitions. */
module TreeCases {
  import opened Wrappers
  import opened TreeModel
  import opened Floats

  function S(s: string): Tree { Leaf(Str(s)) }
  function I(i: int): Tree { Leaf(Int(i)) }
  function E(k: string, v: Tree): Entry { Entry(Str(k), v) }

  /** A shorter list merged into a longer one keeps the longer one's tail. */
  lemma {:induction false} ListTailKept()
    ensures Merge(List([I(4), I(5)]), List([I(1), I(2), I(3)])) == List([I(4), I(5), I(3)])
  {
    MergeList([I(4), I(5)], List([I(1), I(2), I(3)]));
  }

  /** Keys of both dicts are merged, keys only in dst stay, new keys follow. */
  lemma {:induction false} DictKeysMerged()
    ensures Merge(Dict([E("a", S("b2")), E("e", S("f"))]), Dict([E("a", S("b")), E("c", S("d"))]))
         == Dict([E("a", S("b2")), E("c", S("d")), E("e", S("f"))])
  {
    var src := Dict([E("a", S("b2")), E("e", S("f"))]);
    var d := [E("a", S("b")), E("c", S("d"))];
    var one := [E("a", S("b2")), E("c", S("d"))];
    assert MergeEntries(src, d, 1) == one;
    assert Get(one, Str("e")) == None_;
    StoreFresh(one, Str("e"), S("f"));
  }

  /** Keys that are == are one dict key: 1 reaches the entry under True,
      and 1.0 the entry under 1, whose key objects stay. */
  lemma {:induction false} EqualKeysMerged()
    ensures Merge(Dict([Entry(Int(1), S("x"))]), Dict([Entry(Bool(true), S("y"))])) == Dict([Entry(Bool(true), S("x"))])
    ensures Merge(Dict([Entry(Float(Finite(10, 1)), S("x"))]), Dict([Entry(Int(1), S("y"))])) == Dict([Entry(Int(1), S("x"))])
  {
    assert Norm(10, 1) == (1, 0);
    assert MergeEntries(Dict([Entry(Int(1), S("x"))]), [Entry(Bool(true), S("y"))], 1) == [Entry(Bool(true), S("x"))];
    assert MergeEntries(Dict([Entry(Float(Finite(10, 1)), S("x"))]), [Entry(Int(1), S("y"))], 1) == [Entry(Int(1), S("x"))];
  }

  /** A scalar replaces a container, and a container replaces a scalar. */
  lemma {:induction false} KindsReplaced()
    ensures Merge(I(3), List([I(4), I(5), I(3)])) == I(3)
    ensures Merge(Dict([E("a", S("b"))]), I(1)) == Dict([E("a", S("b"))])
  {
    assert MergeEntries(Dict([E("a", S("b"))]), [], 1) == [E("a", S("b"))];
  }

  /** Each rejected document names its first bad entry and leaves the store as it was. */
  lemma {:induction false} ParseRejects()
    ensures ParseEnvironments(map[], List([I(1), I(2), I(3)])) == (map[], Some(InvalidContainer))
    ensures ParseEnvironments(map["env" := Dict([])], Dict([E("env", Dict([]))]))
         == (map["env" := Dict([])], Some(Redefinition("env")))
    ensures ParseEnvironments(map[], Dict([E("env", List([I(1), I(2), I(3)]))])) == (map[], Some(InvalidMetadata("env")))
    ensures ParseEnvironments(map[], Dict([E("env", Dict([E("parents", Dict([]))]))])) == (map[], Some(InvalidParents("env")))
    ensures ParseEnvironments(map[], Dict([E("env", Dict([E("parents", List([S("env2"), I(1)]))]))]))
         == (map[], Some(InvalidParents("env")))
    ensures ParseEnvironments(map[], Dict([E("env", Dict([E("values", List([]))]))])) == (map[], Some(InvalidValues("env")))
  {
    var bad := List([S("env2"), I(1)]);
    assert !IsString(bad.items[1]);
  }

  /** An accepted document is stored as it was decoded. */
  lemma {:induction false} ParseAccepts()
    ensures var env := Dict([E("values", Dict([E("key", S("value"))]))]);
      var env2 := Dict([E("parents", List([S("env")])), E("values", Dict([E("key", S("value"))]))]);
      ParseEnvironments(map[], Dict([E("env", env), E("env2", env2)])) == (map["env" := env, "env2" := env2], None)
  {
    var env := Dict([E("values", Dict([E("key", S("value"))]))]);
    var env2 := Dict([E("parents", List([S("env")])), E("values", Dict([E("key", S("value"))]))]);
    assert ParentsOk(Field(env2, "parents"));
  }

  /** The store of test_merge_environment_unknown: one environment whose
      parent does not exist. */
  function UnknownStore(): (envs: map<string, Tree>)
    ensures StoreOk(envs)
  {
    var info := Dict([E("parents", List([S("unknown")]))]);
    assert ParentsOk(Field(info, "parents"));
    map["env" := info]
  }

  /** An unknown name fails, and so does a known one with an unknown parent. */
  lemma {:induction false} UnknownNamed()
    ensures MergeEnv(UnknownStore(), "env2", None_, {}) == Err(Unknown("env2"))
    ensures MergeEnv(UnknownStore(), "env", None_, {}) == Err(Unknown("unknown"))
  {
    var envs := UnknownStore();
    assert Parents(envs["env"]) == ["unknown"];
    assert MergeParents(envs, ["unknown"], 0, None_, {}) == Err(Unknown("unknown"));
  }

  /** The values of the first environment of test_merge_environment. */
  function EnvValues(): Tree {
    Dict([E("a", I(1)), E("b", I(2)), E("c", List([Dict([E("a", S("b"))])]))])
  }

  /** An environment without parents merged into None yields a copy of
      its values. */
  lemma {:induction false} FirstEnvironment()
    ensures var envs := map["env" := Dict([E("values", EnvValues())])];
      StoreOk(envs) && MergeEnv(envs, "env", None_, {}) == Ok(EnvValues())
  {
    var info := Dict([E("values", EnvValues())]);
    var envs := map["env" := info];
    assert Field(info, "parents") == None_;
    assert Parents(info) == [];
    EnvValuesWellFormed();
    MergeIntoNone(EnvValues());
  }

  lemma EnvValuesWellFormed()
    ensures WellFormed(EnvValues())
  {
    var c := List([Dict([E("a", S("b"))])]);
    assert WellFormed(c.items[0]);
    assert WellFormed(c);
    assert KeysOf(EnvValues().entries) == [StrKey("a"), StrKey("b"), StrKey("c")];
  }

  /** An environment that is its own parent fails with a circular inheritance. */
  lemma {:induction false} SelfParentFails()
    ensures var info := Dict([E("parents", List([S("env")])), E("values", EnvValues())]);
      var envs := map["env" := info];
      StoreOk(envs) && MergeEnv(envs, "env", None_, {}) == Err(Circular("env"))
  {
    var info := Dict([E("parents", List([S("env")])), E("values", EnvValues())]);
    var envs := map["env" := info];
    assert ParentsOk(Field(info, "parents"));
    assert Parents(info) == ["env"];
    SelfParentCircular(envs, "env", None_);
  }
}
