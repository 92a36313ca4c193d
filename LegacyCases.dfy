/** The cases of template_specialize/tests/test.py for the oldest engine,
    stated on the model: the outcomes the tests expect follow from the
    definitions. */
module LegacyCases {
  import opened Text
  import opened Wrappers
  import opened Literals
  import opened LineSyntax
  import opened LegacySyntax
  import opened LegacyModel
  import LineModel
  import opened LegacyProps

  // ---------------------------------------------------------------------
  // How the lines of the tests are read

  /** An assignment indented by four spaces, as the tests write them. */
  lemma AssignmentMatches(key: string, value: string)
    requires IsLegacyKeyText(key) && IsValueText(value)
    ensures MatchLegacyAssignment("    " + key + " = " + value) == Some(Assignment(key, value))
  {
    assert "    " + key + " = " + value == "    " + key + " " + "=" + " " + value + "";
    LegacyAssignmentRoundTrip("    ", key, " ", " ", value, "");
  }

  /** A header without parents. */
  lemma HeaderText(name: string)
    requires IsWordRun(name)
    ensures var line := name + ":";
      !IsComment(line) && MatchLegacyHeader(line) == Some(Header(name, None))
  {
    LegacyHeaderRoundTrip(name, [name]);
    assert LStrip(name + ":") == name + ":";
  }

  /** A header with parents. */
  lemma ParentsText(name: string, parents: seq<string>)
    requires IsWordRun(name) && IsLegacyParents(parents)
    ensures var line := name + "(" + Join(parents, ',') + "):";
      !IsComment(line) && MatchLegacyHeader(line) == Some(Header(name, Some(parents)))
  {
    LegacyHeaderRoundTrip(name, parents);
    var line := name + "(" + Join(parents, ',') + "):";
    assert line[0] == name[0];
    assert LStrip(line) == line;
  }

  /** A line that starts with an indented key which is not followed by an
      '=' and a value is no assignment. */
  lemma NoAssignmentText(key: string, rest: string)
    requires |key| > 0 && forall i :: 0 <= i < |key| ==> IsLegacyKeyChar(key[i])
    requires |rest| > 0 && !IsLegacyKeyChar(rest[0])
    requires AssignmentOf(key, rest, IsLegacyKeyText).None?
    ensures var line := "    " + key + rest;
      && !IsComment(line) && MatchLegacyHeader(line).None? && MatchLegacyAssignment(line).None?
  {
    var line := "    " + key + rest;
    assert line == "    " + (key + rest);
    LStripAfterSpace("    ", key + rest);
    SpanOf(key, rest, IsLegacyKeyChar);
    assert (key + rest)[..|key|] == key && (key + rest)[|key|..] == rest;
    assert LStrip(line)[0] == key[0];
    assert SpanLen(line, IsWord) == 0;
  }

  /** The value that follows the '=' is none of the literal forms. */
  lemma BadValueText(key: string, value: string)
    requires IsLegacyKeyText(key) && !IsValueText(value)
    requires |value| > 0 && !IsSpace(value[0]) && !IsSpace(value[|value| - 1])
    ensures AssignmentOf(key, " = " + value, IsLegacyKeyText).None?
  {
    assert " = " + value == " " + ("=" + (" " + value));
    LStripAfterSpace(" ", "=" + (" " + value));
    assert ("=" + (" " + value))[1..] == " " + value;
    LStripAfterSpace(" ", value);
    RStripBeforeSpace(value, "");
    assert value + "" == value;
  }

  /** A key of one word. */
  lemma OnePartKey(a: string)
    requires IsWordRun(a)
    ensures IsLegacyKeyText(a) && ParseKey(a) == [ParseKeyPart(a)]
  {
    NoPunctuationInWords(a);
    SplitJoin([a], '.');
  }

  /** A key of two words joined by a dot. */
  lemma TwoPartKey(a: string, b: string)
    requires IsWordRun(a) && IsWordRun(b)
    ensures IsLegacyKeyText(a + "." + b) && ParseKey(a + "." + b) == [ParseKeyPart(a), ParseKeyPart(b)]
  {
    NoPunctuationInWords(a);
    NoPunctuationInWords(b);
    assert Join([a, b], '.') == a + "." + b by {
      assert [a, b][1..] == [b];
    }
    SplitJoin([a, b], '.');
    var k := a + "." + b;
    forall i | 0 <= i < |k| ensures IsLegacyKeyChar(k[i]) {
      if i < |a| { assert k[i] == a[i]; } else if i > |a| { assert k[i] == b[i - |a| - 1]; }
    }
  }

  /** One more line. */
  lemma ParseSnoc(s: Scan, filename: string, lines: seq<string>, line: string)
    requires ScanOk(s)
    ensures ParseFrom(s, filename, lines + [line]) ==
      match ParseFrom(s, filename, lines)
      case Err(e) => Err(e)
      case Ok(t) =>
        match ParseLine(t, filename, |lines| + 1, line)
        case Err(m) => Err((t.envs, m))
        case Ok(u) => Ok(u)
  {
    assert (lines + [line])[..|lines|] == lines;
  }

  function Q(s: string): string { "\"" + s + "\"" }

  // ---------------------------------------------------------------------
  // test_parse_error

  function ErrorEnv(): Env {
    Env("env1", None, [Binding([Field("a"), Field("a")], Str("foo"), "env1")])
  }

  lemma ErrorLine1(s0: Scan, l1: string)
    requires s0 == Scan(map[], None) && l1 == "env1:"
    ensures ParseLine(s0, "", 1, l1) == Ok(Scan(map["env1" := Env("env1", None, [])], Some("env1")))
  {
    assert IsWordRun("env1") by {
      assert forall i :: 0 <= i < 4 ==> IsWord("env1"[i]);
    }
    HeaderText("env1");
    assert "env1" + ":" == l1;
    HeaderCases(s0, "", 1, l1, Header("env1", None));
  }

  /** The second line assigns the string foo to the key a.a. */
  lemma Line2Kind(l2: string)
    requires l2 == "    a.a = " + Q("foo")
    ensures MatchLegacyAssignment(l2) == Some(Assignment("a.a", Q("foo")))
    ensures ParseKey("a.a") == [Field("a"), Field("a")] && ParseValue(Q("foo")) == Str("foo")
  {
    FieldKey("a", "a");
    assert "a" + "." + "a" == "a.a";
    assert Q("foo")[1..|Q("foo")| - 1] == "foo";
    AssignmentMatches("a.a", Q("foo"));
    ParseValueForms(Q("foo"));
    assert l2 == "    " + "a.a" + " = " + Q("foo");
  }

  lemma ErrorLine2(s1: Scan, l2: string)
    requires s1 == Scan(map["env1" := Env("env1", None, [])], Some("env1")) && l2 == "    a.a = " + Q("foo")
    ensures ParseLine(s1, "", 2, l2) == Ok(Scan(map["env1" := ErrorEnv()], Some("env1")))
  {
    Line2Kind(l2);
    AssignmentCases(s1, "", 2, l2, Assignment("a.a", Q("foo")));
    var b := Binding([Field("a"), Field("a")], Str("foo"), "env1");
    assert [] + [b] == [b];
    assert s1.envs["env1" := Env("env1", None, [b])] == map["env1" := ErrorEnv()];
  }

  /** "foo" after the '=' is no literal. */
  lemma Line3Value()
    ensures AssignmentOf("a.b", " = foo", IsLegacyKeyText).None?
  {
    FieldKey("a", "b");
    assert "a" + "." + "b" == "a.b";
    assert !IsValueText("foo") by {
      assert SpanLen("foo", IsDigit) == 0;
    }
    BadValueText("a.b", "foo");
    assert " = " + "foo" == " = foo";
  }

  /** The third line is neither a comment, a header nor an assignment. */
  lemma Line3Kind(l3: string)
    requires l3 == "    a.b = foo"
    ensures !IsComment(l3) && MatchLegacyHeader(l3).None? && MatchLegacyAssignment(l3).None?
  {
    Line3Value();
    FieldKey("a", "b");
    assert "a" + "." + "b" == "a.b";
    NoAssignmentText("a.b", " = foo");
    assert l3 == "    " + "a.b" + " = foo";
  }

  lemma ErrorLine3(s2: Scan, l3: string)
    requires ScanOk(s2) && l3 == "    a.b = foo"
    ensures ParseLine(s2, "", 3, l3) == Err(LegacySyntaxMsg("", 3, l3))
  {
    Line3Kind(l3);
    SyntaxErrorLine(s2, "", 3, l3);
  }

  /** A key of two one-letter field names. */
  lemma FieldKey(a: string, b: string)
    requires |a| == 1 && |b| == 1 && IsIdentStart(a[0]) && IsIdentStart(b[0])
    ensures IsLegacyKeyText(a + "." + b) && ParseKey(a + "." + b) == [Field(a), Field(b)]
  {
    assert IsWord(a[0]) && IsWord(b[0]);
    TwoPartKey(a, b);
    KeyPartKinds(a);
    KeyPartKinds(b);
  }

  /** The first two lines define env1 with its one value. */
  lemma ErrorPrefix(lines: seq<string>)
    requires |lines| >= 2 && lines[0] == "env1:" && lines[1] == "    a.a = " + Q("foo")
    ensures ParseFrom(Scan(map[], None), "", lines[..2]) == Ok(Scan(map["env1" := ErrorEnv()], Some("env1")))
  {
    var s0 := Scan(map[], None);
    var s1 := Scan(map["env1" := Env("env1", None, [])], Some("env1"));
    ErrorFirstLine(s0, s1, lines);
    ErrorLine2(s1, lines[1]);
    ParseSnoc(s0, "", lines[..1], lines[1]);
    assert lines[..1] + [lines[1]] == lines[..2];
  }

  lemma ErrorFirstLine(s0: Scan, s1: Scan, lines: seq<string>)
    requires s0 == Scan(map[], None) && s1 == Scan(map["env1" := Env("env1", None, [])], Some("env1"))
    requires |lines| >= 1 && lines[0] == "env1:"
    ensures ParseFrom(s0, "", lines[..1]) == Ok(s1)
  {
    ErrorLine1(s0, lines[0]);
    ParseSnoc(s0, "", [], lines[0]);
    assert [] + [lines[0]] == lines[..1];
  }

  /** The third line has an unquoted value: parse raises on it with its
      number, and the environment read so far stays in the dictionary. */
  lemma ParseErrorCase(lines: seq<string>)
    requires lines == ["env1:", "    a.a = " + Q("foo"), "    a.b = foo", "    a.c = 12.5"]
    ensures Parse(map[], "", lines) == (map["env1" := ErrorEnv()], Some(LegacySyntaxMsg("", 3, "    a.b = foo")))
  {
    ErrorPrefix(lines);
    ErrorLine3(Scan(map["env1" := ErrorEnv()], Some("env1")), lines[2]);
    FirstErrorStops(Scan(map[], None), "", lines, 2);
  }

  // ---------------------------------------------------------------------
  // A parent writing into a list its child made

  /** A child that sets b.0, and its parent that sets a.0 and b.0. */
  function ListEnvs(): (envs: Envs)
    ensures EnvsOk(envs)
  {
    var child := Env("child", Some(["parent"]), [Binding([Field("b"), Index(0)], Int(1), "child")]);
    var parent := Env("parent", None, [Binding([Field("a"), Index(0)], Int(1), "parent"),
                                       Binding([Field("b"), Index(0)], Int(2), "parent")]);
    assert [Field("a"), Index(0)] != [Field("b"), Index(0)] by {
      assert [Field("a"), Index(0)][0] != [Field("b"), Index(0)][0];
    }
    map["child" := child, "parent" := parent]
  }

  function One(): Item { Atom(Int(1)) }

  /** The child's values alone: {b: [1]}. */
  function ChildHeap(): (h: Heap)
    ensures HeapOk(h)
  {
    [DictObj(map[Field("b") := Ref(1)]), ListObj([One()])]
  }

  /** Then the parent's a.0: {b: [1], a: [1]}, with the list of a new. */
  function MidHeap(): (h: Heap)
    ensures HeapOk(h)
  {
    [DictObj(map[Field("b") := Ref(1), Field("a") := Ref(2)]), ListObj([One()]), ListObj([One()])]
  }

  /** Then the parent's b.0 as the code decides it: {b: [1, 2], a: [1]}. */
  function EqualityHeap(): (h: Heap)
    ensures HeapOk(h)
  {
    [DictObj(map[Field("b") := Ref(1), Field("a") := Ref(2)]), ListObj([One(), Atom(Int(2))]), ListObj([One()])]
  }

  lemma ChildWrite(test: ListTest)
    ensures AddValue(Empty(), [Field("b"), Index(0)], Int(1), [], test) == Ok((ChildHeap(), [1]))
  {
    var key := [Field("b"), Index(0)];
    var h1 := Empty() + [ListObj([])];
    var h2 := h1[0 := DictObj(map[Field("b") := Ref(1)])];
    assert [] + [1] == [1];
    assert Fresh(Empty(), true, []) == (h1, Ref(1), [1]);
    assert map[][Field("b") := Ref(1)] == map[Field("b") := Ref(1)];
    assert Descend(Empty(), Ref(0), key[0], true, []) == Ok((h2, Ref(1), [1]));
    assert Admitted(h2, 1, [1], test) by {
      if test == ByEquality { assert ItemEq(h2, Ref([1][0]), Ref(1), |h2|); }
    }
    assert Final(h2, Ref(1), key[1], Int(1), [1], test) == Ok(h2[1 := ListObj([] + [One()])]);
    assert [] + [One()] == [One()];
    assert h2[1 := ListObj([One()])] == ChildHeap();
  }

  lemma ParentWriteA(test: ListTest)
    ensures AddValue(ChildHeap(), [Field("a"), Index(0)], Int(1), [], test) == Ok((MidHeap(), [2]))
  {
    var key := [Field("a"), Index(0)];
    var h := ChildHeap();
    var h1 := h + [ListObj([])];
    assert Field("a") !in map[Field("b") := Ref(1)];
    var h2 := h1[0 := DictObj(map[Field("b") := Ref(1), Field("a") := Ref(2)])];
    assert [] + [2] == [2];
    assert Fresh(h, true, []) == (h1, Ref(2), [2]);
    assert Descend(h, Ref(0), key[0], true, []) == Ok((h2, Ref(2), [2]));
    assert Admitted(h2, 2, [2], test) by {
      if test == ByEquality { assert ItemEq(h2, Ref([2][0]), Ref(2), |h2|); }
    }
    assert Final(h2, Ref(2), key[1], Int(1), [2], test) == Ok(h2[2 := ListObj([] + [One()])]);
    assert [] + [One()] == [One()];
    assert h2[2 := ListObj([One()])] == MidHeap();
  }

  /** The list of b is not one this call made, yet it equals the list of a,
      which is: == lets the parent's value in. */
  lemma ParentWriteB(test: ListTest)
    ensures AddValue(MidHeap(), [Field("b"), Index(0)], Int(2), [2], test) ==
      Ok((if test == ByEquality then EqualityHeap() else MidHeap(), [2]))
  {
    var key := [Field("b"), Index(0)];
    var h := MidHeap();
    assert Descend(h, Ref(0), key[0], true, [2]) == Ok((h, Ref(1), [2]));
    if test == ByEquality {
      assert ObjEq(h, h[2], h[1], |h| - 1) by {
        assert AtomEq(Int(1), Int(1));
      }
      assert ItemEq(h, Ref([2][0]), Ref(1), |h|);
      assert Admitted(h, 1, [2], test);
      assert [One()] + [Atom(Int(2))] == [One(), Atom(Int(2))];
      assert h[1 := ListObj([One(), Atom(Int(2))])] == EqualityHeap();
    } else {
      assert !Admitted(h, 1, [2], test);
    }
  }

  lemma ChildOwn(test: ListTest)
    ensures OwnValues(ListEnvs()["child"], Empty(), test) == Ok(ChildHeap())
  {
    var vs := ListEnvs()["child"].values;
    assert !AnyClash(vs) by {
      assert !Clash(vs[0].key, vs[0].key) by { assert !Clash(vs[0].key[1..], vs[0].key[1..]); }
    }
    assert SortByKey(vs, BindingKey) == vs;
    var ws := WritesOf(vs);
    assert AddEach(Empty(), [], ws[..0], test) == Ok((Empty(), []));
    ChildWrite(test);
  }

  lemma ParentSorted()
    ensures Sorted(ListEnvs()["parent"].values) == Ok(ListEnvs()["parent"].values)
  {
    var vs := ListEnvs()["parent"].values;
    var ka, kb := vs[0].key, vs[1].key;
    assert !Clash(ka, ka) by { assert !Clash(ka[1..], ka[1..]); }
    assert !Clash(kb, kb) by { assert !Clash(kb[1..], kb[1..]); }
    assert !Clash(ka, kb) && !Clash(kb, ka);
    assert !AnyClash(vs);
    assert !KeyLess(kb, ka) by { assert !StrLess("b", "a"); }
    assert SortByKey(vs[1..], BindingKey) == [vs[1]];
    assert SortByKey(vs, BindingKey) == InsertByKey(vs[0], [vs[1]], BindingKey);
    assert BindingKey([vs[1]][0]) == kb && BindingKey(vs[0]) == ka;
    assert InsertByKey(vs[0], [vs[1]], BindingKey) == [vs[0]] + [vs[1]];
    assert [vs[0]] + [vs[1]] == vs;
  }

  lemma ParentFirst(test: ListTest)
    ensures AddEach(ChildHeap(), [], WritesOf(ListEnvs()["parent"].values)[..1], test) == Ok((MidHeap(), [2]))
  {
    var ws := WritesOf(ListEnvs()["parent"].values);
    assert ws[..1][..0] == [];
    assert AddEach(ChildHeap(), [], [], test) == Ok((ChildHeap(), []));
    ParentWriteA(test);
  }

  lemma ParentOwn(test: ListTest)
    ensures OwnValues(ListEnvs()["parent"], ChildHeap(), test) ==
      Ok(if test == ByEquality then EqualityHeap() else MidHeap())
  {
    var vs := ListEnvs()["parent"].values;
    ParentSorted();
    var ws := WritesOf(vs);
    ParentFirst(test);
    ParentWriteB(test);
    assert ws[..|ws| - 1] == ws[..1];
  }

  /** asdict of the child: the child's list of b gets the parent's value
      as well, because the list test compares with ==. */
  lemma EqualityExtendsChildList()
    ensures AsDictInto(ListEnvs(), "child", Empty(), 2, ByEquality) == Ok(EqualityHeap())
    ensures ChildHeap()[1] == ListObj([One()]) && EqualityHeap()[1] == ListObj([One(), Atom(Int(2))])
  {
    ChildOwn(ByEquality);
    ParentOwn(ByEquality);
  }

  /** With the identity test the child's list stays [1]. */
  lemma IdentityKeepsChildList()
    ensures AsDictInto(ListEnvs(), "child", Empty(), 2, ByIdentity) == Ok(MidHeap())
    ensures MidHeap()[1] == ChildHeap()[1]
  {
    ChildOwn(ByIdentity);
    ParentOwn(ByIdentity);
  }
}
