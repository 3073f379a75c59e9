/** Documents worked through the specification of the walk. */
module Examples {
  import opened JsonTree
  import opened Decimal
  import opened Fqn
  import opened Flatten

  lemma PutAllSnoc(m: map<string, string>, puts: seq<Put>, p: Put)
    ensures PutAll(m, puts + [p]) == PutAll(m, puts)[p.key := p.value]
  {
    assert (puts + [p])[..|puts|] == puts;
  }

  lemma PutAllPair(m: map<string, string>, p1: Put, p2: Put)
    ensures PutAll(m, [p1, p2]) == m[p1.key := p1.value][p2.key := p2.value]
  {
    assert [p1] == [] + [p1] && [p1, p2] == [p1] + [p2];
    PutAllSnoc(m, [], p1);
    PutAllSnoc(m, [p1], p2);
  }

  /** {"a": 1, "b": "x", "c": true} */
  lemma FlatDocument(nullText: string)
    ensures Shred(map[], Obj([Field("a", Num(1)), Field("b", Str("x")), Field("c", Bool(true))]), nullText)
         == map["a" := "1", "b" := "x", "c" := "true"]
  {
    var f1, f2, f3 := Field("a", Num(1)), Field("b", Str("x")), Field("c", Bool(true));
    assert [f1] == [] + [f1];
    assert [f1, f2] == [f1] + [f2];
    assert [f1, f2, f3] == [f1, f2] + [f3];
    FieldEntriesSnoc([], f1, [], nullText);
    FieldEntriesSnoc([f1], f2, [], nullText);
    FieldEntriesSnoc([f1, f2], f3, [], nullText);
    assert NatText(1) == "1";
    var p1, p2, p3 := Put("a", "1"), Put("b", "x"), Put("c", "true");
    assert FieldEntries([f1, f2, f3], [], nullText) == [p1, p2, p3];
    assert [p1] == [] + [p1];
    assert [p1, p2] == [p1] + [p2];
    assert [p1, p2, p3] == [p1, p2] + [p3];
    PutAllSnoc(map[], [], p1);
    PutAllSnoc(map[], [p1], p2);
    PutAllSnoc(map[], [p1, p2], p3);
  }

  /** {"a": {"b": 5}} */
  lemma NestedObject(nullText: string)
    ensures Shred(map[], Obj([Field("a", Obj([Field("b", Num(5))]))]), nullText) == map["a_b" := "5"]
  {
    var g := Field("b", Num(5));
    var f := Field("a", Obj([g]));
    assert [f] == [] + [f] && [g] == [] + [g];
    FieldEntriesSnoc([], f, [], nullText);
    FieldEntriesSnoc([], g, ["a"], nullText);
    assert NatText(5) == "5";
    assert GetFQN(["a"], "b") == "a_b";
    var p := Put("a_b", "5");
    assert MemberEntries("b", Num(5), ["a"], nullText) == [p];
    assert FieldEntries([g], ["a"], nullText) == [] + [p];
    assert [] + ["a"] == ["a"];
    assert MemberEntries("a", Obj([g]), [], nullText) == [p];
    assert FieldEntries([f], [], nullText) == [] + [p];
    assert [p] == [] + [p];
    PutAllSnoc(map[], [], p);
  }

  /** An object with one member makes exactly that member's puts. */
  lemma SingleMember(f: Field, prefix: seq<string>, nullText: string)
    ensures FieldEntries([f], prefix, nullText) == MemberEntries(f.name, f.value, prefix, nullText)
  {
    assert [f] == [] + [f];
    FieldEntriesSnoc([], f, prefix, nullText);
  }

  /** Element 0 of {"a": [{"b": 1}, ...]} is walked under ["a", "0"]. */
  lemma FirstElementPath(nullText: string)
    ensures ArrayEntries([Obj([Field("b", Num(1))])], ["a"], nullText)
         == FieldEntries([Field("b", Num(1))], ["a", "0"], nullText)
  {
    var e0 := Obj([Field("b", Num(1))]);
    assert [e0] == [] + [e0];
    ArrayEntriesSnoc([], e0, ["a"], nullText);
    assert NatText(0) == "0" && ["a"] + ["0"] == ["a", "0"];
  }

  /** Element 0's member "b" is stored as "a_0_b". */
  lemma FirstElementEntries(nullText: string)
    ensures FieldEntries([Field("b", Num(1))], ["a", "0"], nullText) == [Put("a_0_b", "1")]
  {
    SingleMember(Field("b", Num(1)), ["a", "0"], nullText);
    assert NatText(1) == "1";
    assert GetFQN(["a", "0"], "b") == "a_0_b";
  }

  /** Element 1 of {"a": [..., {"b": 2}]}. */
  lemma SecondElementEntries(nullText: string)
    ensures FieldEntries(Members(Obj([Field("b", Num(2))])), ["a"] + [NatText(1)], nullText) == [Put("a_1_b", "2")]
  {
    assert NatText(1) == "1" && ["a"] + ["1"] == ["a", "1"];
    SingleMember(Field("b", Num(2)), ["a", "1"], nullText);
    assert NatText(2) == "2";
    assert GetFQN(["a", "1"], "b") == "a_1_b";
  }

  /** The puts of array {"a": [{"b": 1}, {"b": 2}]}'s elements. */
  lemma ArrayOfObjectsEntries(nullText: string)
    ensures ArrayEntries([Obj([Field("b", Num(1))]), Obj([Field("b", Num(2))])], ["a"], nullText)
         == [Put("a_0_b", "1"), Put("a_1_b", "2")]
  {
    var e0, e1 := Obj([Field("b", Num(1))]), Obj([Field("b", Num(2))]);
    var p0, p1 := Put("a_0_b", "1"), Put("a_1_b", "2");
    assert ArrayEntries([e0], ["a"], nullText) == [p0] by {
      FirstElementPath(nullText);
      FirstElementEntries(nullText);
    }
    assert FieldEntries(Members(e1), ["a"] + [NatText(|[e0]|)], nullText) == [p1] by {
      SecondElementEntries(nullText);
    }
    assert [e0, e1] == [e0] + [e1];
    ArrayEntriesSnoc([e0], e1, ["a"], nullText);
  }

  /** {"a": [{"b": 1}, {"b": 2}]} */
  lemma ArrayOfObjects(nullText: string)
    ensures Shred(map[], Obj([Field("a", Arr([Obj([Field("b", Num(1))]), Obj([Field("b", Num(2))])]))]), nullText)
         == map["a_0_b" := "1", "a_1_b" := "2"]
  {
    var es := [Obj([Field("b", Num(1))]), Obj([Field("b", Num(2))])];
    var f := Field("a", Arr(es));
    var p1, p2 := Put("a_0_b", "1"), Put("a_1_b", "2");
    ArrayOfObjectsEntries(nullText);
    SingleMember(f, [], nullText);
    assert [] + ["a"] == ["a"];
    PutAllPair(map[], p1, p2);
  }

  /** {"a": [1, true, "s"]}: array elements are walked only through their own
      members, so scalar elements store nothing. */
  lemma ArrayOfScalars(nullText: string)
    ensures Shred(map[], Obj([Field("a", Arr([Num(1), Bool(true), Str("s")]))]), nullText) == map[]
  {
    var e0, e1, e2 := Num(1), Bool(true), Str("s");
    var f := Field("a", Arr([e0, e1, e2]));
    assert [f] == [] + [f];
    assert [e0] == [] + [e0] && [e0, e1] == [e0] + [e1] && [e0, e1, e2] == [e0, e1] + [e2];
    FieldEntriesSnoc([], f, [], nullText);
    ArrayEntriesSnoc([], e0, ["a"], nullText);
    ArrayEntriesSnoc([e0], e1, ["a"], nullText);
    ArrayEntriesSnoc([e0, e1], e2, ["a"], nullText);
    assert FieldEntries([], ["a", "0"], nullText) == [];
    assert FieldEntries([], ["a", "1"], nullText) == [];
    assert FieldEntries([], ["a", "2"], nullText) == [];
    assert ArrayEntries([e0, e1, e2], ["a"], nullText) == [];
    assert [] + ["a"] == ["a"];
    assert MemberEntries("a", Arr([e0, e1, e2]), [], nullText) == [];
    assert FieldEntries([f], [], nullText) == [] + [];
  }

  /** {"x_y": "1", "x": {"y": "2"}}: both leaves are named "x_y" and the later
      put wins. */
  lemma CollisionLastWins(nullText: string)
    ensures Shred(map[], Obj([Field("x_y", Str("1")), Field("x", Obj([Field("y", Str("2"))]))]), nullText)
         == map["x_y" := "2"]
  {
    var p1, p2 := Put("x_y", "1"), Put("x_y", "2");
    CollisionEntries(nullText);
    assert [p1] == [] + [p1] && [p1, p2] == [p1] + [p2];
    PutAllSnoc(map[], [], p1);
    PutAllSnoc(map[], [p1], p2);
  }

  /** The puts of {"x_y": "1", "x": {"y": "2"}}: two puts under "x_y". */
  lemma CollisionEntries(nullText: string)
    ensures FieldEntries([Field("x_y", Str("1")), Field("x", Obj([Field("y", Str("2"))]))], [], nullText)
         == [Put("x_y", "1"), Put("x_y", "2")]
  {
    var g := Field("y", Str("2"));
    var f1, f2 := Field("x_y", Str("1")), Field("x", Obj([g]));
    var p1, p2 := Put("x_y", "1"), Put("x_y", "2");
    SingleMember(f1, [], nullText);
    assert MemberEntries("x", Obj([g]), [], nullText) == [p2] by {
      SingleMember(g, ["x"], nullText);
      SeparatorCollision();
      assert [] + ["x"] == ["x"];
    }
    assert [f1, f2] == [f1] + [f2];
    FieldEntriesSnoc([f1], f2, [], nullText);
  }

  /** {"a": -7} */
  lemma FirstDocument(nullText: string)
    ensures Shred(map[], Obj([Field("a", Num(-7))]), nullText) == map["a" := "-7"]
  {
    SingleMember(Field("a", Num(-7)), [], nullText);
    assert NatText(7) == "7";
    assert IntText(-7) == "-7";
    PutAllSnoc(map[], [], Put("a", "-7"));
  }

  /** The payload is never cleared: a second document adds to the first's
      entries. */
  lemma PayloadAccumulates(nullText: string)
    ensures Shred(Shred(map[], Obj([Field("a", Num(-7))]), nullText), Obj([Field("b", Null)]), nullText)
         == map["a" := "-7", "b" := nullText]
  {
    FirstDocument(nullText);
    SingleMember(Field("b", Null), [], nullText);
    PutAllSnoc(map["a" := "-7"], [], Put("b", nullText));
  }
}
