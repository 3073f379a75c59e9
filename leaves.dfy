/** An independent description of what the walk stores: every scalar
    reachable from the root through object members and through the members
    of array elements, with the names and indices leading to it. The walk's
    puts are exactly these leaves, keyed by their joined path. */
module Leaves {
  import opened JsonTree
  import opened Decimal
  import opened Fqn
  import opened Flatten

  /** A scalar and the segments from the starting object down to it, its own
      field name last. */
  datatype Leaf = Leaf(path: seq<string>, value: Node)

  predicate ScalarLeaves(leaves: seq<Leaf>) {
    forall i :: 0 <= i < |leaves| ==> !IsContainer(leaves[i].value) && |leaves[i].path| > 0
  }

  function Prefixed(seg: string, leaves: seq<Leaf>): seq<Leaf> {
    seq(|leaves|, i requires 0 <= i < |leaves| => Leaf([seg] + leaves[i].path, leaves[i].value))
  }

  /** The leaves under member `name`: the member itself if it is a scalar,
      otherwise the leaves of its contents with `name` in front. */
  function MemberLeaves(name: string, v: Node): (r: seq<Leaf>)
    ensures ScalarLeaves(r)
    ensures forall i :: 0 <= i < |r| ==> r[i].path[0] == name
    ensures !IsContainer(v) ==> r == [Leaf([name], v)]
    ensures IsContainer(v) ==> forall i :: 0 <= i < |r| ==> |r[i].path| > 1
    decreases v
  {
    match v
    case Obj(fields) => Prefixed(name, FieldLeaves(fields))
    case Arr(elems) => Prefixed(name, ElementLeaves(elems))
    case _ => [Leaf([name], v)]
  }

  function Names(fields: seq<Field>): set<string> {
    set k | 0 <= k < |fields| :: fields[k].name
  }

  function IndexTexts(n: nat): set<string> {
    set k | 0 <= k < n :: NatText(k)
  }

  /** The leaves under the members of an object, each path starting with the
      name of the member it lies under. */
  function FieldLeaves(fields: seq<Field>): (r: seq<Leaf>)
    ensures ScalarLeaves(r)
    ensures forall i :: 0 <= i < |r| ==> r[i].path[0] in Names(fields)
    decreases fields
  {
    if fields == [] then []
    else
      var n := |fields| - 1;
      var a := FieldLeaves(fields[..n]);
      var b := MemberLeaves(fields[n].name, fields[n].value);
      assert Names(fields[..n]) <= Names(fields) by {
        assert forall k :: 0 <= k < n ==> fields[..n][k] == fields[k];
      }
      a + b
  }

  /** The leaves under the elements of an array: those of element k's own
      members, with NatText(k) in front. */
  function ElementLeaves(elems: seq<Node>): (r: seq<Leaf>)
    ensures ScalarLeaves(r)
    ensures forall i :: 0 <= i < |r| ==> r[i].path[0] in IndexTexts(|elems|)
    decreases elems
  {
    if elems == [] then []
    else
      var n := |elems| - 1;
      var a := ElementLeaves(elems[..n]);
      var b := match elems[n]
        case Obj(fields) => Prefixed(NatText(n), FieldLeaves(fields))
        case _ => [];
      assert IndexTexts(n) <= IndexTexts(|elems|);
      assert NatText(n) in IndexTexts(|elems|);
      a + b
  }

  /** The puts that store `leaves` when the path stack holds `prefix`. */
  function Keyed(prefix: seq<string>, leaves: seq<Leaf>, nullText: string): seq<Put>
    requires ScalarLeaves(leaves)
  {
    seq(|leaves|, i requires 0 <= i < |leaves| =>
      Put(Join(prefix + leaves[i].path), LeafText(leaves[i].value, nullText)))
  }

  lemma KeyedAppend(prefix: seq<string>, a: seq<Leaf>, b: seq<Leaf>, nullText: string)
    requires ScalarLeaves(a) && ScalarLeaves(b)
    ensures ScalarLeaves(a + b)
    ensures Keyed(prefix, a + b, nullText) == Keyed(prefix, a, nullText) + Keyed(prefix, b, nullText)
  {
    assert ScalarLeaves(a + b) by {
      forall i | 0 <= i < |a + b| ensures !IsContainer((a + b)[i].value) && |(a + b)[i].path| > 0 {
        if i < |a| { assert (a + b)[i] == a[i]; } else { assert (a + b)[i] == b[i - |a|]; }
      }
    }
  }

  lemma KeyedPrefixed(prefix: seq<string>, seg: string, leaves: seq<Leaf>, nullText: string)
    requires ScalarLeaves(leaves)
    ensures ScalarLeaves(Prefixed(seg, leaves))
    ensures Keyed(prefix, Prefixed(seg, leaves), nullText) == Keyed(prefix + [seg], leaves, nullText)
  {
    var l := Keyed(prefix, Prefixed(seg, leaves), nullText);
    var r := Keyed(prefix + [seg], leaves, nullText);
    forall i | 0 <= i < |leaves| ensures l[i] == r[i] {
      assert prefix + ([seg] + leaves[i].path) == (prefix + [seg]) + leaves[i].path;
    }
  }

  /** The walk's puts for one member are its leaves keyed by their full
      path: at every leaf the path stack holds exactly the segments from the
      root to the leaf's parent. */
  lemma {:induction false} MemberEntriesAreKeyedLeaves(name: string, v: Node, prefix: seq<string>, nullText: string)
    ensures MemberEntries(name, v, prefix, nullText) == Keyed(prefix, MemberLeaves(name, v), nullText)
    decreases v
  {
    match v
    case Obj(fields) =>
      FieldEntriesAreKeyedLeaves(fields, prefix + [name], nullText);
      KeyedPrefixed(prefix, name, FieldLeaves(fields), nullText);
    case Arr(elems) =>
      ArrayEntriesAreKeyedLeaves(elems, prefix + [name], nullText);
      KeyedPrefixed(prefix, name, ElementLeaves(elems), nullText);
    case _ =>
  }

  lemma {:induction false} FieldEntriesAreKeyedLeaves(fields: seq<Field>, prefix: seq<string>, nullText: string)
    ensures FieldEntries(fields, prefix, nullText) == Keyed(prefix, FieldLeaves(fields), nullText)
    decreases fields
  {
    if fields != [] {
      var n := |fields| - 1;
      FieldEntriesAreKeyedLeaves(fields[..n], prefix, nullText);
      MemberEntriesAreKeyedLeaves(fields[n].name, fields[n].value, prefix, nullText);
      KeyedAppend(prefix, FieldLeaves(fields[..n]), MemberLeaves(fields[n].name, fields[n].value), nullText);
    }
  }

  lemma {:induction false} ArrayEntriesAreKeyedLeaves(elems: seq<Node>, prefix: seq<string>, nullText: string)
    ensures ArrayEntries(elems, prefix, nullText) == Keyed(prefix, ElementLeaves(elems), nullText)
    decreases elems
  {
    if elems != [] {
      var n := |elems| - 1;
      ArrayEntriesAreKeyedLeaves(elems[..n], prefix, nullText);
      match elems[n]
      case Obj(fields) =>
        FieldEntriesAreKeyedLeaves(fields, prefix + [NatText(n)], nullText);
        KeyedPrefixed(prefix, NatText(n), FieldLeaves(fields), nullText);
        KeyedAppend(prefix, ElementLeaves(elems[..n]), Prefixed(NatText(n), FieldLeaves(fields)), nullText);
      case _ =>
        assert ElementLeaves(elems) == ElementLeaves(elems[..n]) + [];
    }
  }

  /** One document's puts: each leaf below the root, keyed by the names and
      indices from the root to it, whatever its siblings are. */
  lemma ShredIsKeyedLeaves(root: Node, nullText: string)
    ensures FieldEntries(Members(root), [], nullText) == Keyed([], FieldLeaves(Members(root)), nullText)
    ensures |FieldEntries(Members(root), [], nullText)| == |FieldLeaves(Members(root))|
  {
    FieldEntriesAreKeyedLeaves(Members(root), [], nullText);
  }

  /** When the generated names are pairwise distinct, a shredder with an
      empty payload ends with exactly one entry per leaf. */
  lemma ShredSize(root: Node, nullText: string)
    requires DistinctKeys(FieldEntries(Members(root), [], nullText))
    ensures |PutAll(map[], FieldEntries(Members(root), [], nullText))| == |FieldLeaves(Members(root))|
  {
    ShredIsKeyedLeaves(root, nullText);
    PutAllSize(map[], FieldEntries(Members(root), [], nullText));
  }
  /** A tree whose objects have pairwise distinct field names, none of them
      containing '_'. */
  predicate WellFormed(v: Node)
    decreases v
  {
    match v
    case Obj(fields) => FieldsWellFormed(fields)
    case Arr(elems) => forall i :: 0 <= i < |elems| ==> WellFormed(elems[i])
    case _ => true
  }

  predicate FieldsWellFormed(fields: seq<Field>)
    decreases fields
  {
    && (forall i, j :: 0 <= i < j < |fields| ==> fields[i].name != fields[j].name)
    && (forall i :: 0 <= i < |fields| ==> NoSeparator(fields[i].name) && WellFormed(fields[i].value))
  }

  predicate DistinctPaths(leaves: seq<Leaf>) {
    forall i, j :: 0 <= i < j < |leaves| ==> leaves[i].path != leaves[j].path
  }

  predicate CleanPaths(leaves: seq<Leaf>) {
    forall i :: 0 <= i < |leaves| ==> AllNoSeparator(leaves[i].path)
  }

  lemma DigitsHaveNoSeparator(s: string)
    requires AllDigits(s)
    ensures NoSeparator(s)
  {
  }

  lemma PrefixedDistinct(seg: string, leaves: seq<Leaf>)
    requires DistinctPaths(leaves) && CleanPaths(leaves) && NoSeparator(seg)
    ensures DistinctPaths(Prefixed(seg, leaves)) && CleanPaths(Prefixed(seg, leaves))
  {
    var r := Prefixed(seg, leaves);
    forall i, j | 0 <= i < j < |r| ensures r[i].path != r[j].path {
      assert r[i].path[1..] == leaves[i].path;
      assert r[j].path[1..] == leaves[j].path;
    }
    forall i | 0 <= i < |r| ensures AllNoSeparator(r[i].path) {
      forall k | 0 <= k < |r[i].path| ensures NoSeparator(r[i].path[k]) {
        if k > 0 { assert r[i].path[k] == leaves[i].path[k - 1]; }
      }
    }
  }

  lemma ConcatDistinct(a: seq<Leaf>, b: seq<Leaf>)
    requires DistinctPaths(a) && DistinctPaths(b) && CleanPaths(a) && CleanPaths(b)
    requires forall i, j :: 0 <= i < |a| && 0 <= j < |b| ==> a[i].path != b[j].path
    ensures DistinctPaths(a + b) && CleanPaths(a + b)
  {
    var r := a + b;
    forall i, j | 0 <= i < j < |r| ensures r[i].path != r[j].path {
      if j < |a| {
        assert r[i] == a[i] && r[j] == a[j];
      } else if i < |a| {
        assert r[i] == a[i] && r[j] == b[j - |a|];
      } else {
        assert r[i] == b[i - |a|] && r[j] == b[j - |a|];
      }
    }
    forall i | 0 <= i < |r| ensures AllNoSeparator(r[i].path) {
      if i < |a| { assert r[i] == a[i]; } else { assert r[i] == b[i - |a|]; }
    }
  }

  /** In a well-formed tree no two leaves under a member share a path. */
  lemma {:induction false} MemberLeavesDistinct(name: string, v: Node)
    requires WellFormed(v) && NoSeparator(name)
    ensures DistinctPaths(MemberLeaves(name, v)) && CleanPaths(MemberLeaves(name, v))
    decreases v
  {
    match v
    case Obj(fields) =>
      FieldLeavesDistinct(fields);
      PrefixedDistinct(name, FieldLeaves(fields));
    case Arr(elems) =>
      ElementLeavesDistinct(elems);
      PrefixedDistinct(name, ElementLeaves(elems));
    case _ =>
      assert AllNoSeparator([name]);
  }

  lemma {:induction false} FieldLeavesDistinct(fields: seq<Field>)
    requires FieldsWellFormed(fields)
    ensures DistinctPaths(FieldLeaves(fields)) && CleanPaths(FieldLeaves(fields))
    decreases fields
  {
    if fields != [] {
      var n := |fields| - 1;
      var init := fields[..n];
      assert forall k :: 0 <= k < n ==> init[k] == fields[k];
      FieldLeavesDistinct(init);
      MemberLeavesDistinct(fields[n].name, fields[n].value);
      var a := FieldLeaves(init);
      var b := MemberLeaves(fields[n].name, fields[n].value);
      assert fields[n].name !in Names(init);
      forall i, j | 0 <= i < |a| && 0 <= j < |b| ensures a[i].path != b[j].path {
        assert a[i].path[0] in Names(init);
      }
      ConcatDistinct(a, b);
    }
  }

  lemma {:induction false} ElementLeavesDistinct(elems: seq<Node>)
    requires forall i :: 0 <= i < |elems| ==> WellFormed(elems[i])
    ensures DistinctPaths(ElementLeaves(elems)) && CleanPaths(ElementLeaves(elems))
    decreases elems
  {
    if elems != [] {
      var n := |elems| - 1;
      var init := elems[..n];
      assert forall k :: 0 <= k < n ==> init[k] == elems[k];
      ElementLeavesDistinct(init);
      var a := ElementLeaves(init);
      match elems[n]
      case Obj(fields) =>
        assert WellFormed(elems[n]);
        FieldLeavesDistinct(fields);
        DigitsHaveNoSeparator(NatText(n));
        PrefixedDistinct(NatText(n), FieldLeaves(fields));
        var b := Prefixed(NatText(n), FieldLeaves(fields));
        forall i, j | 0 <= i < |a| && 0 <= j < |b| ensures a[i].path != b[j].path {
          assert a[i].path[0] in IndexTexts(n);
          var k :| 0 <= k < n && a[i].path[0] == NatText(k);
          NatTextInjective(k, n);
        }
        ConcatDistinct(a, b);
      case _ =>
        assert ElementLeaves(elems) == a + [];
    }
  }

  lemma AppendClean(prefix: seq<string>, path: seq<string>)
    requires AllNoSeparator(prefix) && AllNoSeparator(path)
    ensures AllNoSeparator(prefix + path)
  {
    var p := prefix + path;
    forall k | 0 <= k < |p| ensures NoSeparator(p[k]) {
      if k >= |prefix| { assert p[k] == path[k - |prefix|]; }
    }
  }

  /** Distinct '_'-free paths below a '_'-free prefix give distinct keys. */
  lemma KeyedDistinct(prefix: seq<string>, leaves: seq<Leaf>, nullText: string)
    requires ScalarLeaves(leaves) && DistinctPaths(leaves) && CleanPaths(leaves)
    requires AllNoSeparator(prefix)
    ensures DistinctKeys(Keyed(prefix, leaves, nullText))
  {
    var puts := Keyed(prefix, leaves, nullText);
    forall i, j | 0 <= i < j < |puts| ensures puts[i].key != puts[j].key {
      var p, q := prefix + leaves[i].path, prefix + leaves[j].path;
      assert p[|prefix|..] == leaves[i].path && q[|prefix|..] == leaves[j].path;
      AppendClean(prefix, leaves[i].path);
      AppendClean(prefix, leaves[j].path);
      if Join(p) == Join(q) {
        JoinInjective(p, q);
      }
    }
  }

  /** A well-formed document shredded into an empty payload yields exactly one
      entry per leaf: no two leaves collide. */
  lemma WellFormedShredSize(root: Node, nullText: string)
    requires WellFormed(root)
    ensures DistinctKeys(FieldEntries(Members(root), [], nullText))
    ensures |PutAll(map[], FieldEntries(Members(root), [], nullText))| == |FieldLeaves(Members(root))|
  {
    FieldLeavesDistinct(Members(root));
    ShredIsKeyedLeaves(root, nullText);
    KeyedDistinct([], FieldLeaves(Members(root)), nullText);
    ShredSize(root, nullText);
  }

  /** The number of scalars in a value, wherever they sit: object members
      and array elements alike. */
  function NodeScalars(v: Node): nat
    decreases v
  {
    match v
    case Obj(fields) => FieldsScalars(fields)
    case Arr(elems) => ElemsScalars(elems)
    case _ => 1
  }

  function FieldsScalars(fields: seq<Field>): nat
    decreases fields
  {
    if fields == [] then 0
    else FieldsScalars(fields[..|fields| - 1]) + NodeScalars(fields[|fields| - 1].value)
  }

  function ElemsScalars(elems: seq<Node>): nat
    decreases elems
  {
    if elems == [] then 0
    else ElemsScalars(elems[..|elems| - 1]) + NodeScalars(elems[|elems| - 1])
  }

  /** Every array anywhere in the value holds only objects. */
  predicate ArraysOfObjects(v: Node)
    decreases v
  {
    match v
    case Obj(fields) => FieldsArraysOfObjects(fields)
    case Arr(elems) => forall i :: 0 <= i < |elems| ==> elems[i].Obj? && ArraysOfObjects(elems[i])
    case _ => true
  }

  predicate FieldsArraysOfObjects(fields: seq<Field>)
    decreases fields
  {
    forall i :: 0 <= i < |fields| ==> ArraysOfObjects(fields[i].value)
  }

  /** The walk reaches at most every scalar under a member, and exactly every
      one when each array below it holds only objects. */
  lemma {:induction false} MemberLeavesCount(name: string, v: Node)
    ensures |MemberLeaves(name, v)| <= NodeScalars(v)
    ensures ArraysOfObjects(v) ==> |MemberLeaves(name, v)| == NodeScalars(v)
    decreases v
  {
    match v
    case Obj(fields) => FieldLeavesCount(fields);
    case Arr(elems) => ElementLeavesCount(elems);
    case _ =>
  }

  lemma {:induction false} FieldLeavesCount(fields: seq<Field>)
    ensures |FieldLeaves(fields)| <= FieldsScalars(fields)
    ensures FieldsArraysOfObjects(fields) ==> |FieldLeaves(fields)| == FieldsScalars(fields)
    decreases fields
  {
    if fields != [] {
      var n := |fields| - 1;
      var init := fields[..n];
      assert forall k :: 0 <= k < n ==> init[k] == fields[k];
      FieldLeavesCount(init);
      MemberLeavesCount(fields[n].name, fields[n].value);
    }
  }

  lemma {:induction false} ElementLeavesCount(elems: seq<Node>)
    ensures |ElementLeaves(elems)| <= ElemsScalars(elems)
    ensures (forall i :: 0 <= i < |elems| ==> elems[i].Obj? && ArraysOfObjects(elems[i])) ==>
      |ElementLeaves(elems)| == ElemsScalars(elems)
    decreases elems
  {
    if elems != [] {
      var n := |elems| - 1;
      var init := elems[..n];
      assert forall k :: 0 <= k < n ==> init[k] == elems[k];
      ElementLeavesCount(init);
      match elems[n]
      case Obj(fields) => FieldLeavesCount(fields);
      case _ =>
    }
  }

  /** A document yields at most one leaf per scalar in it, and exactly one
      when the root is an object and every array holds only objects. */
  lemma ReachedScalars(root: Node)
    ensures |FieldLeaves(Members(root))| <= NodeScalars(root)
    ensures root.Obj? && ArraysOfObjects(root) ==> |FieldLeaves(Members(root))| == NodeScalars(root)
  {
    FieldLeavesCount(Members(root));
  }

  /** {"a": [1, 2]} holds two scalars, but the walk reaches neither: array
      elements are walked only through their own members. */
  lemma ScalarElementsUnreached()
    ensures NodeScalars(Obj([Field("a", Arr([Num(1), Num(2)]))])) == 2
    ensures FieldLeaves([Field("a", Arr([Num(1), Num(2)]))]) == []
  {
    var f := Field("a", Arr([Num(1), Num(2)]));
    assert [f][..0] == [];
    assert [Num(1), Num(2)][..1] == [Num(1)];
    assert [Num(1)][..0] == [];
    assert ElementLeaves([Num(1)]) == [];
    assert ElementLeaves([Num(1), Num(2)]) == [];
    assert ElemsScalars([Num(1)]) == 1;
    assert FieldsScalars([f]) == 2;
  }
}
