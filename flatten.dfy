/** The specification of one shredding pass: the pre-order sequence of map
    insertions the walk performs, and the map those insertions produce. */
module Flatten {
  import opened JsonTree
  import opened Decimal
  import opened Fqn

  /** One `put` into the flattened payload. */
  datatype Put = Put(key: string, value: string)

  /** String.valueOf(boolean). */
  function BoolText(b: bool): (text: string)
    ensures text == "true" <==> b
    ensures text == "false" <==> !b
  {
    if b then "true" else "false"
  }

  /** The text stored for a scalar member: a number in decimal, a boolean as
      "true"/"false", a string unchanged; for a null the walk stores whatever
      text the parser library gives a null node, kept abstract as `nullText`. */
  function LeafText(v: Node, nullText: string): (text: string)
    requires !IsContainer(v)
    ensures v.Num? ==> text == IntText(v.n)
    ensures v.Bool? ==> (text == "true" <==> v.b) && (text == "false" <==> !v.b)
    ensures v.Str? ==> text == v.s
    ensures v.Null? ==> text == nullText
  {
    match v
    case Num(n) => IntText(n)
    case Bool(b) => BoolText(b)
    case Str(s) => s
    case Null => nullText
  }

  /** A number leaf's text reads back as the number. */
  lemma NumLeafRoundTrip(n: int, nullText: string)
    ensures var text := LeafText(Num(n), nullText);
      |text| > 0 && (if text[0] == '-' then AllDigits(text[1..]) else AllDigits(text)) &&
      ParseInt(text) == n
  {
    IntTextRoundTrip(n);
  }

  function Keys(puts: seq<Put>): set<string> {
    set i | 0 <= i < |puts| :: puts[i].key
  }

  predicate DistinctKeys(puts: seq<Put>) {
    forall i, j :: 0 <= i < j < |puts| ==> puts[i].key != puts[j].key
  }

  /** The map after performing `puts` in order on `m` (HashMap.put). */
  function PutAll(m: map<string, string>, puts: seq<Put>): (r: map<string, string>)
    ensures r.Keys == m.Keys + Keys(puts)
    decreases |puts|
  {
    if puts == [] then m
    else
      var last := puts[|puts| - 1];
      var r := PutAll(m, puts[..|puts| - 1]);
      assert Keys(puts) == Keys(puts[..|puts| - 1]) + {last.key} by {
        forall k | k in Keys(puts) ensures k in Keys(puts[..|puts| - 1]) + {last.key} {
          var i :| 0 <= i < |puts| && puts[i].key == k;
          if i < |puts| - 1 {
            assert puts[..|puts| - 1][i] == puts[i];
          }
        }
      }
      r[last.key := last.value]
  }

  lemma {:induction false} PutAllAppend(m: map<string, string>, a: seq<Put>, b: seq<Put>)
    ensures PutAll(m, a + b) == PutAll(PutAll(m, a), b)
    decreases |b|
  {
    if b == [] {
      assert a + b == a;
    } else {
      var n := |b| - 1;
      assert (a + b)[..|a + b| - 1] == a + b[..n];
      assert (a + b)[|a + b| - 1] == b[n];
      PutAllAppend(m, a, b[..n]);
    }
  }

  /** Last write wins: a key ends up holding the value of its last put. */
  lemma {:induction false} LastWriteWins(m: map<string, string>, puts: seq<Put>, i: nat)
    requires i < |puts|
    requires forall j :: i < j < |puts| ==> puts[j].key != puts[i].key
    ensures puts[i].key in PutAll(m, puts) && PutAll(m, puts)[puts[i].key] == puts[i].value
    decreases |puts|
  {
    var n := |puts| - 1;
    var init := puts[..n];
    assert PutAll(m, puts) == PutAll(m, init)[puts[n].key := puts[n].value];
    if i < n {
      assert forall j :: i < j < |init| ==> init[j] == puts[j];
      LastWriteWins(m, init, i);
      assert init[i] == puts[i] && puts[n].key != puts[i].key;
    }
  }

  /** A key that no put touches keeps the value it had before. */
  lemma {:induction false} PutAllKeepsOthers(m: map<string, string>, puts: seq<Put>, k: string)
    requires k in m && k !in Keys(puts)
    ensures k in PutAll(m, puts) && PutAll(m, puts)[k] == m[k]
    decreases |puts|
  {
    if puts != [] {
      var n := |puts| - 1;
      assert Keys(puts[..n]) <= Keys(puts) by {
        forall key | key in Keys(puts[..n]) ensures key in Keys(puts) {
          var i :| 0 <= i < n && puts[..n][i].key == key;
          assert puts[i].key == key;
        }
      }
      assert puts[n].key in Keys(puts);
      PutAllKeepsOthers(m, puts[..n], k);
    }
  }

  /** Puts with pairwise distinct keys, none already present, each add one
      entry. */
  lemma {:induction false} PutAllSize(m: map<string, string>, puts: seq<Put>)
    requires DistinctKeys(puts)
    requires forall i :: 0 <= i < |puts| ==> puts[i].key !in m
    ensures |PutAll(m, puts)| == |m| + |puts|
    decreases |puts|
  {
    if puts != [] {
      var n := |puts| - 1;
      var init := puts[..n];
      assert forall i :: 0 <= i < n ==> init[i] == puts[i];
      PutAllSize(m, init);
      var r := PutAll(m, init);
      assert puts[n].key !in r.Keys;
      assert PutAll(m, puts) == r[puts[n].key := puts[n].value];
    }
  }

  /** The payload after one document with root `root` is shredded into
      `payload`: the root's members are walked with an empty path. Only
      an object root has members, so any other root leaves the payload as
      it was. */
  function Shred(payload: map<string, string>, root: Node, nullText: string): (r: map<string, string>)
    ensures r.Keys == payload.Keys + Keys(FieldEntries(Members(root), [], nullText))
    ensures !root.Obj? ==> r == payload
  {
    PutAll(payload, FieldEntries(Members(root), [], nullText))
  }

  /** The puts made for member `name` with value `v` when the path stack holds
      `prefix`: one put keyed by getFQN for a scalar, the puts of the
      container's contents under `prefix + [name]` for an array or object.
      Every key starts with the member's getFQN; under an array or object
      it continues with '_', so a container stores nothing under its own
      name. */
  function MemberEntries(name: string, v: Node, prefix: seq<string>, nullText: string): (r: seq<Put>)
    ensures !IsContainer(v) ==> r == [Put(GetFQN(prefix, name), LeafText(v, nullText))]
    ensures forall i :: 0 <= i < |r| ==> GetFQN(prefix, name) <= r[i].key
    ensures IsContainer(v) ==> forall i :: 0 <= i < |r| ==>
      GetFQN(prefix, name) + [Separator] <= r[i].key && r[i].key != GetFQN(prefix, name)
    decreases v
  {
    match v
    case Arr(elems) => ArrayEntries(elems, prefix + [name], nullText)
    case Obj(fields) => FieldEntries(fields, prefix + [name], nullText)
    case _ => [Put(GetFQN(prefix, name), LeafText(v, nullText))]
  }

  /** The puts made for the members of an object, in iteration order; below
      a non-empty path every key starts with the path's join and '_'. */
  function FieldEntries(fields: seq<Field>, prefix: seq<string>, nullText: string): (r: seq<Put>)
    ensures |prefix| > 0 ==> forall i :: 0 <= i < |r| ==> Join(prefix) + [Separator] <= r[i].key
    decreases fields
  {
    if fields == [] then []
    else
      var last := fields[|fields| - 1];
      var a := FieldEntries(fields[..|fields| - 1], prefix, nullText);
      var b := MemberEntries(last.name, last.value, prefix, nullText);
      JoinExtends(prefix, last.name);
      a + b
  }

  /** The puts made for the elements of an array: element i contributes the
      puts of its own members under `prefix + [NatText(i)]`; an element that
      is not an object has no members and contributes nothing. Below a
      non-empty path every key starts with the path's join and '_'. */
  function ArrayEntries(elems: seq<Node>, prefix: seq<string>, nullText: string): (r: seq<Put>)
    ensures |prefix| > 0 ==> forall i :: 0 <= i < |r| ==> Join(prefix) + [Separator] <= r[i].key
    decreases elems
  {
    if elems == [] then []
    else
      var i := |elems| - 1;
      var a := ArrayEntries(elems[..i], prefix, nullText);
      var b := match elems[i]
        case Obj(fields) => FieldEntries(fields, prefix + [NatText(i)], nullText)
        case _ => [];
      JoinExtends(prefix, NatText(i));
      a + b
  }

  /** One more member appends exactly that member's puts. */
  lemma FieldEntriesSnoc(fields: seq<Field>, f: Field, prefix: seq<string>, nullText: string)
    ensures FieldEntries(fields + [f], prefix, nullText)
         == FieldEntries(fields, prefix, nullText) + MemberEntries(f.name, f.value, prefix, nullText)
  {
    assert (fields + [f])[..|fields|] == fields;
  }

  /** One more element appends the puts of its own members under the path
      extended by the element's index text. */
  lemma ArrayEntriesSnoc(elems: seq<Node>, e: Node, prefix: seq<string>, nullText: string)
    ensures ArrayEntries(elems + [e], prefix, nullText)
         == ArrayEntries(elems, prefix, nullText) + FieldEntries(Members(e), prefix + [NatText(|elems|)], nullText)
  {
    assert (elems + [e])[..|elems|] == elems;
  }
}
