/** The processor's walk: the root-field loop of onTrigger, handleArray and
    handleObject, sharing one mutable path list and inserting into the
    instance's flattened payload map. */
module Shredding {
  import opened JsonTree
  import opened Decimal
  import opened Fqn
  import opened Flatten

  /** One turn of a member loop performs the next member's puts. */
  lemma MemberLoopStep(m: map<string, string>, fields: seq<Field>, k: nat, prefix: seq<string>, nullText: string)
    requires k < |fields|
    ensures PutAll(m, FieldEntries(fields[..k + 1], prefix, nullText))
         == PutAll(PutAll(m, FieldEntries(fields[..k], prefix, nullText)),
                   MemberEntries(fields[k].name, fields[k].value, prefix, nullText))
  {
    assert fields[..k + 1] == fields[..k] + [fields[k]];
    FieldEntriesSnoc(fields[..k], fields[k], prefix, nullText);
    PutAllAppend(m, FieldEntries(fields[..k], prefix, nullText),
                 MemberEntries(fields[k].name, fields[k].value, prefix, nullText));
  }

  /** One turn of handleArray's loop performs element i's puts. */
  lemma ElementLoopStep(m: map<string, string>, elems: seq<Node>, i: nat, prefix: seq<string>, nullText: string)
    requires i < |elems|
    ensures PutAll(m, ArrayEntries(elems[..i + 1], prefix, nullText))
         == PutAll(PutAll(m, ArrayEntries(elems[..i], prefix, nullText)),
                   FieldEntries(Members(elems[i]), prefix + [NatText(i)], nullText))
  {
    assert elems[..i + 1] == elems[..i] + [elems[i]];
    ArrayEntriesSnoc(elems[..i], elems[i], prefix, nullText);
    PutAllAppend(m, ArrayEntries(elems[..i], prefix, nullText),
                 FieldEntries(Members(elems[i]), prefix + [NatText(i)], nullText));
  }

  class Shredder {
    /** The flattened payload: an instance field, never cleared, so entries
        from earlier documents stay in it. */
    var flattened: map<string, string>
    /** The fully-qualified-name path list shared by the whole walk. */
    var path: seq<string>
    /** The text the parser library gives a null node. */
    const nullText: string

    constructor (nullText: string)
      ensures flattened == map[] && path == [] && this.nullText == nullText
    {
      flattened := map[];
      path := [];
      this.nullText := nullText;
    }

    /** The root loop: a fresh empty path, then every member of the root in
        iteration order. */
    method OnTrigger(root: Node)
      modifies this
      ensures path == []
      ensures flattened == Shred(old(flattened), root, nullText)
    {
      path := [];
      VisitMembers(Members(root));
    }

    /** The member loop the root, each array element and each object run:
        every member in iteration order, with the path as it was on entry. */
    method VisitMembers(fields: seq<Field>)
      modifies this
      ensures path == old(path)
      ensures flattened == PutAll(old(flattened), FieldEntries(fields, old(path), nullText))
      decreases fields, 2
    {
      var k := 0;
      while k < |fields|
        invariant 0 <= k <= |fields|
        invariant path == old(path)
        invariant flattened == PutAll(old(flattened), FieldEntries(fields[..k], path, nullText))
      {
        Visit(fields[k].name, fields[k].value);
        MemberLoopStep(old(flattened), fields, k, path, nullText);
        k := k + 1;
      }
      assert fields[..k] == fields;
    }

    /** The body shared by the three member loops: push the name and descend
        into an array or object, or put the scalar's text under getFQN. */
    method Visit(name: string, value: Node)
      modifies this
      ensures path == old(path)
      ensures flattened == PutAll(old(flattened), MemberEntries(name, value, old(path), nullText))
      decreases value, 1
    {
      match value
      case Arr(_) =>
        path := path + [name];
        HandleArray(value);
      case Obj(_) =>
        path := path + [name];
        HandleObject(value);
      case _ =>
        flattened := flattened[GetFQN(path, name) := LeafText(value, nullText)];
        assert [Put(GetFQN(path, name), LeafText(value, nullText))][..0] == [];
    }

    /** handleArray: element i is walked with the index text pushed, through
        its own members only; the index is popped after each element and the
        array's own name (pushed by the caller) at the end. */
    method HandleArray(json: Node)
      requires json.Arr? && |path| > 0
      modifies this
      ensures path == old(path)[..|old(path)| - 1]
      ensures flattened == PutAll(old(flattened), ArrayEntries(json.elems, old(path), nullText))
      decreases json, 0
    {
      var elems := json.elems;
      var i := 0;
      while i < |elems|
        invariant 0 <= i <= |elems|
        invariant path == old(path)
        invariant flattened == PutAll(old(flattened), ArrayEntries(elems[..i], old(path), nullText))
      {
        path := path + [NatText(i)];
        var elem := elems[i];
        var fields := Members(elem);
        VisitMembers(fields);
        path := path[..|path| - 1];
        ElementLoopStep(old(flattened), elems, i, old(path), nullText);
        i := i + 1;
      }
      assert elems[..i] == elems;
      path := path[..|path| - 1];
    }

    /** handleObject: every member in iteration order, then the object's own
        name (pushed by the caller) is popped. */
    method HandleObject(json: Node)
      requires json.Obj? && |path| > 0
      modifies this
      ensures path == old(path)[..|old(path)| - 1]
      ensures flattened == PutAll(old(flattened), FieldEntries(json.fields, old(path), nullText))
      decreases json, 0
    {
      VisitMembers(json.fields);
      path := path[..|path| - 1];
    }
  }
}
