/** The parsed JSON tree the shredder walks (a Jackson JsonNode), restricted
    to the node kinds the walk distinguishes. */
module JsonTree {

  /** One object member: a field name and its value, in iteration order. */
  datatype Field = Field(name: string, value: Node)

  /** A parsed value. An object's members are a sequence, which may hold
      two members with the same name; a tree read by the parser never does,
      and the theorems that need unique names assume them (see
      Leaves.WellFormed). */
  datatype Node =
    | Obj(fields: seq<Field>)
    | Arr(elems: seq<Node>)
    | Num(n: int)
    | Bool(b: bool)
    | Str(s: string)
    | Null

  predicate IsContainer(v: Node) {
    v.Obj? || v.Arr?
  }

  /** getFields(): the members of an object, and an empty iteration for
      every other kind of node. */
  function Members(v: Node): seq<Field> {
    if v.Obj? then v.fields else []
  }
}
