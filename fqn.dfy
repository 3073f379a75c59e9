/** Fully-qualified names: the key under which a leaf is stored is the
    traversal path joined with '_', followed by '_' and the field name. */
module Fqn {

  const Separator: char := '_'

  /** The total length of the segments. */
  function SegmentsLength(segs: seq<string>): nat
  {
    if |segs| == 0 then 0 else |segs[0]| + SegmentsLength(segs[1..])
  }

  /** String.join("_", segs): the segments in order with one '_' between
      each two neighbours, and nothing else. */
  function Join(segs: seq<string>): (s: string)
    ensures |segs| == 1 ==> s == segs[0]
    ensures |segs| > 0 ==> |s| == SegmentsLength(segs) + |segs| - 1
    ensures |segs| > 0 ==> s[..|segs[0]|] == segs[0]
  {
    if |segs| == 0 then ""
    else if |segs| == 1 then segs[0]
    else segs[0] + [Separator] + Join(segs[1..])
  }

  /** getFQN: the field name alone at the top level, otherwise the path
      segments joined with '_', then '_', then the field name. */
  function GetFQN(fqnPath: seq<string>, fieldName: string): (fqn: string)
    ensures |fqnPath| == 0 ==> fqn == fieldName
    ensures fqn == Join(fqnPath + [fieldName])
  {
    if |fqnPath| > 0 then
      JoinSnoc(fqnPath, fieldName);
      Join(fqnPath) + [Separator] + fieldName
    else
      assert fqnPath + [fieldName] == [fieldName];
      fieldName
  }

  /** Appending a segment to a non-empty path appends '_' and the segment. */
  lemma {:induction false} JoinSnoc(segs: seq<string>, last: string)
    requires |segs| > 0
    ensures Join(segs + [last]) == Join(segs) + [Separator] + last
    decreases |segs|
  {
    if |segs| > 1 {
      assert (segs + [last])[1..] == segs[1..] + [last];
      JoinSnoc(segs[1..], last);
    }
  }

  /** Extending a non-empty path by one segment extends its join by '_' and
      more. */
  lemma JoinExtends(segs: seq<string>, last: string)
    ensures |segs| > 0 ==> Join(segs) + [Separator] <= Join(segs + [last])
  {
    if |segs| > 0 {
      JoinSnoc(segs, last);
    }
  }

  predicate NoSeparator(s: string) {
    Separator !in s
  }

  predicate AllNoSeparator(segs: seq<string>) {
    forall i :: 0 <= i < |segs| ==> NoSeparator(segs[i])
  }

  /** The first '_' of a joined path of two or more segments ends the first
      segment. */
  lemma JoinHead(segs: seq<string>)
    requires |segs| > 1 && NoSeparator(segs[0])
    ensures |segs[0]| < |Join(segs)| && Join(segs)[|segs[0]|] == Separator
    ensures Join(segs)[..|segs[0]|] == segs[0]
    ensures Join(segs)[|segs[0]| + 1..] == Join(segs[1..])
  {
  }

  /** When no segment contains '_', distinct non-empty paths render to
      distinct names. */
  lemma {:induction false} JoinInjective(a: seq<string>, b: seq<string>)
    requires |a| > 0 && |b| > 0
    requires AllNoSeparator(a) && AllNoSeparator(b)
    requires Join(a) == Join(b)
    ensures a == b
    decreases |a|
  {
    if |a| == 1 && |b| == 1 {
    } else if |a| == 1 {
      JoinHead(b);
      assert false;
    } else if |b| == 1 {
      JoinHead(a);
      assert false;
    } else {
      JoinHead(a);
      JoinHead(b);
      if |a[0]| != |b[0]| {
        assert false;
      }
      assert a[0] == b[0];
      assert AllNoSeparator(a[1..]) && AllNoSeparator(b[1..]);
      JoinInjective(a[1..], b[1..]);
      assert a == [a[0]] + a[1..];
      assert b == [b[0]] + b[1..];
    }
  }

  /** Without the separator restriction names collide: a top-level field
      "x_y" and a field "y" nested in "x" both render as "x_y". */
  lemma SeparatorCollision()
    ensures GetFQN([], "x_y") == GetFQN(["x"], "y") == "x_y"
  {
  }
}
