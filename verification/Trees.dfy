/** Configuration trees as parsed from YAML or JSON, and reading them by path. */
module Trees {
  import opened Options
  import opened Text

  /** A value that is not a mapping: null, another scalar, or a list (which the engine never looks into). */
  datatype Value = Null | Scalar(text: string) | List(id: nat)

  datatype Tree = Leaf(value: Value) | Node(children: map<string, Tree>)

  type Path = seq<string>

  /** The subtree at a path. */
  function At(t: Tree, p: Path): Option<Tree> {
    if p == [] then Some(t)
    else if t.Node? && p[0] in t.children then At(t.children[p[0]], p[1..])
    else None
  }

  /** What is visible at one path: nothing, a mapping, or a value. */
  datatype Shape = Absent | Mapping | Plain(value: Value)

  function ShapeAt(t: Tree, p: Path): Shape {
    match At(t, p)
    case None => Absent
    case Some(Leaf(v)) => Plain(v)
    case Some(Node(_)) => Mapping
  }

  lemma ShapeBelow(t: Tree, k: string, p: Path)
    ensures ShapeAt(t, [k] + p) == if t.Node? && k in t.children then ShapeAt(t.children[k], p) else Absent
  {
    assert ([k] + p)[1..] == p;
  }

  /** A tree is determined by what is visible at each path. */
  lemma {:induction false} SameShapesSameTree(t: Tree, u: Tree)
    requires forall p :: ShapeAt(t, p) == ShapeAt(u, p)
    ensures t == u
    decreases t
  {
    assert ShapeAt(t, []) == ShapeAt(u, []);
    if t.Node? {
      forall k ensures (k in t.children <==> k in u.children) && (k in t.children ==> t.children[k] == u.children[k]) {
        assert ShapeAt(t, [k]) == ShapeAt(u, [k]);
        ShapeBelow(t, k, []);
        ShapeBelow(u, k, []);
        if k in t.children {
          forall p ensures ShapeAt(t.children[k], p) == ShapeAt(u.children[k], p) {
            ShapeBelow(t, k, p);
            ShapeBelow(u, k, p);
            assert ShapeAt(t, [k] + p) == ShapeAt(u, [k] + p);
          }
          SameShapesSameTree(t.children[k], u.children[k]);
        }
      }
      assert t.children == u.children;
    }
  }

  /** getNested: the walk along a dotted key. */
  method GetNested(root: Tree, dottedKey: string) returns (found: Option<Tree>)
    ensures found == At(root, Split(dottedKey, '.'))
  {
    var parts := Split(dottedKey, '.');
    var cur := root;
    for i := 0 to |parts|
      invariant At(root, parts) == At(cur, parts[i..])
    {
      if !cur.Node? || parts[i] !in cur.children {
        return None;
      }
      assert parts[i..][1..] == parts[i + 1..];
      cur := cur.children[parts[i]];
    }
    found := Some(cur);
  }
}
