/** Override files mix nested mappings with dotted keys; normalising turns them into one tree. */
module Overrides {
  import opened Options
  import opened Iteration
  import opened Text
  import opened Trees
  import opened DeepMerge

  type FileOverrides = map<string, Tree>

  /******* The operations *******/

  /** SetNestedMap on the segments of a dotted key: missing mappings are made, only a mapping over a
      mapping is refused. */
  function SetNested(root: Tree, p: Path, v: Tree): (r: Option<Tree>)
    requires root.Node? && p != []
    ensures r.Some? ==> r.value.Node?
    decreases |p|
  {
    var k := p[0];
    if |p| == 1 then
      if k in root.children && root.children[k].Node? && v.Node? then None
      else Some(Node(root.children[k := v]))
    else if k in root.children && root.children[k].Leaf? then None
    else
      var below := SetNested(if k in root.children then root.children[k] else Node(map[]), p[1..], v);
      if below.None? then None else Some(Node(root.children[k := below.value]))
  }

  function MergeSubtree(dst: Tree, key: string, src: Tree): (r: Option<Tree>)
    requires dst.Node? && src.Node?
    ensures r.Some? ==> r.value.Node?
  {
    if key !in dst.children then Some(Node(dst.children[key := src]))
    else if dst.children[key].Leaf? then None
    else
      var merged := Merge(dst.children[key], src);
      if merged.None? then None else Some(Node(dst.children[key := merged.value]))
  }

  /** One turn of the loop over the override's entries. */
  function AddEntry(out: Tree, k: string, v: Tree): (r: Option<Tree>)
    requires out.Node?
    ensures r.Some? ==> r.value.Node?
  {
    if '.' in k then
      if v.Node? then None else SetNested(out, Split(k, '.'), v)
    else if v.Node? then MergeSubtree(out, k, v)
    else if v.value.List? then None
    else Some(Node(out.children[k := v]))
  }

  /** The tree built by the first entries of an order. */
  function Built(o: FileOverrides, ks: seq<string>): (r: Option<Tree>)
    requires forall k :: k in ks ==> k in o
    ensures r.Some? ==> r.value.Node?
  {
    if ks == [] then Some(Node(map[]))
    else
      var n := |ks| - 1;
      var before := Built(o, ks[..n]);
      if before.None? then None else AddEntry(before.value, ks[n], o[ks[n]])
  }

  lemma {:induction false} BuiltFails(o: FileOverrides, ks: seq<string>, i: nat)
    requires forall k :: k in ks ==> k in o
    requires i <= |ks| && Built(o, ks[..i]).None?
    ensures Built(o, ks).None?
    decreases |ks|
  {
    if i < |ks| {
      assert ks[..|ks| - 1][..i] == ks[..i];
      BuiltFails(o, ks[..|ks| - 1], i);
    } else {
      assert ks[..i] == ks;
    }
  }

  /** normalizeStructured, with the iteration order of the Go map as a parameter. */
  method NormalizeStructured(o: FileOverrides, order: seq<string>) returns (out: Option<Tree>)
    requires IsOrder(o.Keys, order)
    ensures out == Built(o, order)
    ensures Coherent(o) ==> out.Some? && forall p :: Declares(o, p, ShapeAt(out.value, p))
  {
    var tree := Node(map[]);
    for i := 0 to |order|
      invariant Built(o, order[..i]) == Some(tree)
    {
      var added := AddEntry(tree, order[i], o[order[i]]);
      assert order[..i + 1][..i] == order[..i];
      if added.None? {
        BuiltFails(o, order, i + 1);
        if Coherent(o) {
          CoherentIsBuilt(o, order);
        }
        return None;
      }
      tree := added.value;
    }
    assert order[..|order|] == order;
    out := Some(tree);
    if Coherent(o) {
      CoherentIsBuilt(o, order);
      CoherentDeclares(o, order);
    }
  }

  /******* What an entry declares *******/

  function Nest(p: Path, v: Tree): Tree {
    if p == [] then v else Node(map[p[0] := Nest(p[1..], v)])
  }

  lemma NestOne(k: string, v: Tree)
    ensures Nest([k], v) == Node(map[k := v])
  {
    assert [k][1..] == [];
  }

  /** The tree that an entry alone stands for. */
  function EntryTree(k: string, v: Tree): Tree {
    Nest(Split(k, '.'), v)
  }

  /** An undotted key stands for itself; a dotted one nests what follows its first dot under what precedes it. */
  lemma DotsNest(a: string, rest: string, v: Tree)
    requires '.' !in a
    ensures EntryTree(a, v) == Node(map[a := v])
    ensures EntryTree(a + "." + rest, v) == Node(map[a := EntryTree(rest, v)])
  {
    SplitWhole(a, '.');
    NestOne(a, v);
    SplitFirst(a, rest, '.');
    assert ([a] + Split(rest, '.'))[1..] == Split(rest, '.');
  }

  /** No mapping under a dotted key, no list directly under an undotted one. */
  predicate WellFormed(k: string, v: Tree) {
    if '.' in k then v.Leaf? else v.Node? || !v.value.List?
  }

  predicate AgreeAt(t: Tree, u: Tree, p: Path) {
    ShapeAt(t, p) == Absent || ShapeAt(u, p) == Absent || ShapeAt(t, p) == ShapeAt(u, p)
  }

  /** Where two trees both say something, they say the same. */
  ghost predicate Agree(t: Tree, u: Tree) {
    forall p :: AgreeAt(t, u, p)
  }

  ghost predicate Coherent(o: FileOverrides) {
    && (forall k :: k in o ==> WellFormed(k, o[k]))
    && forall k, l :: k in o && l in o ==> Agree(EntryTree(k, o[k]), EntryTree(l, o[l]))
  }

  /** The shape is the one some entry declares at the path, or the path is undeclared and shows nothing. */
  ghost predicate Declares(o: FileOverrides, p: Path, shape: Shape) {
    if exists k :: k in o && ShapeAt(EntryTree(k, o[k]), p) != Absent then
      forall k :: k in o && ShapeAt(EntryTree(k, o[k]), p) != Absent ==> shape == ShapeAt(EntryTree(k, o[k]), p)
    else shape == if p == [] then Mapping else Absent
  }

  /******* One entry *******/

  /** An added entry is laid over the tree: its shapes win, nothing stays below its values, all else is kept. */
  lemma {:induction false} AddEntryOverlays(out: Tree, k: string, v: Tree, p: Path)
    requires out.Node? && AddEntry(out, k, v).Some?
    ensures ShapeAt(AddEntry(out, k, v).value, p) == Overlaid(out, EntryTree(k, v), p)
  {
    if '.' in k {
      SetNestedOverlays(out, Split(k, '.'), v, p);
    } else {
      SplitWhole(k, '.');
      UndottedOverlays(out, k, v, p);
    }
  }

  /** Replacing one child is an overlay when the new child is one. */
  lemma OneKeyOverlays(t: Tree, k: string, child: Tree, u: Tree, p: Path)
    requires t.Node?
    requires p != [] && p[0] == k && k in t.children ==> ShapeAt(child, p[1..]) == Overlaid(t.children[k], u, p[1..])
    requires p != [] && p[0] == k && k !in t.children ==> ShapeAt(child, p[1..]) == ShapeAt(u, p[1..])
    ensures ShapeAt(Node(t.children[k := child]), p) == Overlaid(t, Node(map[k := u]), p)
  {
    if p != [] && p[0] == k && ValueAbove(u, p[1..]) {
      NothingBelowValue(u, p[1..]);
    }
  }

  lemma LeafOverlays(t: Tree, v: Tree, p: Path)
    requires v.Leaf?
    ensures ShapeAt(v, p) == Overlaid(t, v, p)
  {
  }

  lemma {:induction false} SetNestedOverlays(root: Tree, q: Path, v: Tree, p: Path)
    requires root.Node? && q != [] && v.Leaf? && SetNested(root, q, v).Some?
    ensures ShapeAt(SetNested(root, q, v).value, p) == Overlaid(root, Nest(q, v), p)
    decreases |q|
  {
    var k := q[0];
    if p == [] || p[0] != k {
    } else if |q| == 1 {
      NestOne(k, v);
      assert q == [k];
      if k in root.children {
        LeafOverlays(root.children[k], v, p[1..]);
      }
    } else if k in root.children {
      SetNestedOverlays(root.children[k], q[1..], v, p[1..]);
    } else {
      SetNestedOverlays(Node(map[]), q[1..], v, p[1..]);
      NestedInEmpty(q[1..], v, p[1..]);
    }
    OneKeyOverlays(root, k, SetNested(root, q, v).value.children[k], Nest(q[1..], v), p);
  }

  lemma NestedInEmpty(q: Path, v: Tree, p: Path)
    requires q != []
    ensures Overlaid(Node(map[]), Nest(q, v), p) == ShapeAt(Nest(q, v), p)
  {
    assert ShapeAt(Nest(q, v), []) == Mapping;
  }

  lemma {:induction false} UndottedOverlays(out: Tree, k: string, v: Tree, p: Path)
    requires out.Node? && '.' !in k && AddEntry(out, k, v).Some?
    ensures ShapeAt(AddEntry(out, k, v).value, p) == Overlaid(out, Nest([k], v), p)
  {
    NestOne(k, v);
    if p != [] && p[0] == k && k in out.children {
      if v.Node? {
        LookupLaw(out.children[k], v, p[1..]);
      } else {
        LeafOverlays(out.children[k], v, p[1..]);
      }
    }
    OneKeyOverlays(out, k, AddEntry(out, k, v).value.children[k], v, p);
  }

  /** A well-formed entry that agrees with the tree is accepted. */
  lemma {:induction false} AgreeingEntryIsAdded(out: Tree, k: string, v: Tree)
    requires out.Node? && WellFormed(k, v) && Agree(out, EntryTree(k, v))
    ensures AddEntry(out, k, v).Some?
  {
    if '.' in k {
      AgreeingPathIsSet(out, Split(k, '.'), v);
    } else if v.Node? && k in out.children {
      SplitWhole(k, '.');
      NestOne(k, v);
      AgreeBelow(out, EntryTree(k, v), k);
      assert AgreeAt(out.children[k], v, []);
      AgreeingMerges(out.children[k], v);
    }
  }

  lemma AgreeingMerges(t: Tree, u: Tree)
    requires Agree(t, u)
    ensures Merge(t, u).Some?
  {
    assert forall p :: MismatchAt(t, u, p) ==> !AgreeAt(t, u, p);
    FailsExactlyOnMismatch(t, u);
  }

  lemma AgreeBelow(t: Tree, u: Tree, k: string)
    requires Agree(t, u) && t.Node? && u.Node? && k in t.children && k in u.children
    ensures Agree(t.children[k], u.children[k])
  {
    forall p ensures AgreeAt(t.children[k], u.children[k], p) {
      ShapeBelow(t, k, p);
      ShapeBelow(u, k, p);
      assert AgreeAt(t, u, [k] + p);
    }
  }

  lemma {:induction false} AgreeingPathIsSet(root: Tree, q: Path, v: Tree)
    requires root.Node? && q != [] && v.Leaf? && Agree(root, Nest(q, v))
    ensures SetNested(root, q, v).Some?
    decreases |q|
  {
    if |q| > 1 {
      var k := q[0];
      if k in root.children {
        AgreeBelow(root, Nest(q, v), k);
        assert AgreeAt(root.children[k], Nest(q[1..], v), []);
        AgreeingPathIsSet(root.children[k], q[1..], v);
      } else {
        forall p ensures AgreeAt(Node(map[]), Nest(q[1..], v), p) {
        }
        AgreeingPathIsSet(Node(map[]), q[1..], v);
      }
    }
  }

  /** Over a tree it agrees with, an overlay only adds. */
  lemma {:induction false} AgreeingOverlayAdds(t: Tree, u: Tree, p: Path)
    requires Agree(t, u)
    ensures Overlaid(t, u, p) == if ShapeAt(u, p) != Absent then ShapeAt(u, p) else ShapeAt(t, p)
    decreases |p|
  {
    if ValueAbove(u, p) {
      assert AgreeAt(t, u, []);
      if u.Node? && t.Node? && p[0] in t.children {
        AgreeBelow(t, u, p[0]);
        AgreeingOverlayAdds(t.children[p[0]], u.children[p[0]], p[1..]);
      }
      NothingBelowValue(u, p);
    }
  }

  /******* All entries *******/

  /** What the entries ks declare at a path, the last one first. */
  function Union(o: FileOverrides, ks: seq<string>, p: Path): Shape
    requires forall k :: k in ks ==> k in o
  {
    if ks == [] then (if p == [] then Mapping else Absent)
    else
      var k := ks[|ks| - 1];
      if ShapeAt(EntryTree(k, o[k]), p) != Absent then ShapeAt(EntryTree(k, o[k]), p)
      else Union(o, ks[..|ks| - 1], p)
  }

  lemma {:induction false} UnionIsDeclared(o: FileOverrides, ks: seq<string>, p: Path)
    requires forall k :: k in ks ==> k in o
    ensures || (exists k :: k in ks && ShapeAt(EntryTree(k, o[k]), p) == Union(o, ks, p) != Absent)
            || (Union(o, ks, p) == (if p == [] then Mapping else Absent)
                && forall k :: k in ks ==> ShapeAt(EntryTree(k, o[k]), p) == Absent)
  {
    if ks != [] && ShapeAt(EntryTree(ks[|ks| - 1], o[ks[|ks| - 1]]), p) == Absent {
      UnionIsDeclared(o, ks[..|ks| - 1], p);
    }
  }

  lemma EntryTreeIsMapping(k: string, v: Tree)
    ensures ShapeAt(EntryTree(k, v), []) == Mapping
  {
  }

  /** The entries of a coherent override build, in any order, the union of what they declare. */
  lemma {:induction false} CoherentBuilds(o: FileOverrides, ks: seq<string>)
    requires Coherent(o) && forall k :: k in ks ==> k in o
    ensures Built(o, ks).Some? && forall p :: ShapeAt(Built(o, ks).value, p) == Union(o, ks, p)
  {
    if ks != [] {
      var n := |ks| - 1;
      var k := ks[n];
      CoherentBuilds(o, ks[..n]);
      var t, u := Built(o, ks[..n]).value, EntryTree(k, o[k]);
      forall p ensures AgreeAt(t, u, p) {
        UnionAgrees(o, ks[..n], k, p);
      }
      AgreeingEntryIsAdded(t, k, o[k]);
      forall p ensures ShapeAt(Built(o, ks).value, p) == Union(o, ks, p) {
        AddEntryOverlays(t, k, o[k], p);
        AgreeingOverlayAdds(t, u, p);
      }
    }
  }

  lemma UnionAgrees(o: FileOverrides, ks: seq<string>, k: string, p: Path)
    requires Coherent(o) && k in o && forall k :: k in ks ==> k in o
    ensures var s := ShapeAt(EntryTree(k, o[k]), p); s == Absent || Union(o, ks, p) == Absent || Union(o, ks, p) == s
  {
    UnionIsDeclared(o, ks, p);
    if l: string :| l in ks && ShapeAt(EntryTree(l, o[l]), p) == Union(o, ks, p) != Absent {
      assert AgreeAt(EntryTree(k, o[k]), EntryTree(l, o[l]), p);
    } else if p == [] {
      EntryTreeIsMapping(k, o[k]);
    }
  }

  lemma CoherentIsBuilt(o: FileOverrides, order: seq<string>)
    requires Coherent(o) && IsOrder(o.Keys, order)
    ensures Built(o, order).Some?
  {
    CoherentBuilds(o, order);
  }

  /** The tree of a coherent override shows what is declared, and nothing more. */
  lemma CoherentDeclares(o: FileOverrides, order: seq<string>)
    requires Coherent(o) && IsOrder(o.Keys, order) && Built(o, order).Some?
    ensures forall p :: Declares(o, p, ShapeAt(Built(o, order).value, p))
  {
    CoherentBuilds(o, order);
    forall p ensures Declares(o, p, ShapeAt(Built(o, order).value, p)) {
      UnionIsDeclared(o, order, p);
      forall k | k in o && ShapeAt(EntryTree(k, o[k]), p) != Absent
        ensures Union(o, order, p) == ShapeAt(EntryTree(k, o[k]), p)
      {
        UnionAgrees(o, order, k, p);
      }
    }
  }

  /******* Exactly when the order does not matter *******/

  lemma SameInEveryOrder(o: FileOverrides, a: seq<string>, b: seq<string>)
    requires Coherent(o) && IsOrder(o.Keys, a) && IsOrder(o.Keys, b)
    ensures Built(o, a) == Built(o, b) && Built(o, a).Some?
  {
    CoherentBuilds(o, a);
    CoherentBuilds(o, b);
    CoherentDeclares(o, a);
    CoherentDeclares(o, b);
    var t, u := Built(o, a).value, Built(o, b).value;
    forall p ensures ShapeAt(t, p) == ShapeAt(u, p) {
      assert Declares(o, p, ShapeAt(t, p)) && Declares(o, p, ShapeAt(u, p));
    }
    SameShapesSameTree(t, u);
  }

  /** The entry processed last is visible unchanged. */
  lemma LastEntryShows(o: FileOverrides, order: seq<string>, k: string)
    requires IsOrder(o.Keys, order) && order != [] && order[|order| - 1] == k && Built(o, order).Some?
    ensures WellFormed(k, o[k])
    ensures forall p :: ShapeAt(EntryTree(k, o[k]), p) != Absent ==>
      ShapeAt(Built(o, order).value, p) == ShapeAt(EntryTree(k, o[k]), p)
  {
    var t := Built(o, order[..|order| - 1]).value;
    forall p | ShapeAt(EntryTree(k, o[k]), p) != Absent
      ensures ShapeAt(Built(o, order).value, p) == ShapeAt(EntryTree(k, o[k]), p)
    {
      AddEntryOverlays(t, k, o[k], p);
    }
  }

  ghost predicate EveryOrderGives(o: FileOverrides, t: Tree) {
    forall order :: IsOrder(o.Keys, order) ==> Built(o, order) == Some(t)
  }

  /** Normalisation succeeds with one tree for all iteration orders exactly when the override is coherent. */
  lemma OrderFreeExactlyWhenCoherent(o: FileOverrides)
    ensures Coherent(o) <==> exists t :: EveryOrderGives(o, t)
  {
    if Coherent(o) {
      var a := SomeOrder(o.Keys);
      CoherentBuilds(o, a);
      var t := Built(o, a).value;
      forall order | IsOrder(o.Keys, order) ensures Built(o, order) == Some(t) {
        SameInEveryOrder(o, order, a);
      }
      assert EveryOrderGives(o, t);
    }
    if t :| EveryOrderGives(o, t) {
      OrderFreeIsCoherent(o, t);
    }
  }

  lemma OrderFreeIsCoherent(o: FileOverrides, t: Tree)
    requires EveryOrderGives(o, t)
    ensures Coherent(o)
  {
    forall k | k in o
      ensures WellFormed(k, o[k])
      ensures forall p :: ShapeAt(EntryTree(k, o[k]), p) != Absent ==> ShapeAt(t, p) == ShapeAt(EntryTree(k, o[k]), p)
    {
      var order := OrderEndingWith(o.Keys, k);
      LastEntryShows(o, order, k);
    }
    forall k, l, p | k in o && l in o ensures AgreeAt(EntryTree(k, o[k]), EntryTree(l, o[l]), p) {
    }
  }

  /******* Disjoint paths *******/

  /** The flattened paths of a tree: its values, and its empty mappings. */
  predicate EndsAt(t: Tree, p: Path) {
    At(t, p).Some? && (At(t, p).value.Leaf? || At(t, p).value.children == map[])
  }

  /** No flattened value path of one entry is equal to, or a prefix of, a flattened path of another. */
  ghost predicate Disjoint(t: Tree, u: Tree) {
    forall p, q :: ShapeAt(t, p).Plain? && EndsAt(u, q) ==> !(p <= q)
  }

  lemma {:induction false} SomeEndBelow(u: Tree, p: Path) returns (q: Path)
    requires ShapeAt(u, p) != Absent
    ensures p <= q && EndsAt(u, q)
    decreases |p|, u
  {
    if p != [] {
      var below := SomeEndBelow(u.children[p[0]], p[1..]);
      q := [p[0]] + below;
      assert q[1..] == below;
    } else if u.Node? && u.children != map[] {
      var k :| k in u.children;
      var below := SomeEndBelow(u.children[k], []);
      q := [k] + below;
      assert q[1..] == below;
    } else {
      q := [];
    }
  }

  /** The usual condition on override files: well-formed entries with disjoint flattened paths are coherent. */
  lemma DisjointIsCoherent(o: FileOverrides)
    requires forall k :: k in o ==> WellFormed(k, o[k])
    requires forall k, l :: k in o && l in o && k != l ==> Disjoint(EntryTree(k, o[k]), EntryTree(l, o[l]))
    ensures Coherent(o)
  {
    forall k, l, p | k in o && l in o ensures AgreeAt(EntryTree(k, o[k]), EntryTree(l, o[l]), p) {
      if !AgreeAt(EntryTree(k, o[k]), EntryTree(l, o[l]), p) {
        if ShapeAt(EntryTree(k, o[k]), p).Plain? {
          var q := SomeEndBelow(EntryTree(l, o[l]), p);
        } else {
          var q := SomeEndBelow(EntryTree(k, o[k]), p);
        }
      }
    }
  }

  /** Values alone do not decide it: with an empty mapping at the path of a dotted value one order succeeds, the other
      fails. */
  lemma EmptyMappingDependsOnOrder(v: Value)
    ensures var o := map["a" := Node(map["b" := Node(map[])]), "a.b" := Leaf(v)];
      Built(o, ["a", "a.b"]).Some? && Built(o, ["a.b", "a"]).None?
  {
    var o := map["a" := Node(map["b" := Node(map[])]), "a.b" := Leaf(v)];
    SplitWhole("b", '.');
    SplitFirst("a", "b", '.');
    assert "a" + ['.'] + "b" == "a.b";
    assert Split("a.b", '.') == ["a", "b"];
    assert ["a", "b"][1..] == ["b"];
    var nested := Node(map["a" := Node(map["b" := Node(map[])])]);
    var dotted := Node(map["a" := Node(map["b" := Leaf(v)])]);
    BuiltTwo(o, "a", "a.b");
    BuiltTwo(o, "a.b", "a");
    assert AddEntry(Node(map[]), "a", o["a"]) == Some(nested);
    assert SetNested(Node(map[]), ["b"], Leaf(v)) == Some(Node(map["b" := Leaf(v)]));
    assert AddEntry(Node(map[]), "a.b", o["a.b"]) == Some(dotted);
    assert Merge(dotted.children["a"], o["a"]).None? by {
      assert Merge(Leaf(v), Node(map[])).None?;
      assert "b" in o["a"].children && "b" in dotted.children["a"].children;
    }
    assert SetNested(nested.children["a"], ["b"], Leaf(v)).Some?;
  }

  lemma BuiltTwo(o: FileOverrides, k: string, l: string)
    requires k in o && l in o
    ensures Built(o, [k, l]) ==
      var first := AddEntry(Node(map[]), k, o[k]);
      if first.None? then None else AddEntry(first.value, l, o[l])
  {
    assert [k, l][..1] == [k] && [k][..0] == [];
    assert Built(o, [k]) == AddEntry(Node(map[]), k, o[k]);
  }
}
