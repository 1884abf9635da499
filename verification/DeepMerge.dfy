/** Deep merge of an override tree into a configuration tree. */
module DeepMerge {
  import opened Options
  import opened Trees

  predicate PlaceholderStart(c: char) {
    c == '_' || c == '-' || 'a' <= c <= 'z' || 'A' <= c <= 'Z'
  }

  predicate PlaceholderName(name: string) {
    && name != "" && PlaceholderStart(name[0])
    && forall i :: 0 <= i < |name| ==> PlaceholderStart(name[i]) || '0' <= name[i] <= '9'
  }

  /** The one-key mapping that YAML makes of an unquoted {name}. */
  predicate IsPlaceholder(m: map<string, Tree>) {
    |m| == 1 && forall k :: k in m ==> PlaceholderName(k) && m[k] == Leaf(Null)
  }

  /** The value at one key: maps merge, a value replaces a value or a placeholder, anything else is a mismatch. */
  function Merge(d: Tree, s: Tree): Option<Tree>
    decreases s
  {
    if d.Leaf? then (if s.Leaf? then Some(s) else None)
    else if s.Leaf? then (if IsPlaceholder(d.children) then Some(s) else None)
    else if forall k :: k in s.children && k in d.children ==> Merge(d.children[k], s.children[k]).Some? then
      Some(Node(map k | k in d.children.Keys + s.children.Keys :: MergedChild(d, s, k)))
    else None
  }

  function MergedChild(d: Tree, s: Tree, k: string): Tree
    requires d.Node? && s.Node? && (k in d.children || k in s.children)
    requires k in d.children && k in s.children ==> Merge(d.children[k], s.children[k]).Some?
    decreases s, 0
  {
    if k !in s.children then d.children[k]
    else if k !in d.children then s.children[k]
    else Merge(d.children[k], s.children[k]).value
  }

  /** A value takes the place of a mapping exactly if that is one name without a value, as in {name}; the name is
      made of letters, digits, '_' and '-' and does not start with a digit. */
  lemma ValueReplacesMapping(m: map<string, Tree>, v: Value)
    ensures Merge(Node(m), Leaf(v)).Some? <==>
      exists name :: m == map[name := Leaf(Null)] && name != "" && !('0' <= name[0] <= '9')
        && forall i :: 0 <= i < |name| ==>
             'a' <= name[i] <= 'z' || 'A' <= name[i] <= 'Z' || '0' <= name[i] <= '9' || name[i] == '_' || name[i] == '-'
  {
    if IsPlaceholder(m) {
      var name :| name in m;
      assert m.Keys == {name} by {
        assert {name} <= m.Keys && |m.Keys - {name}| == 0;
      }
      assert m == map[name := Leaf(Null)];
    }
  }

  /** DeepMergeInPlace, visiting the override's keys in any order: success and result never depend on that order. */
  method DeepMergeInPlace(dst: Tree, src: Tree) returns (out: Option<Tree>)
    requires dst.Node? && src.Node?
    ensures out == Merge(dst, src)
    decreases src
  {
    var m := dst.children;
    var todo := src.children.Keys;
    while todo != {}
      invariant todo <= src.children.Keys && m.Keys == dst.children.Keys + (src.children.Keys - todo)
      invariant forall k :: k in src.children && k !in todo && k in dst.children ==>
        Merge(dst.children[k], src.children[k]).Some?
      invariant forall k :: k in m && k !in todo ==> m[k] == MergedChild(dst, src, k)
      invariant forall k :: k in m && k in todo ==> k in dst.children && m[k] == dst.children[k]
      decreases todo
    {
      var k :| k in todo;
      var sv := src.children[k];
      if k !in m {
        m := m[k := sv];
      } else {
        var dv := m[k];
        if sv.Node? && dv.Node? {
          var sub := DeepMergeInPlace(dv, sv);
          if sub.None? {
            return None;
          }
          m := m[k := sub.value];
        } else if dv.Node? && !sv.Node? && IsPlaceholder(dv.children) {
          m := m[k := sv];
        } else if sv.Node? != dv.Node? {
          assert Merge(dst.children[k], src.children[k]).None?;
          return None;
        } else {
          m := m[k := sv];
        }
      }
      todo := todo - {k};
    }
    assert m == map k | k in dst.children.Keys + src.children.Keys :: MergedChild(dst, src, k);
    out := Some(Node(m));
  }

  /******* The lookup law *******/

  /** Some proper prefix of the path is a value of the tree, so nothing can be below it. */
  predicate ValueAbove(s: Tree, p: Path) {
    p != [] && (s.Leaf? || (p[0] in s.children && ValueAbove(s.children[p[0]], p[1..])))
  }

  /** What must be visible at a path after a merge: the override where it says something, nothing below one of its
      values, and the base everywhere else. */
  function Overlaid(d: Tree, s: Tree, p: Path): Shape {
    if ShapeAt(s, p) != Absent then ShapeAt(s, p)
    else if ValueAbove(s, p) then Absent
    else ShapeAt(d, p)
  }

  lemma {:induction false} LookupLaw(d: Tree, s: Tree, p: Path)
    requires Merge(d, s).Some?
    ensures ShapeAt(Merge(d, s).value, p) == Overlaid(d, s, p)
    decreases |p|
  {
    if p != [] && s.Node? {
      var k := p[0];
      if k in s.children && k in d.children {
        LookupLaw(d.children[k], s.children[k], p[1..]);
      } else {
        LookupLawOneSided(d, s, p);
      }
    }
  }

  /** Below a key that only one side has, a merge shows that side. */
  lemma {:induction false} LookupLawOneSided(d: Tree, s: Tree, p: Path)
    requires Merge(d, s).Some? && s.Node? && p != []
    requires p[0] !in s.children || p[0] !in d.children
    ensures ShapeAt(Merge(d, s).value, p) == Overlaid(d, s, p)
  {
    var k := p[0];
    if k in s.children && ValueAbove(s.children[k], p[1..]) {
      NothingBelowValue(s.children[k], p[1..]);
    }
  }

  lemma {:induction false} NothingBelowValue(s: Tree, p: Path)
    requires ValueAbove(s, p)
    ensures ShapeAt(s, p) == Absent
    decreases |p|
  {
    if s.Node? {
      NothingBelowValue(s.children[p[0]], p[1..]);
    }
  }

  /******* When a merge fails *******/

  /** A mapping against a value at the same path, other than a value over a placeholder. */
  predicate MismatchAt(d: Tree, s: Tree, p: Path) {
    var dv, sv := At(d, p), At(s, p);
    && dv.Some? && sv.Some? && dv.value.Node? != sv.value.Node?
    && !(dv.value.Node? && IsPlaceholder(dv.value.children))
  }

  lemma {:induction false} FailsAtMismatch(d: Tree, s: Tree, p: Path)
    requires MismatchAt(d, s, p)
    ensures Merge(d, s).None?
    decreases |p|
  {
    if p != [] {
      FailsAtMismatch(d.children[p[0]], s.children[p[0]], p[1..]);
    }
  }

  lemma {:induction false} FailureHasMismatch(d: Tree, s: Tree) returns (p: Path)
    requires Merge(d, s).None?
    ensures MismatchAt(d, s, p)
    decreases s
  {
    if d.Node? && s.Node? {
      var k :| k in s.children && k in d.children && Merge(d.children[k], s.children[k]).None?;
      var q := FailureHasMismatch(d.children[k], s.children[k]);
      p := [k] + q;
      assert p[1..] == q;
    } else {
      p := [];
    }
  }

  /** A merge fails exactly when some path is a mapping on one side and a value on the other. */
  lemma FailsExactlyOnMismatch(d: Tree, s: Tree)
    ensures Merge(d, s).None? <==> exists p :: MismatchAt(d, s, p)
  {
    if Merge(d, s).None? {
      var p := FailureHasMismatch(d, s);
      assert MismatchAt(d, s, p);
    } else {
      forall p ensures !MismatchAt(d, s, p) {
        if MismatchAt(d, s, p) {
          FailsAtMismatch(d, s, p);
        }
      }
    }
  }

  /******* Algebra *******/

  /** Applying the same override twice is applying it once. */
  lemma {:induction false} MergeTwice(d: Tree, s: Tree)
    requires Merge(d, s).Some?
    ensures Merge(Merge(d, s).value, s) == Merge(d, s)
    decreases s
  {
    var r := Merge(d, s).value;
    if s.Node? {
      forall k | k in s.children ensures Merge(r.children[k], s.children[k]) == Some(r.children[k]) {
        if k in d.children {
          MergeTwice(d.children[k], s.children[k]);
        } else {
          MergeSelf(s.children[k]);
        }
      }
      assert Merge(r, s).value.children == r.children;
    }
  }

  lemma {:induction false} MergeSelf(s: Tree)
    ensures Merge(s, s) == Some(s)
    decreases s
  {
    if s.Node? {
      forall k | k in s.children ensures Merge(s.children[k], s.children[k]) == Some(s.children[k]) {
        MergeSelf(s.children[k]);
      }
      assert Merge(s, s).value.children == s.children;
    }
  }

  /** Whenever both groupings of three trees succeed, they give the same tree. */
  lemma {:induction false} MergeAssociative(d: Tree, s: Tree, t: Tree)
    requires Merge(d, s).Some? && Merge(Merge(d, s).value, t).Some?
    requires Merge(s, t).Some? && Merge(d, Merge(s, t).value).Some?
    ensures Merge(Merge(d, s).value, t) == Merge(d, Merge(s, t).value)
    decreases t
  {
    if t.Node? {
      var ds, st := Merge(d, s).value, Merge(s, t).value;
      var l, r := Merge(ds, t).value, Merge(d, st).value;
      forall k | k in l.children ensures k in r.children && l.children[k] == r.children[k] {
        if k in d.children && k in s.children && k in t.children {
          MergeAssociative(d.children[k], s.children[k], t.children[k]);
        }
      }
      assert l.children.Keys == r.children.Keys;
      assert l.children == r.children;
    }
  }
}
