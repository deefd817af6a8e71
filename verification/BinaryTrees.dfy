/** The binary tree of global/tree.cpp: nodes linked in place, refining a map from names to data. */
module BinaryTrees {
  import opened Common
  import opened SearchTrees

  /** `strcmp` or `strcasecmp`: the latter compares with capital letters made small. */
  function Fold(caseSensitive: bool, name: string): string {
    if caseSensitive then name else seq(|name|, i requires 0 <= i < |name| => Small(name[i]))
  }

  function Small(c: char): char {
    if 'A' <= c <= 'Z' then (c as int + 32) as char else c
  }

  /** Two names are the same without regard to case exactly if they differ in nothing but capital letters. */
  lemma SameFold(a: string, b: string)
    ensures Fold(true, a) == a
    ensures Fold(false, a) == Fold(false, b)
       <==> |a| == |b| && forall i :: 0 <= i < |a| ==>
              a[i] == b[i] || ('A' <= a[i] <= 'Z' && b[i] as int == a[i] as int + 32)
              || ('A' <= b[i] <= 'Z' && a[i] as int == b[i] as int + 32)
  {
    var x, y := Fold(false, a), Fold(false, b);
    assert |x| == |a| && forall i :: 0 <= i < |a| ==> x[i] == Small(a[i]);
    assert |y| == |b| && forall i :: 0 <= i < |b| ==> y[i] == Small(b[i]);
    if |a| == |b| {
      forall i | 0 <= i < |a|
        ensures x[i] == y[i] <==>
                a[i] == b[i] || ('A' <= a[i] <= 'Z' && b[i] as int == a[i] as int + 32)
                || ('A' <= b[i] <= 'Z' && a[i] as int == b[i] as int + 32)
      {
      }
    }
  }

  class TreeNode<D> {
    const name: string
    var data: D
    var left: TreeNode?<D>
    var right: TreeNode?<D>

    constructor (name: string, data: D)
      ensures this.name == name && this.data == data && left == null && right == null
    {
      this.name, this.data, left, right := name, data, null, null;
    }
  }

  function Opt<D>(n: TreeNode?<D>): Maybe<TreeNode<D>> {
    if n == null then Nothing else Just(n)
  }

  /** Every key is the name of its node, folded. */
  ghost predicate Named<D>(t: Tree<TreeNode<D>>, caseSensitive: bool) {
    match t
    case Leaf => true
    case Node(l, k, h, r) => k == Fold(caseSensitive, h.name) && Named(l, caseSensitive) && Named(r, caseSensitive)
  }

  lemma {:induction false} InsertNamed<D>(t: Tree<TreeNode<D>>, k: string, n: TreeNode<D>, c: bool)
    requires Named(t, c) && k == Fold(c, n.name)
    ensures Named(Insert(t, k, n), c)
  {
    if t.Node? {
      InsertNamed(t.left, k, n, c);
      InsertNamed(t.right, k, n, c);
    }
  }

  lemma {:induction false} LeastNamed<D>(t: Tree<TreeNode<D>>, c: bool)
    requires t.Node? && Named(t, c)
    ensures Named(WithoutLeast(t), c) && Least(t).key == Fold(c, Least(t).here.name)
  {
    if t.left.Node? {
      LeastNamed(t.left, c);
    }
  }

  lemma {:induction false} DeleteNamed<D>(t: Tree<TreeNode<D>>, k: string, c: bool)
    requires Named(t, c)
    ensures Named(Delete(t, k), c)
  {
    if t.Node? {
      DeleteNamed(t.left, k, c);
      DeleteNamed(t.right, k, c);
      if t.right.Node? {
        LeastNamed(t.right, c);
      }
    }
  }

  class BinaryTree<D> {
    var root: TreeNode?<D>
    var size: int
    const caseSensitive: bool
    ghost var shape: Tree<TreeNode<D>>

    constructor (caseSensitive: bool)
      ensures Valid() && Contents() == map[] && All() == {} && size == 0 && this.caseSensitive == caseSensitive
    {
      root, size, shape := null, 0, Leaf;
      this.caseSensitive := caseSensitive;
    }

    ghost function All(): set<TreeNode<D>>
      reads this`shape
    {
      Nodes(shape)
    }

    ghost function Snapshot(ns: set<TreeNode<D>>): map<TreeNode<D>, Links<TreeNode<D>>>
      reads ns`left, ns`right
    {
      map n | n in ns :: Links(Opt(n.left), Opt(n.right))
    }

    ghost predicate Valid()
      reads this, All()`left, All()`right
    {
      && Linked(shape, Snapshot(All()), Opt(root))
      && Sorted(shape) && Proper(shape) && Named(shape, caseSensitive)
      && size == Count(shape)
    }

    /** The map that the tree is. */
    ghost function Contents(): map<string, D>
      reads this`shape, All()`data
    {
      SearchTrees.Contents(shape, Data(All()))
    }

    ghost function Data(ns: set<TreeNode<D>>): map<TreeNode<D>, D>
      reads ns`data
    {
      map n | n in ns :: n.data
    }

    method Find(name: string) returns (found: TreeNode?<D>)
      requires Valid()
      ensures found != null <==> Fold(caseSensitive, name) in Contents()
      ensures found != null ==> found in All() && found.data == Contents()[Fold(caseSensitive, name)]
      ensures found != null ==> Fold(caseSensitive, found.name) == Fold(caseSensitive, name)
    {
      ghost var k, m, t := Fold(caseSensitive, name), Snapshot(All()), shape;
      AtIsIn(shape, k);
      var node := root;
      while node != null
        invariant Linked(t, m, Opt(node)) && At(t, k) == At(shape, k) && Nodes(t) <= All() && Named(t, caseSensitive)
        decreases t
      {
        var compare := Compare(Fold(caseSensitive, name), Fold(caseSensitive, node.name));
        CompareIsOrder(k, t.key);
        if compare == 0 {
          return node;
        }
        if compare < 0 {
          if node.left == null {
            return null;
          }
          node, t := node.left, t.left;
        } else {
          if node.right == null {
            return null;
          }
          node, t := node.right, t.right;
        }
      }
      return null;
    }

    /** The new tree: `n` hangs at the edge of the old one. */
    ghost method Grow(k: string, n: TreeNode<D>, links: map<TreeNode<D>, Links<TreeNode<D>>>)
      requires Sorted(shape) && Proper(shape) && Named(shape, caseSensitive) && k !in Keys(shape) && n !in All()
      requires k == Fold(caseSensitive, n.name) && links == Snapshot(All() + {n})
      requires Linked(Insert(shape, k, n), links, Opt(root)) && size == Count(shape) + 1
      modifies this`shape
      ensures Valid() && All() == old(All()) + {n} && Contents() == old(Contents())[k := n.data]
    {
      hide Sorted, Proper, Named, Linked, Count, Nodes, Insert, SearchTrees.Contents;
      InsertIs(shape, k, n);
      InsertContents(shape, Data(All()), k, n, n.data);
      assert Data(All() + {n}) == Data(All())[n := n.data];
      InsertNamed(shape, k, n, caseSensitive);
      shape := Insert(shape, k, n);
    }

    /** Once the node at the edge points to it, `n` is in the tree. */
    ghost method Hang(k: string, at: TreeNode<D>, before: bool, n: TreeNode<D>, m: map<TreeNode<D>, Links<TreeNode<D>>>)
      requires Sorted(shape) && Proper(shape) && Named(shape, caseSensitive) && At(shape, k) == Nothing && n !in All()
      requires k == Fold(caseSensitive, n.name) && size == Count(shape) + 1 && at in m.Keys && m.Keys == All()
      requires shape.Node? && at == Edge(shape, k) && before == (Compare(k, EdgeKey(shape, k)) < 0)
      requires Linked(shape, m, Opt(root))
      requires Snapshot(All() + {n}) == Hung(m, at, before, Just(n))[n := Links(Nothing, Nothing)]
      modifies this`shape
      ensures Valid() && All() == old(All()) + {n} && Contents() == old(Contents())[k := n.data]
    {
      hide Sorted, Proper, Named, Count, Nodes, Insert, SearchTrees.Contents, Linked, Valid, Contents;
      AtIsIn(shape, k);
      Below(shape, m, Opt(root));
      var links := m[n := Links(Nothing, Nothing)];
      LinkedElsewhere(shape, m, links, Opt(root));
      InsertLinked(shape, links, k, n);
      assert Snapshot(All() + {n}) == Hung(links, at, before, Just(n));
      Grow(k, n, Snapshot(All() + {n}));
    }

    method AddRoot(name: string, ptr: D) returns (node: TreeNode<D>)
      requires Valid() && root == null
      modifies this
      ensures Valid() && fresh(node) && node.data == ptr
      ensures Contents() == old(Contents())[Fold(caseSensitive, name) := ptr] && All() == old(All()) + {node}
    {
      node := new TreeNode(name, ptr);
      root := node;
      size := size + 1;
      Grow(Fold(caseSensitive, name), node, Snapshot({node}));
    }

    method AddLeft(at: TreeNode<D>, name: string, ptr: D) returns (node: TreeNode<D>)
      requires Valid() && At(shape, Fold(caseSensitive, name)) == Nothing && at in All() && shape.Node?
      requires at == Edge(shape, Fold(caseSensitive, name))
      requires Compare(Fold(caseSensitive, name), EdgeKey(shape, Fold(caseSensitive, name))) < 0
      modifies this`size, this`shape, at`left
      ensures Valid() && fresh(node) && node.data == ptr
      ensures Contents() == old(Contents())[Fold(caseSensitive, name) := ptr] && All() == old(All()) + {node}
    {
      hide Sorted, Proper, Count, Nodes, SearchTrees.Contents, Contents, Insert, SearchTrees.Keys, Named, Linked;
      ghost var m := Snapshot(All());
      node := new TreeNode(name, ptr);
      at.left := node;
      size := size + 1;
      Hang(Fold(caseSensitive, name), at, true, node, m);
    }

    method AddRight(at: TreeNode<D>, name: string, ptr: D) returns (node: TreeNode<D>)
      requires Valid() && At(shape, Fold(caseSensitive, name)) == Nothing && at in All() && shape.Node?
      requires at == Edge(shape, Fold(caseSensitive, name))
      requires Compare(Fold(caseSensitive, name), EdgeKey(shape, Fold(caseSensitive, name))) >= 0
      modifies this`size, this`shape, at`right
      ensures Valid() && fresh(node) && node.data == ptr
      ensures Contents() == old(Contents())[Fold(caseSensitive, name) := ptr] && All() == old(All()) + {node}
    {
      hide Sorted, Proper, Count, Nodes, SearchTrees.Contents, Contents, Insert, SearchTrees.Keys, Named, Linked;
      ghost var m := Snapshot(All());
      node := new TreeNode(name, ptr);
      at.right := node;
      size := size + 1;
      Hang(Fold(caseSensitive, name), at, false, node, m);
    }

    method Add(name: string, ptr: D) returns (node: TreeNode<D>)
      requires Valid()
      modifies this, All()`data, All()`left, All()`right
      ensures Valid() && node in All() && node.data == ptr
      ensures Contents() == old(Contents())[Fold(caseSensitive, name) := ptr]
      ensures All() == old(All()) + {node} && (node !in old(All()) ==> fresh(node))
    {
      hide Sorted, Proper, Count, Nodes, SearchTrees.Contents, Contents, Insert, SearchTrees.Keys;
      ghost var k := Fold(caseSensitive, name);
      if root == null {
        node := AddRoot(name, ptr);
        return;
      }
      var at: TreeNode<D> := root;
      ghost var m, t := Snapshot(All()), shape;
      while true
        invariant shape == old(shape) && Valid() && m == Snapshot(All()) && Contents() == old(Contents())
        invariant shape.Node? && t.Node? && t.here == at && at in All() && Linked(t, m, Just(at))
        invariant Named(t, caseSensitive)
        invariant At(t, k) == At(shape, k) && Edge(t, k) == Edge(shape, k) && EdgeKey(t, k) == EdgeKey(shape, k)
        decreases t
      {
        var compare := Compare(Fold(caseSensitive, name), Fold(caseSensitive, at.name));
        CompareIsOrder(k, t.key);
        if compare == 0 {
          Overwrite(at, ptr, k);
          return at;
        }
        if compare < 0 {
          if at.left != null {
            at, t := at.left, t.left;
            continue;
          }
          node := AddLeft(at, name, ptr);
          return;
        }
        if at.right != null {
          at, t := at.right, t.right;
          continue;
        }
        node := AddRight(at, name, ptr);
        return;
      }
    }

    /** Takes `d` out of the subtree that it heads; `top` heads what remains. */
    method Bypass(d: TreeNode<D>, ghost t: Tree<TreeNode<D>>) returns (top: TreeNode?<D>)
      requires t.Node? && t.here == d && Nodes(t) <= All() && Linked(t, Snapshot(All()), Just(d)) && Sorted(t)
      requires Proper(t)
      modifies All()`left, All()`right
      ensures Opt(top) == Top(Joined(t.left, t.right)) && Snapshot(All()) == Bypassed(t, old(Snapshot(All())))
    {
      hide Sorted, Keys, Count;
      ghost var m := Snapshot(All());
      Below(t, m, Just(d));
      Below(t.right, m, Top(t.right));
      if d.right == null {
        top := d.left;
      } else if d.right.left == null {
        top := d.right;
        top.left := d.left;
      } else {
        top := Rotate(d, t);
      }
    }

    /** The least node on the right takes the place of `d`. */
    method Rotate(d: TreeNode<D>, ghost t: Tree<TreeNode<D>>) returns (node: TreeNode<D>)
      requires t.Node? && t.here == d && Nodes(t) <= All() && Linked(t, Snapshot(All()), Just(d)) && Proper(t)
      requires t.right.Node? && t.right.left.Node?
      modifies All()`left, All()`right
      ensures Just(node) == Top(Joined(t.left, t.right)) && Snapshot(All()) == Bypassed(t, old(Snapshot(All())))
    {
      hide Linked, Nodes;
      ghost var m, r := Snapshot(All()), t.right;
      Below(t, m, Just(d));
      Below(r, m, Top(r));
      Below(r.left, m, Top(r.left));
      var c: TreeNode<D> := d.right;
      while c.left.left != null
        invariant r.Node? && r.left.Node? && c == r.here && c in All() && c.left != null && c.left in All()
        invariant Linked(r, m, Just(c)) && m[c].left == Just(r.left.here) && m[r.left.here].left == Top(r.left.left)
        invariant AboveLeast(r) == AboveLeast(t.right) && Least(r) == Least(t.right)
        modifies {}
        decreases r
      {
        Below(r, m, Just(c));
        Below(r.left, m, Just(r.left.here));
        Below(r.left.left, m, Top(r.left.left));
        c, r := c.left, r.left;
      }
      LeastNodes(t.right);
      node := Promote(c, d);
    }

    /** The left one of `c` is unhooked, and takes over the links of `d`. */
    method Promote(c: TreeNode<D>, d: TreeNode<D>) returns (node: TreeNode<D>)
      requires {c, d} <= All() && c != d && c.left != null && c.left in All() && c.left !in {c, d}
      modifies c`left, c.left`left, c.left`right
      ensures node == old(c.left)
      ensures var m := old(Snapshot(All())); Snapshot(All()) == Hung(m, c, true, m[node].right)[node := m[d]]
    {
      ghost var m := Snapshot(All());
      node := c.left;
      c.left := node.right;
      assert Snapshot(All()) == Hung(m, c, true, m[node].right);
      node.left := d.left;
      node.right := d.right;
    }

    /** Once the links spell the tree without `k`. */
    ghost method Shrink(k: string)
      requires Sorted(shape) && Proper(shape) && Named(shape, caseSensitive) && k in Keys(shape)
      requires Linked(Delete(shape, k), Snapshot(All()), Opt(root)) && size + 1 == Count(shape)
      modifies this`shape
      ensures Valid() && All() <= old(All()) && Contents() == old(Contents()) - {k}
    {
      hide Sorted, Proper, Named, Count, Nodes, Delete, SearchTrees.Contents;
      ghost var t, m := Delete(shape, k), Snapshot(All());
      DeleteIs(shape, k);
      DeleteNamed(shape, k, caseSensitive);
      DeleteContents(shape, Data(All()), Data(Nodes(t)), k);
      LinkedElsewhere(t, m, Snapshot(Nodes(t)), Opt(root));
      shape := t;
    }

    /** What is found for `k`, and whose child it is. */
    method Locate(name: string) returns (parent: TreeNode?<D>, nodeToDel: TreeNode?<D>)
      requires Valid()
      ensures nodeToDel == null <==> Fold(caseSensitive, name) !in Keys(shape)
      ensures nodeToDel != null ==>
                var k := Fold(caseSensitive, name);
                var p := Over(shape, k, Leaf);
                && Sub(shape, k).Node? && Sub(shape, k).here == nodeToDel
                && if p.Leaf? then parent == null else parent == p.here && p.key == Fold(caseSensitive, parent.name)
      ensures nodeToDel != null ==> Fold(caseSensitive, nodeToDel.name) == Fold(caseSensitive, name)
    {
      ghost var k, m, t, p := Fold(caseSensitive, name), Snapshot(All()), shape, Leaf;
      AtIsIn(shape, k);
      parent, nodeToDel := null, root;
      while nodeToDel != null
        invariant Linked(t, m, Opt(nodeToDel)) && Named(t, caseSensitive) && Nodes(t) <= All()
        invariant At(t, k) == At(shape, k) && Sub(t, k) == Sub(shape, k) && Over(t, k, p) == Over(shape, k, Leaf)
        invariant if p.Leaf? then parent == null else parent == p.here && p.key == Fold(caseSensitive, parent.name)
        decreases t
      {
        var compare := Compare(Fold(caseSensitive, name), Fold(caseSensitive, nodeToDel.name));
        CompareIsOrder(k, t.key);
        if compare == 0 {
          break;
        }
        parent, p := nodeToDel, t;
        if compare < 0 {
          nodeToDel, t := nodeToDel.left, t.left;
        } else {
          nodeToDel, t := nodeToDel.right, t.right;
        }
      }
    }

    lemma SizeIs()
      requires Valid()
      ensures size == |Contents()|
    {
      hide Linked, Named, Sorted;
      CountIsKeys(shape);
      forall k
        ensures k in Contents() <==> k in Keys(shape)
      {
        SearchTrees.ContentsAt(shape, Data(All()), k);
        AtIsIn(shape, k);
      }
      assert Contents().Keys == Keys(shape);
    }

    lemma Missing(k: string)
      requires Valid() && k !in Keys(shape)
      ensures Contents() - {k} == Contents()
    {
      SearchTrees.ContentsAt(shape, Data(All()), k);
      AtIsIn(shape, k);
    }

    /** What there is to know about the subtree that `k` heads, and about the links without its head. */
    lemma Subtree(k: string, m: map<TreeNode<D>, Links<TreeNode<D>>>)
      requires Valid() && k in Keys(shape) && m == Snapshot(All())
      ensures Sub(shape, k).Node? && Linked(shape, m, Top(shape)) && shape.Node? && Nodes(shape) == m.Keys
      ensures Opt(root) == Top(shape)
      ensures Compare(k, shape.key) == 0 ==> Delete(shape, k) == Joined(Sub(shape, k).left, Sub(shape, k).right)
      ensures var t := Sub(shape, k);
              && Linked(t, m, Just(t.here)) && Sorted(t) && Proper(t) && Nodes(t) <= All()
              && Linked(Joined(t.left, t.right), Bypassed(t, m), Top(Joined(t.left, t.right)))
              && Bypassed(t, m).Keys == m.Keys && forall n <- m :: n !in Nodes(t) ==> Bypassed(t, m)[n] == m[n]
      ensures var p := Over(shape, k, Leaf);
              (p.Leaf? <==> Compare(k, shape.key) == 0)
                  && (p.Node? ==> p.here in All() && p.here !in Nodes(Sub(shape, k)))
    {
      hide Sorted, Proper, Named, Count, Joined, Bypassed;
      Below(shape, m, Opt(root));
      SubIs(shape, k);
      SubLinked(shape, m, k);
      OverIs(shape, k, Leaf);
      JoinedLinked(Sub(shape, k), m);
    }

    /** The parent, or the root, points to what has taken the place of the deleted node. */
    method Relink(parent: TreeNode?<D>, nodeToDel: TreeNode<D>, node: TreeNode?<D>, ghost k: string)
      requires shape.Node? && Sub(shape, k).Node? && Nodes(shape) == All() && k == Fold(caseSensitive, nodeToDel.name)
      requires Opt(node) == Top(Joined(Sub(shape, k).left, Sub(shape, k).right))
      requires var p := Over(shape, k, Leaf);
               if p.Leaf? then
                 parent == null && Linked(Delete(shape, k), Snapshot(All()), Top(Delete(shape, k)))
                     && Opt(node) == Top(Delete(shape, k))
               else
                 && parent == p.here && p.key == Fold(caseSensitive, parent.name) && parent in All()
                    && Opt(root) == Top(shape)
                 && Linked(Delete(shape, k), Hung(Snapshot(All()), parent, Compare(k, p.key) < 0, Opt(node)),
                    Top(shape))
      modifies this`root, All()`left, All()`right
      ensures Linked(Delete(shape, k), Snapshot(All()), Opt(root))
    {
      hide Linked, Nodes, Delete, Sub, Over, Joined;
      ghost var m := Snapshot(All());
      if parent != null {
        var compare := Compare(Fold(caseSensitive, nodeToDel.name), Fold(caseSensitive, parent.name));
        if compare < 0 {
          parent.left := node;
        } else {
          parent.right := node;
        }
        assert Snapshot(All()) == Hung(m, parent, compare < 0, Opt(node));
      } else {
        root := node;
      }
    }

    method Del(name: string)
      requires Valid()
      modifies this, All()`left, All()`right
      ensures Valid() && All() <= old(All()) && Contents() == old(Contents()) - {Fold(caseSensitive, name)}
    {
      hide Sorted, Proper, Named, Count, Nodes, Delete, Sub, Over, Keys, Linked, Joined, Bypassed, Contents, Data,
          Snapshot;
      ghost var k, m := Fold(caseSensitive, name), Snapshot(All());
      var parent, nodeToDel := Locate(name);
      if nodeToDel == null {
        Missing(k);
        return;
      }
      ghost var t := Sub(shape, k);
      Subtree(k, m);
      var node := Bypass(nodeToDel, t);
      DeleteLinked(shape, k, m, Snapshot(All()));
      Relink(parent, nodeToDel, node, k);
      size := size - 1;
      Shrink(k);
    }

    method Overwrite(at: TreeNode<D>, ptr: D, ghost k: string)
      requires Valid() && At(shape, k) == Just(at)
      modifies at`data
      ensures Valid() && Contents() == old(Contents())[k := ptr] && at.data == ptr && at in All()
    {
      AtIsIn(shape, k);
      OverwriteContents(shape, Data(All()), k, ptr);
      ghost var data := Data(All());
      at.data := ptr;
      assert Data(All()) == data[at := ptr];
    }
  }

  lemma {:induction false} AtNamed<D>(t: Tree<TreeNode<D>>, j: string, c: bool)
    requires Named(t, c)
    ensures At(t, j).Just? ==> Fold(c, At(t, j).value.name) == j
  {
    if t.Node? {
      CompareIsOrder(j, t.key);
      AtNamed(t.left, j, c);
      AtNamed(t.right, j, c);
    }
  }
}
