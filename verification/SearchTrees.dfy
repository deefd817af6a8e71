/** The laws behind global/tree.cpp: search trees with string keys, and how their links look in memory.

    Keys are unrelated to balance: `Delete` puts the smallest node of the right subtree where the deleted one was. */
module SearchTrees {
  import opened Common

  datatype Tree<N> = Leaf | Node(left: Tree<N>, key: string, here: N, right: Tree<N>)

  // ---- the order of strcmp

  /** The sign of `strcmp` on strings without NUL: a proper prefix is smaller. */
  function Compare(a: string, b: string): int {
    if a == [] && b == [] then 0
    else if a == [] then -1
    else if b == [] then 1
    else if a[0] != b[0] then (if a[0] < b[0] then -1 else 1)
    else Compare(a[1..], b[1..])
  }

  lemma {:induction false} CompareIsOrder(a: string, b: string)
    ensures Compare(a, b) == 0 <==> a == b
    ensures Compare(a, b) < 0 <==> Compare(b, a) > 0
    decreases |a|
  {
    if a != [] && b != [] && a[0] == b[0] {
      CompareIsOrder(a[1..], b[1..]);
      assert a == [a[0]] + a[1..] && b == [b[0]] + b[1..];
    }
  }

  lemma {:induction false} CompareTransitive(a: string, b: string, c: string)
    requires Compare(a, b) < 0 && Compare(b, c) < 0
    ensures Compare(a, c) < 0
    decreases |a|
  {
    if a != [] && b != [] && c != [] && a[0] == b[0] == c[0] {
      CompareTransitive(a[1..], b[1..], c[1..]);
    }
  }

  // ---- trees

  /** The order of the dictionary: the first characters that differ decide, and what goes on comes after. */
  lemma {:induction false} CompareIff(a: string, b: string)
    ensures Compare(a, b) < 0
       <==> exists k :: 0 <= k <= |a| && k < |b| && a[..k] == b[..k] && (k == |a| || a[k] < b[k])
  {
    if a != [] && b != [] {
      if a[0] == b[0] {
        CompareIff(a[1..], b[1..]);
        if Compare(a, b) < 0 {
          var k :| 0 <= k <= |a| - 1 && k < |b| - 1 && a[1..][..k] == b[1..][..k]
            && (k == |a| - 1 || a[1..][k] < b[1..][k]);
          assert a[..k + 1] == [a[0]] + a[1..][..k] && b[..k + 1] == [b[0]] + b[1..][..k];
        } else {
          forall k | 0 <= k <= |a| && k < |b| && a[..k] == b[..k]
            ensures k != |a| && a[k] >= b[k]
          {
            if k > 0 {
              assert a[1..][..k - 1] == a[..k][1..] && b[1..][..k - 1] == b[..k][1..];
              assert k == |a| || a[1..][k - 1] == a[k];
            }
          }
        }
      } else {
        assert a[..0] == b[..0];
        forall k | 0 < k <= |a| && k < |b|
          ensures a[..k] != b[..k]
        {
          assert a[..k][0] == a[0] && b[..k][0] == b[0];
        }
      }
    } else if b != [] {
      assert a[..0] == b[..0];
    }
  }

  function Keys<N>(t: Tree<N>): set<string> {
    match t
    case Leaf => {}
    case Node(l, k, _, r) => Keys(l) + {k} + Keys(r)
  }

  ghost function Nodes<N>(t: Tree<N>): set<N> {
    match t
    case Leaf => {}
    case Node(l, _, h, r) => Nodes(l) + {h} + Nodes(r)
  }

  function Count<N>(t: Tree<N>): nat {
    match t
    case Leaf => 0
    case Node(l, _, _, r) => Count(l) + 1 + Count(r)
  }

  ghost predicate AllBelow(ks: set<string>, k: string) {
    forall j <- ks :: Compare(j, k) < 0
  }

  ghost predicate AllAbove(ks: set<string>, k: string) {
    forall j <- ks :: Compare(j, k) > 0
  }

  ghost predicate Sorted<N>(t: Tree<N>) {
    match t
    case Leaf => true
    case Node(l, k, _, r) => Sorted(l) && Sorted(r) && AllBelow(Keys(l), k) && AllAbove(Keys(r), k)
  }

  /** No node is in the tree twice. */
  ghost predicate Proper<N>(t: Tree<N>) {
    match t
    case Leaf => true
    case Node(l, _, h, r) => Proper(l) && Proper(r) && h !in Nodes(l) && h !in Nodes(r) && Nodes(l) !! Nodes(r)
  }

  /** The node for `k`, by going left or right as the comparison says. */
  ghost function At<N>(t: Tree<N>, k: string): Maybe<N> {
    match t
    case Leaf => Nothing
    case Node(l, j, h, r) => if Compare(k, j) == 0 then Just(h) else if Compare(k, j) < 0 then At(l, k) else At(r, k)
  }

  ghost function Insert<N>(t: Tree<N>, k: string, n: N): Tree<N> {
    match t
    case Leaf => Node(Leaf, k, n, Leaf)
    case Node(l, j, h, r) =>
      if Compare(k, j) == 0 then t
      else if Compare(k, j) < 0 then Node(Insert(l, k, n), j, h, r)
      else Node(l, j, h, Insert(r, k, n))
  }

  ghost function Least<N>(t: Tree<N>): Tree<N>
    requires t.Node?
    ensures Least(t).Node?
  {
    if t.left.Leaf? then t else Least(t.left)
  }

  ghost function WithoutLeast<N>(t: Tree<N>): Tree<N>
    requires t.Node?
  {
    if t.left.Leaf? then t.right else Node(WithoutLeast(t.left), t.key, t.here, t.right)
  }

  /** Two subtrees without what was between them. */
  ghost function Joined<N>(l: Tree<N>, r: Tree<N>): Tree<N> {
    if r.Leaf? then l else Node(l, Least(r).key, Least(r).here, WithoutLeast(r))
  }

  ghost function Delete<N>(t: Tree<N>, k: string): Tree<N> {
    match t
    case Leaf => Leaf
    case Node(l, j, h, r) =>
      if Compare(k, j) == 0 then Joined(l, r)
      else if Compare(k, j) < 0 then Node(Delete(l, k), j, h, r)
      else Node(l, j, h, Delete(r, k))
  }

  // ---- a tree is a map

  lemma {:induction false} AtIsIn<N>(t: Tree<N>, k: string)
    requires Sorted(t)
    ensures k in Keys(t) <==> At(t, k).Just?
    ensures At(t, k).Just? ==> At(t, k).value in Nodes(t)
  {
    if t.Node? {
      CompareIsOrder(k, t.key);
      AtIsIn(t.left, k);
      AtIsIn(t.right, k);
    }
  }

  lemma {:induction false} InsertIs<N>(t: Tree<N>, k: string, n: N)
    requires Sorted(t) && k !in Keys(t)
    ensures Keys(Insert(t, k, n)) == Keys(t) + {k} && Nodes(Insert(t, k, n)) == Nodes(t) + {n}
    ensures Sorted(Insert(t, k, n)) && Count(Insert(t, k, n)) == Count(t) + 1
    ensures n !in Nodes(t) && Proper(t) ==> Proper(Insert(t, k, n))
  {
    if t.Node? {
      CompareIsOrder(k, t.key);
      if Compare(k, t.key) < 0 {
        InsertIs(t.left, k, n);
      } else {
        InsertIs(t.right, k, n);
      }
    } else {
      assert Keys(Insert(t, k, n)) == {k};
    }
  }

  lemma {:induction false} InsertAt<N>(t: Tree<N>, k: string, n: N, j: string)
    requires Sorted(t) && k !in Keys(t)
    ensures At(Insert(t, k, n), j) == if j == k then Just(n) else At(t, j)
  {
    CompareIsOrder(j, k);
    if t.Node? {
      CompareIsOrder(k, t.key);
      if Compare(k, t.key) < 0 {
        InsertAt(t.left, k, n, j);
      } else {
        InsertAt(t.right, k, n, j);
      }
    }
  }

  /** The least node is apart from the rest, and below it. */
  lemma {:induction false} LeastIs<N>(t: Tree<N>)
    requires Sorted(t) && t.Node?
    ensures Keys(t) == Keys(WithoutLeast(t)) + {Least(t).key} && AllAbove(Keys(WithoutLeast(t)), Least(t).key)
    ensures Sorted(WithoutLeast(t)) && Count(t) == Count(WithoutLeast(t)) + 1
    ensures Nodes(t) == Nodes(WithoutLeast(t)) + {Least(t).here}
    ensures Proper(t) ==> Proper(WithoutLeast(t)) && Least(t).here !in Nodes(WithoutLeast(t))
  {
    if t.left.Node? {
      LeastIs(t.left);
      var m := Least(t).key;
      forall j <- Keys(WithoutLeast(t))
        ensures Compare(j, m) > 0
      {
        CompareIsOrder(m, t.key);
        CompareIsOrder(m, j);
        CompareIsOrder(t.key, j);
        if j in Keys(t.right) {
          CompareTransitive(m, t.key, j);
        }
      }
    }
  }

  lemma {:induction false} LeastAt<N>(t: Tree<N>, j: string)
    requires Sorted(t) && t.Node?
    ensures At(t, j) == if j == Least(t).key then Just(Least(t).here) else At(WithoutLeast(t), j)
  {
    CompareIsOrder(j, t.key);
    CompareIsOrder(j, Least(t).key);
    LeastIs(t);
    AtIsIn(t, j);
    if t.left.Node? {
      LeastIs(t.left);
      LeastAt(t.left, j);
    } else {
      AtIsIn(t.right, j);
    }
  }

  lemma JoinedIs<N>(l: Tree<N>, k: string, r: Tree<N>)
    requires Sorted(l) && Sorted(r) && AllBelow(Keys(l), k) && AllAbove(Keys(r), k)
    ensures Keys(Joined(l, r)) == Keys(l) + Keys(r) && Nodes(Joined(l, r)) == Nodes(l) + Nodes(r)
    ensures Sorted(Joined(l, r)) && Count(Joined(l, r)) == Count(l) + Count(r)
    ensures Proper(l) && Proper(r) && Nodes(l) !! Nodes(r) ==> Proper(Joined(l, r))
  {
    if r.Node? {
      LeastIs(r);
      forall j <- Keys(l)
        ensures Compare(j, Least(r).key) < 0
      {
        CompareIsOrder(k, Least(r).key);
        CompareTransitive(j, k, Least(r).key);
      }
    }
  }

  lemma JoinedAt<N>(l: Tree<N>, k: string, r: Tree<N>, j: string)
    requires Sorted(l) && Sorted(r) && AllBelow(Keys(l), k) && AllAbove(Keys(r), k)
    ensures At(Joined(l, r), j) == if Compare(j, k) == 0 then Nothing else if Compare(j, k) < 0 then At(l, j)
            else At(r, j)
  {
    CompareIsOrder(j, k);
    AtIsIn(l, j);
    AtIsIn(r, j);
    if r.Node? {
      var m := Least(r).key;
      LeastIs(r);
      LeastAt(r, j);
      AtIsIn(WithoutLeast(r), j);
      CompareIsOrder(k, m);
      CompareIsOrder(j, m);
      if Compare(j, k) < 0 {
        CompareTransitive(j, k, m);
      } else if j == k {
        assert Compare(k, k) == 0;
      }
    }
  }

  lemma {:induction false} DeleteIs<N>(t: Tree<N>, k: string)
    requires Sorted(t) && k in Keys(t)
    ensures Keys(Delete(t, k)) == Keys(t) - {k} && Nodes(Delete(t, k)) <= Nodes(t)
    ensures Sorted(Delete(t, k)) && Count(Delete(t, k)) + 1 == Count(t)
    ensures Proper(t) ==> Proper(Delete(t, k))
  {
    var (l, j, r) := (t.left, t.key, t.right);
    CompareIsOrder(k, j);
    if Compare(k, j) == 0 {
      JoinedIs(l, j, r);
    } else if Compare(k, j) < 0 {
      DeleteIs(l, k);
    } else {
      DeleteIs(r, k);
    }
    assert k !in Keys(l) || k !in Keys(r);
    assert k == j ==> k !in Keys(l) && k !in Keys(r);
  }

  /** Deleting forgets just that key, whatever the tree was like around it. */
  lemma {:induction false} DeleteAt<N>(t: Tree<N>, k: string, j: string)
    requires Sorted(t)
    ensures At(Delete(t, k), j) == if j == k then Nothing else At(t, j)
  {
    CompareIsOrder(j, k);
    if t.Node? {
      CompareIsOrder(k, t.key);
      CompareIsOrder(j, t.key);
      if Compare(k, t.key) == 0 {
        JoinedAt(t.left, t.key, t.right, j);
      } else if Compare(k, t.key) < 0 {
        DeleteAt(t.left, k, j);
      } else {
        DeleteAt(t.right, k, j);
      }
    }
  }

  /** There are as many nodes as keys. */
  lemma {:induction false} CountIsKeys<N>(t: Tree<N>)
    requires Sorted(t)
    ensures Count(t) == |Keys(t)|
  {
    if t.Node? {
      CountIsKeys(t.left);
      CountIsKeys(t.right);
      assert Keys(t.left) * Keys(t.right) == {} by {
        forall j <- Keys(t.left)
          ensures j !in Keys(t.right)
        {
          CompareIsOrder(j, t.key);
        }
      }
      CompareIsOrder(t.key, t.key);
      assert |Keys(t.left) + {t.key}| == |Keys(t.left)| + 1;
      assert (Keys(t.left) + {t.key}) * Keys(t.right) == {};
    }
  }

  /** What the tree says, when the nodes hold `data`. */
  ghost function Contents<N, D>(t: Tree<N>, data: map<N, D>): map<string, D> {
    map k | k in Keys(t) && At(t, k).Just? && At(t, k).value in data :: data[At(t, k).value]
  }

  lemma ContentsAt<N, D>(t: Tree<N>, data: map<N, D>, k: string)
    requires Sorted(t) && Nodes(t) <= data.Keys
    ensures k in Contents(t, data) <==> At(t, k).Just?
    ensures At(t, k).Just? ==> At(t, k).value in data && Contents(t, data)[k] == data[At(t, k).value]
  {
    AtIsIn(t, k);
  }

  /** Each node is there for one key only. */
  lemma {:induction false} AtOnce<N>(t: Tree<N>, j: string, k: string)
    requires Sorted(t) && Proper(t) && At(t, j).Just? && At(t, j) == At(t, k)
    ensures j == k
  {
    CompareIsOrder(j, t.key);
    CompareIsOrder(k, t.key);
    AtIsIn(t.left, j);
    AtIsIn(t.left, k);
    AtIsIn(t.right, j);
    AtIsIn(t.right, k);
    if Compare(j, t.key) < 0 && Compare(k, t.key) < 0 {
      AtOnce(t.left, j, k);
    } else if Compare(j, t.key) > 0 && Compare(k, t.key) > 0 {
      AtOnce(t.right, j, k);
    }
  }

  lemma OverwriteContents<N, D>(t: Tree<N>, data: map<N, D>, k: string, d: D)
    requires Sorted(t) && Proper(t) && Nodes(t) <= data.Keys && At(t, k).Just?
    ensures Contents(t, data[At(t, k).value := d]) == Contents(t, data)[k := d]
  {
    var data' := data[At(t, k).value := d];
    AtIsIn(t, k);
    forall j
      ensures j in Contents(t, data') <==> j in Contents(t, data)[k := d]
      ensures j in Contents(t, data') ==> Contents(t, data')[j] == Contents(t, data)[k := d][j]
    {
      ContentsAt(t, data, j);
      ContentsAt(t, data', j);
      if At(t, j) == At(t, k) {
        AtOnce(t, j, k);
      }
    }
  }

  lemma InsertContentsAt<N, D>(t: Tree<N>, data: map<N, D>, k: string, n: N, d: D, j: string)
    requires Sorted(t) && Nodes(t) <= data.Keys && k !in Keys(t) && n !in Nodes(t)
    ensures j in Contents(Insert(t, k, n), data[n := d]) <==> j in Contents(t, data)[k := d]
    ensures j in Contents(t, data)[k := d] ==>
            Contents(Insert(t, k, n), data[n := d])[j] == Contents(t, data)[k := d][j]
  {
    hide Insert, Contents, Sorted, Keys, Nodes, At, Proper, Count;
    InsertIs(t, k, n);
    ContentsAt(t, data, j);
    ContentsAt(Insert(t, k, n), data[n := d], j);
    InsertAt(t, k, n, j);
    AtIsIn(t, j);
  }

  lemma InsertContents<N, D>(t: Tree<N>, data: map<N, D>, k: string, n: N, d: D)
    requires Sorted(t) && Nodes(t) <= data.Keys && k !in Keys(t) && n !in Nodes(t)
    ensures Contents(Insert(t, k, n), data[n := d]) == Contents(t, data)[k := d]
  {
    hide Insert, Contents, Sorted, Keys, Nodes;
    var after, before := Contents(Insert(t, k, n), data[n := d]), Contents(t, data)[k := d];
    forall j
      ensures j in after <==> j in before
      ensures j in before ==> after[j] == before[j]
    {
      InsertContentsAt(t, data, k, n, d, j);
    }
  }

  lemma DeleteContents<N, D>(t: Tree<N>, data: map<N, D>, data': map<N, D>, k: string)
    requires Sorted(t) && Nodes(t) <= data.Keys && k in Keys(t) && Nodes(Delete(t, k)) <= data'.Keys
    requires forall n <- Nodes(Delete(t, k)) :: n in data ==> data'[n] == data[n]
    ensures Contents(Delete(t, k), data') == Contents(t, data) - {k}
  {
    var t' := Delete(t, k);
    DeleteIs(t, k);
    forall j
      ensures j in Contents(t', data') <==> j in Contents(t, data) - {k}
      ensures j in Contents(t', data') ==> Contents(t', data')[j] == (Contents(t, data) - {k})[j]
    {
      ContentsAt(t, data, j);
      ContentsAt(t', data', j);
      DeleteAt(t, k, j);
      AtIsIn(t', j);
    }
  }

  // ---- the links between the nodes

  datatype Links<N> = Links(left: Maybe<N>, right: Maybe<N>)

  /** The links, followed from `at`, spell out `t`. */
  ghost predicate Linked<N>(t: Tree<N>, m: map<N, Links<N>>, at: Maybe<N>) {
    match t
    case Leaf => at == Nothing
    case Node(l, _, h, r) => at == Just(h) && h in m && Linked(l, m, m[h].left) && Linked(r, m, m[h].right)
  }

  lemma {:induction false} LinkedElsewhere<N>(t: Tree<N>, m: map<N, Links<N>>, m': map<N, Links<N>>, at: Maybe<N>)
    requires Linked(t, m, at) && forall n <- Nodes(t) :: n in m && n in m' && m'[n] == m[n]
    ensures Linked(t, m', at)
  {
    if t.Node? {
      LinkedElsewhere(t.left, m, m', m[t.here].left);
      LinkedElsewhere(t.right, m, m', m[t.here].right);
    }
  }

  lemma {:induction false} LinkedIn<N>(t: Tree<N>, m: map<N, Links<N>>, at: Maybe<N>)
    requires Linked(t, m, at)
    ensures Nodes(t) <= m.Keys
  {
    if t.Node? {
      LinkedIn(t.left, m, m[t.here].left);
      LinkedIn(t.right, m, m[t.here].right);
    }
  }

  ghost function Top<N>(t: Tree<N>): Maybe<N> {
    if t.Leaf? then Nothing else Just(t.here)
  }

  /** One step down the links. */
  lemma Below<N>(t: Tree<N>, m: map<N, Links<N>>, at: Maybe<N>)
    requires Linked(t, m, at)
    ensures at == Top(t)
    ensures t.Node? ==> t.here in m && m[t.here] == Links(Top(t.left), Top(t.right))
    ensures t.Node? ==> Linked(t.left, m, m[t.here].left) && Linked(t.right, m, m[t.here].right)
  {
  }

  /** The last node on the way to where `k` is missing. */
  ghost function Edge<N>(t: Tree<N>, k: string): N
    requires t.Node?
  {
    if Compare(k, t.key) < 0 then (if t.left.Leaf? then t.here else Edge(t.left, k))
    else if t.right.Leaf? then t.here else Edge(t.right, k)
  }

  lemma {:induction false} EdgeIsNode<N>(t: Tree<N>, k: string)
    requires t.Node?
    ensures Edge(t, k) in Nodes(t)
  {
    if Compare(k, t.key) < 0 {
      if t.left.Node? {
        EdgeIsNode(t.left, k);
      }
    } else if t.right.Node? {
      EdgeIsNode(t.right, k);
    }
  }

  /** The links after `n` was hung below `p`, on the side that `before` says. */
  ghost function Hung<N>(m: map<N, Links<N>>, p: N, before: bool, n: Maybe<N>): map<N, Links<N>>
    requires p in m
  {
    m[p := if before then Links(n, m[p].right) else Links(m[p].left, n)]
  }

  ghost function EdgeKey<N>(t: Tree<N>, k: string): string
    requires t.Node?
  {
    if Compare(k, t.key) < 0 then (if t.left.Leaf? then t.key else EdgeKey(t.left, k))
    else if t.right.Leaf? then t.key else EdgeKey(t.right, k)
  }

  /** Hanging a new node at the edge inserts it. */
  lemma {:induction false} InsertLinked<N>(t: Tree<N>, m: map<N, Links<N>>, k: string, n: N)
    requires t.Node? && Linked(t, m, Top(t)) && Sorted(t) && Proper(t) && k !in Keys(t) && n in m && n !in Nodes(t)
    requires m[n] == Links(Nothing, Nothing)
    ensures Edge(t, k) in m
    ensures Linked(Insert(t, k, n), Hung(m, Edge(t, k), Compare(k, EdgeKey(t, k)) < 0, Just(n)), Top(t))
  {
    CompareIsOrder(k, t.key);
    LinkedIn(t, m, Top(t));
    EdgeIsNode(t, k);
    var m' := Hung(m, Edge(t, k), Compare(k, EdgeKey(t, k)) < 0, Just(n));
    if Compare(k, t.key) < 0 {
      if t.left.Node? {
        EdgeIsNode(t.left, k);
        InsertLinked(t.left, m, k, n);
      }
      LinkedElsewhere(t.right, m, m', m[t.here].right);
    } else {
      if t.right.Node? {
        EdgeIsNode(t.right, k);
        InsertLinked(t.right, m, k, n);
      }
      LinkedElsewhere(t.left, m, m', m[t.here].left);
    }
  }

  /** The node whose left one is the least. */
  ghost function AboveLeast<N>(t: Tree<N>): Tree<N>
    requires t.Node? && t.left.Node?
    ensures AboveLeast(t).Node?
  {
    if t.left.left.Leaf? then t else AboveLeast(t.left)
  }

  lemma {:induction false} LeastNodes<N>(t: Tree<N>)
    requires t.Node?
    ensures Least(t).here in Nodes(t) && Least(t).left.Leaf?
    ensures t.left.Node? ==> AboveLeast(t).here in Nodes(t) && AboveLeast(t).left.Node? && Least(t) == Least(t.left)
    ensures t.left.Node? && Proper(t) ==> AboveLeast(t).here != Least(t).here
  {
    if t.left.Node? {
      LeastNodes(t.left);
    }
  }

  /** Unhooking the least node: its right subtree takes its place. */
  lemma {:induction false} LeastLinked<N>(t: Tree<N>, m: map<N, Links<N>>)
    requires t.Node? && t.left.Node? && Linked(t, m, Top(t)) && Proper(t)
    ensures AboveLeast(t).here in m && Least(t).here in m
    ensures m[AboveLeast(t).here].left == Just(Least(t).here) && m[Least(t).here].left == Nothing
    ensures Linked(WithoutLeast(t), Hung(m, AboveLeast(t).here, true, m[Least(t).here].right), Top(t))
  {
    LinkedIn(t, m, Top(t));
    LeastNodes(t);
    LeastNodes(t.left);
    var m' := Hung(m, AboveLeast(t).here, true, m[Least(t).here].right);
    LinkedElsewhere(t.right, m, m', m[t.here].right);
    if t.left.left.Node? {
      LeastLinked(t.left, m);
    } else {
      assert Linked(t.left.left, m, m[t.left.here].left);
      LinkedElsewhere(t.left.right, m, m', m[t.left.here].right);
    }
  }

  // ---- deleting, on the links

  /** The subtree with `k` at its top. */
  ghost function Sub<N>(t: Tree<N>, k: string): Tree<N> {
    match t
    case Leaf => Leaf
    case Node(l, j, _, r) => if Compare(k, j) == 0 then t else if Compare(k, j) < 0 then Sub(l, k) else Sub(r, k)
  }

  /** The subtree with that one as a child; `p` if it is all of `t`. */
  ghost function Over<N>(t: Tree<N>, k: string, p: Tree<N>): Tree<N> {
    match t
    case Leaf => p
    case Node(l, j, _, r) => if Compare(k, j) == 0 then p else if Compare(k, j) < 0 then Over(l, k, t)
        else Over(r, k, t)
  }

  lemma {:induction false} SubIs<N>(t: Tree<N>, k: string)
    requires Sorted(t) && k in Keys(t)
    ensures Sub(t, k).Node? && Sub(t, k).key == k && At(t, k) == Just(Sub(t, k).here)
    ensures Nodes(Sub(t, k)) <= Nodes(t) && Sorted(Sub(t, k)) && (Proper(t) ==> Proper(Sub(t, k)))
  {
    CompareIsOrder(k, t.key);
    if Compare(k, t.key) < 0 {
      SubIs(t.left, k);
    } else if Compare(k, t.key) > 0 {
      SubIs(t.right, k);
    }
  }

  lemma {:induction false} SubLinked<N>(t: Tree<N>, m: map<N, Links<N>>, k: string)
    requires Linked(t, m, Top(t))
    ensures Linked(Sub(t, k), m, Top(Sub(t, k)))
  {
    if t.Node? && Compare(k, t.key) != 0 {
      SubLinked(if Compare(k, t.key) < 0 then t.left else t.right, m, k);
    }
  }

  lemma {:induction false} OverIs<N>(t: Tree<N>, k: string, p: Tree<N>)
    requires Sorted(t) && k in Keys(t)
    ensures if Compare(k, t.key) == 0 then Over(t, k, p) == p
            else Over(t, k, p).Node? && Over(t, k, p).here in Nodes(t) && Over(t, k, p) == Over(t, k, Leaf)
    ensures Proper(t) && Compare(k, t.key) != 0 ==> Over(t, k, p).here !in Nodes(Sub(t, k))
  {
    CompareIsOrder(k, t.key);
    SubIs(t, k);
    if Compare(k, t.key) < 0 {
      SubIs(t.left, k);
      OverIs(t.left, k, t);
    } else if Compare(k, t.key) > 0 {
      SubIs(t.right, k);
      OverIs(t.right, k, t);
    }
  }

  /** What the deletion does to the links below the deleted node, in its three cases. */
  ghost function Bypassed<N>(t: Tree<N>, m: map<N, Links<N>>): map<N, Links<N>>
    requires t.Node? && Nodes(t) <= m.Keys
  {
    if t.right.Leaf? then m
    else
      LeastNodes(t.right);
      assert t.right.here in Nodes(t.right);
      if t.right.left.Leaf? then Hung(m, t.right.here, true, m[t.here].left) else
      Hung(m, AboveLeast(t.right).here, true, m[Least(t.right).here].right)[Least(t.right).here := m[t.here]]
  }

  lemma JoinedLinked<N>(t: Tree<N>, m: map<N, Links<N>>)
    requires t.Node? && Linked(t, m, Top(t)) && Sorted(t) && Proper(t) && Nodes(t) <= m.Keys
    ensures Linked(Joined(t.left, t.right), Bypassed(t, m), Top(Joined(t.left, t.right)))
    ensures Bypassed(t, m).Keys == m.Keys && forall n <- m :: n !in Nodes(t) ==> Bypassed(t, m)[n] == m[n]
  {
    var (l, r, m') := (t.left, t.right, Bypassed(t, m));
    if r.Node? {
      LeastNodes(r);
      LinkedElsewhere(l, m, m', m[t.here].left);
      if r.left.Leaf? {
        LinkedElsewhere(r.right, m, m', m[r.here].right);
      } else {
        RestLinked(r, m, m[t.here]);
      }
    }
  }

  lemma RestLinked<N>(r: Tree<N>, m: map<N, Links<N>>, links: Links<N>)
    requires r.Node? && r.left.Node? && Linked(r, m, Top(r)) && Sorted(r) && Proper(r)
    ensures AboveLeast(r).here in m && Least(r).here in m
    ensures Linked(WithoutLeast(r), Hung(m, AboveLeast(r).here, true, m[Least(r).here].right)[Least(r).here := links],
            Top(r))
  {
    LeastLinked(r, m);
    LeastIs(r);
    var h := Hung(m, AboveLeast(r).here, true, m[Least(r).here].right);
    LinkedIn(WithoutLeast(r), h, Top(r));
    LinkedElsewhere(WithoutLeast(r), h, h[Least(r).here := links], Top(r));
  }

  /** Hanging what remains at a node that is not in it leaves its links. */
  lemma HungElsewhere<N>(s: Tree<N>, m: map<N, Links<N>>, p: N, before: bool)
    requires s.Node? && Sorted(s) && p in m && p !in Nodes(s)
    requires Linked(Joined(s.left, s.right), m, Top(Joined(s.left, s.right)))
    ensures var j := Joined(s.left, s.right); Linked(j, Hung(m, p, before, Top(j)), Top(j))
  {
    hide Linked, Joined;
    var j := Joined(s.left, s.right);
    JoinedIs(s.left, s.key, s.right);
    LinkedIn(j, m, Top(j));
    LinkedElsewhere(j, m, Hung(m, p, before, Top(j)), Top(j));
  }

  /** Hanging what remains of the subtree at its parent deletes the key from the whole. */
  lemma {:induction false} DeleteLinked<N>(t: Tree<N>, k: string, m: map<N, Links<N>>, m': map<N, Links<N>>)
    requires Linked(t, m, Top(t)) && Sorted(t) && Proper(t) && k in Keys(t) && m'.Keys == m.Keys
    requires var s := Sub(t, k);
             && s.Node? && Linked(Joined(s.left, s.right), m', Top(Joined(s.left, s.right)))
             && forall n <- Nodes(t) :: n in m && (n !in Nodes(s) ==> m'[n] == m[n])
    ensures Compare(k, t.key) == 0 ==> Linked(Delete(t, k), m', Top(Delete(t, k)))
    ensures Compare(k, t.key) != 0 ==>
              var p := Over(t, k, Leaf);
              && p.Node? && p.here in m' && Top(Delete(t, k)) == Top(t)
              && Linked(Delete(t, k),
                 Hung(m', p.here, Compare(k, p.key) < 0, Top(Joined(Sub(t, k).left, Sub(t, k).right))), Top(t))
  {
    hide Compare, Joined;
    CompareIsOrder(k, t.key);
    var s := Sub(t, k);
    SubIs(t, k);
    OverIs(t, k, Leaf);
    if Compare(k, t.key) != 0 {
      var below := if Compare(k, t.key) < 0 then t.left else t.right;
      SubIs(below, k);
      OverIs(below, k, t);
      var p := Over(t, k, Leaf);
      var m2 := Hung(m', p.here, Compare(k, p.key) < 0, Top(Joined(s.left, s.right)));
      if Compare(k, t.key) < 0 {
        LinkedElsewhere(t.right, m, m2, m[t.here].right);
      } else {
        LinkedElsewhere(t.left, m, m2, m[t.here].left);
      }
      DeleteLinked(below, k, m, m');
      if Compare(k, below.key) == 0 {
        HungElsewhere(s, m', p.here, Compare(k, p.key) < 0);
      }
    }
  }
}
