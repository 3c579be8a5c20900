/** Sizzle's fallback comparator for document order (sortOrder and siblingCheck, for
    browsers without compareDocumentPosition), compared with the preorder listing of
    the document tree. */
module DocumentOrder {
  import opened Common

  datatype Tree = Tree(nodeType: int, kids: seq<Tree>)

  /** A node is addressed by its tree and by the child indices that lead to it. */
  datatype Node = Node(tree: nat, path: seq<nat>)

  datatype Dom = Dom(
    trees: seq<Tree>,
    doc: Node,
    preferredDoc: Node,
    sourceIndex: map<Node, int>,
    sortInput: Option<seq<Node>>
  )

  // ---------- the tree and its pointers ----------

  predicate InTree(t: Tree, p: seq<nat>) {
    p == [] || (p[0] < |t.kids| && InTree(t.kids[p[0]], p[1..]))
  }

  function SubTree(t: Tree, p: seq<nat>): Tree
    requires InTree(t, p)
  {
    if p == [] then t else SubTree(t.kids[p[0]], p[1..])
  }

  predicate InDom(dom: Dom, n: Node) {
    n.tree < |dom.trees| && InTree(dom.trees[n.tree], n.path)
  }

  function Parent(n: Node): Option<Node> {
    if n.path == [] then None else Some(Node(n.tree, n.path[..|n.path| - 1]))
  }

  function Last(n: Node): nat
    requires n.path != []
  {
    n.path[|n.path| - 1]
  }

  function Sibling(n: Node, k: nat): Node
    requires n.path != []
  {
    Node(n.tree, n.path[..|n.path| - 1] + [k])
  }

  lemma {:induction false} PrefixInTree(t: Tree, p: seq<nat>, k: nat)
    requires InTree(t, p) && k <= |p|
    ensures InTree(t, p[..k])
  {
    if k > 0 {
      PrefixInTree(t.kids[p[0]], p[1..], k - 1);
      assert p[..k][1..] == p[1..][..k - 1];
    }
  }

  /** A path is in the tree exactly when its parent is and the parent has that child. */
  lemma {:induction false} ChildInTree(t: Tree, p: seq<nat>, k: nat)
    requires InTree(t, p)
    ensures InTree(t, p + [k]) <==> k < |SubTree(t, p).kids|
  {
    if p == [] {
      assert (p + [k])[1..] == [];
    } else {
      ChildInTree(t.kids[p[0]], p[1..], k);
      assert (p + [k])[1..] == p[1..] + [k];
    }
  }

  /** How many children the parent of n has. */
  function Width(dom: Dom, n: Node): nat
    requires InDom(dom, n) && n.path != []
  {
    PrefixInTree(dom.trees[n.tree], n.path, |n.path| - 1);
    |SubTree(dom.trees[n.tree], n.path[..|n.path| - 1]).kids|
  }

  lemma SiblingInDom(dom: Dom, n: Node, k: nat)
    requires InDom(dom, n) && n.path != []
    ensures InDom(dom, Sibling(n, k)) <==> k < Width(dom, n)
    ensures InDom(dom, Sibling(n, k)) ==> Width(dom, Sibling(n, k)) == Width(dom, n)
    ensures Sibling(n, Last(n)) == n
  {
    PrefixInTree(dom.trees[n.tree], n.path, |n.path| - 1);
    ChildInTree(dom.trees[n.tree], n.path[..|n.path| - 1], k);
    assert Sibling(n, k).path[..|n.path| - 1] == n.path[..|n.path| - 1];
    assert n.path == n.path[..|n.path| - 1] + [Last(n)];
  }

  function NextSibling(dom: Dom, n: Node): Option<Node>
    requires InDom(dom, n)
  {
    if n.path != [] && Last(n) + 1 < Width(dom, n) then Some(Sibling(n, Last(n) + 1)) else None
  }

  function NodeType(dom: Dom, n: Node): int
    requires InDom(dom, n)
  {
    SubTree(dom.trees[n.tree], n.path).nodeType
  }

  // ---------- the reference: preorder ----------

  function Under(i: nat, ps: seq<seq<nat>>): seq<seq<nat>> {
    if ps == [] then [] else [[i] + ps[0]] + Under(i, ps[1..])
  }

  /** The paths of all nodes, in the order of a depth-first walk. */
  function Preorder(t: Tree): seq<seq<nat>>
    decreases t, 1
  {
    [[]] + PreorderKids(t, 0)
  }

  function PreorderKids(t: Tree, i: nat): seq<seq<nat>>
    requires i <= |t.kids|
    decreases t, 0, |t.kids| - i
  {
    if i == |t.kids| then [] else Under(i, Preorder(t.kids[i])) + PreorderKids(t, i + 1)
  }

  /** p is listed before q. */
  ghost predicate Before(t: Tree, p: seq<nat>, q: seq<nat>) {
    exists i, j :: 0 <= i < j < |Preorder(t)| && Preorder(t)[i] == p && Preorder(t)[j] == q
  }

  // ---------- preorder is the lexicographic order of paths ----------

  predicate LexLess(p: seq<nat>, q: seq<nat>) {
    q != [] && (p == [] || p[0] < q[0] || (p[0] == q[0] && LexLess(p[1..], q[1..])))
  }

  lemma {:induction false} LexIrreflexive(p: seq<nat>)
    ensures !LexLess(p, p)
  {
    if p != [] { LexIrreflexive(p[1..]); }
  }

  lemma {:induction false} LexAsymmetric(p: seq<nat>, q: seq<nat>)
    requires LexLess(p, q)
    ensures !LexLess(q, p)
  {
    if p != [] && p[0] == q[0] { LexAsymmetric(p[1..], q[1..]); }
  }

  lemma {:induction false} LexTotal(p: seq<nat>, q: seq<nat>)
    ensures p == q || LexLess(p, q) || LexLess(q, p)
  {
    if p != [] && q != [] && p[0] == q[0] {
      LexTotal(p[1..], q[1..]);
      assert p == [p[0]] + p[1..] && q == [q[0]] + q[1..];
    }
  }

  lemma {:induction false} LexTransitive(p: seq<nat>, q: seq<nat>, r: seq<nat>)
    requires LexLess(p, q) && LexLess(q, r)
    ensures LexLess(p, r)
  {
    if p != [] && p[0] == q[0] && q[0] == r[0] { LexTransitive(p[1..], q[1..], r[1..]); }
  }

  ghost predicate Increasing(ps: seq<seq<nat>>) {
    forall i, j :: 0 <= i < j < |ps| ==> LexLess(ps[i], ps[j])
  }

  lemma {:induction false} UnderIs(i: nat, ps: seq<seq<nat>>)
    ensures |Under(i, ps)| == |ps|
    ensures forall k :: 0 <= k < |ps| ==> Under(i, ps)[k] == [i] + ps[k]
  {
    if ps != [] { UnderIs(i, ps[1..]); }
  }

  lemma {:induction false} UnderIncreasing(i: nat, ps: seq<seq<nat>>)
    requires Increasing(ps)
    ensures Increasing(Under(i, ps))
  {
    UnderIs(i, ps);
    forall j, k | 0 <= j < k < |ps|
      ensures LexLess(Under(i, ps)[j], Under(i, ps)[k])
    {
      assert ([i] + ps[j])[1..] == ps[j] && ([i] + ps[k])[1..] == ps[k];
    }
  }

  lemma {:induction false} PreorderKidsIncreasing(t: Tree, i: nat)
    requires i <= |t.kids|
    ensures Increasing(PreorderKids(t, i))
    ensures forall p :: p in PreorderKids(t, i) ==> p != [] && i <= p[0]
    decreases t, 0, |t.kids| - i
  {
    if i < |t.kids| {
      PreorderIncreasing(t.kids[i]);
      UnderIncreasing(i, Preorder(t.kids[i]));
      UnderIs(i, Preorder(t.kids[i]));
      PreorderKidsIncreasing(t, i + 1);
      var here, later := Under(i, Preorder(t.kids[i])), PreorderKids(t, i + 1);
      assert PreorderKids(t, i) == here + later;
      forall j, k | 0 <= j < k < |here + later|
        ensures LexLess((here + later)[j], (here + later)[k])
      {
        if j < |here| <= k {
          assert later[k - |here|] in later;
        }
      }
    }
  }

  lemma {:induction false} PreorderIncreasing(t: Tree)
    ensures Increasing(Preorder(t))
    decreases t, 1
  {
    PreorderKidsIncreasing(t, 0);
  }

  lemma {:induction false} PreorderKidsLists(t: Tree, i: nat, p: seq<nat>)
    requires i <= |t.kids|
    ensures p in PreorderKids(t, i) <==> p != [] && i <= p[0] && InTree(t, p)
    decreases t, 0, |t.kids| - i
  {
    if i < |t.kids| {
      PreorderKidsLists(t, i + 1, p);
      var kid := Preorder(t.kids[i]);
      UnderIs(i, kid);
      if p != [] && p[0] == i {
        PreorderLists(t.kids[i], p[1..]);
        if p[1..] in kid {
          var k :| 0 <= k < |kid| && kid[k] == p[1..];
          assert Under(i, kid)[k] == p;
        }
        if p in Under(i, kid) {
          var k :| 0 <= k < |kid| && Under(i, kid)[k] == p;
          assert p[1..] == kid[k];
        }
      }
    }
  }

  /** The listing holds exactly the nodes of the tree. */
  lemma {:induction false} PreorderLists(t: Tree, p: seq<nat>)
    ensures p in Preorder(t) <==> InTree(t, p)
    decreases t, 1
  {
    PreorderKidsLists(t, 0, p);
  }

  lemma BeforeIsLex(t: Tree, p: seq<nat>, q: seq<nat>)
    requires InTree(t, p) && InTree(t, q)
    ensures Before(t, p, q) <==> LexLess(p, q)
  {
    PreorderIncreasing(t);
    PreorderLists(t, p);
    PreorderLists(t, q);
    var i :| 0 <= i < |Preorder(t)| && Preorder(t)[i] == p;
    var j :| 0 <= j < |Preorder(t)| && Preorder(t)[j] == q;
    if LexLess(p, q) {
      LexIrreflexive(p);
      LexAsymmetric(p, q);
      assert i < j;
    }
  }

  /** Document order is a strict total order on the nodes of a tree. */
  lemma BeforeIsStrictTotal(t: Tree, p: seq<nat>, q: seq<nat>, r: seq<nat>)
    requires InTree(t, p) && InTree(t, q) && InTree(t, r)
    ensures !Before(t, p, p)
    ensures p != q ==> (Before(t, p, q) <==> !Before(t, q, p))
    ensures Before(t, p, q) && Before(t, q, r) ==> Before(t, p, r)
  {
    BeforeIsLex(t, p, p);
    BeforeIsLex(t, p, q);
    BeforeIsLex(t, q, p);
    BeforeIsLex(t, q, r);
    BeforeIsLex(t, p, r);
    LexIrreflexive(p);
    LexTotal(p, q);
    if LexLess(p, q) { LexAsymmetric(p, q); }
    if LexLess(p, q) && LexLess(q, r) { LexTransitive(p, q, r); }
  }

  /** Paths that agree up to k and then branch are ordered by the branch. */
  lemma {:induction false} LexAtBranch(p: seq<nat>, q: seq<nat>, k: nat)
    requires k <= |p| && k <= |q| && p[..k] == q[..k] && p != q
    requires k < |p| && k < |q| ==> p[k] != q[k]
    requires k < |p| || k < |q|
    ensures LexLess(p, q) <==> k < |q| && (k == |p| || p[k] < q[k])
  {
    if k > 0 {
      assert p[0] == p[..k][0] && q[0] == q[..k][0];
      assert p[1..][..k - 1] == p[..k][1..] && q[1..][..k - 1] == q[..k][1..];
      assert p == [p[0]] + p[1..] && q == [q[0]] + q[1..];
      LexAtBranch(p[1..], q[1..], k - 1);
    }
  }

  // ---------- the comparator ----------

  const MAX_NEGATIVE := -0x8000_0000

  /** ~n.sourceIndex || MAX_NEGATIVE, where a missing property reads as undefined. */
  function SourceKey(dom: Dom, n: Node): int {
    var tilde := if n in dom.sourceIndex then -dom.sourceIndex[n] - 1 else -1;
    if tilde == 0 then MAX_NEGATIVE else tilde
  }

  /** The key falls as the index grows; a missing index counts as zero, and minus one as the largest
      number of 32 bits. */
  lemma SourceKeyFalls(dom: Dom, x: Node, y: Node)
    ensures x !in dom.sourceIndex ==> SourceKey(dom, x) == -1
    ensures x in dom.sourceIndex && dom.sourceIndex[x] == -1 ==> SourceKey(dom, x) == -2147483648
    ensures x in dom.sourceIndex && y in dom.sourceIndex && dom.sourceIndex[x] != -1 && dom.sourceIndex[y] != -1 ==>
      SourceKey(dom, y) - SourceKey(dom, x) == dom.sourceIndex[x] - dom.sourceIndex[y]
    ensures x in dom.sourceIndex && dom.sourceIndex[x] == 0 ==> SourceKey(dom, x) == -1
  {
  }

  /** The indices decide between two siblings that are elements, unless they are as good as equal. */
  predicate ByIndex(dom: Dom, x: Node, y: Node)
    requires InDom(dom, x) && InDom(dom, y)
  {
    NodeType(dom, x) == 1 && NodeType(dom, y) == 1 && SourceKey(dom, x) != SourceKey(dom, y)
  }

  /** Where the indices of two siblings decide, they say what the positions say. */
  predicate IndexInOrder(dom: Dom, x: Node, y: Node)
    requires InDom(dom, x) && InDom(dom, y) && x.path != [] && y.path != []
  {
    ByIndex(dom, x, y) ==> (SourceKey(dom, y) < SourceKey(dom, x) <==> Last(x) < Last(y))
  }

  ghost predicate IndicesInOrder(dom: Dom) {
    forall x: Node, k: nat {:trigger Sibling(x, k)} ::
      x.path != [] && InDom(dom, x) && InDom(dom, Sibling(x, k)) && k != Last(x) ==>
        IndexInOrder(dom, x, Sibling(x, k))
  }

  /** What browsers that have sourceIndex do: sibling elements have it or have it not, and are numbered
      in document order or, outside a document, not at all. */
  ghost predicate Numbered(dom: Dom) {
    forall x: Node, k: nat {:trigger Sibling(x, k)} :: x.path != [] && InDom(dom, x) && InDom(dom, Sibling(x, k)) ==>
      var y := Sibling(x, k);
      NodeType(dom, x) == 1 && NodeType(dom, y) == 1 ==>
        && (x in dom.sourceIndex <==> y in dom.sourceIndex)
        && (x in dom.sourceIndex && Last(x) < k ==>
            dom.sourceIndex[x] == dom.sourceIndex[y] == -1 || 0 <= dom.sourceIndex[x] < dom.sourceIndex[y])
  }

  lemma NumberedIsInOrder(dom: Dom)
    requires Numbered(dom)
    ensures IndicesInOrder(dom)
  {
    forall x: Node, k: nat {:trigger Sibling(x, k)} |
      x.path != [] && InDom(dom, x) && InDom(dom, Sibling(x, k)) && k != Last(x)
      ensures IndexInOrder(dom, x, Sibling(x, k))
    {
      var y := Sibling(x, k);
      SiblingInDom(dom, x, Last(x));
      assert Sibling(y, Last(x)) == x;
    }
  }

  /** Two siblings, or one node and none. */
  predicate SiblingPair(dom: Dom, a: Option<Node>, b: Option<Node>) {
    && (a.Some? || b.Some?)
    && (a.Some? ==> InDom(dom, a.value) && a.value.path != [])
    && (b.Some? ==> InDom(dom, b.value) && b.value.path != [])
    && (a.Some? && b.Some? ==> a != b && Parent(a.value) == Parent(b.value))
  }

  function SiblingOrder(dom: Dom, a: Option<Node>, b: Option<Node>): int
    requires SiblingPair(dom, a, b)
  {
    if a.None? then -1
    else if b.None? then 1
    else if ByIndex(dom, a.value, b.value) then SourceKey(dom, b.value) - SourceKey(dom, a.value)
    else if Last(a.value) < Last(b.value) then -1 else 1
  }

  predicate PairInOrder(dom: Dom, a: Option<Node>, b: Option<Node>)
    requires SiblingPair(dom, a, b)
  {
    a.Some? && b.Some? ==> IndexInOrder(dom, a.value, b.value)
  }

  method SiblingCheck(dom: Dom, a: Option<Node>, b: Option<Node>) returns (r: int)
    requires SiblingPair(dom, a, b)
    ensures r == SiblingOrder(dom, a, b) != 0
    ensures (r < 0 <==> a.None? || (b.Some? && Last(a.value) < Last(b.value))) <==> PairInOrder(dom, a, b)
  {
    if b.Some? && a.Some? {
      SiblingInDom(dom, a.value, Last(b.value));
      SiblingInDom(dom, b.value, Last(a.value));
      assert b.value == Sibling(a.value, Last(b.value)) && a.value == Sibling(b.value, Last(a.value));
      if NodeType(dom, a.value) == 1 && NodeType(dom, b.value) == 1 {
        var diff := SourceKey(dom, b.value) - SourceKey(dom, a.value);
        if diff != 0 {
          return diff;
        }
      }
      var cur := NextSibling(dom, a.value);
      ghost var k := Last(a.value) + 1;
      while cur.Some?
        invariant Last(a.value) < k && (Last(b.value) <= Last(a.value) || k <= Last(b.value))
        invariant cur == if k < Width(dom, a.value) then Some(Sibling(a.value, k)) else None
        decreases Width(dom, a.value) - k
      {
        if cur == b {
          return -1;
        }
        SiblingInDom(dom, a.value, k);
        cur := NextSibling(dom, cur.value);
        k := k + 1;
      }
    }
    return if a.Some? then 1 else -1;
  }

  function At(ns: seq<Node>, i: nat): Option<Node> {
    if i < |ns| then Some(ns[i]) else None
  }

  /** The list of ancestors of n, root first, n last. */
  method PathOf(dom: Dom, n: Node) returns (up: seq<Node>)
    requires InDom(dom, n)
    ensures |up| == |n.path| + 1
    ensures forall j :: 0 <= j < |up| ==> up[j] == Node(n.tree, n.path[..j]) && InDom(dom, up[j])
  {
    up := [n];
    var cur := Parent(n);
    ghost var k := |n.path|;
    while cur.Some?
      invariant 0 <= k <= |n.path| && |up| == |n.path| - k + 1
      invariant cur == if k == 0 then None else Some(Node(n.tree, n.path[..k - 1]))
      invariant forall j :: 0 <= j < |up| ==> up[j] == Node(n.tree, n.path[..k + j]) && InDom(dom, up[j])
      decreases k
    {
      PrefixInTree(dom.trees[n.tree], n.path, k - 1);
      assert k > 1 ==> n.path[..k - 1][..k - 2] == n.path[..k - 2];
      up := [cur.value] + up;
      cur := Parent(cur.value);
      k := k - 1;
    }
  }

  /** indexOf on the original input, which is an array of nodes. */
  function IndexOf(ns: seq<Node>, n: Node): int {
    if ns == [] then -1 else if ns[0] == n then 0
    else var r := IndexOf(ns[1..], n); if r == -1 then -1 else r + 1
  }

  /** The first place of a node, or minus one. */
  lemma {:induction false} IndexOfIsFirst(ns: seq<Node>, n: Node)
    ensures n !in ns <==> IndexOf(ns, n) == -1
    ensures n in ns ==> 0 <= IndexOf(ns, n) < |ns| && ns[IndexOf(ns, n)] == n && n !in ns[..IndexOf(ns, n)]
  {
    if ns != [] && ns[0] != n {
      IndexOfIsFirst(ns[1..], n);
      var r := IndexOf(ns[1..], n);
      if r != -1 {
        assert ns[..r + 1] == [ns[0]] + ns[1..][..r];
      }
    }
  }

  /** The ancestor of n that has k + 1 ancestors, or undefined below n. */
  function Level(n: Node, k: nat): Option<Node> {
    if k < |n.path| then Some(Node(n.tree, n.path[..k + 1])) else None
  }

  /** Below the last common ancestor, two ancestors are siblings, or one is missing; their order
      is the order of the nodes. */
  lemma BranchIsOrder(dom: Dom, a: Node, b: Node, k: nat)
    requires InDom(dom, a) && InDom(dom, b) && a != b && a.tree == b.tree
    requires k <= |a.path| && k <= |b.path| && a.path[..k] == b.path[..k]
    requires Level(a, k) != Level(b, k)
    ensures Level(a, k).Some? ==> InDom(dom, Level(a, k).value)
    ensures Level(b, k).Some? ==> InDom(dom, Level(b, k).value)
    ensures Level(a, k).Some? && Level(b, k).Some? ==> Parent(Level(a, k).value) == Parent(Level(b, k).value)
    ensures Before(dom.trees[a.tree], a.path, b.path) <==>
            Level(a, k).None? || (Level(b, k).Some? && Last(Level(a, k).value) < Last(Level(b, k).value))
  {
    if k < |a.path| {
      PrefixInTree(dom.trees[a.tree], a.path, k + 1);
      assert a.path[..k + 1] == a.path[..k] + [a.path[k]] && a.path[..k + 1][..k] == a.path[..k];
    }
    if k < |b.path| {
      PrefixInTree(dom.trees[b.tree], b.path, k + 1);
      assert b.path[..k + 1] == b.path[..k] + [b.path[k]] && b.path[..k + 1][..k] == b.path[..k];
    }
    BeforeIsLex(dom.trees[a.tree], a.path, b.path);
    LexAtBranch(a.path, b.path, k);
  }

  lemma RootIsFirst(dom: Dom, a: Node, b: Node)
    requires InDom(dom, a) && InDom(dom, b) && a != b && a.tree == b.tree && (a.path == [] || b.path == [])
    ensures Before(dom.trees[a.tree], a.path, b.path) <==> a.path == []
    ensures Before(dom.trees[a.tree], b.path, a.path) <==> b.path == []
  {
    BeforeIsLex(dom.trees[a.tree], a.path, b.path);
    BeforeIsLex(dom.trees[a.tree], b.path, a.path);
  }

  /** How far two paths agree. */
  function Shared(p: seq<nat>, q: seq<nat>): (k: nat)
    ensures k <= |p| && k <= |q| && p[..k] == q[..k]
    ensures k < |p| && k < |q| ==> p[k] != q[k]
    ensures p != q ==> k < |p| || k < |q|
  {
    if p == [] || q == [] || p[0] != q[0] then 0
    else
      var k := Shared(p[1..], q[1..]);
      assert p[..k + 1] == [p[0]] + p[1..][..k] && q[..k + 1] == [q[0]] + q[1..][..k];
      assert p == [p[0]] + p[1..] && q == [q[0]] + q[1..];
      k + 1
  }

  lemma {:induction false} SharedIs(p: seq<nat>, q: seq<nat>, k: nat)
    requires k <= |p| && k <= |q| && p[..k] == q[..k]
    requires k < |p| && k < |q| ==> p[k] != q[k]
    ensures Shared(p, q) == k
  {
    if k > 0 {
      assert p[0] == p[..k][0] && q[0] == q[..k][0];
      assert p[1..][..k - 1] == p[..k][1..] && q[1..][..k - 1] == q[..k][1..];
      SharedIs(p[1..], q[1..], k - 1);
    }
  }

  /** The first level at which the ancestors differ. */
  lemma FirstDifference(a: Node, b: Node, k: nat)
    requires a.tree == b.tree && k <= |a.path| && k <= |b.path| && a.path[..k] == b.path[..k]
    requires Level(a, k) != Level(b, k)
    ensures Shared(a.path, b.path) == k
  {
    if k < |a.path| && k < |b.path| {
      assert a.path[..k + 1] == a.path[..k] + [a.path[k]] && b.path[..k + 1] == b.path[..k] + [b.path[k]];
    }
    SharedIs(a.path, b.path, k);
  }

  lemma BranchPair(dom: Dom, a: Node, b: Node)
    requires InDom(dom, a) && InDom(dom, b) && a != b && a.tree == b.tree
    ensures var k := Shared(a.path, b.path);
            && SiblingPair(dom, Level(a, k), Level(b, k))
            && (Before(dom.trees[a.tree], a.path, b.path) <==>
                Level(a, k).None? || (Level(b, k).Some? && Last(Level(a, k).value) < Last(Level(b, k).value)))
  {
    var k := Shared(a.path, b.path);
    assert k < |a.path| ==> a.path[..k + 1][k] == a.path[k];
    assert k < |b.path| ==> b.path[..k + 1][k] == b.path[k];
    assert Level(a, k) != Level(b, k);
    BranchIsOrder(dom, a, b, k);
  }

  /** Whether the indices, where they decide, say what the positions say. */
  predicate BranchInOrder(dom: Dom, a: Node, b: Node)
    requires InDom(dom, a) && InDom(dom, b) && a != b && a.tree == b.tree
  {
    BranchPair(dom, a, b);
    var k := Shared(a.path, b.path);
    PairInOrder(dom, Level(a, k), Level(b, k))
  }

  /** What the comparator reports. */
  function Compare(dom: Dom, a: Node, b: Node): int
    requires InDom(dom, a) && InDom(dom, b)
  {
    if a == b then 0
    else if a.path == [] || b.path == [] then RootOrder(dom, a, b)
    else if a.tree == b.tree then
      BranchPair(dom, a, b);
      var k := Shared(a.path, b.path);
      SiblingOrder(dom, Level(a, k), Level(b, k))
    else if Node(a.tree, []) == dom.preferredDoc then -1
    else if Node(b.tree, []) == dom.preferredDoc then 1
    else 0
  }

  /** The order of two nodes of which one is a root. */
  function RootOrder(dom: Dom, a: Node, b: Node): int {
    if a == dom.doc || b == dom.doc then if a == dom.doc then -1 else 1
    else if a.path != [] || b.path != [] then if b.path == [] then -1 else 1
    else match dom.sortInput
      case None => 0
      case Some(input) => IndexOf(input, a) - IndexOf(input, b)
  }

  /** One of the two is the root of their tree, and that root is not the document. */
  predicate RootPair(dom: Dom, a: Node, b: Node) {
    (a.path == [] || b.path == []) && Node(a.tree, []) != dom.doc
  }

  lemma Siblings(a: Node, b: Node)
    requires a.path != [] && b.path != [] && a != b && Parent(a) == Parent(b)
    ensures a.tree == b.tree && Shared(a.path, b.path) == |a.path| - 1 == |b.path| - 1
    ensures Level(a, |a.path| - 1) == Some(a) && Level(b, |b.path| - 1) == Some(b)
  {
    var k := |a.path| - 1;
    assert |a.path[..k]| == |b.path[..|b.path| - 1]|;
    assert a.path[..k + 1] == a.path && b.path[..k + 1] == b.path;
    FirstDifference(a, b, k);
  }

  /** Two nodes of one tree are reported in document order if and only if the indices, where they
      decide, agree with the positions; a root that is not the document and a node below it are
      reported the wrong way round. */
  lemma CompareConnected(dom: Dom, a: Node, b: Node)
    requires InDom(dom, a) && InDom(dom, b) && a != b && a.tree == b.tree && dom.doc.path == []
    ensures var r := Compare(dom, a, b);
            && r != 0
            && (if RootPair(dom, a, b) then r < 0 <==> Before(dom.trees[a.tree], b.path, a.path)
                else (r < 0 <==> Before(dom.trees[a.tree], a.path, b.path)) <==> BranchInOrder(dom, a, b))
  {
    BranchPair(dom, a, b);
    if a.path == [] || b.path == [] {
      RootIsFirst(dom, a, b);
    }
  }

  /** The comparator agrees with document order on all connected pairs but the root pairs if and only
      if the indices of sibling elements are in order. */
  lemma AgreesIffInOrder(dom: Dom)
    requires dom.doc.path == []
    ensures IndicesInOrder(dom) <==>
      forall a, b :: InDom(dom, a) && InDom(dom, b) && a != b && a.tree == b.tree && !RootPair(dom, a, b) ==>
        (Compare(dom, a, b) < 0 <==> Before(dom.trees[a.tree], a.path, b.path))
  {
    if IndicesInOrder(dom) {
      forall a, b | InDom(dom, a) && InDom(dom, b) && a != b && a.tree == b.tree && !RootPair(dom, a, b)
        ensures Compare(dom, a, b) < 0 <==> Before(dom.trees[a.tree], a.path, b.path)
      {
        CompareConnected(dom, a, b);
        InOrderBranches(dom, a, b);
      }
    } else {
      var x: Node, k: nat :|
        x.path != [] && InDom(dom, x) && InDom(dom, Sibling(x, k)) && k != Last(x) &&
        !IndexInOrder(dom, x, Sibling(x, k));
      var y := Sibling(x, k);
      assert Parent(y) == Parent(x);
      Siblings(x, y);
      CompareConnected(dom, x, y);
      assert !BranchInOrder(dom, x, y);
    }
  }

  lemma InOrderBranches(dom: Dom, a: Node, b: Node)
    requires InDom(dom, a) && InDom(dom, b) && a != b && a.tree == b.tree && IndicesInOrder(dom)
    ensures BranchInOrder(dom, a, b)
  {
    BranchPair(dom, a, b);
    var k := Shared(a.path, b.path);
    var x, y := Level(a, k), Level(b, k);
    if x.Some? && y.Some? {
      SiblingInDom(dom, y.value, Last(y.value));
      assert y.value == Sibling(x.value, Last(y.value));
    }
  }

  // ---------- whether it can be sorted with ----------

  /** What sorting asks of a comparator on these nodes: that it is a total preorder. */
  ghost predicate Consistent(dom: Dom, s: set<Node>)
    requires forall x :: x in s ==> InDom(dom, x)
  {
    && (forall a, b :: a in s && b in s ==> (Compare(dom, a, b) < 0 <==> Compare(dom, b, a) > 0))
    && (forall a, b, c :: a in s && b in s && c in s && Compare(dom, a, b) <= 0 && Compare(dom, b, c) <= 0 ==>
          Compare(dom, a, c) <= 0)
  }

  /** Below a root that is not the preferred document. */
  predicate Loose(dom: Dom, x: Node) {
    x.path != [] && Node(x.tree, []) != dom.preferredDoc
  }

  /** Two loose nodes of one tree, and one of another: the pair is ordered, but both come out equal to
      the third. */
  predicate Clash(dom: Dom, u: Node, v: Node, w: Node) {
    Loose(dom, u) && Loose(dom, v) && Loose(dom, w) && u != v && u.tree == v.tree && w.tree != u.tree
  }

  /** The document, what is below the preferred document, the loose nodes, the other roots. */
  function Rank(dom: Dom, x: Node): nat {
    if x == dom.doc then 0 else if x.path == [] then 3 else if Loose(dom, x) then 2 else 1
  }

  function InputIndex(dom: Dom, x: Node): int {
    match dom.sortInput
    case None => 0
    case Some(input) => IndexOf(input, x)
  }

  lemma CompareByRank(dom: Dom, a: Node, b: Node)
    requires InDom(dom, a) && InDom(dom, b) && dom.doc.path == [] && dom.preferredDoc.path == []
    requires IndicesInOrder(dom)
    ensures Rank(dom, a) < Rank(dom, b) ==> Compare(dom, a, b) < 0
    ensures Rank(dom, a) > Rank(dom, b) ==> Compare(dom, a, b) > 0
    ensures Rank(dom, a) == Rank(dom, b) == 3 ==>
      Compare(dom, a, b) == InputIndex(dom, a) - InputIndex(dom, b)
    ensures 1 <= Rank(dom, a) == Rank(dom, b) <= 2 && a.tree != b.tree ==> Rank(dom, a) == 2 && Compare(dom, a, b) == 0
    ensures 1 <= Rank(dom, a) == Rank(dom, b) <= 2 && a.tree == b.tree ==>
      && (Compare(dom, a, b) < 0 <==> LexLess(a.path, b.path))
      && (Compare(dom, a, b) > 0 <==> LexLess(b.path, a.path))
  {
    if a.path != [] && b.path != [] && a.tree == b.tree {
      LexIrreflexive(a.path);
      if a != b {
        CompareConnected(dom, a, b);
        InOrderBranches(dom, a, b);
        BeforeIsLex(dom.trees[a.tree], a.path, b.path);
        LexTotal(a.path, b.path);
        if LexLess(a.path, b.path) { LexAsymmetric(a.path, b.path); }
      }
    }
  }

  lemma CompareReversed(dom: Dom, a: Node, b: Node)
    requires InDom(dom, a) && InDom(dom, b) && dom.doc.path == [] && dom.preferredDoc.path == []
    requires IndicesInOrder(dom)
    ensures Compare(dom, a, b) < 0 <==> Compare(dom, b, a) > 0
  {
    CompareByRank(dom, a, b);
    CompareByRank(dom, b, a);
  }

  lemma CompareTransitive(dom: Dom, a: Node, b: Node, c: Node)
    requires InDom(dom, a) && InDom(dom, b) && InDom(dom, c) && dom.doc.path == [] && dom.preferredDoc.path == []
    requires IndicesInOrder(dom) && !Clash(dom, a, b, c) && !Clash(dom, b, c, a) && !Clash(dom, a, c, b)
    requires Compare(dom, a, b) <= 0 && Compare(dom, b, c) <= 0
    ensures Compare(dom, a, c) <= 0
  {
    CompareByRank(dom, a, b);
    CompareByRank(dom, b, c);
    CompareByRank(dom, a, c);
    if a.tree == b.tree == c.tree && Rank(dom, a) == Rank(dom, b) == Rank(dom, c) && 1 <= Rank(dom, a) <= 2 {
      LexTotal(b.path, a.path);
      LexTotal(c.path, b.path);
      if LexLess(c.path, a.path) {
        LexAsymmetric(c.path, a.path);
        if LexLess(a.path, b.path) { LexTransitive(c.path, a.path, b.path); }
      }
    }
  }

  lemma ClashIsInconsistent(dom: Dom, s: set<Node>, u: Node, v: Node, w: Node)
    requires dom.doc.path == [] && dom.preferredDoc.path == []
    requires forall x :: x in s ==> InDom(dom, x)
    requires u in s && v in s && w in s && Clash(dom, u, v, w)
    ensures !Consistent(dom, s)
  {
    CompareConnected(dom, u, v);
    CompareConnected(dom, v, u);
    assert Compare(dom, u, w) == Compare(dom, w, v) == Compare(dom, v, w) == Compare(dom, w, u) == 0;
  }

  /** With the indices in order, the comparator can be used to sort a set of nodes if and only if no
      two of them are in one detached tree, or other document, while a third is in another, all of them
      below its root. */
  lemma SortableIff(dom: Dom, s: set<Node>)
    requires dom.doc.path == [] && dom.preferredDoc.path == [] && IndicesInOrder(dom)
    requires forall x :: x in s ==> InDom(dom, x)
    ensures Consistent(dom, s) <==> !exists u, v, w :: u in s && v in s && w in s && Clash(dom, u, v, w)
  {
    if exists u, v, w :: u in s && v in s && w in s && Clash(dom, u, v, w) {
      var u, v, w :| u in s && v in s && w in s && Clash(dom, u, v, w);
      ClashIsInconsistent(dom, s, u, v, w);
    } else {
      forall a, b | a in s && b in s
        ensures Compare(dom, a, b) < 0 <==> Compare(dom, b, a) > 0
      {
        CompareReversed(dom, a, b);
      }
      forall a, b, c | a in s && b in s && c in s && Compare(dom, a, b) <= 0 && Compare(dom, b, c) <= 0
        ensures Compare(dom, a, c) <= 0
      {
        CompareTransitive(dom, a, b, c);
      }
    }
  }

  /** Two children of one detached element and a child of another cannot be sorted. */
  lemma NotSortable()
    ensures var kid := Tree(1, []);
            var dom := Dom([Tree(9, []), Tree(1, [kid, kid]), Tree(1, [kid])], Node(0, []), Node(0, []), map[], None);
            var s := {Node(1, [0]), Node(1, [1]), Node(2, [0])};
            (forall x :: x in s ==> InDom(dom, x)) && !Consistent(dom, s)
  {
    var kid := Tree(1, []);
    var dom := Dom([Tree(9, []), Tree(1, [kid, kid]), Tree(1, [kid])], Node(0, []), Node(0, []), map[], None);
    assert [0][1..] == [1][1..] == [];
    assert InTree(dom.trees[1], [0]) && InTree(dom.trees[1], [1]) && InTree(dom.trees[2], [0]);
    var s := {Node(1, [0]), Node(1, [1]), Node(2, [0])};
    ClashIsInconsistent(dom, s, Node(1, [0]), Node(1, [1]), Node(2, [0]));
  }

  // ---------- the comparator's code ----------

  /** The full lists of ancestors, walked down to the first difference. */
  method CompareLists(dom: Dom, a: Node, b: Node) returns (r: int)
    requires InDom(dom, a) && InDom(dom, b) && a != b && a.path != [] && b.path != []
    requires dom.preferredDoc.path == []
    ensures r == Compare(dom, a, b)
  {
    var ap := PathOf(dom, a);
    var bp := PathOf(dom, b);
    var i := 0;
    while At(ap, i) == At(bp, i)
      invariant 0 <= i <= |ap| && i <= |bp|
      invariant i > 0 ==> a.tree == b.tree && a.path[..i - 1] == b.path[..i - 1]
      decreases |ap| - i
    {
      assert a.path[..|a.path|] == a.path && b.path[..|b.path|] == b.path;
      i := i + 1;
    }
    if i > 0 {
      FirstDifference(a, b, i - 1);
      BranchPair(dom, a, b);
      r := SiblingCheck(dom, At(ap, i), At(bp, i));
    } else {
      r := if At(ap, i) == Some(dom.preferredDoc) then -1
           else if At(bp, i) == Some(dom.preferredDoc) then 1
           else 0;
    }
  }

  /** The comparator reports document order, except where the indices say otherwise and for one family
      of pairs: a parentless node that is not the document comes after its own descendants.  Among
      nodes of different trees, the document comes first, nodes below a root come before roots, roots
      come in the order of the input, and otherwise nodes of the preferred document come first. */
  method SortOrder(dom: Dom, a: Node, b: Node) returns (r: int, hasDuplicate: bool)
    requires InDom(dom, a) && InDom(dom, b)
    requires dom.doc.path == [] && dom.preferredDoc.path == []
    ensures r == Compare(dom, a, b)
    ensures hasDuplicate <==> a == b
    ensures a == b ==> r == 0
    ensures a != b && a.tree == b.tree && !RootPair(dom, a, b) ==>
              r != 0 && ((r < 0 <==> Before(dom.trees[a.tree], a.path, b.path)) <==> BranchInOrder(dom, a, b))
    ensures a != b && a.tree == b.tree && RootPair(dom, a, b) ==>
              r != 0 && (r < 0 <==> Before(dom.trees[a.tree], b.path, a.path))
    ensures a.tree != b.tree && a.path != [] && b.path != [] ==>
              r == if Node(a.tree, []) == dom.preferredDoc then -1
                   else if Node(b.tree, []) == dom.preferredDoc then 1 else 0
    ensures a.tree != b.tree && (a.path == [] || b.path == []) ==> r == RootOrder(dom, a, b)
  {
    if a != b && a.tree == b.tree { CompareConnected(dom, a, b); }
    if a == b {
      return 0, true;
    }
    hasDuplicate := false;
    var aup, bup := Parent(a), Parent(b);
    if aup.None? || bup.None? {
      r := if a == dom.doc then -1
           else if b == dom.doc then 1
           else if aup.Some? then -1
           else if bup.Some? then 1
           else if dom.sortInput.Some? then IndexOf(dom.sortInput.value, a) - IndexOf(dom.sortInput.value, b)
           else 0;
      return;
    } else if aup == bup {
      Siblings(a, b);
      BranchPair(dom, a, b);
      r := SiblingCheck(dom, Some(a), Some(b));
      return;
    }
    r := CompareLists(dom, a, b);
  }

  /** A detached element and its child: the child is reported to come first. */
  method DetachedRoot() returns (dom: Dom, r: int)
    ensures InDom(dom, Node(1, [])) && InDom(dom, Node(1, [0])) && IndicesInOrder(dom)
    ensures Before(dom.trees[1], [], [0]) && r > 0
  {
    var child := Tree(1, []);
    dom := Dom([Tree(9, []), Tree(1, [child])], Node(0, []), Node(0, []), map[], None);
    assert [0][1..] == [];
    RootIsFirst(dom, Node(1, []), Node(1, [0]));
    var hasDuplicate;
    r, hasDuplicate := SortOrder(dom, Node(1, []), Node(1, [0]));
  }
}
