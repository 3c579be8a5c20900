/** Sizzle's memoised combinator walk (addCombinator and elementMatcher).

    A combinator such as the descendant combinator asks whether some node further
    along a direction satisfies an inner matcher.  Its answer is remembered in cells
    that every node of one walk shares; a node has one slot per direction, and all
    combinators of all selectors write to that same slot.  The module shows that,
    whatever was stored before, a query returns what the walk without a cache would. */
module CombinatorCache {
  import opened Common

  datatype Dir = ParentNode | PreviousSibling

  /** The array [dirruns, doneName, verdict] that a walk leaves behind. */
  class Cell {
    const run: real
    const owner: nat
    var verdict: Option<bool>

    constructor (run: real, owner: nat)
      ensures this.run == run && this.owner == owner && verdict == None
    {
      this.run, this.owner, verdict := run, owner, None;
    }
  }

  class Node {
    const nodeType: int
    const parentNode: Node?
    const previousSibling: Node?
    /** A position in document order: parents and earlier siblings come first. */
    ghost const position: nat
    /** The expando object: one slot per direction. */
    var outerCache: map<Dir, Cell>

    constructor (nodeType: int, parentNode: Node?, previousSibling: Node?, ghost position: nat)
      ensures this.nodeType == nodeType && this.parentNode == parentNode
      ensures this.previousSibling == previousSibling && this.position == position
      ensures outerCache == map[]
    {
      this.nodeType, this.parentNode, this.previousSibling := nodeType, parentNode, previousSibling;
      this.position := position;
      outerCache := map[];
    }

    function Next(dir: Dir): Node? {
      match dir
      case ParentNode => parentNode
      case PreviousSibling => previousSibling
    }
  }

  /** What a compiled selector is made of: stateless tests on one node, conjunctions
      (elementMatcher) and combinators, each with its own done name. */
  datatype Matcher =
    | Test(holds: Node -> bool)
    | All(matchers: seq<Matcher>)
    | Comb(doneName: nat, dir: Dir, first: bool, base: bool, inner: Matcher)

  datatype Query = Query(matcher: Matcher, elem: Node, xml: bool)

  /** Only elements count, unless the combinator is the base one of a parent walk. */
  predicate CheckNonElements(c: Matcher)
    requires c.Comb?
  {
    c.base && c.dir == ParentNode
  }

  predicate Eligible(n: Node, nonElements: bool) {
    n.nodeType == 1 || nonElements
  }

  /** A set of nodes closed under both directions, numbered in document order. */
  ghost predicate Closed(nodes: set<Node>) {
    forall n: Node, d: Dir {:trigger n.Next(d)} :: n in nodes && n.Next(d) != null ==>
      n.Next(d) in nodes && n.Next(d).position < n.position
  }

  /** The nodes that a walk starting at n (inclusive) looks at, nearest first. */
  ghost function Chain(n: Node?, dir: Dir, nonElements: bool, nodes: set<Node>): (c: seq<Node>)
    requires Closed(nodes) && (n == null || n in nodes)
    ensures forall x :: x in c ==> x in nodes
    decreases if n == null then 0 else n.position + 1
  {
    if n == null then []
    else (if Eligible(n, nonElements) then [n] else []) + Chain(n.Next(dir), dir, nonElements, nodes)
  }

  /** The node k steps along a direction, if there is one. */
  ghost function Along(n: Node?, dir: Dir, k: nat): Node? {
    if n == null || k == 0 then n else Along(n.Next(dir), dir, k - 1)
  }

  ghost predicate Reachable(n: Node?, dir: Dir, x: Node) {
    exists k: nat :: Along(n, dir, k) == x
  }

  /** The chain lists exactly the eligible nodes some number of steps away. */
  lemma {:induction false} ChainIsAlong(n: Node?, dir: Dir, nonElements: bool, nodes: set<Node>, x: Node)
    requires Closed(nodes) && (n == null || n in nodes)
    ensures x in Chain(n, dir, nonElements, nodes) <==> Eligible(x, nonElements) && Reachable(n, dir, x)
    decreases if n == null then 0 else n.position + 1
  {
    if n == null {
      assert forall k: nat :: Along(n, dir, k) == null;
    } else {
      ChainIsAlong(n.Next(dir), dir, nonElements, nodes, x);
      assert Along(n, dir, 0) == n;
      if Reachable(n, dir, x) && x != n {
        var k: nat :| Along(n, dir, k) == x;
        assert Along(n.Next(dir), dir, k - 1) == x;
      }
      if Reachable(n.Next(dir), dir, x) {
        var k: nat :| Along(n.Next(dir), dir, k) == x;
        assert Along(n, dir, k + 1) == x;
      }
    }
  }

  /** The meaning of a matcher: no cache, no order of evaluation. */
  ghost predicate Sat(m: Matcher, n: Node, nodes: set<Node>)
    requires Closed(nodes) && n in nodes
    decreases m
  {
    match m
    case Test(holds) => holds(n)
    case All(ms) => forall i :: 0 <= i < |ms| ==> Sat(ms[i], n, nodes)
    case Comb(_, dir, first, _, inner) =>
      var c := Chain(n.Next(dir), dir, CheckNonElements(m), nodes);
      if first then c != [] && Sat(inner, c[0], nodes)
      else exists x :: x in c && Sat(inner, x, nodes)
  }

  // ---------- what a combinator asks, step by step ----------

  lemma {:induction false} AlongNull(dir: Dir, k: nat)
    ensures Along(null, dir, k) == null
  {
  }

  /** Each step along a direction follows the pointer of that name. */
  lemma {:induction false} AlongSteps(n: Node, dir: Dir, k: nat)
    ensures Along(n, dir, 0) == n
    ensures Along(n, dir, k + 1) ==
      var x := Along(n, dir, k);
      if x == null then null else if dir == ParentNode then x.parentNode else x.previousSibling
    decreases k
  {
    var next := n.Next(dir);
    if next == null {
      AlongNull(dir, k);
    } else if k > 0 {
      AlongSteps(next, dir, k - 1);
    }
  }

  /** A node that counts is an element, or any node if the combinator is a base one that goes to the
      parent. */
  ghost predicate Counts(c: Matcher, x: Node?)
    requires c.Comb?
  {
    x != null && (x.nodeType == 1 || (c.base && c.dir == ParentNode))
  }

  ghost predicate CountsAndHolds(c: Matcher, x: Node?, nodes: set<Node>)
    requires c.Comb? && Closed(nodes)
  {
    Counts(c, x) && x in nodes && Sat(c.inner, x, nodes)
  }

  /** The first node of the chain is the nearest eligible one. */
  lemma {:induction false} FirstInChain(n: Node?, dir: Dir, nonElements: bool, nodes: set<Node>) returns (k: nat)
    requires Closed(nodes) && (n == null || n in nodes) && Chain(n, dir, nonElements, nodes) != []
    ensures Along(n, dir, k) == Chain(n, dir, nonElements, nodes)[0]
    ensures forall j: nat :: j < k ==> Along(n, dir, j) != null && !Eligible(Along(n, dir, j), nonElements)
    decreases if n == null then 0 else n.position + 1
  {
    if Eligible(n, nonElements) {
      k := 0;
    } else {
      var later := FirstInChain(n.Next(dir), dir, nonElements, nodes);
      k := later + 1;
      forall j: nat | j < k
        ensures Along(n, dir, j) != null && !Eligible(Along(n, dir, j), nonElements)
      {
        if j > 0 {
          assert Along(n, dir, j) == Along(n.Next(dir), dir, j - 1);
        }
      }
    }
  }

  lemma NextReaches(n: Node, dir: Dir, k: nat)
    requires k >= 1
    ensures Along(n, dir, k) == Along(n.Next(dir), dir, k - 1)
  {
  }

  lemma InChain(c: Matcher, n: Node, k: nat, nodes: set<Node>)
    requires c.Comb? && Closed(nodes) && n in nodes && k >= 1 && Counts(c, Along(n, c.dir, k))
    ensures Along(n, c.dir, k) in Chain(n.Next(c.dir), c.dir, CheckNonElements(c), nodes)
  {
    var x := Along(n, c.dir, k);
    NextReaches(n, c.dir, k);
    assert Reachable(n.Next(c.dir), c.dir, x);
    ChainIsAlong(n.Next(c.dir), c.dir, CheckNonElements(c), nodes, x);
  }

  /** A combinator that is not first holds if and only if some node one or more steps away counts and
      satisfies the inner matcher. */
  lemma SomeOneHolds(c: Matcher, n: Node, nodes: set<Node>)
    requires c.Comb? && !c.first && Closed(nodes) && n in nodes
    ensures Sat(c, n, nodes) <==> exists k: nat :: k >= 1 && CountsAndHolds(c, Along(n, c.dir, k), nodes)
  {
    var chain := Chain(n.Next(c.dir), c.dir, CheckNonElements(c), nodes);
    if Sat(c, n, nodes) {
      var x :| x in chain && Sat(c.inner, x, nodes);
      ChainIsAlong(n.Next(c.dir), c.dir, CheckNonElements(c), nodes, x);
      var k: nat :| Along(n.Next(c.dir), c.dir, k) == x;
      NextReaches(n, c.dir, k + 1);
      assert CountsAndHolds(c, Along(n, c.dir, k + 1), nodes);
    }
    if k: nat :| k >= 1 && CountsAndHolds(c, Along(n, c.dir, k), nodes) {
      InChain(c, n, k, nodes);
    }
  }

  /** The nearest node that counts is k steps away. */
  ghost predicate NearestCounts(c: Matcher, n: Node, k: nat)
    requires c.Comb?
  {
    k >= 1 && Counts(c, Along(n, c.dir, k)) && forall j :: 1 <= j < k ==> !Counts(c, Along(n, c.dir, j))
  }

  /** A first combinator holds if and only if there is a nearest node that counts, and it satisfies
      the inner matcher. */
  lemma NearestHolds(c: Matcher, n: Node, nodes: set<Node>)
    requires c.Comb? && c.first && Closed(nodes) && n in nodes
    ensures Sat(c, n, nodes) <==>
      exists k: nat :: NearestCounts(c, n, k) && CountsAndHolds(c, Along(n, c.dir, k), nodes)
  {
    var chain := Chain(n.Next(c.dir), c.dir, CheckNonElements(c), nodes);
    if chain != [] {
      var k := NearestOfChain(c, n, nodes);
      forall i: nat | NearestCounts(c, n, i)
        ensures i == k
      {
      }
      if Sat(c, n, nodes) {
        assert CountsAndHolds(c, Along(n, c.dir, k), nodes);
      }
    }
    if i: nat :| NearestCounts(c, n, i) && CountsAndHolds(c, Along(n, c.dir, i), nodes) {
      InChain(c, n, i, nodes);
    }
  }

  lemma NearestOfChain(c: Matcher, n: Node, nodes: set<Node>) returns (k: nat)
    requires c.Comb? && Closed(nodes) && n in nodes
    requires Chain(n.Next(c.dir), c.dir, CheckNonElements(c), nodes) != []
    ensures NearestCounts(c, n, k)
    ensures Along(n, c.dir, k) == Chain(n.Next(c.dir), c.dir, CheckNonElements(c), nodes)[0]
  {
    var chain := Chain(n.Next(c.dir), c.dir, CheckNonElements(c), nodes);
    var before := FirstInChain(n.Next(c.dir), c.dir, CheckNonElements(c), nodes);
    k := before + 1;
    ChainIsAlong(n.Next(c.dir), c.dir, CheckNonElements(c), nodes, chain[0]);
    NextReaches(n, c.dir, k);
    forall j | 1 <= j < k
      ensures !Counts(c, Along(n, c.dir, j))
    {
      NextReaches(n, c.dir, j);
    }
  }

  /** A conjunction holds if and only if each of its parts does. */
  lemma AllMeans(ms: seq<Matcher>, n: Node, nodes: set<Node>)
    requires Closed(nodes) && n in nodes
    ensures Sat(All(ms), n, nodes) <==> forall m :: m in ms ==> Sat(m, n, nodes)
  {
    forall i | 0 <= i < |ms|
      ensures ms[i] in ms
    {
    }
    if !Sat(All(ms), n, nodes) {
      var i :| 0 <= i < |ms| && !Sat(ms[i], n, nodes);
      assert ms[i] in ms;
    }
  }

  // ---------- what a cell remembers ----------

  /** Some eligible node at n or further along satisfies the inner matcher. */
  ghost predicate Reach(c: Matcher, n: Node?, nodes: set<Node>)
    requires c.Comb? && Closed(nodes) && (n == null || n in nodes)
  {
    exists x :: x in Chain(n, c.dir, CheckNonElements(c), nodes) && Sat(c.inner, x, nodes)
  }

  lemma ReachStep(c: Matcher, n: Node, nodes: set<Node>)
    requires c.Comb? && Closed(nodes) && n in nodes
    ensures Reach(c, n, nodes) ==
            ((Eligible(n, CheckNonElements(c)) && Sat(c.inner, n, nodes)) || Reach(c, n.Next(c.dir), nodes))
  {
    var here := Chain(n, c.dir, CheckNonElements(c), nodes);
    var rest := Chain(n.Next(c.dir), c.dir, CheckNonElements(c), nodes);
    assert here == (if Eligible(n, CheckNonElements(c)) then [n] else []) + rest;
    if Eligible(n, CheckNonElements(c)) && Sat(c.inner, n, nodes) {
      assert here[0] == n;
    }
  }

  /** Done names grow as selectors are compiled from the inside out. */
  ghost predicate Numbered(m: Matcher, bound: nat) {
    match m
    case Test(_) => true
    case All(ms) => forall i :: 0 <= i < |ms| ==> Numbered(ms[i], bound)
    case Comb(o, _, _, _, inner) => o < bound && Numbered(inner, o)
  }

  /** One done name belongs to one combinator. */
  ghost predicate Registered(m: Matcher, registry: map<nat, Matcher>) {
    match m
    case Test(_) => true
    case All(ms) => forall i :: 0 <= i < |ms| ==> Registered(ms[i], registry)
    case Comb(o, _, _, _, inner) => o in registry && registry[o] == m && Registered(inner, registry)
  }

  lemma {:induction false} NumberedLater(m: Matcher, low: nat, high: nat)
    requires Numbered(m, low) && low <= high
    ensures Numbered(m, high)
  {
    match m
    case Test(_) =>
    case All(ms) =>
      forall i | 0 <= i < |ms| ensures Numbered(ms[i], high) { NumberedLater(ms[i], low, high); }
    case Comb(_, _, _, _, _) =>
  }

  lemma {:induction false} RegisteredLater(m: Matcher, registry: map<nat, Matcher>, bound: nat, c: Matcher)
    requires Registered(m, registry) && Numbered(m, bound)
    ensures Registered(m, registry[bound := c])
    decreases m
  {
    match m
    case Test(_) =>
    case All(ms) =>
      forall i | 0 <= i < |ms| ensures Registered(ms[i], registry[bound := c]) {
        RegisteredLater(ms[i], registry, bound, c);
      }
    case Comb(o, _, _, _, inner) =>
      NumberedLater(inner, o, bound);
      RegisteredLater(inner, registry, bound, c);
  }

  class Engine {
    ghost const nodes: set<Node>
    /** The number of the query in progress. */
    var dirruns: real
    /** The next done name. */
    var done: nat
    ghost var registry: map<nat, Matcher>

    /** The expando name is the engine's own, so no node has a cell yet. */
    constructor (ghost nodes: set<Node>)
      requires Closed(nodes) && forall n :: n in nodes ==> n.outerCache == map[]
      ensures Valid() && Past() && this.nodes == nodes && done == 0
    {
      this.nodes := nodes;
      dirruns, done, registry := 0.0, 0, map[];
    }

    ghost predicate Valid()
      reads this
    {
      && Closed(nodes)
      && forall o :: o in registry ==> o < done && registry[o].Comb?
    }

    /** A cell of this run that sits in slot d of n holds the answer of its combinator
        for the chain that starts at n itself. */
    ghost predicate Right(cell: Cell, n: Node, d: Dir)
      requires Valid() && n in nodes
      reads this, cell
    {
      && cell.owner in registry
      && registry[cell.owner].dir == d
      && cell.verdict == Some(Reach(registry[cell.owner], n, nodes))
    }

    /** Every cell of this run whose owner is below the bound is right for each node
        that holds it.  Cells of other runs may hold anything. */
    ghost predicate Coherent(bound: nat)
      requires Valid()
      reads this, nodes, set n, d | n in nodes && d in n.outerCache :: n.outerCache[d]
    {
      forall n, d ::
        n in nodes && d in n.outerCache && n.outerCache[d].run == dirruns && n.outerCache[d].owner < bound ==>
        Right(n.outerCache[d], n, d)
    }

    /** What a query may do to the slots: leave them, or put new cells of its own there. */
    twostate predicate Touched(bound: nat)
      reads this, nodes
    {
      forall n, d :: n in nodes ==>
        || (d in n.outerCache && d in old(n.outerCache) && n.outerCache[d] == old(n.outerCache[d]))
        || (d !in n.outerCache && d !in old(n.outerCache))
        || (d in n.outerCache && fresh(n.outerCache[d])
            && n.outerCache[d].run == dirruns && n.outerCache[d].owner < bound)
    }

    /** Compiling a combinator around an already compiled matcher takes the next done name. */
    method AddCombinator(inner: Matcher, dir: Dir, first: bool, base: bool) returns (c: Matcher)
      requires Valid() && Numbered(inner, done) && Registered(inner, registry)
      modifies this
      ensures Valid() && done == old(done) + 1 && dirruns == old(dirruns)
      ensures c == Comb(old(done), dir, first, base, inner)
      ensures Numbered(c, done) && Registered(c, registry)
      ensures forall m: Matcher :: Numbered(m, old(done)) && Registered(m, old(registry)) ==>
                Numbered(m, done) && Registered(m, registry)
    {
      c := Comb(done, dir, first, base, inner);
      ghost var before := registry;
      ghost var name := done;
      registry := registry[done := c];
      done := done + 1;
      forall m: Matcher | Numbered(m, name) && Registered(m, before)
        ensures Numbered(m, done) && Registered(m, registry)
      {
        NumberedLater(m, name, done);
        RegisteredLater(m, before, name, c);
      }
    }

    /** No cell carries the number of a run to come. */
    ghost predicate Past()
      reads this, nodes
    {
      forall n, d :: n in nodes && d in n.outerCache ==> n.outerCache[d].run <= dirruns
    }

    /** An outermost matcher takes the next run number, which no cell carries yet. */
    method BeginRun()
      requires Valid() && Past()
      modifies this
      ensures Valid() && Past() && Coherent(done)
      ensures dirruns == old(dirruns) + 1.0 && done == old(done) && registry == old(registry)
    {
      dirruns := dirruns + 1.0;
    }

    /** Any sequence of queries of one run, by any compiled selectors in any order: each
        answer is the one the walk without cells gives. */
    method RunQueries(queries: seq<Query>) returns (answers: seq<bool>)
      requires Valid() && Past() && Coherent(done)
      requires forall q :: q in queries ==>
                 q.elem in nodes && Numbered(q.matcher, done) && Registered(q.matcher, registry)
      modifies nodes
      ensures Past() && Coherent(done)
      ensures |answers| == |queries|
      ensures forall i :: 0 <= i < |queries| ==> answers[i] == Sat(queries[i].matcher, queries[i].elem, nodes)
    {
      answers := [];
      for i := 0 to |queries|
        invariant |answers| == i && Past() && Coherent(done)
        invariant forall j :: 0 <= j < i ==> answers[j] == Sat(queries[j].matcher, queries[j].elem, nodes)
      {
        assert queries[i] in queries;
        var answer := Matches(queries[i].matcher, queries[i].elem, queries[i].xml, done);
        answers := answers + [answer];
      }
    }

    /** Any number of runs, one after the other, on nodes that keep the cells of all of them. */
    method RunSession(runs: seq<seq<Query>>) returns (answers: seq<seq<bool>>)
      requires Valid() && Past()
      requires forall queries, q :: queries in runs && q in queries ==>
                 q.elem in nodes && Numbered(q.matcher, done) && Registered(q.matcher, registry)
      modifies this, nodes
      ensures Valid() && Past()
      ensures |answers| == |runs|
      ensures forall k :: 0 <= k < |runs| ==> Answered(runs[k], answers[k])
    {
      answers := [];
      for k := 0 to |runs|
        invariant Valid() && Past() && |answers| == k
        invariant done == old(done) && registry == old(registry)
        invariant forall j :: 0 <= j < k ==> Answered(runs[j], answers[j])
      {
        BeginRun();
        assert runs[k] in runs;
        var batch := RunQueries(runs[k]);
        answers := answers + [batch];
      }
    }

    /** The answers of the walk without cells. */
    ghost predicate Answered(queries: seq<Query>, answers: seq<bool>)
      requires Closed(nodes)
    {
      && |answers| == |queries|
      && forall i :: 0 <= i < |queries| ==>
           queries[i].elem in nodes && answers[i] == Sat(queries[i].matcher, queries[i].elem, nodes)
    }

    /** Running a compiled matcher on a node. */
    method Matches(m: Matcher, elem: Node, xml: bool, ghost bound: nat) returns (r: bool)
      requires Valid() && elem in nodes
      requires Numbered(m, bound) && Registered(m, registry) && Coherent(bound)
      modifies nodes
      ensures r == Sat(m, elem, nodes)
      ensures Coherent(bound) && Touched(bound)
      decreases m, 4
    {
      match m
      case Test(holds) =>
        r := holds(elem);
      case All(ms) =>
        var i := |ms|;
        while i > 0
          invariant 0 <= i <= |ms|
          invariant forall j :: i <= j < |ms| ==> Sat(ms[j], elem, nodes)
          invariant Coherent(bound) && Touched(bound)
        {
          i := i - 1;
          var ok := Matches(ms[i], elem, xml, bound);
          if !ok {
            return false;
          }
        }
        r := true;
      case Comb(_, _, first, _, _) =>
        if first {
          r := CheckClosest(m, elem, xml, bound);
        } else if xml {
          r := WalkUncached(m, elem, bound);
        } else {
          r := WalkCached(m, elem, bound);
        }
    }

    /** The closest eligible node decides. */
    method CheckClosest(c: Matcher, start: Node, xml: bool, ghost bound: nat) returns (r: bool)
      requires Valid() && start in nodes && c.Comb? && c.first
      requires Numbered(c, bound) && Registered(c, registry) && Coherent(bound)
      modifies nodes
      ensures r == Sat(c, start, nodes)
      ensures Coherent(bound) && Touched(bound)
      decreases c, 3
    {
      var elem := start.Next(c.dir);
      while elem != null
        invariant elem == null || elem in nodes
        invariant Chain(elem, c.dir, CheckNonElements(c), nodes)
               == Chain(start.Next(c.dir), c.dir, CheckNonElements(c), nodes)
        invariant Coherent(bound) && Touched(bound)
        decreases if elem == null then 0 else elem.position + 1
      {
        if Eligible(elem, CheckNonElements(c)) {
          NumberedLater(c.inner, c.doneName, bound);
          r := Matches(c.inner, elem, xml, bound);
          return;
        }
        elem := elem.Next(c.dir);
      }
      r := false;
    }

    /** XML nodes cannot carry cells, so every node is asked. */
    method WalkUncached(c: Matcher, start: Node, ghost bound: nat) returns (r: bool)
      requires Valid() && start in nodes && c.Comb? && !c.first
      requires Numbered(c, bound) && Registered(c, registry) && Coherent(bound)
      modifies nodes
      ensures r == Sat(c, start, nodes)
      ensures Coherent(bound) && Touched(bound)
      decreases c, 3
    {
      var elem := start.Next(c.dir);
      NumberedLater(c.inner, c.doneName, bound);
      while elem != null
        invariant elem == null || elem in nodes
        invariant Reach(c, elem, nodes) == Sat(c, start, nodes)
        invariant Coherent(bound) && Touched(bound)
        decreases if elem == null then 0 else elem.position + 1
      {
        ReachStep(c, elem, nodes);
        if Eligible(elem, CheckNonElements(c)) {
          var hit := Matches(c.inner, elem, true, bound);
          if hit {
            return true;
          }
        }
        elem := elem.Next(c.dir);
      }
      r := false;
    }

    /** The walk with cells: one new cell, shared by every node passed on the way.  All the
        nodes that hold it have the same answer, the one the walk is going to return. */
    method WalkCached(c: Matcher, start: Node, ghost bound: nat) returns (r: bool)
      requires Valid() && start in nodes && c.Comb? && !c.first
      requires Numbered(c, bound) && Registered(c, registry) && Coherent(bound)
      modifies nodes
      ensures r == Sat(c, start, nodes)
      ensures Coherent(bound) && Touched(bound)
      decreases c, 3
    {
      var newCache := new Cell(dirruns, c.doneName);
      ghost var answer := Sat(c, start, nodes);
      var elem := start.Next(c.dir);
      while elem != null
        invariant Walking(newCache, c, elem, answer, bound)
        invariant Touched(bound)
        modifies nodes, newCache
        decreases if elem == null then 0 else elem.position + 1
      {
        var finished;
        finished, r := Look(c, elem, newCache, answer, bound);
        if finished {
          return;
        }
        elem := elem.Next(c.dir);
      }
      assert !Reach(c, null, nodes);
      if newCache.verdict.Some? {
        Settled(newCache, c, answer, bound);
      }
      r := false;
    }

    /** The walk at one node: skip it, take over the cell it holds, or ask it. */
    method Look(c: Matcher, elem: Node, newCache: Cell, ghost answer: bool, ghost bound: nat)
      returns (finished: bool, r: bool)
      requires Valid() && elem in nodes && c.Comb? && !c.first
      requires Numbered(c, bound) && Registered(c, registry)
      requires newCache.run == dirruns && newCache.owner == c.doneName
      requires Walking(newCache, c, elem, answer, bound)
      modifies nodes, newCache
      ensures finished ==> r == answer && Coherent(bound)
      ensures !finished ==> Walking(newCache, c, elem.Next(c.dir), answer, bound)
      ensures TouchedBut(bound, newCache)
      decreases c, 2
    {
      ReachStep(c, elem, nodes);
      if Eligible(elem, CheckNonElements(c)) {
        if c.dir in elem.outerCache
           && elem.outerCache[c.dir].run == dirruns && elem.outerCache[c.dir].owner == c.doneName {
          var oldCache := elem.outerCache[c.dir];
          assert oldCache != newCache && Right(oldCache, elem, c.dir);
          newCache.verdict := oldCache.verdict;
          Settled(newCache, c, answer, bound);
          return true, oldCache.verdict.value;
        } else {
          var hit := Visit(c, elem, newCache, answer, bound);
          if hit {
            Settled(newCache, c, answer, bound);
            return true, true;
          }
        }
      }
      return false, false;
    }

    /** One visit of the walk: the slot gets the shared cell before the inner matcher runs. */
    method Visit(c: Matcher, elem: Node, newCache: Cell, ghost answer: bool, ghost bound: nat) returns (hit: bool)
      requires Valid() && elem in nodes && c.Comb? && !c.first
      requires Numbered(c, bound) && Registered(c, registry)
      requires newCache.run == dirruns && newCache.owner == c.doneName
      requires Reach(c, elem, nodes) == answer
      requires Shared(newCache, c, elem, answer) && CoherentBut(bound, newCache)
      modifies nodes, newCache
      ensures hit == Sat(c.inner, elem, nodes) && newCache.verdict == Some(hit)
      ensures Shared(newCache, c, elem.Next(c.dir), answer) && CoherentBut(bound, newCache)
      ensures TouchedBut(bound, newCache)
      decreases c, 1
    {
      elem.outerCache := elem.outerCache[c.dir := newCache];
      assert CoherentBut(bound, newCache);
      hit := Probe(c, elem, newCache, answer, bound);
    }

    /** The inner matcher may put other cells into the slots; then the shared cell gets its verdict. */
    method Probe(c: Matcher, elem: Node, newCache: Cell, ghost answer: bool, ghost bound: nat) returns (hit: bool)
      requires Valid() && elem in nodes && c.Comb? && !c.first
      requires Numbered(c, bound) && Registered(c, registry)
      requires newCache.run == dirruns && newCache.owner == c.doneName
      requires Shared(newCache, c, elem.Next(c.dir), answer) && CoherentBut(bound, newCache)
      modifies nodes, newCache
      ensures hit == Sat(c.inner, elem, nodes) && newCache.verdict == Some(hit)
      ensures Shared(newCache, c, elem.Next(c.dir), answer) && CoherentBut(bound, newCache)
      ensures TouchedBut(bound, newCache)
      decreases c, 0
    {
      hit := Matches(c.inner, elem, false, c.doneName);
      forall n, d | n in nodes && d in n.outerCache && n.outerCache[d] != newCache
                    && n.outerCache[d].run == dirruns && n.outerCache[d].owner < bound
        ensures Right(n.outerCache[d], n, d)
      {
        if d in old(n.outerCache) && n.outerCache[d] == old(n.outerCache[d]) {
          assert old(Right(n.outerCache[d], n, d));
        }
      }
      newCache.verdict := Some(hit);
    }

    twostate predicate TouchedBut(bound: nat, cell: Cell)
      reads this, nodes
    {
      forall n, d :: n in nodes ==>
        || (d in n.outerCache && d in old(n.outerCache) && n.outerCache[d] == old(n.outerCache[d]))
        || (d !in n.outerCache && d !in old(n.outerCache))
        || (d in n.outerCache && n.outerCache[d] == cell)
        || (d in n.outerCache && fresh(n.outerCache[d])
            && n.outerCache[d].run == dirruns && n.outerCache[d].owner < bound)
    }

    /** The state of a walk that has reached elem without a match. */
    ghost predicate Walking(cell: Cell, c: Matcher, elem: Node?, answer: bool, bound: nat)
      requires Valid() && c.Comb?
      reads this, nodes, cell, set n, d | n in nodes && d in n.outerCache :: n.outerCache[d]
    {
      && (elem == null || elem in nodes)
      && Reach(c, elem, nodes) == answer
      && (cell.verdict == None ==> forall n, d :: n in nodes && d in n.outerCache ==> n.outerCache[d] != cell)
      && (cell.verdict.Some? ==> !cell.verdict.value)
      && Shared(cell, c, elem, answer) && CoherentBut(bound, cell)
    }

    /** The nodes that hold the cell of the walk in progress lie behind elem and share its answer. */
    ghost predicate Shared(cell: Cell, c: Matcher, elem: Node?, answer: bool)
      requires Valid() && c.Comb?
      reads this, nodes
    {
      forall n, d :: n in nodes && d in n.outerCache && n.outerCache[d] == cell ==>
        d == c.dir && (elem != null ==> elem.position < n.position) && Reach(c, n, nodes) == answer
    }

    ghost predicate CoherentBut(bound: nat, cell: Cell)
      requires Valid()
      reads this, nodes, set n, d | n in nodes && d in n.outerCache :: n.outerCache[d]
    {
      forall n, d ::
        n in nodes && d in n.outerCache && n.outerCache[d] != cell
        && n.outerCache[d].run == dirruns && n.outerCache[d].owner < bound ==>
        Right(n.outerCache[d], n, d)
    }

    /** Once the shared cell holds the answer, every slot is right again. */
    lemma Settled(cell: Cell, c: Matcher, answer: bool, bound: nat)
      requires Valid() && c.Comb? && Registered(c, registry)
      requires cell.owner == c.doneName && cell.verdict == Some(answer)
      requires Shared(cell, c, null, answer) && CoherentBut(bound, cell)
      ensures Coherent(bound)
    {
    }
  }
}
