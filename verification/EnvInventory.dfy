/**
 The syntax-tree walk of the environment inventory (backend/scripts/env_inventory.py): marking parents and
 function bodies on the way down so that each environment read knows its scope and its assignment.
 A node carries only what the walk looks at; matching an environment read is part of its kind.
 */
module EnvInventory {
  import opened Base

  datatype Kind =
    | Function                                // FunctionDef, AsyncFunctionDef, Lambda
    | Assign(target: Option<string>)          // None unless a single plain name is assigned
    | EnvRead(name: string)
    | Other

  datatype Node = Node(id: nat, kind: Kind, children: seq<Node>)

  const MAX_HOPS := 8

  /** `assignedTo` and the id of the assignment. */
  datatype Read = Read(name: string, moduleScope: bool, assignment: Option<(string, nat)>)

  // ---- what a read should say ----------------------------------------------------------

  /** `above` lists the proper ancestors, nearest first. */
  predicate InFunction(above: seq<Node>) {
    exists i :: 0 <= i < |above| && above[i].kind.Function?
  }

  function NearestAssign(above: seq<Node>, hops: nat): Option<(string, nat)> {
    if above == [] || hops >= MAX_HOPS then None
    else match above[0].kind
      case Assign(target) => (match target case None => None case Some(t) => Some((t, above[0].id)))
      case _ => NearestAssign(above[1..], hops + 1)
  }

  function ReadOf(node: Node, above: seq<Node>): Read
    requires node.kind.EnvRead?
  {
    Read(node.kind.name, !InFunction(above), NearestAssign(above, 0))
  }

  /** All reads of a tree in visiting order. */
  function Reads(node: Node, above: seq<Node>): seq<Read>
    decreases node, 1
  {
    (if node.kind.EnvRead? then [ReadOf(node, above)] else []) + ReadsOfChildren(node, above, |node.children|)
  }

  /** The reads of the first `n` children. */
  function ReadsOfChildren(node: Node, above: seq<Node>, n: nat): seq<Read>
    requires n <= |node.children|
    decreases node, 0, n
  {
    if n == 0 then []
    else ReadsOfChildren(node, above, n - 1) + Reads(node.children[n - 1], [node] + above)
  }

  // ---- node identities ---------------------------------------------------------------------

  /** A context or operator node, which the parser hands out again and again. */
  predicate SharedLeaf(node: Node) {
    node.children == [] && !node.kind.EnvRead?
  }

  /** Identities of a tree's nodes, shared leaves apart. */
  function Ids(node: Node): set<nat>
    decreases node, 1
  {
    (if SharedLeaf(node) then {} else {node.id}) + Below(node)
  }

  /** Identities of its shared leaves. */
  function Leaves(node: Node): set<nat>
    decreases node
  {
    if SharedLeaf(node) then {node.id}
    else set i, x | 0 <= i < |node.children| && x in Leaves(node.children[i]) :: x
  }

  /** Identities whose marks a visit may change. */
  function Touched(node: Node): set<nat> {
    Below(node) + Leaves(node)
  }

  /** Identities of the proper descendants, shared leaves apart. */
  function Below(node: Node): set<nat>
    decreases node, 0
  {
    set i, x | 0 <= i < |node.children| && x in Ids(node.children[i]) :: x
  }

  ghost predicate UniqueIds(node: Node) {
    && node.id !in Below(node)
    && (forall i, j :: 0 <= i < j < |node.children| ==> Ids(node.children[i]) !! Ids(node.children[j]))
    && (forall i :: 0 <= i < |node.children| ==> UniqueIds(node.children[i]))
  }

  /** No two nodes share an identity but leaves that carry nothing, and those share only among themselves. */
  ghost predicate ProperIds(node: Node) {
    UniqueIds(node) && Leaves(node) !! Ids(node)
  }

  /** `parents` leads from the node with this id up through `above` and no further. */
  ghost predicate Chain(parents: map<nat, Node>, id: nat, above: seq<Node>)
    decreases |above|
  {
    if above == [] then id !in parents
    else id in parents && parents[id] == above[0] && Chain(parents, above[0].id, above[1..])
  }

  ghost function PathIds(above: seq<Node>): set<nat> {
    set i | 0 <= i < |above| :: above[i].id
  }

  /** Changing marks elsewhere leaves a chain alone. */
  lemma {:induction false} ChainKept(p: map<nat, Node>, q: map<nat, Node>, id: nat, above: seq<Node>)
    requires Chain(p, id, above)
    requires forall x :: x == id || x in PathIds(above) ==> (x in p <==> x in q) && (x in p ==> p[x] == q[x])
    ensures Chain(q, id, above)
    decreases |above|
  {
    if above != [] {
      assert above[0].id in PathIds(above);
      forall x | x in PathIds(above[1..]) ensures x in PathIds(above) {
        var i :| 0 <= i < |above[1..]| && above[1..][i].id == x;
        assert above[i + 1].id == x;
      }
      ChainKept(p, q, above[0].id, above[1..]);
    }
  }

  /** The marks describe where `node` sits; those of a shared leaf describe nothing. */
  ghost predicate Placed(parents: map<nat, Node>, inFunction: set<nat>, node: Node, above: seq<Node>) {
    SharedLeaf(node) ||
    (&& ProperIds(node)
     && PathIds(above) !! Ids(node) + Leaves(node)
     && Chain(parents, node.id, above)
     && (node.id in inFunction <==> InFunction(above))
     && Below(node) !! inFunction)
  }

  /** The children of `node` are marked and nothing below them is. */
  ghost predicate ChildrenMarked(parents: map<nat, Node>, inFunction: set<nat>, node: Node, above: seq<Node>) {
    && ProperIds(node)
    && PathIds(above) !! Ids(node) + Leaves(node)
    && Chain(parents, node.id, above)
    && forall i :: 0 <= i < |node.children| && !SharedLeaf(node.children[i]) ==>
         var child := node.children[i];
         && child.id in parents && parents[child.id] == node
         && (child.id in inFunction <==> InFunction([node] + above))
         && Below(child) !! inFunction
  }

  /** Two sets of marks differ only at identities in `ids`. */
  ghost predicate SameOutside(p: map<nat, Node>, f: set<nat>, q: map<nat, Node>, g: set<nat>, ids: set<nat>) {
    forall x :: x !in ids ==> (x in p <==> x in q) && (x in p ==> p[x] == q[x]) && (x in f <==> x in g)
  }

  function FirstTouched(node: Node, n: nat): set<nat>
    requires n <= |node.children|
  {
    set i, x | 0 <= i < n && x in Touched(node.children[i]) :: x
  }

  function ChildIds(node: Node, n: nat): set<nat>
    requires n <= |node.children|
  {
    if n == 0 then {} else ChildIds(node, n - 1) + {node.children[n - 1].id}
  }

  lemma {:induction false} ChildIdsMeaning(node: Node, n: nat)
    requires n <= |node.children|
    ensures forall i :: 0 <= i < n ==> node.children[i].id in ChildIds(node, n)
    ensures forall x :: x in ChildIds(node, n) ==> exists i :: 0 <= i < n && node.children[i].id == x
  {
    if n > 0 {
      ChildIdsMeaning(node, n - 1);
    }
  }

  /** Parent marks after the first `n` children of `node`. */
  function WithParents(p: map<nat, Node>, node: Node, n: nat): map<nat, Node>
    requires n <= |node.children|
  {
    if n == 0 then p else WithParents(p, node, n - 1)[node.children[n - 1].id := node]
  }

  lemma {:induction false} WithParentsMeaning(p: map<nat, Node>, node: Node, n: nat)
    requires n <= |node.children|
    ensures var q := WithParents(p, node, n);
            && (forall x :: x in ChildIds(node, n) ==> x in q && q[x] == node)
            && (forall x :: x !in ChildIds(node, n) ==> (x in q <==> x in p) && (x in p ==> q[x] == p[x]))
  {
    if n > 0 {
      WithParentsMeaning(p, node, n - 1);
    }
  }

  /** Function-body marks after the first `n` children of `node`. */
  function WithScope(f: set<nat>, node: Node, n: nat): set<nat>
    requires n <= |node.children|
  {
    f + (if node.kind.Function? || node.id in f then ChildIds(node, n) else {})
  }

  lemma ChildIn(node: Node, i: nat)
    requires i < |node.children|
    ensures Ids(node.children[i]) <= Below(node) && Leaves(node.children[i]) <= Leaves(node)
  {
  }

  lemma OwnId(node: Node)
    ensures Below(node) <= Ids(node)
    ensures if SharedLeaf(node) then node.id in Leaves(node) else node.id in Ids(node)
  {
  }

  lemma UniqueStep(node: Node, i: nat)
    requires UniqueIds(node) && i < |node.children|
    ensures UniqueIds(node.children[i])
    ensures node.id !in Below(node)
    ensures forall j :: 0 <= j < |node.children| && i != j ==> Ids(node.children[i]) !! Ids(node.children[j])
  {
  }

  lemma UniqueRoot(node: Node)
    ensures UniqueIds(node) ==> node.id !in Below(node)
  {
  }

  /** All that the walk needs about identities. */
  lemma IdFacts(node: Node)
    ensures Below(node) <= Ids(node)
    ensures forall i :: 0 <= i < |node.children| ==>
              && Ids(node.children[i]) <= Below(node) && Leaves(node.children[i]) <= Leaves(node)
              && Below(node.children[i]) <= Ids(node.children[i])
    ensures !SharedLeaf(node) ==> node.id in Ids(node)
    ensures forall i :: 0 <= i < |node.children| ==>
              if SharedLeaf(node.children[i]) then node.children[i].id in Leaves(node.children[i])
              else node.children[i].id in Ids(node.children[i])
    ensures UniqueIds(node) ==>
              && node.id !in Below(node)
              && (forall i :: 0 <= i < |node.children| ==>
                    UniqueIds(node.children[i]) && node.children[i].id !in Below(node.children[i]))
              && (forall i, j :: 0 <= i < |node.children| && 0 <= j < |node.children| && i != j ==>
                    Ids(node.children[i]) !! Ids(node.children[j]))
  {
    hide Ids, Below, UniqueIds, Leaves;
    OwnId(node);
    UniqueRoot(node);
    forall i | 0 <= i < |node.children|
      ensures Ids(node.children[i]) <= Below(node) && Leaves(node.children[i]) <= Leaves(node)
      ensures Below(node.children[i]) <= Ids(node.children[i])
      ensures if SharedLeaf(node.children[i]) then node.children[i].id in Leaves(node.children[i])
              else node.children[i].id in Ids(node.children[i])
    {
      ChildIn(node, i);
      OwnId(node.children[i]);
    }
    if UniqueIds(node) {
      forall i | 0 <= i < |node.children|
        ensures UniqueIds(node.children[i]) && node.children[i].id !in Below(node.children[i])
        ensures forall j :: 0 <= j < |node.children| && i != j ==> Ids(node.children[i]) !! Ids(node.children[j])
      {
        UniqueStep(node, i);
        UniqueRoot(node.children[i]);
      }
    }
  }

  /** A child's identity is below the node's or among its shared leaves. */
  lemma ChildIdsTouched(node: Node, x: nat)
    requires x in ChildIds(node, |node.children|)
    ensures x in Touched(node)
  {
    hide Ids, Below, Leaves, ChildIds;
    ChildIdsMeaning(node, |node.children|);
    IdFacts(node);
    var k :| 0 <= k < |node.children| && node.children[k].id == x;
  }

  lemma InFunctionStep(node: Node, above: seq<Node>)
    ensures InFunction([node] + above) <==> node.kind.Function? || InFunction(above)
  {
    var path := [node] + above;
    assert path[0] == node;
    if i :| 0 <= i < |above| && above[i].kind.Function? {
      assert path[i + 1].kind.Function?;
    }
    if i :| 0 <= i < |path| && path[i].kind.Function? {
      assert i > 0 ==> above[i - 1].kind.Function?;
    }
  }

  /** Marks left by the children visited so far do not touch the next child's surroundings. */
  lemma NextChildPlaced(p: map<nat, Node>, f: set<nat>, q: map<nat, Node>, g: set<nat>,
                        node: Node, above: seq<Node>, n: nat)
    requires ChildrenMarked(p, f, node, above) && n < |node.children|
    requires SameOutside(p, f, q, g, FirstTouched(node, n))
    ensures Placed(q, g, node.children[n], [node] + above)
  {
    hide Ids, Below, UniqueIds, InFunction, Leaves;
    var child := node.children[n];
    var path := [node] + above;
    IdFacts(node);
    if !SharedLeaf(child) {
      ChildApart(node, above, n);
      forall x | x in FirstTouched(node, n) ensures x !in Ids(child) && x != node.id && x !in PathIds(above) {
        var i :| 0 <= i < n && x in Touched(node.children[i]);
        assert Ids(node.children[i]) !! Ids(child);
      }
      ChainKept(p, q, node.id, above);
      assert path[0] == node && path[1..] == above;
    }
  }

  class EnvVisitor {
    var parents: map<nat, Node>
    var inFunction: set<nat>
    var envReads: seq<Read>

    constructor ()
      ensures parents == map[] && inFunction == {} && envReads == []
    {
      parents, inFunction, envReads := map[], {}, [];
    }

    /** Walk up to the nearest Assign, at most eight hops. */
    method Assignment(node: Node, ghost above: seq<Node>) returns (found: Option<(string, nat)>)
      requires Chain(parents, node.id, above)
      ensures found == NearestAssign(above, 0)
    {
      var current := node.id;
      var hops := 0;
      ghost var rest := above;
      while hops < MAX_HOPS
        invariant hops <= MAX_HOPS
        invariant Chain(parents, current, rest)
        invariant NearestAssign(above, 0) == NearestAssign(rest, hops)
        decreases MAX_HOPS - hops
      {
        if current !in parents {
          return None;
        }
        var parent := parents[current];
        if parent.kind.Assign? {
          return match parent.kind.target case None => None case Some(t) => Some((t, parent.id));
        }
        current := parent.id;
        rest := rest[1..];
        hops := hops + 1;
      }
      found := None;
    }

    /** Mark all children before anything below is visited. */
    method MarkChildren(node: Node)
      requires forall i :: 0 <= i < |node.children| ==> node.children[i].id != node.id
      modifies this
      ensures envReads == old(envReads)
      ensures parents == WithParents(old(parents), node, |node.children|)
      ensures inFunction == WithScope(old(inFunction), node, |node.children|)
    {
      var nested := node.kind.Function?;
      for n := 0 to |node.children|
        invariant envReads == old(envReads)
        invariant parents == WithParents(old(parents), node, n)
        invariant inFunction == WithScope(old(inFunction), node, n)
        invariant node.id in inFunction <==> node.id in old(inFunction)
      {
        var child := node.children[n];
        parents := parents[child.id := node];
        if nested || node.id in inFunction {
          inFunction := inFunction + {child.id};
        }
      }
    }

    method Visit(node: Node, ghost above: seq<Node>)
      requires Placed(parents, inFunction, node, above)
      modifies this
      ensures envReads == old(envReads) + Reads(node, above)
      ensures SameOutside(old(parents), old(inFunction), parents, inFunction, Touched(node))
      decreases node
    {
      hide UniqueIds, Below, Ids, Leaves, Chain, WithParents, WithScope;
      if SharedLeaf(node) {
        MarkNone(parents, inFunction, node);
        MarkChildren(node);
        return;
      }
      ChildrenApart(node);
      MarkChildren(node);
      MarksFinal(old(parents), old(inFunction), node, above);
      if node.kind.EnvRead? {
        var assignment := Assignment(node, above);
        envReads := envReads + [Read(node.kind.name, node.id !in inFunction, assignment)];
      }
      VisitChildren(node, above);
    }

    /** `generic_visit` over marked children. */
    method VisitChildren(node: Node, ghost above: seq<Node>)
      requires ChildrenMarked(parents, inFunction, node, above)
      modifies this
      ensures envReads == old(envReads) + ReadsOfChildren(node, above, |node.children|)
      ensures SameOutside(old(parents), old(inFunction), parents, inFunction, Touched(node))
      decreases node, 0
    {
      hide Chain, ChildrenMarked, Placed, Reads, UniqueIds, Ids, Below, Leaves;
      for n := 0 to |node.children|
        invariant envReads == old(envReads) + ReadsOfChildren(node, above, n)
        invariant SameOutside(old(parents), old(inFunction), parents, inFunction, FirstTouched(node, n))
      {
        var child := node.children[n];
        NextChildPlaced(old(parents), old(inFunction), parents, inFunction, node, above, n);
        Visit(child, [node] + above);
        FirstTouchedNext(node, n);
      }
      FirstWithin(node);
    }
  }

  lemma FirstTouchedNext(node: Node, n: nat)
    requires n < |node.children|
    ensures FirstTouched(node, n + 1) == FirstTouched(node, n) + Touched(node.children[n])
  {
    hide Touched;
  }

  lemma FirstWithin(node: Node)
    ensures FirstTouched(node, |node.children|) <= Touched(node)
  {
    hide Ids, Below, Leaves;
    IdFacts(node);
  }

  lemma MarkNone(p: map<nat, Node>, f: set<nat>, node: Node)
    requires node.children == []
    ensures WithParents(p, node, 0) == p && WithScope(f, node, 0) == f
  {
  }

  lemma ChildrenApart(node: Node)
    requires ProperIds(node) && !SharedLeaf(node)
    ensures forall i :: 0 <= i < |node.children| ==> node.children[i].id != node.id
  {
    hide Ids, Below, UniqueIds, Leaves;
    IdFacts(node);
  }

  lemma ScopeMarked(f: set<nat>, node: Node, above: seq<Node>)
    requires ProperIds(node) && !SharedLeaf(node) && Below(node) !! f && (node.id in f <==> InFunction(above))
    ensures var g := WithScope(f, node, |node.children|);
            && (node.id in g <==> InFunction(above))
            && forall i :: 0 <= i < |node.children| && !SharedLeaf(node.children[i]) ==>
                 (node.children[i].id in g <==> InFunction([node] + above)) && Below(node.children[i]) !! g
  {
    hide InFunction, Ids, Below, UniqueIds, ChildIds, Leaves;
    IdFacts(node);
    InFunctionStep(node, above);
    var all := ChildIds(node, |node.children|);
    ChildIdsMeaning(node, |node.children|);
    forall i | 0 <= i < |node.children| ensures Below(node.children[i]) !! all {
      forall x | x in all ensures x !in Below(node.children[i]) {
        var k :| 0 <= k < |node.children| && node.children[k].id == x;
        assert k != i ==> Ids(node.children[k]) !! Ids(node.children[i]);
      }
    }
    ChildrenApart(node);
    assert node.id !in all;
  }

  lemma ParentsMarked(p: map<nat, Node>, node: Node, above: seq<Node>)
    requires ProperIds(node) && !SharedLeaf(node)
    requires PathIds(above) !! Ids(node) + Leaves(node) && Chain(p, node.id, above)
    ensures var q := WithParents(p, node, |node.children|);
            && Chain(q, node.id, above)
            && forall i :: 0 <= i < |node.children| ==>
                 node.children[i].id in q && q[node.children[i].id] == node
  {
    hide Ids, Below, UniqueIds, ChildIds, WithParents, Chain, Leaves;
    IdFacts(node);
    var q := WithParents(p, node, |node.children|);
    ChildIdsMeaning(node, |node.children|);
    WithParentsMeaning(p, node, |node.children|);
    forall x | x in ChildIds(node, |node.children|) ensures x in Touched(node) {
      ChildIdsTouched(node, x);
    }
    ChildrenApart(node);
    ChainKept(p, q, node.id, above);
  }

  /** After marking, the children know their parent and scope and nothing else changed. */
  lemma MarksFinal(p: map<nat, Node>, f: set<nat>, node: Node, above: seq<Node>)
    requires Placed(p, f, node, above) && !SharedLeaf(node)
    ensures var q, g := WithParents(p, node, |node.children|), WithScope(f, node, |node.children|);
            && ChildrenMarked(q, g, node, above)
            && (node.id in g <==> InFunction(above))
            && SameOutside(p, f, q, g, Touched(node))
  {
    hide Chain, UniqueIds, InFunction, Ids, Below, ChildIds, WithParents, Leaves, Touched;
    ScopeMarked(f, node, above);
    ParentsMarked(p, node, above);
    WithParentsMeaning(p, node, |node.children|);
    forall x | x in ChildIds(node, |node.children|) ensures x in Touched(node) {
      ChildIdsTouched(node, x);
    }
  }

  /** A child's subtree shares no identity with its ancestors. */
  lemma ChildApart(node: Node, above: seq<Node>, n: nat)
    requires ProperIds(node) && n < |node.children| && PathIds(above) !! Ids(node) + Leaves(node)
    ensures ProperIds(node.children[n])
    ensures PathIds([node] + above) !! Ids(node.children[n]) + Leaves(node.children[n])
  {
    var child, path := node.children[n], [node] + above;
    IdFacts(node);
    hide Ids, Below, UniqueIds, Leaves;
    forall x | x in PathIds(path) ensures x == node.id || x in PathIds(above) {
      var i :| 0 <= i < |path| && path[i].id == x;
      assert i > 0 ==> above[i - 1].id == x;
    }
  }

  // ---- whole trees ---------------------------------------------------------------------------

  /** A place in a tree: which child to take at each level. */
  type Place = seq<nat>

  function NodeAt(root: Node, place: Place): Option<Node> {
    if place == [] then Some(root)
    else if place[0] < |root.children| then NodeAt(root.children[place[0]], place[1..])
    else None
  }

  /** The nodes on the way to a place, nearest first, the node itself left out. */
  function AncestorsAt(root: Node, place: Place, above: seq<Node>): seq<Node>
    requires NodeAt(root, place).Some?
  {
    if place == [] then above
    else AncestorsAt(root.children[place[0]], place[1..], [root] + above)
  }

  /** `collect_reads` for one module: walk the whole tree from fresh marks. */
  method CollectReads(root: Node) returns (found: seq<Read>)
    requires ProperIds(root)
    ensures found == Reads(root, [])
    ensures exists places :: IsInventory(root, places, found)
  {
    ghost var places := WalkMeaning(root);
    var visitor := new EnvVisitor();
    assert PathIds([]) == {};
    visitor.Visit(root, []);
    found := visitor.envReads;
  }

  /** Ancestor `i` is the nearest assignment. */
  ghost predicate FirstAssign(above: seq<Node>, i: nat) {
    && i < |above| && above[i].kind.Assign?
    && forall j :: 0 <= j < i ==> !above[j].kind.Assign?
  }

  lemma FirstAssignShift(above: seq<Node>, i: nat)
    requires above != [] && !above[0].kind.Assign?
    ensures FirstAssign(above[1..], i) <==> FirstAssign(above, i + 1)
  {
  }

  /** The assignment is that of the nearest Assign among the first eight ancestors, if it has a plain name. */
  lemma {:induction false} AssignmentMeaning(above: seq<Node>, hops: nat, i: nat)
    requires hops <= MAX_HOPS && FirstAssign(above, i)
    ensures NearestAssign(above, hops) ==
            if i + hops < MAX_HOPS && above[i].kind.target.Some? then Some((above[i].kind.target.value, above[i].id))
            else None
    decreases |above|
  {
    if hops < MAX_HOPS && i > 0 {
      assert !above[0].kind.Assign?;
      FirstAssignShift(above, i - 1);
      AssignmentMeaning(above[1..], hops + 1, i - 1);
    }
  }

  lemma {:induction false} NoAssignmentAbove(above: seq<Node>, hops: nat)
    requires forall i :: 0 <= i < |above| ==> !above[i].kind.Assign?
    ensures NearestAssign(above, hops).None?
    decreases |above|
  {
    if above != [] {
      NoAssignmentAbove(above[1..], hops + 1);
    }
  }

  // ---- the whole walk, told by places ----------------------------------------------------------------

  /** Visiting order: a node before what is below it, children from the first to the last. */
  predicate Before(p: Place, q: Place) {
    q != [] && (p == [] || p[0] < q[0] || (p[0] == q[0] && Before(p[1..], q[1..])))
  }

  ghost predicate ReadAt(root: Node, place: Place) {
    NodeAt(root, place).Some? && NodeAt(root, place).value.kind.EnvRead?
  }

  /** `rs` are the records of the reads at these places, which are in visiting order. */
  ghost predicate RecordsAt(root: Node, above: seq<Node>, places: seq<Place>, rs: seq<Read>) {
    && |places| == |rs|
    && (forall i, j :: 0 <= i < j < |places| ==> Before(places[i], places[j]))
    && forall i :: 0 <= i < |places| ==>
         ReadAt(root, places[i]) && rs[i] == ReadOf(NodeAt(root, places[i]).value, AncestorsAt(root, places[i], above))
  }

  function Under(i: nat, places: seq<Place>): seq<Place> {
    seq(|places|, k requires 0 <= k < |places| => [i] + places[k])
  }

  lemma UnderChild(node: Node, above: seq<Node>, i: nat, place: Place)
    requires i < |node.children|
    ensures NodeAt(node, [i] + place) == NodeAt(node.children[i], place)
    ensures NodeAt(node.children[i], place).Some? ==>
              AncestorsAt(node, [i] + place, above) == AncestorsAt(node.children[i], place, [node] + above)
  {
    assert ([i] + place)[1..] == place;
  }

  lemma BeforeUnder(i: nat, p: Place, q: Place)
    ensures Before([i] + p, [i] + q) <==> Before(p, q)
  {
    assert ([i] + p)[1..] == p && ([i] + q)[1..] == q;
  }

  lemma RecordsUnder(node: Node, above: seq<Node>, i: nat, places: seq<Place>, rs: seq<Read>)
    requires i < |node.children| && RecordsAt(node.children[i], [node] + above, places, rs)
    ensures RecordsAt(node, above, Under(i, places), rs)
  {
    forall j, k | 0 <= j < k < |places| ensures Before([i] + places[j], [i] + places[k]) {
      BeforeUnder(i, places[j], places[k]);
    }
    forall k | 0 <= k < |places|
      ensures NodeAt(node, [i] + places[k]) == NodeAt(node.children[i], places[k])
      ensures NodeAt(node.children[i], places[k]).Some? ==>
                AncestorsAt(node, [i] + places[k], above) == AncestorsAt(node.children[i], places[k], [node] + above)
    {
      UnderChild(node, above, i, places[k]);
    }
    hide Before, NodeAt, AncestorsAt, ReadOf;
  }

  lemma RecordsJoined(node: Node, above: seq<Node>, a: seq<Place>, rs: seq<Read>, b: seq<Place>, ss: seq<Read>)
    requires RecordsAt(node, above, a, rs) && RecordsAt(node, above, b, ss)
    requires forall p, q :: p in a && q in b ==> Before(p, q)
    ensures RecordsAt(node, above, a + b, rs + ss)
  {
    hide Before, ReadAt, ReadOf, NodeAt, AncestorsAt;
    var places := a + b;
    forall j, k | 0 <= j < k < |places| ensures Before(places[j], places[k]) {
      if j < |a| <= k {
        assert places[j] in a && places[k] in b;
      }
    }
  }

  /** The reads below the first `n` children, each exactly once and in visiting order. */
  lemma {:induction false} ChildrenWalked(node: Node, above: seq<Node>, n: nat) returns (places: seq<Place>)
    requires n <= |node.children|
    ensures RecordsAt(node, above, places, ReadsOfChildren(node, above, n))
    ensures forall p :: p in places <==> p != [] && p[0] < n && ReadAt(node, p)
    decreases node, 0, n
  {
    places := [];
    if n > 0 {
      var earlier := ChildrenWalked(node, above, n - 1);
      var below := Walked(node.children[n - 1], [node] + above);
      var last := Under(n - 1, below);
      RecordsUnder(node, above, n - 1, below, Reads(node.children[n - 1], [node] + above));
      forall p ensures p in last <==> p != [] && p[0] == n - 1 && ReadAt(node, p) {
        InUnder(node, above, n - 1, below, p);
      }
      RecordsJoined(node, above, earlier, ReadsOfChildren(node, above, n - 1), last,
                    Reads(node.children[n - 1], [node] + above));
      places := earlier + last;
    }
  }

  lemma InUnder(node: Node, above: seq<Node>, i: nat, below: seq<Place>, p: Place)
    requires i < |node.children| && forall q :: q in below <==> ReadAt(node.children[i], q)
    ensures p in Under(i, below) <==> p != [] && p[0] == i && ReadAt(node, p)
  {
    if p != [] && p[0] == i {
      assert p == [i] + p[1..];
      UnderChild(node, above, i, p[1..]);
      if p[1..] in below {
        var k :| 0 <= k < |below| && below[k] == p[1..];
        assert Under(i, below)[k] == p;
      }
    }
  }

  /** Every environment read of a tree is recorded exactly once, in visiting order, and nothing else is. */
  lemma {:induction false} Walked(node: Node, above: seq<Node>) returns (places: seq<Place>)
    ensures RecordsAt(node, above, places, Reads(node, above))
    ensures forall p :: p in places <==> ReadAt(node, p)
    decreases node, 1
  {
    var below := ChildrenWalked(node, above, |node.children|);
    var own: seq<Place> := if node.kind.EnvRead? then [[]] else [];
    forall p: Place | p != [] && ReadAt(node, p) ensures p[0] < |node.children| {
    }
    RecordsJoined(node, above, own, if node.kind.EnvRead? then [ReadOf(node, above)] else [], below,
                  ReadsOfChildren(node, above, |node.children|));
    places := own + below;
  }

  // ---- what a record says ---------------------------------------------------------------------------

  ghost predicate FunctionAt(root: Node, place: Place) {
    NodeAt(root, place).Some? && NodeAt(root, place).value.kind.Function?
  }

  ghost predicate AssignAt(root: Node, place: Place) {
    NodeAt(root, place).Some? && NodeAt(root, place).value.kind.Assign?
  }

  /** The nearest assignment around a place is at its first `k` steps. */
  ghost predicate NearestAssignAt(root: Node, place: Place, k: int) {
    && 0 <= k < |place| && AssignAt(root, place[..k])
    && forall j :: k < j < |place| ==> !AssignAt(root, place[..j])
  }

  /**
   What a record says about its read, in terms of the tree alone: the name read, whether no function or lambda is
   around it, and the nearest assignment around it if that is at most eight levels up and has a plain name.
   */
  ghost predicate Describes(root: Node, place: Place, r: Read) {
    && NodeAt(root, place).Some? && NodeAt(root, place).value.kind == EnvRead(r.name)
    && (r.moduleScope <==> forall k :: 0 <= k < |place| ==> !FunctionAt(root, place[..k]))
    && (forall k :: NearestAssignAt(root, place, k) ==>
          var assign := NodeAt(root, place[..k]).value;
          r.assignment == if |place| - k <= 8 && assign.kind.target.Some? then Some((assign.kind.target.value, assign.id))
                          else None)
    && ((forall k :: !NearestAssignAt(root, place, k)) ==> r.assignment == None)
  }

  lemma {:induction false} AncestorsEnd(root: Node, place: Place, above: seq<Node>)
    requires NodeAt(root, place).Some?
    ensures var path := AncestorsAt(root, place, above); |path| == |place| + |above| && path[|place|..] == above
    decreases place
  {
    if place != [] {
      var rest := place[1..];
      AncestorsEnd(root.children[place[0]], rest, [root] + above);
      var path := AncestorsAt(root, place, above);
      assert path[|rest| + 1..] == path[|rest|..][1..];
    }
  }

  /** The ancestors of a place are the nodes at its shorter prefixes. */
  lemma {:induction false} AncestorsMeaning(root: Node, place: Place, above: seq<Node>, k: nat)
    requires NodeAt(root, place).Some? && k < |place|
    ensures var path := AncestorsAt(root, place, above);
            |path| == |place| + |above| && NodeAt(root, place[..k]) == Some(path[|place| - 1 - k])
    decreases place
  {
    AncestorsEnd(root, place, above);
    var child, rest := root.children[place[0]], place[1..];
    AncestorsEnd(child, rest, [root] + above);
    var path := AncestorsAt(root, place, above);
    if k == 0 {
      assert path[|rest|] == path[|rest|..][0] == root;
    } else {
      AncestorsMeaning(child, rest, [root] + above, k - 1);
      assert place[..k][0] == place[0] && place[..k][1..] == rest[..k - 1];
    }
  }

  lemma RecordMeaning(root: Node, place: Place)
    requires ReadAt(root, place)
    ensures Describes(root, place, ReadOf(NodeAt(root, place).value, AncestorsAt(root, place, [])))
  {
    var path := AncestorsAt(root, place, []);
    AncestorsEnd(root, place, []);
    forall k | 0 <= k < |place| ensures NodeAt(root, place[..k]) == Some(path[|place| - 1 - k]) {
      AncestorsMeaning(root, place, [], k);
    }
    hide NodeAt, AncestorsAt, NearestAssign;
    assert forall i :: 0 <= i < |path| ==> NodeAt(root, place[..|place| - 1 - i]) == Some(path[i]);
    forall k | NearestAssignAt(root, place, k) ensures FirstAssign(path, |place| - 1 - k) {
    }
    forall k | NearestAssignAt(root, place, k)
      ensures NearestAssign(path, 0)
              == if |place| - k <= 8 && path[|place| - 1 - k].kind.target.Some?
                 then Some((path[|place| - 1 - k].kind.target.value, path[|place| - 1 - k].id)) else None
    {
      AssignmentMeaning(path, 0, |place| - 1 - k);
    }
    if forall k :: !NearestAssignAt(root, place, k) {
      NoneNearest(root, place, path);
      NoAssignmentAbove(path, 0);
    }
  }

  lemma NoneNearest(root: Node, place: Place, path: seq<Node>)
    requires |path| == |place| && forall k :: 0 <= k < |place| ==> NodeAt(root, place[..k]) == Some(path[|place| - 1 - k])
    requires forall k :: !NearestAssignAt(root, place, k)
    ensures forall i :: 0 <= i < |path| ==> !path[i].kind.Assign?
  {
    hide NodeAt;
    var k := 0;
    for i := 0 to |path|
      invariant forall j :: 0 <= j < i ==> !path[j].kind.Assign?
    {
      k := |place| - 1 - i;
      assert NodeAt(root, place[..k]) == Some(path[i]);
      assert !NearestAssignAt(root, place, k);
      forall j | k < j < |place| ensures !AssignAt(root, place[..j]) {
        assert NodeAt(root, place[..j]) == Some(path[|place| - 1 - j]);
      }
    }
  }

  /** One record for each environment read of the tree, in visiting order, each saying what surrounds its read. */
  ghost predicate IsInventory(root: Node, places: seq<Place>, rs: seq<Read>) {
    && |places| == |rs|
    && (forall i, j :: 0 <= i < j < |places| ==> Before(places[i], places[j]))
    && (forall place :: place in places <==> ReadAt(root, place))
    && forall i :: 0 <= i < |places| ==> Describes(root, places[i], rs[i])
  }

  lemma WalkMeaning(root: Node) returns (places: seq<Place>)
    ensures IsInventory(root, places, Reads(root, []))
  {
    hide Describes;
    places := Walked(root, []);
    forall i | 0 <= i < |places| ensures Describes(root, places[i], Reads(root, [])[i]) {
      RecordMeaning(root, places[i]);
    }
  }
}
