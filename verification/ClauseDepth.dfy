// The clause-depth check of convert.rs: an explicit-stack, memoised walk over the clauses of
// an archive whose child indices are in bounds but may form cycles through both tables.
module ClauseDepth {
  import opened Wrappers
  import opened CacheFormat

  const UNRESOLVED_DEPTH: nat := 0xFFFF_FFFF

  datatype ArchivedNode = LeafNode(index: nat) | LeafValueNode(index: nat)

  // ------------------------------------------------------------------ the clause graph

  predicate InFile(file: CachedFile, node: ArchivedNode) {
    match node
    case LeafNode(i) => i < |file.leaves|
    case LeafValueNode(i) => i < |file.leafValues|
  }

  function NodeValue(file: CachedFile, node: ArchivedNode): CachedValue
    requires InFile(file, node)
  {
    match node
    case LeafNode(i) => file.leaves[i].value
    case LeafValueNode(i) => file.leafValues[i].value
  }

  function ClauseChildren(file: CachedFile, node: ArchivedNode): Option<seq<Child>>
    requires InFile(file, node)
  {
    match NodeValue(file, node)
    case Clause(children) => Some(children)
    case _ => None
  }

  predicate IsClause(file: CachedFile, node: ArchivedNode) {
    InFile(file, node) && ClauseChildren(file, node).Some?
  }

  function ChildNode(child: Child): Option<ArchivedNode> {
    match child
    case Leaf(i) => Some(LeafNode(i))
    case LeafValue(i) => Some(LeafValueNode(i))
    case Comment(_) => None
  }

  predicate NodesInFile(file: CachedFile, children: seq<Child>) {
    forall c | c in children :: ChildNode(c).Some? ==> InFile(file, ChildNode(c).value)
  }

  // What the bounds check leaves behind, as far as the walk needs it. Parse order is not needed.
  ghost predicate Bounded(file: CachedFile) {
    forall n | IsClause(file, n) :: NodesInFile(file, ClauseChildren(file, n).value)
  }

  // `to` is a clause written directly inside the clause `from`.
  ghost predicate Nested(file: CachedFile, from: ArchivedNode, to: ArchivedNode) {
    && IsClause(file, from)
    && IsClause(file, to)
    && exists c :: c in ClauseChildren(file, from).value && ChildNode(c) == Some(to)
  }

  // A walk down the clause graph, each clause directly inside the one before it.
  ghost predicate ClauseWalk(file: CachedFile, walk: seq<ArchivedNode>) {
    && (forall i | 0 <= i < |walk| :: IsClause(file, walk[i]))
    && (forall i | 0 < i < |walk| :: Nested(file, walk[i - 1], walk[i]))
  }

  ghost predicate WalkOfLength(file: CachedFile, n: nat) {
    exists walk :: |walk| == n && ClauseWalk(file, walk)
  }

  // `depth` is the length of the longest walk that starts at `node`.
  ghost predicate LongestFrom(file: CachedFile, node: ArchivedNode, depth: nat) {
    && (depth > 0 ==> exists walk :: |walk| == depth && walk[0] == node && ClauseWalk(file, walk))
    && (forall walk | |walk| > 0 && walk[0] == node && ClauseWalk(file, walk) :: |walk| <= depth)
  }

  // No walk comes back to the clause it started from.
  ghost predicate Acyclic(file: CachedFile) {
    forall walk | |walk| > 1 && ClauseWalk(file, walk) :: walk[0] != walk[|walk| - 1]
  }

  // ------------------------------------------------------------------ settled depths

  type Depths = map<ArchivedNode, nat>

  function Max(a: nat, b: nat): nat { if a < b then b else a }

  function DepthOf(depths: Depths, child: Child): nat {
    var node := ChildNode(child);
    if node.Some? && node.value in depths then depths[node.value] else 0
  }

  function Deepest(depths: Depths, children: seq<Child>, k: nat): nat
    requires k <= |children|
  {
    if k == 0 then 0 else Max(Deepest(depths, children, k - 1), DepthOf(depths, children[k - 1]))
  }

  predicate ClausesSettled(file: CachedFile, depths: Depths, children: seq<Child>, k: nat)
    requires k <= |children|
  {
    forall i | 0 <= i < k ::
      var node := ChildNode(children[i]);
      node.Some? && IsClause(file, node.value) ==> node.value in depths
  }

  // A settled node has all its clauses settled and its depth one above the deepest of them.
  predicate SettledAt(file: CachedFile, depths: Depths, node: ArchivedNode)
    requires node in depths
  {
    && InFile(file, node)
    && match ClauseChildren(file, node)
       case None => depths[node] == 0
       case Some(children) =>
         && ClausesSettled(file, depths, children, |children|)
         && depths[node] == Deepest(depths, children, |children|) + 1
  }

  ghost predicate SettledOk(file: CachedFile, limit: nat, depths: Depths) {
    forall n | n in depths :: SettledAt(file, depths, n) && depths[n] <= limit
  }

  lemma {:induction false} DeepestStable(
    file: CachedFile, depths: Depths, children: seq<Child>, k: nat, node: ArchivedNode, depth: nat)
    requires k <= |children| && ClausesSettled(file, depths, children, k)
    requires node !in depths && (IsClause(file, node) || depth == 0)
    ensures Deepest(depths[node := depth], children, k) == Deepest(depths, children, k)
  {
    if k > 0 {
      DeepestStable(file, depths, children, k - 1, node, depth);
    }
  }

  lemma {:induction false} DeepestIsReached(depths: Depths, children: seq<Child>, k: nat) returns (at: nat)
    requires k <= |children| && Deepest(depths, children, k) > 0
    ensures at < k && DepthOf(depths, children[at]) == Deepest(depths, children, k)
  {
    if Deepest(depths, children, k - 1) < DepthOf(depths, children[k - 1]) {
      at := k - 1;
    } else {
      at := DeepestIsReached(depths, children, k - 1);
    }
  }

  lemma {:induction false} DeepestBounds(depths: Depths, children: seq<Child>, k: nat, at: nat)
    requires at < k <= |children|
    ensures DepthOf(depths, children[at]) <= Deepest(depths, children, k)
  {
    if at < k - 1 {
      DeepestBounds(depths, children, k - 1, at);
    }
  }

  // A clause whose clauses are all settled heads a walk of exactly the depth it is about to get.
  lemma {:induction false} WalkBelow(
    file: CachedFile, limit: nat, depths: Depths, node: ArchivedNode, depth: nat)
    returns (walk: seq<ArchivedNode>)
    requires SettledOk(file, limit, depths) && IsClause(file, node)
    requires var children := ClauseChildren(file, node).value;
             depth == Deepest(depths, children, |children|) + 1
    ensures |walk| == depth && walk[0] == node && ClauseWalk(file, walk)
    decreases depth
  {
    var children := ClauseChildren(file, node).value;
    walk := [node];
    if depth > 1 {
      var at := DeepestIsReached(depths, children, |children|);
      var next := ChildNode(children[at]).value;
      assert SettledAt(file, depths, next);
      var rest := WalkBelow(file, limit, depths, next, depth - 1);
      assert children[at] in children;
      assert Nested(file, node, next);
      walk := [node] + rest;
    }
  }

  lemma {:induction false} WalksAreBounded(
    file: CachedFile, limit: nat, depths: Depths, walk: seq<ArchivedNode>)
    requires SettledOk(file, limit, depths)
    requires |walk| > 0 && walk[0] in depths && ClauseWalk(file, walk)
    ensures |walk| <= depths[walk[0]]
    decreases |walk|
  {
    assert SettledAt(file, depths, walk[0]);
    if |walk| > 1 {
      assert Nested(file, walk[0], walk[1]);
      var children := ClauseChildren(file, walk[0]).value;
      var c :| c in children && ChildNode(c) == Some(walk[1]);
      var at :| 0 <= at < |children| && children[at] == c;
      DeepestBounds(depths, children, |children|, at);
      assert forall i | 0 < i < |walk[1..]| :: walk[1..][i - 1] == walk[i] && walk[1..][i] == walk[i + 1];
      WalksAreBounded(file, limit, depths, walk[1..]);
    }
  }

  // ------------------------------------------------------------------ the stack

  datatype DepthFrame = DepthFrame(node: ArchivedNode, nextChild: nat, deepestChild: nat)

  // How many children of frame `j` are fully accounted for: a frame below the top is waiting
  // for the child it last stepped over.
  function Accounted(stack: seq<DepthFrame>, j: nat): int
    requires j < |stack|
  {
    if j + 1 < |stack| then stack[j].nextChild - 1 else stack[j].nextChild
  }

  ghost predicate FrameOk(file: CachedFile, depths: Depths, stack: seq<DepthFrame>, j: nat)
    requires j < |stack|
  {
    var frame := stack[j];
    && InFile(file, frame.node)
    && frame.node !in depths
    && match ClauseChildren(file, frame.node)
       case None => |stack| == 1 && frame.nextChild == 0 && frame.deepestChild == 0
       case Some(children) =>
         && 0 <= Accounted(stack, j) && frame.nextChild <= |children|
         && ClausesSettled(file, depths, children, Accounted(stack, j))
         && frame.deepestChild == Deepest(depths, children, Accounted(stack, j))
         && (j + 1 < |stack| ==>
               && ChildNode(children[frame.nextChild - 1]) == Some(stack[j + 1].node)
               && IsClause(file, stack[j + 1].node))
  }

  ghost predicate StackOk(file: CachedFile, depths: Depths, stack: seq<DepthFrame>) {
    forall j | 0 <= j < |stack| :: FrameOk(file, depths, stack, j)
  }

  // A full stack is itself a walk of nested clauses.
  lemma StackIsWalk(file: CachedFile, depths: Depths, stack: seq<DepthFrame>)
    requires StackOk(file, depths, stack) && |stack| > 1
    ensures WalkOfLength(file, |stack|)
  {
    var walk := seq(|stack|, i requires 0 <= i < |stack| => stack[i].node);
    forall i | 0 <= i < |walk|
      ensures IsClause(file, walk[i])
    {
      assert FrameOk(file, depths, stack, i);
    }
    forall i | 0 < i < |walk|
      ensures Nested(file, walk[i - 1], walk[i])
    {
      assert FrameOk(file, depths, stack, i - 1);
      assert FrameOk(file, depths, stack, i);
      var children := ClauseChildren(file, stack[i - 1].node).value;
      assert children[stack[i - 1].nextChild - 1] in children;
    }
    assert ClauseWalk(file, walk);
  }

  // The stack once its finished top frame has been popped and its depth reported to the owner.
  function AfterSettling(stack: seq<DepthFrame>, depth: nat): seq<DepthFrame>
    requires |stack| > 0
  {
    var rest := stack[..|stack| - 1];
    if rest == [] then rest
    else
      var owner := rest[|rest| - 1];
      rest[|rest| - 1 := owner.(deepestChild := Max(owner.deepestChild, depth))]
  }

  predicate FrameFinished(file: CachedFile, frame: DepthFrame) {
    && InFile(file, frame.node)
    && match ClauseChildren(file, frame.node)
       case None => true
       case Some(children) => frame.nextChild == |children|
  }

  function FinishedDepth(file: CachedFile, frame: DepthFrame): nat
    requires FrameFinished(file, frame)
  {
    if ClauseChildren(file, frame.node).Some? then frame.deepestChild + 1 else 0
  }

  // No frame below a finished top can hold the same node: the child that frame waits for would
  // be among the finished top's children, all of which are settled, yet no stacked node is.
  lemma TopIsAlone(file: CachedFile, depths: Depths, stack: seq<DepthFrame>, j: nat)
    requires StackOk(file, depths, stack) && j < |stack| - 1
    requires FrameFinished(file, stack[|stack| - 1])
    ensures stack[j].node != stack[|stack| - 1].node
  {
    assert FrameOk(file, depths, stack, j);
    assert FrameOk(file, depths, stack, j + 1);
    assert FrameOk(file, depths, stack, |stack| - 1);
  }

  lemma SettlingKeepsSettled(
    file: CachedFile, limit: nat, depths: Depths, stack: seq<DepthFrame>, depth: nat)
    requires SettledOk(file, limit, depths) && StackOk(file, depths, stack) && |stack| > 0
    requires FrameFinished(file, stack[|stack| - 1])
    requires depth == FinishedDepth(file, stack[|stack| - 1]) <= limit
    ensures SettledOk(file, limit, depths[stack[|stack| - 1].node := depth])
  {
    var top := stack[|stack| - 1];
    var depths' := depths[top.node := depth];
    assert FrameOk(file, depths, stack, |stack| - 1);
    forall n | n in depths'
      ensures SettledAt(file, depths', n) && depths'[n] <= limit
    {
      if ClauseChildren(file, n).Some? {
        var children := ClauseChildren(file, n).value;
        DeepestStable(file, depths, children, |children|, top.node, depth);
      }
    }
  }

  lemma SettlingKeepsFrame(file: CachedFile, depths: Depths, stack: seq<DepthFrame>, depth: nat, j: nat)
    requires StackOk(file, depths, stack) && j < |stack| - 1
    requires FrameFinished(file, stack[|stack| - 1])
    requires depth == FinishedDepth(file, stack[|stack| - 1])
    ensures FrameOk(file, depths[stack[|stack| - 1].node := depth], AfterSettling(stack, depth), j)
  {
    var top := stack[|stack| - 1];
    assert FrameOk(file, depths, stack, |stack| - 1);
    assert FrameOk(file, depths, stack, j);
    TopIsAlone(file, depths, stack, j);
    var children := ClauseChildren(file, stack[j].node).value;
    DeepestStable(file, depths, children, Accounted(stack, j), top.node, depth);
  }

  // ------------------------------------------------------------------ the walk

  function NodeSet(file: CachedFile): set<ArchivedNode> {
    (set i: nat | i < |file.leaves| :: LeafNode(i)) + (set i: nat | i < |file.leafValues| :: LeafValueNode(i))
  }

  function NodesInOrder(file: CachedFile): seq<ArchivedNode> {
    seq(|file.leaves|, i requires 0 <= i < |file.leaves| => LeafNode(i)) +
    seq(|file.leafValues|, i requires 0 <= i < |file.leafValues| => LeafValueNode(i))
  }

  lemma {:induction false} LeafCount(n: nat)
    ensures |set i: nat | i < n :: LeafNode(i)| == n
  {
    if n > 0 {
      LeafCount(n - 1);
      assert (set i: nat | i < n :: LeafNode(i)) == (set i: nat | i < n - 1 :: LeafNode(i)) + {LeafNode(n - 1)};
    }
  }

  lemma {:induction false} LeafValueCount(n: nat)
    ensures |set i: nat | i < n :: LeafValueNode(i)| == n
  {
    if n > 0 {
      LeafValueCount(n - 1);
      assert (set i: nat | i < n :: LeafValueNode(i))
          == (set i: nat | i < n - 1 :: LeafValueNode(i)) + {LeafValueNode(n - 1)};
    }
  }

  lemma NodeCount(file: CachedFile)
    ensures |NodeSet(file)| == |file.leaves| + |file.leafValues|
  {
    LeafCount(|file.leaves|);
    LeafValueCount(|file.leafValues|);
  }

  // The two tables of depths, indexed like the archive's.
  class ClauseDepths {
    var leaves: seq<nat>
    var leafValues: seq<nat>
    ghost var settled: Depths  // the depths settled so far

    ghost predicate Valid(file: CachedFile)
      reads this
    {
      && |leaves| == |file.leaves| && |leafValues| == |file.leafValues|
      && (forall i | 0 <= i < |leaves| :: leaves[i] == Recorded(LeafNode(i)))
      && (forall i | 0 <= i < |leafValues| :: leafValues[i] == Recorded(LeafValueNode(i)))
      && (forall n | n in settled :: InFile(file, n) && settled[n] < UNRESOLVED_DEPTH)
    }

    ghost function Recorded(node: ArchivedNode): nat
      reads this
    {
      if node in settled then settled[node] else UNRESOLVED_DEPTH
    }

    constructor (file: CachedFile)
      ensures Valid(file) && settled == map[]
    {
      leaves := seq(|file.leaves|, _ => UNRESOLVED_DEPTH);
      leafValues := seq(|file.leafValues|, _ => UNRESOLVED_DEPTH);
      settled := map[];
    }

    function Get(file: CachedFile, node: ArchivedNode): (depth: nat)
      reads this
      requires Valid(file) && InFile(file, node)
      ensures depth == Recorded(node)
      ensures depth == UNRESOLVED_DEPTH <==> node !in settled
    {
      match node
      case LeafNode(i) => leaves[i]
      case LeafValueNode(i) => leafValues[i]
    }

    method Set(file: CachedFile, node: ArchivedNode, depth: nat)
      requires Valid(file) && InFile(file, node) && depth < UNRESOLVED_DEPTH
      modifies this
      ensures Valid(file) && settled == old(settled)[node := depth]
    {
      match node {
        case LeafNode(i) => leaves := leaves[i := depth];
        case LeafValueNode(i) => leafValues := leafValues[i := depth];
      }
      settled := settled[node := depth];
    }
  }

  const TOO_DEEP := Rejected("cache clause nesting too deep")

  // What holds between two iterations of the walk from `root`.
  ghost predicate WalkState(
    file: CachedFile, limit: nat, depths: Depths, stack: seq<DepthFrame>, root: ArchivedNode)
  {
    && SettledOk(file, limit, depths)
    && StackOk(file, depths, stack)
    && |stack| <= limit
    && (root in depths || (|stack| > 0 && stack[0].node == root))
  }

  lemma SettleStep(
    file: CachedFile, limit: nat, depths: Depths, stack: seq<DepthFrame>, root: ArchivedNode, depth: nat)
    requires WalkState(file, limit, depths, stack, root) && |stack| > 0
    requires FrameFinished(file, stack[|stack| - 1])
    requires depth == FinishedDepth(file, stack[|stack| - 1]) <= limit
    ensures WalkState(file, limit, depths[stack[|stack| - 1].node := depth], AfterSettling(stack, depth), root)
    ensures |depths[stack[|stack| - 1].node := depth]| == |depths| + 1
  {
    var depths' := depths[stack[|stack| - 1].node := depth];
    assert FrameOk(file, depths, stack, |stack| - 1);
    assert depths'.Keys == depths.Keys + {stack[|stack| - 1].node};
    var stack' := AfterSettling(stack, depth);
    SettlingKeepsSettled(file, limit, depths, stack, depth);
    forall j | 0 <= j < |stack'|
      ensures FrameOk(file, depths', stack', j)
    {
      SettlingKeepsFrame(file, depths, stack, depth, j);
    }
  }

  // What the walk may rely on when it looks at the frame on top.
  lemma TopFrame(file: CachedFile, limit: nat, depths: Depths, stack: seq<DepthFrame>, root: ArchivedNode)
    requires WalkState(file, limit, depths, stack, root) && |stack| > 0
    ensures var top := stack[|stack| - 1];
            && InFile(file, top.node)
            && match ClauseChildren(file, top.node)
               case None => true
               case Some(children) =>
                 && top.nextChild <= |children|
                 && top.deepestChild == Deepest(depths, children, top.nextChild)
  {
    assert FrameOk(file, depths, stack, |stack| - 1);
  }

  // The frame on top once it has stepped over its next child.
  function Stepped(depths: Depths, frame: DepthFrame, child: Child): DepthFrame {
    frame.(nextChild := frame.nextChild + 1, deepestChild := Max(frame.deepestChild, DepthOf(depths, child)))
  }

  predicate HasNext(file: CachedFile, frame: DepthFrame) {
    IsClause(file, frame.node) && frame.nextChild < |ClauseChildren(file, frame.node).value|
  }

  function NextChild(file: CachedFile, frame: DepthFrame): Child
    requires HasNext(file, frame)
  {
    ClauseChildren(file, frame.node).value[frame.nextChild]
  }

  // The next child is a clause whose depth is not known yet.
  predicate MustDescend(file: CachedFile, depths: Depths, child: Child) {
    && ChildNode(child).Some?
    && IsClause(file, ChildNode(child).value)
    && ChildNode(child).value !in depths
  }

  lemma StepOver(file: CachedFile, limit: nat, depths: Depths, stack: seq<DepthFrame>, root: ArchivedNode)
    requires WalkState(file, limit, depths, stack, root) && |stack| > 0
    requires HasNext(file, stack[|stack| - 1])
    requires !MustDescend(file, depths, NextChild(file, stack[|stack| - 1]))
    ensures var top := stack[|stack| - 1];
            WalkState(file, limit, depths,
                      stack[|stack| - 1 := Stepped(depths, top, NextChild(file, top))], root)
  {
    var top := stack[|stack| - 1];
    var stack' := stack[|stack| - 1 := Stepped(depths, top, NextChild(file, top))];
    forall j | 0 <= j < |stack'|
      ensures FrameOk(file, depths, stack', j)
    {
      assert FrameOk(file, depths, stack, j);
    }
  }

  // The stack with the clause `child` pushed over a stepped frame.
  function Pushed(stack: seq<DepthFrame>, stepped: DepthFrame, node: ArchivedNode): seq<DepthFrame>
    requires |stack| > 0
  {
    stack[|stack| - 1 := stepped] + [DepthFrame(node, 0, 0)]
  }

  lemma PushedFrame(file: CachedFile, depths: Depths, stack: seq<DepthFrame>, j: nat)
    requires StackOk(file, depths, stack) && 0 < |stack| && j <= |stack|
    requires HasNext(file, stack[|stack| - 1])
    requires MustDescend(file, depths, NextChild(file, stack[|stack| - 1]))
    ensures var top := stack[|stack| - 1];
            var child := NextChild(file, top);
            FrameOk(file, depths, Pushed(stack, Stepped(depths, top, child), ChildNode(child).value), j)
  {
    assert FrameOk(file, depths, stack, |stack| - 1);
    if j < |stack| {
      assert FrameOk(file, depths, stack, j);
    }
  }

  lemma Descend(file: CachedFile, limit: nat, depths: Depths, stack: seq<DepthFrame>, root: ArchivedNode)
    requires WalkState(file, limit, depths, stack, root) && |stack| > 0
    requires HasNext(file, stack[|stack| - 1])
    requires MustDescend(file, depths, NextChild(file, stack[|stack| - 1]))
    ensures var top := stack[|stack| - 1];
            var child := NextChild(file, top);
            var stack' := Pushed(stack, Stepped(depths, top, child), ChildNode(child).value);
            if |stack'| <= limit then WalkState(file, limit, depths, stack', root)
            else WalkOfLength(file, limit + 1)
  {
    var top := stack[|stack| - 1];
    var child := NextChild(file, top);
    var stack' := Pushed(stack, Stepped(depths, top, child), ChildNode(child).value);
    forall j | 0 <= j < |stack'|
      ensures FrameOk(file, depths, stack', j)
    {
      PushedFrame(file, depths, stack, j);
    }
    StackIsWalk(file, depths, stack');
  }

  // The inner loop: settle `root` and every clause below it. `pushes` counts the frames this
  // walk pushed.
  method SettleFrom(file: CachedFile, limit: nat, depths: ClauseDepths, root: ArchivedNode)
    returns (result: Result<(), CacheError>, ghost pushes: nat)
    requires Bounded(file) && 0 < limit < UNRESOLVED_DEPTH && InFile(file, root)
    requires depths.Valid(file) && SettledOk(file, limit, depths.settled)
    requires root !in depths.settled
    modifies depths
    ensures depths.Valid(file) && SettledOk(file, limit, depths.settled)
    ensures old(depths.settled).Keys <= depths.settled.Keys
    ensures result.Ok? ==> root in depths.settled
    ensures result.Ok? ==> |old(depths.settled)| + pushes == |depths.settled|
    ensures result.Err? ==> result.error == TOO_DEEP && WalkOfLength(file, limit + 1)
    ensures |old(depths.settled)| + pushes <= |depths.settled| + limit + 1
  {
    ghost var before := depths.settled;
    var stack := [DepthFrame(root, 0, 0)];
    pushes := 1;
    assert FrameOk(file, before, stack, 0);
    while |stack| > 0
      invariant depths.Valid(file)
      invariant before.Keys <= depths.settled.Keys
      invariant WalkState(file, limit, depths.settled, stack, root)
      invariant |before| + pushes == |depths.settled| + |stack|
      decreases |file.leaves| + |file.leafValues| - |depths.settled|, limit - |stack|, Remaining(file, stack)
    {
      var frame := stack[|stack| - 1];
      TopFrame(file, limit, depths.settled, stack, root);
      SettledIsPartOfFile(file, limit, depths.settled);
      if HasNext(file, frame) {
        var pushed;
        stack, pushed := Visit(file, limit, depths, stack, root);
        pushes := pushes + if pushed then 1 else 0;
        if |stack| > limit {
          return Err(TOO_DEEP), pushes;
        }
      } else {
        result, stack := Settle(file, limit, depths, stack, root);
        if result.Err? {
          return;
        }
        SettledIsPartOfFile(file, limit, depths.settled);
      }
    }
    return Ok(()), pushes;
  }

  // The frame on top has no child left: record its depth and report it to the frame below.
  method Settle(file: CachedFile, limit: nat, depths: ClauseDepths, stack: seq<DepthFrame>, ghost root: ArchivedNode)
    returns (result: Result<(), CacheError>, stack': seq<DepthFrame>)
    requires depths.Valid(file) && |stack| > 0 && limit < UNRESOLVED_DEPTH
    requires WalkState(file, limit, depths.settled, stack, root)
    requires FrameFinished(file, stack[|stack| - 1])
    modifies depths
    ensures depths.Valid(file)
    ensures result.Ok? ==>
              && old(depths.settled).Keys <= depths.settled.Keys
              && |depths.settled| == |old(depths.settled)| + 1 && |stack'| == |stack| - 1
              && WalkState(file, limit, depths.settled, stack', root)
    ensures result.Err? ==>
              && depths.settled == old(depths.settled) && stack' == stack
              && result.error == TOO_DEEP && WalkOfLength(file, limit + 1)
  {
    var frame := stack[|stack| - 1];
    TopFrame(file, limit, depths.settled, stack, root);
    var depth := FinishedDepth(file, frame);
    if depth > limit {
      var walk := WalkBelow(file, limit, depths.settled, frame.node, depth);
      WalkPrefix(file, walk, limit + 1);
      return Err(TOO_DEEP), stack;
    }
    SettleStep(file, limit, depths.settled, stack, root, depth);
    depths.Set(file, frame.node, depth);
    return Ok(()), AfterSettling(stack, depth);
  }

  // One step over the next child of the frame on top, which is pushed when it is a clause whose
  // depth is not known yet.
  method Visit(file: CachedFile, limit: nat, depths: ClauseDepths, stack: seq<DepthFrame>, ghost root: ArchivedNode)
    returns (stack': seq<DepthFrame>, pushed: bool)
    requires Bounded(file) && depths.Valid(file) && |stack| > 0
    requires WalkState(file, limit, depths.settled, stack, root)
    requires HasNext(file, stack[|stack| - 1])
    ensures pushed == MustDescend(file, depths.settled, NextChild(file, stack[|stack| - 1]))
    ensures |stack'| == |stack| + (if pushed then 1 else 0)
    ensures !pushed ==> Remaining(file, stack') < Remaining(file, stack)
    ensures if |stack'| <= limit then WalkState(file, limit, depths.settled, stack', root)
            else pushed && WalkOfLength(file, limit + 1)
  {
    ghost var recorded := depths.settled;
    var frame := stack[|stack| - 1];
    var child := NextChild(file, frame);
    assert child in ClauseChildren(file, frame.node).value;
    var stepped := frame.(nextChild := frame.nextChild + 1);
    if child.Comment? {
      StepOver(file, limit, recorded, stack, root);
      return stack[|stack| - 1 := stepped], false;
    }
    var node := ChildNode(child).value;
    var settled := depths.Get(file, node);
    var descend := settled == UNRESOLVED_DEPTH && ClauseChildren(file, node).Some?;
    if settled != UNRESOLVED_DEPTH {
      stepped := stepped.(deepestChild := Max(stepped.deepestChild, settled));
    }
    stack' := stack[|stack| - 1 := stepped];
    assert stepped == Stepped(recorded, frame, child);
    if descend {
      Descend(file, limit, recorded, stack, root);
      return Pushed(stack, stepped, node), true;
    }
    StepOver(file, limit, recorded, stack, root);
    return stack', false;
  }

  // Every archive with child indices in bounds is decided, cyclic ones included: it is refused
  // exactly when it has a walk through `limit + 1` nested clauses. `recorded` is the depth table
  // of an accepted archive and `pushes` counts the frames ever pushed.
  method ValidateClauseDepth(file: CachedFile, limit: nat)
    returns (result: Result<(), CacheError>, ghost recorded: Depths, ghost pushes: nat)
    requires Bounded(file) && 0 < limit < UNRESOLVED_DEPTH
    ensures result.Ok? <==> !WalkOfLength(file, limit + 1)
    ensures result.Err? ==> result.error == TOO_DEEP
    ensures result.Ok? ==> recorded.Keys == NodeSet(file) && Acyclic(file)
    ensures result.Ok? ==> forall n | n in recorded :: LongestFrom(file, n, recorded[n])
    ensures result.Ok? ==> pushes == |file.leaves| + |file.leafValues|
    ensures pushes <= |file.leaves| + |file.leafValues| + limit + 1
  {
    var depths := new ClauseDepths(file);
    var nodes := NodesInOrder(file);
    recorded, pushes := map[], 0;
    for k := 0 to |nodes|
      invariant fresh(depths) && depths.Valid(file) && recorded == depths.settled
      invariant SettledOk(file, limit, recorded)
      invariant AllIn(nodes[..k], recorded.Keys)
      invariant pushes == |recorded|
    {
      ghost var before := recorded.Keys;
      if depths.Get(file, nodes[k]) == UNRESOLVED_DEPTH {
        ghost var more;
        result, more := SettleFrom(file, limit, depths, nodes[k]);
        recorded, pushes := depths.settled, pushes + more;
        if result.Err? {
          SettledIsPartOfFile(file, limit, recorded);
          return;
        }
      }
      AllInGrows(nodes, k, before, recorded.Keys);
    }
    assert nodes[..|nodes|] == nodes;
    SettledIsPartOfFile(file, limit, recorded);
    EveryNodeListed(file, recorded.Keys);
    NodeCount(file);
    NoWalkPastLimit(file, limit, recorded);
    AcceptedDepths(file, limit, recorded);
    result := Ok(());
  }

  predicate AllIn<T(==)>(items: seq<T>, s: set<T>) {
    forall x | x in items :: x in s
  }

  lemma AllInGrows<T>(items: seq<T>, k: nat, before: set<T>, after: set<T>)
    requires k < |items| && AllIn(items[..k], before) && before <= after && items[k] in after
    ensures AllIn(items[..k + 1], after)
  {
    assert items[..k + 1] == items[..k] + [items[k]];
  }

  lemma EveryNodeListed(file: CachedFile, s: set<ArchivedNode>)
    requires AllIn(NodesInOrder(file), s) && s <= NodeSet(file)
    ensures s == NodeSet(file)
  {
    var nodes := NodesInOrder(file);
    forall n | n in NodeSet(file)
      ensures n in s
    {
      assert n == nodes[if n.LeafNode? then n.index else |file.leaves| + n.index];
    }
  }

  lemma NoWalkPastLimit(file: CachedFile, limit: nat, depths: Depths)
    requires SettledOk(file, limit, depths) && depths.Keys == NodeSet(file)
    ensures !WalkOfLength(file, limit + 1)
  {
    if walk :| |walk| == limit + 1 && ClauseWalk(file, walk) {
      assert IsClause(file, walk[0]);
      assert walk[0] in NodeSet(file);
      WalksAreBounded(file, limit, depths, walk);
    }
  }

  lemma SettledIsPartOfFile(file: CachedFile, limit: nat, depths: Depths)
    requires SettledOk(file, limit, depths)
    ensures depths.Keys <= NodeSet(file)
    ensures |depths| <= |file.leaves| + |file.leafValues|
  {
    forall n | n in depths.Keys
      ensures n in NodeSet(file)
    {
      assert SettledAt(file, depths, n);
    }
    SubsetSize(depths.Keys, NodeSet(file));
    NodeCount(file);
  }

  // How many children the frame on top has not looked at yet.
  ghost function Remaining(file: CachedFile, stack: seq<DepthFrame>): nat {
    if |stack| > 0 && HasNext(file, stack[|stack| - 1])
    then |ClauseChildren(file, stack[|stack| - 1].node).value| - stack[|stack| - 1].nextChild
    else 0
  }

  lemma WalkPrefix(file: CachedFile, walk: seq<ArchivedNode>, n: nat)
    requires ClauseWalk(file, walk) && n <= |walk|
    ensures WalkOfLength(file, n)
  {
    assert ClauseWalk(file, walk[..n]);
  }

  lemma {:induction false} SubsetSize<T>(a: set<T>, b: set<T>)
    requires a <= b
    ensures |a| <= |b|
  {
    if a != {} {
      var x :| x in a;
      SubsetSize(a - {x}, b - {x});
    }
  }

  // What the depth table of an accepted archive means: each entry is the length of the longest
  // clause chain below that node, and no chain of clauses comes back to where it started.
  lemma AcceptedDepths(file: CachedFile, limit: nat, recorded: Depths)
    requires recorded.Keys == NodeSet(file) && SettledOk(file, limit, recorded)
    ensures forall n | n in recorded :: LongestFrom(file, n, recorded[n])
    ensures Acyclic(file)
  {
    forall n | n in recorded
      ensures LongestFrom(file, n, recorded[n])
    {
      assert SettledAt(file, recorded, n);
      if recorded[n] > 0 {
        var walk := WalkBelow(file, limit, recorded, n, recorded[n]);
      }
      forall walk | |walk| > 0 && walk[0] == n && ClauseWalk(file, walk)
        ensures |walk| <= recorded[n]
      {
        WalksAreBounded(file, limit, recorded, walk);
      }
    }
    forall walk | |walk| > 1 && ClauseWalk(file, walk)
      ensures walk[0] != walk[|walk| - 1]
    {
      WalkDescends(file, limit, recorded, walk);
    }
  }

  lemma {:induction false} WalkDescends(file: CachedFile, limit: nat, recorded: Depths, walk: seq<ArchivedNode>)
    requires recorded.Keys == NodeSet(file) && SettledOk(file, limit, recorded)
    requires |walk| > 1 && ClauseWalk(file, walk)
    ensures walk[0] in recorded && walk[|walk| - 1] in recorded
    ensures recorded[walk[|walk| - 1]] < recorded[walk[0]]
    decreases |walk|
  {
    assert IsClause(file, walk[0]) && IsClause(file, walk[1]);
    assert SettledAt(file, recorded, walk[0]);
    assert Nested(file, walk[0], walk[1]);
    var children := ClauseChildren(file, walk[0]).value;
    var c :| c in children && ChildNode(c) == Some(walk[1]);
    var at :| 0 <= at < |children| && children[at] == c;
    DeepestBounds(recorded, children, |children|, at);
    if |walk| > 2 {
      var rest := walk[1..];
      assert forall i | 0 < i < |rest| :: rest[i - 1] == walk[i] && rest[i] == walk[i + 1];
      WalkDescends(file, limit, recorded, rest);
    }
  }

  // Parse order only restricts edges inside one table, so a leaf and a leaf value may contain
  // each other; the walk refuses such an archive at every limit.
  lemma CyclesAreRefused(file: CachedFile, a: ArchivedNode, b: ArchivedNode, n: nat)
    requires Nested(file, a, b) && Nested(file, b, a)
    ensures WalkOfLength(file, n)
  {
    var walk := seq(n, i requires 0 <= i => if i % 2 == 0 then a else b);
    assert ClauseWalk(file, walk);
  }
}
