// The other two archive validators of convert.rs: child indices and comment text ranges.
module ArchiveChecks {
  import opened Wrappers
  import opened CacheFormat
  import opened Ast
  import opened ClauseDepth

  const OUT_OF_BOUNDS := Rejected("cache child index out of bounds")
  const OUT_OF_ORDER := Rejected("cache child index out of parse order")
  const RANGE_OUT_OF_ORDER := Rejected("cache comment text range is out of order or past the comment text pool")
  const RANGE_EMPTY := Rejected("cache comment text range is empty")
  const RANGE_SPLITS_CHARACTER := Rejected("cache comment text range is not on a UTF-8 boundary")
  const POOL_NOT_COVERED := Rejected("cache comment text pool is not fully covered by comment ranges")

  // Rust's `as u32`.
  function U32(n: nat): nat { if n < 0x1_0000_0000 then n else n % 0x1_0000_0000 }

  // ------------------------------------------------------------------ child indices

  datatype ClauseOwner = Root | OwnerLeaf(index: nat) | OwnerLeafValue(index: nat)

  predicate InBounds(file: CachedFile, child: Child) {
    match child
    case Leaf(i) => i < |file.leaves|
    case LeafValue(i) => i < |file.leafValues|
    case Comment(i) => i < |file.comments|
  }

  // A clause is pushed after the children of its own kind that it holds.
  predicate InParseOrder(child: Child, owner: ClauseOwner) {
    match (child, owner)
    case (Leaf(i), OwnerLeaf(slot)) => i < slot
    case (LeafValue(i), OwnerLeafValue(slot)) => i < slot
    case _ => true
  }

  predicate ListOk(file: CachedFile, children: seq<Child>, owner: ClauseOwner) {
    forall c | c in children :: InBounds(file, c) && InParseOrder(c, owner)
  }

  predicate ValueOk(file: CachedFile, value: CachedValue, owner: ClauseOwner) {
    value.Clause? ==> ListOk(file, value.children, owner)
  }

  predicate ChildrenOk(file: CachedFile) {
    && ListOk(file, file.rootChildren, Root)
    && (forall i | 0 <= i < |file.leaves| :: ValueOk(file, file.leaves[i].value, OwnerLeaf(i)))
    && (forall i | 0 <= i < |file.leafValues| :: ValueOk(file, file.leafValues[i].value, OwnerLeafValue(i)))
  }

  method CheckChildList(file: CachedFile, children: seq<Child>, owner: ClauseOwner)
    returns (result: Result<(), CacheError>)
    ensures result.Ok? <==> ListOk(file, children, owner)
    ensures result.Err? ==>
              exists c :: c in children &&
                if InBounds(file, c) then !InParseOrder(c, owner) && result.error == OUT_OF_ORDER
                else result.error == OUT_OF_BOUNDS
  {
    for k := 0 to |children|
      invariant ListOk(file, children[..k], owner)
    {
      var child := children[k];
      assert child in children;
      var index, count := child.index, match child
        case Leaf(_) => |file.leaves|
        case LeafValue(_) => |file.leafValues|
        case Comment(_) => |file.comments|;
      var ownerIndex: Option<nat> := match (child, owner)
        case (Leaf(_), OwnerLeaf(slot)) => Some(slot)
        case (LeafValue(_), OwnerLeafValue(slot)) => Some(slot)
        case _ => None;
      if index >= count {
        return Err(OUT_OF_BOUNDS);
      }
      if ownerIndex.Some? && index >= ownerIndex.value {
        return Err(OUT_OF_ORDER);
      }
      assert children[..k + 1] == children[..k] + [child];
    }
    assert children[..|children|] == children;
    return Ok(());
  }

  method ValidateChildBounds(file: CachedFile) returns (result: Result<(), CacheError>)
    ensures result.Ok? <==> ChildrenOk(file)
  {
    result := CheckChildList(file, file.rootChildren, Root);
    if result.Err? {
      return;
    }
    for i := 0 to |file.leaves|
      invariant forall j | 0 <= j < i :: ValueOk(file, file.leaves[j].value, OwnerLeaf(j))
    {
      if file.leaves[i].value.Clause? {
        result := CheckChildList(file, file.leaves[i].value.children, OwnerLeaf(i));
        if result.Err? {
          return;
        }
      }
    }
    for i := 0 to |file.leafValues|
      invariant forall j | 0 <= j < i :: ValueOk(file, file.leafValues[j].value, OwnerLeafValue(j))
    {
      if file.leafValues[i].value.Clause? {
        result := CheckChildList(file, file.leafValues[i].value.children, OwnerLeafValue(i));
        if result.Err? {
          return;
        }
      }
    }
    return Ok(());
  }

  lemma ChildrenOkIsBounded(file: CachedFile)
    requires ChildrenOk(file)
    ensures Bounded(file)
  {
    forall n | IsClause(file, n)
      ensures NodesInFile(file, ClauseChildren(file, n).value)
    {
      var owner := if n.LeafNode? then OwnerLeaf(n.index) else OwnerLeafValue(n.index);
      assert ValueOk(file, NodeValue(file, n), owner);
    }
  }

  // Parse order leaves only cycles that pass through both tables.
  lemma NoSelfNesting(file: CachedFile, n: ArchivedNode)
    requires ChildrenOk(file)
    ensures !Nested(file, n, n)
  {
    if IsClause(file, n) {
      var owner := if n.LeafNode? then OwnerLeaf(n.index) else OwnerLeafValue(n.index);
      assert ValueOk(file, NodeValue(file, n), owner);
    }
  }

  // ------------------------------------------------------------------ comment text ranges

  function RangeEnd(comments: seq<CachedComment>, k: nat): nat
    requires k <= |comments|
  {
    if k == 0 then 0 else comments[k - 1].textEnd
  }

  predicate RangeOk(comments: seq<CachedComment>, pool: seq<Byte>, i: nat)
    requires i < |comments|
  {
    && comments[i].textStart == RangeEnd(comments, i)
    && comments[i].textStart < comments[i].textEnd <= U32(|pool|)
    && IsCharBoundary(pool, comments[i].textStart)
    && IsCharBoundary(pool, comments[i].textEnd)
  }

  // The first `k` ranges lie end to end from byte 0, none of them empty, cut between characters.
  ghost predicate TilesUpTo(comments: seq<CachedComment>, pool: seq<Byte>, k: nat)
    requires k <= |comments|
  {
    forall i | 0 <= i < k :: RangeOk(comments, pool, i)
  }

  ghost predicate Tiles(comments: seq<CachedComment>, pool: seq<Byte>) {
    TilesUpTo(comments, pool, |comments|) && RangeEnd(comments, |comments|) == U32(|pool|)
  }

  method ValidateCommentPool(file: CachedFile) returns (result: Result<(), CacheError>)
    ensures result.Ok? <==> Tiles(file.comments, file.commentTextPool)
  {
    var pool := file.commentTextPool;
    var poolLen := U32(|pool|);
    var carried := 0;
    for k := 0 to |file.comments|
      invariant TilesUpTo(file.comments, pool, k)
      invariant carried == RangeEnd(file.comments, k)
    {
      var start, end := file.comments[k].textStart, file.comments[k].textEnd;
      assert Tiles(file.comments, pool) ==> RangeOk(file.comments, pool, k);
      if end < start || start != carried || end > poolLen {
        return Err(RANGE_OUT_OF_ORDER);
      }
      if end == start {
        return Err(RANGE_EMPTY);
      }
      if !IsCharBoundary(pool, start) || !IsCharBoundary(pool, end) {
        return Err(RANGE_SPLITS_CHARACTER);
      }
      carried := end;
    }
    if carried != poolLen {
      return Err(POOL_NOT_COVERED);
    }
    return Ok(());
  }

  // What the three validators accept together.
  ghost predicate Accepted(file: CachedFile, limit: nat) {
    && ChildrenOk(file)
    && !WalkOfLength(file, limit + 1)
    && Tiles(file.comments, file.commentTextPool)
  }
}
