// What the cache promises: an accepted archive is canonical, and a well-formed arena survives
// being flattened and rebuilt.
module RoundTrip {
  import opened Wrappers
  import opened CacheFormat
  import opened ClauseDepth
  import opened ArchiveChecks
  import opened Pieces
  import opened Convert
  import Ast

  // ------------------------------------------------------------------ archive -> arena -> archive

  // The text of comment `i` in an arena rebuilt from an accepted archive is the range it was
  // archived with, and the texts before it fill the pool up to that range.
  lemma {:induction false} RebuiltTexts(
    file: CachedFile, texts: seq<string>, arena: Ast.Arena, root: seq<Child>, k: nat)
    requires Tiles(file.comments, file.commentTextPool) && Represents(texts, file, arena, root)
    requires k <= |file.comments|
    ensures RangeEnd(file.comments, k) <= |file.commentTextPool|
    ensures Flat(CommentParts(arena)[..k]) == file.commentTextPool[..RangeEnd(file.comments, k)]
  {
    if k > 0 {
      RebuiltTexts(file, texts, arena, root, k - 1);
      FlatNext(CommentParts(arena), k - 1);
      assert RangeOk(file.comments, file.commentTextPool, k - 1);
      var c := file.comments[k - 1];
      assert arena.comments[k - 1] == RebuiltComment(c);
      assert CommentParts(arena)[k - 1] == file.commentTextPool[c.textStart..c.textEnd];
    }
  }

  lemma CommentIsCanonical(
    file: CachedFile, texts: seq<string>, arena: Ast.Arena, root: seq<Child>, i: nat)
    requires Tiles(file.comments, file.commentTextPool) && Represents(texts, file, arena, root)
    requires i < |file.comments| && |file.commentTextPool| < 0x1_0000_0000
    ensures FlattenComments(arena.comments, CommentParts(arena))[i] == file.comments[i]
  {
    RebuiltTexts(file, texts, arena, root, i);
    RebuiltTexts(file, texts, arena, root, i + 1);
    assert RangeOk(file.comments, file.commentTextPool, i);
    assert arena.comments[i] == RebuiltComment(file.comments[i]);
  }

  // Rebuilding an accepted archive record and flattening the arena again gives the identical record
  // exactly when the pool's length fits the `u32` it is measured in. Past that, the validator measures
  // the pool modulo 2^32. No such record is ever read: see DecodedIsCanonical.
  lemma AcceptedIsCanonical(
    file: CachedFile, limit: nat, texts: seq<string>, arena: Ast.Arena, root: seq<Child>)
    requires Accepted(file, limit) && Represents(texts, file, arena, root)
    ensures Flatten(texts, arena, root) == file <==> |file.commentTextPool| < 0x1_0000_0000
  {
    var n := |file.comments|;
    var parts := CommentParts(arena);
    RebuiltTexts(file, texts, arena, root, n);
    assert parts[..n] == parts;
    assert Flat(parts) == file.commentTextPool[..U32(|file.commentTextPool|)];
    var flat := Flatten(texts, arena, root);
    if |file.commentTextPool| < 0x1_0000_0000 {
      forall i | 0 <= i < n
        ensures flat.comments[i] == file.comments[i]
      {
        CommentIsCanonical(file, texts, arena, root, i);
      }
      assert flat.comments == file.comments;
      assert flat.leaves == file.leaves;
      assert flat.leafValues == file.leafValues;
    } else {
      assert |flat.commentTextPool| < |file.commentTextPool|;
    }
  }

  // How much a cache file may decompress to.
  const MAX_ARCHIVE_DECODED_BYTES: nat := 0x800_0000

  // An archive that is read lies, pool included, in the bytes of a capped decode, so every accepted one
  // is canonical.
  lemma DecodedIsCanonical(
    decoded: seq<Byte>, at: nat, file: CachedFile, limit: nat, texts: seq<string>, arena: Ast.Arena, root: seq<Child>)
    requires |decoded| <= MAX_ARCHIVE_DECODED_BYTES
    requires at + |file.commentTextPool| <= |decoded|
    requires decoded[at..at + |file.commentTextPool|] == file.commentTextPool
    requires Accepted(file, limit) && Represents(texts, file, arena, root)
    ensures Flatten(texts, arena, root) == file
  {
    AcceptedIsCanonical(file, limit, texts, arena, root);
  }

  // ------------------------------------------------------------------ arena -> archive -> arena

  function ArenaChildren(arena: Ast.Arena, node: ArchivedNode): Option<seq<Child>> {
    match node
    case LeafNode(i) =>
      if i < |arena.leaves| && arena.leaves[i].value.Clause? then Some(arena.leaves[i].value.children) else None
    case LeafValueNode(i) =>
      if i < |arena.leafValues| && arena.leafValues[i].value.Clause? then Some(arena.leafValues[i].value.children)
      else None
  }

  ghost predicate ArenaNested(arena: Ast.Arena, from: ArchivedNode, to: ArchivedNode) {
    && ArenaChildren(arena, from).Some?
    && ArenaChildren(arena, to).Some?
    && exists c :: c in ArenaChildren(arena, from).value && ChildNode(c) == Some(to)
  }

  ghost predicate ArenaWalk(arena: Ast.Arena, walk: seq<ArchivedNode>) {
    && (forall i | 0 <= i < |walk| :: ArenaChildren(arena, walk[i]).Some?)
    && (forall i | 0 < i < |walk| :: ArenaNested(arena, walk[i - 1], walk[i]))
  }

  predicate ArenaListOk(arena: Ast.Arena, children: seq<Child>, owner: ClauseOwner) {
    forall c | c in children ::
      && InParseOrder(c, owner)
      && match c
         case Leaf(i) => i < |arena.leaves|
         case LeafValue(i) => i < |arena.leafValues|
         case Comment(i) => i < |arena.comments|
  }

  predicate ArenaValueOk(arena: Ast.Arena, value: Ast.Value, owner: ClauseOwner) {
    value.Clause? ==> ArenaListOk(arena, value.children, owner)
  }

  // What the parser builds: children in bounds and pushed before their clause, clauses nested no
  // deeper than the limit, and every comment with a text.
  ghost predicate WellFormed(arena: Ast.Arena, root: seq<Child>, limit: nat) {
    && ArenaListOk(arena, root, Root)
    && (forall i | 0 <= i < |arena.leaves| :: ArenaValueOk(arena, arena.leaves[i].value, OwnerLeaf(i)))
    && (forall i | 0 <= i < |arena.leafValues| ::
          ArenaValueOk(arena, arena.leafValues[i].value, OwnerLeafValue(i)))
    && (forall walk | ArenaWalk(arena, walk) :: |walk| <= limit)
    && (forall c | c in arena.comments :: CommentBytes(arena, c) != [])
  }

  function PoolSize(arena: Ast.Arena): nat { |Flat(CommentParts(arena))| }

  lemma SameClauses(texts: seq<string>, arena: Ast.Arena, root: seq<Child>, node: ArchivedNode)
    ensures var file := Flatten(texts, arena, root);
            && (IsClause(file, node) <==> ArenaChildren(arena, node).Some?)
            && (IsClause(file, node) ==> ClauseChildren(file, node) == ArenaChildren(arena, node))
  {
  }

  lemma SameWalks(texts: seq<string>, arena: Ast.Arena, root: seq<Child>, walk: seq<ArchivedNode>)
    ensures ClauseWalk(Flatten(texts, arena, root), walk) <==> ArenaWalk(arena, walk)
  {
    forall i | 0 <= i < |walk| {
      SameClauses(texts, arena, root, walk[i]);
    }
    var file := Flatten(texts, arena, root);
    forall i | 0 < i < |walk|
      ensures Nested(file, walk[i - 1], walk[i]) <==> ArenaNested(arena, walk[i - 1], walk[i])
    {
      SameClauses(texts, arena, root, walk[i - 1]);
      SameClauses(texts, arena, root, walk[i]);
    }
  }

  lemma SameNesting(texts: seq<string>, arena: Ast.Arena, root: seq<Child>, limit: nat)
    ensures WalkOfLength(Flatten(texts, arena, root), limit + 1)
        <==> exists walk :: ArenaWalk(arena, walk) && |walk| > limit
  {
    var file := Flatten(texts, arena, root);
    if walk :| |walk| == limit + 1 && ClauseWalk(file, walk) {
      SameWalks(texts, arena, root, walk);
    }
    if walk :| ArenaWalk(arena, walk) && |walk| > limit {
      SameWalks(texts, arena, root, walk);
      WalkPrefix(file, walk, limit + 1);
    }
  }

  lemma SameChildren(texts: seq<string>, arena: Ast.Arena, root: seq<Child>)
    ensures ChildrenOk(Flatten(texts, arena, root)) <==>
            && ArenaListOk(arena, root, Root)
            && (forall i | 0 <= i < |arena.leaves| :: ArenaValueOk(arena, arena.leaves[i].value, OwnerLeaf(i)))
            && (forall i | 0 <= i < |arena.leafValues| ::
                  ArenaValueOk(arena, arena.leafValues[i].value, OwnerLeafValue(i)))
  {
    var file := Flatten(texts, arena, root);
    SameList(texts, arena, root, root, Root);
    forall i | 0 <= i < |arena.leaves|
      ensures ValueOk(file, file.leaves[i].value, OwnerLeaf(i))
         <==> ArenaValueOk(arena, arena.leaves[i].value, OwnerLeaf(i))
    {
      if arena.leaves[i].value.Clause? {
        SameList(texts, arena, root, arena.leaves[i].value.children, OwnerLeaf(i));
      }
    }
    forall i | 0 <= i < |arena.leafValues|
      ensures ValueOk(file, file.leafValues[i].value, OwnerLeafValue(i))
         <==> ArenaValueOk(arena, arena.leafValues[i].value, OwnerLeafValue(i))
    {
      if arena.leafValues[i].value.Clause? {
        SameList(texts, arena, root, arena.leafValues[i].value.children, OwnerLeafValue(i));
      }
    }
  }

  lemma SameList(texts: seq<string>, arena: Ast.Arena, root: seq<Child>, children: seq<Child>, owner: ClauseOwner)
    ensures ListOk(Flatten(texts, arena, root), children, owner) <==> ArenaListOk(arena, children, owner)
  {
  }

  // A comment's text never begins inside a character, so neither does any range of the pool the
  // texts are laid into.
  lemma RangesCutBetweenCharacters(arena: Ast.Arena, k: nat)
    requires arena.commentPool.Some? ==> Ast.StartsWithCharacter(arena.commentPool.value)
    requires forall c | c in arena.comments :: CommentBytes(arena, c) != []
    requires k <= |arena.comments|
    ensures var parts := CommentParts(arena);
            && |Flat(parts[..k])| <= |Flat(parts)|
            && Ast.IsCharBoundary(Flat(parts), |Flat(parts[..k])|)
  {
    var parts := CommentParts(arena);
    if k == |parts| {
      assert parts[..k] == parts;
    } else {
      FlatSlice(parts, k);
      var c := arena.comments[k];
      assert c in arena.comments && parts[k] == CommentBytes(arena, c);
      var at := |Flat(parts[..k])|;
      assert Flat(parts)[at] == parts[k][0] == arena.commentPool.value[c.start];
    }
  }

  lemma FlattenedRange(arena: Ast.Arena, i: nat)
    requires arena.commentPool.Some? ==> Ast.StartsWithCharacter(arena.commentPool.value)
    requires PoolSize(arena) < 0x1_0000_0000
    requires forall c | c in arena.comments :: CommentBytes(arena, c) != []
    requires i < |arena.comments|
    ensures var parts := CommentParts(arena);
            && RangeOk(FlattenComments(arena.comments, parts), Flat(parts), i)
            && |Flat(parts[..i + 1])| <= |Flat(parts)|
  {
    FlatSlice(CommentParts(arena), i);
    assert arena.comments[i] in arena.comments;
    RangesCutBetweenCharacters(arena, i);
    RangesCutBetweenCharacters(arena, i + 1);
  }

  lemma FlattenedTiles(arena: Ast.Arena)
    requires arena.commentPool.Some? ==> Ast.StartsWithCharacter(arena.commentPool.value)
    requires PoolSize(arena) < 0x1_0000_0000
    requires forall c | c in arena.comments :: CommentBytes(arena, c) != []
    ensures Tiles(FlattenComments(arena.comments, CommentParts(arena)), Flat(CommentParts(arena)))
  {
    var parts := CommentParts(arena);
    forall i | 0 <= i < |parts|
      ensures RangeOk(FlattenComments(arena.comments, parts), Flat(parts), i)
    {
      FlattenedRange(arena, i);
    }
    assert parts[..|parts|] == parts;
  }

  lemma FlattenedTilesOnly(texts: seq<string>, arena: Ast.Arena, root: seq<Child>)
    requires PoolSize(arena) < 0x1_0000_0000
    requires var file := Flatten(texts, arena, root);
             Tiles(file.comments, file.commentTextPool)
    ensures forall c | c in arena.comments :: CommentBytes(arena, c) != []
  {
    var file := Flatten(texts, arena, root);
    var parts := CommentParts(arena);
    forall c | c in arena.comments
      ensures CommentBytes(arena, c) != []
    {
      var i :| 0 <= i < |arena.comments| && arena.comments[i] == c;
      FlatSlice(parts, i);
      assert RangeOk(file.comments, file.commentTextPool, i);
      assert parts[i] == CommentBytes(arena, c);
    }
  }

  // Flattening an arena gives an archive the loader accepts exactly when the arena is well formed.
  lemma FlattenedIsAccepted(texts: seq<string>, arena: Ast.Arena, root: seq<Child>, limit: nat)
    requires arena.commentPool.Some? ==> Ast.StartsWithCharacter(arena.commentPool.value)
    requires PoolSize(arena) < 0x1_0000_0000
    ensures Accepted(Flatten(texts, arena, root), limit) <==> WellFormed(arena, root, limit)
  {
    SameChildren(texts, arena, root);
    SameNesting(texts, arena, root, limit);
    var file := Flatten(texts, arena, root);
    if Tiles(file.comments, file.commentTextPool) {
      FlattenedTilesOnly(texts, arena, root);
    } else if forall c | c in arena.comments :: CommentBytes(arena, c) != [] {
      FlattenedTiles(arena);
    }
  }

  predicate SameValue(texts: seq<string>, value: Ast.Value, texts': seq<string>, value': Ast.Value) {
    match (value, value')
    case (String(t), String(t')) => Ast.Spelling(texts, t) == Ast.Spelling(texts', t')
    case (QString(t), QString(t')) => Ast.Spelling(texts, t) == Ast.Spelling(texts', t')
    case (String(_), _) => false
    case (QString(_), _) => false
    case _ => value == value'
  }

  predicate SameLeaf(texts: seq<string>, l: Ast.Leaf, texts': seq<string>, l': Ast.Leaf) {
    && Ast.Spelling(texts, l.key) == Ast.Spelling(texts', l'.key)
    && SameValue(texts, l.value, texts', l'.value)
    && l.op == l'.op && l.pos == l'.pos && l.valuePos == l'.valuePos && l.colorPrefix == l'.colorPrefix
  }

  predicate SameLeafValue(texts: seq<string>, v: Ast.LeafValue, texts': seq<string>, v': Ast.LeafValue) {
    SameValue(texts, v.value, texts', v'.value) && v.pos == v'.pos && v.colorPrefix == v'.colorPrefix
  }

  // Two arenas that read the same, each through its own string table and comment pool.
  ghost predicate SameArena(texts: seq<string>, arena: Ast.Arena, texts': seq<string>, arena': Ast.Arena) {
    && |arena.leaves| == |arena'.leaves|
    && (forall i | 0 <= i < |arena.leaves| :: SameLeaf(texts, arena.leaves[i], texts', arena'.leaves[i]))
    && |arena.leafValues| == |arena'.leafValues|
    && (forall i | 0 <= i < |arena.leafValues| ::
          SameLeafValue(texts, arena.leafValues[i], texts', arena'.leafValues[i]))
    && |arena.comments| == |arena'.comments|
    && (forall i | 0 <= i < |arena.comments| ::
          && CommentBytes(arena, arena.comments[i]) == CommentBytes(arena', arena'.comments[i])
          && arena.comments[i].pos == arena'.comments[i].pos)
  }

  lemma SameOnceFlattened(texts: seq<string>, l: Ast.Leaf, texts': seq<string>, l': Ast.Leaf)
    ensures FlattenLeaf(texts, l) == FlattenLeaf(texts', l') <==> SameLeaf(texts, l, texts', l')
  {
  }

  lemma SameValueOnceFlattened(texts: seq<string>, v: Ast.LeafValue, texts': seq<string>, v': Ast.LeafValue)
    ensures FlattenLeafValue(texts, v) == FlattenLeafValue(texts', v') <==> SameLeafValue(texts, v, texts', v')
  {
  }

  // A well-formed arena is accepted once flattened, and whatever the loader rebuilds from it reads
  // the same: every spelling, position and comment text is kept, whichever tokens the loading
  // table hands out.
  lemma ArenaSurvives(
    texts: seq<string>, arena: Ast.Arena, root: seq<Child>, limit: nat,
    texts': seq<string>, arena': Ast.Arena, root': seq<Child>)
    requires arena.commentPool.Some? ==> Ast.StartsWithCharacter(arena.commentPool.value)
    requires PoolSize(arena) < 0x1_0000_0000 && WellFormed(arena, root, limit)
    requires Represents(texts', Flatten(texts, arena, root), arena', root')
    ensures Accepted(Flatten(texts, arena, root), limit)
    ensures SameArena(texts, arena, texts', arena') && root' == root
  {
    var file := Flatten(texts, arena, root);
    FlattenedIsAccepted(texts, arena, root, limit);
    forall i | 0 <= i < |arena.leaves|
      ensures SameLeaf(texts, arena.leaves[i], texts', arena'.leaves[i])
    {
      SameOnceFlattened(texts, arena.leaves[i], texts', arena'.leaves[i]);
      assert FlattenLeaf(texts', arena'.leaves[i]) == file.leaves[i];
    }
    forall i | 0 <= i < |arena.leafValues|
      ensures SameLeafValue(texts, arena.leafValues[i], texts', arena'.leafValues[i])
    {
      SameValueOnceFlattened(texts, arena.leafValues[i], texts', arena'.leafValues[i]);
      assert FlattenLeafValue(texts', arena'.leafValues[i]) == file.leafValues[i];
    }
    forall i | 0 <= i < |arena.comments|
      ensures CommentBytes(arena, arena.comments[i]) == CommentBytes(arena', arena'.comments[i])
      ensures arena.comments[i].pos == arena'.comments[i].pos
    {
      CommentSurvives(texts, arena, root, texts', arena', root', i);
    }
  }

  lemma CommentSurvives(
    texts: seq<string>, arena: Ast.Arena, root: seq<Child>,
    texts': seq<string>, arena': Ast.Arena, root': seq<Child>, i: nat)
    requires PoolSize(arena) < 0x1_0000_0000 && i < |arena.comments|
    requires var file := Flatten(texts, arena, root);
             Tiles(file.comments, file.commentTextPool) && Represents(texts', file, arena', root')
    ensures CommentBytes(arena, arena.comments[i]) == CommentBytes(arena', arena'.comments[i])
    ensures arena.comments[i].pos == arena'.comments[i].pos
  {
    var file := Flatten(texts, arena, root);
    var parts := CommentParts(arena);
    FlatSlice(parts, i);
    assert RangeOk(file.comments, file.commentTextPool, i);
    assert arena'.comments[i] == RebuiltComment(file.comments[i]);
    assert parts[i] == CommentBytes(arena, arena.comments[i]);
  }
}
