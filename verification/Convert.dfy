// convert.rs: flattening a parsed file's arena into an archive and rebuilding it.
module Convert {
  import opened Wrappers
  import opened CacheFormat
  import opened ClauseDepth
  import opened ArchiveChecks
  import opened Pieces
  import Ast

  // The parser opens at most this many clauses; an archive also holds the empty clause it leaves.
  const MAX_CLAUSE_DEPTH: nat := 256
  const MAX_CACHED_CLAUSE_DEPTH: nat := MAX_CLAUSE_DEPTH + 1

  const TOKEN_UNDERRUN := Rejected("interned token underrun")

  // ------------------------------------------------------------------ what flattening means

  function FlattenValue(texts: seq<string>, value: Ast.Value): CachedValue {
    match value
    case String(token) => CachedValue.String(Ast.Spelling(texts, token))
    case QString(token) => CachedValue.QString(Ast.Spelling(texts, token))
    case Float(bits) => CachedValue.Float(bits)
    case Int(i) => CachedValue.Int(i)
    case Bool(b) => CachedValue.Bool(b)
    case Clause(children) => CachedValue.Clause(children)
  }

  function FlattenLeaf(texts: seq<string>, leaf: Ast.Leaf): CachedLeaf {
    CachedLeaf(
      Ast.Spelling(texts, leaf.key), FlattenValue(texts, leaf.value), leaf.op,
      leaf.pos.start.line, leaf.pos.start.col, leaf.pos.end.line, leaf.pos.end.col,
      leaf.valuePos.start.line, leaf.valuePos.start.col, leaf.valuePos.end.line, leaf.valuePos.end.col,
      leaf.colorPrefix)
  }

  function FlattenLeafValue(texts: seq<string>, leafValue: Ast.LeafValue): CachedLeafValue {
    CachedLeafValue(
      FlattenValue(texts, leafValue.value),
      leafValue.pos.start.line, leafValue.pos.start.col, leafValue.pos.end.line, leafValue.pos.end.col,
      leafValue.colorPrefix)
  }

  function FlattenLeaves(texts: seq<string>, leaves: seq<Ast.Leaf>): seq<CachedLeaf> {
    seq(|leaves|, i requires 0 <= i < |leaves| => FlattenLeaf(texts, leaves[i]))
  }

  function FlattenLeafValues(texts: seq<string>, leafValues: seq<Ast.LeafValue>): seq<CachedLeafValue> {
    seq(|leafValues|, i requires 0 <= i < |leafValues| => FlattenLeafValue(texts, leafValues[i]))
  }

  // The bytes a comment contributes to the pool; an unresolvable one contributes nothing.
  function CommentBytes(arena: Ast.Arena, comment: Ast.Comment): seq<Byte> {
    var text := Ast.CommentText(arena, comment);
    if text.Some? then text.value else []
  }

  function CommentParts(arena: Ast.Arena): seq<seq<Byte>> {
    seq(|arena.comments|, i requires 0 <= i < |arena.comments| => CommentBytes(arena, arena.comments[i]))
  }

  // A comment with its text at `textStart..textEnd` of a pool; both bounds are stored as `u32`.
  function FlattenComment(comment: Ast.Comment, textStart: nat, textEnd: nat): CachedComment {
    CachedComment(
      U32(textStart), U32(textEnd),
      comment.pos.start.line, comment.pos.start.col, comment.pos.end.line, comment.pos.end.col)
  }

  function FlattenComments(comments: seq<Ast.Comment>, parts: seq<seq<Byte>>): seq<CachedComment>
    requires |comments| == |parts|
  {
    seq(|comments|, i requires 0 <= i < |comments| =>
      FlattenComment(comments[i], |Flat(parts[..i])|, |Flat(parts[..i + 1])|))
  }

  function Flatten(texts: seq<string>, arena: Ast.Arena, root: seq<Child>): CachedFile {
    CachedFile(
      root,
      FlattenLeaves(texts, arena.leaves),
      FlattenLeafValues(texts, arena.leafValues),
      FlattenComments(arena.comments, CommentParts(arena)),
      Flat(CommentParts(arena)))
  }

  // ------------------------------------------------------------------ collecting strings

  function ValueTokens(value: Ast.Value): seq<Ast.Token> {
    match value
    case String(token) => [token]
    case QString(token) => [token]
    case _ => []
  }

  function LeafTokens(leaf: Ast.Leaf): seq<Ast.Token> { [leaf.key] + ValueTokens(leaf.value) }

  function LeafTokenParts(leaves: seq<Ast.Leaf>): seq<seq<Ast.Token>> {
    seq(|leaves|, i requires 0 <= i < |leaves| => LeafTokens(leaves[i]))
  }

  function LeafValueTokenParts(leafValues: seq<Ast.LeafValue>): seq<seq<Ast.Token>> {
    seq(|leafValues|, i requires 0 <= i < |leafValues| => ValueTokens(leafValues[i].value))
  }

  function ArenaTokens(arena: Ast.Arena): seq<Ast.Token> {
    Flat(LeafTokenParts(arena.leaves)) + Flat(LeafValueTokenParts(arena.leafValues))
  }

  function ValueStrings(value: CachedValue): seq<string> {
    match value
    case String(text) => [text]
    case QString(text) => [text]
    case _ => []
  }

  function LeafStrings(leaf: CachedLeaf): seq<string> { [leaf.key] + ValueStrings(leaf.value) }

  function LeafStringParts(leaves: seq<CachedLeaf>): seq<seq<string>> {
    seq(|leaves|, i requires 0 <= i < |leaves| => LeafStrings(leaves[i]))
  }

  function LeafValueStringParts(leafValues: seq<CachedLeafValue>): seq<seq<string>> {
    seq(|leafValues|, i requires 0 <= i < |leafValues| => ValueStrings(leafValues[i].value))
  }

  function FileStrings(file: CachedFile): seq<string> {
    Flat(LeafStringParts(file.leaves)) + Flat(LeafValueStringParts(file.leafValues))
  }

  predicate Spelled(texts: seq<string>, tokens: seq<Ast.Token>, strings: seq<string>) {
    && |tokens| == |strings|
    && forall i | 0 <= i < |tokens| :: Ast.Spelling(texts, tokens[i]) == strings[i]
  }

  method CollectTokens(arena: Ast.Arena) returns (tokens: seq<Ast.Token>)
    ensures tokens == ArenaTokens(arena)
  {
    tokens := [];
    ghost var leafParts := LeafTokenParts(arena.leaves);
    for i := 0 to |arena.leaves|
      invariant tokens == Flat(leafParts[..i])
    {
      FlatNext(leafParts, i);
      ghost var before := tokens;
      tokens := tokens + [arena.leaves[i].key];
      tokens := tokens + ValueTokens(arena.leaves[i].value);
      assert tokens == before + leafParts[i];
    }
    FlatAll(leafParts);
    ghost var parts := LeafValueTokenParts(arena.leafValues);
    for i := 0 to |arena.leafValues|
      invariant tokens == Flat(leafParts) + Flat(parts[..i])
    {
      FlatGrows(Flat(leafParts), parts, i);
      tokens := tokens + ValueTokens(arena.leafValues[i].value);
    }
    FlatAll(parts);
  }

  method CollectStrings(file: CachedFile) returns (strings: seq<string>)
    ensures strings == FileStrings(file)
  {
    strings := [];
    ghost var leafParts := LeafStringParts(file.leaves);
    for i := 0 to |file.leaves|
      invariant strings == Flat(leafParts[..i])
    {
      FlatNext(leafParts, i);
      ghost var before := strings;
      strings := strings + [file.leaves[i].key];
      strings := strings + ValueStrings(file.leaves[i].value);
      assert strings == before + leafParts[i];
    }
    FlatAll(leafParts);
    ghost var parts := LeafValueStringParts(file.leafValues);
    for i := 0 to |file.leafValues|
      invariant strings == Flat(leafParts) + Flat(parts[..i])
    {
      FlatGrows(Flat(leafParts), parts, i);
      strings := strings + ValueStrings(file.leafValues[i].value);
    }
    FlatAll(parts);
  }

  // All spellings are copied into one text first and cut apart afterwards.
  method ResolveTokens(table: Ast.StringTable, tokens: seq<Ast.Token>) returns (strings: seq<string>)
    ensures Spelled(table.texts, tokens, strings)
  {
    ghost var texts := table.texts;
    ghost var spelled := seq(|tokens|, i requires 0 <= i < |tokens| => Ast.Spelling(texts, tokens[i]));
    var text: string := [];
    var ends: seq<nat> := [];
    for i := 0 to |tokens|
      invariant text == Flat(spelled[..i])
      invariant |ends| == i && forall j | 0 <= j < i :: ends[j] == |Flat(spelled[..j + 1])|
    {
      FlatNext(spelled, i);
      text := text + Ast.Spelling(table.texts, tokens[i]);
      ends := ends + [|text|];
    }
    assert spelled[..|tokens|] == spelled;
    strings := CutApart(text, ends, spelled);
  }

  method CutApart(text: string, ends: seq<nat>, ghost spelled: seq<string>) returns (strings: seq<string>)
    requires text == Flat(spelled) && |ends| == |spelled|
    requires forall j | 0 <= j < |ends| :: ends[j] == |Flat(spelled[..j + 1])|
    ensures strings == spelled
  {
    strings := [];
    var start := 0;
    for i := 0 to |ends|
      invariant start == |Flat(spelled[..i])|
      invariant strings == spelled[..i]
    {
      FlatSlice(spelled, i);
      strings := strings + [text[start..ends[i]]];
      start := ends[i];
    }
  }

  // ------------------------------------------------------------------ arena to archive

  method ValueToCached(value: Ast.Value, strings: Cursor<string>, ghost texts: seq<string>)
    returns (cached: CachedValue)
    requires strings.next + |ValueTokens(value)| <= |strings.items|
    requires Spelled(texts, ValueTokens(value), strings.items[strings.next..strings.next + |ValueTokens(value)|])
    modifies strings
    ensures cached == FlattenValue(texts, value)
    ensures strings.next == old(strings.next) + |ValueTokens(value)|
  {
    match value {
      case String(token) =>
        assert ValueTokens(value)[0] == token;
        var s := strings.Next();
        cached := CachedValue.String(s.value);
      case QString(token) =>
        assert ValueTokens(value)[0] == token;
        var s := strings.Next();
        cached := CachedValue.QString(s.value);
      case Float(bits) => cached := CachedValue.Float(bits);
      case Int(i) => cached := CachedValue.Int(i);
      case Bool(b) => cached := CachedValue.Bool(b);
      case Clause(children) => cached := CachedValue.Clause(children);
    }
  }

  method LeafToCached(leaf: Ast.Leaf, strings: Cursor<string>, ghost texts: seq<string>)
    returns (cached: CachedLeaf)
    requires strings.next + |LeafTokens(leaf)| <= |strings.items|
    requires Spelled(texts, LeafTokens(leaf), strings.items[strings.next..strings.next + |LeafTokens(leaf)|])
    modifies strings
    ensures cached == FlattenLeaf(texts, leaf)
    ensures strings.next == old(strings.next) + |LeafTokens(leaf)|
  {
    ghost var drawn := strings.items[strings.next..strings.next + |LeafTokens(leaf)|];
    assert LeafTokens(leaf)[0] == leaf.key && LeafTokens(leaf)[1..] == ValueTokens(leaf.value);
    assert drawn[1..] == strings.items[strings.next + 1..strings.next + |LeafTokens(leaf)|];
    assert Spelled(texts, ValueTokens(leaf.value), drawn[1..]);
    var key := strings.Next();
    var value := ValueToCached(leaf.value, strings, texts);
    cached := CachedLeaf(
      key.value, value, leaf.op,
      leaf.pos.start.line, leaf.pos.start.col, leaf.pos.end.line, leaf.pos.end.col,
      leaf.valuePos.start.line, leaf.valuePos.start.col, leaf.valuePos.end.line, leaf.valuePos.end.col,
      leaf.colorPrefix);
  }

  // The strings drawn for part `n` are the spellings of part `n`'s tokens.
  lemma PartSpelled(texts: seq<string>, parts: seq<seq<Ast.Token>>, items: seq<string>, start: nat, n: nat)
    requires n < |parts| && start + |Flat(parts)| <= |items|
    requires Spelled(texts, Flat(parts), items[start..start + |Flat(parts)|])
    ensures var from := start + |Flat(parts[..n])|;
            && start + |Flat(parts[..n + 1])| == from + |parts[n]| <= |items|
            && Spelled(texts, parts[n], items[from..from + |parts[n]|])
  {
    FlatSlice(parts, n);
    var (lo, hi) := (|Flat(parts[..n])|, |Flat(parts[..n + 1])|);
    SpelledSlice(texts, Flat(parts), items[start..start + |Flat(parts)|], lo, hi);
    SliceOfSlice(items, start, |Flat(parts)|, lo, hi);
  }

  method CommentsToCached(arena: Ast.Arena) returns (comments: seq<CachedComment>, pool: seq<Byte>)
    ensures comments == FlattenComments(arena.comments, CommentParts(arena))
    ensures pool == Flat(CommentParts(arena))
  {
    comments, pool := [], [];
    ghost var parts := CommentParts(arena);
    ghost var all := FlattenComments(arena.comments, parts);
    for i := 0 to |arena.comments|
      invariant pool == Flat(parts[..i])
      invariant comments == all[..i]
    {
      FlatNext(parts, i);
      assert all[..i + 1] == all[..i] + [all[i]];
      var textStart := |pool|;
      var text := Ast.CommentText(arena, arena.comments[i]);
      if text.Some? {
        pool := pool + text.value;
      }
      assert pool == Flat(parts[..i + 1]);
      comments := comments + [FlattenComment(arena.comments[i], textStart, |pool|)];
    }
    assert parts[..|parts|] == parts;
  }

  lemma FlattenNextLeaf(texts: seq<string>, leaves: seq<Ast.Leaf>, leaf: Ast.Leaf)
    ensures FlattenLeaves(texts, leaves + [leaf]) == FlattenLeaves(texts, leaves) + [FlattenLeaf(texts, leaf)]
  {
  }

  lemma FlattenNextLeafValue(texts: seq<string>, leafValues: seq<Ast.LeafValue>, leafValue: Ast.LeafValue)
    ensures FlattenLeafValues(texts, leafValues + [leafValue])
         == FlattenLeafValues(texts, leafValues) + [FlattenLeafValue(texts, leafValue)]
  {
  }

  method LeavesToCached(leaves: seq<Ast.Leaf>, strings: Cursor<string>, ghost texts: seq<string>)
    returns (cached: seq<CachedLeaf>)
    requires var tokens := Flat(LeafTokenParts(leaves));
             && strings.next + |tokens| <= |strings.items|
             && Spelled(texts, tokens, strings.items[strings.next..strings.next + |tokens|])
    modifies strings
    ensures cached == FlattenLeaves(texts, leaves)
    ensures strings.next == old(strings.next) + |Flat(LeafTokenParts(leaves))|
  {
    ghost var parts := LeafTokenParts(leaves);
    ghost var start := strings.next;
    cached := [];
    for i := 0 to |leaves|
      invariant strings.next == start + |Flat(parts[..i])|
      invariant cached == FlattenLeaves(texts, leaves[..i])
    {
      PartSpelled(texts, parts, strings.items, start, i);
      assert parts[i] == LeafTokens(leaves[i]);
      var leaf := LeafToCached(leaves[i], strings, texts);
      FlattenNextLeaf(texts, leaves[..i], leaves[i]);
      assert leaves[..i + 1] == leaves[..i] + [leaves[i]];
      cached := cached + [leaf];
    }
    assert parts[..|parts|] == parts && leaves[..|leaves|] == leaves;
  }

  method LeafValuesToCached(leafValues: seq<Ast.LeafValue>, strings: Cursor<string>, ghost texts: seq<string>)
    returns (cached: seq<CachedLeafValue>)
    requires var tokens := Flat(LeafValueTokenParts(leafValues));
             && strings.next + |tokens| <= |strings.items|
             && Spelled(texts, tokens, strings.items[strings.next..strings.next + |tokens|])
    modifies strings
    ensures cached == FlattenLeafValues(texts, leafValues)
    ensures strings.next == old(strings.next) + |Flat(LeafValueTokenParts(leafValues))|
  {
    ghost var parts := LeafValueTokenParts(leafValues);
    ghost var start := strings.next;
    cached := [];
    for i := 0 to |leafValues|
      invariant strings.next == start + |Flat(parts[..i])|
      invariant cached == FlattenLeafValues(texts, leafValues[..i])
    {
      PartSpelled(texts, parts, strings.items, start, i);
      var lv := leafValues[i];
      assert parts[i] == ValueTokens(lv.value);
      var value := ValueToCached(lv.value, strings, texts);
      FlattenNextLeafValue(texts, leafValues[..i], lv);
      assert leafValues[..i + 1] == leafValues[..i] + [lv];
      cached := cached + [CachedLeafValue(
        value, lv.pos.start.line, lv.pos.start.col, lv.pos.end.line, lv.pos.end.col, lv.colorPrefix)];
    }
    assert parts[..|parts|] == parts && leafValues[..|leafValues|] == leafValues;
  }

  // Both passes over the strings stay in step: the second one draws exactly what the first one
  // collected, in the same order, and leaves nothing over.
  method ArenaToCached(arena: Ast.Arena, root: seq<Child>, table: Ast.StringTable)
    returns (file: CachedFile)
    ensures file == Flatten(table.texts, arena, root)
  {
    var tokens := CollectTokens(arena);
    var resolved := ResolveTokens(table, tokens);
    var comments, pool := CommentsToCached(arena);
    ghost var texts := table.texts;
    ghost var leafTokens := Flat(LeafTokenParts(arena.leaves));
    assert resolved[..|leafTokens|] + resolved[|leafTokens|..] == resolved;
    var strings := new Cursor<string>(resolved);
    var leaves := LeavesToCached(arena.leaves, strings, texts);
    SpelledTail(texts, tokens, resolved, |leafTokens|);
    var leafValues := LeafValuesToCached(arena.leafValues, strings, texts);
    assert strings.next == |strings.items|;
    file := CachedFile(root, leaves, leafValues, comments, pool);
  }

  lemma SpelledTail(texts: seq<string>, tokens: seq<Ast.Token>, strings: seq<string>, n: nat)
    requires Spelled(texts, tokens, strings) && n <= |tokens|
    ensures Spelled(texts, tokens[..n], strings[..n]) && Spelled(texts, tokens[n..], strings[n..])
  {
  }

  // ------------------------------------------------------------------ archive to arena

  function ToRange(startLine: nat, startCol: nat, endLine: nat, endCol: nat): Ast.SourceRange {
    Ast.SourceRange(Ast.SourcePos(startLine, startCol), Ast.SourcePos(endLine, endCol))
  }

  function RebuiltComment(c: CachedComment): Ast.Comment {
    Ast.Comment(c.textStart, c.textEnd, ToRange(c.startLine, c.startCol, c.endLine, c.endCol))
  }

  function RebuiltPool(file: CachedFile): Option<seq<Byte>> {
    if file.commentTextPool == [] then None else Some(file.commentTextPool)
  }

  // The arena holds what the archive holds, entry by entry, with every string interned.
  ghost predicate Represents(texts: seq<string>, file: CachedFile, arena: Ast.Arena, root: seq<Child>) {
    && root == file.rootChildren
    && FlattenLeaves(texts, arena.leaves) == file.leaves
    && FlattenLeafValues(texts, arena.leafValues) == file.leafValues
    && |arena.comments| == |file.comments|
    && (forall i | 0 <= i < |file.comments| :: arena.comments[i] == RebuiltComment(file.comments[i]))
    && arena.commentPool == RebuiltPool(file)
  }

  method NextToken(tokens: Cursor<Ast.Token>) returns (result: Result<Ast.Token, CacheError>)
    modifies tokens
    ensures old(tokens.next) < |tokens.items| ==>
              result == Ok(tokens.items[old(tokens.next)]) && tokens.next == old(tokens.next) + 1
    ensures old(tokens.next) >= |tokens.items| ==>
              result == Err(TOKEN_UNDERRUN) && tokens.next == old(tokens.next)
  {
    var token := tokens.Next();
    match token {
      case Some(t) => return Ok(t);
      case None => return Err(TOKEN_UNDERRUN);
    }
  }

  method ValueFromArchived(value: CachedValue, tokens: Cursor<Ast.Token>, ghost texts: seq<string>)
    returns (result: Result<Ast.Value, CacheError>)
    modifies tokens
    ensures result.Ok? <==> old(tokens.next) + |ValueStrings(value)| <= |tokens.items| || ValueStrings(value) == []
    ensures result.Ok? ==>
              && tokens.next == old(tokens.next) + |ValueStrings(value)|
              && (ValueStrings(value) != [] ==> tokens.next <= |tokens.items|)
              && (tokens.next <= |tokens.items| &&
                  Spelled(texts, tokens.items[old(tokens.next)..tokens.next], ValueStrings(value))
                  ==> FlattenValue(texts, result.value) == value)
    ensures result.Err? ==> result.error == TOKEN_UNDERRUN
  {
    match value {
      case String(_) =>
        var token := NextToken(tokens);
        if token.Err? {
          return Err(token.error);
        }
        assert tokens.items[old(tokens.next)..tokens.next] == [token.value];
        return Ok(Ast.Value.String(token.value));
      case QString(_) =>
        var token := NextToken(tokens);
        if token.Err? {
          return Err(token.error);
        }
        assert tokens.items[old(tokens.next)..tokens.next] == [token.value];
        return Ok(Ast.Value.QString(token.value));
      case Float(bits) => return Ok(Ast.Value.Float(bits));
      case Int(i) => return Ok(Ast.Value.Int(i));
      case Bool(b) => return Ok(Ast.Value.Bool(b));
      case Clause(children) => return Ok(Ast.Value.Clause(children));
    }
  }

  method LeafFromArchived(leaf: CachedLeaf, tokens: Cursor<Ast.Token>, ghost texts: seq<string>)
    returns (result: Result<Ast.Leaf, CacheError>)
    modifies tokens
    ensures result.Ok? <==> old(tokens.next) + |LeafStrings(leaf)| <= |tokens.items|
    ensures result.Ok? ==>
              && tokens.next == old(tokens.next) + |LeafStrings(leaf)|
              && (Spelled(texts, tokens.items[old(tokens.next)..tokens.next], LeafStrings(leaf))
                  ==> FlattenLeaf(texts, result.value) == leaf)
    ensures result.Err? ==> result.error == TOKEN_UNDERRUN
  {
    ghost var from := tokens.next;
    var key := NextToken(tokens);
    if key.Err? {
      return Err(key.error);
    }
    var value := ValueFromArchived(leaf.value, tokens, texts);
    if value.Err? {
      return Err(value.error);
    }
    ghost var drawn := tokens.items[from..tokens.next];
    assert drawn[1..] == tokens.items[from + 1..tokens.next];
    assert LeafStrings(leaf)[0] == leaf.key && LeafStrings(leaf)[1..] == ValueStrings(leaf.value);
    assert Spelled(texts, drawn, LeafStrings(leaf)) ==> Spelled(texts, drawn[1..], ValueStrings(leaf.value));
    return Ok(Ast.Leaf(
      key.value, value.value, leaf.op,
      ToRange(leaf.startLine, leaf.startCol, leaf.endLine, leaf.endCol),
      ToRange(leaf.valueStartLine, leaf.valueStartCol, leaf.valueEndLine, leaf.valueEndCol),
      leaf.colorPrefix));
  }

  lemma SpelledSlice(texts: seq<string>, tokens: seq<Ast.Token>, strings: seq<string>, lo: nat, hi: nat)
    requires Spelled(texts, tokens, strings) && lo <= hi <= |tokens|
    ensures Spelled(texts, tokens[lo..hi], strings[lo..hi])
  {
    forall i | 0 <= i < hi - lo
      ensures Ast.Spelling(texts, tokens[lo..hi][i]) == strings[lo..hi][i]
    {
      assert Ast.Spelling(texts, tokens[lo + i]) == strings[lo + i];
    }
  }

  lemma SliceOfSlice<T>(items: seq<T>, start: nat, length: nat, lo: nat, hi: nat)
    requires start + length <= |items| && lo <= hi <= length
    ensures items[start..start + length][lo..hi] == items[start + lo..start + hi]
  {
    var (inner, outer) := (items[start..start + length][lo..hi], items[start + lo..start + hi]);
    assert |inner| == |outer|;
    assert forall i | 0 <= i < |inner| :: inner[i] == items[start + lo + i] == outer[i];
  }

  lemma PartDrawn(texts: seq<string>, items: seq<Ast.Token>, parts: seq<seq<string>>, start: nat, n: nat)
    requires n < |parts| && start + |Flat(parts)| <= |items|
    requires Spelled(texts, items[start..start + |Flat(parts)|], Flat(parts))
    ensures var from := start + |Flat(parts[..n])|;
            && start + |Flat(parts[..n + 1])| == from + |parts[n]| <= |items|
            && Spelled(texts, items[from..from + |parts[n]|], parts[n])
  {
    FlatSlice(parts, n);
    var (lo, hi) := (|Flat(parts[..n])|, |Flat(parts[..n + 1])|);
    SpelledSlice(texts, items[start..start + |Flat(parts)|], Flat(parts), lo, hi);
    SliceOfSlice(items, start, |Flat(parts)|, lo, hi);
  }

  // Rebuilding fails only where a validator fails; the token stream never runs out.
  method ArchivedToArena(file: CachedFile, table: Ast.StringTable)
    returns (result: Result<(Ast.Arena, seq<Child>), CacheError>)
    modifies table
    ensures result.Ok? <==> Accepted(file, MAX_CACHED_CLAUSE_DEPTH)
    ensures result.Ok? ==> Represents(table.texts, file, result.value.0, result.value.1)
    ensures old(table.texts) <= table.texts
  {
    var bounds := ValidateChildBounds(file);
    if bounds.Err? {
      return Err(bounds.error);
    }
    ChildrenOkIsBounded(file);
    ghost var depths, pushes;
    var depth;
    depth, depths, pushes := ValidateClauseDepth(file, MAX_CACHED_CLAUSE_DEPTH);
    if depth.Err? {
      return Err(depth.error);
    }
    var pool := ValidateCommentPool(file);
    if pool.Err? {
      return Err(pool.error);
    }
    var toIntern := CollectStrings(file);
    var interned := table.InternBatch(toIntern);
    result := Rebuild(file, interned, table.texts);
  }

  lemma RebuiltNextLeaf(
    texts: seq<string>, rebuilt: seq<Ast.Leaf>, leaf: Ast.Leaf, leaves: seq<CachedLeaf>, i: nat)
    requires i < |leaves| && FlattenLeaves(texts, rebuilt) == leaves[..i] && FlattenLeaf(texts, leaf) == leaves[i]
    ensures FlattenLeaves(texts, rebuilt + [leaf]) == leaves[..i + 1]
  {
    FlattenNextLeaf(texts, rebuilt, leaf);
  }

  lemma RebuiltNextLeafValue(
    texts: seq<string>, rebuilt: seq<Ast.LeafValue>, leafValue: Ast.LeafValue, leafValues: seq<CachedLeafValue>, i: nat)
    requires i < |leafValues| && FlattenLeafValues(texts, rebuilt) == leafValues[..i]
    requires FlattenLeafValue(texts, leafValue) == leafValues[i]
    ensures FlattenLeafValues(texts, rebuilt + [leafValue]) == leafValues[..i + 1]
  {
    FlattenNextLeafValue(texts, rebuilt, leafValue);
  }

  predicate SpelledFrom(texts: seq<string>, items: seq<Ast.Token>, start: nat, strings: seq<string>) {
    start + |strings| <= |items| && Spelled(texts, items[start..start + |strings|], strings)
  }

  // The leaves drawn from the token stream so far: `next` is where the stream is.
  ghost predicate LeavesDrawn(
    texts: seq<string>, items: seq<Ast.Token>, leaves: seq<CachedLeaf>, start: nat, i: nat, next: nat,
    rebuilt: seq<Ast.Leaf>)
  {
    var parts := LeafStringParts(leaves);
    && i <= |leaves| && |rebuilt| == i
    && next == start + |Flat(parts[..i])| <= |items|
    && (SpelledFrom(texts, items, start, Flat(parts)) ==> FlattenLeaves(texts, rebuilt) == leaves[..i])
  }

  lemma LeavesDrawnStart(texts: seq<string>, items: seq<Ast.Token>, leaves: seq<CachedLeaf>, start: nat)
    requires start <= |items|
    ensures LeavesDrawn(texts, items, leaves, start, 0, start, [])
  {
    assert LeafStringParts(leaves)[..0] == [];
  }

  lemma LeavesSpelledNext(
    texts: seq<string>, items: seq<Ast.Token>, leaves: seq<CachedLeaf>, start: nat, i: nat, next: nat,
    rebuilt: seq<Ast.Leaf>, one: Ast.Leaf)
    requires LeavesDrawn(texts, items, leaves, start, i, next, rebuilt) && i < |leaves|
    requires SpelledFrom(texts, items, start, Flat(LeafStringParts(leaves)))
    requires var to := next + |LeafStrings(leaves[i])|;
             to <= |items|
             && (Spelled(texts, items[next..to], LeafStrings(leaves[i])) ==> FlattenLeaf(texts, one) == leaves[i])
    ensures FlattenLeaves(texts, rebuilt + [one]) == leaves[..i + 1]
  {
    var parts := LeafStringParts(leaves);
    assert parts[i] == LeafStrings(leaves[i]);
    PartDrawn(texts, items, parts, start, i);
    RebuiltNextLeaf(texts, rebuilt, one, leaves, i);
  }

  lemma LeavesDrawnNext(
    texts: seq<string>, items: seq<Ast.Token>, leaves: seq<CachedLeaf>, start: nat, i: nat, next: nat,
    rebuilt: seq<Ast.Leaf>, one: Ast.Leaf)
    requires LeavesDrawn(texts, items, leaves, start, i, next, rebuilt) && i < |leaves|
    requires var to := next + |LeafStrings(leaves[i])|;
             to <= |items|
             && (Spelled(texts, items[next..to], LeafStrings(leaves[i])) ==> FlattenLeaf(texts, one) == leaves[i])
    ensures LeavesDrawn(texts, items, leaves, start, i + 1, next + |LeafStrings(leaves[i])|, rebuilt + [one])
  {
    var parts := LeafStringParts(leaves);
    assert parts[i] == LeafStrings(leaves[i]);
    FlatNext(parts, i);
    if SpelledFrom(texts, items, start, Flat(parts)) {
      LeavesSpelledNext(texts, items, leaves, start, i, next, rebuilt, one);
    }
  }

  lemma LeavesRunOut(
    texts: seq<string>, items: seq<Ast.Token>, leaves: seq<CachedLeaf>, start: nat, i: nat, next: nat,
    rebuilt: seq<Ast.Leaf>)
    requires LeavesDrawn(texts, items, leaves, start, i, next, rebuilt) && i < |leaves|
    requires next + |LeafStrings(leaves[i])| > |items|
    ensures start + |Flat(LeafStringParts(leaves))| > |items|
  {
    assert LeafStringParts(leaves)[i] == LeafStrings(leaves[i]);
    FlatSlice(LeafStringParts(leaves), i);
  }

  lemma LeavesDrawnDone(
    texts: seq<string>, items: seq<Ast.Token>, leaves: seq<CachedLeaf>, start: nat, next: nat, rebuilt: seq<Ast.Leaf>)
    requires LeavesDrawn(texts, items, leaves, start, |leaves|, next, rebuilt)
    ensures next == start + |Flat(LeafStringParts(leaves))| <= |items| && |rebuilt| == |leaves|
    ensures Spelled(texts, items[start..next], Flat(LeafStringParts(leaves))) ==>
              FlattenLeaves(texts, rebuilt) == leaves
  {
    FlatAll(LeafStringParts(leaves));
    assert leaves[..|leaves|] == leaves;
  }

  method LeavesFromArchived(leaves: seq<CachedLeaf>, tokens: Cursor<Ast.Token>, ghost texts: seq<string>)
    returns (result: Result<seq<Ast.Leaf>, CacheError>)
    requires tokens.next <= |tokens.items|
    modifies tokens
    ensures var strings := Flat(LeafStringParts(leaves));
            && (result.Ok? <==> old(tokens.next) + |strings| <= |tokens.items|)
            && (result.Ok? ==> tokens.next == old(tokens.next) + |strings| && |result.value| == |leaves|)
            && (result.Ok? && Spelled(texts, tokens.items[old(tokens.next)..tokens.next], strings)
                ==> FlattenLeaves(texts, result.value) == leaves)
  {
    ghost var (items, start) := (tokens.items, tokens.next);
    LeavesDrawnStart(texts, items, leaves, start);
    var rebuilt := [];
    for i := 0 to |leaves|
      invariant LeavesDrawn(texts, items, leaves, start, i, tokens.next, rebuilt)
    {
      ghost var next := tokens.next;
      var leaf := LeafFromArchived(leaves[i], tokens, texts);
      if leaf.Err? {
        LeavesRunOut(texts, items, leaves, start, i, next, rebuilt);
        return Err(leaf.error);
      }
      LeavesDrawnNext(texts, items, leaves, start, i, next, rebuilt, leaf.value);
      rebuilt := rebuilt + [leaf.value];
    }
    LeavesDrawnDone(texts, items, leaves, start, tokens.next, rebuilt);
    return Ok(rebuilt);
  }

  // The leaf values drawn from the token stream so far: `next` is where the stream is.
  ghost predicate LeafValuesDrawn(
    texts: seq<string>, items: seq<Ast.Token>, leafValues: seq<CachedLeafValue>, start: nat, i: nat, next: nat,
    rebuilt: seq<Ast.LeafValue>)
  {
    var parts := LeafValueStringParts(leafValues);
    && i <= |leafValues| && |rebuilt| == i
    && next == start + |Flat(parts[..i])| <= |items|
    && (SpelledFrom(texts, items, start, Flat(parts)) ==> FlattenLeafValues(texts, rebuilt) == leafValues[..i])
  }

  lemma LeafValuesDrawnStart(texts: seq<string>, items: seq<Ast.Token>, leafValues: seq<CachedLeafValue>, start: nat)
    requires start <= |items|
    ensures LeafValuesDrawn(texts, items, leafValues, start, 0, start, [])
  {
    assert LeafValueStringParts(leafValues)[..0] == [];
  }

  lemma LeafValuesSpelledNext(
    texts: seq<string>, items: seq<Ast.Token>, leafValues: seq<CachedLeafValue>, start: nat, i: nat, next: nat,
    rebuilt: seq<Ast.LeafValue>, one: Ast.LeafValue)
    requires LeafValuesDrawn(texts, items, leafValues, start, i, next, rebuilt) && i < |leafValues|
    requires SpelledFrom(texts, items, start, Flat(LeafValueStringParts(leafValues)))
    requires var strings := ValueStrings(leafValues[i].value);
             var to := next + |strings|;
             to <= |items|
             && (Spelled(texts, items[next..to], strings) ==> FlattenLeafValue(texts, one) == leafValues[i])
    ensures FlattenLeafValues(texts, rebuilt + [one]) == leafValues[..i + 1]
  {
    var parts := LeafValueStringParts(leafValues);
    assert parts[i] == ValueStrings(leafValues[i].value);
    PartDrawn(texts, items, parts, start, i);
    RebuiltNextLeafValue(texts, rebuilt, one, leafValues, i);
  }

  lemma LeafValuesDrawnNext(
    texts: seq<string>, items: seq<Ast.Token>, leafValues: seq<CachedLeafValue>, start: nat, i: nat, next: nat,
    rebuilt: seq<Ast.LeafValue>, one: Ast.LeafValue)
    requires LeafValuesDrawn(texts, items, leafValues, start, i, next, rebuilt) && i < |leafValues|
    requires var strings := ValueStrings(leafValues[i].value);
             var to := next + |strings|;
             to <= |items|
             && (Spelled(texts, items[next..to], strings) ==> FlattenLeafValue(texts, one) == leafValues[i])
    ensures var to := next + |ValueStrings(leafValues[i].value)|;
            LeafValuesDrawn(texts, items, leafValues, start, i + 1, to, rebuilt + [one])
  {
    var parts := LeafValueStringParts(leafValues);
    assert parts[i] == ValueStrings(leafValues[i].value);
    FlatNext(parts, i);
    if SpelledFrom(texts, items, start, Flat(parts)) {
      LeafValuesSpelledNext(texts, items, leafValues, start, i, next, rebuilt, one);
    }
  }

  lemma LeafValuesRunOut(
    texts: seq<string>, items: seq<Ast.Token>, leafValues: seq<CachedLeafValue>, start: nat, i: nat, next: nat,
    rebuilt: seq<Ast.LeafValue>)
    requires LeafValuesDrawn(texts, items, leafValues, start, i, next, rebuilt) && i < |leafValues|
    requires next + |ValueStrings(leafValues[i].value)| > |items|
    ensures start + |Flat(LeafValueStringParts(leafValues))| > |items|
  {
    assert LeafValueStringParts(leafValues)[i] == ValueStrings(leafValues[i].value);
    FlatSlice(LeafValueStringParts(leafValues), i);
  }

  lemma LeafValuesDrawnDone(
    texts: seq<string>, items: seq<Ast.Token>, leafValues: seq<CachedLeafValue>, start: nat, next: nat,
    rebuilt: seq<Ast.LeafValue>)
    requires LeafValuesDrawn(texts, items, leafValues, start, |leafValues|, next, rebuilt)
    ensures next == start + |Flat(LeafValueStringParts(leafValues))| <= |items| && |rebuilt| == |leafValues|
    ensures Spelled(texts, items[start..next], Flat(LeafValueStringParts(leafValues))) ==>
              FlattenLeafValues(texts, rebuilt) == leafValues
  {
    FlatAll(LeafValueStringParts(leafValues));
    assert leafValues[..|leafValues|] == leafValues;
  }

  method LeafValuesFromArchived(leafValues: seq<CachedLeafValue>, tokens: Cursor<Ast.Token>, ghost texts: seq<string>)
    returns (result: Result<seq<Ast.LeafValue>, CacheError>)
    requires tokens.next <= |tokens.items|
    modifies tokens
    ensures var strings := Flat(LeafValueStringParts(leafValues));
            && (result.Ok? <==> old(tokens.next) + |strings| <= |tokens.items|)
            && (result.Ok? ==> tokens.next == old(tokens.next) + |strings| && |result.value| == |leafValues|)
            && (result.Ok? && Spelled(texts, tokens.items[old(tokens.next)..tokens.next], strings)
                ==> FlattenLeafValues(texts, result.value) == leafValues)
  {
    ghost var (items, start) := (tokens.items, tokens.next);
    LeafValuesDrawnStart(texts, items, leafValues, start);
    var rebuilt := [];
    for i := 0 to |leafValues|
      invariant LeafValuesDrawn(texts, items, leafValues, start, i, tokens.next, rebuilt)
    {
      ghost var next := tokens.next;
      var lv := leafValues[i];
      var value := ValueFromArchived(lv.value, tokens, texts);
      if value.Err? {
        LeafValuesRunOut(texts, items, leafValues, start, i, next, rebuilt);
        return Err(value.error);
      }
      var leafValue := Ast.LeafValue(
        value.value, ToRange(lv.startLine, lv.startCol, lv.endLine, lv.endCol), lv.colorPrefix);
      LeafValuesDrawnNext(texts, items, leafValues, start, i, next, rebuilt, leafValue);
      rebuilt := rebuilt + [leafValue];
    }
    LeafValuesDrawnDone(texts, items, leafValues, start, tokens.next, rebuilt);
    return Ok(rebuilt);
  }

  // The second pass over the strings of a validated file. It fails exactly when there are fewer
  // tokens than strings.
  method Rebuild(file: CachedFile, interned: seq<Ast.Token>, ghost texts: seq<string>)
    returns (result: Result<(Ast.Arena, seq<Child>), CacheError>)
    ensures result.Ok? <==> |FileStrings(file)| <= |interned|
    ensures Spelled(texts, interned, FileStrings(file)) ==>
              result.Ok? && Represents(texts, file, result.value.0, result.value.1)
  {
    ghost var leafStrings := Flat(LeafStringParts(file.leaves));
    if Spelled(texts, interned, FileStrings(file)) {
      SpelledTail(texts, interned, FileStrings(file), |leafStrings|);
      assert FileStrings(file)[..|leafStrings|] == leafStrings;
      assert FileStrings(file)[|leafStrings|..] == Flat(LeafValueStringParts(file.leafValues));
    }
    var tokens := new Cursor<Ast.Token>(interned);
    var leaves := LeavesFromArchived(file.leaves, tokens, texts);
    if leaves.Err? {
      return Err(leaves.error);
    }
    var leafValues := LeafValuesFromArchived(file.leafValues, tokens, texts);
    if leafValues.Err? {
      return Err(leafValues.error);
    }
    var comments := [];
    for i := 0 to |file.comments|
      invariant |comments| == i && forall j | 0 <= j < i :: comments[j] == RebuiltComment(file.comments[j])
    {
      comments := comments + [RebuiltComment(file.comments[i])];
    }
    result := Ok((Ast.Arena(leaves.value, leafValues.value, comments, RebuiltPool(file)), file.rootChildren));
  }
}
