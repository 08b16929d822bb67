// The parser's arena and the string table, as far as the cache converter uses them (ast.rs,
// string_table.rs).
module Ast {
  import opened Wrappers
  import opened CacheFormat

  // The id of an interned spelling. The source pairs it with the id of the lower-cased spelling,
  // which the converter never reads.
  type Token = nat

  datatype SourcePos = SourcePos(line: nat, col: nat)
  datatype SourceRange = SourceRange(start: SourcePos, end: SourcePos)

  datatype Value =
    | String(token: Token)
    | QString(token: Token)
    | Float(bits: Float64)
    | Int(int)
    | Bool(bool)
    | Clause(children: seq<Child>)

  datatype Leaf = Leaf(
    key: Token,
    value: Value,
    op: Operator,
    pos: SourceRange,
    valuePos: SourceRange,
    colorPrefix: Option<ColorPrefix>)

  datatype LeafValue = LeafValue(value: Value, pos: SourceRange, colorPrefix: Option<ColorPrefix>)

  // A comment's text is the byte range `start..end` of the arena's comment pool.
  datatype Comment = Comment(start: nat, end: nat, pos: SourceRange)

  datatype Arena = Arena(
    leaves: seq<Leaf>,
    leafValues: seq<LeafValue>,
    comments: seq<Comment>,
    commentPool: Option<seq<Byte>>)

  // ------------------------------------------------------------------ comment text

  predicate IsContinuation(b: Byte) { 0x80 <= b < 0xC0 }

  // Rust's `str::is_char_boundary`.
  predicate IsCharBoundary(text: seq<Byte>, at: nat) {
    at == 0 || at == |text| || (at < |text| && !IsContinuation(text[at]))
  }

  // The one consequence of UTF-8 validity the converter depends on: no text begins in the middle
  // of a character.
  predicate StartsWithCharacter(text: seq<Byte>) {
    |text| > 0 ==> !IsContinuation(text[0])
  }

  // Rust's `str::get` on a byte range.
  function Slice(text: seq<Byte>, start: nat, end: nat): Option<seq<Byte>> {
    if start <= end <= |text| && IsCharBoundary(text, start) && IsCharBoundary(text, end)
    then Some(text[start..end])
    else None
  }

  function CommentText(arena: Arena, comment: Comment): Option<seq<Byte>> {
    match arena.commentPool
    case None => None
    case Some(pool) => Slice(pool, comment.start, comment.end)
  }

  // ------------------------------------------------------------------ the string table

  // The spelling behind a token; a token the table does not know reads as the empty string.
  function Spelling(texts: seq<string>, token: Token): string {
    if token < |texts| then texts[token] else ""
  }

  class StringTable {
    var texts: seq<string>

    constructor ()
      ensures texts == [""]
    {
      texts := [""];
    }

    // Every spelling handed out before keeps its token.
    method Intern(s: string) returns (token: Token)
      modifies this
      ensures old(texts) <= texts
      ensures token < |texts| && texts[token] == s
      ensures s in old(texts) ==> texts == old(texts)
    {
      token := 0;
      while token < |texts|
        invariant 0 <= token <= |texts| && texts == old(texts)
        invariant forall i | 0 <= i < token :: texts[i] != s
      {
        if texts[token] == s {
          return;
        }
        token := token + 1;
      }
      texts := texts + [s];
    }

    method InternBatch(strings: seq<string>) returns (tokens: seq<Token>)
      modifies this
      ensures old(texts) <= texts
      ensures |tokens| == |strings|
      ensures forall i | 0 <= i < |strings| :: Spelling(texts, tokens[i]) == strings[i]
    {
      tokens := [];
      for i := 0 to |strings|
        invariant old(texts) <= texts && |tokens| == i
        invariant forall j | 0 <= j < i :: tokens[j] < |texts| && texts[tokens[j]] == strings[j]
      {
        var token := Intern(strings[i]);
        tokens := tokens + [token];
      }
    }
  }
}
