// The logical record behind a `.cwb` archive (cache_format.rs). The rkyv layout and
// the zstd frame around it are not part of this model.
module CacheFormat {
  import opened Wrappers

  // One UTF-8 code unit.
  newtype Byte = x: int | 0 <= x < 0x100

  // The bit pattern of an `f64`; the cache only copies it.
  newtype Float64 = x: int | 0 <= x < 0x1_0000_0000_0000_0000

  datatype CacheError = Rejected(msg: string)

  datatype ColorPrefix = Rgb | Hsv | Hsv360

  datatype Operator =
    | Equals
    | GreaterThan
    | LessThan
    | GreaterThanOrEqual
    | LessThanOrEqual
    | NotEqual
    | EqualEqual
    | QuestionEqual

  // The archive and the arena spell these three types with the same constructors, so the
  // model keeps one of each.
  datatype Child = Leaf(index: nat) | LeafValue(index: nat) | Comment(index: nat)

  datatype CachedValue =
    | String(text: string)
    | QString(text: string)
    | Float(bits: Float64)
    | Int(int)
    | Bool(bool)
    | Clause(children: seq<Child>)

  datatype CachedLeaf = CachedLeaf(
    key: string,
    value: CachedValue,
    op: Operator,
    startLine: nat, startCol: nat, endLine: nat, endCol: nat,
    valueStartLine: nat, valueStartCol: nat, valueEndLine: nat, valueEndCol: nat,
    colorPrefix: Option<ColorPrefix>)

  datatype CachedLeafValue = CachedLeafValue(
    value: CachedValue,
    startLine: nat, startCol: nat, endLine: nat, endCol: nat,
    colorPrefix: Option<ColorPrefix>)

  // `textStart..textEnd` is a byte range of the file's comment text pool.
  datatype CachedComment = CachedComment(
    textStart: nat, textEnd: nat,
    startLine: nat, startCol: nat, endLine: nat, endCol: nat)

  datatype CachedFile = CachedFile(
    rootChildren: seq<Child>,
    leaves: seq<CachedLeaf>,
    leafValues: seq<CachedLeafValue>,
    comments: seq<CachedComment>,
    commentTextPool: seq<Byte>)
}
