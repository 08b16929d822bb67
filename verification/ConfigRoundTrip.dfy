// Writing entries out as `key = value` lines and reading them back with the reader of config.rs.
module ConfigRoundTrip {
  import opened Text
  import opened Wrappers
  import opened ConfigReader

  // ------------------------------------------------------------------ documents

  datatype Piece = Blank(c: char) | Comment(body: string)

  // Blank characters, line breaks and comments.
  type Gap = seq<Piece>

  // A character of a basic string, as it is or behind a backslash.
  datatype Spelled = Spelled(c: char, escaped: bool)

  datatype Quoted = Basic(chars: seq<Spelled>) | Literal(raw: string) {
    function Text(): string { if Basic? then Meant(chars) else raw }
  }

  function Meant(chars: seq<Spelled>): string { if |chars| == 0 then "" else [chars[0].c] + Meant(chars[1..]) }

  datatype Item = Item(before: Gap, text: Quoted, after: Gap)

  // `comma` is a trailing comma, followed by the gap `end`.
  // `space` is white space behind a bare word that need not be blanks.
  datatype ValueDoc =
    | StrDoc(text: Quoted)
    | BoolDoc(value: bool, space: string)
    | ListDoc(items: seq<Item>, comma: bool, end: Gap)

  // An entry with the blanks on either side of its equals sign, those behind its value, a comment there,
  // and the line break unless the file ends first.
  datatype Line = Line(
    before: Gap, key: string, left: string, right: string, value: ValueDoc, trail: string, note: Option<string>,
    closed: bool)

  // `last` is a comment that ends with the file.
  datatype Document = Document(boms: nat, lines: seq<Line>, tail: Gap, last: Option<string>)

  predicate LegalPiece(p: Piece) {
    match p
    case Blank(c) => IsBlank(c) || c == '\n'
    case Comment(body) => '\n' !in body
  }

  predicate LegalGap(g: Gap) { forall p | p in g :: LegalPiece(p) }

  predicate Escapable(c: char) { c == '"' || c == '\\' || c == '\n' || c == '\r' || c == '\t' }

  predicate LegalSpelled(x: Spelled) {
    if x.escaped then Escapable(x.c) else x.c != '"' && x.c != '\\' && x.c != '\n'
  }

  predicate LegalQuoted(q: Quoted) {
    match q
    case Basic(chars) => forall x | x in chars :: LegalSpelled(x)
    case Literal(raw) => '\'' !in raw && '\n' !in raw
  }

  predicate LegalSpace(s: string) { forall c | c in s :: IsWhitespace(c) && c != '\n' }

  predicate LegalItem(item: Item) { LegalGap(item.before) && LegalQuoted(item.text) && LegalGap(item.after) }

  predicate LegalValue(v: ValueDoc) {
    match v
    case StrDoc(text) => LegalQuoted(text)
    case BoolDoc(_, space) => LegalSpace(space)
    case ListDoc(items, _, end) => (forall item | item in items :: LegalItem(item)) && LegalGap(end)
  }

  predicate LegalKey(key: string) { |key| > 0 && forall c | c in key :: IsKeyCharacter(c) }

  predicate LegalBlanks(s: string) { forall c | c in s :: IsBlank(c) }

  predicate LegalNote(note: Option<string>) { note.Some? ==> '\n' !in note.value }

  predicate LegalLine(l: Line) {
    && LegalGap(l.before) && LegalKey(l.key) && LegalValue(l.value) && LegalNote(l.note)
    && LegalBlanks(l.left) && LegalBlanks(l.right) && LegalBlanks(l.trail)
  }

  predicate LegalLines(lines: seq<Line>, tail: Gap, last: Option<string>) {
    if |lines| == 0 then LegalGap(tail) && LegalNote(last)
    else
      && LegalLine(lines[0]) && LegalLines(lines[1..], tail, last)
      && (lines[0].closed || (|lines| == 1 && tail == [] && last.None?))
  }

  predicate LegalDocument(d: Document) { LegalLines(d.lines, d.tail, d.last) }

  // ------------------------------------------------------------------ rendering

  function RenderPiece(p: Piece): string {
    match p
    case Blank(c) => [c]
    case Comment(body) => "#" + body + "\n"
  }

  function RenderGap(g: Gap): string { if |g| == 0 then "" else RenderPiece(g[0]) + RenderGap(g[1..]) }

  function EscapeChar(c: char): string {
    match c
    case '"' => "\\\""
    case '\\' => "\\\\"
    case '\n' => "\\n"
    case '\r' => "\\r"
    case '\t' => "\\t"
    case _ => [c]
  }

  function RenderSpelled(x: Spelled): string { if x.escaped then EscapeChar(x.c) else [x.c] }

  function RenderChars(chars: seq<Spelled>): string {
    if |chars| == 0 then "" else RenderSpelled(chars[0]) + RenderChars(chars[1..])
  }

  function RenderQuoted(q: Quoted): string {
    match q
    case Basic(chars) => "\"" + RenderChars(chars) + "\""
    case Literal(raw) => "'" + raw + "'"
  }

  function RenderItem(item: Item): string { RenderGap(item.before) + RenderQuoted(item.text) + RenderGap(item.after) }

  function RenderItems(items: seq<Item>, comma: bool, end: Gap): string {
    if |items| == 0 then RenderGap(end) + "]"
    else if |items| == 1 && !comma then RenderItem(items[0]) + "]"
    else RenderItem(items[0]) + "," + RenderItems(items[1..], comma, end)
  }

  function WordOf(value: bool): string { if value then "true" else "false" }

  function RenderValue(v: ValueDoc): string {
    match v
    case StrDoc(text) => RenderQuoted(text)
    case BoolDoc(value, space) => WordOf(value) + space
    case ListDoc(items, comma, end) => "[" + RenderItems(items, comma, end)
  }

  function RenderNote(note: Option<string>): string { if note.Some? then "#" + note.value else "" }

  function RenderKey(l: Line): string { l.key + l.left + "=" + l.right }

  function RenderEnd(l: Line): string { l.trail + RenderNote(l.note) + if l.closed then "\n" else "" }

  function RenderLine(l: Line): string {
    RenderGap(l.before) + RenderKey(l) + RenderValue(l.value) + RenderEnd(l)
  }

  function RenderLines(lines: seq<Line>, tail: Gap, last: Option<string>): string {
    if |lines| == 0 then RenderGap(tail) + RenderNote(last)
    else RenderLine(lines[0]) + RenderLines(lines[1..], tail, last)
  }

  function Boms(n: nat): string { if n == 0 then "" else [BOM] + Boms(n - 1) }

  function RenderDocument(d: Document): string { Boms(d.boms) + RenderLines(d.lines, d.tail, d.last) }

  // ------------------------------------------------------------------ lines

  function Newlines(s: string): nat {
    if |s| == 0 then 0 else (if s[0] == '\n' then 1 else 0) + Newlines(s[1..])
  }

  function PieceLines(p: Piece): nat { if p.Comment? || p.c == '\n' then 1 else 0 }

  function GapLines(g: Gap): nat { if |g| == 0 then 0 else PieceLines(g[0]) + GapLines(g[1..]) }

  function ItemLines(item: Item): nat { GapLines(item.before) + GapLines(item.after) }

  function ItemsLines(items: seq<Item>, comma: bool, end: Gap): nat {
    if |items| == 0 then GapLines(end)
    else if |items| == 1 && !comma then ItemLines(items[0])
    else ItemLines(items[0]) + ItemsLines(items[1..], comma, end)
  }

  function ValueLines(v: ValueDoc): nat { if v.ListDoc? then ItemsLines(v.items, v.comma, v.end) else 0 }

  function EndLines(l: Line): nat { if l.closed then 1 else 0 }

  function LineLines(l: Line): nat { GapLines(l.before) + ValueLines(l.value) + EndLines(l) }

  // What reading must give back when the text starts on `line`.
  function ItemListed(item: Item, line: nat): Listed { Listed(item.text.Text(), line + GapLines(item.before)) }

  function ItemsAt(items: seq<Item>, line: nat): seq<Listed> {
    if |items| == 0 then []
    else [ItemListed(items[0], line)] + ItemsAt(items[1..], line + ItemLines(items[0]))
  }

  function ValueAt(v: ValueDoc, line: nat): Value {
    match v
    case StrDoc(text) => Str(text.Text())
    case BoolDoc(value, _) => Bool(value)
    case ListDoc(items, _, _) => List(ItemsAt(items, line))
  }

  function EntryAt(l: Line, line: nat): Entry {
    Entry(l.key, line + GapLines(l.before), ValueAt(l.value, line + GapLines(l.before)))
  }

  function EntriesAt(lines: seq<Line>, line: nat): seq<Entry> {
    if |lines| == 0 then [] else [EntryAt(lines[0], line)] + EntriesAt(lines[1..], line + LineLines(lines[0]))
  }

  lemma {:induction false} NewlinesAppend(a: string, b: string)
    ensures Newlines(a + b) == Newlines(a) + Newlines(b)
  {
    if |a| == 0 {
      assert a + b == b;
    } else {
      NewlinesAppend(a[1..], b);
      assert (a + b)[1..] == a[1..] + b;
    }
  }

  lemma {:induction false} NoNewlines(s: string)
    requires '\n' !in s
    ensures Newlines(s) == 0
  {
    if |s| > 0 {
      NoNewlines(s[1..]);
    }
  }

  lemma {:induction false} CharsHaveNoNewline(chars: seq<Spelled>)
    requires forall x | x in chars :: LegalSpelled(x)
    ensures '\n' !in RenderChars(chars)
  {
    if |chars| > 0 {
      assert chars[0] in chars;
      CharsHaveNoNewline(chars[1..]);
    }
  }

  lemma PieceCounts(p: Piece)
    requires LegalPiece(p)
    ensures Newlines(RenderPiece(p)) == PieceLines(p)
  {
    if p.Comment? {
      NoNewlines("#" + p.body);
      NewlinesAppend("#" + p.body, "\n");
    }
  }

  lemma {:induction false} GapCounts(g: Gap)
    requires LegalGap(g)
    ensures Newlines(RenderGap(g)) == GapLines(g)
  {
    if |g| > 0 {
      PieceCounts(g[0]);
      GapCounts(g[1..]);
      NewlinesAppend(RenderPiece(g[0]), RenderGap(g[1..]));
    }
  }

  lemma QuotedCounts(q: Quoted)
    requires LegalQuoted(q)
    ensures Newlines(RenderQuoted(q)) == 0
  {
    if q.Basic? {
      CharsHaveNoNewline(q.chars);
    }
    NoNewlines(RenderQuoted(q));
  }

  lemma ItemCounts(item: Item)
    requires LegalItem(item)
    ensures Newlines(RenderItem(item)) == ItemLines(item)
  {
    GapCounts(item.before);
    QuotedCounts(item.text);
    GapCounts(item.after);
    NewlinesAppend(RenderGap(item.before), RenderQuoted(item.text));
    NewlinesAppend(RenderGap(item.before) + RenderQuoted(item.text), RenderGap(item.after));
  }

  lemma {:induction false} ItemsCount(items: seq<Item>, comma: bool, end: Gap)
    requires (forall item | item in items :: LegalItem(item)) && LegalGap(end)
    ensures Newlines(RenderItems(items, comma, end)) == ItemsLines(items, comma, end)
  {
    NoNewlines("]");
    NoNewlines(",");
    if |items| == 0 {
      GapCounts(end);
      NewlinesAppend(RenderGap(end), "]");
    } else {
      ItemCounts(items[0]);
      NewlinesAppend(RenderItem(items[0]), "]");
      if |items| > 1 || comma {
        ItemsCount(items[1..], comma, end);
        NewlinesAppend(RenderItem(items[0]), ",");
        NewlinesAppend(RenderItem(items[0]) + ",", RenderItems(items[1..], comma, end));
      }
    }
  }

  lemma ValueCounts(v: ValueDoc)
    requires LegalValue(v)
    ensures Newlines(RenderValue(v)) == ValueLines(v)
  {
    match v {
      case StrDoc(text) => QuotedCounts(text);
      case BoolDoc(value, space) =>
        assert '\n' !in space;
        NoNewlines(WordOf(value) + space);
      case ListDoc(items, comma, end) =>
        ItemsCount(items, comma, end);
        NoNewlines("[");
        NewlinesAppend("[", RenderItems(items, comma, end));
    }
  }

  lemma KeyCounts(l: Line)
    requires LegalLine(l)
    ensures Newlines(RenderKey(l)) == 0
  {
    assert '\n' !in l.key && '\n' !in l.left && '\n' !in l.right;
    NoNewlines(RenderKey(l));
  }

  lemma EndCounts(l: Line)
    requires LegalLine(l)
    ensures Newlines(RenderEnd(l)) == EndLines(l)
  {
    var text := l.trail + RenderNote(l.note);
    assert '\n' !in l.trail;
    NoNewlines(text);
    NewlinesAppend(text, if l.closed then "\n" else "");
  }

  lemma LineCounts(l: Line)
    requires LegalLine(l)
    ensures Newlines(RenderLine(l)) == LineLines(l)
  {
    GapCounts(l.before);
    KeyCounts(l);
    ValueCounts(l.value);
    EndCounts(l);
    NewlinesAppend(RenderGap(l.before), RenderKey(l));
    NewlinesAppend(RenderGap(l.before) + RenderKey(l), RenderValue(l.value));
    NewlinesAppend(RenderGap(l.before) + RenderKey(l) + RenderValue(l.value), RenderEnd(l));
  }

  // The text in front of the key of entry k.
  function TextBefore(lines: seq<Line>, k: nat): string
    requires k < |lines|
  {
    if k == 0 then RenderGap(lines[0].before) else RenderLine(lines[0]) + TextBefore(lines[1..], k - 1)
  }

  // The text in front of element k, from the opening bracket on.
  function TextBeforeItem(items: seq<Item>, k: nat): string
    requires k < |items|
  {
    if k == 0 then RenderGap(items[0].before) else RenderItem(items[0]) + "," + TextBeforeItem(items[1..], k - 1)
  }

  function LinesBefore(lines: seq<Line>, k: nat): nat
    requires k < |lines|
  {
    if k == 0 then GapLines(lines[0].before) else LineLines(lines[0]) + LinesBefore(lines[1..], k - 1)
  }

  function LinesBeforeItem(items: seq<Item>, k: nat): nat
    requires k < |items|
  {
    if k == 0 then GapLines(items[0].before) else ItemLines(items[0]) + LinesBeforeItem(items[1..], k - 1)
  }

  lemma {:induction false} TextBeforeCounts(lines: seq<Line>, k: nat)
    requires k < |lines| && forall l | l in lines :: LegalLine(l)
    ensures Newlines(TextBefore(lines, k)) == LinesBefore(lines, k)
    decreases k
  {
    assert lines[0] in lines;
    if k == 0 {
      GapCounts(lines[0].before);
    } else {
      TextBeforeCounts(lines[1..], k - 1);
      LineCounts(lines[0]);
      NewlinesAppend(RenderLine(lines[0]), TextBefore(lines[1..], k - 1));
    }
  }

  lemma {:induction false} TextBeforeItemCounts(items: seq<Item>, k: nat)
    requires k < |items| && forall item | item in items :: LegalItem(item)
    ensures Newlines(TextBeforeItem(items, k)) == LinesBeforeItem(items, k)
    decreases k
  {
    assert items[0] in items;
    if k == 0 {
      GapCounts(items[0].before);
    } else {
      TextBeforeItemCounts(items[1..], k - 1);
      ItemCounts(items[0]);
      NoNewlines(",");
      NewlinesAppend(RenderItem(items[0]), ",");
      NewlinesAppend(RenderItem(items[0]) + ",", TextBeforeItem(items[1..], k - 1));
    }
  }

  lemma {:induction false} EntryIsAt(lines: seq<Line>, k: nat, line: nat)
    requires k < |lines|
    ensures |EntriesAt(lines, line)| == |lines|
    ensures var here := line + LinesBefore(lines, k);
            EntriesAt(lines, line)[k] == Entry(lines[k].key, here, ValueAt(lines[k].value, here))
    decreases |lines|
  {
    CountEntries(lines[1..], line + LineLines(lines[0]));
    if k > 0 {
      EntryIsAt(lines[1..], k - 1, line + LineLines(lines[0]));
    }
  }

  lemma {:induction false} CountEntries(lines: seq<Line>, line: nat)
    ensures |EntriesAt(lines, line)| == |lines|
    decreases |lines|
  {
    if |lines| > 0 {
      CountEntries(lines[1..], line + LineLines(lines[0]));
    }
  }

  lemma {:induction false} ItemIsAt(items: seq<Item>, k: nat, line: nat)
    requires k < |items|
    ensures |ItemsAt(items, line)| == |items|
    ensures ItemsAt(items, line)[k] == Listed(items[k].text.Text(), line + LinesBeforeItem(items, k))
    decreases |items|
  {
    CountItems(items[1..], line + ItemLines(items[0]));
    if k > 0 {
      ItemIsAt(items[1..], k - 1, line + ItemLines(items[0]));
    }
  }

  lemma {:induction false} CountItems(items: seq<Item>, line: nat)
    ensures |ItemsAt(items, line)| == |items|
    decreases |items|
  {
    if |items| > 0 {
      CountItems(items[1..], line + ItemLines(items[0]));
    }
  }

  lemma {:induction false} TextComesBefore(lines: seq<Line>, k: nat, tail: Gap, last: Option<string>)
    requires k < |lines|
    ensures TextBefore(lines, k) <= RenderLines(lines, tail, last)
    decreases |lines|
  {
    if k > 0 {
      TextComesBefore(lines[1..], k - 1, tail, last);
    } else {
      GapComesFirst(lines, tail, last);
    }
  }

  lemma GapComesFirst(lines: seq<Line>, tail: Gap, last: Option<string>)
    requires |lines| > 0
    ensures RenderGap(lines[0].before) <= RenderLines(lines, tail, last)
  {
  }

  lemma {:induction false} ItemTextComesBefore(items: seq<Item>, k: nat, comma: bool, end: Gap)
    requires k < |items|
    ensures TextBeforeItem(items, k) <= RenderItems(items, comma, end)
    decreases |items|
  {
    if k > 0 {
      ItemTextComesBefore(items[1..], k - 1, comma, end);
    }
  }

  // Each entry is on the line its text starts on plus the line breaks before its key.
  lemma EntryLine(lines: seq<Line>, k: nat, tail: Gap, last: Option<string>, line: nat)
    requires k < |lines| && forall l | l in lines :: LegalLine(l)
    ensures TextBefore(lines, k) <= RenderLines(lines, tail, last)
    ensures |EntriesAt(lines, line)| == |lines| && EntriesAt(lines, line)[k].key == lines[k].key
    ensures EntriesAt(lines, line)[k].line == line + Newlines(TextBefore(lines, k))
  {
    TextComesBefore(lines, k, tail, last);
    TextBeforeCounts(lines, k);
    EntryIsAt(lines, k, line);
  }

  // Each array element is on its entry's line plus the line breaks between the bracket and its quote.
  lemma ItemLine(items: seq<Item>, k: nat, comma: bool, end: Gap, line: nat)
    requires k < |items| && forall item | item in items :: LegalItem(item)
    ensures TextBeforeItem(items, k) <= RenderItems(items, comma, end)
    ensures |ItemsAt(items, line)| == |items|
    ensures ItemsAt(items, line)[k] == Listed(items[k].text.Text(), line + Newlines(TextBeforeItem(items, k)))
  {
    ItemTextComesBefore(items, k, comma, end);
    TextBeforeItemCounts(items, k);
    ItemIsAt(items, k, line);
  }

  // ------------------------------------------------------------------ rendering in front of a text

  function PieceThen(p: Piece, s: string): string {
    match p
    case Blank(c) => [c] + s
    case Comment(body) => "#" + (body + ("\n" + s))
  }

  function GapThen(g: Gap, s: string): string { if |g| == 0 then s else PieceThen(g[0], GapThen(g[1..], s)) }

  function CharsThen(chars: seq<Spelled>, s: string): string {
    if |chars| == 0 then s else RenderSpelled(chars[0]) + CharsThen(chars[1..], s)
  }

  function QuotedThen(q: Quoted, s: string): string {
    match q
    case Basic(chars) => "\"" + CharsThen(chars, "\"" + s)
    case Literal(raw) => "'" + (raw + ("'" + s))
  }

  function ItemThen(item: Item, s: string): string {
    GapThen(item.before, QuotedThen(item.text, GapThen(item.after, s)))
  }

  function ItemsThen(items: seq<Item>, comma: bool, end: Gap, s: string): string {
    if |items| == 0 then GapThen(end, "]" + s)
    else if |items| == 1 && !comma then ItemThen(items[0], "]" + s)
    else ItemThen(items[0], "," + ItemsThen(items[1..], comma, end, s))
  }

  function ValueThen(v: ValueDoc, s: string): string {
    match v
    case StrDoc(text) => QuotedThen(text, s)
    case BoolDoc(value, space) => WordOf(value) + (space + s)
    case ListDoc(items, comma, end) => "[" + ItemsThen(items, comma, end, s)
  }

  function BreakThen(l: Line, s: string): string { if l.closed then "\n" + s else s }

  function NoteThen(l: Line, s: string): string {
    if l.note.Some? then "#" + (l.note.value + BreakThen(l, s)) else BreakThen(l, s)
  }

  // An entry from its key to its value, in front of the blanks behind it and the text x.
  function EntryThen(l: Line, x: string): string {
    l.key + (l.left + ("=" + (l.right + ValueThen(l.value, l.trail + x))))
  }

  function LineThen(l: Line, s: string): string { GapThen(l.before, EntryThen(l, NoteThen(l, s))) }

  function LinesThen(lines: seq<Line>, tail: Gap, last: Option<string>): string {
    if |lines| == 0 then GapThen(tail, RenderNote(last)) else LineThen(lines[0], LinesThen(lines[1..], tail, last))
  }

  lemma {:induction false} GapAppends(g: Gap, s: string)
    ensures GapThen(g, s) == RenderGap(g) + s
  {
    if |g| == 0 {
      assert "" + s == s;
    } else {
      GapAppends(g[1..], s);
      PieceAppends(g[0], RenderGap(g[1..]) + s);
      assert RenderPiece(g[0]) + (RenderGap(g[1..]) + s) == (RenderPiece(g[0]) + RenderGap(g[1..])) + s;
    }
  }

  lemma PieceAppends(p: Piece, s: string)
    ensures PieceThen(p, s) == RenderPiece(p) + s
  {
    if p.Comment? {
      assert "#" + (p.body + ("\n" + s)) == ("#" + p.body + "\n") + s;
    }
  }

  lemma {:induction false} CharsAppend(chars: seq<Spelled>, s: string)
    ensures CharsThen(chars, s) == RenderChars(chars) + s
  {
    if |chars| == 0 {
      assert "" + s == s;
    } else {
      CharsAppend(chars[1..], s);
      Regroup(RenderSpelled(chars[0]), RenderChars(chars[1..]), s);
    }
  }

  lemma Regroup(a: string, b: string, c: string)
    ensures a + (b + c) == a + b + c
  {
  }

  lemma QuotedAppends(q: Quoted, s: string)
    ensures QuotedThen(q, s) == RenderQuoted(q) + s
  {
    match q {
      case Basic(chars) =>
        CharsAppend(chars, "\"" + s);
        Regroup(RenderChars(chars), "\"", s);
        Regroup("\"", RenderChars(chars), "\"");
        Regroup("\"", RenderChars(chars) + "\"", s);
      case Literal(raw) =>
        Regroup(raw, "'", s);
        Regroup("'", raw, "'");
        Regroup("'", raw + "'", s);
    }
  }

  lemma ItemAppends(item: Item, s: string)
    ensures ItemThen(item, s) == RenderItem(item) + s
  {
    GapAppends(item.after, s);
    QuotedAppends(item.text, RenderGap(item.after) + s);
    GapAppends(item.before, RenderQuoted(item.text) + (RenderGap(item.after) + s));
    Regroup(RenderGap(item.before), RenderQuoted(item.text), RenderGap(item.after) + s);
    Regroup(RenderGap(item.before) + RenderQuoted(item.text), RenderGap(item.after), s);
  }

  lemma {:induction false} ItemsAppend(items: seq<Item>, comma: bool, end: Gap, s: string)
    ensures ItemsThen(items, comma, end, s) == RenderItems(items, comma, end) + s
    decreases |items|
  {
    if |items| == 0 {
      GapAppends(end, "]" + s);
      Regroup(RenderGap(end), "]", s);
    } else if |items| == 1 && !comma {
      ItemAppends(items[0], "]" + s);
      Regroup(RenderItem(items[0]), "]", s);
    } else {
      var rest := RenderItems(items[1..], comma, end);
      ItemsAppend(items[1..], comma, end, s);
      ItemAppends(items[0], "," + (rest + s));
      Regroup(RenderItem(items[0]), ",", rest + s);
      Regroup(RenderItem(items[0]) + ",", rest, s);
    }
  }

  lemma ValueAppends(v: ValueDoc, s: string)
    ensures ValueThen(v, s) == RenderValue(v) + s
  {
    match v {
      case StrDoc(text) => QuotedAppends(text, s);
      case BoolDoc(value, space) => Regroup(WordOf(value), space, s);
      case ListDoc(items, comma, end) =>
        ItemsAppend(items, comma, end, s);
        Regroup("[", RenderItems(items, comma, end), s);
    }
  }

  lemma EndAppends(l: Line, s: string)
    ensures l.trail + NoteThen(l, s) == RenderEnd(l) + s
  {
    var lineBreak := if l.closed then "\n" else "";
    assert BreakThen(l, s) == lineBreak + s;
    if l.note.Some? {
      Regroup("#", l.note.value, lineBreak + s);
    } else {
      assert "" + (lineBreak + s) == lineBreak + s;
    }
    Regroup(l.trail, RenderNote(l.note), lineBreak + s);
    Regroup(l.trail + RenderNote(l.note), lineBreak, s);
  }

  lemma KeyAppends(l: Line, s: string)
    ensures l.key + (l.left + ("=" + (l.right + s))) == RenderKey(l) + s
  {
    Regroup(l.key, l.left, "=" + (l.right + s));
    Regroup(l.key + l.left, "=", l.right + s);
    Regroup(l.key + l.left + "=", l.right, s);
  }

  lemma LineAppends(l: Line, s: string)
    ensures LineThen(l, s) == RenderLine(l) + s
  {
    var (gap, key, value, end) := (RenderGap(l.before), RenderKey(l), RenderValue(l.value), RenderEnd(l));
    EndAppends(l, s);
    ValueAppends(l.value, end + s);
    KeyAppends(l, value + (end + s));
    GapAppends(l.before, key + (value + (end + s)));
    Regroup(gap, key, value + (end + s));
    Regroup(gap + key, value, end + s);
    Regroup(gap + key + value, end, s);
  }

  lemma {:induction false} LinesAppend(lines: seq<Line>, tail: Gap, last: Option<string>)
    ensures LinesThen(lines, tail, last) == RenderLines(lines, tail, last)
  {
    if |lines| == 0 {
      GapAppends(tail, RenderNote(last));
    } else {
      LinesAppend(lines[1..], tail, last);
      LineAppends(lines[0], RenderLines(lines[1..], tail, last));
    }
  }

  // ------------------------------------------------------------------ reading trivia

  lemma {:induction false} CommentIsSkipped(body: string, s: string, line: nat)
    requires '\n' !in body && (|s| == 0 || s[0] == '\n')
    ensures SkipComment(Cursor(body + s, line)) == Cursor(s, line)
  {
    if |body| == 0 {
      assert body + s == s;
    } else {
      CommentIsSkipped(body[1..], s, line);
      assert (body + s)[1..] == body[1..] + s;
    }
  }

  // A comment up to the line break or the end of the file.
  lemma HashIsSkipped(body: string, s: string, line: nat)
    requires '\n' !in body && (|s| == 0 || s[0] == '\n')
    ensures SkipTrivia(Cursor("#" + (body + s), line)) == SkipTrivia(Cursor(s, line))
  {
    CommentIsSkipped("#" + body, s, line);
    assert ("#" + body) + s == "#" + (body + s);
  }

  lemma BreakIsSkipped(s: string, line: nat)
    ensures SkipTrivia(Cursor("\n" + s, line)) == SkipTrivia(Cursor(s, line + 1))
  {
    assert ("\n" + s)[1..] == s;
  }

  lemma PieceIsSkipped(p: Piece, s: string, line: nat)
    requires LegalPiece(p)
    ensures SkipTrivia(Cursor(PieceThen(p, s), line)) == SkipTrivia(Cursor(s, line + PieceLines(p)))
  {
    match p {
      case Blank(c) => assert ([c] + s)[1..] == s;
      case Comment(body) =>
        HashIsSkipped(body, "\n" + s, line);
        BreakIsSkipped(s, line);
    }
  }

  lemma {:induction false} GapIsSkipped(g: Gap, s: string, line: nat)
    requires LegalGap(g)
    ensures SkipTrivia(Cursor(GapThen(g, s), line)) == SkipTrivia(Cursor(s, line + GapLines(g)))
  {
    if |g| > 0 {
      PieceIsSkipped(g[0], GapThen(g[1..], s), line);
      GapIsSkipped(g[1..], s, line + PieceLines(g[0]));
    }
  }

  lemma {:induction false} BlanksAreSkipped(blanks: string, s: string, line: nat)
    requires LegalBlanks(blanks)
    ensures SkipBlanks(Cursor(blanks + s, line)) == SkipBlanks(Cursor(s, line))
  {
    if |blanks| == 0 {
      assert blanks + s == s;
    } else {
      assert (blanks + s)[1..] == blanks[1..] + s;
      BlanksAreSkipped(blanks[1..], s, line);
    }
  }

  // ------------------------------------------------------------------ reading strings and arrays

  lemma CharIsRead(x: Spelled, rest: string, line: nat, openLine: nat)
    requires LegalSpelled(x)
    ensures StringBody(Cursor(RenderSpelled(x) + rest, line), '"', openLine)
         == Prepend([x.c], StringBody(Cursor(rest, line), '"', openLine))
  {
    var spelled := RenderSpelled(x);
    if x.escaped {
      assert (spelled + rest)[1..] == [spelled[1]] + rest;
      assert ([spelled[1]] + rest)[1..] == rest;
    } else {
      assert (spelled + rest)[1..] == rest;
    }
  }

  lemma {:induction false} CharsAreRead(chars: seq<Spelled>, s: string, line: nat, openLine: nat)
    requires forall x | x in chars :: LegalSpelled(x)
    ensures StringBody(Cursor(CharsThen(chars, "\"" + s), line), '"', openLine) == Ok((Meant(chars), Cursor(s, line)))
  {
    if |chars| == 0 {
      assert ("\"" + s)[1..] == s;
    } else {
      assert chars[0] in chars;
      CharIsRead(chars[0], CharsThen(chars[1..], "\"" + s), line, openLine);
      CharsAreRead(chars[1..], s, line, openLine);
    }
  }

  // The five escapes where there is one, and every other character as it is.
  function Escape(text: string): seq<Spelled> {
    if |text| == 0 then [] else [Spelled(text[0], Escapable(text[0]))] + Escape(text[1..])
  }

  lemma {:induction false} EscapeSpells(text: string)
    ensures (forall x | x in Escape(text) :: LegalSpelled(x)) && Meant(Escape(text)) == text
  {
    if |text| > 0 {
      EscapeSpells(text[1..]);
      assert [text[0]] + text[1..] == text;
    }
  }

  // Whatever the text, escaping it and reading it back gives the text.
  lemma EscapedIsRead(text: string, s: string, line: nat)
    ensures ReadString(Cursor(QuotedThen(Basic(Escape(text)), s), line)) == Ok((text, Cursor(s, line)))
  {
    EscapeSpells(text);
    QuotedIsRead(Basic(Escape(text)), s, line);
  }

  lemma {:induction false} LiteralIsRead(text: string, s: string, line: nat, openLine: nat)
    requires '\'' !in text && '\n' !in text
    ensures StringBody(Cursor(text + ("'" + s), line), '\'', openLine) == Ok((text, Cursor(s, line)))
  {
    if |text| == 0 {
      assert text + ("'" + s) == "'" + s;
      assert ("'" + s)[1..] == s;
    } else {
      assert (text + ("'" + s))[1..] == text[1..] + ("'" + s);
      LiteralIsRead(text[1..], s, line, openLine);
      assert [text[0]] + text[1..] == text;
    }
  }

  lemma QuotedIsRead(q: Quoted, s: string, line: nat)
    requires LegalQuoted(q)
    ensures |QuotedThen(q, s)| > 0 && IsQuote(QuotedThen(q, s)[0])
    ensures ReadString(Cursor(QuotedThen(q, s), line)) == Ok((q.Text(), Cursor(s, line)))
  {
    match q {
      case Basic(chars) =>
        assert QuotedThen(q, s)[1..] == CharsThen(chars, "\"" + s);
        CharsAreRead(chars, s, line, line);
      case Literal(raw) =>
        assert QuotedThen(q, s)[1..] == raw + ("'" + s);
        LiteralIsRead(raw, s, line, line);
    }
  }

  lemma QuoteStops(c: Cursor)
    requires |c.rest| > 0 && IsQuote(c.rest[0])
    ensures SkipTrivia(c) == c
  {
  }

  lemma DelimiterStops(c: Cursor)
    requires |c.rest| > 0 && (c.rest[0] == ',' || c.rest[0] == ']')
    ensures SkipTrivia(c) == c
  {
  }

  // The cursor at the opening quote of an element, and the one behind its closing quote.
  function AtQuote(item: Item, s: string, line: nat): Cursor {
    Cursor(QuotedThen(item.text, GapThen(item.after, s)), line + GapLines(item.before))
  }

  function BehindQuote(item: Item, s: string, line: nat): Cursor {
    Cursor(GapThen(item.after, s), line + GapLines(item.before))
  }

  lemma ItemStarts(item: Item, s: string, line: nat)
    requires LegalGap(item.before) && LegalQuoted(item.text)
    ensures SkipTrivia(Cursor(ItemThen(item, s), line)) == AtQuote(item, s, line)
    ensures |AtQuote(item, s, line).rest| > 0 && IsQuote(AtQuote(item, s, line).rest[0])
    ensures ReadString(AtQuote(item, s, line)) == Ok((item.text.Text(), BehindQuote(item, s, line)))
  {
    var start := AtQuote(item, s, line);
    GapIsSkipped(item.before, start.rest, line);
    QuotedIsRead(item.text, GapThen(item.after, s), start.line);
    QuoteStops(start);
  }

  function BehindItem(item: Item, s: string, line: nat): Cursor { Cursor(s, line + ItemLines(item)) }

  lemma ItemEnds(item: Item, delimiter: char, s: string, line: nat)
    requires LegalGap(item.after) && (delimiter == ',' || delimiter == ']')
    ensures var next := BehindItem(item, [delimiter] + s, line);
            && SkipTrivia(BehindQuote(item, [delimiter] + s, line)) == next
            && next.rest[0] == delimiter && next.Bump() == BehindItem(item, s, line)
  {
    var rest := [delimiter] + s;
    GapIsSkipped(item.after, rest, line + GapLines(item.before));
    DelimiterStops(Cursor(rest, line + ItemLines(item)));
    assert rest[1..] == s;
  }

  // The array reader takes one element and goes on behind the comma or stops at the bracket.
  lemma StepFromItem(c: Cursor, start: Cursor, text: string, behind: Cursor, next: Cursor, end: Cursor, openLine: nat)
    requires SkipTrivia(c) == start && |start.rest| > 0 && IsQuote(start.rest[0])
    requires ReadString(start) == Ok((text, behind)) && SkipTrivia(behind) == next
    requires |next.rest| > 0 && (next.rest[0] == ',' || next.rest[0] == ']') && next.Bump() == end
    ensures ArrayItems(c, openLine)
         == if next.rest[0] == ',' then Prepend([Listed(text, start.line)], ArrayItems(end, openLine))
            else Ok(([Listed(text, start.line)], end))
  {
  }

  lemma ItemIsRead(item: Item, delimiter: char, s: string, line: nat, openLine: nat)
    requires LegalItem(item) && (delimiter == ',' || delimiter == ']')
    ensures var end := BehindItem(item, s, line);
            ArrayItems(Cursor(ItemThen(item, [delimiter] + s), line), openLine)
            == if delimiter == ',' then Prepend([ItemListed(item, line)], ArrayItems(end, openLine))
               else Ok(([ItemListed(item, line)], end))
  {
    var rest := [delimiter] + s;
    ItemStarts(item, rest, line);
    ItemEnds(item, delimiter, s, line);
    StepFromItem(
      Cursor(ItemThen(item, rest), line), AtQuote(item, rest, line), item.text.Text(), BehindQuote(item, rest, line),
      BehindItem(item, rest, line), BehindItem(item, s, line), openLine);
  }

  lemma LastItemIsRead(item: Item, s: string, line: nat, openLine: nat)
    requires LegalItem(item)
    ensures ArrayItems(Cursor(ItemThen(item, "]" + s), line), openLine)
         == Ok((ItemsAt([item], line), Cursor(s, line + ItemLines(item))))
  {
    ItemIsRead(item, ']', s, line, openLine);
    OneItemAt([item], line);
  }

  lemma OneItemAt(items: seq<Item>, line: nat)
    requires |items| == 1
    ensures ItemsAt(items, line) == [ItemListed(items[0], line)]
  {
    assert ItemsAt(items[1..], line + ItemLines(items[0])) == [];
  }

  lemma Prepended(first: Listed, others: seq<Listed>, end: Cursor, rest: Result<(seq<Listed>, Cursor), ConfigError>)
    requires rest == Ok((others, end))
    ensures Prepend([first], rest) == Ok(([first] + others, end))
  {
  }

  // One element more than `others`; `whole` and `all` are the text and the list with it.
  lemma NextItemIsRead(
    item: Item, s: string, line: nat, openLine: nat, others: seq<Listed>, end: Cursor, whole: string, all: seq<Listed>)
    requires LegalItem(item) && ArrayItems(Cursor(s, line + ItemLines(item)), openLine) == Ok((others, end))
    requires whole == ItemThen(item, "," + s)
    requires all == [ItemListed(item, line)] + others
    ensures ArrayItems(Cursor(whole, line), openLine) == Ok((all, end))
  {
    ItemIsRead(item, ',', s, line, openLine);
    Prepended(
      ItemListed(item, line), others, end,
      ArrayItems(Cursor(s, line + ItemLines(item)), openLine));
  }

  lemma EmptyTailIsRead(end: Gap, s: string, line: nat, openLine: nat)
    requires LegalGap(end)
    ensures ArrayItems(Cursor(GapThen(end, "]" + s), line), openLine) == Ok(([], Cursor(s, line + GapLines(end))))
  {
    GapIsSkipped(end, "]" + s, line);
    assert ("]" + s)[1..] == s;
  }

  lemma {:induction false} ItemsAreRead(items: seq<Item>, comma: bool, end: Gap, s: string, line: nat, openLine: nat)
    requires (forall item | item in items :: LegalItem(item)) && LegalGap(end)
    ensures ArrayItems(Cursor(ItemsThen(items, comma, end, s), line), openLine)
         == Ok((ItemsAt(items, line), Cursor(s, line + ItemsLines(items, comma, end))))
    decreases |items|
  {
    if |items| == 0 {
      EmptyTailIsRead(end, s, line, openLine);
    } else if |items| == 1 && !comma {
      LastItemIsRead(items[0], s, line, openLine);
      assert items == [items[0]];
    } else {
      var next := line + ItemLines(items[0]);
      ItemsAreRead(items[1..], comma, end, s, next, openLine);
      MoreItemsText(items, comma, end, s);
      MoreItemsAt(items, line);
      MoreItemsLines(items, comma, end);
      NextItemIsRead(
        items[0], ItemsThen(items[1..], comma, end, s), line, openLine, ItemsAt(items[1..], next),
        Cursor(s, line + ItemsLines(items, comma, end)), ItemsThen(items, comma, end, s), ItemsAt(items, line));
    }
  }

  lemma MoreItemsText(items: seq<Item>, comma: bool, end: Gap, s: string)
    requires |items| > 1 || (|items| == 1 && comma)
    ensures ItemsThen(items, comma, end, s) == ItemThen(items[0], "," + ItemsThen(items[1..], comma, end, s))
  {
  }

  lemma MoreItemsAt(items: seq<Item>, line: nat)
    requires items != []
    ensures ItemsAt(items, line)
         == [ItemListed(items[0], line)]
            + ItemsAt(items[1..], line + ItemLines(items[0]))
  {
  }

  lemma MoreItemsLines(items: seq<Item>, comma: bool, end: Gap)
    requires |items| > 1 || (|items| == 1 && comma)
    ensures ItemLines(items[0]) + ItemsLines(items[1..], comma, end) == ItemsLines(items, comma, end)
  {
  }

  // ------------------------------------------------------------------ reading values

  // A text at which a value's line may end.
  predicate EndsValue(x: string) { |x| == 0 || x[0] == '\n' || x[0] == '#' }

  lemma {:induction false} WordIsRead(word: string, x: string, line: nat)
    requires (forall c | c in word :: !EndsWord(c)) && EndsValue(x)
    ensures WordRun(Cursor(word + x, line)) == (word, Cursor(x, line))
  {
    if |word| == 0 {
      assert word + x == x;
    } else {
      assert (word + x)[1..] == word[1..] + x;
      WordIsRead(word[1..], x, line);
      assert [word[0]] + word[1..] == word;
    }
  }

  lemma {:induction false} TrimsSpace(word: string, space: string)
    requires (forall c | c in space :: IsWhitespace(c)) && |word| > 0 && !IsWhitespace(word[|word| - 1])
    ensures TrimEnd(word + space) == word
    decreases |space|
  {
    if |space| == 0 {
      assert word + space == word;
    } else {
      var fewer := space[..|space| - 1];
      assert (word + space)[..|word + space| - 1] == word + fewer;
      assert space[|space| - 1] in space;
      TrimsSpace(word, fewer);
    }
  }

  // A run that is one of the two words, blanks behind it or not, is that value.
  lemma WordIsValue(c: Cursor, value: bool, run: string, end: Cursor)
    requires |c.rest| > 0 && (c.rest[0] == 't' || c.rest[0] == 'f')
    requires WordRun(c) == (run, end) && TrimEnd(run) == WordOf(value)
    ensures ReadValue(c) == Ok((Bool(value), end))
  {
  }

  lemma BoolIsRead(value: bool, space: string, x: string, line: nat)
    requires LegalSpace(space) && EndsValue(x)
    ensures ReadValue(Cursor(WordOf(value) + (space + x), line)) == Ok((Bool(value), Cursor(x, line)))
  {
    var run := WordOf(value) + space;
    Regroup(WordOf(value), space, x);
    RunHasNoEnd(value, space);
    WordIsRead(run, x, line);
    TrimsSpace(WordOf(value), space);
    assert (run + x)[0] == run[0] == WordOf(value)[0];
    WordIsValue(Cursor(run + x, line), value, run, Cursor(x, line));
  }

  lemma RunHasNoEnd(value: bool, space: string)
    requires LegalSpace(space)
    ensures forall c | c in WordOf(value) + space :: !EndsWord(c)
  {
    forall c | c in WordOf(value) + space ensures !EndsWord(c) {
      assert c in WordOf(value) || c in space;
    }
  }

  lemma BracketOpensArray(inside: string, line: nat, items: seq<Listed>, end: Cursor)
    requires ArrayItems(Cursor(inside, line), line) == Ok((items, end))
    ensures ReadValue(Cursor("[" + inside, line)) == Ok((List(items), end))
  {
    assert ("[" + inside)[1..] == inside;
  }

  // Where the reader stands behind a value: a bare word takes the blanks behind it along.
  function BehindValue(v: ValueDoc, trail: string, x: string, line: nat): Cursor {
    Cursor(if v.BoolDoc? then x else trail + x, line + ValueLines(v))
  }

  lemma ListIsRead(items: seq<Item>, comma: bool, end: Gap, s: string, line: nat)
    requires (forall item | item in items :: LegalItem(item)) && LegalGap(end)
    ensures ReadValue(Cursor("[" + ItemsThen(items, comma, end, s), line))
         == Ok((List(ItemsAt(items, line)), Cursor(s, line + ItemsLines(items, comma, end))))
  {
    ItemsAreRead(items, comma, end, s, line, line);
    BracketOpensArray(
      ItemsThen(items, comma, end, s), line, ItemsAt(items, line), Cursor(s, line + ItemsLines(items, comma, end)));
  }

  lemma StrIsRead(text: Quoted, s: string, line: nat)
    requires LegalQuoted(text)
    ensures ReadValue(Cursor(QuotedThen(text, s), line)) == Ok((Str(text.Text()), Cursor(s, line)))
  {
    QuotedIsRead(text, s, line);
  }

  predicate ValueReads(v: ValueDoc, trail: string, x: string, line: nat) {
    ReadValue(Cursor(ValueThen(v, trail + x), line)) == Ok((ValueAt(v, line), BehindValue(v, trail, x, line)))
  }

  lemma StrReads(v: ValueDoc, trail: string, x: string, line: nat)
    requires v.StrDoc? && LegalQuoted(v.text)
    ensures ValueReads(v, trail, x, line)
  {
    StrIsRead(v.text, trail + x, line);
  }

  lemma BoolReads(v: ValueDoc, trail: string, x: string, line: nat)
    requires v.BoolDoc? && LegalSpace(v.space) && LegalBlanks(trail) && EndsValue(x)
    ensures ValueReads(v, trail, x, line)
  {
    forall c | c in v.space + trail ensures IsWhitespace(c) && c != '\n' {
      assert c in v.space || c in trail;
    }
    BoolIsRead(v.value, v.space + trail, x, line);
    Regroup(v.space, trail, x);
  }

  lemma ListReads(v: ValueDoc, trail: string, x: string, line: nat)
    requires v.ListDoc? && LegalValue(v)
    ensures ValueReads(v, trail, x, line)
  {
    assert ValueThen(v, trail + x) == "[" + ItemsThen(v.items, v.comma, v.end, trail + x);
    ListIsRead(v.items, v.comma, v.end, trail + x, line);
  }

  lemma ValueIsRead(v: ValueDoc, trail: string, x: string, line: nat)
    requires LegalValue(v) && LegalBlanks(trail) && EndsValue(x)
    ensures ValueReads(v, trail, x, line)
  {
    match v {
      case StrDoc(_) => StrReads(v, trail, x, line);
      case BoolDoc(_, _) => BoolReads(v, trail, x, line);
      case ListDoc(_, _, _) => ListReads(v, trail, x, line);
    }
  }

  lemma ValueStart(v: ValueDoc, s: string)
    ensures |ValueThen(v, s)| > 0 && !IsBlank(ValueThen(v, s)[0])
  {
    if v.BoolDoc? {
      assert (WordOf(v.value) + (v.space + s))[0] == WordOf(v.value)[0];
    }
  }

  // ------------------------------------------------------------------ reading entries

  lemma {:induction false} KeyIsRead(key: string, s: string, line: nat)
    requires forall c | c in key :: IsKeyCharacter(c)
    requires |s| > 0 && !IsKeyCharacter(s[0])
    ensures KeyRun(Cursor(key + s, line)) == (key, Cursor(s, line))
  {
    if |key| == 0 {
      assert key + s == s;
    } else {
      assert (key + s)[1..] == key[1..] + s;
      KeyIsRead(key[1..], s, line);
      assert [key[0]] + key[1..] == key;
    }
  }

  lemma BlanksStart(blanks: string, s: string)
    requires LegalBlanks(blanks) && |s| > 0
    ensures |blanks + s| > 0 && (IsBlank((blanks + s)[0]) || (blanks + s)[0] == s[0])
  {
    if |blanks| > 0 {
      assert blanks[0] in blanks;
    }
  }

  // Up to the equals sign and the blanks around it.
  lemma KeyIsTaken(key: string, left: string, s: string, line: nat)
    requires LegalKey(key) && LegalBlanks(left) && |s| > 0 && s[0] == '='
    ensures ReadKey(Cursor(key + (left + s), line)) == Ok((key, Cursor(left + s, line)))
    ensures SkipBlanks(Cursor(left + s, line)) == Cursor(s, line)
  {
    BlanksStart(left, s);
    KeyIsRead(key, left + s, line);
    BlanksAreSkipped(left, s, line);
  }

  lemma EqualsIsTaken(right: string, value: string, line: nat)
    requires LegalBlanks(right) && |value| > 0 && !IsBlank(value[0])
    ensures SkipBlanks(Cursor("=" + (right + value), line).Bump()) == Cursor(value, line)
  {
    assert ("=" + (right + value))[1..] == right + value;
    BlanksAreSkipped(right, value, line);
  }

  // What follows a value is the end of its line.
  lemma EndIsFound(v: ValueDoc, trail: string, x: string, line: nat)
    requires LegalBlanks(trail) && EndsValue(x)
    ensures EndOfLine(BehindValue(v, trail, x, line)) == Ok(Cursor(x, line + ValueLines(v)))
  {
    BlanksAreSkipped(trail, x, line + ValueLines(v));
    assert SkipBlanks(Cursor(x, line + ValueLines(v))) == Cursor(x, line + ValueLines(v));
  }

  lemma NoteEnds(l: Line, s: string)
    requires l.closed || |s| == 0
    ensures EndsValue(NoteThen(l, s))
  {
  }

  // The rest of an entry's line is no part of the next entry.
  lemma NoteIsSkipped(l: Line, s: string, line: nat)
    requires LegalNote(l.note) && (l.closed || |s| == 0)
    ensures SkipTrivia(Cursor(NoteThen(l, s), line)) == SkipTrivia(Cursor(s, line + EndLines(l)))
  {
    if l.note.Some? {
      HashIsSkipped(l.note.value, BreakThen(l, s), line);
    }
    if l.closed {
      BreakIsSkipped(s, line);
    }
  }

  // The parts of an entry in the order they are read.
  lemma EntryFromParts(
    c: Cursor, key: string, left: Cursor, equals: Cursor, start: Cursor, value: Value, behind: Cursor, end: Cursor)
    requires ReadKey(c) == Ok((key, left)) && SkipBlanks(left) == equals
    requires equals.Peek() == Some('=') && SkipBlanks(equals.Bump()) == start
    requires ReadValue(start) == Ok((value, behind)) && EndOfLine(behind) == Ok(end)
    ensures ReadEntry(c) == Ok((Entry(key, c.line, value), end))
  {
  }

  // Where the reader stands at the key of an entry, behind its value, and behind its line.
  function AtKey(l: Line, x: string, line: nat): Cursor { Cursor(EntryThen(l, x), line + GapLines(l.before)) }

  function AtNote(l: Line, x: string, line: nat): Cursor {
    Cursor(x, line + GapLines(l.before) + ValueLines(l.value))
  }

  function BehindLine(l: Line, s: string, line: nat): Cursor { Cursor(s, line + LineLines(l)) }

  // The places within the entry: behind the key, at the equals sign, and at the value.
  function AtValue(l: Line, x: string, here: nat): Cursor { Cursor(ValueThen(l.value, l.trail + x), here) }

  function AtEquals(l: Line, x: string, here: nat): Cursor { Cursor("=" + (l.right + AtValue(l, x, here).rest), here) }

  function BehindKey(l: Line, x: string, here: nat): Cursor { Cursor(l.left + AtEquals(l, x, here).rest, here) }

  lemma KeyPart(l: Line, x: string, here: nat)
    requires LegalKey(l.key) && LegalBlanks(l.left)
    ensures ReadKey(Cursor(EntryThen(l, x), here)) == Ok((l.key, BehindKey(l, x, here)))
    ensures SkipBlanks(BehindKey(l, x, here)) == AtEquals(l, x, here)
  {
    KeyIsTaken(l.key, l.left, AtEquals(l, x, here).rest, here);
  }

  lemma EqualsPart(l: Line, x: string, here: nat)
    requires LegalBlanks(l.right)
    ensures AtEquals(l, x, here).Peek() == Some('=')
    ensures SkipBlanks(AtEquals(l, x, here).Bump()) == AtValue(l, x, here)
  {
    ValueStart(l.value, l.trail + x);
    EqualsIsTaken(l.right, AtValue(l, x, here).rest, here);
  }

  lemma ValuePart(l: Line, x: string, here: nat)
    requires LegalValue(l.value) && LegalBlanks(l.trail) && EndsValue(x)
    ensures ReadValue(AtValue(l, x, here)) == Ok((ValueAt(l.value, here), BehindValue(l.value, l.trail, x, here)))
  {
    ValueIsRead(l.value, l.trail, x, here);
  }

  lemma EntryFrom(l: Line, x: string, here: nat)
    requires LegalLine(l) && EndsValue(x)
    ensures ReadEntry(Cursor(EntryThen(l, x), here))
         == Ok((Entry(l.key, here, ValueAt(l.value, here)), Cursor(x, here + ValueLines(l.value))))
  {
    KeyPart(l, x, here);
    EqualsPart(l, x, here);
    ValuePart(l, x, here);
    EndIsFound(l.value, l.trail, x, here);
    EntryFromParts(
      Cursor(EntryThen(l, x), here), l.key, BehindKey(l, x, here), AtEquals(l, x, here), AtValue(l, x, here),
      ValueAt(l.value, here), BehindValue(l.value, l.trail, x, here), Cursor(x, here + ValueLines(l.value)));
  }

  lemma EntryIsRead(l: Line, x: string, line: nat)
    requires LegalLine(l) && EndsValue(x)
    ensures ReadEntry(AtKey(l, x, line)) == Ok((EntryAt(l, line), AtNote(l, x, line)))
  {
    EntryFrom(l, x, AtKey(l, x, line).line);
  }

  lemma LineStarts(l: Line, x: string, line: nat)
    requires LegalGap(l.before) && LegalKey(l.key)
    ensures SkipTrivia(Cursor(GapThen(l.before, EntryThen(l, x)), line)) == AtKey(l, x, line)
    ensures |AtKey(l, x, line).rest| > 0 && AtKey(l, x, line).rest[0] != '['
  {
    GapIsSkipped(l.before, EntryThen(l, x), line);
    assert EntryThen(l, x)[0] == l.key[0] && l.key[0] in l.key;
  }

  lemma LineEnds(l: Line, s: string, line: nat)
    requires LegalNote(l.note) && (l.closed || |s| == 0)
    ensures SkipTrivia(AtNote(l, NoteThen(l, s), line)) == SkipTrivia(BehindLine(l, s, line))
  {
    NoteIsSkipped(l, s, line + GapLines(l.before) + ValueLines(l.value));
  }

  function AfterEntry(entry: Entry, r: Result<seq<Entry>, ConfigError>): Result<seq<Entry>, ConfigError> {
    if r.Ok? then Ok([entry] + r.value) else r
  }

  lemma EntriesStep(c: Cursor, start: Cursor, entry: Entry, end: Cursor, rest: Cursor)
    requires SkipTrivia(c) == start && |start.rest| > 0 && start.rest[0] != '['
    requires ReadEntry(start) == Ok((entry, end)) && SkipTrivia(end) == SkipTrivia(rest)
    ensures Entries(c) == AfterEntry(entry, Entries(rest))
  {
    EntriesSkipFirst(end, rest);
  }

  lemma EntriesSkipFirst(c: Cursor, d: Cursor)
    requires SkipTrivia(c) == SkipTrivia(d)
    ensures Entries(c) == Entries(d)
  {
  }

  // Reading starts over behind an entry as if nothing but its lines had gone before.
  lemma FirstEntryIsRead(l: Line, s: string, line: nat)
    requires LegalLine(l) && (l.closed || |s| == 0)
    ensures Entries(Cursor(LineThen(l, s), line)) == AfterEntry(EntryAt(l, line), Entries(BehindLine(l, s, line)))
  {
    var x := NoteThen(l, s);
    NoteEnds(l, s);
    LineStarts(l, x, line);
    EntryIsRead(l, x, line);
    LineEnds(l, s, line);
    EntriesStep(
      Cursor(LineThen(l, s), line), AtKey(l, x, line), EntryAt(l, line), AtNote(l, x, line), BehindLine(l, s, line));
  }

  lemma TailIsRead(tail: Gap, last: Option<string>, line: nat)
    requires LegalGap(tail) && LegalNote(last)
    ensures Entries(Cursor(GapThen(tail, RenderNote(last)), line)) == Ok([])
  {
    GapIsSkipped(tail, RenderNote(last), line);
    if last.Some? {
      assert last.value + "" == last.value;
      HashIsSkipped(last.value, "", line + GapLines(tail));
    }
  }

  type EntriesReader = (string, nat) -> Result<seq<Entry>, ConfigError>

  // What the composition of lines needs of a reader: it reads a line off in front of any rest that may
  // follow it.
  ghost predicate ReadsLines(read: EntriesReader) {
    forall l, s, line: nat | LegalLine(l) && (l.closed || |s| == 0) ::
      read(LineThen(l, s), line) == AfterEntry(EntryAt(l, line), read(s, line + LineLines(l)))
  }

  lemma {:induction false} LinesCompose(
    read: EntriesReader, lines: seq<Line>, tail: Gap, last: Option<string>, line: nat)
    requires ReadsLines(read) && LegalLines(lines, tail, last)
    requires forall n: nat :: read(GapThen(tail, RenderNote(last)), n) == Ok([])
    ensures read(LinesThen(lines, tail, last), line) == Ok(EntriesAt(lines, line))
    decreases |lines|
  {
    if |lines| > 0 {
      LinesCompose(read, lines[1..], tail, last, line + LineLines(lines[0]));
      OpenLineIsLast(lines, tail, last);
    }
  }

  lemma EntriesReadLines(read: EntriesReader)
    requires forall text, n: nat :: read(text, n) == Entries(Cursor(text, n))
    ensures ReadsLines(read)
  {
    forall l, s, n: nat | LegalLine(l) && (l.closed || |s| == 0)
      ensures read(LineThen(l, s), n) == AfterEntry(EntryAt(l, n), read(s, n + LineLines(l)))
    {
      FirstEntryIsRead(l, s, n);
    }
  }

  lemma EntriesAreRead(lines: seq<Line>, tail: Gap, last: Option<string>, line: nat)
    requires LegalLines(lines, tail, last) && LegalGap(tail) && LegalNote(last)
    ensures Entries(Cursor(LinesThen(lines, tail, last), line)) == Ok(EntriesAt(lines, line))
  {
    var read: EntriesReader := (text: string, n: nat) => Entries(Cursor(text, n));
    EntriesReadLines(read);
    forall n: nat ensures read(GapThen(tail, RenderNote(last)), n) == Ok([]) {
      TailIsRead(tail, last, n);
    }
    LinesCompose(read, lines, tail, last, line);
  }

  lemma OpenLineIsLast(lines: seq<Line>, tail: Gap, last: Option<string>)
    requires LegalLines(lines, tail, last) && lines != []
    ensures lines[0].closed || |LinesThen(lines[1..], tail, last)| == 0
  {
  }

  // ------------------------------------------------------------------ whole files

  lemma {:induction false} BomsAreTrimmed(n: nat, s: string)
    requires |s| > 0 ==> s[0] != BOM
    ensures TrimBoms(Boms(n) + s) == s
  {
    if n == 0 {
      assert Boms(n) + s == s;
    } else {
      assert (Boms(n) + s)[1..] == Boms(n - 1) + s;
      BomsAreTrimmed(n - 1, s);
    }
  }

  lemma GapStart(g: Gap, s: string)
    requires LegalGap(g) && (|s| > 0 ==> s[0] != BOM)
    ensures |GapThen(g, s)| > 0 ==> GapThen(g, s)[0] != BOM
  {
    if |g| > 0 {
      assert g[0] in g && LegalPiece(g[0]);
    }
  }

  lemma DocumentStart(lines: seq<Line>, tail: Gap, last: Option<string>)
    requires LegalLines(lines, tail, last)
    ensures |LinesThen(lines, tail, last)| > 0 ==> LinesThen(lines, tail, last)[0] != BOM
  {
    if |lines| == 0 {
      GapStart(tail, RenderNote(last));
    } else {
      var body := EntryThen(lines[0], NoteThen(lines[0], LinesThen(lines[1..], tail, last)));
      assert body[0] == lines[0].key[0] && lines[0].key[0] in lines[0].key;
      GapStart(lines[0].before, body);
    }
  }

  lemma {:induction false} LinesAreLegal(lines: seq<Line>, tail: Gap, last: Option<string>)
    requires LegalLines(lines, tail, last)
    ensures (forall l | l in lines :: LegalLine(l)) && LegalGap(tail) && LegalNote(last)
  {
    if |lines| > 0 {
      LinesAreLegal(lines[1..], tail, last);
    }
  }

  // Entries written out in any layout come back unchanged, each entry and each array element with
  // the line it was written on, and byte order marks in front of the file change nothing.
  lemma WrittenIsRead(d: Document)
    requires LegalDocument(d)
    ensures ParseText(RenderDocument(d)) == Ok(EntriesAt(d.lines, 1))
  {
    LinesAppend(d.lines, d.tail, d.last);
    DocumentStart(d.lines, d.tail, d.last);
    BomsAreTrimmed(d.boms, RenderLines(d.lines, d.tail, d.last));
    LinesAreLegal(d.lines, d.tail, d.last);
    EntriesAreRead(d.lines, d.tail, d.last, 1);
  }

  // ------------------------------------------------------------------ layout

  datatype Plain = PlainStr(text: string) | PlainBool(value: bool) | PlainList(items: seq<string>)

  function Texts(items: seq<Item>): seq<string> {
    if |items| == 0 then [] else [items[0].text.Text()] + Texts(items[1..])
  }

  function Values(listed: seq<Listed>): seq<string> {
    if |listed| == 0 then [] else [listed[0].value] + Values(listed[1..])
  }

  function WithoutLines(v: Value): Plain {
    match v
    case Str(text) => PlainStr(text)
    case Bool(value) => PlainBool(value)
    case List(items) => PlainList(Values(items))
  }

  // What a line says, whatever its layout and quoting.
  function Content(l: Line): (string, Plain) {
    (l.key,
     match l.value
     case StrDoc(text) => PlainStr(text.Text())
     case BoolDoc(value, _) => PlainBool(value)
     case ListDoc(items, _, _) => PlainList(Texts(items)))
  }

  function Said(e: Entry): (string, Plain) { (e.key, WithoutLines(e.value)) }

  function AllSaid(entries: seq<Entry>): seq<(string, Plain)> {
    if |entries| == 0 then [] else [Said(entries[0])] + AllSaid(entries[1..])
  }

  function Contents(lines: seq<Line>): seq<(string, Plain)> {
    if |lines| == 0 then [] else [Content(lines[0])] + Contents(lines[1..])
  }

  lemma ValuesStep(first: Listed, rest: seq<Listed>)
    ensures Values([first] + rest) == [first.value] + Values(rest)
  {
    assert ([first] + rest)[1..] == rest;
  }

  lemma {:induction false} ItemsKeepContent(items: seq<Item>, line: nat)
    ensures Values(ItemsAt(items, line)) == Texts(items)
    decreases |items|
  {
    if |items| > 0 {
      var next := line + ItemLines(items[0]);
      ItemsKeepContent(items[1..], next);
      ValuesStep(ItemListed(items[0], line), ItemsAt(items[1..], next));
    }
  }

  lemma SaidStep(first: Entry, rest: seq<Entry>)
    ensures AllSaid([first] + rest) == [Said(first)] + AllSaid(rest)
  {
    assert ([first] + rest)[1..] == rest;
  }

  lemma LineKeepsContent(l: Line, line: nat)
    ensures Said(EntryAt(l, line)) == Content(l)
  {
    if l.value.ListDoc? {
      ItemsKeepContent(l.value.items, line + GapLines(l.before));
    }
  }

  lemma {:induction false} EntriesKeepContent(lines: seq<Line>, line: nat)
    ensures AllSaid(EntriesAt(lines, line)) == Contents(lines)
    decreases |lines|
  {
    if |lines| > 0 {
      var next := line + LineLines(lines[0]);
      EntriesKeepContent(lines[1..], next);
      LineKeepsContent(lines[0], line);
      SaidStep(EntryAt(lines[0], line), EntriesAt(lines[1..], next));
    }
  }

  lemma ContentIsRead(d: Document)
    requires LegalDocument(d)
    ensures ParseText(RenderDocument(d)).Ok? && AllSaid(ParseText(RenderDocument(d)).value) == Contents(d.lines)
  {
    WrittenIsRead(d);
    EntriesKeepContent(d.lines, 1);
  }

  // Two layouts of the same content differ, once read, in nothing but line numbers.
  lemma LayoutOnlyMovesLines(d: Document, d': Document)
    requires LegalDocument(d) && LegalDocument(d') && Contents(d.lines) == Contents(d'.lines)
    ensures var (r, r') := (ParseText(RenderDocument(d)), ParseText(RenderDocument(d')));
            r.Ok? && r'.Ok? && AllSaid(r.value) == AllSaid(r'.value) == Contents(d.lines)
  {
    ContentIsRead(d);
    ContentIsRead(d');
  }
}
