// What the reader of config.rs accepts: exactly the renderings of legal documents.
module ConfigAccepted {
  import opened Text
  import opened Wrappers
  import opened ConfigReader
  import opened ConfigRoundTrip

  // ------------------------------------------------------------------ blanks, comments and gaps

  lemma {:induction false} BlanksWritten(c: Cursor) returns (blanks: string)
    ensures LegalBlanks(blanks) && c.rest == blanks + SkipBlanks(c).rest
    ensures SkipBlanks(c).rest != "" ==> !IsBlank(SkipBlanks(c).rest[0])
    decreases |c.rest|
  {
    blanks := "";
    if c.rest != "" && IsBlank(c.rest[0]) {
      var more := BlanksWritten(c.Bump());
      blanks := [c.rest[0]] + more;
      assert [c.rest[0]] + (more + SkipBlanks(c).rest) == blanks + SkipBlanks(c).rest;
    }
  }

  // A comment, from its hash to the end of the line.
  lemma {:induction false} CommentWritten(c: Cursor) returns (body: string)
    ensures '\n' !in body && c.rest == body + SkipComment(c).rest
    ensures SkipComment(c).rest != "" ==> SkipComment(c).rest[0] == '\n'
    decreases |c.rest|
  {
    body := "";
    if c.rest != "" && c.rest[0] != '\n' {
      var more := CommentWritten(c.Bump());
      body := [c.rest[0]] + more;
      assert [c.rest[0]] + (more + SkipComment(c).rest) == body + SkipComment(c).rest;
    }
  }

  lemma HashWritten(c: Cursor) returns (body: string)
    requires c.rest != "" && c.rest[0] == '#'
    ensures '\n' !in body && c.rest == "#" + (body + SkipComment(c).rest)
    ensures SkipComment(c).rest != "" ==> SkipComment(c).rest[0] == '\n'
  {
    var whole := CommentWritten(c);
    assert "" + SkipComment(c).rest == SkipComment(c).rest;
    assert whole[0] == c.rest[0];
    body := whole[1..];
    assert whole == "#" + body;
    Regroup("#", body, SkipComment(c).rest);
  }

  // White space and comments; the last comment may end with the text instead of its line.
  lemma {:induction false} TriviaWritten(c: Cursor) returns (gap: Gap, last: Option<string>)
    ensures LegalGap(gap) && LegalNote(last) && (last.Some? ==> SkipTrivia(c).rest == "")
    ensures c.rest == GapThen(gap, if last.Some? then RenderNote(last) else SkipTrivia(c).rest)
    decreases |c.rest|
  {
    gap, last := [], None;
    if c.rest == "" {
    } else if IsBlank(c.rest[0]) || c.rest[0] == '\n' {
      var more;
      more, last := TriviaWritten(c.Bump());
      gap := [Blank(c.rest[0])] + more;
      assert gap[1..] == more;
    } else if c.rest[0] == '#' {
      var body := HashWritten(c);
      var rest := SkipComment(c);
      if rest.rest == "" {
        last := Some(body);
        assert body + rest.rest == body;
      } else {
        var more;
        more, last := TriviaWritten(rest.Bump());
        assert SkipTrivia(c) == SkipTrivia(rest) == SkipTrivia(rest.Bump());
        gap := [Comment(body)] + more;
        assert gap[1..] == more && rest.rest == "\n" + rest.Bump().rest;
      }
    }
  }

  // Where something follows, it is a gap.
  lemma GapWritten(c: Cursor) returns (gap: Gap)
    requires SkipTrivia(c).rest != ""
    ensures LegalGap(gap) && c.rest == GapThen(gap, SkipTrivia(c).rest)
  {
    var last;
    gap, last := TriviaWritten(c);
  }

  // ------------------------------------------------------------------ strings and arrays

  lemma {:induction false} CharsWritten(c: Cursor, openLine: nat) returns (chars: seq<Spelled>)
    requires StringBody(c, '"', openLine).Ok?
    ensures forall x | x in chars :: LegalSpelled(x)
    ensures c.rest == CharsThen(chars, "\"" + StringBody(c, '"', openLine).value.1.rest)
    decreases |c.rest|
  {
    var (x, next) := (c.rest[0], c.Bump());
    assert c.rest == [x] + next.rest;
    if x == '"' {
      chars := [];
    } else if x == '\\' {
      var meant := Unescaped(next.rest[0]).value;
      var more := CharsWritten(next.Bump(), openLine);
      chars := [Spelled(meant, true)] + more;
      assert chars[1..] == more && EscapeChar(meant) == [x, next.rest[0]];
      assert c.rest == [x, next.rest[0]] + next.Bump().rest;
    } else {
      var more := CharsWritten(next, openLine);
      chars := [Spelled(x, false)] + more;
      assert chars[1..] == more;
    }
  }

  lemma {:induction false} LiteralWritten(c: Cursor, openLine: nat) returns (raw: string)
    requires StringBody(c, '\'', openLine).Ok?
    ensures '\'' !in raw && '\n' !in raw
    ensures c.rest == raw + ("'" + StringBody(c, '\'', openLine).value.1.rest)
    decreases |c.rest|
  {
    var (x, next) := (c.rest[0], c.Bump());
    assert c.rest == [x] + next.rest;
    raw := "";
    if x != '\'' {
      var more := LiteralWritten(next, openLine);
      raw := [x] + more;
      assert [x] + (more + ("'" + StringBody(c, '\'', openLine).value.1.rest))
          == raw + ("'" + StringBody(c, '\'', openLine).value.1.rest);
    }
  }

  lemma QuotedWritten(c: Cursor) returns (q: Quoted)
    requires c.rest != "" && IsQuote(c.rest[0]) && ReadString(c).Ok?
    ensures LegalQuoted(q) && c.rest == QuotedThen(q, ReadString(c).value.1.rest)
  {
    assert c.rest == [c.rest[0]] + c.Bump().rest;
    if c.rest[0] == '"' {
      var chars := CharsWritten(c.Bump(), c.Bump().line);
      q := Basic(chars);
    } else {
      var raw := LiteralWritten(c.Bump(), c.Bump().line);
      q := Literal(raw);
    }
  }

  // The first element with what stands before and behind it, up to its comma or the bracket.
  lemma ItemWritten(c: Cursor) returns (item: Item, next: Cursor)
    requires var start := SkipTrivia(c); start.rest != "" && IsQuote(start.rest[0]) && ReadString(start).Ok?
    requires SkipTrivia(ReadString(SkipTrivia(c)).value.1).rest != ""
    ensures next == SkipTrivia(ReadString(SkipTrivia(c)).value.1)
    ensures LegalItem(item) && c.rest == ItemThen(item, next.rest)
  {
    var start := SkipTrivia(c);
    var before := GapWritten(c);
    var text := QuotedWritten(start);
    var behind := ReadString(start).value.1;
    var after := GapWritten(behind);
    item, next := Item(before, text, after), SkipTrivia(behind);
  }

  lemma {:induction false} ItemsWritten(c: Cursor, openLine: nat) returns (items: seq<Item>, comma: bool, end: Gap)
    requires ArrayItems(c, openLine).Ok?
    ensures (forall item | item in items :: LegalItem(item)) && LegalGap(end)
    ensures c.rest == ItemsThen(items, comma, end, ArrayItems(c, openLine).value.1.rest)
    decreases |c.rest|
  {
    var start := SkipTrivia(c);
    var rest := ArrayItems(c, openLine).value.1.rest;
    if start.rest[0] == ']' {
      var gap := GapWritten(c);
      assert start.rest == "]" + rest;
      return [], false, gap;
    }
    var item, next := ItemWritten(c);
    assert next.rest == [next.rest[0]] + next.Bump().rest;
    if next.rest[0] == ']' {
      return [item], false, [];
    }
    var more;
    more, comma, end := ItemsWritten(next.Bump(), openLine);
    items := [item] + more;
    assert items[1..] == more;
    if more == [] {
      comma := true;
      assert ItemsThen(more, true, end, rest) == ItemsThen(more, false, end, rest);
    }
    MoreItemsText(items, comma, end, rest);
  }

  // ------------------------------------------------------------------ entries

  lemma {:induction false} KeyWritten(c: Cursor)
    ensures c.rest == KeyRun(c).0 + KeyRun(c).1.rest && forall x | x in KeyRun(c).0 :: IsKeyCharacter(x)
    decreases |c.rest|
  {
    if |c.rest| > 0 && IsKeyCharacter(c.rest[0]) {
      var next := c.Bump();
      KeyWritten(next);
      Regroup([c.rest[0]], KeyRun(next).0, KeyRun(next).1.rest);
      assert c.rest == [c.rest[0]] + next.rest;
    } else {
      assert "" + c.rest == c.rest;
    }
  }

  lemma {:induction false} WordWritten(c: Cursor)
    ensures c.rest == WordRun(c).0 + WordRun(c).1.rest && forall x | x in WordRun(c).0 :: !EndsWord(x)
    decreases |c.rest|
  {
    if |c.rest| > 0 && !EndsWord(c.rest[0]) {
      var next := c.Bump();
      WordWritten(next);
      Regroup([c.rest[0]], WordRun(next).0, WordRun(next).1.rest);
      assert c.rest == [c.rest[0]] + next.rest;
    } else {
      assert "" + c.rest == c.rest;
    }
  }

  lemma {:induction false} SpaceTrimmed(s: string) returns (space: string)
    ensures s == TrimEnd(s) + space && forall c | c in space :: IsWhitespace(c)
    decreases |s|
  {
    space := "";
    if s != "" && IsWhitespace(s[|s| - 1]) {
      var less := SpaceTrimmed(s[..|s| - 1]);
      space := less + [s[|s| - 1]];
      assert s == s[..|s| - 1] + [s[|s| - 1]];
    }
  }

  lemma BoolWritten(c: Cursor, value: bool) returns (v: ValueDoc)
    requires TrimEnd(WordRun(c).0) == WordOf(value)
    ensures LegalValue(v) && v.BoolDoc? && c.rest == ValueThen(v, WordRun(c).1.rest)
  {
    var run := WordRun(c).0;
    WordWritten(c);
    var space := SpaceTrimmed(run);
    forall x | x in space ensures x != '\n' {
      assert x in run;
    }
    v := BoolDoc(value, space);
    Regroup(WordOf(value), space, WordRun(c).1.rest);
  }

  lemma ValueWritten(c: Cursor) returns (v: ValueDoc)
    requires ReadValue(c).Ok?
    ensures LegalValue(v) && c.rest == ValueThen(v, ReadValue(c).value.1.rest)
  {
    if c.rest != "" && IsQuote(c.rest[0]) {
      var q := QuotedWritten(c);
      v := StrDoc(q);
    } else if c.rest != "" && c.rest[0] == '[' {
      var items, comma, end := ItemsWritten(c.Bump(), c.Bump().line);
      v := ListDoc(items, comma, end);
      assert c.rest == "[" + c.Bump().rest;
    } else {
      v := BoolWritten(c, ReadValue(c).value.0.value);
    }
  }

  // The places an accepted entry is read through.
  lemma EntryPlaces(c: Cursor) returns (left: Cursor, equals: Cursor, start: Cursor, behind: Cursor)
    requires ReadEntry(c).Ok?
    ensures ReadKey(c) == Ok((KeyRun(c).0, left)) && left == KeyRun(c).1 && KeyRun(c).0 != ""
    ensures equals == SkipBlanks(left) && equals.Peek() == Some('=') && start == SkipBlanks(equals.Bump())
    ensures ReadValue(start).Ok? && behind == ReadValue(start).value.1
    ensures EndOfLine(behind) == Ok(ReadEntry(c).value.1)
  {
    left := KeyRun(c).1;
    equals := SkipBlanks(left);
    start := SkipBlanks(equals.Bump());
    behind := ReadValue(start).value.1;
  }

  lemma EndWritten(c: Cursor) returns (trail: string)
    requires EndOfLine(c).Ok?
    ensures LegalBlanks(trail) && c.rest == trail + EndOfLine(c).value.rest && EndsValue(EndOfLine(c).value.rest)
  {
    trail := BlanksWritten(c);
  }

  lemma EntryWritten(c: Cursor) returns (l: Line)
    requires ReadEntry(c).Ok?
    ensures LegalLine(l) && l.before == [] && l.note.None? && l.closed
    ensures c.rest == EntryThen(l, ReadEntry(c).value.1.rest) && EndsValue(ReadEntry(c).value.1.rest)
  {
    var left, equals, start, behind := EntryPlaces(c);
    KeyWritten(c);
    var blanks := BlanksWritten(left);
    var blanks' := BlanksWritten(equals.Bump());
    assert equals.rest == "=" + equals.Bump().rest;
    var value := ValueWritten(start);
    var trail := EndWritten(behind);
    l := Line([], KeyRun(c).0, blanks, blanks', value, trail, None, true);
  }

  // Behind the rest of an entry's line.
  function NextLine(c: Cursor): Cursor {
    if c.rest != "" && c.rest[0] == '#' then SkipComment(c).Bump() else c.Bump()
  }

  // What is left of an entry's line, and where the next one starts.
  lemma NoteWritten(x: Cursor) returns (note: Option<string>, closed: bool, next: Cursor)
    requires EndsValue(x.rest)
    ensures LegalNote(note) && (closed || next.rest == "") && |next.rest| <= |x.rest|
    ensures forall l: Line | l.note == note && l.closed == closed :: x.rest == NoteThen(l, next.rest)
    ensures SkipTrivia(x) == SkipTrivia(next) && next == NextLine(x)
  {
    note, closed, next := None, false, x;
    if x.rest != "" && x.rest[0] == '#' {
      var body := HashWritten(x);
      note, next := Some(body), SkipComment(x);
      assert body + "" == body;
    }
    if next.rest != "" {
      assert next.rest == "\n" + next.Bump().rest;
      closed, next := true, next.Bump();
    }
  }

  // ------------------------------------------------------------------ whole texts

  lemma {:induction false} LinesWritten(c: Cursor) returns (lines: seq<Line>, tail: Gap, last: Option<string>)
    requires Entries(c).Ok?
    ensures LegalLines(lines, tail, last) && c.rest == LinesThen(lines, tail, last)
    ensures c.rest == "" ==> lines == [] && tail == [] && last.None?
    decreases |c.rest|
  {
    if SkipTrivia(c).rest == "" {
      lines := [];
      tail, last := TriviaWritten(c);
      return;
    }
    var l, next := LineWritten(c);
    lines, tail, last := LinesWritten(next);
    LineJoins(l, next.rest, lines, tail, last);
    lines := [l] + lines;
  }

  lemma LineJoins(l: Line, s: string, lines: seq<Line>, tail: Gap, last: Option<string>)
    requires LegalLine(l) && LegalLines(lines, tail, last) && s == LinesThen(lines, tail, last)
    requires l.closed || (lines == [] && tail == [] && last.None?)
    ensures LegalLines([l] + lines, tail, last) && LinesThen([l] + lines, tail, last) == LineThen(l, s)
  {
    assert ([l] + lines)[1..] == lines;
  }

  // An entry with the gap before it and what is left of its line behind it.
  lemma LineFromParts(entry: Line, gap: Gap, note: Option<string>, closed: bool, x: string, s: string, text: string)
    requires LegalLine(entry) && LegalGap(gap) && LegalNote(note)
    requires forall l: Line | l.note == note && l.closed == closed :: x == NoteThen(l, s)
    requires text == GapThen(gap, EntryThen(entry, x))
    ensures var l := entry.(before := gap, note := note, closed := closed);
            LegalLine(l) && text == LineThen(l, s)
  {
    var l := entry.(before := gap, note := note, closed := closed);
    assert x == NoteThen(l, s);
    assert EntryThen(entry, x) == EntryThen(l, x);
  }

  // Behind the first entry the text is accepted, too.
  lemma FirstEntryIsOk(c: Cursor) returns (end: Cursor)
    requires Entries(c).Ok? && SkipTrivia(c).rest != ""
    ensures ReadEntry(SkipTrivia(c)).Ok? && end == ReadEntry(SkipTrivia(c)).value.1
    ensures Entries(end).Ok? && |end.rest| < |c.rest|
  {
    end := ReadEntry(SkipTrivia(c)).value.1;
  }

  // The first entry, with everything up to the end of its line.
  lemma LineWritten(c: Cursor) returns (l: Line, next: Cursor)
    requires Entries(c).Ok? && SkipTrivia(c).rest != ""
    ensures LegalLine(l) && (l.closed || next.rest == "") && c.rest == LineThen(l, next.rest)
    ensures Entries(next).Ok? && |next.rest| < |c.rest|
  {
    var end := FirstEntryIsOk(c);
    var gap := GapWritten(c);
    var entry := EntryWritten(SkipTrivia(c));
    var note, closed;
    note, closed, next := NoteWritten(end);
    EntriesSkipFirst(end, next);
    l := entry.(before := gap, note := note, closed := closed);
    LineFromParts(entry, gap, note, closed, end.rest, next.rest, c.rest);
  }

  lemma {:induction false} BomsWritten(text: string) returns (boms: nat)
    ensures text == Boms(boms) + TrimBoms(text)
  {
    boms := 0;
    if text != "" && text[0] == BOM {
      var fewer := BomsWritten(text[1..]);
      boms := fewer + 1;
      assert text == [BOM] + text[1..];
    }
  }

  // A text is accepted exactly when it is a legal document written out, and the entries are then those of
  // that document, each with its line.
  lemma AcceptedExactly(text: string)
    ensures ParseText(text).Ok? <==> exists d :: LegalDocument(d) && RenderDocument(d) == text
    ensures forall d | LegalDocument(d) && RenderDocument(d) == text :: ParseText(text) == Ok(EntriesAt(d.lines, 1))
  {
    forall d | LegalDocument(d) && RenderDocument(d) == text
      ensures ParseText(text) == Ok(EntriesAt(d.lines, 1))
    {
      WrittenIsRead(d);
    }
    if ParseText(text).Ok? {
      var boms := BomsWritten(text);
      var lines, tail, last := LinesWritten(Cursor(TrimBoms(text), 1));
      LinesAppend(lines, tail, last);
      var d := Document(boms, lines, tail, last);
      assert LegalDocument(d) && RenderDocument(d) == text;
    }
  }

  lemma {:induction false} LinesOnlyGrow(lines: seq<Line>, tail: Gap, last: Option<string>, line: nat, k: nat)
    requires LegalLines(lines, tail, last) && k < |lines|
    ensures |EntriesAt(lines, line)| == |lines| && EntriesAt(lines, line)[k].line >= line + k
    decreases |lines|
  {
    if k > 0 {
      LinesOnlyGrow(lines[1..], tail, last, line + LineLines(lines[0]), k - 1);
    } else {
      CountEntries(lines, line);
    }
  }

  // No two entries of an accepted text are on one line.
  lemma {:induction false} EntriesAreApart(lines: seq<Line>, tail: Gap, last: Option<string>, line: nat, i: nat, j: nat)
    requires LegalLines(lines, tail, last) && i < j < |lines|
    ensures |EntriesAt(lines, line)| == |lines| && EntriesAt(lines, line)[i].line < EntriesAt(lines, line)[j].line
    decreases |lines|
  {
    var next := line + LineLines(lines[0]);
    CountEntries(lines, line);
    if i == 0 {
      LinesOnlyGrow(lines[1..], tail, last, next, j - 1);
    } else {
      EntriesAreApart(lines[1..], tail, last, next, i - 1, j - 1);
    }
  }

  lemma AcceptedLinesIncrease(text: string, i: nat, j: nat)
    requires ParseText(text).Ok? && i < j < |ParseText(text).value|
    ensures ParseText(text).value[i].line < ParseText(text).value[j].line
  {
    AcceptedExactly(text);
    var d :| LegalDocument(d) && RenderDocument(d) == text;
    CountEntries(d.lines, 1);
    EntriesAreApart(d.lines, d.tail, d.last, 1, i, j);
  }
}
