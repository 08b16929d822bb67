// What the reader of config.rs says about a text it refuses: where the fault is and on which line.
module ConfigRefused {
  import opened Text
  import opened Wrappers
  import opened ConfigReader
  import opened ConfigRoundTrip
  import opened ConfigAccepted

  // ------------------------------------------------------------------ places in a text

  // Reading can have gone from `c` on to `d`.
  predicate Follows(c: Cursor, d: Cursor)
    decreases |c.rest|
  {
    c == d || (|c.rest| > 0 && Follows(c.Bump(), d))
  }

  // What follows is a later part of the text, and the line has moved by the line breaks in between.
  lemma {:induction false} FollowsExactly(c: Cursor, d: Cursor)
    requires Follows(c, d)
    ensures |d.rest| <= |c.rest| && c.rest[|c.rest| - |d.rest|..] == d.rest
    ensures d.line == c.line + Newlines(c.rest[..|c.rest| - |d.rest|])
    decreases |c.rest|
  {
    if c != d {
      FollowsExactly(c.Bump(), d);
      var between := c.rest[..|c.rest| - |d.rest|];
      assert between[1..] == c.Bump().rest[..|c.Bump().rest| - |d.rest|];
    }
  }

  lemma FollowsSelf(c: Cursor)
    ensures Follows(c, c)
  {
  }

  lemma {:induction false} FollowsThen(c: Cursor, d: Cursor, e: Cursor)
    requires Follows(c, d) && Follows(d, e)
    ensures Follows(c, e)
    decreases |c.rest|
  {
    if c != d {
      FollowsThen(c.Bump(), d, e);
    }
  }

  lemma BumpFollows(c: Cursor)
    ensures Follows(c, c.Bump())
  {
    FollowsSelf(c.Bump());
  }

  lemma {:induction false} BlanksFollow(c: Cursor)
    ensures Follows(c, SkipBlanks(c))
    decreases |c.rest|
  {
    if c.rest != "" && IsBlank(c.rest[0]) {
      BlanksFollow(c.Bump());
      BumpFollows(c);
      FollowsThen(c, c.Bump(), SkipBlanks(c));
    }
  }

  lemma {:induction false} CommentFollows(c: Cursor)
    ensures Follows(c, SkipComment(c))
    decreases |c.rest|
  {
    if c.rest != "" && c.rest[0] != '\n' {
      CommentFollows(c.Bump());
      BumpFollows(c);
      FollowsThen(c, c.Bump(), SkipComment(c));
    }
  }

  lemma {:induction false} TriviaFollows(c: Cursor)
    ensures Follows(c, SkipTrivia(c))
    ensures SkipTrivia(c).rest != "" ==> SkipTrivia(c).rest[0] !in " \t\r\n#"
    decreases |c.rest|
  {
    if c.rest != "" && (IsBlank(c.rest[0]) || c.rest[0] == '\n') {
      TriviaFollows(c.Bump());
      BumpFollows(c);
      FollowsThen(c, c.Bump(), SkipTrivia(c));
    } else if c.rest != "" && c.rest[0] == '#' {
      TriviaFollows(SkipComment(c));
      CommentFollows(c);
      FollowsThen(c, SkipComment(c), SkipTrivia(c));
    }
  }

  lemma {:induction false} KeyFollows(c: Cursor)
    ensures Follows(c, KeyRun(c).1)
    decreases |c.rest|
  {
    if c.rest != "" && IsKeyCharacter(c.rest[0]) {
      KeyFollows(c.Bump());
      BumpFollows(c);
      FollowsThen(c, c.Bump(), KeyRun(c).1);
    }
  }

  lemma {:induction false} WordFollows(c: Cursor)
    ensures Follows(c, WordRun(c).1) && WordRun(c).1.line == c.line
    decreases |c.rest|
  {
    if c.rest != "" && !EndsWord(c.rest[0]) {
      WordFollows(c.Bump());
      BumpFollows(c);
      FollowsThen(c, c.Bump(), WordRun(c).1);
    }
  }

  // ------------------------------------------------------------------ faults

  predicate Shows(at: Cursor, x: char) { at.rest != "" && at.rest[0] == x }

  predicate ShowsText(at: Cursor, s: string) { s <= at.rest }

  // The fault is at the start of its entry.
  predicate BlamesEntry(at: Cursor, problem: Problem) {
    match problem
    case TableHeader => Shows(at, '[')
    case ExpectedKey(x) => Shows(at, x) && !IsKeyCharacter(x) && x != '['
    case DottedKey(key) => LegalKey(key) && ShowsText(at, key + ".")
    case InvalidKeyCharacter(key, x) =>
      LegalKey(key) && ShowsText(at, key + [x]) && !IsKeyCharacter(x) && x !in ".= \t\r\n#"
    case ExpectedEquals(key) => LegalKey(key) && ShowsText(at, key)
    case _ => false
  }

  // The fault is further on in the entry.
  predicate BlamesValue(at: Cursor, problem: Problem) {
    match problem
    case InlineTable => Shows(at, '{')
    case ExpectedValue => at.rest == "" || EndsWord(at.rest[0])
    case NotAValue(word) =>
      && word !in ["", "true", "false"] && (forall c | c in word :: !EndsWord(c)) && ShowsText(at, word)
      && !IsQuote(word[0]) && word[0] !in "[{"
    case UnterminatedString => at.rest != "" && IsQuote(at.rest[0])
    case UnterminatedArray => Shows(at, '[')
    case NotAQuotedString(x) => Shows(at, x) && !IsQuote(x) && x !in "] \t\r\n#"
    case ExpectedCommaOrBracket(x) => Shows(at, x) && x !in ",] \t\r\n#"
    case UnexpectedAfterValue(x) => Shows(at, x) && x !in " \t\r\n#"
    case _ => false
  }

  // The error names what is found at the place and carries its line. An escaped line break is the one
  // exception: reading has gone past it when the error is made.
  predicate Blames(at: Cursor, error: ConfigError) {
    match error.problem
    case UnknownEscape(x) =>
      ShowsText(at, ['\\', x]) && !Escapes(x) && error.line == at.line + (if x == '\n' then 1 else 0)
    case problem => BlamesValue(at, problem) && error.line == at.line
  }

  // The same for a whole entry.
  predicate BlamesIn(start: Cursor, at: Cursor, error: ConfigError) {
    (at == start && BlamesEntry(at, error.problem) && error.line == at.line) || Blames(at, error)
  }

  predicate Escapes(x: char) { x in "\"\\nrt" }

  // ------------------------------------------------------------------ strings and arrays

  lemma {:induction false} StringFollows(c: Cursor, quote: char, openLine: nat)
    requires StringBody(c, quote, openLine).Ok?
    ensures Follows(c, StringBody(c, quote, openLine).value.1)
    decreases |c.rest|
  {
    var (x, next) := (c.rest[0], c.Bump());
    BumpFollows(c);
    if x != quote {
      var more := if x == '\\' && quote == '"' then next.Bump() else next;
      BumpFollows(next);
      if x == '\\' && quote == '"' {
        FollowsThen(c, next, more);
      }
      StringFollows(more, quote, openLine);
      FollowsThen(c, more, StringBody(c, quote, openLine).value.1);
    }
  }

  lemma {:induction false} StringFault(c: Cursor, quote: char, openLine: nat) returns (at: Cursor)
    requires StringBody(c, quote, openLine).Err?
    ensures var error := StringBody(c, quote, openLine).error;
            || error == ConfigError(openLine, UnterminatedString)
            || (error.problem.UnknownEscape? && Follows(c, at) && Blames(at, error))
    decreases |c.rest|
  {
    at := c;
    FollowsSelf(c);
    if c.rest != "" && c.rest[0] != '\n' && c.rest[0] != quote {
      var (x, next) := (c.rest[0], c.Bump());
      BumpFollows(c);
      if x == '\\' && quote == '"' {
        if next.rest != "" {
          if Unescaped(next.rest[0]).Some? {
            BumpFollows(next);
            FollowsThen(c, next, next.Bump());
            at := StringFault(next.Bump(), quote, openLine);
            if Follows(next.Bump(), at) {
              FollowsThen(c, next.Bump(), at);
            }
          } else {
            assert ['\\', next.rest[0]] <= c.rest;
          }
        }
      } else {
        at := StringFault(next, quote, openLine);
        if Follows(next, at) {
          FollowsThen(c, next, at);
        }
      }
    }
  }

  lemma QuotedFollows(c: Cursor)
    requires c.rest != "" && IsQuote(c.rest[0]) && ReadString(c).Ok?
    ensures Follows(c, ReadString(c).value.1)
  {
    BumpFollows(c);
    StringFollows(c.Bump(), c.rest[0], c.Bump().line);
    FollowsThen(c, c.Bump(), ReadString(c).value.1);
  }

  lemma QuotedFault(c: Cursor) returns (at: Cursor)
    requires c.rest != "" && IsQuote(c.rest[0]) && ReadString(c).Err?
    ensures Follows(c, at) && Blames(at, ReadString(c).error) && !ReadString(c).error.problem.UnterminatedArray?
  {
    BumpFollows(c);
    at := StringFault(c.Bump(), c.rest[0], c.Bump().line);
    if ReadString(c).error.problem == UnterminatedString {
      at := c;
      FollowsSelf(c);
    } else {
      FollowsThen(c, c.Bump(), at);
    }
  }

  // From the start of an element to what stands behind it.
  lemma ItemFollows(c: Cursor) returns (next: Cursor)
    requires c.rest != "" && IsQuote(c.rest[0]) && ReadString(c).Ok?
    ensures next == SkipTrivia(ReadString(c).value.1) && Follows(c, next)
    ensures next.rest != "" ==> next.rest[0] !in " \t\r\n#"
  {
    var behind := ReadString(c).value.1;
    next := SkipTrivia(behind);
    QuotedFollows(c);
    TriviaFollows(behind);
    FollowsThen(c, behind, next);
  }

  lemma {:induction false} ArrayFollows(c: Cursor, openLine: nat)
    requires ArrayItems(c, openLine).Ok?
    ensures Follows(c, ArrayItems(c, openLine).value.1)
    decreases |c.rest|
  {
    var start := SkipTrivia(c);
    var end := ArrayItems(c, openLine).value.1;
    TriviaFollows(c);
    BumpFollows(start);
    if start.rest[0] != ']' {
      var next := ItemFollows(start);
      BumpFollows(next);
      FollowsThen(start, next, next.Bump());
      if next.rest[0] == ',' {
        ArrayFollows(next.Bump(), openLine);
        FollowsThen(start, next.Bump(), end);
      }
    }
    FollowsThen(c, start, end);
  }

  lemma {:induction false} ArrayFault(c: Cursor, openLine: nat) returns (at: Cursor)
    requires ArrayItems(c, openLine).Err?
    ensures var error := ArrayItems(c, openLine).error;
            || error == ConfigError(openLine, UnterminatedArray)
            || (!error.problem.UnterminatedArray? && Follows(c, at) && Blames(at, error))
    decreases |c.rest|
  {
    var start := SkipTrivia(c);
    TriviaFollows(c);
    at := start;
    if start.rest != "" && IsQuote(start.rest[0]) {
      if ReadString(start).Err? {
        at := QuotedFault(start);
        FollowsThen(c, start, at);
      } else {
        var next := ItemFollows(start);
        FollowsThen(c, start, next);
        at := next;
        if next.rest != "" && next.rest[0] == ',' {
          BumpFollows(next);
          FollowsThen(c, next, next.Bump());
          at := ArrayFault(next.Bump(), openLine);
          if Follows(next.Bump(), at) {
            FollowsThen(c, next.Bump(), at);
          }
        }
      }
    }
  }

  // ------------------------------------------------------------------ entries

  lemma WordFault(c: Cursor) returns (at: Cursor)
    requires ReadValue(c).Err? && (c.rest == "" || (!IsQuote(c.rest[0]) && c.rest[0] !in "[{"))
    ensures Follows(c, at) && Blames(at, ReadValue(c).error)
  {
    var word := TrimEnd(WordRun(c).0);
    WordFollows(c);
    if word == "" {
      at := WordRun(c).1;
      WordEnds(c);
    } else {
      at := c;
      FollowsSelf(c);
      WordIsShown(c);
    }
  }

  lemma WordIsShown(c: Cursor)
    requires TrimEnd(WordRun(c).0) != ""
    ensures var word := TrimEnd(WordRun(c).0);
            ShowsText(c, word) && word[0] == c.rest[0] && forall x | x in word :: !EndsWord(x)
  {
    var run := WordRun(c).0;
    WordWritten(c);
    var space := SpaceTrimmed(run);
    Starts(TrimEnd(run), space, run);
    Starts(run, WordRun(c).1.rest, c.rest);
  }

  lemma Starts(start: string, rest: string, whole: string)
    requires whole == start + rest
    ensures start <= whole && (forall x | x in start :: x in whole) && (start != "" ==> start[0] == whole[0])
  {
  }

  lemma {:induction false} WordEnds(c: Cursor)
    ensures WordRun(c).1.rest == "" || EndsWord(WordRun(c).1.rest[0])
    decreases |c.rest|
  {
    if c.rest != "" && !EndsWord(c.rest[0]) {
      WordEnds(c.Bump());
    }
  }

  lemma ValueFollows(c: Cursor)
    requires ReadValue(c).Ok?
    ensures Follows(c, ReadValue(c).value.1)
  {
    if c.rest != "" && IsQuote(c.rest[0]) {
      QuotedFollows(c);
    } else if c.rest != "" && c.rest[0] == '[' {
      BumpFollows(c);
      ArrayFollows(c.Bump(), c.Bump().line);
      FollowsThen(c, c.Bump(), ReadValue(c).value.1);
    } else {
      WordFollows(c);
    }
  }

  lemma ValueFault(c: Cursor) returns (at: Cursor)
    requires ReadValue(c).Err?
    ensures Follows(c, at) && Blames(at, ReadValue(c).error)
  {
    at := c;
    FollowsSelf(c);
    if c.rest != "" && IsQuote(c.rest[0]) {
      at := QuotedFault(c);
    } else if c.rest != "" && c.rest[0] == '[' {
      BumpFollows(c);
      at := ArrayFault(c.Bump(), c.Bump().line);
      if ReadValue(c).error.problem == UnterminatedArray {
        at := c;
      } else {
        FollowsThen(c, c.Bump(), at);
      }
    } else if c.rest == "" || c.rest[0] != '{' {
      at := WordFault(c);
    }
  }

  lemma KeyFault(c: Cursor)
    requires c.rest != "" && c.rest[0] !in "[ \t\r\n#" && ReadKey(c).Err?
    ensures BlamesIn(c, c, ReadKey(c).error)
  {
    var (key, rest) := KeyRun(c);
    KeyWritten(c);
    KeyStaysOnLine(c);
    KeyEnds(c);
    if key == "" {
      assert "" + rest.rest == rest.rest;
    } else {
      assert key + [rest.rest[0]] <= c.rest;
    }
  }

  lemma {:induction false} KeyStaysOnLine(c: Cursor)
    ensures KeyRun(c).1.line == c.line
    decreases |c.rest|
  {
    if c.rest != "" && IsKeyCharacter(c.rest[0]) {
      KeyStaysOnLine(c.Bump());
    }
  }

  lemma {:induction false} KeyEnds(c: Cursor)
    ensures KeyRun(c).1.rest == "" || !IsKeyCharacter(KeyRun(c).1.rest[0])
    decreases |c.rest|
  {
    if c.rest != "" && IsKeyCharacter(c.rest[0]) {
      KeyEnds(c.Bump());
    }
  }

  lemma EndFault(c: Cursor)
    requires EndOfLine(c).Err?
    ensures Follows(c, SkipBlanks(c)) && Blames(SkipBlanks(c), EndOfLine(c).error)
  {
    BlanksFollow(c);
    var blanks := BlanksWritten(c);
  }

  // Up to where the value starts.
  lemma ToValue(c: Cursor) returns (start: Cursor)
    requires ReadKey(c).Ok? && SkipBlanks(ReadKey(c).value.1).Peek() == Some('=')
    ensures start == SkipBlanks(SkipBlanks(ReadKey(c).value.1).Bump()) && Follows(c, start)
  {
    KeyFollows(c);
    start := BehindEquals(KeyRun(c).1);
    FollowsThen(c, KeyRun(c).1, start);
  }

  lemma BehindEquals(left: Cursor) returns (start: Cursor)
    ensures start == SkipBlanks(SkipBlanks(left).Bump()) && Follows(left, start)
  {
    var equals := SkipBlanks(left);
    start := SkipBlanks(equals.Bump());
    BlanksFollow(left);
    BumpFollows(equals);
    BlanksFollow(equals.Bump());
    FollowsThen(left, equals, equals.Bump());
    FollowsThen(left, equals.Bump(), start);
  }

  lemma EntryFault(c: Cursor) returns (at: Cursor)
    requires c.rest != "" && c.rest[0] !in "[ \t\r\n#" && ReadEntry(c).Err?
    ensures Follows(c, at) && BlamesIn(c, at, ReadEntry(c).error)
  {
    at := c;
    FollowsSelf(c);
    if ReadKey(c).Err? {
      KeyFault(c);
    } else if SkipBlanks(ReadKey(c).value.1).Peek() != Some('=') {
      KeyWritten(c);
    } else {
      var start := ToValue(c);
      if ReadValue(start).Err? {
        at := ValueFault(start);
        FollowsThen(c, start, at);
      } else {
        var behind := ReadValue(start).value.1;
        ValueFollows(start);
        EndFault(behind);
        at := SkipBlanks(behind);
        FollowsThen(c, start, behind);
        FollowsThen(c, behind, at);
      }
    }
  }

  // ------------------------------------------------------------------ whole texts

  // What is wrong with the entry that starts here.
  predicate FaultyEntry(start: Cursor, error: ConfigError) {
    && start.rest != "" && start.rest[0] !in " \t\r\n#"
    && if start.rest[0] == '[' then error == ConfigError(start.line, TableHeader)
       else ReadEntry(start).Err? && error == ReadEntry(start).error
  }

  lemma FaultIsIn(start: Cursor, error: ConfigError) returns (at: Cursor)
    requires FaultyEntry(start, error)
    ensures Follows(start, at) && BlamesIn(start, at, error)
  {
    if start.rest[0] == '[' {
      at := start;
      FollowsSelf(start);
    } else {
      at := EntryFault(start);
    }
  }

  // The entries before the faulty one, which starts at `start`.
  lemma {:induction false} LinesBeforeFault(c: Cursor) returns (lines: seq<Line>, tail: Gap, start: Cursor)
    requires Entries(c).Err?
    ensures LegalLines(lines, tail, None) && (forall l | l in lines :: l.closed)
    ensures c.rest == RenderLines(lines, tail, None) + start.rest && Follows(c, start)
    ensures FaultyEntry(start, Entries(c).error)
    decreases |c.rest|
  {
    start := SkipTrivia(c);
    TriviaFollows(c);
    var gap := GapWritten(c);
    if start.rest[0] == '[' || ReadEntry(start).Err? {
      lines, tail := [], gap;
      GapAppends(gap, start.rest);
      assert RenderGap(gap) + "" == RenderGap(gap);
      return;
    }
    var l, next := FirstLine(c);
    lines, tail, start := LinesBeforeFault(next);
    FollowsThen(c, next, start);
    LineComesFirst(l, lines, tail, next.rest, start.rest);
    lines := [l] + lines;
  }

  lemma LineComesFirst(l: Line, lines: seq<Line>, tail: Gap, s: string, rest: string)
    requires LegalLine(l) && l.closed && LegalLines(lines, tail, None)
    requires s == RenderLines(lines, tail, None) + rest
    ensures LegalLines([l] + lines, tail, None)
    ensures LineThen(l, s) == RenderLines([l] + lines, tail, None) + rest
  {
    assert ([l] + lines)[1..] == lines;
    LineAppends(l, s);
    Regroup(RenderLine(l), RenderLines(lines, tail, None), rest);
  }

  lemma NextLineFollows(c: Cursor)
    ensures Follows(c, NextLine(c))
  {
    var end := if c.rest != "" && c.rest[0] == '#' then SkipComment(c) else c;
    CommentFollows(c);
    FollowsSelf(c);
    BumpFollows(end);
    FollowsThen(c, end, end.Bump());
  }

  // The first entry of a text that is refused further on.
  lemma FirstLine(c: Cursor) returns (l: Line, next: Cursor)
    requires Entries(c).Err? && SkipTrivia(c).rest != "" && SkipTrivia(c).rest[0] != '['
    requires ReadEntry(SkipTrivia(c)).Ok?
    ensures LegalLine(l) && l.closed && c.rest == LineThen(l, next.rest) && Follows(c, next)
    ensures |next.rest| < |c.rest| && Entries(next) == Entries(c)
  {
    var start := SkipTrivia(c);
    var end := ReadEntry(start).value.1;
    RestIsRefused(c, start, end);
    var gap := GapWritten(c);
    var entry := EntryWritten(start);
    EntryFollows(start);
    TriviaFollows(c);
    FollowsThen(c, start, end);
    var note, closed;
    note, closed, next := NoteWritten(end);
    NextLineFollows(end);
    FollowsThen(c, end, next);
    EntriesSkipFirst(end, next);
    RefusedIsNotEmpty(next);
    l := entry.(before := gap, note := note, closed := closed);
    LineFromParts(entry, gap, note, closed, end.rest, next.rest, c.rest);
  }

  lemma RestIsRefused(c: Cursor, start: Cursor, end: Cursor)
    requires Entries(c).Err? && start == SkipTrivia(c) && start.rest != "" && start.rest[0] != '['
    requires ReadEntry(start).Ok? && end == ReadEntry(start).value.1
    ensures Entries(end) == Entries(c) && |end.rest| < |c.rest|
  {
  }

  lemma RefusedIsNotEmpty(c: Cursor)
    requires Entries(c).Err?
    ensures c.rest != ""
  {
  }

  lemma EntryFollows(c: Cursor)
    requires ReadEntry(c).Ok?
    ensures Follows(c, ReadEntry(c).value.1)
  {
    var left, equals, value, behind := EntryPlaces(c);
    var start := ToValue(c);
    ValueFollows(start);
    BlanksFollow(behind);
    FollowsThen(c, start, behind);
    FollowsThen(c, behind, ReadEntry(c).value.1);
  }

  lemma StartHasLine(text: string, before: string, start: Cursor)
    requires Follows(Cursor(text, 1), start) && text == before + start.rest
    ensures start.line == 1 + Newlines(before)
  {
    FollowsExactly(Cursor(text, 1), start);
    assert text[..|text| - |start.rest|] == before;
  }

  // What comes before the faulty entry of a refused text is a legal document, and the error is about a place
  // in that entry and carries the line of it: 1 plus the line breaks before it.
  lemma RefusalIsLocated(text: string) returns (lines: seq<Line>, tail: Gap, start: Cursor, at: Cursor)
    requires ParseText(text).Err?
    ensures LegalLines(lines, tail, None) && TrimBoms(text) == RenderLines(lines, tail, None) + start.rest
    ensures start.line == 1 + Newlines(RenderLines(lines, tail, None))
    ensures Follows(start, at) && BlamesIn(start, at, ParseText(text).error)
    ensures |at.rest| <= |TrimBoms(text)| && TrimBoms(text)[|TrimBoms(text)| - |at.rest|..] == at.rest
    ensures at.line == 1 + Newlines(TrimBoms(text)[..|TrimBoms(text)| - |at.rest|])
  {
    lines, tail, start := LinesBeforeFault(Cursor(TrimBoms(text), 1));
    at := FaultIsIn(start, ParseText(text).error);
    StartHasLine(TrimBoms(text), RenderLines(lines, tail, None), start);
    FollowsThen(Cursor(TrimBoms(text), 1), start, at);
    FollowsExactly(Cursor(TrimBoms(text), 1), at);
  }
}
