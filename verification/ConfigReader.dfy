// The hand-written reader of cwtools.toml (config.rs): a subset of TOML whose entries and array
// elements carry the line they sit on.
module ConfigReader {
  import opened Text
  import opened Wrappers

  datatype Problem =
    | UnexpectedAfterValue(c: char)
    | ExpectedKey(c: char)
    | DottedKey(key: string)
    | InvalidKeyCharacter(key: string, c: char)
    | InlineTable
    | ExpectedValue
    | NotAValue(word: string)
    | UnterminatedString
    | UnknownEscape(c: char)
    | UnterminatedArray
    | NotAQuotedString(c: char)
    | ExpectedCommaOrBracket(c: char)
    | TableHeader
    | ExpectedEquals(key: string)

  datatype ConfigError = ConfigError(line: nat, problem: Problem)

  datatype Listed = Listed(value: string, line: nat)

  datatype Value = Str(text: string) | Bool(value: bool) | List(items: seq<Listed>)

  datatype Entry = Entry(key: string, line: nat, value: Value)

  // What is left to read and the line reading has reached.
  datatype Cursor = Cursor(rest: string, line: nat) {
    function Peek(): Option<char> { if rest == "" then None else Some(rest[0]) }

    function Bump(): Cursor {
      if rest == "" then this else Cursor(rest[1..], if rest[0] == '\n' then line + 1 else line)
    }

    function Err<T>(problem: Problem): Result<T, ConfigError> { Result.Err(ConfigError(line, problem)) }
  }

  const BOM: char := '\U{FEFF}'

  predicate IsBlank(c: char) { c == ' ' || c == '\t' || c == '\r' }

  predicate IsKeyCharacter(c: char) {
    'a' <= c <= 'z' || 'A' <= c <= 'Z' || '0' <= c <= '9' || c == '_' || c == '-'
  }

  function TrimBoms(s: string): string {
    if s != "" && s[0] == BOM then TrimBoms(s[1..]) else s
  }

  // ------------------------------------------------------------------ what each step reads

  function SkipBlanks(c: Cursor): (r: Cursor)
    ensures |r.rest| <= |c.rest|
    decreases |c.rest|
  {
    if c.rest != "" && IsBlank(c.rest[0]) then SkipBlanks(c.Bump()) else c
  }

  function SkipComment(c: Cursor): (r: Cursor)
    ensures |r.rest| <= |c.rest|
    ensures c.rest != "" && c.rest[0] == '#' ==> |r.rest| < |c.rest|
    decreases |c.rest|
  {
    if c.rest != "" && c.rest[0] != '\n' then SkipComment(c.Bump()) else c
  }

  function SkipTrivia(c: Cursor): (r: Cursor)
    ensures |r.rest| <= |c.rest|
    decreases |c.rest|
  {
    if c.rest == "" then c
    else if IsBlank(c.rest[0]) || c.rest[0] == '\n' then SkipTrivia(c.Bump())
    else if c.rest[0] == '#' then SkipTrivia(SkipComment(c))
    else c
  }

  function EndOfLine(c: Cursor): (r: Result<Cursor, ConfigError>)
    ensures r.Ok? ==> |r.value.rest| <= |c.rest|
  {
    var c := SkipBlanks(c);
    match c.Peek()
    case None => Ok(c)
    case Some(x) => if x == '\n' || x == '#' then Ok(c) else c.Err(UnexpectedAfterValue(x))
  }

  function KeyRun(c: Cursor): (r: (string, Cursor))
    ensures |r.0| + |r.1.rest| == |c.rest|
    decreases |c.rest|
  {
    if c.rest != "" && IsKeyCharacter(c.rest[0]) then
      var (key, rest) := KeyRun(c.Bump());
      ([c.rest[0]] + key, rest)
    else ("", c)
  }

  function ReadKey(c: Cursor): (r: Result<(string, Cursor), ConfigError>)
    ensures r.Ok? ==> |r.value.1.rest| < |c.rest|
  {
    var (key, rest) := KeyRun(c);
    if key == "" then rest.Err(ExpectedKey(if rest.Peek().Some? then rest.Peek().value else ' '))
    else
      match rest.Peek()
      case None => Ok((key, rest))
      case Some(x) =>
        if x == '.' then rest.Err(DottedKey(key))
        else if !(x == '=' || IsBlank(x) || x == '\n' || x == '#') then rest.Err(InvalidKeyCharacter(key, x))
        else Ok((key, rest))
  }

  predicate EndsWord(c: char) { c == '\n' || c == '#' || c == ',' || c == ']' }

  function WordRun(c: Cursor): (r: (string, Cursor))
    ensures |r.1.rest| <= |c.rest|
    decreases |c.rest|
  {
    if c.rest != "" && !EndsWord(c.rest[0]) then
      var (word, rest) := WordRun(c.Bump());
      ([c.rest[0]] + word, rest)
    else ("", c)
  }

  function Unescaped(c: char): Option<char> {
    match c
    case '"' => Some('"')
    case '\\' => Some('\\')
    case 'n' => Some('\n')
    case 'r' => Some('\r')
    case 't' => Some('\t')
    case _ => None
  }

  function Prepend<T, R>(items: seq<T>, r: Result<(seq<T>, R), ConfigError>): Result<(seq<T>, R), ConfigError> {
    match r
    case Ok((rest, end)) => Ok((items + rest, end))
    case Err(error) => Err(error)
  }

  // The inside of a string, up to and including its closing quote.
  function StringBody(c: Cursor, quote: char, openLine: nat): (r: Result<(string, Cursor), ConfigError>)
    ensures r.Ok? ==> |r.value.1.rest| < |c.rest|
    decreases |c.rest|
  {
    if c.rest == "" || c.rest[0] == '\n' then Err(ConfigError(openLine, UnterminatedString))
    else
      var x := c.rest[0];
      var next := c.Bump();
      if x == quote then Ok(("", next))
      else if x == '\\' && quote == '"' then
        if next.rest == "" then Err(ConfigError(openLine, UnterminatedString))
        else
          var escaped := Unescaped(next.rest[0]);
          if escaped.None? then next.Bump().Err(UnknownEscape(next.rest[0]))
          else Prepend([escaped.value], StringBody(next.Bump(), quote, openLine))
      else Prepend([x], StringBody(next, quote, openLine))
  }

  predicate IsQuote(c: char) { c == '"' || c == '\'' }

  function ReadString(c: Cursor): (r: Result<(string, Cursor), ConfigError>)
    requires c.rest != "" && IsQuote(c.rest[0])
    ensures r.Ok? ==> |r.value.1.rest| < |c.rest|
  {
    StringBody(c.Bump(), c.rest[0], c.Bump().line)
  }

  // The inside of an array, up to and including its closing bracket.
  function ArrayItems(c: Cursor, openLine: nat): (r: Result<(seq<Listed>, Cursor), ConfigError>)
    ensures r.Ok? ==> |r.value.1.rest| < |c.rest|
    decreases |c.rest|
  {
    var c := SkipTrivia(c);
    match c.Peek()
    case None => Err(ConfigError(openLine, UnterminatedArray))
    case Some(x) =>
      if x == ']' then Ok(([], c.Bump()))
      else if !IsQuote(x) then c.Err(NotAQuotedString(x))
      else
        match ReadString(c)
        case Err(error) => Err(error)
        case Ok((text, after)) =>
          var item := [Listed(text, c.line)];
          var after := SkipTrivia(after);
          match after.Peek()
          case None => Err(ConfigError(openLine, UnterminatedArray))
          case Some(y) =>
            if y == ',' then Prepend(item, ArrayItems(after.Bump(), openLine))
            else if y == ']' then Ok((item, after.Bump()))
            else after.Err(ExpectedCommaOrBracket(y))
  }

  function ReadValue(c: Cursor): (r: Result<(Value, Cursor), ConfigError>)
    ensures r.Ok? ==> |r.value.1.rest| <= |c.rest|
  {
    if c.rest != "" && IsQuote(c.rest[0]) then
      match ReadString(c)
      case Ok((text, rest)) => Ok((Str(text), rest))
      case Err(error) => Err(error)
    else if c.rest != "" && c.rest[0] == '[' then
      match ArrayItems(c.Bump(), c.Bump().line)
      case Ok((items, rest)) => Ok((List(items), rest))
      case Err(error) => Err(error)
    else if c.rest != "" && c.rest[0] == '{' then c.Err(InlineTable)
    else
      var (run, rest) := WordRun(c);
      match TrimEnd(run)
      case "true" => Ok((Bool(true), rest))
      case "false" => Ok((Bool(false), rest))
      case "" => rest.Err(ExpectedValue)
      case word => rest.Err(NotAValue(word))
  }

  function ReadEntry(c: Cursor): (r: Result<(Entry, Cursor), ConfigError>)
    ensures r.Ok? ==> |r.value.1.rest| < |c.rest|
  {
    match ReadKey(c)
    case Err(error) => Err(error)
    case Ok((key, rest)) =>
      var rest := SkipBlanks(rest);
      if rest.Peek() != Some('=') then c.Err(ExpectedEquals(key))
      else
        match ReadValue(SkipBlanks(rest.Bump()))
        case Err(error) => Err(error)
        case Ok((value, rest)) =>
          match EndOfLine(rest)
          case Err(error) => Err(error)
          case Ok(rest) =>
            Ok((Entry(key, c.line, value), rest))
  }

  function Entries(c: Cursor): Result<seq<Entry>, ConfigError>
    decreases |c.rest|
  {
    var c := SkipTrivia(c);
    match c.Peek()
    case None => Ok([])
    case Some(x) =>
      if x == '[' then c.Err(TableHeader)
      else
        match ReadEntry(c)
        case Err(error) => Err(error)
        case Ok((entry, rest)) =>
          match Entries(rest)
          case Err(error) => Err(error)
          case Ok(entries) => Ok([entry] + entries)
  }

  function ParseText(text: string): Result<seq<Entry>, ConfigError> {
    Entries(Cursor(TrimBoms(text), 1))
  }

  // ------------------------------------------------------------------ the reader itself

  class Reader {
    var rest: string
    var line: nat

    ghost function Cur(): Cursor
      reads this
    {
      Cursor(rest, line)
    }

    constructor (text: string)
      ensures Cur() == Cursor(TrimBoms(text), 1)
    {
      rest := TrimBoms(text);
      line := 1;
    }

    function Peek(): (c: Option<char>)
      reads this
      ensures c == Cur().Peek()
    {
      if rest == "" then None else Some(rest[0])
    }

    method Bump() returns (c: Option<char>)
      modifies this
      ensures c == old(Cur()).Peek() && Cur() == old(Cur()).Bump()
    {
      c := Peek();
      if c.Some? {
        rest := rest[1..];
        if c.value == '\n' {
          line := line + 1;
        }
      }
    }

    method SkipBlankChars()
      modifies this
      ensures Cur() == SkipBlanks(old(Cur()))
    {
      while rest != "" && IsBlank(rest[0])
        invariant SkipBlanks(Cur()) == SkipBlanks(old(Cur()))
        decreases |rest|
      {
        var c := Bump();
      }
    }

    method SkipCommentAndBlanks()
      modifies this
      ensures Cur() == SkipTrivia(old(Cur()))
    {
      while rest != "" && (IsBlank(rest[0]) || rest[0] == '\n' || rest[0] == '#')
        invariant SkipTrivia(Cur()) == SkipTrivia(old(Cur()))
        decreases |rest|
      {
        if rest[0] == '#' {
          SkipToLineEnd();
        } else {
          var c := Bump();
        }
      }
    }

    method SkipToLineEnd()
      modifies this
      ensures Cur() == SkipComment(old(Cur()))
    {
      while rest != "" && rest[0] != '\n'
        invariant SkipComment(Cur()) == SkipComment(old(Cur()))
        decreases |rest|
      {
        var c := Bump();
      }
    }

    method CheckEndOfLine() returns (r: Result<(), ConfigError>)
      modifies this
      ensures r.Ok? <==> EndOfLine(old(Cur())).Ok?
      ensures r.Ok? ==> Cur() == EndOfLine(old(Cur())).value
      ensures r.Err? ==> r.error == EndOfLine(old(Cur())).error
    {
      SkipBlankChars();
      match Peek() {
        case None => return Ok(());
        case Some(c) =>
          if c == '\n' || c == '#' {
            return Ok(());
          }
          return Err(ConfigError(line, UnexpectedAfterValue(c)));
      }
    }

    method Key() returns (r: Result<string, ConfigError>)
      modifies this
      ensures r.Ok? <==> ReadKey(old(Cur())).Ok?
      ensures r.Ok? ==> (r.value, Cur()) == ReadKey(old(Cur())).value
      ensures r.Err? ==> r.error == ReadKey(old(Cur())).error
    {
      var key := KeyCharacters();
      if key == "" {
        var found := Peek();
        return Err(ConfigError(line, ExpectedKey(if found.Some? then found.value else ' ')));
      }
      match Peek() {
        case None => return Ok(key);
        case Some(c) =>
          if c == '.' {
            return Err(ConfigError(line, DottedKey(key)));
          }
          if !(c == '=' || c == ' ' || c == '\t' || c == '\r' || c == '\n' || c == '#') {
            return Err(ConfigError(line, InvalidKeyCharacter(key, c)));
          }
          return Ok(key);
      }
    }

    method KeyCharacters() returns (key: string)
      modifies this
      ensures (key, Cur()) == KeyRun(old(Cur()))
    {
      key := "";
      assert "" + KeyRun(Cur()).0 == KeyRun(Cur()).0;
      while rest != "" && IsKeyCharacter(rest[0])
        invariant KeyRun(old(Cur())) == (key + KeyRun(Cur()).0, KeyRun(Cur()).1)
        decreases |rest|
      {
        assert key + ([rest[0]] + KeyRun(Cur().Bump()).0) == (key + [rest[0]]) + KeyRun(Cur().Bump()).0;
        key := key + [rest[0]];
        var c := Bump();
      }
      assert KeyRun(Cur()) == ("", Cur()) && key + "" == key;
    }

    method Word() returns (word: string)
      modifies this
      ensures word == TrimEnd(WordRun(old(Cur())).0) && Cur() == WordRun(old(Cur())).1
    {
      var run := "";
      assert "" + WordRun(Cur()).0 == WordRun(Cur()).0;
      while rest != "" && !EndsWord(rest[0])
        invariant WordRun(old(Cur())) == (run + WordRun(Cur()).0, WordRun(Cur()).1)
        decreases |rest|
      {
        assert run + ([rest[0]] + WordRun(Cur().Bump()).0) == (run + [rest[0]]) + WordRun(Cur().Bump()).0;
        run := run + [rest[0]];
        var c := Bump();
      }
      assert WordRun(Cur()) == ("", Cur()) && run + "" == run;
      word := TrimEnd(run);
    }

    method QuotedString() returns (r: Result<string, ConfigError>)
      requires rest != "" && IsQuote(rest[0])
      modifies this
      ensures r.Ok? <==> ReadString(old(Cur())).Ok?
      ensures r.Ok? ==> (r.value, Cur()) == ReadString(old(Cur())).value
      ensures r.Err? ==> r.error == ReadString(old(Cur())).error
    {
      ghost var whole := ReadString(Cur());
      var quote := rest[0];
      var opening := Bump();
      var openLine := line;
      var out := "";
      PrependNothing(StringBody(Cur(), quote, openLine));
      while true
        invariant whole == Prepend(out, StringBody(Cur(), quote, openLine))
        decreases |rest|
      {
        ghost var before := Cur();
        var c := Bump();
        if c == None || c == Some('\n') {
          return Err(ConfigError(openLine, UnterminatedString));
        }
        if c == Some(quote) {
          assert out + "" == out;
          return Ok(out);
        }
        var x := c.value;
        if x == '\\' && quote == '"' {
          var escaped := Bump();
          if escaped == None {
            return Err(ConfigError(openLine, UnterminatedString));
          }
          var meant := Unescaped(escaped.value);
          if meant == None {
            return Err(ConfigError(line, UnknownEscape(escaped.value)));
          }
          x := meant.value;
        }
        PrependTwice(out, [x], StringBody(Cur(), quote, openLine));
        out := out + [x];
      }
    }

    method Array() returns (r: Result<seq<Listed>, ConfigError>)
      requires rest != "" && rest[0] == '['
      modifies this
      ensures var whole := ArrayItems(old(Cur()).Bump(), old(Cur()).Bump().line);
              && (r.Ok? <==> whole.Ok?)
              && (r.Ok? ==> (r.value, Cur()) == whole.value)
              && (r.Err? ==> r.error == whole.error)
    {
      var bracket := Bump();
      var openLine := line;
      ghost var whole := ArrayItems(Cur(), openLine);
      var out: seq<Listed> := [];
      PrependNothing(whole);
      while true
        invariant whole == Prepend(out, ArrayItems(Cur(), openLine))
        decreases |rest|
      {
        SkipCommentAndBlanks();
        var c := Peek();
        if c == None {
          return Err(ConfigError(openLine, UnterminatedArray));
        }
        if c == Some(']') {
          c := Bump();
          assert out + [] == out;
          return Ok(out);
        }
        if !IsQuote(c.value) {
          return Err(ConfigError(line, NotAQuotedString(c.value)));
        }
        var itemLine := line;
        var text := QuotedString();
        if text.Err? {
          return Err(text.error);
        }
        var item := Listed(text.value, itemLine);
        SkipCommentAndBlanks();
        c := Peek();
        if c == None {
          return Err(ConfigError(openLine, UnterminatedArray));
        }
        if c == Some(']') {
          c := Bump();
          return Ok(out + [item]);
        }
        if c != Some(',') {
          return Err(ConfigError(line, ExpectedCommaOrBracket(c.value)));
        }
        c := Bump();
        PrependTwice(out, [item], ArrayItems(Cur(), openLine));
        out := out + [item];
      }
    }

    method ValueHere() returns (r: Result<Value, ConfigError>)
      modifies this
      ensures r.Ok? <==> ReadValue(old(Cur())).Ok?
      ensures r.Ok? ==> (r.value, Cur()) == ReadValue(old(Cur())).value
      ensures r.Err? ==> r.error == ReadValue(old(Cur())).error
    {
      if rest != "" && IsQuote(rest[0]) {
        var text := QuotedString();
        match text {
          case Ok(t) => return Ok(Str(t));
          case Err(error) => return Err(error);
        }
      }
      if rest != "" && rest[0] == '[' {
        var items := Array();
        match items {
          case Ok(listed) => return Ok(List(listed));
          case Err(error) => return Err(error);
        }
      }
      if rest != "" && rest[0] == '{' {
        return Err(ConfigError(line, InlineTable));
      }
      var word := Word();
      if word == "true" {
        return Ok(Bool(true));
      } else if word == "false" {
        return Ok(Bool(false));
      } else if word == "" {
        return Err(ConfigError(line, ExpectedValue));
      }
      return Err(ConfigError(line, NotAValue(word)));
    }

    method EntryHere() returns (r: Result<Entry, ConfigError>)
      modifies this
      ensures r.Ok? <==> ReadEntry(old(Cur())).Ok?
      ensures r.Ok? ==> (r.value, Cur()) == ReadEntry(old(Cur())).value
      ensures r.Err? ==> r.error == ReadEntry(old(Cur())).error
    {
      var entryLine := line;
      var key := Key();
      if key.Err? {
        return Err(key.error);
      }
      SkipBlankChars();
      if Peek() != Some('=') {
        return Err(ConfigError(entryLine, ExpectedEquals(key.value)));
      }
      var equals := Bump();
      SkipBlankChars();
      var value := ValueHere();
      if value.Err? {
        return Err(value.error);
      }
      var ended := CheckEndOfLine();
      if ended.Err? {
        return Err(ended.error);
      }
      return Ok(Entry(key.value, entryLine, value.value));
    }
  }

  lemma PrependNothing<T, R>(r: Result<(seq<T>, R), ConfigError>)
    ensures Prepend([], r) == r
  {
    if r.Ok? {
      assert [] + r.value.0 == r.value.0;
    }
  }

  lemma PrependTwice<T, R>(first: seq<T>, second: seq<T>, r: Result<(seq<T>, R), ConfigError>)
    ensures Prepend(first, Prepend(second, r)) == Prepend(first + second, r)
  {
    if r.Ok? {
      assert first + (second + r.value.0) == (first + second) + r.value.0;
    }
  }

  function Onto(entries: seq<Entry>, r: Result<seq<Entry>, ConfigError>): Result<seq<Entry>, ConfigError> {
    if r.Ok? then Ok(entries + r.value) else r
  }

  // `parse`: the entries of a whole text, or the first thing wrong with it.
  method Parse(text: string) returns (r: Result<seq<Entry>, ConfigError>)
    ensures r == ParseText(text)
  {
    var reader := new Reader(text);
    var entries: seq<Entry> := [];
    ghost var whole := Entries(reader.Cur());
    assert whole.Ok? ==> [] + whole.value == whole.value;
    while true
      invariant fresh(reader) && whole == Onto(entries, Entries(reader.Cur()))
      decreases |reader.rest|
    {
      reader.SkipCommentAndBlanks();
      var c := reader.Peek();
      if c == None {
        assert entries + [] == entries;
        return Ok(entries);
      }
      if c == Some('[') {
        return Err(ConfigError(reader.line, TableHeader));
      }
      var entry := reader.EntryHere();
      if entry.Err? {
        return Err(entry.error);
      }
      ghost var rest := Entries(reader.Cur());
      assert rest.Ok? ==> entries + ([entry.value] + rest.value) == (entries + [entry.value]) + rest.value;
      entries := entries + [entry.value];
    }
  }
}
