/** The migration log as a journal: one JSON object a line, appended, and read back line by line.
    A write may be torn by a crash, and other writers may have left anything in the file. */
module Journal {
  import opened Common

  datatype Entry = Entry(version: int, timestamp: string, success: bool, error: Option<string>)

  /** What one stripped line reads as: an entry; malformed JSON or a missing field, which is skipped; or a JSON
      value that is no object, whose field access raises something the reader does not catch. */
  datatype Line = Parsed(entry: Entry) | Malformed | Raising

  /** json.dumps and json.loads, which are not part of this model, as a pair of functions. */
  datatype Codec = Codec(render: Entry -> string, parse: string -> Line)
  {
    /** A rendered entry is one non-blank line that parses back, and no proper prefix of it parses. */
    ghost predicate Faithful() {
      forall e: Entry :: FaithfulOn(e)
    }

    ghost predicate FaithfulOn(e: Entry) {
      && (forall i :: 0 <= i < |render(e)| ==> !IsBreak(render(e)[i]))
      && ReadLine(this, render(e)) == Ok([e])
      && forall k :: 0 <= k < |render(e)| ==> ReadLine(this, render(e)[..k]) == Ok([])
    }
  }

  // ---------------------------------------------------------------- lines

  /** The line boundaries of str.splitlines. */
  predicate IsBreak(c: char) {
    c in {'\n', '\r', '\U{000B}', '\U{000C}', '\U{001C}', '\U{001D}', '\U{001E}', '\U{0085}', '\U{2028}', '\U{2029}'}
  }

  predicate IsSpace(c: char) {
    || IsBreak(c) || c in {' ', '\t', '\U{001F}', '\U{00A0}', '\U{1680}', '\U{202F}', '\U{205F}', '\U{3000}'}
    || '\U{2000}' <= c <= '\U{200A}'
  }

  function LStrip(s: string): string { if s != "" && IsSpace(s[0]) then LStrip(s[1..]) else s }

  function Strip(s: string): string
    decreases |s|
  {
    if s == "" then s
    else if IsSpace(s[|s| - 1]) then Strip(s[..|s| - 1])
    else LStrip(s)
  }

  function FirstBreak(text: string): (i: nat)
    ensures i <= |text|
    ensures i < |text| ==> IsBreak(text[i])
    ensures forall k :: 0 <= k < i ==> !IsBreak(text[k])
  {
    if text == "" || IsBreak(text[0]) then 0 else 1 + FirstBreak(text[1..])
  }

  /** Where the next line starts: "\r\n" is one boundary. */
  function After(text: string, i: nat): (j: nat)
    requires i < |text|
    ensures i < j <= |text|
  {
    if text[i] == '\r' && i + 1 < |text| && text[i + 1] == '\n' then i + 2 else i + 1
  }

  function Lines(text: string): seq<string>
    decreases |text|
  {
    if text == "" then [] else
      var i := FirstBreak(text);
      if i == |text| then [text] else [text[..i]] + Lines(text[After(text, i)..])
  }

  // ---------------------------------------------------------------- reading

  datatype ReadError = UncaughtException

  type Entries = Result<seq<Entry>, ReadError>

  function ReadLine(codec: Codec, line: string): Entries {
    if Strip(line) == "" then Ok([]) else
      match codec.parse(Strip(line))
      case Parsed(e) => Ok([e])
      case Malformed => Ok([])
      case Raising => Err(UncaughtException)
  }

  /** Reading stops with an exception when either half does. */
  function Join(a: Entries, b: Entries): Entries {
    if a.Ok? && b.Ok? then Ok(a.value + b.value) else Err(UncaughtException)
  }

  function ReadLines(codec: Codec, lines: seq<string>): Entries {
    if lines == [] then Ok([]) else Join(ReadLine(codec, lines[0]), ReadLines(codec, lines[1..]))
  }

  /** read_log: a missing file is an empty log. */
  function ReadLog(codec: Codec, file: Option<string>): Entries {
    match file
    case None => Ok([])
    case Some(text) => ReadLines(codec, Lines(text))
  }

  // ---------------------------------------------------------------- appending

  /** The separator in front of an appended entry, when the file does not end in a newline. */
  function Lead(file: Option<string>): string {
    match file
    case None => ""
    case Some(text) => if text != "" && text[|text| - 1] != '\n' then "\n" else ""
  }

  function Contents(file: Option<string>): string { if file == None then "" else file.value }

  /** What a write that got as far as `written` characters of the entry leaves; the newline follows a whole one. */
  function Written(codec: Codec, file: Option<string>, e: Entry, written: nat): string
    requires written <= |codec.render(e)|
  {
    Contents(file) + Lead(file) + codec.render(e)[..written]
  }

  function Append(codec: Codec, file: Option<string>, e: Entry): string {
    Contents(file) + Lead(file) + codec.render(e) + "\n"
  }

  // ---------------------------------------------------------------- reading back

  lemma JoinAssociates(a: Entries, b: Entries, c: Entries)
    ensures Join(Join(a, b), c) == Join(a, Join(b, c))
  {
    if a.Ok? && b.Ok? && c.Ok? { assert a.value + b.value + c.value == a.value + (b.value + c.value); }
  }

  lemma JoinEmpty(a: Entries)
    ensures Join(a, Ok([])) == a && Join(Ok([]), a) == a
  {
    if a.Ok? { assert a.value + [] == a.value && [] + a.value == a.value; } else { assert a.error.UncaughtException?; }
  }

  /** A newline separates: what precedes it and what follows it are read independently, whatever they hold. */
  lemma {:induction false} NewlineSeparates(codec: Codec, a: string, b: string)
    ensures ReadLines(codec, Lines(a + "\n" + b)) == Join(ReadLines(codec, Lines(a)), ReadLines(codec, Lines(b)))
    decreases |a|
  {
    var whole := a + "\n" + b;
    var i := FirstBreak(a);
    if i == |a| {
      assert FirstBreak(whole) == |a| by { FirstBreakIs(whole, |a|); }
      assert whole[..|a|] == a && whole[|a| + 1..] == b;
      assert Lines(whole) == [a] + Lines(b);
      assert Lines(whole)[1..] == Lines(b);
      if a == "" {
        assert ReadLine(codec, a) == Ok([]);
      } else {
        assert Lines(a) == [a];
        assert ReadLines(codec, Lines(a)) == Join(ReadLine(codec, a), ReadLines(codec, []));
        JoinEmpty(ReadLine(codec, a));
      }
    } else {
      assert FirstBreak(whole) == i by { FirstBreakIs(whole, i); }
      var line := a[..i];
      assert whole[..i] == line;
      if a[i] == '\r' && i + 1 == |a| {
        assert After(whole, i) == i + 2 && whole[i + 2..] == b;
        assert Lines(whole) == [line] + Lines(b);
        assert Lines(a) == [line] + Lines(a[i + 1..]);
        assert Lines(a)[1..] == Lines("");
        assert Lines(whole)[1..] == Lines(b);
        JoinEmpty(ReadLine(codec, line));
      } else {
        var rest := a[After(a, i)..];
        assert After(whole, i) == After(a, i);
        assert whole[After(a, i)..] == rest + "\n" + b;
        assert Lines(whole) == [line] + Lines(rest + "\n" + b);
        assert Lines(a) == [line] + Lines(rest);
        assert Lines(whole)[1..] == Lines(rest + "\n" + b);
        assert Lines(a)[1..] == Lines(rest);
        NewlineSeparates(codec, rest, b);
        JoinAssociates(ReadLine(codec, line), ReadLines(codec, Lines(rest)), ReadLines(codec, Lines(b)));
      }
    }
  }

  lemma {:induction false} FirstBreakIs(text: string, i: nat)
    requires i < |text| && IsBreak(text[i]) && forall k :: 0 <= k < i ==> !IsBreak(text[k])
    ensures FirstBreak(text) == i
  {
    assert FirstBreak(text) <= i;
  }

  /** A final newline changes nothing. */
  lemma FinalNewline(codec: Codec, a: string)
    ensures ReadLines(codec, Lines(a + "\n")) == ReadLines(codec, Lines(a))
  {
    NewlineSeparates(codec, a, "");
    assert a + "\n" + "" == a + "\n";
    JoinEmpty(ReadLines(codec, Lines(a)));
  }

  /** A piece without boundaries, written after the separator, is read as one more line. */
  lemma PieceIsALine(codec: Codec, file: Option<string>, piece: string)
    requires forall i :: 0 <= i < |piece| ==> !IsBreak(piece[i])
    ensures ReadLog(codec, Some(Contents(file) + Lead(file) + piece)) ==
      Join(ReadLog(codec, file), ReadLine(codec, piece))
  {
    hide Lines, ReadLines, ReadLine, IsBreak;
    var text := Contents(file);
    OneLine(codec, piece);
    ReadsContents(codec, file);
    if text == "" {
      assert text + Lead(file) + piece == piece;
      NothingToRead(codec);
      JoinEmpty(ReadLine(codec, piece));
    } else if text[|text| - 1] != '\n' {
      NewlineSeparates(codec, text, piece);
    } else {
      AfterNewline(codec, text, piece);
      assert text + Lead(file) + piece == text + piece;
    }
  }

  lemma {:induction false} NothingToRead(codec: Codec)
    ensures ReadLines(codec, Lines("")) == Ok([])
  {
  }

  lemma {:induction false} ReadsContents(codec: Codec, file: Option<string>)
    ensures ReadLog(codec, file) == ReadLines(codec, Lines(Contents(file)))
  {
    hide Lines, ReadLines;
    NothingToRead(codec);
  }

  lemma {:induction false} OneLine(codec: Codec, piece: string)
    requires forall i :: 0 <= i < |piece| ==> !IsBreak(piece[i])
    ensures ReadLines(codec, Lines(piece)) == ReadLine(codec, piece)
  {
    hide IsBreak;
    if piece != "" {
      assert FirstBreak(piece) == |piece|;
      assert Lines(piece) == [piece];
      JoinEmpty(ReadLine(codec, piece));
      assert ReadLines(codec, [piece]) == Join(ReadLine(codec, piece), ReadLines(codec, []));
    }
  }

  lemma {:induction false} AfterNewline(codec: Codec, text: string, piece: string)
    requires text != "" && text[|text| - 1] == '\n'
    ensures ReadLines(codec, Lines(text + piece)) == Join(ReadLines(codec, Lines(text)), ReadLines(codec, Lines(piece)))
  {
    hide Lines, ReadLines;
    var init := text[..|text| - 1];
    assert text == init + "\n";
    assert text + piece == init + "\n" + piece;
    NewlineSeparates(codec, init, piece);
    FinalNewline(codec, init);
  }

  /** Whatever the file holds, a torn tail included, an append adds exactly its own entry and loses none; a file the
      reader chokes on stays unreadable. */
  lemma {:induction false} AppendReadsBack(codec: Codec, file: Option<string>, e: Entry)
    requires codec.Faithful()
    ensures ReadLog(codec, Some(Append(codec, file, e))) == Join(ReadLog(codec, file), Ok([e]))
  {
    assert codec.FaithfulOn(e);
    PieceIsALine(codec, file, codec.render(e));
    FinalNewline(codec, Contents(file) + Lead(file) + codec.render(e));
  }

  /** A write torn at any point adds the entry if all of it was written and nothing otherwise. */
  lemma {:induction false} TornWriteReadsBack(codec: Codec, file: Option<string>, e: Entry, written: nat)
    requires codec.Faithful() && written <= |codec.render(e)|
    ensures ReadLog(codec, Some(Written(codec, file, e, written)))
         == Join(ReadLog(codec, file), Ok(if written == |codec.render(e)| then [e] else []))
  {
    assert codec.FaithfulOn(e);
    var piece := codec.render(e)[..written];
    PieceIsALine(codec, file, piece);
    if written == |codec.render(e)| { assert piece == codec.render(e); }
  }

  // ---------------------------------------------------------------- any number of writes

  /** How much of an appended entry reaches the file. */
  datatype Write = Whole | NotStarted | Torn(written: nat)

  function Kept(codec: Codec, e: Entry, write: Write): seq<Entry> {
    match write
    case Whole => [e]
    case NotStarted => []
    case Torn(written) => if written >= |codec.render(e)| then [e] else []
  }

  function Logged(codec: Codec, file: Option<string>, e: Entry, write: Write): Option<string> {
    match write
    case Whole => Some(Append(codec, file, e))
    case NotStarted => file
    case Torn(written) =>
      var length := |codec.render(e)|;
      Some(Written(codec, file, e, if written <= length then written else length))
  }

  datatype Attempt = Attempt(entry: Entry, write: Write)

  function AllLogged(codec: Codec, file: Option<string>, attempts: seq<Attempt>): Option<string>
    decreases |attempts|
  {
    if attempts == [] then file
    else AllLogged(codec, Logged(codec, file, attempts[0].entry, attempts[0].write), attempts[1..])
  }

  function AllKept(codec: Codec, attempts: seq<Attempt>): seq<Entry> {
    if attempts == [] then [] else Kept(codec, attempts[0].entry, attempts[0].write) + AllKept(codec, attempts[1..])
  }

  /** Any sequence of appends, torn ones among them, adds the entries written whole, in order, and nothing else. */
  lemma {:induction false} WritesReadBack(codec: Codec, file: Option<string>, attempts: seq<Attempt>)
    requires codec.Faithful()
    ensures ReadLog(codec, AllLogged(codec, file, attempts)) == Join(ReadLog(codec, file), Ok(AllKept(codec, attempts)))
    decreases |attempts|
  {
    if attempts == [] {
      JoinEmpty(ReadLog(codec, file));
    } else {
      var e, write := attempts[0].entry, attempts[0].write;
      var file' := Logged(codec, file, e, write);
      OneReadsBack(codec, file, e, write);
      WritesReadBack(codec, file', attempts[1..]);
      JoinAssociates(ReadLog(codec, file), Ok(Kept(codec, e, write)), Ok(AllKept(codec, attempts[1..])));
    }
  }

  lemma {:induction false} OneReadsBack(codec: Codec, file: Option<string>, e: Entry, write: Write)
    requires codec.Faithful()
    ensures ReadLog(codec, Logged(codec, file, e, write)) == Join(ReadLog(codec, file), Ok(Kept(codec, e, write)))
  {
    match write
    case Whole => AppendReadsBack(codec, file, e);
    case NotStarted => JoinEmpty(ReadLog(codec, file));
    case Torn(written) =>
      TornWriteReadsBack(codec, file, e, if written <= |codec.render(e)| then written else |codec.render(e)|);
  }

  // ---------------------------------------------------------------- the log that cannot be read

  /** A line the reader chokes on: JSON, but no object. */
  predicate Chokes(codec: Codec, line: string) { Strip(line) != "" && codec.parse(Strip(line)).Raising? }

  lemma {:induction false} LinesFailExactly(codec: Codec, lines: seq<string>)
    ensures ReadLines(codec, lines).Err? <==> exists i :: 0 <= i < |lines| && Chokes(codec, lines[i])
  {
    if lines != [] {
      LinesFailExactly(codec, lines[1..]);
      assert forall i :: 0 < i < |lines| ==> lines[i] == lines[1..][i - 1];
    }
  }

  /** Reading raises exactly when one of the file's lines is JSON but no object, and then no sequence of later writes
      makes the file readable again; a file that reads stays readable. */
  lemma {:induction false} UnreadableExactly(codec: Codec, text: string, attempts: seq<Attempt>)
    requires codec.Faithful()
    ensures ReadLog(codec, AllLogged(codec, Some(text), attempts)).Err? <==>
              exists i :: 0 <= i < |Lines(text)| && Chokes(codec, Lines(text)[i])
  {
    hide Lines, Chokes, ReadLines, AllLogged;
    WritesReadBack(codec, Some(text), attempts);
    LinesFailExactly(codec, Lines(text));
    assert ReadLog(codec, Some(text)) == ReadLines(codec, Lines(text));
  }

  /** One line with an empty JSON array is enough. */
  lemma {:induction false} ArrayIsUnreadable(codec: Codec, attempts: seq<Attempt>)
    requires codec.Faithful() && codec.parse("[]").Raising?
    ensures ReadLog(codec, AllLogged(codec, Some("[]\n"), attempts)).Err?
  {
    var text := "[]\n";
    assert FirstBreak(text) == 2 by { FirstBreakIs(text, 2); }
    assert text[..2] == "[]" && Lines(text)[0] == "[]";
    assert Chokes(codec, Lines(text)[0]);
    UnreadableExactly(codec, text, attempts);
  }

  // ---------------------------------------------------------------- blanks

  /** Every character a line is stripped of. */
  const BLANKS :=
    "\t\n\U{000B}\U{000C}\r\U{001C}\U{001D}\U{001E}\U{001F} \U{0085}\U{00A0}\U{1680}\U{2000}\U{2001}\U{2002}"
    + "\U{2003}\U{2004}\U{2005}\U{2006}\U{2007}\U{2008}\U{2009}\U{200A}\U{2028}\U{2029}\U{202F}\U{205F}\U{3000}"

  lemma {:induction false} SpaceExactly(c: char)
    ensures IsSpace(c) <==> c in BLANKS
  {
  }

  lemma {:induction false} LeadingStripped(s: string) returns (lead: string)
    ensures s == lead + LStrip(s) && (forall c :: c in lead ==> IsSpace(c))
    ensures LStrip(s) != "" ==> !IsSpace(LStrip(s)[0])
  {
    hide IsSpace;
    lead := "";
    if s != "" && IsSpace(s[0]) {
      lead := LeadingStripped(s[1..]);
      lead := [s[0]] + lead;
    }
  }

  /** Stripping takes blanks from both ends, as many as there are, and nothing else. */
  lemma {:induction false} StripExactly(s: string) returns (lead: string, trail: string)
    ensures s == lead + Strip(s) + trail && (forall c :: c in lead + trail ==> IsSpace(c))
    ensures var r := Strip(s); r != "" ==> !IsSpace(r[0]) && !IsSpace(r[|r| - 1])
    decreases |s|
  {
    hide IsSpace;
    lead, trail := "", "";
    if s != "" && IsSpace(s[|s| - 1]) {
      lead, trail := StripExactly(s[..|s| - 1]);
      trail := trail + [s[|s| - 1]];
      assert s == s[..|s| - 1] + [s[|s| - 1]];
    } else if s != "" {
      lead := LeadingStripped(s);
      assert LStrip(s) != "" ==> LStrip(s)[|LStrip(s)| - 1] == s[|s| - 1];
    }
  }
}
