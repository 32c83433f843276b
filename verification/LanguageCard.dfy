/** The generated section of the dataset card.

    Installing a section replaces an earlier one, or inserts it before the Limitations
    heading or at the end.  For every accepted card with uniform line endings, installing
    one section and then another is installing the other alone.
 */
module LanguageCard {
  import opened Wrappers
  import opened Substrings

  const MARKER := "<!-- GENERATED:LANGUAGE_V1:"
  const SECTION_START := MARKER + "START -->"
  const SECTION_END := MARKER + "END -->"
  const SECTION_HEADING := "## Language annotations " + "(`language-v1`)"
  const LIMITATIONS := "## Limitations"

  /** The marks that the section is known by, and the heading that it goes before. */
  datatype Marks = Marks(start: string, end: string, heading: string, limitations: string)

  const CARD_MARKS := Marks(SECTION_START, SECTION_END, SECTION_HEADING, LIMITATIONS)

  type Newline = text: string | text == "\n" || text == "\r\n" witness "\n"

  datatype Error = MalformedMarkers | UnmarkedSection | MalformedSection | IncompleteLines | MissingHeading

  predicate IsNewline(c: char)
  {
    c == '\n' || c == '\r'
  }

  /* ------------------------------------------------------------ line by line */

  /** `rstrip("\r\n")` */
  function StripNewlines(text: string): string
  {
    if text != "" && IsNewline(text[|text| - 1]) then StripNewlines(text[..|text| - 1]) else text
  }

  /** A line ending or the end of the text comes next. */
  predicate AtLineEnd(text: string)
  {
    text == "" || text[0] == '\n' || (|text| >= 2 && text[0] == '\r' && text[1] == '\n')
  }

  predicate BlankToLineEnd(text: string)
  {
    AtLineEnd(text) || ((text[0] == ' ' || text[0] == '\t') && BlankToLineEnd(text[1..]))
  }

  /** The text starts with the Limitations heading on a line of its own. */
  predicate IsLimitations(heading: string, text: string)
  {
    StartsWith(text, heading) && BlankToLineEnd(text[|heading|..])
  }

  /** Where the second line starts, or the end of the text. */
  function NextLine(text: string): (next: nat)
    ensures next <= |text| && (text != "" ==> next > 0)
  {
    if text == "" then 0 else if text[0] == '\n' then 1 else 1 + NextLine(text[1..])
  }

  /** A place found in the rest of a text, counted from the start of the text. */
  function Shifted(offset: nat, at: Option<nat>): Option<nat>
  {
    if at.None? then None else Some(offset + at.value)
  }

  /** Where the first Limitations heading starts. */
  function FindLimitations(heading: string, text: string): (at: Option<nat>)
    ensures at.Some? ==> at.value < |text|
    decreases |text|
  {
    if text == "" then None
    else if IsLimitations(heading, text) then Some(0)
    else Shifted(NextLine(text), FindLimitations(heading, text[NextLine(text)..]))
  }

  predicate EndsLine(text: string)
  {
    text != "" && text[|text| - 1] == '\n'
  }

  /** After its last line feed the text has nothing, or a carriage return. */
  predicate LinePrefix(text: string)
  {
    || text == "" || EndsLine(text)
    || (text[|text| - 1] == '\r' && (|text| == 1 || text[|text| - 2] == '\n'))
  }

  /** Before its first line feed the text has nothing, or a carriage return. */
  predicate LineSuffix(text: string)
  {
    AtLineEnd(text) || text == "\r"
  }

  /** The length of the line ending that the text starts with, if any. */
  function LineEnding(text: string): (length: nat)
    ensures length <= |text|
  {
    if |text| >= 2 && text[0] == '\r' && text[1] == '\n' then 2
    else if |text| >= 1 && text[0] == '\n' then 1
    else 0
  }

  /* ------------------------------------------------------------- the section */

  function Block(m: Marks, section: string, newline: Newline): string
  {
    m.start + newline + section + newline + m.end + newline
  }

  /** What an append puts between the card and the section. */
  function Separator(readme: string, newline: Newline): string
  {
    if EndsWith(readme, newline + newline) then "" else if EndsWith(readme, newline) then newline else newline + newline
  }

  function AppendSection(readme: string, block: string, newline: Newline): string
  {
    readme + Separator(readme, newline) + block
  }

  function InsertSection(m: Marks, readme: string, block: string, newline: Newline): string
  {
    match FindLimitations(m.limitations, readme)
    case None => AppendSection(readme, block, newline)
    case Some(at) => StripNewlines(readme[..at]) + newline + newline + block + newline + readme[at..]
  }

  /** The places of the section: its start, its end marker, and the end of that. */
  datatype Section = Section(start: nat, body: nat, end: nat, after: nat)

  predicate Within(s: Section, text: string)
  {
    s.start <= s.body <= s.end <= s.after <= |text|
  }

  /** The section that starts at `start`, when an end marker follows. */
  function SectionAt(m: Marks, readme: string, start: nat): (section: Option<Section>)
    requires start + |m.start| <= |readme|
    ensures section.Some? ==> Within(section.value, readme)
  {
    var body := start + |m.start|;
    FindIsFirst(m.end, readme[body..], 0);
    match Find(m.end, readme[body..])
    case None => None
    case Some(length) => Some(Section(start, body, body + length, body + length + |m.end|))
  }

  function FindSection(m: Marks, readme: string): (section: Option<Section>)
    ensures section.Some? ==> Within(section.value, readme)
  {
    FindIsFirst(m.start, readme, 0);
    match Find(m.start, readme)
    case None => None
    case Some(start) => SectionAt(m, readme, start)
  }

  /** The section's markers have their lines to themselves. */
  predicate CompleteLines(readme: string, s: Section)
    requires Within(s, readme)
  {
    && LinePrefix(readme[..s.start]) && LinePrefix(readme[..s.end])
    && LineSuffix(readme[s.body..]) && LineSuffix(readme[s.after..])
  }

  /** The card without the section found, if that is well-formed. */
  function RemoveAt(m: Marks, readme: string, s: Section): Result<string, Error>
    requires Within(s, readme)
  {
    if !CompleteLines(readme, s) then Err(IncompleteLines)
    else if Find(m.heading, readme[s.body..s.end]).None? then Err(MissingHeading)
    else Ok(readme[..s.start] + readme[s.after..][LineEnding(readme[s.after..])..])
  }

  /** The card without its marked section. */
  function RemoveSection(m: Marks, readme: string): Result<string, Error>
  {
    match FindSection(m, readme)
    case None => Err(MalformedMarkers)
    case Some(s) => RemoveAt(m, readme, s)
  }

  function ReplaceSection(m: Marks, readme: string, block: string, newline: Newline): Result<string, Error>
  {
    match RemoveSection(m, readme)
    case Err(error) => Err(error)
    case Ok(removed) => Ok(InsertSection(m, removed, block, newline))
  }

  function InstallSection(m: Marks, readme: string, section: string, newline: Newline): Result<string, Error>
    requires m.start != "" && m.end != "" && m.heading != ""
  {
    var starts, ends := Count(m.start, readme), Count(m.end, readme);
    if starts != ends || starts > 1 then Err(MalformedMarkers)
    else
      var headings, block := Count(m.heading, readme), Block(m, section, newline);
      if starts == 0 then
        if headings > 0 then Err(UnmarkedSection) else Ok(InsertSection(m, readme, block, newline))
      else
        if headings != 1 then Err(MalformedSection) else ReplaceSection(m, readme, block, newline)
  }

  /* -------------------------------------------------------- uniform line endings */

  /** All line endings are `newline`, and no other carriage return or line feed occurs. */
  predicate Uniform(text: string, newline: Newline)
  {
    if newline == "\n" then '\r' !in text
    else
      && (forall i | 0 <= i < |text| && text[i] == '\n' :: i > 0 && text[i - 1] == '\r')
      && (forall i | 0 <= i < |text| && text[i] == '\r' :: i + 1 < |text| && text[i + 1] == '\n')
  }

  /** Nothing but line endings. */
  predicate NewlineRun(text: string, newline: Newline)
    decreases |text|
  {
    text == "" || (StartsWith(text, newline) && NewlineRun(text[|newline|..], newline))
  }

  /** A mark has no line ending in it. */
  predicate OnOneLine(mark: string)
  {
    mark != "" && '\n' !in mark && '\r' !in mark
  }

  lemma NewlineSeparates(newline: Newline, mark: string)
    requires OnOneLine(mark)
    ensures Separates(newline, mark)
  {
  }

  /** Each mark lies on one line, and neither marker contains another mark. */
  predicate ValidMarks(m: Marks)
  {
    && OnOneLine(m.start) && OnOneLine(m.end) && OnOneLine(m.heading) && OnOneLine(m.limitations)
    && Find(m.end, m.start).None? && Find(m.start, m.end).None?
    && Find(m.heading, m.start).None? && Find(m.heading, m.end).None?
  }

  lemma OneLineParts(a: string, b: string)
    requires OnOneLine(a) && OnOneLine(b)
    ensures OnOneLine(a + b)
  {
  }

  lemma MarkersAreOnOneLine()
    ensures OnOneLine(SECTION_START) && OnOneLine(SECTION_END)
  {
    OneLineParts(MARKER, "START -->");
    OneLineParts(MARKER, "END -->");
  }

  lemma HeadingIsOnOneLine()
    ensures OnOneLine(SECTION_HEADING)
  {
    OneLineParts("## Language annotations ", "(`language-v1`)");
  }

  lemma MarksAreOnOneLine()
    ensures OnOneLine(SECTION_START) && OnOneLine(SECTION_END) && OnOneLine(SECTION_HEADING)
  {
    MarkersAreOnOneLine();
    HeadingIsOnOneLine();
  }

  lemma MarkLengths()
    ensures |SECTION_END| == 34 && |SECTION_START| == 36 && |SECTION_HEADING| == 39
  {
  }

  lemma TooLong(pattern: string, text: string)
    requires |text| < |pattern|
    ensures Find(pattern, text).None?
  {
    FindIsFirst(pattern, text, 0);
  }

  lemma StartMarkerLacksEndMarker()
    ensures Find(SECTION_END, SECTION_START).None?
  {
    MarkLengths();
    assert SECTION_START[0] == '<' && SECTION_START[1] == '!' && SECTION_START[2] == '-' && SECTION_START[27] == 'S';
    assert SECTION_END[0] == '<' && SECTION_END[27] == 'E';
    FindIsFirst(SECTION_END, SECTION_START, 0);
  }

  lemma LimitationsIsOnOneLine()
    ensures OnOneLine(LIMITATIONS)
  {
  }

  lemma CardMarksAreValid()
    ensures ValidMarks(CARD_MARKS)
  {
    LimitationsIsOnOneLine();
    MarksAreOnOneLine();
    MarkLengths();
    StartMarkerLacksEndMarker();
    TooLong(SECTION_START, SECTION_END);
    TooLong(SECTION_HEADING, SECTION_START);
    TooLong(SECTION_HEADING, SECTION_END);
  }

  /* ----------------------------------------------------- a section in its frame */

  /** None of the three marks occurs. */
  predicate Bare(m: Marks, text: string)
  {
    Find(m.start, text).None? && Find(m.end, text).None? && Find(m.heading, text).None?
  }

  /** What the rendered section is like: its heading once, and no marker. */
  predicate Renderable(m: Marks, section: string)
    requires m.heading != ""
  {
    Find(m.start, section).None? && Find(m.end, section).None? && Count(m.heading, section) == 1
  }

  lemma ZeroCounts(m: Marks, text: string)
    requires ValidMarks(m)
    ensures Bare(m, text) <==> Count(m.start, text) == 0 && Count(m.end, text) == 0 && Count(m.heading, text) == 0
  {
    CountZero(m.start, text);
    CountZero(m.end, text);
    CountZero(m.heading, text);
  }

  lemma WholePattern(pattern: string)
    requires pattern != ""
    ensures Find(pattern, pattern) == Some(0) && Count(pattern, pattern) == 1
  {
    assert pattern[|pattern|..] == "";
    EmptyText(pattern);
  }

  /** A section with its markers, with a text above it and one below. */
  function Framed(m: Marks, above: string, section: string, below: string, newline: Newline): string
  {
    above + newline + (m.start + newline + (section + newline + (m.end + newline + below)))
  }

  lemma CountInFrame(mark: string, m: Marks, above: string, section: string, below: string, newline: Newline)
    requires OnOneLine(mark)
    ensures Count(mark, Framed(m, above, section, below, newline))
         == Count(mark, above) + Count(mark, m.start) + Count(mark, section) + Count(mark, m.end) + Count(mark, below)
  {
    NewlineSeparates(newline, mark);
    var fourth := m.end + newline + below;
    var third := section + newline + fourth;
    CountOverSeparator(mark, above, newline, m.start + newline + third);
    CountOverSeparator(mark, m.start, newline, third);
    CountOverSeparator(mark, section, newline, fourth);
    CountOverSeparator(mark, m.end, newline, below);
  }

  /** Each mark occurs exactly once in a frame. */
  lemma MarksInFrame(m: Marks, above: string, section: string, below: string, newline: Newline)
    requires ValidMarks(m) && Bare(m, above) && Bare(m, below) && Renderable(m, section)
    ensures var text := Framed(m, above, section, below, newline);
            Count(m.start, text) == 1 && Count(m.end, text) == 1 && Count(m.heading, text) == 1
  {
    WholePattern(m.start);
    WholePattern(m.end);
    ZeroCounts(m, above);
    ZeroCounts(m, below);
    CountZero(m.start, section);
    CountZero(m.end, section);
    CountZero(m.start, m.end);
    CountZero(m.end, m.start);
    CountZero(m.heading, m.start);
    CountZero(m.heading, m.end);
    CountInFrame(m.start, m, above, section, below, newline);
    CountInFrame(m.end, m, above, section, below, newline);
    CountInFrame(m.heading, m, above, section, below, newline);
  }

  lemma Assoc(a: string, b: string, c: string)
    ensures a + (b + c) == (a + b) + c
  {
  }

  lemma Cut(a: string, b: string)
    ensures (a + b)[..|a|] == a && (a + b)[|a|..] == b
  {
  }

  /** A frame as five parts: the text above with its line ending, the start marker, the body with
      the line endings around it, the end marker, and the rest. */
  function Parts(a: string, start: string, body: string, end: string, rest: string): string
  {
    a + (start + (body + (end + rest)))
  }

  lemma FrameIsParts(m: Marks, above: string, section: string, below: string, newline: Newline)
    ensures Framed(m, above, section, below, newline)
         == Parts(above + newline, m.start, newline + section + newline, m.end, newline + below)
    ensures Framed(m, above, section, below, newline) == above + newline + Block(m, section, newline) + below
  {
    var fourth := m.end + newline + below;
    Assoc(m.end, newline, below);
    Assoc(newline, section, newline);
    Assoc(newline + section, newline, fourth);
    Assoc(newline, section + newline, fourth);
    Assoc(m.start, newline, section + newline + fourth);
    BlockParts(m.start, newline, section, m.end, below);
    Assoc(above + newline, Block(m, section, newline), below);
  }

  lemma BlockParts(start: string, newline: string, section: string, end: string, below: string)
    ensures start + newline + (section + newline + (end + newline + below))
         == (start + newline + section + newline + end + newline) + below
  {
    Assoc(section + newline, end + newline, below);
    Assoc(start + newline, section + newline + (end + newline), below);
    Assoc(section + newline, end, newline);
    Assoc(start + newline, section + newline + end, newline);
    Assoc(start + newline, section + newline, end);
    Assoc(start + newline, section, newline);
  }

  /** The section's places in its five parts. */
  function Places(a: string, start: string, body: string, end: string): Section
  {
    Section(|a|, |a + start|, |a + start + body|, |a + start + body + end|)
  }

  /** The text cut at the section's places. */
  predicate CutAt(text: string, s: Section, a: string, start: string, body: string, end: string, rest: string)
  {
    && Within(s, text)
    && s.body == s.start + |start| && s.end == s.body + |body| && s.after == s.end + |end|
    && text[..s.start] == a && text[..s.end] == a + start + body
    && text[s.body..] == body + (end + rest) && text[s.body..s.end] == body && text[s.after..] == rest
  }

  lemma PartsAreCut(a: string, start: string, body: string, end: string, rest: string)
    ensures CutAt(Parts(a, start, body, end, rest), Places(a, start, body, end), a, start, body, end, rest)
  {
    var text, tail := Parts(a, start, body, end, rest), end + rest;
    Cut(a, start + (body + tail));
    Assoc(a, start, body + tail);
    Cut(a + start, body + tail);
    Assoc(a + start, body, tail);
    Cut(a + start + body, tail);
    Assoc(a + start + body, end, rest);
    Cut(a + start + body + end, rest);
    assert text[|a + start|..|a + start + body|] == text[|a + start|..][..|body|];
    Cut(body, tail);
  }

  lemma FindsItsStart(pattern: string, rest: string)
    requires pattern != ""
    ensures Find(pattern, pattern + rest) == Some(0)
  {
    assert (pattern + rest)[0..|pattern|] == pattern;
  }

  /** The end marker is found right behind the body. */
  lemma EndBehindBody(m: Marks, section: string, newline: Newline, rest: string)
    requires ValidMarks(m) && Find(m.end, section).None?
    ensures Find(m.end, (newline + section + newline) + (m.end + rest)) == Some(|newline + section + newline|)
  {
    var tail := m.end + rest;
    NewlineSeparates(newline, m.end);
    FindsItsStart(m.end, rest);
    FindOverSeparator(m.end, section, newline, tail);
    EmptyText(m.end);
    FindOverSeparator(m.end, "", newline, section + newline + tail);
    Assoc(newline, section, newline);
    Assoc(newline, section + newline, tail);
    assert "" + newline == newline;
  }

  lemma HeadingInBody(m: Marks, section: string, newline: Newline)
    requires ValidMarks(m) && Count(m.heading, section) == 1
    ensures Find(m.heading, newline + section + newline).Some?
  {
    NewlineSeparates(newline, m.heading);
    CountOverSeparator(m.heading, "", newline, section);
    assert "" + newline == newline;
    CountOverSeparator(m.heading, newline + section, newline, "");
    assert newline + section + newline + "" == newline + section + newline;
    EmptyText(m.heading);
    CountZero(m.heading, newline + section + newline);
  }

  lemma SectionAtCut(m: Marks, text: string, s: Section, a: string, body: string, rest: string)
    requires CutAt(text, s, a, m.start, body, m.end, rest)
    requires Find(m.end, body + (m.end + rest)) == Some(|body|)
    ensures SectionAt(m, text, s.start) == Some(s)
  {
    assert text[s.start + |m.start|..] == body + (m.end + rest);
  }

  lemma LinesAreComplete(text: string, s: Section, a: string, start: string, body: string, end: string, rest: string)
    requires CutAt(text, s, a, start, body, end, rest)
    requires EndsLine(a) && EndsLine(body) && AtLineEnd(body + (end + rest)) && AtLineEnd(rest)
    ensures CompleteLines(text, s)
  {
    EndsLineTo(a + start, body);
  }

  /** When the section has its lines to itself it is removed, with the line ending behind it. */
  lemma RemoveAtCut(m: Marks, text: string, s: Section, a: string, body: string, rest: string)
    requires CutAt(text, s, a, m.start, body, m.end, rest) && CompleteLines(text, s)
    requires Find(m.heading, body).Some?
    ensures RemoveAt(m, text, s) == Ok(a + rest[LineEnding(rest)..])
  {
  }

  lemma EndsLineTo(a: string, b: string)
    requires EndsLine(b)
    ensures EndsLine(a + b)
  {
  }

  lemma NewlineEndsLine(text: string, newline: Newline, rest: string)
    ensures EndsLine(text + newline)
    ensures AtLineEnd(newline + rest) && LineEnding(newline + rest) == |newline|
    ensures (newline + rest)[|newline|..] == rest
  {
  }

  lemma StartInFrame(m: Marks, above: string, newline: Newline, tail: string)
    requires ValidMarks(m) && Find(m.start, above).None?
    ensures Find(m.start, (above + newline) + (m.start + tail)) == Some(|above + newline|)
  {
    NewlineSeparates(newline, m.start);
    FindsItsStart(m.start, tail);
    FindOverSeparator(m.start, above, newline, m.start + tail);
  }

  lemma RemoveFromParts(m: Marks, a: string, body: string, rest: string)
    requires Find(m.start, Parts(a, m.start, body, m.end, rest)) == Some(|a|)
    requires Find(m.end, body + (m.end + rest)) == Some(|body|)
    requires EndsLine(a) && EndsLine(body) && AtLineEnd(body + (m.end + rest)) && AtLineEnd(rest)
    requires Find(m.heading, body).Some?
    ensures RemoveSection(m, Parts(a, m.start, body, m.end, rest)) == Ok(a + rest[LineEnding(rest)..])
  {
    var text, s := Parts(a, m.start, body, m.end, rest), Places(a, m.start, body, m.end);
    PartsAreCut(a, m.start, body, m.end, rest);
    SectionAtCut(m, text, s, a, body, rest);
    LinesAreComplete(text, s, a, m.start, body, m.end, rest);
    RemoveAtCut(m, text, s, a, body, rest);
  }

  /** Removing the section from a frame leaves what is around it. */
  lemma RemoveFromFrame(m: Marks, above: string, section: string, below: string, newline: Newline)
    requires ValidMarks(m) && Bare(m, above) && Renderable(m, section)
    ensures RemoveSection(m, Framed(m, above, section, below, newline)) == Ok(above + newline + below)
  {
    var body, rest := newline + section + newline, newline + below;
    FrameIsParts(m, above, section, below, newline);
    StartInFrame(m, above, newline, body + (m.end + rest));
    EndBehindBody(m, section, newline, rest);
    HeadingInBody(m, section, newline);
    NewlineEndsLine(above, newline, below);
    NewlineEndsLine(newline + section, newline, "");
    Assoc(newline, section, newline);
    Assoc(newline, section + newline, m.end + rest);
    NewlineEndsLine("", newline, section + newline + (m.end + rest));
    RemoveFromParts(m, above + newline, body, rest);
  }

  /** A second installation finds the first section and inserts into what is left without it. */
  lemma InstallOverFrame(m: Marks, above: string, first: string, second: string, below: string, newline: Newline)
    requires ValidMarks(m) && Bare(m, above) && Bare(m, below) && Renderable(m, first)
    ensures InstallSection(m, Framed(m, above, first, below, newline), second, newline)
         == Ok(InsertSection(m, above + newline + below, Block(m, second, newline), newline))
  {
    MarksInFrame(m, above, first, below, newline);
    RemoveFromFrame(m, above, first, below, newline);
  }

  /* ------------------------------------------------------ the Limitations heading */

  lemma TailOf(a: string, b: string)
    requires a != ""
    ensures (a + b)[0] == a[0] && (a + b)[1..] == a[1..] + b
  {
  }

  lemma {:induction false} BlankIsDecidedByLine(line: string, x: string, y: string)
    requires EndsLine(line)
    ensures BlankToLineEnd(line + x) == BlankToLineEnd(line + y)
  {
    TailOf(line, x);
    TailOf(line, y);
    if line[0] == ' ' || line[0] == '\t' {
      BlankIsDecidedByLine(line[1..], x, y);
    }
  }

  lemma StartIsDecidedByLine(line: string, x: string, heading: string)
    requires EndsLine(line) && '\n' !in heading
    ensures StartsWith(line + x, heading) <==> |heading| < |line| && line[..|heading|] == heading
  {
    var n, text := |heading|, line + x;
    if n < |line| {
      assert text[0..n] == line[..n];
    } else if n <= |text| {
      assert text[0..n][|line| - 1] == '\n';
    }
  }

  /** Whether a line is the heading does not depend on what follows the line. */
  lemma LineDecides(heading: string, line: string, x: string, y: string)
    requires EndsLine(line) && OnOneLine(heading)
    ensures IsLimitations(heading, line + x) == IsLimitations(heading, line + y)
  {
    var n := |heading|;
    StartIsDecidedByLine(line, x, heading);
    StartIsDecidedByLine(line, y, heading);
    if n < |line| {
      assert EndsLine(line[n..]);
      BlankIsDecidedByLine(line[n..], x, y);
      assert (line + x)[n..] == line[n..] + x && (line + y)[n..] == line[n..] + y;
    }
  }

  lemma {:induction false} NextLineOf(line: string, rest: string)
    requires EndsLine(line) && '\n' !in line[..|line| - 1]
    ensures NextLine(line + rest) == |line|
  {
    TailOf(line, rest);
    if |line| > 1 {
      assert line[..|line| - 1][0] == line[0];
      assert line[1..][..|line| - 2] == line[..|line| - 1][1..];
      NextLineOf(line[1..], rest);
    }
  }

  /** Looking past one line that is not the heading. */
  lemma PastLine(heading: string, line: string, rest: string)
    requires EndsLine(line) && '\n' !in line[..|line| - 1] && !IsLimitations(heading, line + rest)
    ensures FindLimitations(heading, line + rest)
         == Shifted(|line|, FindLimitations(heading, rest))
  {
    NextLineOf(line, rest);
    NextLineIsSearched(heading, line + rest, |line|, rest);
  }

  lemma NextLineIsSearched(heading: string, text: string, next: nat, rest: string)
    requires text != "" && !IsLimitations(heading, text)
    requires next == NextLine(text) && text[next..] == rest
    ensures FindLimitations(heading, text) == Shifted(next, FindLimitations(heading, rest))
  {
  }

  lemma NewlineIsNoHeading(heading: string, newline: Newline, rest: string)
    requires OnOneLine(heading)
    ensures !IsLimitations(heading, newline + rest)
  {
    var text := newline + rest;
    if |heading| <= |text| {
      assert text[0..|heading|][0] == newline[0];
    }
  }

  /** The first line of a text and the rest. */
  lemma {:induction false} FirstLine(text: string) returns (line: string, rest: string)
    requires '\n' in text
    ensures text == line + rest && EndsLine(line) && '\n' !in line[..|line| - 1]
  {
    if text[0] == '\n' {
      line, rest := [text[0]], text[1..];
    } else {
      var shorter;
      shorter, rest := FirstLine(text[1..]);
      line := [text[0]] + shorter;
      assert line[..|line| - 1] == [text[0]] + shorter[..|shorter| - 1];
    }
  }

  /** Neither carriage return nor line feed ends the text. */
  predicate Stripped(text: string)
  {
    text == "" || !IsNewline(text[|text| - 1])
  }

  predicate WholeLines(text: string)
  {
    text == "" || EndsLine(text)
  }

  lemma ShiftedTwice(a: nat, b: nat, at: Option<nat>)
    ensures Shifted(a, Shifted(b, at)) == Shifted(a + b, at)
  {
  }

  /** A search goes through whole lines one by one. */
  lemma {:induction false} SearchOverLines(heading: string, a: string, b: string)
    requires OnOneLine(heading) && WholeLines(a)
    ensures FindLimitations(heading, a + b)
         == if FindLimitations(heading, a).Some? then FindLimitations(heading, a)
            else Shifted(|a|, FindLimitations(heading, b))
    decreases |a|
  {
    if a == "" {
      assert a + b == b;
    } else {
      var line, left := FirstLine(a);
      assert WholeLines(left);
      Assoc(line, left, b);
      LineDecides(heading, line, left, left + b);
      if IsLimitations(heading, line + left) {
        HeadingComesFirst(heading, line + left);
        HeadingComesFirst(heading, line + (left + b));
      } else {
        PastLine(heading, line, left);
        PastLine(heading, line, left + b);
        SearchOverLines(heading, left, b);
        ShiftedTwice(|line|, |left|, FindLimitations(heading, b));
      }
    }
  }

  lemma HeadingComesFirst(heading: string, text: string)
    requires text != "" && IsLimitations(heading, text)
    ensures FindLimitations(heading, text) == Some(0)
  {
  }

  /** No heading in a run of line endings. */
  lemma {:induction false} NoHeadingInRun(heading: string, run: string, newline: Newline)
    requires OnOneLine(heading) && NewlineRun(run, newline)
    ensures FindLimitations(heading, run).None? && WholeLines(run)
    decreases |run|
  {
    if run != "" {
      var left := RunSplits(run, newline);
      NoHeadingInRun(heading, left, newline);
      NewlineIsNoHeading(heading, newline, left);
      PastLine(heading, newline, left);
    }
  }

  lemma RunSplits(run: string, newline: Newline) returns (left: string)
    requires run != "" && NewlineRun(run, newline)
    ensures run == newline + left && NewlineRun(left, newline)
  {
    left := run[|newline|..];
  }

  /** A text and line endings behind it have a heading or not, however many line endings there are. */
  lemma HeadingBeforeRun(heading: string, text: string, few: string, many: string, newline: Newline)
    requires OnOneLine(heading) && few != "" && many != ""
    requires NewlineRun(few, newline) && NewlineRun(many, newline)
    requires FindLimitations(heading, text + few).None?
    ensures FindLimitations(heading, text + many).None?
  {
    var fewer := RunSplits(few, newline);
    var manyLess := RunSplits(many, newline);
    Assoc(text, newline, fewer);
    Assoc(text, newline, manyLess);
    NewlineEndsLine(text, newline, "");
    SearchOverLines(heading, text + newline, fewer);
    SearchOverLines(heading, text + newline, manyLess);
    NoHeadingInRun(heading, manyLess, newline);
  }

  /** A heading found right behind whole lines is the first of what follows, and the lines have none. */
  lemma FoundBehind(heading: string, lines: string, rest: string)
    requires OnOneLine(heading) && EndsLine(lines)
    ensures FindLimitations(heading, lines + rest) == Some(|lines|)
       <==> FindLimitations(heading, lines).None? && FindLimitations(heading, rest) == Some(0)
  {
    SearchOverLines(heading, lines, rest);
  }

  /** Between a text and the heading that follows it, the number of line endings does not matter. */
  lemma HeadingIsFound(heading: string, text: string, few: string, many: string, rest: string, newline: Newline)
    requires OnOneLine(heading) && few != "" && many != ""
    requires NewlineRun(few, newline) && NewlineRun(many, newline)
    requires FindLimitations(heading, text + few + rest) == Some(|text + few|)
    ensures FindLimitations(heading, text + many + rest) == Some(|text + many|)
  {
    RunEndsLine(text, few, newline);
    RunEndsLine(text, many, newline);
    FoundBehind(heading, text + few, rest);
    HeadingBeforeRun(heading, text, few, many, newline);
    FoundBehind(heading, text + many, rest);
  }

  lemma {:induction false} RunEndsLine(text: string, run: string, newline: Newline)
    requires run != "" && NewlineRun(run, newline)
    ensures EndsLine(text + run)
    decreases |run|
  {
    var left := RunSplits(run, newline);
    Assoc(text, newline, left);
    if left == "" {
      assert text + newline + left == text + newline;
      NewlineEndsLine(text, newline, "");
    } else {
      RunEndsLine(text + newline, left, newline);
    }
  }

  predicate EndsWithReturn(text: string)
  {
    text != "" && text[|text| - 1] == '\r'
  }

  lemma {:induction false} BlankAtTheEnd(text: string, newline: Newline)
    requires '\n' !in text && !EndsWithReturn(text) && BlankToLineEnd(text + newline)
    ensures BlankToLineEnd(text)
  {
    if text != "" {
      TailOf(text, newline);
      if !AtLineEnd(text + newline) {
        BlankAtTheEnd(text[1..], newline);
      }
    }
  }

  lemma LastLineWithEnding(line: string, newline: Newline)
    requires '\n' !in line
    ensures EndsLine(line + newline) && '\n' !in (line + newline)[..|line + newline| - 1]
  {
  }

  lemma LastLineIsNoHeading(heading: string, line: string, newline: Newline)
    requires OnOneLine(heading) && '\n' !in line && !EndsWithReturn(line)
    requires !IsLimitations(heading, line)
    ensures !IsLimitations(heading, line + newline)
  {
    var text, n := line + newline, |heading|;
    if n <= |line| {
      assert text[0..n] == line[0..n] && text[n..] == line[n..] + newline;
      if BlankToLineEnd(text[n..]) {
        BlankAtTheEnd(line[n..], newline);
      }
    } else if n <= |text| {
      assert text[0..n][|line|] == newline[0];
    }
  }

  /** A line ending behind the last line makes no heading of it. */
  lemma LastLineStays(heading: string, line: string, newline: Newline)
    requires OnOneLine(heading) && line != "" && '\n' !in line && !EndsWithReturn(line)
    requires FindLimitations(heading, line).None?
    ensures FindLimitations(heading, line + newline).None?
  {
    if IsLimitations(heading, line) {
      HeadingComesFirst(heading, line);
    }
    LastLineIsNoHeading(heading, line, newline);
    LastLineWithEnding(line, newline);
    assert (line + newline) + "" == line + newline;
    PastLine(heading, line + newline, "");
  }

  /** The last, unfinished line of a text and what comes before it. */
  lemma {:induction false} LastLine(text: string) returns (lines: string, last: string)
    requires text != "" && !EndsLine(text)
    ensures text == lines + last && WholeLines(lines) && last != "" && '\n' !in last
    ensures EndsWithReturn(last) ==> EndsWithReturn(text)
  {
    var n := |text| - 1;
    if n == 0 || text[n - 1] == '\n' {
      lines, last := text[..n], text[n..];
    } else {
      lines, last := LastLine(text[..n]);
      last := last + [text[n]];
      assert text == text[..n] + [text[n]];
    }
  }

  /** Line endings at the end of a text without a heading make none appear. */
  lemma NoHeadingBeforeRun(heading: string, text: string, run: string, newline: Newline)
    requires OnOneLine(heading) && NewlineRun(run, newline) && !EndsWithReturn(text)
    requires FindLimitations(heading, text).None?
    ensures FindLimitations(heading, text + run).None?
  {
    NoHeadingInRun(heading, run, newline);
    if WholeLines(text) {
      SearchOverLines(heading, text, run);
    } else if run == "" {
      assert text + run == text;
    } else {
      var lines, last := LastLine(text);
      var left := RunSplits(run, newline);
      NoHeadingInRun(heading, left, newline);
      SearchOverLines(heading, lines, last);
      LastLineStays(heading, last, newline);
      NewlineEndsLine(last, newline, "");
      SearchOverLines(heading, last + newline, left);
      Assoc(last, newline, left);
      Assoc(lines, last, run);
      SearchOverLines(heading, lines, last + run);
    }
  }

  lemma {:induction false} FoundAtLineStart(heading: string, text: string)
    requires FindLimitations(heading, text).Some?
    ensures var at := FindLimitations(heading, text).value; WholeLines(text[..at])
    decreases |text|
  {
    if !IsLimitations(heading, text) {
      var next := NextLine(text);
      NextLineEndsLine(text);
      FoundAtLineStart(heading, text[next..]);
      PrefixInParts(text, next, FindLimitations(heading, text[next..]).value);
    }
  }

  lemma PrefixInParts(text: string, i: nat, j: nat)
    requires i + j <= |text|
    ensures text[..i + j] == text[..i] + text[i..][..j]
  {
  }

  lemma {:induction false} NextLineEndsLine(text: string)
    requires NextLine(text) < |text|
    ensures EndsLine(text[..NextLine(text)])
  {
    if text[0] != '\n' {
      NextLineEndsLine(text[1..]);
      assert text[..NextLine(text)] == [text[0]] + text[1..][..NextLine(text[1..])];
    }
  }

  /* --------------------------------------------------- bare and uniform cards */

  /** The text before the inserted section, without the line ending right before it. */
  function AboveOf(m: Marks, base: string, newline: Newline): string
  {
    match FindLimitations(m.limitations, base)
    case None =>
      var lines := base + Separator(base, newline);
      if |newline| <= |lines| then lines[..|lines| - |newline|] else ""
    case Some(at) => StripNewlines(base[..at]) + newline
  }

  function BelowOf(m: Marks, base: string, newline: Newline): string
  {
    match FindLimitations(m.limitations, base)
    case None => ""
    case Some(at) => newline + base[at..]
  }

  lemma EndsAfter(text: string, pattern: string)
    ensures EndsWith(text + pattern, pattern)
  {
    assert (text + pattern)[|text|..] == pattern;
  }

  lemma EndsTwice(text: string, newline: string)
    requires EndsWith(text, newline)
    ensures EndsWith(text + newline, newline + newline)
  {
    var head := text[..|text| - |newline|];
    assert text == head + newline;
    Assoc(head, newline, newline);
    EndsAfter(head, newline + newline);
  }

  lemma SeparatorMeaning(base: string, newline: Newline)
    ensures EndsWith(base + Separator(base, newline), newline + newline)
    ensures NewlineRun(Separator(base, newline), newline)
    ensures Separator(base + Separator(base, newline), newline) == ""
  {
    if EndsWith(base, newline + newline) {
      assert base + "" == base;
    } else if EndsWith(base, newline) {
      EndsTwice(base, newline);
      assert newline[|newline|..] == "";
    } else {
      EndsAfter(base, newline + newline);
      assert (newline + newline)[|newline|..] == newline && newline[|newline|..] == "";
    }
  }

  /** The separated text ends in a line ending, so it is `AboveOf` and that. */
  lemma AboveAtTheEnd(m: Marks, base: string, newline: Newline)
    requires FindLimitations(m.limitations, base).None?
    ensures AboveOf(m, base, newline) + newline == base + Separator(base, newline)
  {
    var lines := base + Separator(base, newline);
    SeparatorMeaning(base, newline);
    LastOfTwo(lines, newline);
  }

  lemma LastOfTwo(text: string, newline: string)
    requires EndsWith(text, newline + newline)
    ensures |newline| <= |text| && text[..|text| - |newline|] + newline == text
  {
    var n := |newline|;
    assert text[|text| - 2 * n..] == newline + newline;
    assert text[|text| - n..] == text[|text| - 2 * n..][n..] == newline;
    assert text == text[..|text| - n] + text[|text| - n..];
  }

  /** An inserted section is framed by what is above and below it. */
  lemma InsertIsFramed(m: Marks, base: string, section: string, newline: Newline)
    ensures InsertSection(m, base, Block(m, section, newline), newline)
         == Framed(m, AboveOf(m, base, newline), section, BelowOf(m, base, newline), newline)
  {
    var above, below, block := AboveOf(m, base, newline), BelowOf(m, base, newline), Block(m, section, newline);
    FrameIsParts(m, above, section, below, newline);
    if FindLimitations(m.limitations, base).None? {
      AboveAtTheEnd(m, base, newline);
      assert above + newline + block + "" == above + newline + block;
    } else {
      var at := FindLimitations(m.limitations, base).value;
      Assoc(above + newline + block, newline, base[at..]);
    }
  }

  lemma {:induction false} StripMeaning(text: string)
    ensures |StripNewlines(text)| <= |text| && StripNewlines(text) == text[..|StripNewlines(text)|]
    ensures Stripped(StripNewlines(text))
    ensures Stripped(text) ==> StripNewlines(text) == text
  {
    if Stripped(text) {
      assert text[..|text|] == text;
    } else {
      StripMeaning(text[..|text| - 1]);
    }
  }

  lemma {:induction false} StripsRun(text: string, run: string, newline: Newline)
    requires NewlineRun(run, newline)
    ensures StripNewlines(text + run) == StripNewlines(text)
    decreases |run|
  {
    if run == "" {
      assert text + run == text;
    } else {
      var left := RunSplits(run, newline);
      Assoc(text, newline, left);
      StripsRun(text + newline, left, newline);
      StripsOne(text, newline);
    }
  }

  lemma StripsOne(text: string, newline: Newline)
    ensures StripNewlines(text + newline) == StripNewlines(text)
  {
    var whole := text + newline;
    assert newline == "\n" ==> whole[..|whole| - 1] == text;
    assert newline == "\r\n" ==> whole[..|whole| - 1][..|whole| - 2] == text;
  }

  lemma {:induction false} RunAppend(run: string, newline: Newline)
    requires NewlineRun(run, newline)
    ensures NewlineRun(run + newline, newline)
    decreases |run|
  {
    if run == "" {
      assert newline[|newline|..] == "" && run + newline == newline;
    } else {
      var left := RunSplits(run, newline);
      RunAppend(left, newline);
      Assoc(newline, left, newline);
      Cut(newline, left + newline);
      assert (newline + (left + newline))[0..|newline|] == newline;
    }
  }

  lemma UniformEnd(text: string, newline: Newline)
    requires Uniform(text, newline) && EndsLine(text)
    ensures |newline| <= |text| && text == text[..|text| - |newline|] + newline
  {
  }

  lemma UniformPrefix(text: string, k: nat, newline: Newline)
    requires Uniform(text, newline) && k <= |text|
    requires k < |text| && text[k] == '\n' ==> newline == "\n"
    ensures Uniform(text[..k], newline)
  {
  }

  /** What stripping takes off a uniform text that ends a line is a run of line endings. */
  lemma {:induction false} StrippedRun(text: string, newline: Newline)
    requires Uniform(text, newline) && EndsLine(text)
    ensures |StripNewlines(text)| < |text| && text == StripNewlines(text) + text[|StripNewlines(text)|..]
    ensures NewlineRun(text[|StripNewlines(text)|..], newline)
    decreases |text|
  {
    var shorter := text[..|text| - |newline|];
    UniformEnd(text, newline);
    StripsOne(shorter, newline);
    if EndsLine(shorter) {
      UniformPrefix(text, |shorter|, newline);
      StrippedRun(shorter, newline);
      var run := shorter[|StripNewlines(shorter)|..];
      RunAppend(run, newline);
      Assoc(StripNewlines(shorter), run, newline);
      Cut(StripNewlines(shorter), run + newline);
    } else {
      assert !EndsWithReturn(shorter);
      StripMeaning(shorter);
      RunAppend("", newline);
      assert "" + newline == newline;
      Cut(shorter, newline);
    }
  }

  /* --------------------------------------------------- inserting a second time */

  lemma UniformEndsWithoutReturn(text: string, newline: Newline)
    requires Uniform(text, newline)
    ensures !EndsWithReturn(text)
  {
  }

  lemma InsertAtTheEndAgain(m: Marks, base: string, block: string, newline: Newline)
    requires ValidMarks(m) && Uniform(base, newline) && FindLimitations(m.limitations, base).None?
    ensures InsertSection(m, AboveOf(m, base, newline) + newline + BelowOf(m, base, newline), block, newline)
         == InsertSection(m, base, block, newline)
  {
    var lines := base + Separator(base, newline);
    AboveAtTheEnd(m, base, newline);
    SeparatorMeaning(base, newline);
    UniformEndsWithoutReturn(base, newline);
    NoHeadingBeforeRun(m.limitations, base, Separator(base, newline), newline);
    assert lines + "" == lines;
  }

  lemma ThreeNewlines(newline: Newline)
    ensures NewlineRun(newline + newline + newline, newline)
  {
    RunAppend("", newline);
    assert "" + newline == newline;
    RunAppend(newline, newline);
    RunAppend(newline + newline, newline);
  }

  /** With three line endings instead of those that were there, the heading is found right behind them. */
  lemma HeadingBehindThree(m: Marks, base: string, newline: Newline)
    requires ValidMarks(m) && Uniform(base, newline) && FindLimitations(m.limitations, base).Some?
    ensures var at := FindLimitations(m.limitations, base).value;
            var text, many := StripNewlines(base[..at]), newline + newline + newline;
            FindLimitations(m.limitations, text + many + base[at..]) == Some(|text + many|)
  {
    var heading, at := m.limitations, FindLimitations(m.limitations, base).value;
    var head, rest := base[..at], base[at..];
    var text, many := StripNewlines(head), newline + newline + newline;
    ThreeNewlines(newline);
    FoundAtLineStart(heading, base);
    assert base == head + rest;
    if at == 0 {
      NoHeadingInRun(heading, many, newline);
      assert text == "" && rest == base && "" + many == many;
      RunEndsLine("", many, newline);
      FoundBehind(heading, many, rest);
    } else {
      FoundStartsHeading(heading, base);
      UniformPrefix(base, at, newline);
      StrippedRun(head, newline);
      HeadingIsFound(heading, text, head[|text|..], many, rest, newline);
    }
  }

  /** What is found is the heading, so no line feed. */
  lemma {:induction false} FoundStartsHeading(heading: string, text: string)
    requires OnOneLine(heading) && FindLimitations(heading, text).Some?
    ensures text[FindLimitations(heading, text).value] != '\n'
    decreases |text|
  {
    if IsLimitations(heading, text) {
      assert text[0..|heading|][0] == heading[0];
    } else {
      FoundStartsHeading(heading, text[NextLine(text)..]);
    }
  }

  lemma JoinThree(text: string, newline: string, rest: string)
    ensures (text + newline) + newline + (newline + rest) == text + (newline + newline + newline) + rest
  {
    Assoc(text + newline + newline, newline, rest);
    Assoc(text, newline, newline);
    Assoc(text, newline + newline, newline);
  }

  lemma InsertBeforeHeadingAgain(m: Marks, base: string, block: string, newline: Newline)
    requires ValidMarks(m) && Uniform(base, newline) && FindLimitations(m.limitations, base).Some?
    ensures InsertSection(m, AboveOf(m, base, newline) + newline + BelowOf(m, base, newline), block, newline)
         == InsertSection(m, base, block, newline)
  {
    var at := FindLimitations(m.limitations, base).value;
    var text, rest, many := StripNewlines(base[..at]), base[at..], newline + newline + newline;
    HeadingBehindThree(m, base, newline);
    JoinThree(text, newline, rest);
    ThreeNewlines(newline);
    StripsRun(text, many, newline);
    StripMeaning(base[..at]);
    StripMeaning(text);
    Cut(text + many, rest);
  }

  /** Inserting around where a section was gives what inserting into the card before gives. */
  lemma InsertAgain(m: Marks, base: string, block: string, newline: Newline)
    requires ValidMarks(m) && Uniform(base, newline)
    ensures InsertSection(m, AboveOf(m, base, newline) + newline + BelowOf(m, base, newline), block, newline)
         == InsertSection(m, base, block, newline)
  {
    if FindLimitations(m.limitations, base).None? {
      InsertAtTheEndAgain(m, base, block, newline);
    } else {
      InsertBeforeHeadingAgain(m, base, block, newline);
    }
  }

  lemma PartHasNoMark(mark: string, text: string, i: nat, j: nat)
    requires mark != "" && Find(mark, text).None? && i <= j <= |text|
    ensures Find(mark, text[i..j]).None?
  {
    if Find(mark, text[i..j]).Some? {
      var k := Find(mark, text[i..j]).value;
      FindIsFirst(mark, text[i..j], k);
      assert text[i + k..i + k + |mark|] == text[i..j][k..k + |mark|];
      FindIsFirst(mark, text, i + k);
    }
  }

  lemma PartIsBare(m: Marks, text: string, i: nat, j: nat)
    requires ValidMarks(m) && Bare(m, text) && i <= j <= |text|
    ensures Bare(m, text[i..j])
  {
    PartHasNoMark(m.start, text, i, j);
    PartHasNoMark(m.end, text, i, j);
    PartHasNoMark(m.heading, text, i, j);
  }

  lemma BareOverNewline(m: Marks, a: string, newline: Newline, b: string)
    requires ValidMarks(m) && Bare(m, a) && Bare(m, b)
    ensures Bare(m, a + newline + b)
  {
    ZeroCounts(m, a);
    ZeroCounts(m, b);
    ZeroCounts(m, a + newline + b);
    NewlineSeparates(newline, m.start);
    NewlineSeparates(newline, m.end);
    NewlineSeparates(newline, m.heading);
    CountOverSeparator(m.start, a, newline, b);
    CountOverSeparator(m.end, a, newline, b);
    CountOverSeparator(m.heading, a, newline, b);
  }

  lemma EmptyIsBare(m: Marks)
    requires ValidMarks(m)
    ensures Bare(m, "")
  {
    EmptyText(m.start);
    EmptyText(m.end);
    EmptyText(m.heading);
  }

  lemma {:induction false} BareBeforeRun(m: Marks, text: string, run: string, newline: Newline)
    requires ValidMarks(m) && Bare(m, text) && NewlineRun(run, newline)
    ensures Bare(m, text + run)
    decreases |run|
  {
    if run == "" {
      assert text + run == text;
    } else {
      var left := RunSplits(run, newline);
      EmptyIsBare(m);
      BareOverNewline(m, text, newline, "");
      assert text + newline + "" == text + newline;
      BareBeforeRun(m, text + newline, left, newline);
      Assoc(text, newline, left);
    }
  }

  lemma FrameIsBare(m: Marks, base: string, newline: Newline)
    requires ValidMarks(m) && Bare(m, base)
    ensures Bare(m, AboveOf(m, base, newline)) && Bare(m, BelowOf(m, base, newline))
  {
    EmptyIsBare(m);
    match FindLimitations(m.limitations, base)
    case None =>
      var lines := base + Separator(base, newline);
      SeparatorMeaning(base, newline);
      BareBeforeRun(m, base, Separator(base, newline), newline);
      if |newline| <= |lines| {
        PartIsBare(m, lines, 0, |lines| - |newline|);
        assert lines[0..|lines| - |newline|] == lines[..|lines| - |newline|];
      }
    case Some(at) =>
      var text := StripNewlines(base[..at]);
      StripMeaning(base[..at]);
      PartIsBare(m, base, 0, |text|);
      assert base[0..|text|] == text;
      BareOverNewline(m, text, newline, "");
      assert text + newline + "" == text + newline;
      PartIsBare(m, base, at, |base|);
      assert base[at..|base|] == base[at..] && "" + newline == newline;
      BareOverNewline(m, "", newline, base[at..]);
  }

  /** On a card without a section: installing one and then another is installing the other. */
  lemma InstallOnBase(m: Marks, base: string, first: string, second: string, newline: Newline)
    requires ValidMarks(m) && Uniform(base, newline) && Bare(m, base) && Renderable(m, first)
    ensures InstallSection(m, InsertSection(m, base, Block(m, first, newline), newline), second, newline)
         == Ok(InsertSection(m, base, Block(m, second, newline), newline))
  {
    InsertIsFramed(m, base, first, newline);
    FrameIsBare(m, base, newline);
    InstallOverFrame(m, AboveOf(m, base, newline), first, second, BelowOf(m, base, newline), newline);
    InsertAgain(m, base, Block(m, second, newline), newline);
  }

  /* ------------------------------------------------- cards that have a section */

  /** The card that the section goes into: the card itself, or without its earlier section. */
  function BaseOf(m: Marks, readme: string): Result<string, Error>
    requires m.start != ""
  {
    if Count(m.start, readme) == 0 then Ok(readme) else RemoveSection(m, readme)
  }

  lemma UniformAround(text: string, i: nat, newline: Newline)
    requires Uniform(text, newline) && i <= |text|
    ensures LinePrefix(text[..i]) && (i < |text| ==> text[i] != '\n') ==> WholeLines(text[..i])
    ensures LineSuffix(text[i..]) && (i > 0 ==> text[i - 1] != '\r') ==>
              text[i..] == "" || (|newline| <= |text[i..]| && text[i..] == newline + text[i..][|newline|..])
  {
    var head, tail := text[..i], text[i..];
    if LineSuffix(tail) && (i > 0 ==> text[i - 1] != '\r') && tail != "" {
      assert text[i] == tail[0] && text[|text| - 1] == tail[|tail| - 1];
      assert newline == "\r\n" && |tail| >= 2 ==> text[i + 1] == tail[1];
    }
  }

  lemma CountOverLines(mark: string, a: string, b: string)
    requires OnOneLine(mark) && WholeLines(a)
    ensures Count(mark, a + b) == Count(mark, a) + Count(mark, b)
  {
    EmptyText(mark);
    if a == "" {
      assert a + b == b;
    } else {
      var n := |a| - 1;
      CountOnBothSides(mark, a[..n], '\n', b);
      CountOnBothSides(mark, a[..n], '\n', "");
      assert a[..n] + ['\n'] == a && a + "" == a;
    }
  }

  lemma CountBeforeNewline(mark: string, a: string, newline: Newline, rest: string)
    requires OnOneLine(mark)
    ensures Count(mark, a + (newline + rest)) == Count(mark, a) + Count(mark, rest)
  {
    NewlineSeparates(newline, mark);
    CountOverSeparator(mark, a, newline, rest);
    Assoc(a, newline, rest);
  }

  lemma FoundInPart(mark: string, text: string, i: nat, j: nat)
    requires mark != "" && i <= j <= |text| && Find(mark, text[i..j]).Some?
    ensures Count(mark, text) >= 1
  {
    if Count(mark, text) == 0 {
      CountZero(mark, text);
      PartHasNoMark(mark, text, i, j);
    }
    CountZero(mark, text);
  }

  /** A mark that occurs once, and inside the middle part, occurs neither above nor below. */
  lemma OnlyInTheMiddle(mark: string, above: string, middle: string, newline: Newline, tail: string, rest: string)
    requires OnOneLine(mark) && WholeLines(above)
    requires (tail == "" && rest == "") || tail == newline + rest
    requires Count(mark, above + (middle + tail)) == 1 && Count(mark, middle) >= 1
    ensures Count(mark, above + rest) == 0
  {
    CountOverLines(mark, above, middle + tail);
    CountOverLines(mark, above, rest);
    if tail == "" {
      assert middle + tail == middle;
      EmptyText(mark);
    } else {
      CountBeforeNewline(mark, middle, newline, rest);
    }
  }

  lemma SliceOfSlice(text: string, i: nat, j: nat, p: nat, q: nat)
    requires i <= j <= |text| && p <= q <= j - i
    ensures text[i..j][p..q] == text[i + p..i + q]
  {
    var a, b := text[i..j][p..q], text[i + p..i + q];
    forall k | 0 <= k < q - p
      ensures a[k] == b[k]
    {
      assert a[k] == text[i..j][p + k] == text[i + p + k];
    }
  }

  /** The markers are where the section says. */
  lemma SectionHasMarkers(m: Marks, readme: string, s: Section)
    requires FindSection(m, readme) == Some(s)
    ensures readme[s.start..s.body] == m.start && readme[s.end..s.after] == m.end
  {
    FindIsFirst(m.start, readme, 0);
    FindIsFirst(m.end, readme[s.body..], 0);
    SliceOfSlice(readme, s.body, |readme|, s.end - s.body, s.after - s.body);
    assert readme[s.body..|readme|] == readme[s.body..];
  }

  lemma FoundInMiddle(mark: string, text: string, i: nat, j: nat, p: nat, q: nat)
    requires mark != "" && i <= p <= q <= j <= |text| && Find(mark, text[p..q]).Some?
    ensures Count(mark, text[i..j]) >= 1
  {
    SliceOfSlice(text, i, j, p - i, q - i);
    FoundInPart(mark, text[i..j], p - i, q - i);
  }

  /** The section's text with its markers contains each mark. */
  lemma MiddleHasMarks(m: Marks, readme: string, s: Section)
    requires ValidMarks(m) && Within(s, readme) && Find(m.heading, readme[s.body..s.end]).Some?
    requires readme[s.start..s.body] == m.start && readme[s.end..s.after] == m.end
    ensures var middle := readme[s.start..s.after];
            Count(m.start, middle) >= 1 && Count(m.end, middle) >= 1 && Count(m.heading, middle) >= 1
  {
    WholePattern(m.start);
    WholePattern(m.end);
    FoundInMiddle(m.start, readme, s.start, s.after, s.start, s.body);
    FoundInMiddle(m.end, readme, s.start, s.after, s.end, s.after);
    FoundInMiddle(m.heading, readme, s.start, s.after, s.body, s.end);
  }

  /** The characters at both ends of the section are no line endings. */
  lemma SectionEdges(m: Marks, readme: string, s: Section)
    requires ValidMarks(m) && Within(s, readme)
    requires readme[s.start..s.body] == m.start && readme[s.end..s.after] == m.end
    ensures s.start < s.after && !IsNewline(readme[s.start]) && !IsNewline(readme[s.after - 1])
  {
    assert readme[s.start..s.body][0] == readme[s.start];
    assert readme[s.end..s.after][|m.end| - 1] == readme[s.after - 1];
  }

  lemma UniformAcross(text: string, i: nat, j: nat, newline: Newline)
    requires Uniform(text, newline) && i <= j <= |text| && WholeLines(text[..i])
    requires j < |text| && j > 0 ==> text[j - 1] != '\r'
    ensures Uniform(text[..i] + text[j..], newline)
  {
    var a, b := text[..i], text[j..];
    assert forall k :: 0 <= k < |a + b| ==> (a + b)[k] == if k < i then text[k] else text[j + k - i];
    assert i > 0 ==> text[i - 1] == '\n';
  }

  /** A section that has its lines to itself lies between whole lines and a line ending or the end. */
  lemma AroundSection(m: Marks, readme: string, s: Section, newline: Newline)
    requires ValidMarks(m) && Uniform(readme, newline) && Within(s, readme) && CompleteLines(readme, s)
    requires readme[s.start..s.body] == m.start && readme[s.end..s.after] == m.end
    ensures WholeLines(readme[..s.start])
    ensures var tail := readme[s.after..]; var rest := tail[LineEnding(tail)..];
            (tail == "" && rest == "") || tail == newline + rest
  {
    var tail := readme[s.after..];
    SectionEdges(m, readme, s);
    UniformAround(readme, s.start, newline);
    UniformAround(readme, s.after, newline);
    if tail != "" {
      NewlineEndsLine("", newline, tail[|newline|..]);
    }
  }

  lemma ThreeParts(text: string, i: nat, j: nat)
    requires i <= j <= |text|
    ensures text == text[..i] + (text[i..j] + text[j..])
  {
  }

  lemma MarksAreGone(m: Marks, above: string, middle: string, newline: Newline, tail: string, rest: string)
    requires ValidMarks(m) && WholeLines(above)
    requires (tail == "" && rest == "") || tail == newline + rest
    requires var text := above + (middle + tail);
             Count(m.start, text) == 1 && Count(m.end, text) == 1 && Count(m.heading, text) == 1
    requires Count(m.start, middle) >= 1 && Count(m.end, middle) >= 1 && Count(m.heading, middle) >= 1
    ensures Bare(m, above + rest)
  {
    OnlyInTheMiddle(m.start, above, middle, newline, tail, rest);
    OnlyInTheMiddle(m.end, above, middle, newline, tail, rest);
    OnlyInTheMiddle(m.heading, above, middle, newline, tail, rest);
    ZeroCounts(m, above + rest);
  }

  lemma RemovedAtIsBare(m: Marks, readme: string, s: Section, newline: Newline)
    requires ValidMarks(m) && Uniform(readme, newline) && Within(s, readme) && RemoveAt(m, readme, s).Ok?
    requires readme[s.start..s.body] == m.start && readme[s.end..s.after] == m.end
    requires Count(m.start, readme) == 1 && Count(m.end, readme) == 1 && Count(m.heading, readme) == 1
    ensures Bare(m, RemoveAt(m, readme, s).value) && Uniform(RemoveAt(m, readme, s).value, newline)
  {
    var tail := readme[s.after..];
    var rest := tail[LineEnding(tail)..];
    AroundSection(m, readme, s, newline);
    ThreeParts(readme, s.start, s.after);
    MiddleHasMarks(m, readme, s);
    MarksAreGone(m, readme[..s.start], readme[s.start..s.after], newline, tail, rest);
    RestAcross(readme, s, newline, rest);
  }

  /** What remains of an accepted card without its section is uniform and has none of the marks. */
  lemma RemovedIsBare(m: Marks, readme: string, newline: Newline)
    requires ValidMarks(m) && Uniform(readme, newline) && RemoveSection(m, readme).Ok?
    requires Count(m.start, readme) == 1 && Count(m.end, readme) == 1 && Count(m.heading, readme) == 1
    ensures Bare(m, RemoveSection(m, readme).value) && Uniform(RemoveSection(m, readme).value, newline)
  {
    var s := FindSection(m, readme).value;
    SectionHasMarkers(m, readme, s);
    RemovedAtIsBare(m, readme, s, newline);
  }

  lemma RestAcross(readme: string, s: Section, newline: Newline, rest: string)
    requires Within(s, readme) && Uniform(readme, newline) && WholeLines(readme[..s.start])
    requires var tail := readme[s.after..]; (tail == "" && rest == "") || tail == newline + rest
    ensures Uniform(readme[..s.start] + rest, newline)
  {
    var after := |readme| - |rest|;
    assert rest == readme[after..];
    UniformAcross(readme, s.start, after, newline);
  }

  /** An accepted card is its base with the section inserted, and whether it is accepted does not
      depend on the section. */
  lemma InstallsIntoBase(m: Marks, readme: string, section: string, newline: Newline)
    requires ValidMarks(m) && Uniform(readme, newline)
    requires InstallSection(m, readme, section, newline).Ok?
    ensures BaseOf(m, readme).Ok?
    ensures var base := BaseOf(m, readme).value;
            Bare(m, base) && Uniform(base, newline)
    ensures forall other ::
              InstallSection(m, readme, other, newline)
              == Ok(InsertSection(m, BaseOf(m, readme).value, Block(m, other, newline), newline))
  {
    ZeroCounts(m, readme);
    if Count(m.start, readme) != 0 {
      RemovedIsBare(m, readme, newline);
    }
  }

  /** Put-put: on every accepted card with uniform line endings, installing one section and then
      another is installing the other alone. */
  lemma InstallTwiceIsInstallOnce(readme: string, first: string, second: string, newline: Newline)
    requires Uniform(readme, newline)
    requires Renderable(CARD_MARKS, first) && InstallSection(CARD_MARKS, readme, first, newline).Ok?
    ensures InstallSection(CARD_MARKS, InstallSection(CARD_MARKS, readme, first, newline).value, second, newline)
         == InstallSection(CARD_MARKS, readme, second, newline)
    ensures InstallSection(CARD_MARKS, readme, second, newline).Ok?
  {
    CardMarksAreValid();
    InstallsIntoBase(CARD_MARKS, readme, first, newline);
    InstallOnBase(CARD_MARKS, BaseOf(CARD_MARKS, readme).value, first, second, newline);
  }

  /** Apart from line endings at the place of insertion, all text of the base stays, in order:
      the section goes between `base[..at]` and `base[at..]`. */
  lemma InstalledCardKeepsTheText(m: Marks, readme: string, section: string, newline: Newline) returns (at: nat)
    requires ValidMarks(m) && Uniform(readme, newline)
    requires InstallSection(m, readme, section, newline).Ok?
    ensures BaseOf(m, readme).Ok? && at <= |BaseOf(m, readme).value|
    ensures var base := BaseOf(m, readme).value;
            var above, below := AboveOf(m, base, newline) + newline, BelowOf(m, base, newline);
            && InstallSection(m, readme, section, newline) == Ok(above + Block(m, section, newline) + below)
            && StripNewlines(above) == StripNewlines(base[..at])
            && (below == newline + base[at..] || (below == "" && at == |base|))
  {
    InstallsIntoBase(m, readme, section, newline);
    var base := BaseOf(m, readme).value;
    InsertIsFramed(m, base, section, newline);
    FrameIsParts(m, AboveOf(m, base, newline), section, BelowOf(m, base, newline), newline);
    match FindLimitations(m.limitations, base)
    case None =>
      at := |base|;
      AboveAtTheEnd(m, base, newline);
      SeparatorMeaning(base, newline);
      StripsRun(base, Separator(base, newline), newline);
      assert base[..at] == base;
    case Some(found) =>
      at := found;
      var text := StripNewlines(base[..at]);
      StripsOne(text + newline, newline);
      StripsOne(text, newline);
      StripMeaning(base[..at]);
      StripMeaning(text);
  }
}
