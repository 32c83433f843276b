/** Where the generated section goes, and which cards it can go into, said of the text alone. */
module CardRules {
  import opened Wrappers
  import opened Substrings
  import opened LanguageCard

  /* ------------------------------------------------------ the Limitations heading */

  /** From `from` to `end` there are only spaces and tabs, and at `end` the line or the text ends. */
  predicate BlankUpTo(text: string, from: nat, end: nat)
  {
    && from <= end <= |text|
    && (forall i | from <= i < end :: text[i] == ' ' || text[i] == '\t')
    && (end == |text| || text[end] == '\n' || (end + 2 <= |text| && text[end] == '\r' && text[end + 1] == '\n'))
  }

  ghost predicate BlankFrom(text: string, from: nat)
  {
    exists end: nat :: BlankUpTo(text, from, end)
  }

  /** A line starts at `at`, and it is the heading, with nothing but blanks behind it. */
  ghost predicate HeadingLineAt(heading: string, text: string, at: nat)
  {
    && at < |text| && (at == 0 || text[at - 1] == '\n')
    && OccursAt(heading, text, at) && BlankFrom(text, at + |heading|)
  }

  lemma {:induction false} BlankMeaning(text: string)
    ensures BlankToLineEnd(text) <==> BlankFrom(text, 0)
  {
    if AtLineEnd(text) {
      assert BlankUpTo(text, 0, 0);
    } else {
      var rest := text[1..];
      if text[0] == ' ' || text[0] == '\t' {
        BlankMeaning(rest);
        BlankShifts(text, 1, 0);
        if BlankFrom(text, 0) {
          var end: nat :| BlankUpTo(text, 0, end);
          assert end > 0 && BlankUpTo(text, 1, end);
        }
        if BlankFrom(text, 1) {
          var end: nat :| BlankUpTo(text, 1, end);
          assert BlankUpTo(text, 0, end);
        }
      }
    }
  }

  lemma BlankShifts(text: string, k: nat, from: nat)
    requires k + from <= |text|
    ensures BlankFrom(text[k..], from) <==> BlankFrom(text, k + from)
  {
    var at := k + from;
    if end: nat :| BlankUpTo(text[k..], from, end) {
      assert forall i | at <= i < k + end :: text[i] == text[k..][i - k];
      assert BlankUpTo(text, at, k + end);
    }
    if end: nat :| BlankUpTo(text, at, end) {
      assert BlankUpTo(text[k..], from, end - k);
    }
  }

  lemma OccursShifts(pattern: string, text: string, k: nat, at: nat)
    requires k + at <= |text|
    ensures OccursAt(pattern, text[k..], at) <==> OccursAt(pattern, text, k + at)
  {
    if k + at + |pattern| <= |text| {
      assert text[k..][at..at + |pattern|] == text[k + at..k + at + |pattern|];
    }
  }

  lemma HeadingAtStart(heading: string, text: string)
    requires text != ""
    ensures IsLimitations(heading, text) <==> HeadingLineAt(heading, text, 0)
  {
    if StartsWith(text, heading) {
      BlankMeaning(text[|heading|..]);
      BlankShifts(text, |heading|, 0);
    }
  }

  lemma HeadingLineShifts(heading: string, text: string, k: nat, at: nat)
    requires 0 < k && k + at < |text| && text[k - 1] == '\n'
    ensures HeadingLineAt(heading, text[k..], at) <==> HeadingLineAt(heading, text, k + at)
  {
    OccursShifts(heading, text, k, at);
    if OccursAt(heading, text, k + at) {
      BlankShifts(text, k, at + |heading|);
    }
  }

  lemma {:induction false} NextLineIsFirstLine(text: string)
    requires text != ""
    ensures var next := NextLine(text);
            (next < |text| ==> text[next - 1] == '\n') && forall i :: 0 <= i < next - 1 ==> text[i] != '\n'
  {
    if text[0] != '\n' && |text| > 1 {
      NextLineIsFirstLine(text[1..]);
    }
  }

  ghost function HeadingLines(heading: string, text: string): set<nat>
  {
    set at: nat | at < |text| && HeadingLineAt(heading, text, at)
  }

  predicate IsFirstOf(at: nat, places: set<nat>)
  {
    at in places && forall k | k in places :: at <= k
  }

  lemma FirstShifts(places: set<nat>, later: set<nat>, next: nat, at: nat)
    requires forall k: nat :: k in places <==> next <= k && k - next in later
    ensures IsFirstOf(at, places) <==> next <= at && IsFirstOf(at - next, later)
  {
    if next <= at && IsFirstOf(at, places) {
      forall k | k in later
        ensures at - next <= k
      {
        assert next + k in places;
      }
    }
  }

  /** Behind a first line that is not the heading, the heading lines are those of the rest. */
  lemma HeadingLinesBehind(heading: string, text: string, next: nat, k: nat)
    requires text != "" && next == NextLine(text) && !IsLimitations(heading, text)
    ensures k in HeadingLines(heading, text) <==> next <= k && k - next in HeadingLines(heading, text[next..])
  {
    HeadingAtStart(heading, text);
    NextLineIsFirstLine(text);
    if next <= k < |text| {
      HeadingLineShifts(heading, text, next, k - next);
    }
  }

  lemma FirstBehind(heading: string, text: string, next: nat, at: nat)
    requires text != "" && next == NextLine(text) && !IsLimitations(heading, text)
    ensures IsFirstOf(at, HeadingLines(heading, text))
       <==> next <= at && IsFirstOf(at - next, HeadingLines(heading, text[next..]))
  {
    var places, later := HeadingLines(heading, text), HeadingLines(heading, text[next..]);
    forall k: nat
      ensures k in places <==> next <= k && k - next in later
    {
      HeadingLinesBehind(heading, text, next, k);
    }
    FirstShifts(places, later, next, at);
  }

  lemma FirstAtStart(heading: string, text: string, at: nat)
    requires text != "" && IsLimitations(heading, text)
    ensures IsFirstOf(at, HeadingLines(heading, text)) <==> at == 0
  {
    HeadingAtStart(heading, text);
    assert 0 in HeadingLines(heading, text);
  }

  /** The heading is found at the first line that is the heading. */
  ghost predicate FoundRightly(heading: string, text: string, at: nat)
  {
    FindLimitations(heading, text) == Some(at) <==> IsFirstOf(at, HeadingLines(heading, text))
  }

  lemma FoundPastLine(heading: string, text: string, next: nat, at: nat)
    requires text != "" && next == NextLine(text) && !IsLimitations(heading, text)
    requires next <= at ==> FoundRightly(heading, text[next..], at - next)
    ensures FoundRightly(heading, text, at)
  {
    FirstBehind(heading, text, next, at);
    NextLineIsSearched(heading, text, next, text[next..]);
  }

  lemma FoundAtStart(heading: string, text: string, at: nat)
    requires text != "" && IsLimitations(heading, text)
    ensures FoundRightly(heading, text, at)
  {
    FirstAtStart(heading, text, at);
    HeadingComesFirst(heading, text);
  }

  /** The heading found is the first line of the text that is the heading. */
  lemma {:induction false} FoundIsFirstHeadingLine(heading: string, text: string, at: nat)
    ensures FoundRightly(heading, text, at)
    decreases |text|
  {
    if text == "" {
      assert HeadingLines(heading, text) == {};
    } else if IsLimitations(heading, text) {
      FoundAtStart(heading, text, at);
    } else {
      var next := NextLine(text);
      if next <= at {
        FoundIsFirstHeadingLine(heading, text[next..], at - next);
      }
      FoundPastLine(heading, text, next, at);
    }
  }

  /* ------------------------------------------------------------ accepted cards */

  /** The first occurrence of the pattern at or behind `from`. */
  ghost predicate FirstFrom(pattern: string, text: string, from: nat, at: nat)
  {
    from <= at && OccursAt(pattern, text, at) && forall j: nat :: from <= j < at ==> !OccursAt(pattern, text, j)
  }

  lemma NoneBeforeFound(pattern: string, text: string, from: nat, j: nat)
    requires from <= |text| && from <= j && OccursAt(pattern, text, j)
    ensures Find(pattern, text[from..]).Some? && from + Find(pattern, text[from..]).value <= j
  {
    OccursShifts(pattern, text, from, j - from);
    FindIsFirst(pattern, text[from..], j - from);
  }

  lemma FoundOccurs(pattern: string, text: string, from: nat)
    requires from <= |text| && Find(pattern, text[from..]).Some?
    ensures OccursAt(pattern, text, from + Find(pattern, text[from..]).value)
  {
    FindIsFirst(pattern, text[from..], 0);
    OccursShifts(pattern, text, from, Find(pattern, text[from..]).value);
  }

  lemma FindIsFirstFrom(pattern: string, text: string, from: nat, at: nat)
    requires from <= |text|
    ensures from <= at && Find(pattern, text[from..]) == Some(at - from) <==> FirstFrom(pattern, text, from, at)
  {
    var found := Find(pattern, text[from..]);
    forall j: nat | from <= j && OccursAt(pattern, text, j)
      ensures found.Some? && from + found.value <= j
    {
      NoneBeforeFound(pattern, text, from, j);
    }
    if found.Some? {
      FoundOccurs(pattern, text, from);
    }
  }

  /** The section runs from the first start marker to the first end marker behind that. */
  ghost predicate IsSection(m: Marks, readme: string, s: Section)
  {
    && FirstFrom(m.start, readme, 0, s.start) && s.body == s.start + |m.start|
    && FirstFrom(m.end, readme, s.body, s.end) && s.after == s.end + |m.end|
  }

  lemma SectionAtIsSection(m: Marks, readme: string, start: nat, s: Section)
    requires start + |m.start| <= |readme|
    ensures SectionAt(m, readme, start) == Some(s)
       <==> s.start == start && s.body == start + |m.start|
            && FirstFrom(m.end, readme, s.body, s.end) && s.after == s.end + |m.end|
  {
    var body := start + |m.start|;
    FindIsFirstFrom(m.end, readme, body, s.end);
    FindIsFirst(m.end, readme[body..], 0);
  }

  lemma FoundSectionIsSection(m: Marks, readme: string, s: Section)
    ensures FindSection(m, readme) == Some(s) <==> IsSection(m, readme, s)
  {
    assert readme[0..] == readme;
    FindIsFirstFrom(m.start, readme, 0, s.start);
    FindIsFirst(m.start, readme, 0);
    if Find(m.start, readme).Some? {
      SectionAtIsSection(m, readme, Find(m.start, readme).value, s);
    }
  }

  /** Between the last line feed before `at` and `at` there is nothing, or a carriage return. */
  ghost predicate StartsLineAt(text: string, at: nat)
  {
    exists k: nat :: OnlyReturnBetween(text, k, at) && (k == 0 || text[k - 1] == '\n')
  }

  /** Between `at` and the next line feed or the end there is nothing, or a carriage return. */
  ghost predicate EndsLineAt(text: string, at: nat)
  {
    exists k: nat :: OnlyReturnBetween(text, at, k) && (k == |text| || text[k] == '\n')
  }

  predicate OnlyReturnBetween(text: string, from: nat, to: nat)
  {
    from <= to <= |text| && (from == to || (from + 1 == to && text[from] == '\r'))
  }

  lemma LinePrefixMeaning(text: string, at: nat)
    requires at <= |text|
    ensures LinePrefix(text[..at]) <==> StartsLineAt(text, at)
  {
    if LinePrefix(text[..at]) {
      var k := if at == 0 || text[at - 1] == '\n' then at else at - 1;
      assert OnlyReturnBetween(text, k, at);
    }
  }

  lemma LineSuffixMeaning(text: string, at: nat)
    requires at <= |text|
    ensures LineSuffix(text[at..]) <==> EndsLineAt(text, at)
  {
    if LineSuffix(text[at..]) {
      var k := if at == |text| || text[at] == '\n' then at else at + 1;
      assert OnlyReturnBetween(text, at, k);
    }
  }

  /** Both markers have their lines to themselves. */
  ghost predicate MarkersFillLines(readme: string, s: Section)
  {
    && StartsLineAt(readme, s.start) && EndsLineAt(readme, s.body)
    && StartsLineAt(readme, s.end) && EndsLineAt(readme, s.after)
  }

  /** The heading occurs inside the section. */
  ghost predicate HeadingInside(m: Marks, readme: string, s: Section)
  {
    exists at: nat :: s.body <= at && at + |m.heading| <= s.end && OccursAt(m.heading, readme, at)
  }

  lemma OccursInSlice(pattern: string, text: string, i: nat, j: nat, at: nat)
    requires i <= j <= |text|
    ensures OccursAt(pattern, text[i..j], at) <==> i + at + |pattern| <= j && OccursAt(pattern, text, i + at)
  {
    if i + at + |pattern| <= j {
      SliceOfSlice(text, i, j, at, at + |pattern|);
    }
  }

  lemma HeadingFoundInside(m: Marks, readme: string, s: Section)
    requires s.body <= s.end <= |readme|
    ensures Find(m.heading, readme[s.body..s.end]).Some? <==> HeadingInside(m, readme, s)
  {
    var body, i, j := readme[s.body..s.end], s.body, s.end;
    if Find(m.heading, body).Some? {
      var at := Find(m.heading, body).value;
      FindIsFirst(m.heading, body, 0);
      OccursInSlice(m.heading, readme, i, j, at);
      assert OccursAt(m.heading, readme, i + at);
    }
    if at: nat :| i <= at && at + |m.heading| <= j && OccursAt(m.heading, readme, at) {
      OccursInSlice(m.heading, readme, i, j, at - i);
      FindIsFirst(m.heading, body, at - i);
    }
  }

  /** The card has one section, with its markers on lines of their own and its heading inside. */
  ghost predicate HasOneSection(m: Marks, readme: string)
    requires m.start != "" && m.end != "" && m.heading != ""
  {
    && Count(m.start, readme) == 1 && Count(m.end, readme) == 1 && Count(m.heading, readme) == 1
    && exists s :: IsSection(m, readme, s) && MarkersFillLines(readme, s) && HeadingInside(m, readme, s)
  }

  lemma RemovedExactlyWhen(m: Marks, readme: string)
    ensures RemoveSection(m, readme).Ok?
       <==> exists s :: IsSection(m, readme, s) && MarkersFillLines(readme, s) && HeadingInside(m, readme, s)
  {
    if s :| IsSection(m, readme, s) {
      FoundSectionIsSection(m, readme, s);
    }
    var found := FindSection(m, readme);
    if found.Some? {
      var s := found.value;
      FoundSectionIsSection(m, readme, s);
      forall other | IsSection(m, readme, other)
        ensures other == s
      {
        FoundSectionIsSection(m, readme, other);
      }
      LinePrefixMeaning(readme, s.start);
      LinePrefixMeaning(readme, s.end);
      LineSuffixMeaning(readme, s.body);
      LineSuffixMeaning(readme, s.after);
      HeadingFoundInside(m, readme, s);
    }
  }

  /** A card is accepted exactly when it has none of the marks, or one well-formed section; without
      markers the heading alone is what refuses it. */
  lemma AcceptedExactlyWhen(m: Marks, readme: string, section: string, newline: Newline)
    requires ValidMarks(m)
    ensures InstallSection(m, readme, section, newline).Ok? <==> Bare(m, readme) || HasOneSection(m, readme)
    ensures InstallSection(m, readme, section, newline) == Err(UnmarkedSection)
       <==> Find(m.start, readme).None? && Find(m.end, readme).None? && Find(m.heading, readme).Some?
  {
    ZeroCounts(m, readme);
    CountZero(m.start, readme);
    CountZero(m.end, readme);
    CountZero(m.heading, readme);
    RemovedExactlyWhen(m, readme);
  }

  /* ------------------------------------------------------------------- spacing */

  /** The section has one empty line before it: behind the text above the heading, stripped of its line
      endings, or at the end of the card, where only what is missing is added. */
  lemma SectionIsSetOff(m: Marks, base: string, section: string, newline: Newline)
    ensures var block := Block(m, section, newline);
            match FindLimitations(m.limitations, base)
            case Some(at) =>
              InsertSection(m, base, block, newline)
              == StripNewlines(base[..at]) + newline + newline + block + newline + base[at..]
            case None =>
              exists lines :: InsertSection(m, base, block, newline) == lines + block && SetsOff(base, lines, newline)
  {
    if FindLimitations(m.limitations, base).None? {
      var lines := base + Separator(base, newline);
      SeparatorIsLeast(base, newline);
      assert InsertSection(m, base, Block(m, section, newline), newline) == lines + Block(m, section, newline);
    }
  }

  /** The lines are the text with as many line endings as it takes for them to end in two. */
  predicate SetsOff(text: string, lines: string, newline: Newline)
  {
    && StartsWith(lines, text) && NewlineRun(lines[|text|..], newline)
    && EndsWith(lines, newline + newline)
    && (lines != text ==>
          |newline| <= |lines| && !EndsWith(lines[..|lines| - |newline|], newline + newline))
  }

  lemma SeparatorIsLeast(base: string, newline: Newline)
    ensures SetsOff(base, base + Separator(base, newline), newline)
  {
    var lines := base + Separator(base, newline);
    SeparatorMeaning(base, newline);
    assert lines[|base|..] == Separator(base, newline) && lines[0..|base|] == base;
    if EndsWith(base, newline) {
      assert lines != base ==> lines[..|lines| - |newline|] == base;
    } else {
      assert lines[..|lines| - |newline|] == base + newline;
      if EndsWith(base + newline, newline + newline) {
        LastOfTwo(base + newline, newline);
        EndsBeforeLast(base, newline);
      }
    }
  }

  lemma EndsBeforeLast(text: string, newline: string)
    requires EndsWith(text + newline, newline + newline)
    ensures EndsWith(text, newline)
  {
    var n := |newline|;
    assert (text + newline)[|text| - n..] == newline + newline;
    assert text[|text| - n..] == (text + newline)[|text| - n..][..n] == newline;
  }
}
