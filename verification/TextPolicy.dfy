/** The shared rule that decides which rows carry successful description text.

    The rule exists twice: as a Python predicate over one row and as a SQL
    expression over nullable columns.  The SQL expression is kept here as a
    syntax tree with a three-valued evaluator, and the two are proved to agree
    on every row.
 */
module TextPolicy {
  import opened Wrappers

  /* -------------------------------------------------------------- trimming */

  /** The code points that Python's `str.strip` removes. */
  predicate IsStripCharacter(c: char)
  {
    var point := c as int;
    || 9 <= point <= 13 || 28 <= point <= 32 || point == 133 || point == 160 || point == 5760
    || 8192 <= point < 8203 || point == 8232 || point == 8233 || point == 8239 || point == 8287 || point == 12288
  }

  /** The code points that the SQL trim is told to remove. */
  const STRIP_POINTS: set<int> := {
    9, 10, 11, 12, 13, 28, 29, 30, 31, 32, 133, 160, 5760,
    8192, 8193, 8194, 8195, 8196, 8197, 8198, 8199, 8200, 8201, 8202, 8232, 8233, 8239, 8287, 12288}

  /** SQL and Python remove the same characters. */
  lemma SqlTrimsWhatPythonStrips(c: char)
    ensures IsStripCharacter(c) <==> c as int in STRIP_POINTS
  {
  }

  function TrimLeft(text: string): string
  {
    if text != [] && IsStripCharacter(text[0]) then TrimLeft(text[1..]) else text
  }

  function TrimRight(text: string): string
  {
    if text != [] && IsStripCharacter(text[|text| - 1]) then TrimRight(text[..|text| - 1]) else text
  }

  function Trim(text: string): string
  {
    TrimRight(TrimLeft(text))
  }

  /** Neither end of `text` is white space. */
  predicate Trimmed(text: string)
  {
    text != [] ==> !IsStripCharacter(text[0]) && !IsStripCharacter(text[|text| - 1])
  }

  /** Everything before `i` and from `j` on is white space. */
  ghost predicate WhiteOutside(text: string, i: nat, j: nat)
    requires i <= j <= |text|
  {
    forall k | 0 <= k < i || j <= k < |text| :: IsStripCharacter(text[k])
  }

  lemma {:induction false} TrimLeftMeaning(text: string)
    ensures |TrimLeft(text)| <= |text| && TrimLeft(text) == text[|text| - |TrimLeft(text)|..]
    ensures forall i :: 0 <= i < |text| - |TrimLeft(text)| ==> IsStripCharacter(text[i])
    ensures TrimLeft(text) != [] ==> !IsStripCharacter(TrimLeft(text)[0])
  {
    if text != [] && IsStripCharacter(text[0]) {
      TrimLeftMeaning(text[1..]);
      var cut := |text[1..]| - |TrimLeft(text[1..])|;
      assert text[1..][cut..] == text[cut + 1..];
      assert forall i :: 0 <= i < cut ==> text[1..][i] == text[i + 1];
    }
  }

  lemma {:induction false} TrimRightMeaning(text: string)
    ensures |TrimRight(text)| <= |text| && TrimRight(text) == text[..|TrimRight(text)|]
    ensures forall i :: |TrimRight(text)| <= i < |text| ==> IsStripCharacter(text[i])
    ensures TrimRight(text) != [] ==> !IsStripCharacter(TrimRight(text)[|TrimRight(text)| - 1])
  {
    if text != [] && IsStripCharacter(text[|text| - 1]) {
      TrimRightMeaning(text[..|text| - 1]);
    }
  }

  /** Trimming removes exactly the white space at both ends. */
  lemma TrimMeaning(text: string)
    ensures Trimmed(Trim(text))
    ensures Trim(text) == text <==> Trimmed(text)
    ensures exists i, j :: 0 <= i <= j <= |text| && Trim(text) == text[i..j] && WhiteOutside(text, i, j)
  {
    var left := TrimLeft(text);
    TrimLeftMeaning(text);
    TrimRightMeaning(left);
    var i := |text| - |left|;
    var j := i + |Trim(text)|;
    assert Trim(text) == text[i..j];
    forall k | j <= k < |text|
      ensures IsStripCharacter(text[k])
    {
      assert left[k - i] == text[k];
    }
    assert WhiteOutside(text, i, j);
  }

  lemma TrimIdempotent(text: string)
    ensures Trim(Trim(text)) == Trim(text)
  {
    TrimMeaning(text);
    TrimMeaning(Trim(text));
  }

  /** Nothing but white space. */
  predicate Blank(text: string)
  {
    forall c | c in text :: IsStripCharacter(c)
  }

  /** `core` is `text` without the white space at its ends. */
  ghost predicate IsCoreOf(core: string, text: string)
  {
    && core != "" && Trimmed(core)
    && exists i, j :: 0 <= i <= j <= |text| && core == text[i..j] && WhiteOutside(text, i, j)
  }

  /* ------------------------------------------------------------------- rows */

  /** One localized entry; in a nullable list an entry may itself be null. */
  datatype Entry = Entry(key: Option<string>, value: Option<string>)

  datatype Text = Text(description: Option<string>, localized: Option<seq<Option<Entry>>>)

  /* -------------------------------------------------------- Python predicate */

  predicate IsTrimmedNonemptyText(value: Option<string>)
  {
    value.Some? && value.value != "" && value.value == Trim(value.value)
  }

  function TrimmedNonemptyText(value: Option<string>): (trimmed: Option<string>)
    ensures trimmed.Some? ==> IsTrimmedNonemptyText(trimmed)
    ensures IsTrimmedNonemptyText(value) ==> trimmed == value
  {
    if value.None? then None
    else
      TrimIdempotent(value.value);
      var trimmed := Trim(value.value);
      if trimmed == "" then None else Some(trimmed)
  }

  /** A text is unusable exactly when it is blank, and otherwise its core is stored. */
  lemma TrimmedNonemptyTextMeaning(text: string)
    ensures TrimmedNonemptyText(Some(text)).None? <==> Blank(text)
    ensures TrimmedNonemptyText(Some(text)).Some? ==> IsCoreOf(TrimmedNonemptyText(Some(text)).value, text)
  {
    TrimMeaning(text);
    var i, j :| 0 <= i <= j <= |text| && Trim(text) == text[i..j] && WhiteOutside(text, i, j);
    if Trim(text) != "" {
      assert text[i] == Trim(text)[0] && text[i] in text;
    }
  }

  /** The entry values, or None when an entry is not a mapping. */
  function LocalizedValues(localized: Option<seq<Option<Entry>>>): Option<seq<Option<string>>>
  {
    if localized.None? then Some([])
    else if exists i :: 0 <= i < |localized.value| && localized.value[i].None? then None
    else Some(seq(|localized.value|, i requires 0 <= i < |localized.value| => localized.value[i].value.value))
  }

  function ValidLocalizedValues(localized: Option<seq<Option<Entry>>>): Option<seq<Option<string>>>
  {
    var values := LocalizedValues(localized);
    if values.None? || exists i :: 0 <= i < |values.value| && !IsTrimmedNonemptyText(values.value[i])
    then None
    else values
  }

  predicate HasSuccessfulText(text: Text)
  {
    if text.description.Some? && !IsTrimmedNonemptyText(text.description) then false
    else
      var values := ValidLocalizedValues(text.localized);
      if values.None? then false
      else (text.description.Some? && text.description.value != "") || values.value != []
  }

  /* ---------------------------------------------------------- SQL expression */

  datatype Bool3 = True | False | Null

  function And3(a: Bool3, b: Bool3): Bool3
  {
    if a == False || b == False then False
    else if a == True && b == True then True
    else Null
  }

  function Not3(a: Bool3): Bool3
  {
    match a
    case True => False
    case False => True
    case Null => Null
  }

  function Or3(a: Bool3, b: Bool3): Bool3
  {
    Not3(And3(Not3(a), Not3(b)))
  }

  function Known(b: bool): Bool3
  {
    if b then True else False
  }

  datatype Term = Description | EntryValue | TrimOf(term: Term)

  datatype Sql =
    | IsNull(term: Term)
    | IsNotNull(term: Term)
    | LengthPositive(term: Term)
    | LengthZero(term: Term)
    | Equal(left: Term, right: Term)
    | Differs(left: Term, right: Term)
    | AndSql(first: Sql, second: Sql)
    | OrSql(first: Sql, second: Sql)
    | NotSql(condition: Sql)
    | ExistsEntry(condition: Sql)

  /** The value of a column term; `entry` is the value of the unnested entry in scope. */
  function TermValue(term: Term, text: Text, entry: Option<string>): Option<string>
  {
    match term
    case Description => text.description
    case EntryValue => entry
    case TrimOf(inner) =>
      var value := TermValue(inner, text, entry);
      if value.None? then None else Some(Trim(value.value))
  }

  /** `entry.value` of a null entry is null. */
  function EntryValueOf(entry: Option<Entry>): Option<string>
  {
    if entry.None? then None else entry.value.value
  }

  /** Unnesting a null list gives no entries. */
  function Unnest(text: Text): seq<Option<Entry>>
  {
    if text.localized.None? then [] else text.localized.value
  }

  ghost function Eval(sql: Sql, text: Text, entry: Option<string>): Bool3
  {
    match sql
    case IsNull(term) => Known(TermValue(term, text, entry).None?)
    case IsNotNull(term) => Known(TermValue(term, text, entry).Some?)
    case LengthPositive(term) =>
      var value := TermValue(term, text, entry);
      if value.None? then Null else Known(|value.value| > 0)
    case LengthZero(term) =>
      var value := TermValue(term, text, entry);
      if value.None? then Null else Known(|value.value| == 0)
    case Equal(left, right) =>
      var a, b := TermValue(left, text, entry), TermValue(right, text, entry);
      if a.None? || b.None? then Null else Known(a == b)
    case Differs(left, right) =>
      var a, b := TermValue(left, text, entry), TermValue(right, text, entry);
      if a.None? || b.None? then Null else Known(a != b)
    case AndSql(first, second) => And3(Eval(first, text, entry), Eval(second, text, entry))
    case OrSql(first, second) => Or3(Eval(first, text, entry), Eval(second, text, entry))
    case NotSql(condition) => Not3(Eval(condition, text, entry))
    case ExistsEntry(condition) =>
      Known(exists i :: 0 <= i < |Unnest(text)| && Eval(condition, text, EntryValueOf(Unnest(text)[i])) == True)
  }

  /** The term is present, not empty and equal to its own trim. */
  function UsableSql(term: Term): Sql
  {
    AndSql(AndSql(IsNotNull(term), LengthPositive(term)), Equal(term, TrimOf(term)))
  }

  function UnusableSql(term: Term): Sql
  {
    OrSql(OrSql(IsNull(term), LengthZero(term)), Differs(term, TrimOf(term)))
  }

  /** The expression that keeps rows with successful text. */
  function SuccessfulTextSql(): Sql
  {
    AndSql(
      AndSql(
        OrSql(UsableSql(Description), ExistsEntry(UsableSql(EntryValue))),
        OrSql(IsNull(Description), UsableSql(Description))),
      NotSql(ExistsEntry(UnusableSql(EntryValue))))
  }

  /** On one term the two SQL tests are opposite and never null, although their parts can be. */
  lemma UsableAgrees(term: Term, text: Text, scope: Option<string>)
    ensures Eval(UsableSql(term), text, scope) == Known(IsTrimmedNonemptyText(TermValue(term, text, scope)))
    ensures Eval(UnusableSql(term), text, scope) == Known(!IsTrimmedNonemptyText(TermValue(term, text, scope)))
  {
    assert Eval(AndSql(IsNotNull(term), LengthPositive(term)), text, scope)
        == And3(Eval(IsNotNull(term), text, scope), Eval(LengthPositive(term), text, scope));
    assert Eval(OrSql(IsNull(term), LengthZero(term)), text, scope)
        == Or3(Eval(IsNull(term), text, scope), Eval(LengthZero(term), text, scope));
    var value := TermValue(term, text, scope);
    assert TermValue(TrimOf(term), text, scope) == if value.None? then None else Some(Trim(value.value));
    assert Eval(Differs(term, TrimOf(term)), text, scope)
        == if value.None? then Null else Known(value.value != Trim(value.value));
    assert Eval(Equal(term, TrimOf(term)), text, scope)
        == if value.None? then Null else Known(value.value == Trim(value.value));
  }

  /** The SQL expression never evaluates to NULL and agrees with the Python predicate. */
  lemma SqlAgreesWithPython(text: Text, scope: Option<string>)
    ensures Eval(SuccessfulTextSql(), text, scope) == Known(HasSuccessfulText(text))
  {
    UsableAgrees(Description, text, scope);
    ListAgrees(text, scope);
    var usable, someUsable := Eval(UsableSql(Description), text, scope), ExistsEntry(UsableSql(EntryValue));
    var present := OrSql(UsableSql(Description), someUsable);
    var absentOrUsable := OrSql(IsNull(Description), UsableSql(Description));
    assert Eval(present, text, scope) == Or3(usable, Eval(someUsable, text, scope));
    assert Eval(absentOrUsable, text, scope) == Or3(Known(text.description.None?), usable);
    assert Eval(AndSql(present, absentOrUsable), text, scope)
        == And3(Eval(present, text, scope), Eval(absentOrUsable, text, scope));
  }

  /** The two subqueries over the list: none is unusable when Python accepts it, and then some is
      usable unless it is empty. */
  lemma ListAgrees(text: Text, scope: Option<string>)
    ensures var values := ValidLocalizedValues(text.localized);
            && Eval(NotSql(ExistsEntry(UnusableSql(EntryValue))), text, scope) == Known(values.Some?)
            && (values.Some? ==> Eval(ExistsEntry(UsableSql(EntryValue)), text, scope) == Known(values.value != []))
            && (values.None? ==> Eval(ExistsEntry(UsableSql(EntryValue)), text, scope) != Null)
  {
    var entries := Unnest(text);
    forall i | 0 <= i < |entries|
      ensures Eval(UsableSql(EntryValue), text, EntryValueOf(entries[i]))
           == Known(IsTrimmedNonemptyText(EntryValueOf(entries[i])))
      ensures Eval(UnusableSql(EntryValue), text, EntryValueOf(entries[i]))
           == Known(!IsTrimmedNonemptyText(EntryValueOf(entries[i])))
    {
      UsableAgrees(EntryValue, text, EntryValueOf(entries[i]));
    }
    LocalizedAgrees(text);
    if entries != [] && ValidLocalizedValues(text.localized).Some? {
      assert IsTrimmedNonemptyText(EntryValueOf(entries[0]));
    }
  }

  /** Python rejects the localized list exactly when some unnested value is unusable. */
  lemma LocalizedAgrees(text: Text)
    ensures var entries := Unnest(text);
            var values := ValidLocalizedValues(text.localized);
            && (values.None? <==> exists i :: 0 <= i < |entries| && !IsTrimmedNonemptyText(EntryValueOf(entries[i])))
            && (values.Some? ==> |values.value| == |entries|)
  {
    var entries := Unnest(text);
    var values := LocalizedValues(text.localized);
    if values.Some? {
      assert forall i :: 0 <= i < |entries| ==> values.value[i] == EntryValueOf(entries[i]);
    } else {
      var i :| 0 <= i < |entries| && entries[i].None?;
      assert !IsTrimmedNonemptyText(EntryValueOf(entries[i]));
    }
  }
}
