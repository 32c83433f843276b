/** Finding and counting substrings, as `str.find`, `str.count` and a literal regular expression do. */
module Substrings {
  import opened Wrappers

  predicate OccursAt(pattern: string, text: string, at: int)
  {
    0 <= at && at + |pattern| <= |text| && text[at..at + |pattern|] == pattern
  }

  predicate StartsWith(text: string, pattern: string)
  {
    OccursAt(pattern, text, 0)
  }

  predicate EndsWith(text: string, pattern: string)
  {
    OccursAt(pattern, text, |text| - |pattern|)
  }

  /** The first place at which the pattern occurs. */
  function Find(pattern: string, text: string): Option<nat>
  {
    if StartsWith(text, pattern) then Some(0)
    else if text == "" then None
    else match Find(pattern, text[1..])
      case None => None
      case Some(at) => Some(at + 1)
  }

  /** How often the pattern occurs without overlaps, from left to right. */
  function Count(pattern: string, text: string): nat
    requires pattern != ""
    decreases |text|
  {
    if StartsWith(text, pattern) then 1 + Count(pattern, text[|pattern|..])
    else if text == "" then 0
    else Count(pattern, text[1..])
  }

  /** The place found has the pattern, and no earlier place has. */
  lemma {:induction false} FindIsFirst(pattern: string, text: string, j: nat)
    ensures OccursAt(pattern, text, j) ==> Find(pattern, text).Some? && Find(pattern, text).value <= j
    ensures Find(pattern, text).Some? ==> OccursAt(pattern, text, Find(pattern, text).value)
  {
    if !StartsWith(text, pattern) && text != "" {
      if j > 0 {
        OccursInTail(pattern, text, j);
      }
      FindIsFirst(pattern, text[1..], if j > 0 then j - 1 else 0);
      if Find(pattern, text[1..]).Some? {
        OccursInTail(pattern, text, Find(pattern, text[1..]).value + 1);
      }
    }
  }

  lemma OccursInTail(pattern: string, text: string, j: nat)
    requires text != "" && 1 <= j
    ensures OccursAt(pattern, text, j) <==> OccursAt(pattern, text[1..], j - 1)
  {
    if j + |pattern| <= |text| {
      assert text[1..][j - 1..j - 1 + |pattern|] == text[j..j + |pattern|];
    }
  }

  /** An occurrence never spans a character that the pattern does not have. */
  lemma OccursOnOneSide(pattern: string, a: string, c: char, b: string, j: int)
    requires c !in pattern && pattern != ""
    ensures OccursAt(pattern, a + [c] + b, j) <==> OccursAt(pattern, a, j) || OccursAt(pattern, b, j - |a| - 1)
  {
    var text, n := a + [c] + b, |pattern|;
    if 0 <= j && j + n <= |a| {
      assert text[j..j + n] == a[j..j + n];
    } else if j > |a| && j + n <= |text| {
      assert text[j..j + n] == b[j - |a| - 1..j - |a| - 1 + n];
    } else if 0 <= j && j + n <= |text| {
      assert text[j..j + n][|a| - j] == c;
    }
  }

  lemma {:induction false} FindOnOneSide(pattern: string, a: string, c: char, b: string)
    requires c !in pattern && pattern != ""
    ensures Find(pattern, a + [c] + b)
         == if Find(pattern, a).Some? then Find(pattern, a)
            else if Find(pattern, b).Some? then Some(|a| + 1 + Find(pattern, b).value)
            else None
  {
    var text := a + [c] + b;
    OccursOnOneSide(pattern, a, c, b, 0);
    if a == "" {
      assert text[1..] == b;
    } else if !StartsWith(text, pattern) {
      FindOnOneSide(pattern, a[1..], c, b);
      assert text[1..] == a[1..] + [c] + b;
    }
  }

  lemma TailOfJoined(a: string, c: char, b: string, k: nat)
    requires k <= |a|
    ensures (a + [c] + b)[k..] == a[k..] + [c] + b
  {
  }

  /** Counts add up over a character that the pattern does not have. */
  lemma {:induction false} CountOnBothSides(pattern: string, a: string, c: char, b: string)
    requires c !in pattern && pattern != ""
    ensures Count(pattern, a + [c] + b) == Count(pattern, a) + Count(pattern, b)
    decreases |a|
  {
    var text := a + [c] + b;
    OccursOnOneSide(pattern, a, c, b, 0);
    if a == "" {
      assert text[1..] == b;
    } else {
      var k := if StartsWith(a, pattern) then |pattern| else 1;
      CountOnBothSides(pattern, a[k..], c, b);
      TailOfJoined(a, c, b, k);
    }
  }

  /** The count is zero exactly when the pattern does not occur. */
  lemma {:induction false} CountZero(pattern: string, text: string)
    requires pattern != ""
    ensures Count(pattern, text) == 0 <==> Find(pattern, text).None?
  {
    if !StartsWith(text, pattern) && text != "" {
      CountZero(pattern, text[1..]);
    }
  }

  lemma EmptyText(pattern: string)
    requires pattern != ""
    ensures Find(pattern, "").None? && Count(pattern, "") == 0
  {
  }

  /** The same as `FindOnOneSide` where nothing is on the left. */
  lemma FindOnTheRight(pattern: string, a: string, c: char, b: string)
    requires c !in pattern && pattern != "" && Find(pattern, a).None? && Find(pattern, b).Some?
    ensures Find(pattern, a + [c] + b) == Some(|a| + 1 + Find(pattern, b).value)
  {
    FindOnOneSide(pattern, a, c, b);
  }

  /** None of the separator's characters are in the pattern. */
  predicate Separates(separator: string, pattern: string)
  {
    separator != "" && forall c | c in separator :: c !in pattern
  }

  lemma JoinFirst(a: string, separator: string, b: string)
    requires separator != ""
    ensures a + separator + b == a + [separator[0]] + (separator[1..] + b)
    ensures separator[1..] == "" ==> separator[1..] + b == b
    ensures separator[1..] != "" ==> separator[1..] + b == "" + separator[1..] + b
  {
  }

  lemma {:induction false} FindOverSeparator(pattern: string, a: string, separator: string, b: string)
    requires pattern != "" && Separates(separator, pattern) && Find(pattern, a).None? && Find(pattern, b).Some?
    ensures Find(pattern, a + separator + b) == Some(|a| + |separator| + Find(pattern, b).value)
    decreases |separator|
  {
    var rest := separator[1..];
    JoinFirst(a, separator, b);
    if rest != "" {
      EmptyText(pattern);
      FindOverSeparator(pattern, "", rest, b);
    }
    FindOnTheRight(pattern, a, separator[0], rest + b);
  }

  lemma {:induction false} CountOverSeparator(pattern: string, a: string, separator: string, b: string)
    requires pattern != "" && Separates(separator, pattern)
    ensures Count(pattern, a + separator + b) == Count(pattern, a) + Count(pattern, b)
    decreases |separator|
  {
    var rest := separator[1..];
    JoinFirst(a, separator, b);
    if rest != "" {
      EmptyText(pattern);
      CountOverSeparator(pattern, "", rest, b);
    }
    CountOnBothSides(pattern, a, separator[0], rest + b);
  }
}
