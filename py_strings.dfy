/**
 * The Python string operations the program relies on, over `seq<char>`:
 * the substring test `needle in s`, `s.endswith(suffix)`, `s.lower()` and
 * `s.replace(pattern, "")`.
 */
module PyStrings {

  predicate StartsWith(s: string, prefix: string) {
    |prefix| <= |s| && s[..|prefix|] == prefix
  }

  /** `s.endswith(suffix)` */
  predicate EndsWith(s: string, suffix: string) {
    |suffix| <= |s| && s[|s| - |suffix|..] == suffix
  }

  /** `needle` starts at position `i` of `s` */
  predicate OccursAt(s: string, needle: string, i: int) {
    0 <= i <= |s| && StartsWith(s[i..], needle)
  }

  /** `needle in s`: some position of `s` starts with `needle` (the empty needle is in every string) */
  predicate Contains(s: string, needle: string)
    decreases |s|
  {
    StartsWith(s, needle) || (|s| > 0 && Contains(s[1..], needle))
  }

  /** `c.lower()` for the ASCII letters; every other character is left as it is */
  function LowerChar(c: char): char {
    if 'A' <= c <= 'Z' then (c as int + 32) as char else c
  }

  /** `s.lower()` */
  function Lower(s: string): string {
    seq(|s|, i requires 0 <= i < |s| => LowerChar(s[i]))
  }

  /**
   * `s.replace(pattern, "")`: scanning from the left, every non-overlapping
   * occurrence of `pattern` is deleted. Python leaves `s` unchanged when
   * `pattern` is empty.
   */
  function RemoveAll(s: string, pattern: string): string
    decreases |s|
  {
    if |pattern| == 0 || |s| < |pattern| then s
    else if StartsWith(s, pattern) then RemoveAll(s[|pattern|..], pattern)
    else [s[0]] + RemoveAll(s[1..], pattern)
  }

  /** Deleting never lengthens the text. */
  lemma {:induction false} RemoveAllNoLonger(s: string, pattern: string)
    ensures |RemoveAll(s, pattern)| <= |s|
    decreases |s|
  {
    if |pattern| == 0 || |s| < |pattern| {
    } else if StartsWith(s, pattern) {
      RemoveAllNoLonger(s[|pattern|..], pattern);
    } else {
      RemoveAllNoLonger(s[1..], pattern);
    }
  }

  /** An occurrence at any position makes the recursive substring test succeed. */
  lemma {:induction false} OccursAtContains(s: string, needle: string, i: int)
    requires OccursAt(s, needle, i)
    ensures Contains(s, needle)
    decreases i
  {
    if i == 0 {
      assert s[0..] == s;
    } else {
      assert s[1..][i - 1..] == s[i..];
      OccursAtContains(s[1..], needle, i - 1);
    }
  }

  /** A successful substring test has a position where `needle` occurs. */
  lemma {:induction false} ContainsOccursAt(s: string, needle: string)
    requires Contains(s, needle)
    ensures exists i :: OccursAt(s, needle, i)
    decreases |s|
  {
    if StartsWith(s, needle) {
      assert s[0..] == s;
      assert OccursAt(s, needle, 0);
    } else {
      ContainsOccursAt(s[1..], needle);
      var i :| OccursAt(s[1..], needle, i);
      assert s[1..][i..] == s[i + 1..];
      assert OccursAt(s, needle, i + 1);
    }
  }

  /** When `pattern` does not occur, `s.replace(pattern, "")` is `s` itself. */
  lemma {:induction false} RemoveAllAbsent(s: string, pattern: string)
    requires !Contains(s, pattern)
    ensures RemoveAll(s, pattern) == s
    decreases |s|
  {
    if |pattern| > 0 && |s| >= |pattern| {
      RemoveAllAbsent(s[1..], pattern);
    }
  }

  /** The recursive substring test agrees with "`needle` occurs at some position of `s`". */
  lemma ContainsIffOccurs(s: string, needle: string)
    ensures Contains(s, needle) <==> exists i :: OccursAt(s, needle, i)
  {
    if Contains(s, needle) {
      ContainsOccursAt(s, needle);
    }
    forall i | OccursAt(s, needle, i) ensures Contains(s, needle) {
      OccursAtContains(s, needle, i);
    }
  }

  /** A non-empty needle can only occur in `s` if its first character does. */
  lemma {:induction false} ContainsFirstChar(s: string, needle: string)
    requires |needle| > 0 && needle[0] !in s
    ensures !Contains(s, needle)
    decreases |s|
  {
    if |s| > 0 {
      if |needle| <= |s| {
        assert s[..|needle|][0] == s[0];
      }
      assert forall c :: c in s[1..] ==> c in s;
      ContainsFirstChar(s[1..], needle);
    }
  }

  /** Where `pattern` does not start, the first character is kept. */
  lemma RemoveAllSkip(s: string, pattern: string)
    requires 0 < |pattern| <= |s| && !StartsWith(s, pattern)
    ensures RemoveAll(s, pattern) == [s[0]] + RemoveAll(s[1..], pattern)
  {
  }

  /** `needle` occurs at no position of `s` before `i`. */
  predicate NoOccurrenceBefore(s: string, needle: string, i: int) {
    forall j :: 0 <= j < i ==> !OccursAt(s, needle, j)
  }

  /**
   * Removal works from the leftmost occurrence: when `pattern` first occurs
   * at position `i`, everything before it is kept, the occurrence is
   * deleted, and the scan resumes right after it.
   */
  lemma {:induction false} RemoveAllLeftmost(s: string, pattern: string, i: nat)
    requires |pattern| > 0 && OccursAt(s, pattern, i)
    requires NoOccurrenceBefore(s, pattern, i)
    ensures i + |pattern| <= |s|
    ensures RemoveAll(s, pattern) == s[..i] + RemoveAll(s[i + |pattern|..], pattern)
    decreases i
  {
    if i == 0 {
      assert s[0..] == s;
      assert s[..i] == [];
    } else {
      var t := s[1..];
      ShiftOccurrences(s, pattern, i);
      RemoveAllLeftmost(t, pattern, i - 1);
      assert t[i - 1 + |pattern|..] == s[i + |pattern|..];
      KeptBeforeOccurrence(s, t, pattern, i, RemoveAll(t[i - 1 + |pattern|..], pattern));
    }
  }

  /** One step of the scan before the first occurrence: the first character is kept. */
  lemma KeptBeforeOccurrence(s: string, t: string, pattern: string, i: nat, rest: string)
    requires 0 < i && 0 < |pattern| && i + |pattern| <= |s| && !StartsWith(s, pattern)
    requires t == s[1..] && RemoveAll(t, pattern) == t[..i - 1] + rest
    ensures RemoveAll(s, pattern) == s[..i] + rest
  {
    RemoveAllSkip(s, pattern);
    assert [s[0]] + t[..i - 1] == s[..i];
    ConcatAssoc([s[0]], t[..i - 1], rest);
  }

  lemma ConcatAssoc(a: string, b: string, c: string)
    ensures a + (b + c) == (a + b) + c
  {
  }

  /** Dropping the first character moves every later occurrence one place to the left. */
  lemma ShiftOccurrences(s: string, pattern: string, i: nat)
    requires 0 < i && OccursAt(s, pattern, i)
    requires NoOccurrenceBefore(s, pattern, i)
    ensures !StartsWith(s, pattern)
    ensures OccursAt(s[1..], pattern, i - 1)
    ensures NoOccurrenceBefore(s[1..], pattern, i - 1)
  {
    assert s[0..] == s;
    assert !OccursAt(s, pattern, 0);
    assert s[1..][i - 1..] == s[i..];
    forall j | 0 <= j < i - 1 ensures !OccursAt(s[1..], pattern, j) {
      assert s[1..][j..] == s[j + 1..];
      assert !OccursAt(s, pattern, j + 1);
    }
  }

  /** Text that cannot start an occurrence is kept, and the occurrence after it is deleted. */
  lemma RemoveAllPlainPrefix(before: string, pattern: string, after: string)
    requires |pattern| > 0 && pattern[0] !in before
    ensures RemoveAll(before + pattern + after, pattern) == before + RemoveAll(after, pattern)
  {
    var s := before + pattern + after;
    var i := |before|;
    assert s[i..][..|pattern|] == pattern;
    forall j | 0 <= j < i ensures !OccursAt(s, pattern, j) {
      assert s[j..][0] == before[j];
    }
    RemoveAllLeftmost(s, pattern, i);
    assert s[..i] == before;
    assert s[i + |pattern|..] == after;
  }

  /** Deleting a leading occurrence leaves the rest when the pattern does not recur. */
  lemma LeadingOccurrenceRemoved(pattern: string, rest: string)
    requires |pattern| > 0 && !Contains(rest, pattern)
    ensures RemoveAll(pattern + rest, pattern) == rest
  {
    var s := pattern + rest;
    assert s[0..] == s && s[..|pattern|] == pattern;
    RemoveAllLeftmost(s, pattern, 0);
    assert s[|pattern|..] == rest;
  }
}
