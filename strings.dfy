/**
 * The handful of Rust `str` operations the backend relies on: prefix and
 * suffix tests, searching for a pattern, `split(..).last()`, `splitn(2, ..)`,
 * `replace` and `trim_start_matches`.  Strings are sequences of characters.
 */
module Strings {
  import opened Wrappers

  /** `s.starts_with(p)` */
  predicate StartsWith(s: string, p: string) {
    |p| <= |s| && s[..|p|] == p
  }

  /** `s.ends_with(p)` */
  predicate EndsWith(s: string, p: string) {
    |p| <= |s| && s[|s| - |p|..] == p
  }

  /** The pattern `pat` occurs in `s` starting at position `i`. */
  predicate OccursAt(s: string, pat: string, i: nat) {
    i + |pat| <= |s| && s[i..i + |pat|] == pat
  }

  /** The first position at or after `i` where `pat` occurs. */
  function FindFrom(s: string, pat: string, i: nat): (r: Option<nat>)
    requires i <= |s|
    ensures r.Some? ==> i <= r.value && OccursAt(s, pat, r.value)
    ensures r.Some? ==> forall j :: i <= j < r.value ==> !OccursAt(s, pat, j)
    ensures r.None? ==> forall j :: i <= j <= |s| ==> !OccursAt(s, pat, j)
    decreases |s| - i
  {
    if OccursAt(s, pat, i) then Some(i)
    else if i == |s| then None
    else FindFrom(s, pat, i + 1)
  }

  /** `s.find(pat)`: the first position where `pat` occurs in `s`. */
  function Find(s: string, pat: string): Option<nat> {
    FindFrom(s, pat, 0)
  }

  /**
   * `s.replace(from, to)`: every non-overlapping occurrence of `from`,
   * taken from left to right, is replaced by `to`.
   */
  function Replace(s: string, from: string, to: string): string
    requires |from| > 0
    decreases |s|
  {
    match Find(s, from)
    case None => s
    case Some(i) => s[..i] + to + Replace(s[i + |from|..], from, to)
  }

  /**
   * `s.split(pat).last()`: the piece after the last separator found when `s`
   * is cut at the non-overlapping occurrences of `pat`, from left to right;
   * the whole of `s` when `pat` does not occur.
   */
  function SplitLast(s: string, pat: string): (r: string)
    requires |pat| > 0
    ensures EndsWith(s, r)
    ensures Find(r, pat).None?
    ensures Find(s, pat).None? ==> r == s
    ensures Find(s, pat).Some? ==> EndsWith(s, pat + r)
    decreases |s|
  {
    match Find(s, pat)
    case None => s
    case Some(i) =>
      var r := SplitLast(s[i + |pat|..], pat);
      SplitLastStep(s, pat, i, r);
      r
  }

  /**
   * The step of SplitLast: when `r` is the whole text after an occurrence of
   * `pat` at `i`, or follows a later occurrence, it follows an occurrence in `s`.
   */
  lemma SplitLastStep(s: string, pat: string, i: nat, r: string)
    requires OccursAt(s, pat, i)
    requires r == s[i + |pat|..] || EndsWith(s[i + |pat|..], pat + r)
    ensures EndsWith(s, r) && EndsWith(s, pat + r)
  {
    var rest := s[i + |pat|..];
    if r == rest {
      assert s[i..] == s[i..i + |pat|] + rest;
      SuffixOfRest(s, i, pat + r);
    } else {
      SuffixOfRest(s, i + |pat|, pat + r);
    }
    assert (pat + r)[|pat|..] == r;
    assert s[|s| - |r|..] == s[|s| - |pat + r|..][|pat|..];
  }

  /** A suffix of a tail of `s` is a suffix of `s`. */
  lemma SuffixOfRest(s: string, k: nat, t: string)
    requires k <= |s| && EndsWith(s[k..], t)
    ensures EndsWith(s, t)
  {
    assert s[|s| - |t|..] == s[k..][|s[k..]| - |t|..];
  }

  /** `s.splitn(2, pat).nth(1)`: the text after the first occurrence of `pat`. */
  function AfterFirst(s: string, pat: string): (r: Option<string>)
    ensures r.None? <==> Find(s, pat).None?
    ensures r.Some? ==> exists i: nat :: OccursAt(s, pat, i) && (forall j :: 0 <= j < i ==> !OccursAt(s, pat, j))
                                         && r.value == s[i + |pat|..]
  {
    match Find(s, pat)
    case None => None
    case Some(i) => Some(s[i + |pat|..])
  }

  /** `s.trim_start_matches(c)`: all leading copies of `c` removed. */
  function TrimStart(s: string, c: char): (r: string)
    ensures EndsWith(s, r)
    ensures r == [] || r[0] != c
    ensures forall k :: 0 <= k < |s| - |r| ==> s[k] == c
    decreases |s|
  {
    if s != [] && s[0] == c then
      var r := TrimStart(s[1..], c);
      assert s[|s| - |r|..] == s[1..][|s[1..]| - |r|..];
      r
    else s
  }

  /** The position of the last `c` in `s`. */
  function LastIndexOf(s: string, c: char): (r: Option<nat>)
    ensures r.Some? ==> r.value < |s| && s[r.value] == c
    ensures r.Some? ==> forall k :: r.value < k < |s| ==> s[k] != c
    ensures r.None? ==> c !in s
    decreases |s|
  {
    if s == [] then None
    else if s[|s| - 1] == c then Some(|s| - 1)
    else LastIndexOf(s[..|s| - 1], c)
  }

  /** A one-character pattern occurs exactly where that character stands. */
  lemma OccursAtChar(s: string, c: char, i: nat)
    ensures OccursAt(s, [c], i) <==> i < |s| && s[i] == c
  {
    if i < |s| {
      assert s[i..i + 1] == [s[i]];
    }
  }

  /** Replacing a character by text that does not contain it removes it entirely. */
  lemma {:induction false} ReplaceRemovesChar(s: string, c: char, to: string)
    requires c !in to
    ensures c !in Replace(s, [c], to)
    decreases |s|
  {
    match Find(s, [c])
    case None =>
      forall k | 0 <= k < |s| ensures s[k] != c {
        OccursAtChar(s, c, k);
      }
    case Some(i) =>
      forall k | 0 <= k < i ensures s[k] != c {
        OccursAtChar(s, c, k);
      }
      ReplaceRemovesChar(s[i + 1..], c, to);
      assert c !in s[..i];
  }

  /** `replace` leaves text in which the pattern does not occur untouched. */
  lemma ReplaceWithoutOccurrence(s: string, from: string, to: string)
    requires |from| > 0
    requires forall i :: 0 <= i <= |s| ==> !OccursAt(s, from, i)
    ensures Replace(s, from, to) == s
  {
  }

  /** A pattern one of whose characters is absent from `s` does not occur in `s`. */
  lemma NoOccurrenceWithoutChar(s: string, pat: string, k: nat)
    requires k < |pat| && pat[k] !in s
    ensures forall i :: 0 <= i <= |s| ==> !OccursAt(s, pat, i)
  {
    forall i | 0 <= i <= |s| ensures !OccursAt(s, pat, i) {
      if i + |pat| <= |s| {
        assert s[i..i + |pat|][k] == s[i + k];
      }
    }
  }

  /** Text that starts with the pattern, and holds no second occurrence, splits off what follows it. */
  lemma SplitLastAfterPattern(pat: string, rest: string)
    requires |pat| > 0 && pat[0] !in rest
    ensures SplitLast(pat + rest, pat) == rest
  {
    var s := pat + rest;
    assert OccursAt(s, pat, 0) by {
      assert s[..|pat|] == pat;
    }
    assert s[|pat|..] == rest;
    NoOccurrenceWithoutChar(rest, pat, 0);
  }

  /** An occurrence with none before it is the one `FindFrom` reports. */
  lemma {:induction false} FindFromFirst(s: string, pat: string, start: nat, i: nat)
    requires start <= i <= |s| && OccursAt(s, pat, i)
    requires forall j :: start <= j < i ==> !OccursAt(s, pat, j)
    ensures FindFrom(s, pat, start) == Some(i)
    decreases i - start
  {
    if start < i {
      FindFromFirst(s, pat, start + 1, i);
    }
  }

  /** Appending text keeps the first occurrence of a pattern that lies wholly inside the original. */
  lemma {:induction false} FindExtends(s: string, t: string, pat: string, i: nat)
    requires Find(s, pat) == Some(i)
    ensures Find(s + t, pat) == Some(i)
  {
    var st := s + t;
    assert OccursAt(st, pat, i) by {
      assert st[i..i + |pat|] == s[i..i + |pat|];
    }
    forall j | 0 <= j < i ensures !OccursAt(st, pat, j) {
      assert !OccursAt(s, pat, j);
      assert st[j..j + |pat|] == s[j..j + |pat|];
    }
    FindFromFirst(st, pat, 0, i);
  }

  /** Every character of a suffix is a character of the whole. */
  lemma SuffixChars(s: string, r: string, c: char)
    requires EndsWith(s, r) && c in r
    ensures c in s
  {
    var k :| 0 <= k < |r| && r[k] == c;
    assert s[|s| - |r| + k] == c;
  }
}
