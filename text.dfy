/**
 * Character classes and string helpers used by several of the modelled programs:
 * whitespace stripping (Python's `str.strip`, JavaScript's `String.prototype.trim`),
 * ASCII lower-casing and the substring test (Python's `in`, JavaScript's `includes`).
 * Only the ASCII repertoire is modelled.
 */
module Text {

  /** The two languages differ in which ASCII characters are whitespace. */
  datatype Language = Python | JavaScript

  /**
   * ASCII whitespace: tab, line feed, vertical tab, form feed, carriage return and
   * space in both languages (`str.isspace`, `\s`, `trim`); Python also counts the
   * four separator characters U+001C to U+001F.
   */
  predicate IsSpace(lang: Language, c: char) {
    c == ' ' || '\t' <= c <= '\r' || (lang == Python && '\U{001C}' <= c <= '\U{001F}')
  }

  /** The file, group, record and unit separators are whitespace to Python only. */
  lemma SeparatorsAreSpaceInPython(c: char)
    requires '\U{001C}' <= c <= '\U{001F}'
    ensures IsSpace(Python, c) && !IsSpace(JavaScript, c)
  {
  }

  predicate IsDigit(c: char) {
    '0' <= c <= '9'
  }

  predicate IsUpper(c: char) {
    'A' <= c <= 'Z'
  }

  predicate IsLetter(c: char) {
    IsUpper(c) || 'a' <= c <= 'z'
  }

  predicate IsAlnum(c: char) {
    IsLetter(c) || IsDigit(c)
  }

  /** True iff every character of `s` is whitespace (the empty string included). */
  predicate IsBlank(lang: Language, s: string) {
    forall i :: 0 <= i < |s| ==> IsSpace(lang, s[i])
  }

  function Lower(c: char): char {
    if IsUpper(c) then (c as int + 32) as char else c
  }

  /**
   * ASCII lower-casing: the result has no capital letter, and every character
   * that is not a capital letter stays where it was.
   */
  function ToLower(s: string): (r: string)
    ensures |r| == |s|
    ensures forall i :: 0 <= i < |s| ==> !IsUpper(r[i])
    ensures forall i :: 0 <= i < |s| && !IsUpper(s[i]) ==> r[i] == s[i]
    ensures forall i :: 0 <= i < |s| && IsUpper(s[i]) ==> IsLetter(r[i]) && r[i] != s[i]
  {
    seq(|s|, i requires 0 <= i < |s| => Lower(s[i]))
  }

  /** Lower-casing twice is lower-casing once. */
  lemma ToLowerIdempotent(s: string)
    ensures ToLower(ToLower(s)) == ToLower(s)
  {
  }

  /** Number of whitespace characters at the start of `s`. */
  function LeadingSpace(lang: Language, s: string): (n: nat)
    ensures n <= |s|
    ensures forall k :: 0 <= k < n ==> IsSpace(lang, s[k])
    ensures n == |s| || !IsSpace(lang, s[n])
  {
    if s == [] || !IsSpace(lang, s[0]) then 0 else 1 + LeadingSpace(lang, s[1..])
  }

  /** Length of `s` without the whitespace at its end. */
  function TrailingStart(lang: Language, s: string): (n: nat)
    ensures n <= |s|
    ensures forall k :: n <= k < |s| ==> IsSpace(lang, s[k])
    ensures n == 0 || !IsSpace(lang, s[n - 1])
  {
    if s == [] || !IsSpace(lang, s[|s| - 1]) then |s| else TrailingStart(lang, s[..|s| - 1])
  }

  /** Strips whitespace from both ends. */
  function Trim(lang: Language, s: string): string {
    var i := LeadingSpace(lang, s);
    if i == |s| then [] else s[i..TrailingStart(lang, s)]
  }

  /** The stripped string is empty exactly when the input is all whitespace. */
  lemma TrimEmptyIffBlank(lang: Language, s: string)
    ensures Trim(lang, s) == [] <==> IsBlank(lang, s)
  {
    var i := LeadingSpace(lang, s);
    if i < |s| {
      assert TrailingStart(lang, s) > i;
    }
  }

  /** The stripped string starts and ends with a non-space. */
  lemma TrimEnds(lang: Language, s: string)
    ensures Trim(lang, s) == [] || (!IsSpace(lang, Trim(lang, s)[0]) && !IsSpace(lang, Trim(lang, s)[|Trim(lang, s)| - 1]))
  {
    var i, j := LeadingSpace(lang, s), TrailingStart(lang, s);
    if i < |s| {
      assert j > i;
      var u := s[i..j];
      assert u[0] == s[i] && u[|u| - 1] == s[j - 1];
    }
  }

  /** Stripping a stripped string changes nothing. */
  lemma TrimIdempotent(lang: Language, s: string)
    ensures Trim(lang, Trim(lang, s)) == Trim(lang, s)
  {
    var u := Trim(lang, s);
    TrimEnds(lang, s);
    if u != [] {
      assert LeadingSpace(lang, u) == 0 && TrailingStart(lang, u) == |u|;
      assert u[0..|u|] == u;
    }
  }

  /** `needle` occurs in `hay` as a contiguous slice. */
  function Contains(hay: string, needle: string): bool
    decreases |hay|
  {
    needle <= hay || (hay != [] && Contains(hay[1..], needle))
  }

  /** An occurrence of `needle` in `hay` starting at `i`. */
  ghost predicate OccursAt(hay: string, needle: string, i: int) {
    0 <= i && i + |needle| <= |hay| && hay[i..i + |needle|] == needle
  }

  /** `Contains` is the substring test: some position of `hay` starts a copy of `needle`. */
  lemma {:induction false} ContainsIff(hay: string, needle: string)
    ensures Contains(hay, needle) <==> exists i :: OccursAt(hay, needle, i)
    decreases |hay|
  {
    if needle <= hay {
      assert OccursAt(hay, needle, 0);
    } else if hay != [] {
      ContainsIff(hay[1..], needle);
      assert OccursAt(hay, needle, 0) <==> needle <= hay;
      forall i | 0 < i
        ensures OccursAt(hay, needle, i) <==> OccursAt(hay[1..], needle, i - 1)
      {
        if i + |needle| <= |hay| {
          assert hay[1..][i - 1..i - 1 + |needle|] == hay[i..i + |needle|];
        }
      }
      if Contains(hay[1..], needle) {
        var i :| OccursAt(hay[1..], needle, i);
        assert OccursAt(hay, needle, i + 1);
      }
    }
  }

  /** The empty string occurs in every string. */
  lemma ContainsEmpty(hay: string)
    ensures Contains(hay, "")
  {
  }
}
