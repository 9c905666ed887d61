/**
 * The Python 2 string builtins the client applies to reply text:
 * `upper`, `lower`, `strip` and `replace` of one character.
 *
 * Python 2's ElementTree hands out a text as a byte string (`str`) when it is
 * pure ASCII and as `unicode` otherwise, so both kinds reach the setters.
 * `str` case mapping touches only ASCII letters and `str.strip()` removes
 * ASCII whitespace; `unicode` uses the Unicode tables, under which two
 * non-ASCII letters upper-case to an ASCII letter, two lower-case to one, and
 * more characters count as whitespace.
 */
module Text {

  predicate IsLower(c: char) { 'a' <= c <= 'z' }

  predicate IsUpper(c: char) { 'A' <= c <= 'Z' }

  predicate IsAscii(c: char) { c < '\U{0080}' }

  predicate AllAscii(s: string)
  {
    forall i :: 0 <= i < |s| ==> IsAscii(s[i])
  }

  /** Whether a reply text is handed out as `unicode` rather than as a byte string. */
  predicate IsUnicode(s: string)
  {
    !AllAscii(s)
  }

  const DotlessI := '\U{0131}'    // upper-cases to `I`
  const LongS := '\U{017F}'       // upper-cases to `S`
  const DottedI := '\U{0130}'     // lower-cases to `i`
  const KelvinSign := '\U{212A}'  // lower-cases to `k`

  /**
   * The upper case of one character. Beyond ASCII only the two letters whose
   * upper case is ASCII are mapped; every other character is kept, which
   * differs from Python for letters such as `é` but never in whether the
   * result is an ASCII letter.
   */
  function UpperChar(c: char): char
  {
    if IsLower(c) then (c as int - 32) as char
    else if c == DotlessI then 'I'
    else if c == LongS then 'S'
    else c
  }

  /** The lower case of one character, beyond ASCII only where the result is ASCII. */
  function LowerChar(c: char): char
  {
    if IsUpper(c) then (c as int + 32) as char
    else if c == DottedI then 'i'
    else if c == KelvinSign then 'k'
    else c
  }

  /** `s.upper()`: every character is upper-cased on its own. */
  function Upper(s: string): (r: string)
    ensures |r| == |s|
  {
    if s == [] then [] else [UpperChar(s[0])] + Upper(s[1..])
  }

  /** `s.lower()`: every character is lower-cased on its own. */
  function Lower(s: string): (r: string)
    ensures |r| == |s|
  {
    if s == [] then [] else [LowerChar(s[0])] + Lower(s[1..])
  }

  /** Upper-casing maps each character on its own and keeps its position. */
  lemma {:induction false} UpperEach(s: string)
    ensures |Upper(s)| == |s|
    ensures forall i :: 0 <= i < |s| ==> Upper(s)[i] == UpperChar(s[i])
  {
    if s != [] {
      UpperEach(s[1..]);
      assert forall i :: 1 <= i < |s| ==> Upper(s)[i] == Upper(s[1..])[i - 1];
    }
  }

  /** Lower-casing maps each character on its own and keeps its position. */
  lemma {:induction false} LowerEach(s: string)
    ensures |Lower(s)| == |s|
    ensures forall i :: 0 <= i < |s| ==> Lower(s)[i] == LowerChar(s[i])
  {
    if s != [] {
      LowerEach(s[1..]);
      assert forall i :: 1 <= i < |s| ==> Lower(s)[i] == Lower(s[1..])[i - 1];
    }
  }

  /**
   * The characters whose upper case is the ASCII capital `b`: `b` itself, its
   * small letter, and `ı` for `I` and `ſ` for `S`.
   */
  predicate UppersTo(a: char, b: char)
    requires IsUpper(b)
  {
    a == b || a as int == b as int + 32 || (b == 'I' && a == DotlessI) || (b == 'S' && a == LongS)
  }

  /**
   * The characters whose lower case is the ASCII small letter `b`: `b`
   * itself, its capital, and `İ` for `i` and the Kelvin sign for `k`.
   */
  predicate LowersTo(a: char, b: char)
    requires IsLower(b)
  {
    a == b || a as int == b as int - 32 || (b == 'i' && a == DottedI) || (b == 'k' && a == KelvinSign)
  }

  /** Each character of `v` upper-cases to the same position of the capital word `word`. */
  predicate UpperMatches(v: string, word: string)
    requires forall i :: 0 <= i < |word| ==> IsUpper(word[i])
  {
    |v| == |word| && forall i :: 0 <= i < |v| ==> UppersTo(v[i], word[i])
  }

  /** Each character of `v` lower-cases to the same position of the small word `word`. */
  predicate LowerMatches(v: string, word: string)
    requires forall i :: 0 <= i < |word| ==> IsLower(word[i])
  {
    |v| == |word| && forall i :: 0 <= i < |v| ==> LowersTo(v[i], word[i])
  }

  /** For a capital word, `v.upper() == word` holds exactly when `v` matches it letter by letter. */
  lemma UpperIsWord(v: string, word: string)
    requires forall i :: 0 <= i < |word| ==> IsUpper(word[i])
    ensures Upper(v) == word <==> UpperMatches(v, word)
  {
    UpperEach(v);
    if Upper(v) == word {
      forall i | 0 <= i < |v| ensures UppersTo(v[i], word[i]) {
        assert UpperChar(v[i]) == word[i];
      }
    }
    if UpperMatches(v, word) {
      forall i | 0 <= i < |v| ensures Upper(v)[i] == word[i] {
        assert UppersTo(v[i], word[i]);
      }
    }
  }

  /** For a small word, `v.lower() == word` holds exactly when `v` matches it letter by letter. */
  lemma LowerIsWord(v: string, word: string)
    requires forall i :: 0 <= i < |word| ==> IsLower(word[i])
    ensures Lower(v) == word <==> LowerMatches(v, word)
  {
    LowerEach(v);
    if Lower(v) == word {
      forall i | 0 <= i < |v| ensures LowersTo(v[i], word[i]) {
        assert LowerChar(v[i]) == word[i];
      }
    }
    if LowerMatches(v, word) {
      forall i | 0 <= i < |v| ensures Lower(v)[i] == word[i] {
        assert LowersTo(v[i], word[i]);
      }
    }
  }

  /** `s.replace(from, to)` for single characters: every occurrence is replaced. */
  function Replace(s: string, from: char, to: char): (r: string)
    ensures |r| == |s|
    ensures forall i :: 0 <= i < |s| ==> r[i] == (if s[i] == from then to else s[i])
  {
    if s == [] then [] else [if s[0] == from then to else s[0]] + Replace(s[1..], from, to)
  }

  /** After replacing every `from` by another character, no `from` is left, so replacing again does nothing. */
  lemma {:induction false} ReplaceIdempotent(s: string, from: char, to: char)
    requires from != to
    ensures from !in Replace(s, from, to)
    ensures Replace(Replace(s, from, to), from, to) == Replace(s, from, to)
  {
    var r := Replace(s, from, to);
    forall i | 0 <= i < |r| ensures r[i] != from { }
    ReplaceAbsent(r, from, to);
  }

  /** Replacing a character that does not occur leaves the string as it is. */
  lemma ReplaceAbsent(s: string, from: char, to: char)
    requires from !in s
    ensures Replace(s, from, to) == s
  {
    var r := Replace(s, from, to);
    forall i | 0 <= i < |s| ensures r[i] == s[i] {
      assert s[i] in s;
    }
  }

  /** The whitespace of `str.strip()`: space, tab, line feed, carriage return, vertical tab, form feed. */
  predicate IsByteSpace(c: char)
  {
    c == ' ' || c == '\t' || c == '\n' || c == '\r' || c == '\U{000B}' || c == '\U{000C}'
  }

  /**
   * The whitespace of `unicode.strip()` in Python 2 (Unicode 5.2): the byte
   * whitespace, the four separators U+001C to U+001F, next line, no-break
   * space, and the space separators and line and paragraph separators.
   */
  predicate IsUnicodeSpace(c: char)
  {
    || IsByteSpace(c)
    || ('\U{001C}' <= c <= '\U{001F}')
    || c == '\U{0085}' || c == '\U{00A0}' || c == '\U{1680}' || c == '\U{180E}'
    || ('\U{2000}' <= c <= '\U{200A}')
    || c == '\U{2028}' || c == '\U{2029}' || c == '\U{202F}' || c == '\U{205F}' || c == '\U{3000}'
  }

  /** The whitespace `strip()` removes from a text as ElementTree hands it out. */
  function SpaceOf(s: string): char -> bool
  {
    if IsUnicode(s) then IsUnicodeSpace else IsByteSpace
  }

  predicate AllSpace(s: string, space: char -> bool)
  {
    forall i :: 0 <= i < |s| ==> space(s[i])
  }

  /** Neither end of `s` is whitespace. */
  predicate Trimmed(s: string, space: char -> bool)
  {
    s == [] || (!space(s[0]) && !space(s[|s| - 1]))
  }

  /** Where `lstrip` stops: the first index at or after `i` whose character is not whitespace. */
  function SkipSpace(s: string, space: char -> bool, i: nat): (j: nat)
    requires i <= |s|
    ensures i <= j <= |s|
    ensures j == |s| || !space(s[j])
    ensures forall k :: i <= k < j ==> space(s[k])
    decreases |s| - i
  {
    if i < |s| && space(s[i]) then SkipSpace(s, space, i + 1) else i
  }

  /** Where `rstrip` stops: the end, not before `lo`, left after dropping whitespace before index `j`. */
  function SkipSpaceBack(s: string, space: char -> bool, lo: nat, j: nat): (k: nat)
    requires lo <= j <= |s|
    ensures lo <= k <= j
    ensures k == lo || !space(s[k - 1])
    ensures forall m :: k <= m < j ==> space(s[m])
    decreases j
  {
    if lo < j && space(s[j - 1]) then SkipSpaceBack(s, space, lo, j - 1) else j
  }

  /** `lstrip` then `rstrip` with one kind of whitespace. */
  function StripAs(s: string, space: char -> bool): (r: string)
    ensures var i := SkipSpace(s, space, 0);
      && Trimmed(r, space)
      && i + |r| <= |s| && r == s[i..i + |r|]
      && (forall k :: 0 <= k < i ==> space(s[k]))
      && (forall k :: i + |r| <= k < |s| ==> space(s[k]))
  {
    var i := SkipSpace(s, space, 0);
    var j := SkipSpaceBack(s, space, i, |s|);
    s[i..j]
  }

  /**
   * `s.strip()` on the text as ElementTree hands it out: the slice of `s`
   * that starts after its leading whitespace, with neither end whitespace,
   * and only whitespace around it.
   */
  function Strip(s: string): (r: string)
    ensures var space := SpaceOf(s); var i := SkipSpace(s, space, 0);
      && Trimmed(r, space)
      && i + |r| <= |s| && r == s[i..i + |r|]
      && (forall k :: 0 <= k < i ==> space(s[k]))
      && (forall k :: i + |r| <= k < |s| ==> space(s[k]))
  {
    StripAs(s, SpaceOf(s))
  }

  /** Stripping a string whose ends are not whitespace returns it unchanged. */
  lemma StripTrimmed(s: string)
    requires Trimmed(s, SpaceOf(s))
    ensures Strip(s) == s
  {
  }

  /**
   * `strip` of a text that neither starts nor ends in whitespace, with
   * whitespace on either side, returns that text; whitespace is judged by the
   * kind of the whole string.
   */
  lemma StripPadded(before: string, t: string, after: string)
    requires var space := SpaceOf(before + t + after);
      AllSpace(before, space) && AllSpace(after, space) && t != [] && Trimmed(t, space)
    ensures Strip(before + t + after) == t
  {
    var s := before + t + after;
    var space := SpaceOf(s);
    var lo, hi := |before|, |before| + |t|;
    assert s[lo] == t[0] && s[hi - 1] == t[|t| - 1];
    assert forall k :: 0 <= k < lo ==> s[k] == before[k];
    assert forall k :: hi <= k < |s| ==> s[k] == after[k - hi];
    assert SkipSpace(s, space, 0) == lo;
    assert SkipSpaceBack(s, space, lo, |s|) == hi;
    var r := Strip(s);
    assert r == s[lo..hi] == t;
  }

  /** Byte whitespace is whitespace for `unicode` too, so a text trimmed as `unicode` is trimmed as bytes. */
  lemma TrimmedAsBytes(s: string)
    requires Trimmed(s, IsUnicodeSpace)
    ensures Trimmed(s, IsByteSpace)
  {
  }

  /** Stripping twice is stripping once, though the stripped text may have become pure ASCII. */
  lemma StripIdempotent(s: string)
    ensures Strip(Strip(s)) == Strip(s)
  {
    var r := Strip(s);
    if IsUnicode(s) && !IsUnicode(r) {
      TrimmedAsBytes(r);
    }
    if !IsUnicode(s) {
      var i := SkipSpace(s, SpaceOf(s), 0);
      assert forall k :: 0 <= k < |r| ==> r[k] == s[i + k];
    }
    StripTrimmed(r);
  }

  /** Strip leaves nothing exactly when the string is all whitespace. */
  lemma StripEmpty(s: string)
    ensures Strip(s) == [] <==> AllSpace(s, SpaceOf(s))
  {
    var space := SpaceOf(s);
    var i := SkipSpace(s, space, 0);
    var r := Strip(s);
    if r != [] {
      assert s[i] == r[0];
    }
  }
}
