/**
 * Byte strings as the C code sees them: first occurrences, prefixes, the
 * ASCII character classes of the "C" locale, and C-string truncation.
 */
module Text {

  datatype Option<+T> = None | Some(value: T)

  predicate OccursAt(hay: string, needle: string, i: nat) {
    i + |needle| <= |hay| && hay[i..i + |needle|] == needle
  }

  /** The first occurrence of `needle` at or after `i`. */
  function Find(hay: string, needle: string, i: nat := 0): (r: Option<nat>)
    ensures r.Some? ==> i <= r.value && OccursAt(hay, needle, r.value)
    ensures r.Some? ==> forall j: nat :: i <= j < r.value ==> !OccursAt(hay, needle, j)
    ensures r.None? ==> forall j: nat :: i <= j ==> !OccursAt(hay, needle, j)
    decreases |hay| - i
  {
    if OccursAt(hay, needle, i) then Some(i)
    else if i < |hay| then Find(hay, needle, i + 1)
    else None
  }

  /** Two positions that are both a first occurrence are the same. */
  lemma FindIs(hay: string, needle: string, i: nat, p: nat)
    requires i <= p && OccursAt(hay, needle, p)
    requires forall j: nat :: i <= j < p ==> !OccursAt(hay, needle, j)
    ensures Find(hay, needle, i) == Some(p)
  {
    var r := Find(hay, needle, i);
    assert r.Some?;
    assert !(r.value < p) && !(p < r.value);
  }

  /** strchr. */
  lemma FindChar(s: string, c: char)
    ensures c in s <==> Find(s, [c]).Some?
  {
    if c in s {
      var i :| 0 <= i < |s| && s[i] == c;
      assert s[i..i + 1] == [c] && OccursAt(s, [c], i);
    }
    if Find(s, [c]).Some? {
      var i := Find(s, [c]).value;
      assert s[i] == s[i..i + 1][0];
    }
  }

  /** An occurrence only depends on the bytes it covers. */
  lemma OccursShift(pre: string, hay: string, needle: string, i: nat)
    ensures OccursAt(pre + hay, needle, |pre| + i) <==> OccursAt(hay, needle, i)
  {
    if i + |needle| <= |hay| {
      assert (pre + hay)[|pre| + i..|pre| + i + |needle|] == hay[i..i + |needle|];
    }
  }

  lemma OccursExtend(hay: string, post: string, needle: string, i: nat)
    requires i + |needle| <= |hay|
    ensures OccursAt(hay + post, needle, i) <==> OccursAt(hay, needle, i)
  {
    assert (hay + post)[i..i + |needle|] == hay[i..i + |needle|];
  }

  lemma DropAppend(a: string, b: string, n: nat)
    requires n <= |a|
    ensures (a + b)[n..] == a[n..] + b
  {
  }

  lemma TakeAppend(a: string, b: string, n: nat)
    requires n <= |a|
    ensures (a + b)[..n] == a[..n]
  {
  }

  /** `r` counted from `d` positions further on. */
  function Shift(d: nat, r: Option<nat>): Option<nat> {
    if r.Some? then Some(d + r.value) else None
  }

  /** Text that holds no start of an occurrence can be skipped by the search. */
  lemma FindSkip(pre: string, hay: string, needle: string, i: nat, from: nat)
    requires from <= |pre| + i && i <= |hay|
    requires forall j: nat :: from <= j < |pre| + i ==> !OccursAt(pre + hay, needle, j)
    ensures Find(pre + hay, needle, from) == Shift(|pre|, Find(hay, needle, i))
  {
    var r := Find(hay, needle, i);
    if r.Some? {
      OccursShift(pre, hay, needle, r.value);
      forall j: nat | from <= j < |pre| + r.value
        ensures !OccursAt(pre + hay, needle, j)
      {
        if |pre| + i <= j { OccursShift(pre, hay, needle, j - |pre|); }
      }
      FindIs(pre + hay, needle, from, |pre| + r.value);
    } else {
      forall j: nat | from <= j
        ensures !OccursAt(pre + hay, needle, j)
      {
        if |pre| + i <= j { OccursShift(pre, hay, needle, j - |pre|); }
      }
    }
  }

  /** Text appended after a first occurrence does not move it. */
  lemma FindExtend(hay: string, post: string, needle: string, i: nat)
    requires i <= |hay| && Find(hay, needle, i).Some?
    ensures Find(hay + post, needle, i) == Find(hay, needle, i)
  {
    var p := Find(hay, needle, i).value;
    forall j: nat | i <= j <= p
      ensures OccursAt(hay + post, needle, j) <==> OccursAt(hay, needle, j)
    {
      OccursExtend(hay, post, needle, j);
    }
    FindIs(hay + post, needle, i, p);
  }

  function Lower(c: char): char {
    if 'A' <= c <= 'Z' then c + 32 as char else c
  }

  function Upper(c: char): char {
    if 'a' <= c <= 'z' then c - 32 as char else c
  }

  /** strncasecmp(s, p, strlen(p)) == 0, for a lower-case `p`. */
  predicate StartsNoCase(s: string, p: string) {
    |p| <= |s| && forall i :: 0 <= i < |p| ==> Lower(s[i]) == p[i]
  }

  predicate StartsWith(s: string, p: string) {
    |p| <= |s| && s[..|p|] == p
  }

  predicate IsSpace(c: char) {
    c == ' ' || '\t' <= c <= '\r'
  }

  predicate IsDigit(c: char) {
    '0' <= c <= '9'
  }

  predicate IsAlpha(c: char) {
    'a' <= c <= 'z' || 'A' <= c <= 'Z'
  }

  function Digit(c: char): nat
    requires IsDigit(c)
  {
    c as int - '0' as int
  }

  /** A decimal numeral of any length. */
  function Numeral(s: string): nat
    requires forall i :: 0 <= i < |s| ==> IsDigit(s[i])
  {
    if s == "" then 0 else Numeral(s[..|s| - 1]) * 10 + Digit(s[|s| - 1])
  }

  /** What the C string functions see of a copied byte range: it ends at the first NUL. */
  function CString(s: string): (r: string)
    ensures '\0' !in r && r <= s
    ensures '\0' !in s ==> r == s
  {
    if s == "" || s[0] == '\0' then "" else [s[0]] + CString(s[1..])
  }
}
