/**
 * The handful of JavaScript string operations the employee components rely on,
 * written out as Dafny functions: `trim()`-emptiness, the `\s` and `\D` character
 * classes, `toLowerCase()`, `includes()` and `slice()`.
 */
module JsText {

  /** The digits matched by the regex class `[0-9]` (and excluded by `\D`). */
  predicate IsDigit(c: char) {
    '0' <= c <= '9'
  }

  /** White space and line terminators: what `trim()` strips and what `\s` matches. */
  predicate IsSpace(c: char) {
    c == '\t' || c == '\n' || c == '\U{0B}' || c == '\U{0C}' || c == '\r' || c == ' ' ||
    c == '\U{A0}' || c == '\U{1680}' || ('\U{2000}' <= c <= '\U{200A}') ||
    c == '\U{2028}' || c == '\U{2029}' || c == '\U{202F}' || c == '\U{205F}' ||
    c == '\U{3000}' || c == '\U{FEFF}'
  }

  /** `!s.trim()`: the string is empty once leading and trailing white space is removed. */
  predicate Blank(s: string) {
    forall i :: 0 <= i < |s| ==> IsSpace(s[i])
  }

  /** `toLowerCase()` on one character, for ASCII, Latin-1 and the Turkish G-breve and S-cedilla. */
  function LowerChar(c: char): (r: char)
    ensures 'a' <= r <= 'z' ==> c == r || c == r - 'a' + 'A'
    ensures IsDigit(c) ==> r == c
  {
    if 'A' <= c <= 'Z' then c - 'A' + 'a'
    else if '\U{C0}' <= c <= '\U{DE}' && c != '\U{D7}' then c + '\U{20}'
    else if c == '\U{11E}' || c == '\U{15E}' then c + '\U{1}'
    else c
  }

  /** `s.toLowerCase()`, character by character. */
  function Lower(s: string): (r: string)
    ensures |r| == |s|
    ensures forall i :: 0 <= i < |s| ==> r[i] == LowerChar(s[i])
  {
    seq(|s|, i requires 0 <= i < |s| => LowerChar(s[i]))
  }

  lemma LowerAppend(a: string, b: string)
    ensures Lower(a + b) == Lower(a) + Lower(b)
  {
    assert forall i :: 0 <= i < |a + b| ==> Lower(a + b)[i] == (Lower(a) + Lower(b))[i];
  }

  /** `needle` occurs in `hay` starting at position `i`. */
  predicate OccursAt(hay: string, needle: string, i: int) {
    0 <= i && i + |needle| <= |hay| && hay[i..i + |needle|] == needle
  }

  /** Lower-casing twice is lower-casing once: a lower-cased query is its own lower case. */
  lemma LowerIdempotent(s: string)
    ensures Lower(Lower(s)) == Lower(s)
  {
  }

  /** `hay.includes(needle)`; the empty needle is included in every string. */
  predicate Includes(hay: string, needle: string) {
    exists i | 0 <= i <= |hay| :: OccursAt(hay, needle, i)
  }

  lemma IncludesEmpty(hay: string)
    ensures Includes(hay, "")
  {
    assert OccursAt(hay, "", 0);
  }

  /** An occurrence in `a` is an occurrence in `a + b`. */
  lemma IncludesInFront(a: string, b: string, needle: string)
    requires Includes(a, needle)
    ensures Includes(a + b, needle)
  {
    var i :| 0 <= i <= |a| && OccursAt(a, needle, i);
    var w := a + b;
    assert w[i..i + |needle|] == a[i..i + |needle|];
    assert OccursAt(w, needle, i);
  }

  /** An occurrence in `b` is an occurrence in `a + b`, shifted by `|a|`. */
  lemma IncludesBehind(a: string, b: string, needle: string)
    requires Includes(b, needle)
    ensures Includes(a + b, needle)
  {
    var i :| 0 <= i <= |b| && OccursAt(b, needle, i);
    var w := a + b;
    assert w[|a| + i..|a| + i + |needle|] == b[i..i + |needle|];
    assert OccursAt(w, needle, |a| + i);
  }

  /** How `slice` turns a possibly negative index into a position in a sequence of length `len`. */
  function SliceIndex(k: int, len: nat): (r: nat)
    ensures r <= len
    ensures 0 <= k ==> r == if k <= len then k else len
    ensures k < 0 ==> r == if len + k < 0 then 0 else len + k
  {
    if k < 0 then (if len + k < 0 then 0 else len + k) else if k <= len then k else len
  }

  /** `s.slice(start, end)`: negative positions count from the end, out-of-range ones are clipped. */
  function Slice<T>(s: seq<T>, start: int, end: int): (r: seq<T>)
    ensures |r| <= |s|
    ensures 0 <= start <= end ==> r == s[SliceIndex(start, |s|)..SliceIndex(end, |s|)]
  {
    var from, to := SliceIndex(start, |s|), SliceIndex(end, |s|);
    if from < to then s[from..to] else []
  }

  /** A negative start counts from the end: `s.slice(-k)` is the last `k` elements. */
  lemma SliceFromEnd<T>(s: seq<T>, k: int)
    requires 0 < k <= |s|
    ensures Slice(s, -k, |s|) == s[|s| - k..]
  {
  }

  /** A window that starts at or after the end is empty, whatever its end. */
  lemma SlicePastEnd<T>(s: seq<T>, start: int, end: int)
    requires start >= |s|
    ensures Slice(s, start, end) == []
  {
  }

  /** A window of width `w` never holds more than `w` elements, even with negative bounds. */
  lemma SliceWidth<T>(s: seq<T>, start: int, w: nat)
    ensures |Slice(s, start, start + w)| <= w
  {
  }

  /** `s.replace(/\D/g, '')`: the digits of `s`, in order. */
  function Digits(s: string): (r: string)
    ensures |r| <= |s|
    ensures forall i :: 0 <= i < |r| ==> IsDigit(r[i])
  {
    if s == [] then []
    else if IsDigit(s[0]) then [s[0]] + Digits(s[1..])
    else Digits(s[1..])
  }

  /** Every digit of the input survives, and nothing is dropped exactly when the input is all digits. */
  lemma {:induction false} DigitsKept(s: string)
    ensures forall i :: 0 <= i < |s| && IsDigit(s[i]) ==> s[i] in Digits(s)
    ensures |Digits(s)| == |s| <==> forall i :: 0 <= i < |s| ==> IsDigit(s[i])
  {
    if s != [] {
      DigitsKept(s[1..]);
      assert forall i :: 1 <= i < |s| ==> s[i] == s[1..][i - 1];
    }
  }

  /** One character: kept exactly when it is a digit. */
  lemma DigitsChar(c: char)
    ensures Digits([c]) == if IsDigit(c) then [c] else []
  {
    assert [c][1..] == [];
  }

  lemma {:induction false} DigitsAppend(a: string, b: string)
    ensures Digits(a + b) == Digits(a) + Digits(b)
  {
    if a != [] {
      assert (a + b)[1..] == a[1..] + b;
      DigitsAppend(a[1..], b);
    } else {
      assert a + b == b;
    }
  }

  /** A string made of digits only is its own digit string. */
  lemma {:induction false} DigitsOfDigits(s: string)
    requires forall i :: 0 <= i < |s| ==> IsDigit(s[i])
    ensures Digits(s) == s
  {
    if s != [] {
      DigitsOfDigits(s[1..]);
    }
  }
}
