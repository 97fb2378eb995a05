/**
 String searching and numerals shared by the codecs. A search that finds nothing
 answers the length of the text, where the C++ code has `npos`.
 */
module Text {

  datatype Option<+T> = None | Some(value: T)

  const CR := '\r'
  const LF := '\n'
  const CRLF := "\r\n"

  /** Index of the first `c` at or after `from`. */
  function Find(s: string, c: char, from: nat := 0): (r: nat)
    requires from <= |s|
    ensures from <= r <= |s|
    ensures r < |s| ==> s[r] == c
    ensures forall i :: from <= i < r ==> s[i] != c
    decreases |s| - from
  {
    if from == |s| || s[from] == c then from else Find(s, c, from + 1)
  }

  predicate HasAt(s: string, pattern: string, at: nat) {
    at + |pattern| <= |s| && s[at..at + |pattern|] == pattern
  }

  /** Index of the first occurrence of a non-empty pattern. */
  function FindText(s: string, pattern: string, from: nat := 0): (r: nat)
    requires from <= |s|
    requires pattern != ""
    ensures from <= r <= |s|
    ensures r < |s| ==> HasAt(s, pattern, r)
    ensures forall i :: from <= i < r ==> !HasAt(s, pattern, i)
    decreases |s| - from
  {
    if from == |s| || HasAt(s, pattern, from) then from else FindText(s, pattern, from + 1)
  }

  function Lower(c: char): char {
    if 'A' <= c <= 'Z' then (c as int + 32) as char else c
  }

  /** ASCII case-insensitive equality (text.hpp, `equals_ignore_case`). */
  predicate EqualsIgnoreCase(a: string, b: string) {
    |a| == |b| && forall i :: 0 <= i < |a| ==> Lower(a[i]) == Lower(b[i])
  }

  predicate IsDigit(c: char) { '0' <= c <= '9' }

  /** Value of a hexadecimal digit. */
  function HexValue(c: char): (r: Option<nat>)
    ensures r.Some? ==> r.value < 16
  {
    if IsDigit(c) then Some(c as int - '0' as int)
    else if 'a' <= c <= 'f' then Some(c as int - 'a' as int + 10)
    else if 'A' <= c <= 'F' then Some(c as int - 'A' as int + 10)
    else None
  }

  function DigitChar(d: nat): (c: char)
    requires d < 10
    ensures IsDigit(c)
  {
    (d + '0' as int) as char
  }

  /** The shortest decimal numeral of `n` (`std::to_chars`, `std::to_string`). */
  function Numeral(n: nat): (s: string)
    ensures s != ""
    ensures forall i :: 0 <= i < |s| ==> IsDigit(s[i])
  {
    if n < 10 then [DigitChar(n)] else Numeral(n / 10) + [DigitChar(n % 10)]
  }

  /** Value of a run of digits, most significant first. */
  function NumeralValue(s: string): nat
    requires forall i :: 0 <= i < |s| ==> IsDigit(s[i])
  {
    if s == "" then 0
    else
      assert IsDigit(s[|s| - 1]);
      10 * NumeralValue(s[..|s| - 1]) + (s[|s| - 1] as int - '0' as int)
  }

  lemma {:induction false} NumeralRoundTrip(n: nat)
    ensures NumeralValue(Numeral(n)) == n
    ensures |Numeral(n)| > 1 ==> Numeral(n)[0] != '0'
    ensures n > 0 ==> Numeral(n)[0] != '0'
  {
    var s := Numeral(n);
    if n >= 10 {
      NumeralRoundTrip(n / 10);
      assert s[..|s| - 1] == Numeral(n / 10);
    } else {
      assert s[..|s| - 1] == "";
    }
  }

  lemma Associate<T>(a: seq<T>, b: seq<T>, c: seq<T>)
    ensures (a + b) + c == a + (b + c)
    ensures a + [] == a
  {}

  function Concat(parts: seq<string>): string {
    if parts == [] then "" else parts[0] + Concat(parts[1..])
  }

  lemma {:induction false} ConcatAppend(a: seq<string>, b: seq<string>)
    ensures Concat(a + b) == Concat(a) + Concat(b)
  {
    if a == [] {
      assert a + b == b;
    } else {
      ConcatAppend(a[1..], b);
      assert (a + b)[1..] == a[1..] + b;
    }
  }

  /** `a` can be obtained from `b` by deleting elements. */
  ghost predicate Subsequence<T(!new)>(a: seq<T>, b: seq<T>)
    decreases |b|
  {
    if a == [] then true
    else if b == [] then false
    else if a[|a| - 1] == b[|b| - 1] && Subsequence(a[..|a| - 1], b[..|b| - 1]) then true
    else Subsequence(a, b[..|b| - 1])
  }

  predicate Prefix(a: string, b: string) { |a| <= |b| && b[..|a|] == a }

  /** The pieces between separators; always at least one. */
  function Split(s: string, c: char): (r: seq<string>)
    ensures r != []
    ensures forall i :: 0 <= i < |r| ==> c !in r[i]
  {
    var at := Find(s, c);
    if at == |s| then [s] else [s[..at]] + Split(s[at + 1..], c)
  }

  function Join(pieces: seq<string>, c: char): string
    requires pieces != []
  {
    if |pieces| == 1 then pieces[0] else pieces[0] + [c] + Join(pieces[1..], c)
  }

  lemma SplitOnce(s: string, c: char)
    ensures var at := Find(s, c); Split(s, c) == [s[..at]] + if at == |s| then [] else Split(s[at + 1..], c)
  {
    assert s[..|s|] == s;
  }

  lemma {:induction false} JoinSplit(s: string, c: char)
    ensures Join(Split(s, c), c) == s
  {
    var at := Find(s, c);
    if at < |s| {
      JoinSplit(s[at + 1..], c);
      assert Split(s, c)[1..] == Split(s[at + 1..], c);
      assert s == s[..at] + [c] + s[at + 1..];
    }
  }

  lemma {:induction false} SplitJoin(pieces: seq<string>, c: char)
    requires pieces != [] && forall k :: 0 <= k < |pieces| ==> c !in pieces[k]
    ensures Split(Join(pieces, c), c) == pieces
  {
    var s := Join(pieces, c);
    if |pieces| == 1 {
      assert Find(s, c) == |s|;
    } else {
      var rest := Join(pieces[1..], c);
      assert s == pieces[0] + [c] + rest;
      var at := Find(s, c);
      assert s[|pieces[0]|] == c;
      assert forall k :: 0 <= k < |pieces[0]| ==> s[k] == pieces[0][k];
      assert at == |pieces[0]|;
      assert s[..at] == pieces[0] && s[at + 1..] == rest;
      SplitJoin(pieces[1..], c);
    }
  }

  lemma {:induction false} FindInPrefix(s: string, t: string, c: char, from: nat)
    requires from <= |s|
    ensures Find(s, c, from) < |s| ==> Find(s + t, c, from) == Find(s, c, from)
    ensures Find(s, c, from) == |s| ==> Find(s + t, c, from) == Find(s + t, c, |s|)
    decreases |s| - from
  {
    if from < |s| {
      assert (s + t)[from] == s[from];
      if s[from] != c { FindInPrefix(s, t, c, from + 1); }
    }
  }

  lemma HasAtExtended(s: string, t: string, pattern: string, at: nat)
    requires at + |pattern| <= |s|
    ensures HasAt(s + t, pattern, at) == HasAt(s, pattern, at)
  {
    assert (s + t)[at..at + |pattern|] == s[at..at + |pattern|];
  }

  /** An occurrence found in a text is still the first one in any extension of it. */
  lemma {:induction false} FindTextStable(s: string, t: string, pattern: string, from: nat)
    requires pattern != "" && from <= |s| && FindText(s, pattern, from) < |s|
    ensures FindText(s + t, pattern, from) == FindText(s, pattern, from)
    decreases |s| - from
  {
    HasAtExtended(s, t, pattern, from);
    if !HasAt(s, pattern, from) {
      FindTextStable(s, t, pattern, from + 1);
    }
  }
}
