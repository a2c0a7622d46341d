/**
 * The few string operations of JavaScript that the palette engine relies on:
 * printing an integer in a template literal, `String.prototype.replace` with a
 * string pattern (first occurrence only) and with a global regular expression
 * of one character, `startsWith`, `Array.prototype.join` and `split`.
 */
module Strings {

  import opened Wrappers

  predicate IsDigit(c: char) {
    '0' <= c <= '9'
  }

  predicate AllDigits(s: string) {
    forall i :: 0 <= i < |s| ==> IsDigit(s[i])
  }

  function DigitChar(d: nat): (c: char)
    requires d < 10
    ensures IsDigit(c) && c as int - '0' as int == d
  {
    (d + '0' as int) as char
  }

  function DigitValue(c: char): nat
    requires IsDigit(c)
  {
    c as int - '0' as int
  }

  /** Decimal notation of a natural number, without leading zeros. */
  function NatToString(n: nat): (r: string)
    ensures |r| >= 1 && AllDigits(r)
    ensures |r| > 1 ==> r[0] != '0'
  {
    if n < 10 then [DigitChar(n)] else NatToString(n / 10) + [DigitChar(n % 10)]
  }

  /** The value of a string of decimal digits. */
  function DigitsValue(s: string): nat
    requires AllDigits(s)
  {
    if s == [] then 0 else 10 * DigitsValue(s[..|s| - 1]) + DigitValue(s[|s| - 1])
  }

  lemma {:induction false} DigitsValueOfNatToString(n: nat)
    ensures DigitsValue(NatToString(n)) == n
  {
    var s := NatToString(n);
    if n >= 10 {
      assert s[..|s| - 1] == NatToString(n / 10);
      DigitsValueOfNatToString(n / 10);
    }
  }

  /** How a template literal prints an integer-valued number: a minus sign, then the digits. */
  function IntToString(n: int): (r: string)
    ensures |r| >= 1 && ',' !in r && ')' !in r && '%' !in r && ' ' !in r && '\n' !in r
  {
    if n < 0 then "-" + NatToString(-n) else NatToString(n)
  }

  /** Reads back an optional minus sign followed by at least one digit. */
  function ParseInt(s: string): Option<int> {
    if |s| >= 2 && s[0] == '-' && AllDigits(s[1..]) then Some(-(DigitsValue(s[1..]) as int))
    else if |s| >= 1 && AllDigits(s) then Some(DigitsValue(s))
    else None
  }

  lemma ParseIntToString(n: int)
    ensures ParseInt(IntToString(n)) == Some(n)
  {
    if n < 0 {
      var s := IntToString(n);
      assert s[1..] == NatToString(-n);
      DigitsValueOfNatToString(-n);
    } else {
      DigitsValueOfNatToString(n);
    }
  }

  /** `s.startsWith(prefix)`. */
  predicate StartsWith(s: string, prefix: string) {
    |prefix| <= |s| && s[..|prefix|] == prefix
  }

  /** `s.replace(pattern, "")` with a string pattern: only the first occurrence goes. */
  function DeleteFirst(s: string, pattern: string): (r: string)
    ensures |r| <= |s|
    ensures forall c :: c in r ==> c in s
    decreases |s|
  {
    if |s| < |pattern| then s
    else if s[..|pattern|] == pattern then s[|pattern|..]
    else [s[0]] + DeleteFirst(s[1..], pattern)
  }

  lemma DeleteFirstAtStart(pattern: string, t: string)
    ensures DeleteFirst(pattern + t, pattern) == t
  {
    assert (pattern + t)[..|pattern|] == pattern;
    assert (pattern + t)[|pattern|..] == t;
  }

  /** Removing the first occurrence of one character: everything before it is kept. */
  lemma {:induction false} DeleteFirstChar(a: string, c: char, b: string)
    requires c !in a
    ensures DeleteFirst(a + [c] + b, [c]) == a + b
  {
    if a != [] {
      var s := a + [c] + b;
      assert s[..1] == [a[0]];
      assert s[1..] == a[1..] + [c] + b;
      DeleteFirstChar(a[1..], c, b);
      assert a == [a[0]] + a[1..];
    } else {
      assert ([c] + b)[..1] == [c];
    }
  }

  /** `s.replace(/c/g, "")`: every occurrence of the character goes. */
  function RemoveAll(s: string, c: char): (r: string)
    ensures c !in r
    ensures forall d :: d in r ==> d in s
  {
    if s == [] then []
    else if s[0] == c then RemoveAll(s[1..], c)
    else [s[0]] + RemoveAll(s[1..], c)
  }

  lemma {:induction false} RemoveAllConcat(a: string, b: string, c: char)
    ensures RemoveAll(a + b, c) == RemoveAll(a, c) + RemoveAll(b, c)
  {
    if a != [] {
      assert (a + b)[1..] == a[1..] + b;
      RemoveAllConcat(a[1..], b, c);
    } else {
      assert a + b == b;
    }
  }

  lemma {:induction false} RemoveAllAbsent(s: string, c: char)
    requires c !in s
    ensures RemoveAll(s, c) == s
  {
    if s != [] {
      RemoveAllAbsent(s[1..], c);
      assert s == [s[0]] + s[1..];
    }
  }

  /** Removing a character after a stretch without it keeps the stretch. */
  lemma RemoveAllAfter(a: string, c: char, b: string)
    requires c !in a
    ensures RemoveAll(a + [c] + b, c) == a + RemoveAll(b, c)
  {
    RemoveAllConcat(a + [c], b, c);
    RemoveAllConcat(a, [c], c);
    RemoveAllAbsent(a, c);
    assert RemoveAll([c], c) == [];
  }

  /** `parts.join([sep])`. */
  function Join(parts: seq<string>, sep: char): (r: string)
    ensures forall c :: c in r && c != sep ==> exists i :: 0 <= i < |parts| && c in parts[i]
  {
    if parts == [] then []
    else if |parts| == 1 then parts[0]
    else parts[0] + [sep] + Join(parts[1..], sep)
  }

  /** `s.split(sep)` with a one-character separator: always at least one piece. */
  function Split(s: string, sep: char): (r: seq<string>)
    ensures |r| >= 1
    ensures forall i :: 0 <= i < |r| ==> sep !in r[i]
  {
    if s == [] then [""]
    else
      var rest := Split(s[1..], sep);
      if s[0] == sep then [""] + rest else [[s[0]] + rest[0]] + rest[1..]
  }

  lemma {:induction false} SplitWithout(s: string, sep: char)
    requires sep !in s
    ensures Split(s, sep) == [s]
  {
    if s != [] {
      SplitWithout(s[1..], sep);
      assert s == [s[0]] + s[1..];
    }
  }

  lemma {:induction false} SplitAt(a: string, sep: char, b: string)
    requires sep !in a
    ensures Split(a + [sep] + b, sep) == [a] + Split(b, sep)
  {
    var s := a + [sep] + b;
    if a == [] {
      assert s[1..] == b;
    } else {
      assert s[1..] == a[1..] + [sep] + b;
      SplitAt(a[1..], sep, b);
      assert [a[0]] + a[1..] == a;
    }
  }

  /** What splitting gives back for a joined list: an empty list joins to one empty line. */
  function Pieces(parts: seq<string>): seq<string> {
    if parts == [] then [""] else parts
  }

  lemma {:induction false} SplitJoinThen(parts: seq<string>, sep: char, rest: string)
    requires forall i :: 0 <= i < |parts| ==> sep !in parts[i]
    ensures Split(Join(parts, sep) + [sep] + rest, sep) == Pieces(parts) + Split(rest, sep)
  {
    if parts == [] {
      SplitAt([], sep, rest);
    } else if |parts| == 1 {
      SplitAt(parts[0], sep, rest);
    } else {
      var tail := Join(parts[1..], sep);
      assert Join(parts, sep) + [sep] + rest == parts[0] + [sep] + (tail + [sep] + rest);
      SplitAt(parts[0], sep, tail + [sep] + rest);
      SplitJoinThen(parts[1..], sep, rest);
      assert [parts[0]] + parts[1..] == parts;
    }
  }
}
