/** The Python string built-ins the modelled code relies on: clamped slicing,
  * `str.split` / `str.join` with an explicit separator, character replacement,
  * `int(s, base)` parsing and `str`/`format` of integers. */
module PyStrings {
  import opened Wrappers

  /** `s.startswith(p)`; the same test as `s[0:len(p)] == p`. */
  predicate StartsWith<T(==)>(s: seq<T>, p: seq<T>) {
    |p| <= |s| && s[..|p|] == p
  }

  /** Python `s[i:j]` for non-negative bounds: bounds past the end are clamped
    * and an empty range gives the empty sequence. */
  function Slice<T>(s: seq<T>, i: nat, j: nat): (r: seq<T>)
    ensures |r| == if j <= i || |s| <= i then 0 else (if j <= |s| then j else |s|) - i
    ensures forall k :: 0 <= k < |r| ==> r[k] == s[i + k]
  {
    if |s| <= i || j <= i then [] else if j <= |s| then s[i..j] else s[i..]
  }

  // ---------------------------------------------------------------- split / join

  /** `s.split(sep)` for a non-empty separator: cut at every occurrence of
    * `sep`, scanning left to right without overlaps. */
  function Split<T(==)>(s: seq<T>, sep: seq<T>): (r: seq<seq<T>>)
    requires |sep| > 0
    ensures |r| >= 1
    decreases |s|
  {
    if |s| < |sep| then [s]
    else if s[..|sep|] == sep then [[]] + Split(s[|sep|..], sep)
    else
      var rest := Split(s[1..], sep);
      [[s[0]] + rest[0]] + rest[1..]
  }

  /** `sep.join(parts)`. */
  function Join<T>(parts: seq<seq<T>>, sep: seq<T>): seq<T>
  {
    if |parts| == 0 then []
    else if |parts| == 1 then parts[0]
    else parts[0] + sep + Join(parts[1..], sep)
  }

  lemma JoinConsHead<T>(c: T, parts: seq<seq<T>>, sep: seq<T>)
    requires |parts| >= 1
    ensures Join([[c] + parts[0]] + parts[1..], sep) == [c] + Join(parts, sep)
  {
    var q := [[c] + parts[0]] + parts[1..];
    if |parts| > 1 {
      assert q[1..] == parts[1..];
    }
  }

  /** Joining the pieces of a split with the same separator gives back the input. */
  lemma {:induction false} JoinSplit<T>(s: seq<T>, sep: seq<T>)
    requires |sep| > 0
    ensures Join(Split(s, sep), sep) == s
    decreases |s|
  {
    if |s| < |sep| {
    } else if s[..|sep|] == sep {
      JoinSplit(s[|sep|..], sep);
      var parts := [[]] + Split(s[|sep|..], sep);
      assert parts[1..] == Split(s[|sep|..], sep);
      assert s == sep + s[|sep|..];
    } else {
      JoinSplit(s[1..], sep);
      JoinConsHead(s[0], Split(s[1..], sep), sep);
      assert s == [s[0]] + s[1..];
    }
  }

  /** A string without the separator character splits into itself alone. */
  lemma {:induction false} SplitNoSep<T>(s: seq<T>, c: T)
    requires c !in s
    ensures Split(s, [c]) == [s]
    decreases |s|
  {
    if |s| >= 1 {
      assert s[..1] == [s[0]];
      SplitNoSep(s[1..], c);
      assert [s[0]] + s[1..] == s;
    }
  }

  /** Splitting on a single character distributes over an occurrence of it. */
  lemma {:induction false} SplitConcat<T>(a: seq<T>, b: seq<T>, c: T)
    ensures Split(a + [c] + b, [c]) == Split(a, [c]) + Split(b, [c])
    decreases |a|
  {
    var s := a + [c] + b;
    if |a| == 0 {
      assert s[..1] == [c];
      assert s[1..] == b;
    } else {
      assert s[..1] == [a[0]];
      assert s[1..] == a[1..] + [c] + b;
      SplitConcat(a[1..], b, c);
      if a[0] == c {
        assert a[..1] == [c];
        assert a[1..] == a[1..];
      } else {
        assert a[..1] != [c];
        var ra := Split(a[1..], [c]);
        assert (ra + Split(b, [c]))[1..] == ra[1..] + Split(b, [c]);
      }
    }
  }

  /** Splitting a join of separator-free parts gives back the parts. */
  lemma {:induction false} SplitJoin<T>(parts: seq<seq<T>>, c: T)
    requires |parts| >= 1
    requires forall i :: 0 <= i < |parts| ==> c !in parts[i]
    ensures Split(Join(parts, [c]), [c]) == parts
    decreases |parts|
  {
    if |parts| == 1 {
      SplitNoSep(parts[0], c);
    } else {
      SplitJoin(parts[1..], c);
      SplitNoSep(parts[0], c);
      SplitConcat(parts[0], Join(parts[1..], [c]), c);
      assert parts == [parts[0]] + parts[1..];
    }
  }

  // ---------------------------------------------------------------- replace

  /** `s.replace(c, '')`. */
  function RemoveChar(s: string, c: char): (r: string)
    ensures c !in r
    ensures |r| <= |s|
  {
    if |s| == 0 then "" else if s[0] == c then RemoveChar(s[1..], c) else [s[0]] + RemoveChar(s[1..], c)
  }

  lemma {:induction false} RemoveCharConcat(a: string, b: string, c: char)
    ensures RemoveChar(a + b, c) == RemoveChar(a, c) + RemoveChar(b, c)
    decreases |a|
  {
    if |a| > 0 {
      assert (a + b)[1..] == a[1..] + b;
      RemoveCharConcat(a[1..], b, c);
    } else {
      assert a + b == b;
    }
  }

  /** `s.replace(c, d)` for single characters. */
  function ReplaceChar(s: string, c: char, d: char): (r: string)
    ensures |r| == |s|
    ensures forall i :: 0 <= i < |s| ==> r[i] == if s[i] == c then d else s[i]
  {
    if |s| == 0 then "" else [if s[0] == c then d else s[0]] + ReplaceChar(s[1..], c, d)
  }

  // ---------------------------------------------------------------- int(s, base)

  /** Characters Python's `str.isspace` accepts, which `int()` strips. */
  predicate IsSpace(c: char) {
    var n := c as int;
    n == 32 || 9 <= n <= 13 || 28 <= n <= 31 || n == 0x85 || n == 0xA0 || n == 0x1680
    || 0x2000 <= n <= 0x200A || n == 0x2028 || n == 0x2029 || n == 0x202F || n == 0x205F || n == 0x3000
  }

  function TrimLeft(s: string): (r: string)
    ensures |r| <= |s|
    ensures |r| > 0 ==> !IsSpace(r[0])
  {
    if |s| > 0 && IsSpace(s[0]) then TrimLeft(s[1..]) else s
  }

  function TrimRight(s: string): (r: string)
    ensures |r| <= |s|
    ensures |r| > 0 ==> !IsSpace(r[|r| - 1])
  {
    if |s| > 0 && IsSpace(s[|s| - 1]) then TrimRight(s[..|s| - 1]) else s
  }

  /** `s.strip()`. */
  function Strip(s: string): string {
    TrimRight(TrimLeft(s))
  }

  /** Value of an ASCII digit or letter (letters of either case count from 10),
    * or -1 for any other character. */
  function DigitValue(c: char): (v: int)
    ensures -1 <= v < 36
  {
    if '0' <= c <= '9' then c as int - '0' as int
    else if 'a' <= c <= 'z' then c as int - 'a' as int + 10
    else if 'A' <= c <= 'Z' then c as int - 'A' as int + 10
    else -1
  }

  /** The lower-case character for a digit value; the inverse of `DigitValue`. */
  function DigitChar(d: nat): (c: char)
    requires d < 36
    ensures DigitValue(c) == d
    ensures !IsSpace(c) && c != '_' && c != '-' && c != '+' && c != ','
  {
    if d < 10 then ('0' as int + d) as char else ('a' as int + d - 10) as char
  }

  predicate IsDigitIn(c: char, base: nat) {
    0 <= DigitValue(c) < base
  }

  /** The digits of an integer literal: digits of the base, each single `_`
    * sitting between two digits. */
  predicate ValidDigits(b: string, base: nat) {
    && |b| > 0
    && b[0] != '_'
    && b[|b| - 1] != '_'
    && (forall i :: 0 <= i < |b| ==> b[i] == '_' || IsDigitIn(b[i], base))
    && (forall i :: 0 <= i < |b| - 1 ==> b[i] != '_' || b[i + 1] != '_')
  }

  /** The number the digits denote; underscores are skipped. */
  function DigitsValue(b: string, base: nat): nat
    decreases |b|
  {
    if |b| == 0 then 0
    else if b[|b| - 1] == '_' then DigitsValue(b[..|b| - 1], base)
    else DigitsValue(b[..|b| - 1], base) * base + (if DigitValue(b[|b| - 1]) < 0 then 0 else DigitValue(b[|b| - 1]))
  }

  /** The prefix letter `int()` accepts for base 2, 8 and 16. */
  function PrefixLetter(base: nat): Option<char> {
    if base == 2 then Some('b') else if base == 8 then Some('o') else if base == 16 then Some('x') else None
  }

  /** The digits after an optional `0x` (`0o`, `0b`) prefix and the single
    * underscore that may follow it. */
  function WithoutPrefix(body: string, base: nat): string {
    match PrefixLetter(base)
    case None => body
    case Some(l) =>
      if |body| >= 2 && body[0] == '0' && (body[1] == l || body[1] as int == l as int - 32) then
        var rest := body[2..];
        if |rest| > 0 && rest[0] == '_' then rest[1..] else rest
      else body
  }

  /** `int(s, base)`: surrounding white space, one sign, the optional radix
    * prefix and the digits; anything else raises ValueError. */
  function ParseInt(s: string, base: nat): (r: Result<int>)
    requires 2 <= base <= 36
    ensures r.Err? ==> r.error == ValueError
    ensures r.Ok? ==> ValidDigits(WithoutPrefix(SignFree(Strip(s)), base), base)
  {
    var t := Strip(s);
    var digits := WithoutPrefix(SignFree(t), base);
    if ValidDigits(digits, base) then
      var v: int := DigitsValue(digits, base);
      Ok(if |t| > 0 && t[0] == '-' then -v else v)
    else Err(ValueError)
  }

  function SignFree(t: string): string {
    if |t| > 0 && (t[0] == '-' || t[0] == '+') then t[1..] else t
  }

  // ---------------------------------------------------------------- formatting

  /** The digits of `n` in `base`, lower case, no leading zeros. */
  function NatToDigits(n: nat, base: nat): (r: string)
    requires 2 <= base <= 36
    ensures |r| >= 1
    ensures forall i :: 0 <= i < |r| ==> IsDigitIn(r[i], base)
    ensures n > 0 ==> r[0] != '0'
    decreases n
  {
    if n < base then [DigitChar(n)]
    else
      DivModBase(n, base);
      NatToDigits(n / base, base) + [DigitChar(n % base)]
  }

  lemma DivModBase(n: nat, base: nat)
    requires 2 <= base <= n
    ensures 1 <= n / base < n
    ensures 0 <= n % base < base
    ensures n == (n / base) * base + n % base
  {
  }

  /** `str(n)` for an integer. */
  function IntToString(n: int): string {
    if n < 0 then "-" + NatToDigits(-n, 10) else NatToDigits(n, 10)
  }

  lemma {:induction false} DigitsValueOfNat(n: nat, base: nat)
    requires 2 <= base <= 36
    ensures DigitsValue(NatToDigits(n, base), base) == n
    decreases n
  {
    var r := NatToDigits(n, base);
    if n >= base {
      DivModBase(n, base);
      DigitsValueOfNat(n / base, base);
      assert r[..|r| - 1] == NatToDigits(n / base, base);
      assert DigitValue(r[|r| - 1]) == n % base;
    }
  }

  lemma {:induction false} StripNoSpace(s: string)
    requires forall i :: 0 <= i < |s| ==> !IsSpace(s[i])
    ensures Strip(s) == s
  {
    if |s| > 0 {
      assert !IsSpace(s[0]);
      assert TrimLeft(s) == s;
      assert !IsSpace(s[|s| - 1]);
    }
  }

  /** The digits `str` prints contain no white space and no underscore. */
  lemma DigitsPlain(d: string)
    requires forall i :: 0 <= i < |d| ==> IsDigitIn(d[i], 10)
    ensures forall i :: 0 <= i < |d| ==> !IsSpace(d[i]) && d[i] != '_'
  {
    forall i | 0 <= i < |d| ensures !IsSpace(d[i]) && d[i] != '_' {
      assert IsDigitIn(d[i], 10);
    }
  }

  /** A minus sign in front of such digits keeps the string free of white
    * space, so `int` sees the sign and the digits. */
  lemma NegativeSignFree(d: string)
    requires |d| >= 1 && forall i :: 0 <= i < |d| ==> IsDigitIn(d[i], 10)
    ensures SignFree(Strip("-" + d)) == d
  {
    DigitsPlain(d);
    var s := "-" + d;
    forall i | 0 <= i < |s| ensures !IsSpace(s[i]) {
      if i > 0 { assert s[i] == d[i - 1]; }
    }
    StripNoSpace(s);
  }

  lemma NonNegativeSignFree(d: string)
    requires |d| >= 1 && forall i :: 0 <= i < |d| ==> IsDigitIn(d[i], 10)
    ensures SignFree(Strip(d)) == d
  {
    DigitsPlain(d);
    StripNoSpace(d);
    assert IsDigitIn(d[0], 10);
  }

  /** `int(str(n))` is `n` for every integer, negative ones included. */
  lemma ParseIntToString(n: int)
    ensures ParseInt(IntToString(n), 10) == Ok(n)
  {
    var m: nat := if n < 0 then -n else n;
    var d := NatToDigits(m, 10);
    var s := IntToString(n);
    DigitsPlain(d);
    if n < 0 {
      NegativeSignFree(d);
      assert s == "-" + d;
    } else {
      NonNegativeSignFree(d);
      assert s == d;
    }
    var t := Strip(s);
    assert SignFree(t) == d;
    assert WithoutPrefix(d, 10) == d;
    assert ValidDigits(d, 10);
    DigitsValueOfNat(m, 10);
    assert (|t| > 0 && t[0] == '-') <==> n < 0;
  }
}
