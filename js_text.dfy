/**
 * The pieces of the JavaScript string and number library that the booking
 * pages lean on: the `\s` character class, `parseInt`, `trim`, the digit and
 * whitespace filters written as `replace(/…/g, '')`, and the pieces of
 * `split` that the pages read.  Strings are sequences of code points.
 */
module JsText {
  import opened Wrappers

  /** `\s` in an ECMAScript regular expression (and the set `trim` and `parseInt` skip):
      the WhiteSpace and LineTerminator code points. */
  predicate IsSpace(c: char) {
    c == '\t' || c == '\n' || c == '\U{000B}' || c == '\U{000C}' || c == '\r' || c == ' '
    || c == '\U{00A0}' || c == '\U{1680}' || ('\U{2000}' <= c <= '\U{200A}')
    || c == '\U{2028}' || c == '\U{2029}' || c == '\U{202F}' || c == '\U{205F}'
    || c == '\U{3000}' || c == '\U{FEFF}'
  }

  /** `\d` and `[0-9]` (no Unicode flag on any of the source's patterns). */
  predicate IsDigit(c: char) { '0' <= c <= '9' }

  /** `[a-zA-Z]` */
  predicate IsLetter(c: char) { 'a' <= c <= 'z' || 'A' <= c <= 'Z' }

  predicate IsHexDigit(c: char) { IsDigit(c) || 'a' <= c <= 'f' || 'A' <= c <= 'F' }

  predicate AllDigits(s: string) { forall i :: 0 <= i < |s| ==> IsDigit(s[i]) }

  predicate AllHexDigits(s: string) { forall i :: 0 <= i < |s| ==> IsHexDigit(s[i]) }

  predicate NoSpaces(s: string) { forall i :: 0 <= i < |s| ==> !IsSpace(s[i]) }

  /** `s.replace(/\s/g, '')` (and `/\s+/g`, which removes the same characters). */
  function RemoveSpaces(s: string): (r: string)
    ensures NoSpaces(r) && |r| <= |s|
    ensures NoSpaces(s) ==> r == s
  {
    if s == [] then []
    else if IsSpace(s[0]) then RemoveSpaces(s[1..])
    else [s[0]] + RemoveSpaces(s[1..])
  }

  /** `s.replace(/[^0-9]/gi, '')`: the digits of `s`, in order. */
  function OnlyDigits(s: string): (r: string)
    ensures AllDigits(r) && |r| <= |s|
    ensures AllDigits(s) ==> r == s
  {
    if s == [] then []
    else if IsDigit(s[0]) then [s[0]] + OnlyDigits(s[1..])
    else OnlyDigits(s[1..])
  }

  lemma {:induction false} OnlyDigitsAppend(a: string, b: string)
    ensures OnlyDigits(a + b) == OnlyDigits(a) + OnlyDigits(b)
  {
    if a == [] {
      assert a + b == b;
    } else {
      assert (a + b)[1..] == a[1..] + b;
      OnlyDigitsAppend(a[1..], b);
    }
  }

  /** Removing whitespace keeps every other character, as often as it occurs. */
  lemma {:induction false} RemoveSpacesKeepsOthers(s: string)
    ensures forall c :: !IsSpace(c) ==> multiset(RemoveSpaces(s))[c] == multiset(s)[c]
  {
    if s != [] {
      RemoveSpacesKeepsOthers(s[1..]);
      assert s == [s[0]] + s[1..];
    }
  }

  /** Keeping the digits keeps every digit, as often as it occurs. */
  lemma {:induction false} OnlyDigitsKeepsDigits(s: string)
    ensures forall c :: IsDigit(c) ==> multiset(OnlyDigits(s))[c] == multiset(s)[c]
  {
    if s != [] {
      OnlyDigitsKeepsDigits(s[1..]);
      assert s == [s[0]] + s[1..];
    }
  }

  lemma {:induction false} RemoveSpacesAppend(a: string, b: string)
    ensures RemoveSpaces(a + b) == RemoveSpaces(a) + RemoveSpaces(b)
  {
    if a == [] {
      assert a + b == b;
    } else {
      assert (a + b)[1..] == a[1..] + b;
      RemoveSpacesAppend(a[1..], b);
    }
  }

  /** Leading whitespace removed (`trimStart`, and the first step of `parseInt`). */
  function TrimStart(s: string): (r: string)
    ensures |r| <= |s| && r == s[|s| - |r|..]
    ensures r != [] ==> !IsSpace(r[0])
  {
    if s != [] && IsSpace(s[0]) then TrimStart(s[1..]) else s
  }

  /** Trailing whitespace removed. */
  function TrimEnd(s: string): (r: string)
    ensures |r| <= |s| && r == s[..|r|]
    ensures r != [] ==> !IsSpace(r[|r| - 1])
  {
    if s != [] && IsSpace(s[|s| - 1]) then TrimEnd(s[..|s| - 1]) else s
  }

  /** `String.prototype.trim` */
  function Trim(s: string): string { TrimEnd(TrimStart(s)) }

  /** The longest prefix of `s` made of decimal digits. */
  function DigitPrefix(s: string): string {
    if s != [] && IsDigit(s[0]) then [s[0]] + DigitPrefix(s[1..]) else []
  }

  /** The longest prefix of `s` made of hexadecimal digits. */
  function HexPrefix(s: string): string {
    if s != [] && IsHexDigit(s[0]) then [s[0]] + HexPrefix(s[1..]) else []
  }

  /** The value of a hexadecimal digit (0 for any other character, which the
      prefixes below never contain). */
  function DigitValue(c: char): nat {
    if IsDigit(c) then c as int - '0' as int
    else if 'a' <= c <= 'f' then c as int - 'a' as int + 10
    else if 'A' <= c <= 'F' then c as int - 'A' as int + 10
    else 0
  }

  /** The value of a string of decimal digits, most significant first. */
  function DecimalValue(d: string): nat {
    if d == [] then 0 else DecimalValue(d[..|d| - 1]) * 10 + DigitValue(d[|d| - 1])
  }

  function HexValue(d: string): nat {
    if d == [] then 0 else HexValue(d[..|d| - 1]) * 16 + DigitValue(d[|d| - 1])
  }

  /** `parseInt(s)` without a radix: skip leading whitespace, an optional sign, then
      the longest run of digits (hexadecimal after a `0x`/`0X` prefix); `None` is `NaN`. */
  function ParseInt(s: string): Option<int> {
    var t := TrimStart(s);
    var negative := t != [] && t[0] == '-';
    var u := if t != [] && (t[0] == '-' || t[0] == '+') then t[1..] else t;
    var magnitude: Option<int> :=
      if |u| >= 2 && u[0] == '0' && (u[1] == 'x' || u[1] == 'X') then
        var h := HexPrefix(u[2..]);
        if h == [] then None else Some(HexValue(h))
      else
        var d := DigitPrefix(u);
        if d == [] then None else Some(DecimalValue(d));
    if magnitude.None? then None
    else Some(if negative then -magnitude.value else magnitude.value)
  }

  /** Decimal rendering of a natural number, as a template literal prints it. */
  function NatToString(n: nat): (r: string)
    ensures AllDigits(r) && r != []
    ensures n < 10 <==> |r| == 1
  {
    if n < 10 then [('0' as int + n) as char]
    else NatToString(n / 10) + [('0' as int + n % 10) as char]
  }

  /** Reading back what `NatToString` prints gives the number again. */
  lemma {:induction false} DecimalValueOfNatToString(n: nat)
    ensures DecimalValue(NatToString(n)) == n
  {
    if n >= 10 {
      var r := NatToString(n);
      assert r[..|r| - 1] == NatToString(n / 10);
      DecimalValueOfNatToString(n / 10);
    }
  }

  /** `parseInt` of a printed natural number returns that number. */
  lemma ParseIntOfNatToString(n: nat)
    ensures ParseInt(NatToString(n)) == Some(n)
  {
    ParseIntOfDigits(NatToString(n));
    DecimalValueOfNatToString(n);
  }

  /** `parseInt` of a non-empty run of decimal digits is its decimal value. */
  lemma ParseIntOfDigits(d: string)
    requires AllDigits(d) && d != []
    ensures ParseInt(d) == Some(DecimalValue(d))
  {
    TrimStartOfDigits(d);
    AllDigitsIsOwnPrefix(d);
    assert !(|d| >= 2 && d[0] == '0' && (d[1] == 'x' || d[1] == 'X'));
  }

  lemma TrimStartOfDigits(d: string)
    requires AllDigits(d)
    ensures TrimStart(d) == d
  {
    if d != [] {
      assert !IsSpace(d[0]);
    }
  }

  lemma {:induction false} AllDigitsIsOwnPrefix(s: string)
    requires AllDigits(s)
    ensures DigitPrefix(s) == s
  {
    if s != [] {
      AllDigitsIsOwnPrefix(s[1..]);
    }
  }

  /** `s.split(c)[0]`: everything before the first `c` (all of `s` when there is none). */
  function Before(s: string, c: char): (r: string)
    ensures c !in r && |r| <= |s| && r == s[..|r|]
    ensures |r| < |s| ==> s[|r|] == c
  {
    if s == [] then [] else if s[0] == c then [] else [s[0]] + Before(s[1..], c)
  }

  /** `s.split(c)[1]`: the piece between the first and the second `c`;
      `None` (JavaScript's `undefined`) when `c` does not occur. */
  function SecondPiece(s: string, c: char): Option<string> {
    var head := Before(s, c);
    if |head| == |s| then None else Some(Before(s[|head| + 1..], c))
  }

  /** `s.replace(c, '')` with a one-character string pattern: drops the first `c` only. */
  function RemoveFirst(s: string, c: char): (r: string)
    ensures c !in s ==> r == s
    ensures c in s ==> |r| == |s| - 1
  {
    if s == [] then [] else if s[0] == c then s[1..] else [s[0]] + RemoveFirst(s[1..], c)
  }

  /** `Before` stops at the first occurrence of `c`. */
  lemma {:induction false} BeforeFirst(s: string, c: char, n: nat)
    requires n < |s| && s[n] == c && c !in s[..n]
    ensures Before(s, c) == s[..n]
  {
    if n > 0 {
      assert s[1..][..n - 1] == s[1..n];
      assert c !in s[1..][..n - 1];
      BeforeFirst(s[1..], c, n - 1);
      assert s[..n] == [s[0]] + s[1..n];
    }
  }

  /** A string of digits has no whitespace to trim at either end. */
  lemma TrimOfDigits(d: string)
    requires AllDigits(d)
    ensures Trim(d) == d
  {
    TrimStartOfDigits(d);
    if d != [] {
      assert !IsSpace(d[|d| - 1]);
    }
  }

  /** Trimming skips one leading blank. */
  lemma TrimLeadingBlank(d: string)
    ensures Trim([' '] + d) == Trim(d)
  {
    assert ([' '] + d)[1..] == d;
  }

  /** Without an occurrence of `c`, `Before` keeps the whole string. */
  lemma {:induction false} BeforeWhole(s: string, c: char)
    requires c !in s
    ensures Before(s, c) == s
  {
    if s != [] {
      assert c !in s[1..];
      BeforeWhole(s[1..], c);
    }
  }

  function Pow10(n: nat): (p: nat)
    ensures p >= 1
  {
    if n == 0 then 1 else 10 * Pow10(n - 1)
  }

  /** Reading two runs of digits one after the other: the first is shifted by the
      length of the second. */
  lemma {:induction false} DecimalValueAppend(a: string, b: string)
    requires AllDigits(a) && AllDigits(b)
    ensures AllDigits(a + b)
    ensures DecimalValue(a + b) == DecimalValue(a) * Pow10(|b|) + DecimalValue(b)
  {
    AllDigitsAppend(a, b);
    if b == [] {
      assert a + b == a;
    } else {
      var init := b[..|b| - 1];
      assert (a + b)[..|a + b| - 1] == a + init;
      assert (a + b)[|a + b| - 1] == b[|b| - 1];
      DecimalValueAppend(a, init);
      ShiftStep(DecimalValue(a), Pow10(|init|), DecimalValue(init), DigitValue(b[|b| - 1]));
    }
  }

  lemma AllDigitsAppend(a: string, b: string)
    requires AllDigits(a) && AllDigits(b)
    ensures AllDigits(a + b)
  {
    forall k | 0 <= k < |a + b|
      ensures IsDigit((a + b)[k])
    {
      if k < |a| {
        assert (a + b)[k] == a[k];
      } else {
        assert (a + b)[k] == b[k - |a|];
      }
    }
  }

  lemma ShiftStep(value: int, shift: int, low: int, last: int)
    ensures (value * shift + low) * 10 + last == value * (10 * shift) + (low * 10 + last)
  {
  }

  /** `s.replace(c, '')` where `c` first occurs right after `a`. */
  lemma RemoveFirstAfter(a: string, c: char, b: string)
    requires c !in a
    ensures RemoveFirst(a + [c] + b, c) == a + b
  {
    var s := a + [c] + b;
    assert s[..|a|] == a && s[|a|] == c && s[|a| + 1..] == b;
    RemoveFirstAt(s, c, |a|);
  }

  /** `s.replace(c, '')` cuts out the first occurrence of `c`. */
  lemma {:induction false} RemoveFirstAt(s: string, c: char, n: nat)
    requires n < |s| && s[n] == c && c !in s[..n]
    ensures RemoveFirst(s, c) == s[..n] + s[n + 1..]
  {
    if n > 0 {
      assert s[1..][..n - 1] == s[1..n];
      assert c !in s[1..][..n - 1];
      RemoveFirstAt(s[1..], c, n - 1);
      assert s[..n] + s[n + 1..] == [s[0]] + (s[1..][..n - 1] + s[1..][n..]);
    }
  }
}
