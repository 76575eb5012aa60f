/** Numbers as text: what printf writes and scanf and strtol read back. */
module InetText {
  import opened Wrappers

  /** Character i of a NUL-terminated string. */
  function At(s: string, i: nat): char { if i < |s| then s[i] else '\0' }

  predicate IsDigit(c: char) { '0' <= c <= '9' }

  predicate IsXDigit(c: char) { IsDigit(c) || 'a' <= c <= 'f' || 'A' <= c <= 'F' }

  predicate IsSpace(c: char) { c == ' ' || '\t' <= c <= '\r' }

  function DigitValue(c: char): nat
    requires IsXDigit(c)
  {
    if IsDigit(c) then c as int - '0' as int
    else if 'a' <= c then c as int - 'a' as int + 10
    else c as int - 'A' as int + 10
  }

  function DigitChar(n: nat): char
    requires n < 16
  {
    if n < 10 then ('0' as int + n) as char else ('a' as int + n - 10) as char
  }

  /** A number in the given base, without leading zeros: %d and %x. */
  function Print(n: nat, base: nat): string
    requires 2 <= base <= 16
  {
    if n < base then [DigitChar(n)] else Print(n / base, base) + [DigitChar(n % base)]
  }

  predicate IsBaseDigit(c: char, base: nat) { IsXDigit(c) && DigitValue(c) < base }

  predicate Digits(s: string, base: nat) { forall i :: 0 <= i < |s| ==> IsBaseDigit(s[i], base) }

  /** The value of a string of digits. */
  function Value(s: string, base: nat): nat
    requires Digits(s, base)
  {
    if s == [] then 0 else base * Value(s[..|s| - 1], base) + DigitValue(s[|s| - 1])
  }

  lemma ValueSnoc(s: string, c: char, base: nat)
    requires Digits(s, base) && IsBaseDigit(c, base)
    ensures Digits(s + [c], base) && Value(s + [c], base) == base * Value(s, base) + DigitValue(c)
  {
    assert (s + [c])[..|s|] == s;
  }

  lemma DivMod(n: nat, base: nat)
    requires base >= 2
    ensures base * (n / base) + n % base == n
    ensures n >= base ==> 0 < n / base < n
  {
  }

  lemma DigitCharValue(n: nat, base: nat)
    requires n < base <= 16
    ensures IsBaseDigit(DigitChar(n), base) && DigitValue(DigitChar(n)) == n && (n > 0 ==> DigitChar(n) != '0')
  {
  }

  lemma ValueOne(c: char, base: nat)
    requires IsBaseDigit(c, base)
    ensures Digits([c], base) && Value([c], base) == DigitValue(c)
  {
    ValueSnoc("", c, base);
    assert "" + [c] == [c];
  }

  /** What is printed has the value that was printed, and no leading zero unless it is zero. */
  lemma {:induction false} PrintValue(n: nat, base: nat)
    requires 2 <= base <= 16
    ensures Print(n, base) != "" && Digits(Print(n, base), base) && Value(Print(n, base), base) == n
    ensures n > 0 ==> Print(n, base)[0] != '0'
    decreases n
  {
    hide Value, Digits, DigitChar, IsBaseDigit, DigitValue;
    DivMod(n, base);
    DigitCharValue(n % base, base);
    if n < base {
      DigitCharValue(n, base);
      ValueOne(DigitChar(n), base);
    } else {
      PrintValue(n / base, base);
      ValueSnoc(Print(n / base, base), DigitChar(n % base), base);
    }
  }

  lemma HexLength(n: nat)
    requires n < 0x1_0000
    ensures |Print(n, 16)| <= 4
  {
    assert n / 16 / 16 / 16 < 16;
    var a, b, c := n / 16, n / 16 / 16, n / 16 / 16 / 16;
    assert |Print(c, 16)| == 1;
    assert b >= 16 ==> |Print(b, 16)| == 2;
    assert |Print(b, 16)| <= 2;
    assert |Print(a, 16)| <= 3;
  }

  lemma DecLength(n: nat)
    requires n <= 255
    ensures |Print(n, 10)| <= 3
  {
    assert n / 10 / 10 < 10;
    assert |Print(n / 10 / 10, 10)| == 1;
    assert |Print(n / 10, 10)| <= 2;
  }

  // ----- Scanning

  /** Where the run of digits that starts at i ends. */
  function DigitsEnd(s: string, i: nat, base: nat): (e: nat)
    requires i <= |s|
    ensures i <= e <= |s| && Digits(s[i..e], base) && !(e < |s| && IsBaseDigit(s[e], base))
    decreases |s| - i
  {
    if i < |s| && IsBaseDigit(s[i], base) then
      assert forall e :: i + 1 <= e <= |s| ==> s[i..e] == [s[i]] + s[i + 1..e];
      DigitsEnd(s, i + 1, base)
    else i
  }

  /** A run of digits that is followed by anything else is found as a whole. */
  lemma {:induction false} DigitsEndIs(s: string, i: nat, e: nat, base: nat)
    requires i <= e <= |s| && Digits(s[i..e], base) && !IsBaseDigit(At(s, e), base)
    ensures DigitsEnd(s, i, base) == e
    decreases e - i
  {
    if i < e {
      assert s[i..e][0] == s[i];
      assert s[i + 1..e] == s[i..e][1..];
      DigitsEndIs(s, i + 1, e, base);
    }
  }

  function SpacesEnd(s: string, i: nat): (e: nat)
    requires i <= |s|
    ensures i <= e <= |s|
    decreases |s| - i
  {
    if i < |s| && IsSpace(s[i]) then SpacesEnd(s, i + 1) else i
  }

  // ULONG_MAX where long has 32 bits
  const MAX_UNSIGNED: nat := 0xFFFF_FFFF

  /** scanf("%u") at i: white space, a sign, digits. The value saturates, and is negated modulo 2^32 after a minus
      sign. */
  function ScanUnsigned(s: string, i: nat): (r: Option<(nat, nat)>)
    requires i <= |s|
    ensures r.Some? ==> i < r.value.1 <= |s|
  {
    var b := SpacesEnd(s, i);
    var d := if At(s, b) == '+' || At(s, b) == '-' then b + 1 else b;
    var e := DigitsEnd(s, d, 10);
    if e == d then None
    else
      var v := Value(s[d..e], 10);
      var clipped := if v > MAX_UNSIGNED then MAX_UNSIGNED else v;
      Some((if At(s, b) == '-' && v <= MAX_UNSIGNED then (MAX_UNSIGNED + 1 - v) % (MAX_UNSIGNED + 1) else clipped, e))
  }

  /** strtol(s + i, &next, 16) where s[i] is a hexadecimal digit: an optional 0x, and digits. */
  function ScanHex(s: string, i: nat): (r: (nat, nat))
    requires i < |s| && IsXDigit(s[i])
    ensures i < r.1 <= |s|
  {
    var d := if s[i] == '0' && (At(s, i + 1) == 'x' || At(s, i + 1) == 'X') && IsXDigit(At(s, i + 2)) then i + 2 else i;
    var e := DigitsEnd(s, d, 16);
    (Value(s[d..e], 16), e)
  }

  lemma ScanPrintedUnsigned(s: string, i: nat, n: nat)
    requires n <= 255 && i + |Print(n, 10)| <= |s| && s[i..i + |Print(n, 10)|] == Print(n, 10)
    requires !IsDigit(At(s, i + |Print(n, 10)|))
    ensures ScanUnsigned(s, i) == Some((n, i + |Print(n, 10)|))
  {
    PrintValue(n, 10);
    var e := i + |Print(n, 10)|;
    assert s[i] == s[i..e][0];
    DigitsEndIs(s, i, e, 10);
  }

  lemma ScanPrintedHex(s: string, i: nat, n: nat)
    requires i + |Print(n, 16)| <= |s| && s[i..i + |Print(n, 16)|] == Print(n, 16)
    requires !IsXDigit(At(s, i + |Print(n, 16)|)) && At(s, i + |Print(n, 16)|) != 'x' &&
      At(s, i + |Print(n, 16)|) != 'X'
    ensures i < |s| && IsXDigit(s[i]) && ScanHex(s, i) == (n, i + |Print(n, 16)|)
  {
    PrintValue(n, 16);
    var e := i + |Print(n, 16)|;
    assert s[i] == s[i..e][0];
    if e > i + 1 {
      assert s[i + 1] == s[i..e][1];
    }
    DigitsEndIs(s, i, e, 16);
  }
}
