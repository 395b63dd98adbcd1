/** Decimal numerals, and how the C library reads them. */
module Decimals {

  function Digit(d: nat): char
    requires d < 10
  {
    '0' + d as char
  }

  predicate IsDigit(c: char) {
    '0' <= c <= '9'
  }

  predicate AllDigits(s: string) {
    forall i :: 0 <= i < |s| ==> IsDigit(s[i])
  }

  function Decimal(n: nat): (s: string)
    ensures |s| > 0 && AllDigits(s)
  {
    if n < 10 then [Digit(n)] else Decimal(n / 10) + [Digit(n % 10)]
  }

  function Number(s: string): nat
    requires AllDigits(s)
  {
    if s == "" then 0 else Number(s[..|s| - 1]) * 10 + (s[|s| - 1] as int - '0' as int)
  }

  /** A numeral is read back as the number it was made from. */
  lemma {:induction false} NumberOfDecimal(n: nat)
    ensures Number(Decimal(n)) == n
  {
    var s := Decimal(n);
    if n < 10 {
      assert s[..0] == "";
    } else {
      NumberOfDecimal(n / 10);
      assert s[..|s| - 1] == Decimal(n / 10);
    }
  }

  /** Where the digits of `s` that start at `i` end. */
  function DigitsEnd(s: string, i: nat): (j: nat)
    requires i <= |s|
    ensures i <= j <= |s| && AllDigits(s[i..j]) && (j < |s| ==> !IsDigit(s[j]))
    decreases |s| - i
  {
    if i == |s| || !IsDigit(s[i]) then i
    else var j := DigitsEnd(s, i + 1); assert s[i..j] == [s[i]] + s[i + 1..j]; j
  }

  lemma {:induction false} DigitsEndAt(s: string, i: nat, j: nat)
    requires i <= j <= |s| && AllDigits(s[i..j]) && (j < |s| ==> !IsDigit(s[j]))
    ensures DigitsEnd(s, i) == j
    decreases j - i
  {
    if i < j {
      assert s[i] == s[i..j][0];
      assert s[i + 1..j] == s[i..j][1..];
      DigitsEndAt(s, i + 1, j);
    }
  }

  function SpacesEnd(s: string, i: nat): (j: nat)
    requires i <= |s|
    ensures i <= j <= |s|
    decreases |s| - i
  {
    if i < |s| && (s[i] == ' ' || '\t' <= s[i] <= '\r') then SpacesEnd(s, i + 1) else i
  }

  function Clamp(n: int): int {
    if n < -0x8000_0000_0000_0000 then -0x8000_0000_0000_0000
    else if n > 0x7fff_ffff_ffff_ffff then 0x7fff_ffff_ffff_ffff else n
  }

  /** `strtoll` in base ten: the number and where it ended; nothing read means 0 and no progress. */
  function Strtoll(s: string): (r: (int, nat))
    ensures r.1 <= |s|
  {
    var i := SpacesEnd(s, 0);
    var j := if i < |s| && (s[i] == '-' || s[i] == '+') then i + 1 else i;
    var k := DigitsEnd(s, j);
    var n: int := Number(s[j..k]);
    if k == j then (0, 0) else (Clamp(if s[i] == '-' then -n else n), k)
  }

  ghost predicate AllSpaces(s: string) {
    forall i :: 0 <= i < |s| ==> s[i] == ' ' || '\t' <= s[i] <= '\r'
  }

  lemma {:induction false} SpacesEndAt(s: string, i: nat, j: nat)
    requires i <= j <= |s| && AllSpaces(s[i..j]) && (j < |s| ==> s[j] != ' ' && !('\t' <= s[j] <= '\r'))
    ensures SpacesEnd(s, i) == j
    decreases j - i
  {
    if i < j {
      assert s[i] == s[i..j][0];
      assert s[i + 1..j] == s[i..j][1..];
      SpacesEndAt(s, i + 1, j);
    }
  }

  /** A number outside the 64-bit range is read as the end of the range that is nearest to it. */
  ghost predicate NearestInRange(r: int, n: int) {
    && -0x8000_0000_0000_0000 <= r <= 0x7fff_ffff_ffff_ffff
    && (-0x8000_0000_0000_0000 <= n <= 0x7fff_ffff_ffff_ffff ==> r == n)
    && (n > 0x7fff_ffff_ffff_ffff ==> r + 1 == 0x8000_0000_0000_0000)
    && (n < -0x8000_0000_0000_0000 ==> -r == 0x8000_0000_0000_0000)
  }

  /** `strtoll` reads a numeral behind spaces and a sign, whatever its size, up to anything but a digit. */
  lemma StrtollOfSigned(spaces: string, sign: string, n: nat, rest: string)
    requires AllSpaces(spaces) && (sign == "" || sign == "-" || sign == "+") && (rest == "" || !IsDigit(rest[0]))
    ensures var text := spaces + sign + Decimal(n);
            var r := Strtoll(text + rest);
            r.1 == |text| && NearestInRange(r.0, if sign == "-" then 0 - n else n)
  {
    hide Decimal, SpacesEnd, DigitsEnd, Number;
    var d := Decimal(n);
    var s := spaces + sign + d + rest;
    var i, j := |spaces|, |spaces| + |sign|;
    var k := j + |d|;
    assert s[0..i] == spaces && s[j..k] == d;
    assert IsDigit(d[0]) && s[j] == d[0] && (j > i ==> s[i] == sign[0]);
    assert k < |s| ==> s[k] == rest[0];
    SpacesEndAt(s, 0, i);
    DigitsEndAt(s, j, k);
    NumberOfDecimal(n);
  }

  /** `strtoll` reads a numeral followed by anything but a digit. */
  lemma StrtollOfDecimal(n: nat, rest: string)
    requires n <= 0x7fff_ffff_ffff_ffff && (rest == "" || !IsDigit(rest[0]))
    ensures Strtoll(Decimal(n) + rest) == (n, |Decimal(n)|)
  {
    hide Decimal;
    var d := Decimal(n);
    var s := d + rest;
    assert IsDigit(s[0]) && SpacesEnd(s, 0) == 0;
    assert s[0..|d|] == d;
    DigitsEndAt(s, 0, |d|);
    NumberOfDecimal(n);
  }
}
