/** Decimal and hexadecimal numerals: printing, reading, and that each undoes the other. */
module Numerals {

  import opened Prelude
  import opened MooText

  // ---------------------------------------------------------------- decimal

  function DigitChar(d: nat): (c: char)
    requires d < 10
    ensures IsDigit(c)
  {
    (d as char) + '0'
  }

  function DigitValue(c: char): (d: nat)
    requires IsDigit(c)
    ensures d < 10
  {
    (c - '0') as nat
  }

  predicate AllDigits(text: string) {
    forall i :: 0 <= i < |text| ==> IsDigit(text[i])
  }

  function PrintNat(n: nat): (text: string)
    ensures text != ""
  {
    if n < 10 then [DigitChar(n)] else PrintNat(n / 10) + [DigitChar(n % 10)]
  }

  lemma {:induction false} PrintsDigits(n: nat)
    ensures AllDigits(PrintNat(n))
  {
    if n >= 10 { PrintsDigits(n / 10); }
  }

  // The value of a text of digits.
  function ReadNat(text: string): Option<nat> {
    if text == "" then Some(0)
    else if !IsDigit(text[|text| - 1]) then None
    else
      var front := ReadNat(text[..|text| - 1]);
      if front.None? then None else Some(10 * front.value + DigitValue(text[|text| - 1]))
  }

  lemma {:induction false} NatReadsBack(n: nat)
    ensures ReadNat(PrintNat(n)) == Some(n)
  {
    assert DigitValue(DigitChar(n % 10)) == n % 10;
    if n >= 10 {
      NatReadsBack(n / 10);
      var front := PrintNat(n / 10);
      assert (front + [DigitChar(n % 10)])[..|front|] == front;
    } else {
      assert [DigitChar(n)][..0] == "";
    }
  }

  function PrintInt(n: int): string {
    if n < 0 then "-" + PrintNat(-n) else PrintNat(n)
  }

  // Reads an optional sign and digits, if the value lies within the bounds.
  function ReadInt(text: string, low: int, high: int): Option<int> {
    if text == "" then None
    else
      var signed := text[0] == '-' || text[0] == '+';
      var digits := if signed then text[1..] else text;
      var magnitude := ReadNat(digits);
      if digits == "" || magnitude.None? then None
      else
        var n: int := if text[0] == '-' then -(magnitude.value as int) else magnitude.value;
        if low <= n <= high then Some(n) else None
  }

  lemma IntReadsBack(n: int, low: int, high: int)
    ensures ReadInt(PrintInt(n), low, high) == if low <= n <= high then Some(n) else None
  {
    var magnitude := if n < 0 then -n else n;
    var digits := PrintNat(magnitude);
    NatReadsBack(magnitude);
    PrintsDigits(magnitude);
    assert IsDigit(digits[0]);
    assert ("-" + digits)[1..] == digits;
  }

  // ---------------------------------------------------------------- hexadecimal

  function HexChar(d: nat): (c: char)
    requires d < 16
    ensures IsHex(c)
  {
    if d < 10 then DigitChar(d) else ((d - 10) as char) + 'A'
  }

  function HexValue(c: char): (d: nat)
    requires IsHex(c)
    ensures d < 16
  {
    if IsDigit(c) then DigitValue(c) else if IsUpper(c) then (c - 'A') as nat + 10 else (c - 'a') as nat + 10
  }

  function Upper(c: char): char {
    if IsLower(c) then c - 'a' + 'A' else c
  }

  function Uppered(s: string): (r: string)
    ensures |r| == |s|
  {
    if s == "" then "" else Uppered(s[..|s| - 1]) + [Upper(s[|s| - 1])]
  }

  lemma HexCharReadsBack(d: nat)
    requires d < 16
    ensures HexValue(HexChar(d)) == d
  {
  }

  lemma HexCharPrintsBack(c: char)
    requires IsHex(c)
    ensures HexChar(HexValue(c)) == Upper(c)
  {
  }

  predicate AllHex(text: string) {
    forall i :: 0 <= i < |text| ==> IsHex(text[i])
  }

  function Pow16(k: nat): (n: nat)
    ensures n > 0
  {
    if k == 0 then 1 else 16 * Pow16(k - 1)
  }

  // The low `width` hexadecimal digits, upper case, padded with zeros.
  function PrintHex(n: nat, width: nat): (text: string)
    ensures |text| == width && AllHex(text)
  {
    if width == 0 then "" else PrintHex(n / 16, width - 1) + [HexChar(n % 16)]
  }

  function ReadHex(text: string): (n: nat)
    requires AllHex(text)
    ensures n < Pow16(|text|)
  {
    if text == "" then 0
    else
      var front := ReadHex(text[..|text| - 1]);
      16 * front + HexValue(text[|text| - 1])
  }

  lemma {:induction false} HexReadsBack(n: nat, width: nat)
    requires n < Pow16(width)
    ensures ReadHex(PrintHex(n, width)) == n
  {
    if width > 0 {
      HexReadsBack(n / 16, width - 1);
      HexCharReadsBack(n % 16);
      var front := PrintHex(n / 16, width - 1);
      assert (front + [HexChar(n % 16)])[..width - 1] == front;
    }
  }

  lemma HexPrintsApart(a: nat, b: nat, width: nat)
    requires a < Pow16(width) && b < Pow16(width)
    ensures PrintHex(a, width) == PrintHex(b, width) <==> a == b
  {
    HexReadsBack(a, width);
    HexReadsBack(b, width);
  }

  lemma {:induction false} HexPrintsBack(text: string)
    requires AllHex(text)
    ensures PrintHex(ReadHex(text), |text|) == Uppered(text)
  {
    if text != "" {
      var front, last := text[..|text| - 1], text[|text| - 1];
      HexPrintsBack(front);
      HexCharPrintsBack(last);
      var n := ReadHex(text);
      assert n / 16 == ReadHex(front) && n % 16 == HexValue(last);
    }
  }

}
