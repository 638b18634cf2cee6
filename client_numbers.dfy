/// JavaScript numbers as the client's schedule grid holds them, and the
/// global `parseInt` with no radix (ECMAScript 2024, section 19.2.5), which
/// turns the text of a number input into a cell value.
module ClientNumbers {
  import opened Common

  /// A grid cell: a finite number, or `NaN` (the cell being edited while its
  /// input is empty).
  datatype JsNumber = Finite(value: real) | NaN

  /// The `+` operator on numbers: `NaN` absorbs everything.
  function JsAdd(a: JsNumber, b: JsNumber): (r: JsNumber)
    ensures r.Finite? <==> a.Finite? && b.Finite?
    ensures r.Finite? ==> r.value == a.value + b.value
  {
    if a.Finite? && b.Finite? then Finite(a.value + b.value) else NaN
  }

  /// StrWhiteSpaceChar: the white space and line terminators that `parseInt`
  /// skips before the number.
  predicate IsJsSpace(c: char) {
    var k := c as int;
    k == 0x09 || k == 0x0A || k == 0x0B || k == 0x0C || k == 0x0D || k == 0x20
    || k == 0xA0 || k == 0x1680 || (0x2000 <= k <= 0x200A) || k == 0x2028
    || k == 0x2029 || k == 0x202F || k == 0x205F || k == 0x3000 || k == 0xFEFF
  }

  function TrimStart(s: string): (r: string)
    ensures |r| <= |s| && r == s[|s| - |r|..]
    ensures forall i :: 0 <= i < |s| - |r| ==> IsJsSpace(s[i])
    ensures |r| > 0 ==> !IsJsSpace(r[0])
  {
    if |s| > 0 && IsJsSpace(s[0]) then TrimStart(s[1..]) else s
  }

  /// The value of `c` as a digit in base 36, when it is one.
  function DigitValue(c: char): (r: Option<nat>)
    ensures r.Some? ==> r.value < 36
    ensures IsDigit(c) ==> r == Some(c as int - '0' as int)
  {
    if '0' <= c <= '9' then Some(c as int - '0' as int)
    else if 'a' <= c <= 'z' then Some(c as int - 'a' as int + 10)
    else if 'A' <= c <= 'Z' then Some(c as int - 'A' as int + 10)
    else None
  }

  predicate IsRadixDigit(c: char, radix: nat) {
    DigitValue(c).Some? && DigitValue(c).value < radix
  }

  /// The length of the longest prefix of `s` made of digits of `radix`.
  function DigitRun(s: string, radix: nat): (n: nat)
    ensures n <= |s|
    ensures forall i :: 0 <= i < n ==> IsRadixDigit(s[i], radix)
    ensures n < |s| ==> !IsRadixDigit(s[n], radix)
  {
    if |s| > 0 && IsRadixDigit(s[0], radix) then 1 + DigitRun(s[1..], radix) else 0
  }

  /// The mathematical value of a string of digits of `radix`, most
  /// significant first (it is only applied to such strings).
  function DigitsValue(z: string, radix: nat): nat {
    if |z| == 0 then 0
    else DigitsValue(z[..|z| - 1], radix) * radix + DigitValue(z[|z| - 1]).GetOr(0)
  }

  /// The text after the white space and the sign.
  function Unsigned(s: string): string {
    var t := TrimStart(s);
    if |t| > 0 && (t[0] == '-' || t[0] == '+') then t[1..] else t
  }

  predicate HasHexPrefix(u: string) {
    |u| >= 2 && u[0] == '0' && (u[1] == 'x' || u[1] == 'X')
  }

  /// `parseInt(s)`: `None` stands for `NaN`. Skips leading white space,
  /// takes one sign, reads hexadecimal after `0x`/`0X` and decimal
  /// otherwise, and stops at the first character that is not a digit.
  function ParseInt(s: string): (r: Option<int>)
    ensures r.None? <==>
      var u := Unsigned(s);
      if HasHexPrefix(u) then |u| == 2 || !IsRadixDigit(u[2], 16)
      else |u| == 0 || !IsRadixDigit(u[0], 10)
  {
    var t := TrimStart(s);
    var negative := |t| > 0 && t[0] == '-';
    var u := Unsigned(s);
    var radix := if HasHexPrefix(u) then 16 else 10;
    var v := if HasHexPrefix(u) then u[2..] else u;
    var n := DigitRun(v, radix);
    if n == 0 then None
    else
      var magnitude: int := DigitsValue(v[..n], radix);
      Some(if negative then -magnitude else magnitude)
  }

  lemma {:induction false} DigitsValueOfNatText(n: nat)
    ensures DigitsValue(NatText(n), 10) == n
  {
    var z := NatText(n);
    if n >= 10 {
      DigitsValueOfNatText(n / 10);
      assert z[..|z| - 1] == NatText(n / 10);
    }
  }

  lemma {:induction false} DigitRunOfDigits(z: string, tail: string)
    requires forall i :: 0 <= i < |z| ==> IsDigit(z[i])
    requires |tail| == 0 || !IsRadixDigit(tail[0], 10)
    ensures DigitRun(z + tail, 10) == |z|
  {
    if |z| > 0 {
      assert (z + tail)[1..] == z[1..] + tail;
      DigitRunOfDigits(z[1..], tail);
    } else {
      assert z + tail == tail;
    }
  }

  /// `parseInt` reads back the decimal text of a whole number, and stops
  /// at a trailing non-digit (`parseInt("12px") == 12`), unless the text is
  /// `0` followed by `x`, which starts a hexadecimal number instead.
  lemma ParseIntReadsNatText(n: nat, tail: string)
    requires |tail| == 0 || !IsRadixDigit(tail[0], 10)
    requires n == 0 ==> |tail| == 0 || (tail[0] != 'x' && tail[0] != 'X')
    ensures ParseInt(NatText(n) + tail) == Some(n)
  {
    var s := NatText(n) + tail;
    assert !IsJsSpace(s[0]) && s[0] != '-' && s[0] != '+';
    assert TrimStart(s) == s;
    assert Unsigned(s) == s;
    assert !HasHexPrefix(s);
    DigitRunOfDigits(NatText(n), tail);
    assert s[..|NatText(n)|] == NatText(n);
    DigitsValueOfNatText(n);
  }

  /// A leading minus sign negates the number read.
  lemma ParseIntReadsNegative(n: nat)
    ensures ParseInt("-" + NatText(n)) == Some(-(n as int))
  {
    var s := "-" + NatText(n);
    assert TrimStart(s) == s;
    assert Unsigned(s) == NatText(n);
    assert !HasHexPrefix(NatText(n));
    DigitRunOfDigits(NatText(n), "");
    assert NatText(n) + "" == NatText(n);
    assert NatText(n)[..|NatText(n)|] == NatText(n);
    DigitsValueOfNatText(n);
  }
}
