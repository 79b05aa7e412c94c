/** Printing integers two digits at a time. */
module Itop {
  import opened Texts

  const LIMIT := 0x1_0000_0000_0000_0000

  const DIGITS: string :=
    "00010203040506070809" + "10111213141516171819" + "20212223242526272829" + "30313233343536373839" +
    "40414243444546474849" +
    "50515253545556575859" + "60616263646566676869" + "70717273747576777879" + "80818283848586878889" +
    "90919293949596979899"

  /** digits10 */
  function Digits10(v: nat): nat {
    if v < 10 then 1
    else if v < 100 then 2
    else if v < 1000 then 3
    else if v < 1000000000000 then
      if v < 100000000 then
        if v < 1000000 then
          if v < 10000 then 4 else 5 + (if v >= 100000 then 1 else 0)
        else 7 + (if v >= 10000000 then 1 else 0)
      else if v < 10000000000 then 9 + (if v >= 1000000000 then 1 else 0)
      else 11 + (if v >= 100000000000 then 1 else 0)
    else 12 + Digits10(v / 1000000000000)
  }

  function Digit(d: nat): char
    requires d < 10
  {
    ('0' as int + d) as char
  }

  // ------------------------------------------------------- how many digits

  function Pow10(k: nat): nat {
    if k == 0 then 1 else 10 * Pow10(k - 1)
  }

  lemma {:induction false} LengthBetween(v: nat, k: nat)
    requires k >= 1 && v < Pow10(k) && (k == 1 || Pow10(k - 1) <= v)
    ensures |Decimal(v)| == k
    decreases k
  {
    if k > 1 {
      LengthBetween(v / 10, k - 1);
    }
  }

  lemma {:induction false} LengthAbove(v: nat)
    requires v >= 1000000
    ensures |Decimal(v)| == 6 + |Decimal(v / 1000000)|
  {
    assert v / 10 / 10 == v / 100 && v / 100 / 10 == v / 1000 && v / 1000 / 10 == v / 10000;
    assert v / 10000 / 10 == v / 100000 && v / 100000 / 10 == v / 1000000;
    assert |Decimal(v)| == 1 + |Decimal(v / 10)|;
    assert |Decimal(v / 10)| == 1 + |Decimal(v / 100)|;
    assert |Decimal(v / 100)| == 1 + |Decimal(v / 1000)|;
    assert |Decimal(v / 1000)| == 1 + |Decimal(v / 10000)|;
    assert |Decimal(v / 10000)| == 1 + |Decimal(v / 100000)|;
  }

  lemma {:induction false} Powers()
    ensures Pow10(1) == 10 && Pow10(2) == 100 && Pow10(3) == 1000 && Pow10(4) == 10000 && Pow10(5) == 100000 &&
      Pow10(6) == 1000000
    ensures Pow10(7) == 10000000 && Pow10(8) == 100000000 && Pow10(9) == 1000000000 && Pow10(10) == 10000000000
    ensures Pow10(11) == 100000000000 && Pow10(12) == 1000000000000
  {
    assert Pow10(4) == 10 * Pow10(3);
    assert Pow10(6) == 10 * Pow10(5) && Pow10(5) == 10 * Pow10(4);
    assert Pow10(8) == 10 * Pow10(7) && Pow10(7) == 10 * Pow10(6);
    assert Pow10(10) == 10 * Pow10(9) && Pow10(9) == 10 * Pow10(8);
    assert Pow10(12) == 10 * Pow10(11) && Pow10(11) == 10 * Pow10(10);
  }

  /** digits10 is the length of the decimal numeral. */
  lemma {:induction false} Digits10Counts(v: nat)
    ensures Digits10(v) == |Decimal(v)|
  {
    hide Decimal, Pow10;
    Powers();
    if v < 1000000000000 {
      var k := Digits10(v);
      LengthBetween(v, k);
    } else {
      LengthAbove(v);
      LengthAbove(v / 1000000);
      assert v / 1000000 / 1000000 == v / 1000000000000;
      Digits10Counts(v / 1000000000000);
    }
  }

  // ---------------------------------------------------------- the table

  function Row(r: nat): string
    requires r < 10
  {
    var d := Digit(r);
    [d, '0', d, '1', d, '2', d, '3', d, '4', d, '5', d, '6', d, '7', d, '8', d, '9']
  }

  function Rows(n: nat): string
    requires n <= 10
  {
    if n == 0 then "" else Rows(n - 1) + Row(n - 1)
  }

  lemma {:induction false} TableIsRows()
    ensures DIGITS == Rows(10)
  {
    assert Rows(2) == Row(0) + Row(1);
    assert Rows(4) == Rows(2) + Row(2) + Row(3);
    assert Rows(6) == Rows(4) + Row(4) + Row(5);
    assert Rows(8) == Rows(6) + Row(6) + Row(7);
    assert Rows(10) == Rows(8) + Row(8) + Row(9);
    assert Row(0) == "00010203040506070809" && Row(1) == "10111213141516171819" && Row(2) == "20212223242526272829";
    assert Row(3) == "30313233343536373839" && Row(4) == "40414243444546474849" && Row(5) == "50515253545556575859";
    assert Row(6) == "60616263646566676869" && Row(7) == "70717273747576777879" && Row(8) == "80818283848586878889";
    assert Row(9) == "90919293949596979899";
  }

  lemma {:induction false} RowAt(r: nat, j: nat)
    requires r < 10 && j < 10
    ensures Row(r)[2 * j] == Digit(r) && Row(r)[2 * j + 1] == Digit(j)
  {
  }

  lemma {:induction false} RowsAt(n: nat, r: nat, k: nat)
    requires r < n <= 10 && k < 20
    ensures |Rows(n)| == 20 * n && Rows(n)[20 * r + k] == Row(r)[k]
    decreases n
  {
    hide Row;
    RowsLength(n);
    RowsLength(n - 1);
    if r < n - 1 {
      RowsAt(n - 1, r, k);
    }
  }

  lemma {:induction false} RowsLength(n: nat)
    requires n <= 10
    ensures |Rows(n)| == 20 * n
  {
    if n > 0 {
      RowsLength(n - 1);
    }
  }

  /** Entry `i` of the table is the two digits of `i`. */
  lemma {:induction false} TableAt(i: nat)
    requires i < 100
    ensures |DIGITS| == 200 && DIGITS[2 * i] == Digit(i / 10) && DIGITS[2 * i + 1] == Digit(i % 10)
  {
    hide Row, Rows, DIGITS;
    TableIsRows();
    RowsAt(10, i / 10, 2 * (i % 10));
    RowsAt(10, i / 10, 2 * (i % 10) + 1);
    RowAt(i / 10, i % 10);
  }

  // ---------------------------------------------------------- the printer

  /** The last two digits of a numeral. */
  lemma {:induction false} LastTwo(v: nat)
    requires v >= 10
    ensures v >= 100 ==> Decimal(v) == Decimal(v / 100) + [Digit(v % 100 / 10), Digit(v % 100 % 10)]
    ensures v < 100 ==> Decimal(v) == [Digit(v / 10), Digit(v % 10)]
  {
    assert Decimal(v) == Decimal(v / 10) + [Digit(v % 10)];
    if v >= 100 {
      assert v / 10 % 10 == v % 100 / 10 && v % 10 == v % 100 % 10 && v / 10 / 10 == v / 100;
      assert Decimal(v / 10) == Decimal(v / 100) + [Digit(v / 10 % 10)];
    }
  }

  /** Two digits from the table. */
  method PutPair(dst: array<char>, next: nat, i: nat)
    requires 1 <= next < dst.Length && i + 1 < |DIGITS|
    modifies dst
    ensures dst[next - 1] == DIGITS[i] && dst[next] == DIGITS[i + 1]
    ensures forall k :: 0 <= k < dst.Length && k != next && k != next - 1 ==> dst[k] == old(dst[k])
  {
    hide DIGITS;
    dst[next] := DIGITS[i + 1];
    dst[next - 1] := DIGITS[i];
  }

  lemma {:induction false} Cut(d: string, n: nat, front: string, pair: string)
    requires n <= |d| && d[..n] == front + pair && |pair| == 2
    ensures n >= 2 && d[..n - 2] == front && d[n - 2] == pair[0] && d[n - 1] == pair[1]
  {
    assert d[n - 2] == d[..n][n - 2] && d[n - 1] == d[..n][n - 1];
    assert d[..n - 2] == d[..n][..n - 2];
  }

  /** The last one or two digits. */
  method LastDigits(dst: array<char>, next: nat, v: nat)
    requires v < 100 && next + 1 == |Decimal(v)| <= dst.Length
    modifies dst
    ensures dst[..next + 1] == Decimal(v) && forall k :: next < k < dst.Length ==> dst[k] == old(dst[k])
  {
    hide Decimal, DIGITS;
    NumeralEnds(v);
    if v < 10 {
      dst[next] := ('0' as int + v) as char;
    } else {
      TableAt(v);
      LastTwo(v);
      PutPair(dst, next, v * 2);
    }
  }

  /** mk_string_itop: the decimal numeral, CR, LF and the terminator; the length without the terminator. */
  method StringItop(value: nat, dst: array<char>) returns (len: nat)
    requires value < LIMIT && Digits10(value) + 3 <= dst.Length
    modifies dst
    ensures len == Digits10(value) + 2 && dst[..len] == Decimal(value) + "\r\n" && dst[len] == '\0'
    ensures forall k :: len < k < dst.Length ==> dst[k] == old(dst[k])
  {
    hide Digits10, Decimal, DIGITS;
    var length := Digits10(value);
    Digits10Counts(value);
    var next, v := length - 1, value;
    ghost var d := Decimal(value);
    while v >= 100
      invariant v >= 0 && -1 <= next < length && d[..next + 1] == Decimal(v)
      invariant forall k :: next < k < length ==> dst[k] == d[k]
      invariant forall k :: length <= k < dst.Length ==> dst[k] == old(dst[k])
      decreases v
    {
      var i := (v % 100) * 2;
      TableAt(v % 100);
      LastTwo(v);
      NumeralNotEmpty(v / 100);
      Cut(d, next + 1, Decimal(v / 100), [DIGITS[i], DIGITS[i + 1]]);
      v := v / 100;
      PutPair(dst, next, i);
      next := next - 2;
    }
    NumeralNotEmpty(v);
    LastDigits(dst, next, v);
    assert dst[..length] == d by {
      assert forall k :: 0 <= k <= next ==> dst[k] == dst[..next + 1][k] == d[..next + 1][k];
    }
    dst[length] := '\r';
    dst[length + 1] := '\n';
    dst[length + 2] := '\0';
    len := length + 2;
    assert dst[..len] == dst[..length] + ['\r', '\n'];
  }

  lemma {:induction false} NumeralNotEmpty(v: nat)
    ensures |Decimal(v)| > 0
  {
  }

  lemma {:induction false} NumeralEnds(v: nat)
    ensures v < 10 ==> Decimal(v) == [Digit(v)]
    ensures 10 <= v < 100 ==> |Decimal(v)| == 2
  {
  }

  /** A numeral has no leading zero but for zero itself. */
  lemma {:induction false} NoLeadingZero(v: nat)
    ensures Decimal(v) != "" && (Decimal(v)[0] == '0' ==> v == 0)
    decreases v
  {
    if v >= 10 {
      NoLeadingZero(v / 10);
    }
  }
}
