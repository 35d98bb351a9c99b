/** C's `atoi`, which reads the table sizes a server is started with and those that travel to a backup. */
module TableSizes {
  import opened Bytes

  predicate IsSpace(b: Byte) {
    b == 32 || 9 <= b <= 13
  }

  function DigitsOn(s: seq<Byte>, acc: int): int
    decreases |s|
  {
    if s == [] || s[0] < 48 || s[0] > 57 then acc else DigitsOn(s[1..], acc * 10 + (s[0] as int - 48))
  }

  /** Leading white space, a sign, then as many digits as there are. */
  function Atoi(s: seq<Byte>): int
    decreases |s|
  {
    if s == [] then 0
    else if IsSpace(s[0]) then Atoi(s[1..])
    else if s[0] == 45 then -DigitsOn(s[1..], 0)
    else if s[0] == 43 then DigitsOn(s[1..], 0)
    else DigitsOn(s, 0)
  }

  // ----- against numbers written in base ten -----

  /** The number that digits stand for, the least significant one last. */
  function BaseTen(digits: seq<Byte>): int {
    if digits == [] then 0 else BaseTen(digits[..|digits| - 1]) * 10 + (digits[|digits| - 1] as int - 48)
  }

  function Decimal(n: nat): (s: CString)
    ensures s != [] && forall i :: 0 <= i < |s| ==> 48 <= s[i] <= 57
  {
    if n < 10 then [48 + n] else Decimal(n / 10) + [48 + n % 10]
  }

  lemma {:induction false} DecimalStands(n: nat)
    ensures BaseTen(Decimal(n)) == n
  {
    if n < 10 {
      assert [48 + n][..0] == [];
    } else {
      var front := Decimal(n / 10);
      DecimalStands(n / 10);
      assert (front + [48 + n % 10])[..|front|] == front;
    }
  }

  lemma {:induction false} DigitsAppend(a: seq<Byte>, b: seq<Byte>, acc: int)
    requires forall i :: 0 <= i < |a| ==> 48 <= a[i] <= 57
    ensures DigitsOn(a + b, acc) == DigitsOn(b, DigitsOn(a, acc))
    decreases |a|
  {
    if a == [] {
      assert a + b == b;
    } else {
      assert (a + b)[1..] == a[1..] + b;
      DigitsAppend(a[1..], b, acc * 10 + (a[0] as int - 48));
    }
  }

  lemma {:induction false} DigitsStand(digits: seq<Byte>)
    requires forall i :: 0 <= i < |digits| ==> 48 <= digits[i] <= 57
    ensures DigitsOn(digits, 0) == BaseTen(digits)
    decreases |digits|
  {
    if digits != [] {
      var front, last := digits[..|digits| - 1], [digits[|digits| - 1]];
      DigitsStand(front);
      DigitsAppend(front, last, 0);
      assert digits == front + last && last[1..] == [];
    }
  }

  lemma {:induction false} AtoiSpaces(spaces: seq<Byte>, s: seq<Byte>)
    requires forall i :: 0 <= i < |spaces| ==> spaces[i] in {9, 10, 11, 12, 13, 32}
    ensures Atoi(spaces + s) == Atoi(s)
    decreases |spaces|
  {
    if spaces == [] {
      assert spaces + s == s;
    } else {
      assert (spaces + s)[1..] == spaces[1..] + s;
      AtoiSpaces(spaces[1..], s);
    }
  }

  /** Every text is white space, at most one sign, digits and what is behind them, each as long as can be.
      It reads as the number the digits stand for, which is 0 without any, negated behind a minus. */
  lemma AtoiText(spaces: seq<Byte>, sign: seq<Byte>, digits: seq<Byte>, behind: seq<Byte>)
    requires forall i :: 0 <= i < |spaces| ==> spaces[i] in {9, 10, 11, 12, 13, 32}
    requires sign == [] || sign == [43] || sign == [45]
    requires forall i :: 0 <= i < |digits| ==> 48 <= digits[i] <= 57
    requires behind == [] || behind[0] < 48 || behind[0] > 57
    requires sign == [] && digits == [] && behind != [] ==> behind[0] !in {9, 10, 11, 12, 13, 32, 43, 45}
    ensures Atoi(spaces + (sign + (digits + behind))) == if sign == [45] then -BaseTen(digits) else BaseTen(digits)
  {
    var text := digits + behind;
    AtoiSpaces(spaces, sign + text);
    DigitsStand(digits);
    DigitsAppend(digits, behind, 0);
    assert text != [] ==> text[0] == if digits == [] then behind[0] else digits[0];
    if sign == [] {
      assert sign + text == text;
    } else {
      assert (sign + text)[1..] == text && (sign + text)[0] == sign[0];
    }
  }

  /** Written in base ten and read again, a number is itself. */
  lemma AtoiDecimal(n: nat)
    ensures Atoi(Decimal(n)) == n
  {
    hide Atoi, Decimal, BaseTen;
    AtoiText([], [], Decimal(n), []);
    DecimalStands(n);
    assert [] + ([] + (Decimal(n) + [])) == Decimal(n);
  }

  /** "12" is twelve. */
  lemma AtoiTwelve()
    ensures Atoi([49, 50]) == 12
  {
    assert [49 as Byte, 50][1..] == [50] && [50 as Byte][1..] == [];
    assert DigitsOn([49, 50], 0) == DigitsOn([50], 1) == DigitsOn([], 12);
  }
}
