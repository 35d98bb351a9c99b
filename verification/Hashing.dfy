/** The hash of `source/table.c`: a sum of signed characters reduced with C's `%`. */
module Hashing {
  import opened Bytes

  /** A byte read as a C `char`, which is signed. */
  function Signed(b: Byte): int {
    if b < 128 then b else b - 256
  }

  function SignedSum(s: seq<Byte>): int {
    if s == [] then 0 else Signed(s[0]) + SignedSum(s[1..])
  }

  /** What gets reduced: every character of a short key, two at each end of a long one. */
  function HashSum(key: CString): int {
    if |key| < 5 then SignedSum(key)
    else Signed(key[0]) + Signed(key[1]) + Signed(key[|key| - 1]) + Signed(key[|key| - 2])
  }

  /** C's `%`: the remainder takes the sign of the dividend. */
  function TruncMod(a: int, n: int): int
    requires n > 0
  {
    if a >= 0 then a % n else -((-a) % n)
  }

  function HashOf(key: CString, n: int): int
    requires n > 0
  {
    TruncMod(HashSum(key), n)
  }

  /** A C string whose hash indexes a table of any size. */
  predicate Placeable(s: seq<Byte>) {
    NulFree(s) && HashSum(s) >= 0
  }

  /** A key the hash table can place. */
  type Key = s: seq<Byte> | Placeable(s)

  /** The home slot of a key in a table of `n` slots. */
  function Home(key: Key, n: int): (h: int)
    requires n > 0
    ensures 0 <= h < n
  {
    HashOf(key, n)
  }

  lemma {:induction false} SumOfAscii(s: seq<Byte>)
    requires forall i :: 0 <= i < |s| ==> 1 <= s[i] < 128
    ensures |s| <= SignedSum(s) <= 127 * |s|
  {
    if s != [] {
      SumOfAscii(s[1..]);
    }
  }

  /** Every string of bytes 1 to 127 is such a key. */
  lemma AsciiIsKey(s: seq<Byte>)
    requires forall i :: 0 <= i < |s| ==> 1 <= s[i] < 128
    ensures Placeable(s)
  {
    SumOfAscii(s);
  }

  /** The keys are exactly the strings whose hash indexes tables of every size. */
  lemma KeyIff(s: CString)
    ensures Placeable(s) <==> forall n :: n > 0 ==> 0 <= HashOf(s, n) < n
  {
    if HashSum(s) < 0 {
      var n := 1 - HashSum(s);
      assert HashOf(s, n) == HashSum(s);
    }
  }

  /** The hash indexes the table exactly when the sum is non-negative or a multiple of the capacity:
      a key with bytes above 127 can index before the array. */
  lemma HashInRangeIff(key: CString, n: int)
    requires n > 0
    ensures 0 <= HashOf(key, n) < n <==> HashSum(key) >= 0 || (-HashSum(key)) % n == 0
  {
  }

  /** The failing input: one byte of 200 is -56 as a `char`, and -56 % 3 is -2. */
  lemma HashBeforeArray()
    ensures HashOf([200], 3) == -2
  {
    assert SignedSum([200]) == -56 by {
      assert [200 as Byte][1..] == [];
    }
  }

  /** A key of at least five characters hashes as the first two and the last two of them do, whatever its
      length and whatever stands between. */
  lemma LongKeyHash(key: CString, n: int)
    requires |key| >= 5 && n > 0
    ensures HashOf(key, n) == HashOf([key[0], key[1], key[|key| - 2], key[|key| - 1]], n)
  {
    ShortSum([key[0], key[1], key[|key| - 2], key[|key| - 1]]);
  }

  /** Character `i` of a key as a signed number, and 0 behind its end. */
  function CharAt(key: CString, i: nat): int {
    if i >= |key| then 0 else if key[i] >= 128 then key[i] as int - 256 else key[i]
  }

  /** The remainder of a key of at most four characters is that of the sum of all of them. */
  lemma ShortKeyHash(key: CString, n: int)
    requires |key| <= 4 && n > 0
    ensures HashOf(key, n) == TruncMod(CharAt(key, 0) + CharAt(key, 1) + CharAt(key, 2) + CharAt(key, 3), n)
  {
    hide TruncMod;
    ShortSum(key);
  }

  /** The remainder leaves a multiple of `n`, is smaller than `n` and has the sign of the dividend. */
  lemma TruncModIs(a: int, n: int) returns (quotient: int)
    requires n > 0
    ensures a == quotient * n + TruncMod(a, n)
    ensures if a >= 0 then 0 <= TruncMod(a, n) < n else -n < TruncMod(a, n) <= 0
  {
    quotient := if a >= 0 then a / n else -(-a / n);
  }

  lemma ShortSum(key: CString)
    requires |key| <= 4
    ensures SignedSum(key) == CharAt(key, 0) + CharAt(key, 1) + CharAt(key, 2) + CharAt(key, 3)
  {
    RestOfKey(key, 0);
    RestOfKey(key, 1);
    RestOfKey(key, 2);
    RestOfKey(key, 3);
    assert Rest(key, 0) == key && Rest(key, 4) == [];
  }

  /** A key from its character `i` on. */
  function Rest(key: CString, i: nat): seq<Byte> {
    if i >= |key| then [] else key[i..]
  }

  lemma RestOfKey(key: CString, i: nat)
    ensures SignedSum(Rest(key, i)) == CharAt(key, i) + SignedSum(Rest(key, i + 1))
  {
    if i < |key| {
      assert key[i..][1..] == Rest(key, i + 1);
    }
  }

  /** "abcdef" in seven slots has slot 6, and "abc" slot 0. */
  lemma LiteralHashes()
    ensures HashOf([97, 98, 99, 100, 101, 102], 7) == 6 && HashOf([97, 98, 99], 7) == 0
  {
    ShortSum([97, 98, 99]);
  }

  lemma SumStep(s: seq<Byte>, i: int)
    requires 0 <= i < |s|
    ensures SignedSum(s[i..]) == Signed(s[i]) + SignedSum(s[i + 1..])
  {
    assert s[i..][1..] == s[i + 1..];
  }

  method Hash(key: CString, n: int) returns (r: int)
    requires n > 0
    ensures r == HashOf(key, n)
    ensures Placeable(key) ==> r == Home(key, n)
  {
    var sum := 0;
    var count := |key|;
    if count < 5 {
      while count != 0
        invariant 0 <= count <= |key|
        invariant sum == SignedSum(key[count..])
      {
        SumStep(key, count - 1);
        sum := sum + Signed(key[count - 1]);
        count := count - 1;
      }
      assert key[0..] == key;
    } else {
      sum := Signed(key[0]) + Signed(key[1]) + Signed(key[count - 1]) + Signed(key[count - 2]);
    }
    assert sum == HashSum(key);
    r := TruncMod(sum, n);
  }
}
