/** Round trips through the wire format, in both directions, and what follows from them. */
module CodecProofs {
  import opened Bytes
  import opened Messages
  import opened Codec

  // ----- integers -----

  lemma Bytes16(x: int)
    ensures Be16(x) == [(x / 256) % 256, x % 256]
  {
    assert BigEndian(x / 256 / 256, 0) == [];
    assert BigEndian(x / 256, 1) == [(x / 256) % 256];
  }

  lemma Bytes32(x: int)
    ensures Be32(x) == [(x / 256 / 256 / 256) % 256, (x / 256 / 256) % 256, (x / 256) % 256, x % 256]
  {
    var x1 := x / 256;
    var x2 := x1 / 256;
    Bytes16(x2);
    assert BigEndian(x1, 3) == Be16(x2) + [x1 % 256];
    assert BigEndian(x, 4) == BigEndian(x1, 3) + [x % 256];
  }

  lemma Short16(x: int, rest: seq<Byte>)
    ensures U16(Be16(x) + rest) == x % 0x1_0000
    ensures -0x8000 <= x < 0x8000 ==> S16(Be16(x) + rest) == x
  {
    Bytes16(x);
    Digits16(Be16(x) + rest);
    assert x / 256 / 256 == x / 0x1_0000;
  }

  /** A number from the four lowest digits to base 256 and what stands above them. */
  lemma FourDigits(x: int)
    ensures var x1 := x / 256; var x2 := x1 / 256; var x3 := x2 / 256;
      x == x3 / 256 * 0x1_0000_0000 + ((x3 % 256 * 256 + x2 % 256) * 256 + x1 % 256) * 256 + x % 256
  {
  }

  lemma Int32Back(x: Int32, rest: seq<Byte>)
    ensures S32(Be32(x) + rest) == x
  {
    Bytes32(x);
    Digits32(Be32(x) + rest);
    FourDigits(x);
  }

  lemma Be16Back(b: seq<Byte>)
    requires |b| >= 2
    ensures Be16(S16(b)) == b[..2] && Be16(U16(b)) == b[..2]
  {
    Digits16(b);
    Bytes16(S16(b));
    Bytes16(U16(b));
  }

  lemma DigitsOf(x: int, d0: int, d1: Byte, d2: Byte, d3: Byte)
    requires x == ((d0 * 256 + d1) * 256 + d2) * 256 + d3
    ensures x % 256 == d3 && (x / 256) % 256 == d2 && (x / 256 / 256) % 256 == d1 && x / 256 / 256 / 256 == d0
  {
    var x2: int := d0 * 256 + d1;
    var x1: int := x2 * 256 + d2;
    assert x == x1 * 256 + d3;
    assert x / 256 == x1;
    assert x1 / 256 == x2;
    assert x2 / 256 == d0;
  }

  lemma Be32Back(b: seq<Byte>)
    requires |b| >= 4
    ensures Be32(S32(b)) == b[..4]
  {
    Digits32(b);
    var d0: int := b[0];
    DigitsOf(S32(b), if U32(b) < 0x8000_0000 then d0 else d0 - 256, b[1], b[2], b[3]);
    Bytes32(S32(b));
  }

  // ----- decoding what was encoded -----

  lemma ReadKeyBack(k: seq<Byte>, rest: seq<Byte>)
    requires |k| <= 0x7FFF
    ensures ReadKey(EncodeKey(k) + rest) == Got(k, rest)
  {
    var b := EncodeKey(k) + rest;
    assert b == Be16(|k|) + (k + rest);
    Short16(|k|, k + rest);
    assert b[2..] == k + rest;
  }

  lemma ReadKeysCons(b: seq<Byte>, n: nat, ks: seq<seq<Byte>>, rest: seq<Byte>)
    requires n > 0 && |ks| > 0 && ReadKey(b).Got? && ReadKey(b).value == ks[0]
    requires ReadKeys(ReadKey(b).rest, n - 1) == Got(ks[1..], rest)
    ensures ReadKeys(b, n) == Got(ks, rest)
  {
    assert [ks[0]] + ks[1..] == ks;
  }

  lemma EncodeKeysFirst(ks: seq<seq<Byte>>, rest: seq<Byte>)
    requires ks != []
    ensures EncodeKeys(ks) + rest == EncodeKey(ks[0]) + (EncodeKeys(ks[1..]) + rest)
  {
    Assoc(EncodeKey(ks[0]), EncodeKeys(ks[1..]), rest);
  }

  lemma {:induction false} ReadKeysBack(ks: seq<seq<Byte>>, rest: seq<Byte>)
    requires forall i :: 0 <= i < |ks| ==> |ks[i]| <= 0x7FFF
    ensures ReadKeys(EncodeKeys(ks) + rest, |ks|) == Got(ks, rest)
    decreases |ks|
  {
    hide ReadKey, EncodeKey;
    if ks == [] {
      assert EncodeKeys(ks) + rest == rest;
    } else {
      var after := EncodeKeys(ks[1..]) + rest;
      EncodeKeysFirst(ks, rest);
      ReadKeyBack(ks[0], after);
      ReadKeysBack(ks[1..], rest);
      assert |ks[1..]| == |ks| - 1;
      ReadKeysCons(EncodeKey(ks[0]) + after, |ks|, ks, rest);
    }
  }

  lemma ReadDataBack(d: Data, rest: seq<Byte>)
    ensures ReadData(EncodeData(d) + rest) == Got(d, rest)
  {
    var b := EncodeData(d) + rest;
    Assoc(Be32(|d|), d, rest);
    Int32Back(|d|, d + rest);
    assert b[4..] == d + rest;
    assert b[4..4 + |d|] == b[4..][..|d|];
    assert b[4 + |d|..] == b[4..][|d|..];
  }

  lemma ReadTextBack(k: seq<Byte>, rest: seq<Byte>)
    requires |k| <= 0xFFFF
    ensures ReadText(EncodeKey(k) + rest) == Got(RawKey(k), rest)
  {
    assert EncodeKey(k) + rest == Be16(|k|) + (k + rest);
    Short16(|k|, k + rest);
    assert (EncodeKey(k) + rest)[2..] == k + rest;
  }

  lemma ReadTextsBack(ks: seq<seq<Byte>>, rest: seq<Byte>)
    requires |ks| < 0x8000_0000 && ShortKeys(ks)
    ensures ReadTexts(Be32(|ks|) + EncodeKeys(ks) + rest) == Got(RawKeys(ks), rest)
  {
    var b := Be32(|ks|) + EncodeKeys(ks) + rest;
    assert b == Be32(|ks|) + (EncodeKeys(ks) + rest);
    Int32Back(|ks|, EncodeKeys(ks) + rest);
    assert b[4..] == EncodeKeys(ks) + rest;
    ReadKeysBack(ks, rest);
  }

  predicate ShortKeys(ks: seq<seq<Byte>>) {
    forall i :: 0 <= i < |ks| ==> |ks[i]| <= 0x7FFF
  }

  /** Contents whose lengths fit their fields, with keys of any bytes. */
  predicate RawFits(r: Raw) {
    match r
    case RawKey(k) => |k| <= 0xFFFF
    case RawKeys(ks) => |ks| < 0x8000_0000 && ShortKeys(ks)
    case RawEntry(k, _) => |k| <= 0x7FFF
    case _ => true
  }

  lemma ReadRawBack(r: Raw, rest: seq<Byte>)
    requires RawFits(r)
    ensures ReadContent(EncodeRaw(r) + rest, RawType(r)) == Got(r, rest)
  {
    hide ReadKey, ReadData, ReadText, ReadTexts, EncodeKey, EncodeData, EncodeKeys, Be32, S32;
    match r
    case RawNone => assert EncodeRaw(r) + rest == rest;
    case RawResult(x) =>
      Int32Back(x, rest);
      assert (Be32(x) + rest)[4..] == rest;
    case RawValue(d) => ReadDataBack(d, rest);
    case RawKey(k) => ReadTextBack(k, rest);
    case RawKeys(ks) => ReadTextsBack(ks, rest);
    case RawEntry(k, d) =>
      Assoc(EncodeKey(k), EncodeData(d), rest);
      ReadKeyBack(k, EncodeData(d) + rest);
      ReadDataBack(d, rest);
  }

  lemma ReadContentBack(c: Content, rest: seq<Byte>)
    requires c.Value? ==> c.data.Some?
    requires FieldsFit(c)
    ensures ReadContent(EncodeContent(c) + rest, ContentType(c)) == Got(Bare(c), rest)
  {
    CookBare(c);
    ReadRawBack(Bare(c), rest);
  }

  lemma CookBare(c: Content)
    requires c.Value? ==> c.data.Some?
    ensures Cook(Bare(c)) == c
  {
  }

  lemma HeaderBack(m: Message, rest: seq<Byte>)
    ensures var b := Header(m) + rest;
      S16(b) == m.opcode && S16(b[2..]) == ContentType(m.content) && S16(b[4..]) == m.tableNum && b[6..] == rest
  {
    var b := Header(m) + rest;
    var b4 := Be16(m.tableNum) + rest;
    var b2 := Be16(ContentType(m.content)) + b4;
    assert b == Be16(m.opcode) + b2;
    assert b[2..] == b2;
    assert b[4..] == b4;
    assert b[6..] == rest;
    Short16(m.opcode, b2);
    Short16(ContentType(m.content), b4);
    Short16(m.tableNum, rest);
  }

  // ----- encoding what was decoded -----

  lemma ReadKeyCanon(b: seq<Byte>)
    requires ReadKey(b).Got?
    ensures var Got(k, r) := ReadKey(b); |k| <= 0x7FFF && EncodeKey(k) + r == b
  {
    Be16Back(b);
    Cut(b, 2, S16(b));
    var Got(k, r) := ReadKey(b);
    assert k == b[2..2 + |k|] && r == b[2 + |k|..];
    Assoc(Be16(|k|), k, r);
  }

  lemma {:induction false} ReadKeysCanon(b: seq<Byte>, n: nat)
    requires ReadKeys(b, n).Got?
    ensures |ReadKeys(b, n).value| == n && forall i :: 0 <= i < n ==> |ReadKeys(b, n).value[i]| <= 0x7FFF
    ensures EncodeKeys(ReadKeys(b, n).value) + ReadKeys(b, n).rest == b
    decreases n
  {
    if n > 0 {
      var Got(k, b1) := ReadKey(b);
      ReadKeyCanon(b);
      ReadKeysCanon(b1, n - 1);
      var Got(ks, r) := ReadKeys(b1, n - 1);
      EncodeKeysCons(k, ks, r);
    }
  }

  lemma EncodeKeysCons(k: seq<Byte>, ks: seq<seq<Byte>>, r: seq<Byte>)
    ensures EncodeKeys([k] + ks) + r == EncodeKey(k) + (EncodeKeys(ks) + r)
  {
    assert ([k] + ks)[1..] == ks;
  }

  lemma ReadDataCanon(b: seq<Byte>)
    requires ReadData(b).Got?
    ensures var Got(d, r) := ReadData(b); EncodeData(d) + r == b
  {
    Be32Back(b);
    Cut(b, 4, S32(b));
    var Got(d, r) := ReadData(b);
    Assoc(Be32(|d|), d, r);
  }

  function RawType(r: Raw): Short {
    match r
    case RawNone => CT_NONE
    case RawResult(_) => CT_RESULT
    case RawValue(_) => CT_VALUE
    case RawKey(_) => CT_KEY
    case RawKeys(_) => CT_KEYS
    case RawEntry(_, _) => CT_ENTRY
  }

  lemma CookedFit(ks: seq<seq<Byte>>)
    requires |ks| < 0x8000_0000 && ShortKeys(ks)
    ensures FieldsFit(Cook(RawKeys(ks)))
  {
    var ts := AsCStrings(ks);
    assert forall i :: 0 <= i < |ks| ==> |ts[i]| <= |ks[i]|;
  }

  lemma ReadTextCanon(b: seq<Byte>)
    requires ReadText(b).Got?
    ensures var Got(r, rest) := ReadText(b); r.RawKey? && |r.key| <= 0xFFFF && EncodeKey(r.key) + rest == b
  {
    Be16Back(b);
    assert b == b[..2] + (b[2..][..U16(b)] + b[2..][U16(b)..]);
  }

  lemma ReadTextsCanon(b: seq<Byte>)
    requires ReadTexts(b).Got?
    ensures var Got(r, rest) := ReadTexts(b);
      r.RawKeys? && |r.keys| < 0x8000_0000 && ShortKeys(r.keys) && Be32(|r.keys|) + EncodeKeys(r.keys) + rest == b
  {
    hide EncodeKeys, ReadKeys, Be32, S32;
    var n := S32(b);
    var Got(ks, rest) := ReadKeys(b[4..], n);
    ReadKeysCanon(b[4..], n);
    Be32Back(b);
    assert b == b[..4] + b[4..];
    Assoc(Be32(n), EncodeKeys(ks), rest);
  }

  lemma ReadContentCanon(b: seq<Byte>, ctype: int)
    requires ReadContent(b, ctype).Got?
    ensures RawType(ReadContent(b, ctype).value) == ctype && FieldsFit(Cook(ReadContent(b, ctype).value))
    ensures EncodeRaw(ReadContent(b, ctype).value) + ReadContent(b, ctype).rest == b
  {
    hide ReadKey, ReadData, ReadText, ReadTexts, EncodeKey, EncodeData, EncodeKeys, Be32, S32;
    if ctype == CT_NONE {
      assert EncodeRaw(RawNone) + b == b;
    } else if ctype == CT_RESULT {
      Be32Back(b);
      assert b == b[..4] + b[4..];
    } else if ctype == CT_KEY {
      ReadTextCanon(b);
    } else if ctype == CT_KEYS {
      ReadTextsCanon(b);
      CookedFit(ReadTexts(b).value.keys);
    } else if ctype == CT_VALUE {
      ReadDataCanon(b);
    } else {
      ReadKeyCanon(b);
      var Got(k, b1) := ReadKey(b);
      ReadDataCanon(b1);
      Assoc(EncodeKey(k), EncodeData(ReadData(b1).value), ReadData(b1).rest);
    }
  }

  lemma HeaderCanon(b: seq<Byte>, m: Message)
    requires |b| >= 6 && m.opcode == S16(b) && m.tableNum == S16(b[4..]) && ContentType(m.content) == S16(b[2..])
    ensures Header(m) == b[..6]
  {
    Be16Back(b);
    Be16Back(b[2..]);
    Be16Back(b[4..]);
    assert b[..6] == b[..2] + b[2..][..2] + b[4..][..2];
  }

  /** Whatever the decoder accepts is well-formed. */
  lemma DecodedIsWellFormed(b: seq<Byte>)
    requires Decode(b).Got?
    ensures WellFormed(Decode(b).value)
  {
    ReadContentCanon(b[6..], S16(b[2..]));
  }

  /** Decoding gives the message back, and leaves what follows it, exactly when the opcode is one the
      decoder accepts and the lengths fit their fields. */
  lemma RoundTripIff(m: Message, rest: seq<Byte>)
    requires Encodable(m)
    ensures Decode(Encode(m) + rest) == Got(m, rest) <==> WellFormed(m)
  {
    hide ReadContent, EncodeRaw, Header, Bare, Cook, FieldsFit;
    if WellFormed(m) {
      Assoc(Header(m), EncodeContent(m.content), rest);
      HeaderBack(m, EncodeContent(m.content) + rest);
      ReadContentBack(m.content, rest);
      CookBare(m.content);
    }
    if Decode(Encode(m) + rest) == Got(m, rest) {
      DecodedIsWellFormed(Encode(m) + rest);
    }
  }

  lemma {:induction false} CStringWhole(s: seq<Byte>)
    ensures |AsCString(s)| == |s| <==> NulFree(s)
  {
    if s != [] {
      CStringWhole(s[1..]);
      if NulFree(s) {
        assert NulFree(s[1..]);
      } else if s[0] != 0 {
        var i :| 0 <= i < |s| && s[i] == 0;
        assert s[1..][i - 1] == 0;
      }
    }
  }

  lemma {:induction false} CookedKeys(ks: seq<seq<Byte>>)
    ensures |EncodeKeys(AsCStrings(ks))| <= |EncodeKeys(ks)|
    ensures EncodeKeys(AsCStrings(ks)) == EncodeKeys(ks) <==> forall i :: 0 <= i < |ks| ==> NulFree(ks[i])
    ensures |EncodeKeys(AsCStrings(ks))| == |EncodeKeys(ks)| <==> forall i :: 0 <= i < |ks| ==> NulFree(ks[i])
  {
    if ks != [] {
      CookedKeys(ks[1..]);
      CStringWhole(ks[0]);
      assert AsCStrings(ks)[1..] == AsCStrings(ks[1..]);
      assert forall i :: 1 <= i < |ks| ==> ks[i] == ks[1..][i - 1];
    }
  }

  lemma CookedContent(r: Raw)
    ensures EncodeContent(Cook(r)) == EncodeRaw(r) <==> KeysNulFree(r)
  {
    match r
    case RawKey(k) => CStringWhole(k);
    case RawKeys(ks) =>
      CookedKeys(ks);
    case RawEntry(k, d) =>
      CStringWhole(k);
    case _ =>
  }

  lemma CancelEnds<T>(h: seq<T>, c: seq<T>, e: seq<T>, r: seq<T>)
    ensures h + c + r == h + (e + r) <==> c == e
  {
    Assoc(h, c, r);
    if h + c + r == h + (e + r) {
      assert |c| == |e|;
      assert c == (h + c + r)[|h|..|h| + |c|];
      assert e == (h + (e + r))[|h|..|h| + |c|];
    }
  }

  lemma DecodedParts(b: seq<Byte>)
    requires Decode(b).Got?
    ensures b == Header(Decode(b).value) + (EncodeRaw(ParseRaw(b).value) + Decode(b).rest)
  {
    hide EncodeRaw, Header, Be16, ReadContent;
    ReadContentCanon(b[6..], S16(b[2..]));
    HeaderCanon(b, Decode(b).value);
    assert b == b[..6] + b[6..];
  }

  /** Encoding a decoded message gives back exactly the bytes consumed, exactly when no key field on
      the wire contains a NUL. */
  lemma CanonicalIff(b: seq<Byte>)
    requires Decode(b).Got?
    ensures Encodable(Decode(b).value)
    ensures Encode(Decode(b).value) + Decode(b).rest == b <==> KeysNulFree(ParseRaw(b).value)
  {
    hide EncodeRaw, Header, ReadContent, KeysNulFree;
    var m := Decode(b).value;
    DecodedParts(b);
    CookedContent(ParseRaw(b).value);
    CancelEnds(Header(m), EncodeContent(m.content), EncodeRaw(ParseRaw(b).value), Decode(b).rest);
  }

  // ----- streams -----

  /** Encoding is injective and prefix-free, whatever follows the messages. */
  lemma PrefixFree(m1: Message, r1: seq<Byte>, m2: Message, r2: seq<Byte>)
    requires WellFormed(m1) && WellFormed(m2)
    requires Encode(m1) + r1 == Encode(m2) + r2
    ensures m1 == m2 && r1 == r2
  {
    RoundTripIff(m1, r1);
    RoundTripIff(m2, r2);
  }

  /** More bytes do not change a verdict other than Overrun. */
  ghost predicate Stable<T>(short: Parse<T>, long: Parse<T>, s: seq<Byte>) {
    && (short.Got? ==> long == Got(short.value, short.rest + s))
    && (short.Rejected? ==> long.Rejected?)
  }

  lemma Prefix16(p: seq<Byte>, s: seq<Byte>)
    requires |p| >= 2
    ensures S16(p + s) == S16(p) && U16(p + s) == U16(p) && (p + s)[2..] == p[2..] + s
  {
    assert (p + s)[..2] == p[..2];
  }

  lemma Prefix32(p: seq<Byte>, s: seq<Byte>)
    requires |p| >= 4
    ensures S32(p + s) == S32(p) && (p + s)[4..] == p[4..] + s
  {
    assert (p + s)[..4] == p[..4];
  }

  lemma ReadBytesStable(p: seq<Byte>, n: nat, s: seq<Byte>)
    ensures Stable(ReadBytes(p, n), ReadBytes(p + s, n), s)
  {
    if n <= |p| {
      assert (p + s)[..n] == p[..n];
      assert (p + s)[n..] == p[n..] + s;
    }
  }

  lemma ReadKeyStable(p: seq<Byte>, s: seq<Byte>)
    ensures Stable(ReadKey(p), ReadKey(p + s), s)
  {
    if |p| >= 2 {
      Prefix16(p, s);
      if S16(p) >= 0 {
        ReadBytesStable(p[2..], S16(p), s);
      }
    }
  }

  lemma {:induction false} ReadKeysStable(p: seq<Byte>, n: nat, s: seq<Byte>)
    ensures Stable(ReadKeys(p, n), ReadKeys(p + s, n), s)
    decreases n
  {
    if n > 0 {
      ReadKeyStable(p, s);
      if ReadKey(p).Got? {
        ReadKeysStable(ReadKey(p).rest, n - 1, s);
      }
    }
  }

  lemma ReadDataStable(p: seq<Byte>, s: seq<Byte>)
    ensures Stable(ReadData(p), ReadData(p + s), s)
  {
    if |p| >= 4 {
      var n: int := S32(p);
      Prefix32(p, s);
      if 0 < n <= |p| - 4 {
        assert (p + s)[4..4 + n] == p[4..4 + n];
        assert (p + s)[4 + n..] == p[4 + n..] + s;
      }
    }
  }

  lemma ReadTextStable(p: seq<Byte>, s: seq<Byte>)
    ensures Stable(ReadText(p), ReadText(p + s), s)
  {
    if |p| >= 2 {
      Prefix16(p, s);
      ReadBytesStable(p[2..], U16(p), s);
    }
  }

  lemma ReadTextsStable(p: seq<Byte>, s: seq<Byte>)
    ensures Stable(ReadTexts(p), ReadTexts(p + s), s)
  {
    if |p| >= 4 {
      Prefix32(p, s);
      if S32(p) >= 0 {
        ReadKeysStable(p[4..], S32(p), s);
      }
    }
  }

  lemma ReadEntryStable(p: seq<Byte>, s: seq<Byte>)
    ensures Stable(ReadEntry(p), ReadEntry(p + s), s)
  {
    ReadKeyStable(p, s);
    if ReadKey(p).Got? {
      ReadDataStable(ReadKey(p).rest, s);
    }
  }

  lemma ReadResultStable(p: seq<Byte>, s: seq<Byte>)
    ensures Stable(ReadResult(p), ReadResult(p + s), s)
  {
    if |p| >= 4 {
      Prefix32(p, s);
    }
  }

  lemma ReadContentStable(p: seq<Byte>, ctype: int, s: seq<Byte>)
    ensures Stable(ReadContent(p, ctype), ReadContent(p + s, ctype), s)
  {
    ReadDataStable(p, s);
    ReadTextStable(p, s);
    ReadTextsStable(p, s);
    ReadEntryStable(p, s);
    ReadResultStable(p, s);
  }

  /** More bytes behind a buffer do not change a verdict other than Overrun. */
  lemma DecodeStable(p: seq<Byte>, s: seq<Byte>)
    ensures Stable(Decode(p), Decode(p + s), s)
  {
    if |p| >= 6 {
      assert (p + s)[6..] == p[6..] + s;
      Prefix16(p, s);
      Prefix16(p[2..], s);
      Prefix16(p[4..], s);
      assert (p + s)[4..] == p[4..] + s;
      ReadContentStable(p[6..], S16(p[2..]), s);
    }
  }

  /** Of a stream that starts with a message, the decoder runs past the end of exactly those pieces that
      do not hold the whole message. */
  lemma CutShortOverruns(m: Message, rest: seq<Byte>, p: seq<Byte>)
    requires WellFormed(m) && p <= Encode(m) + rest
    ensures Decode(p).Overrun? <==> |p| < |Encode(m)|
  {
    var s := (Encode(m) + rest)[|p|..];
    assert p + s == Encode(m) + rest;
    RoundTripIff(m, rest);
    DecodeStable(p, s);
    if |p| >= |Encode(m)| {
      assert p == Encode(m) + p[|Encode(m)|..];
      RoundTripIff(m, p[|Encode(m)|..]);
    }
  }
}
