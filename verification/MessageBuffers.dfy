/** `message_to_buffer` and `buffer_to_message`, which fill and walk a buffer through a moving pointer. */
module MessageBuffers {
  import opened Bytes
  import opened Messages
  import opened Codec

  lemma {:induction false} EncodeKeysSplit(ks: seq<seq<Byte>>, i: int)
    requires 0 <= i <= |ks|
    ensures EncodeKeys(ks) == EncodeKeys(ks[..i]) + EncodeKeys(ks[i..])
    decreases i
  {
    if i == 0 {
      assert ks[i..] == ks;
    } else {
      EncodeKeysSplit(ks[1..], i - 1);
      assert ks[..i][1..] == ks[1..][..i - 1];
      assert ks[1..][i - 1..] == ks[i..];
      Assoc(EncodeKey(ks[0]), EncodeKeys(ks[1..][..i - 1]), EncodeKeys(ks[i..]));
    }
  }

  lemma EncodeKeysSnoc(ks: seq<seq<Byte>>, i: int)
    requires 0 <= i < |ks|
    ensures EncodeKeys(ks[..i + 1]) == EncodeKeys(ks[..i]) + EncodeKey(ks[i])
    ensures |EncodeKeys(ks[..i + 1])| <= |EncodeKeys(ks)|
  {
    EncodeKeysSplit(ks[..i + 1], i);
    assert ks[..i + 1][..i] == ks[..i];
    assert ks[..i + 1][i..] == [ks[i]];
    assert EncodeKeys([ks[i]]) == EncodeKey(ks[i]) + EncodeKeys([]);
    EncodeKeysSplit(ks, i + 1);
  }

  /** `memcpy` into the buffer at `ptr`, which then moves behind the bytes. */
  method CopyAt(buf: array<Byte>, ptr: int, src: seq<Byte>) returns (end: int)
    requires 0 <= ptr <= ptr + |src| <= buf.Length
    modifies buf
    ensures end == ptr + |src|
    ensures buf[..end] == old(buf[..ptr]) + src
  {
    for i := 0 to |src|
      invariant buf[..ptr + i] == old(buf[..ptr]) + src[..i]
    {
      buf[ptr + i] := src[i];
      assert buf[..ptr + i + 1] == buf[..ptr + i] + [src[i]];
      assert src[..i + 1] == src[..i] + [src[i]];
    }
    assert src[..|src|] == src;
    end := ptr + |src|;
  }

  /** The first pass: the size of the buffer to allocate. */
  method BufferSize(m: Message) returns (size: int)
    requires Encodable(m)
    ensures size == |Encode(m)|
  {
    size := 6;
    match m.content
    case Value(d) =>
      size := size + 4 + |d.value|;
    case Entry(k, d) =>
      size := size + 2 + 4;
      size := size + |k|;
      size := size + |d|;
    case KeyTexts(ks) =>
      size := size + 4;
      var i := 0;
      while i < |ks|
        invariant 0 <= i <= |ks|
        invariant size == 10 + |EncodeKeys(ks[..i])|
      {
        EncodeKeysSnoc(ks, i);
        size := size + 2 + |ks[i]|;
        i := i + 1;
      }
      assert ks[..i] == ks;
    case KeyText(k) =>
      size := size + 2 + |k|;
    case Result(_) =>
      size := size + 4;
    case NoContent =>
  }

  method CopyKey(buf: array<Byte>, ptr: int, k: CString) returns (end: int)
    requires 0 <= ptr <= ptr + |EncodeKey(k)| <= buf.Length
    modifies buf
    ensures end == ptr + |EncodeKey(k)|
    ensures buf[..end] == old(buf[..ptr]) + EncodeKey(k)
  {
    end := CopyAt(buf, ptr, Be16(|k|));
    end := CopyAt(buf, end, k);
  }

  method CopyData(buf: array<Byte>, ptr: int, d: Data) returns (end: int)
    requires 0 <= ptr <= ptr + |EncodeData(d)| <= buf.Length
    modifies buf
    ensures end == ptr + |EncodeData(d)|
    ensures buf[..end] == old(buf[..ptr]) + EncodeData(d)
  {
    end := CopyAt(buf, ptr, Be32(|d|));
    end := CopyAt(buf, end, d);
  }

  method CopyKeys(buf: array<Byte>, ptr: int, ks: seq<CString>) returns (end: int)
    requires 0 <= ptr <= ptr + |EncodeKeys(ks)| <= buf.Length
    modifies buf
    ensures end == ptr + |EncodeKeys(ks)|
    ensures buf[..end] == old(buf[..ptr]) + EncodeKeys(ks)
  {
    end := ptr;
    var i := 0;
    while i < |ks|
      invariant 0 <= i <= |ks|
      invariant end == ptr + |EncodeKeys(ks[..i])| <= buf.Length
      invariant buf[..end] == old(buf[..ptr]) + EncodeKeys(ks[..i])
    {
      EncodeKeysSnoc(ks, i);
      end := CopyKey(buf, end, ks[i]);
      i := i + 1;
    }
    assert ks[..i] == ks;
  }

  method CopyContent(buf: array<Byte>, ptr: int, c: Content) returns (end: int)
    requires c.Value? ==> c.data.Some?
    requires 0 <= ptr <= ptr + |EncodeContent(c)| <= buf.Length
    modifies buf
    ensures end == ptr + |EncodeContent(c)|
    ensures buf[..end] == old(buf[..ptr]) + EncodeContent(c)
  {
    match c
    case Result(r) =>
      end := CopyAt(buf, ptr, Be32(r));
    case KeyText(k) =>
      end := CopyKey(buf, ptr, k);
    case KeyTexts(ks) =>
      end := CopyAt(buf, ptr, Be32(|ks|));
      end := CopyKeys(buf, end, ks);
    case Value(d) =>
      end := CopyData(buf, ptr, d.value);
    case Entry(k, d) =>
      end := CopyKey(buf, ptr, k);
      end := CopyData(buf, end, d);
    case NoContent =>
      end := ptr;
  }

  /** The second pass fills exactly the bytes the first pass counted: nothing of what the fresh
      buffer held is left in it, and nothing is written behind it. */
  method MessageToBuffer(m: Message) returns (size: int, buf: array<Byte>)
    requires Encodable(m)
    ensures fresh(buf) && size == buf.Length && buf[..] == Encode(m)
  {
    size := BufferSize(m);
    buf := new Byte[size];
    var ptr := CopyAt(buf, 0, Be16(m.opcode));
    ptr := CopyAt(buf, ptr, Be16(ContentType(m.content)));
    ptr := CopyAt(buf, ptr, Be16(m.tableNum));
    assert buf[..ptr] == Header(m);
    ptr := CopyContent(buf, ptr, m.content);
    assert buf[..ptr] == buf[..];
  }

  /** Reading `n` more keys from `b` completes reading them all. */
  ghost predicate Completes(all: Parse<seq<seq<Byte>>>, done: seq<seq<Byte>>, b: seq<Byte>, n: nat) {
    match ReadKeys(b, n)
    case Got(ks, rest) => all == Got(done + ks, rest)
    case Rejected => all.Rejected?
    case Overrun => all.Overrun?
  }

  lemma CompletesStart(b: seq<Byte>, n: nat)
    ensures Completes(ReadKeys(b, n), [], b, n)
  {
    if ReadKeys(b, n).Got? {
      assert [] + ReadKeys(b, n).value == ReadKeys(b, n).value;
    }
  }

  lemma CompletesStep(all: Parse<seq<seq<Byte>>>, done: seq<seq<Byte>>, b: seq<Byte>, n: nat)
    requires n > 0 && Completes(all, done, b, n) && ReadKey(b).Got?
    ensures Completes(all, done + [ReadKey(b).value], ReadKey(b).rest, n - 1)
  {
    var Got(k, b1) := ReadKey(b);
    if ReadKeys(b1, n - 1).Got? {
      var ks := ReadKeys(b1, n - 1).value;
      assert done + ([k] + ks) == done + [k] + ks;
    }
  }

  lemma CookedSnoc(ks: seq<seq<Byte>>, k: seq<Byte>)
    ensures AsCStrings(ks + [k]) == AsCStrings(ks) + [AsCString(k)]
  {
  }

  method ReadKeyAt(buf: array<Byte>, ptr: int) returns (k: Parse<seq<Byte>>, end: int)
    requires 0 <= ptr <= buf.Length
    ensures k == ReadKey(buf[ptr..])
    ensures k.Got? ==> ptr <= end <= buf.Length && k.rest == buf[end..]
  {
    end := ptr;
    if buf.Length - ptr < 2 { return Overrun, end; }
    var ss: int := S16(buf[ptr..]);
    if ss < -1 { return Rejected, end; }
    if ss == -1 || buf.Length - ptr - 2 < ss { return Overrun, end; }
    end := ptr + 2 + ss;
    assert buf[ptr..][2..] == buf[ptr + 2..];
    assert buf[ptr + 2..][..ss] == buf[ptr + 2..end];
    assert buf[ptr + 2..][ss..] == buf[end..];
    k := Got(buf[ptr + 2..end], buf[end..]);
  }

  /** The reading of `n` keys from `start`, as the loop that stands at `ptr` still has to do it. */
  ghost predicate KeysLeft(bytes: seq<Byte>, all: Parse<seq<seq<Byte>>>, texts: seq<CString>, ptr: int, n: nat) {
    && 0 <= ptr <= |bytes|
    && exists raw :: texts == AsCStrings(raw) && Completes(all, raw, bytes[ptr..], n)
  }

  lemma KeysLeftStart(bytes: seq<Byte>, start: int, n: nat)
    requires 0 <= start <= |bytes|
    ensures KeysLeft(bytes, ReadKeys(bytes[start..], n), [], start, n)
  {
    CompletesStart(bytes[start..], n);
    assert AsCStrings([]) == [];
  }

  lemma KeysLeftStep(bytes: seq<Byte>, all: Parse<seq<seq<Byte>>>, texts: seq<CString>, ptr: int, n: nat, end: int)
    requires n > 0 && KeysLeft(bytes, all, texts, ptr, n)
    ensures var k := ReadKey(bytes[ptr..]);
      && (k.Got? && 0 <= end <= |bytes| && k.rest == bytes[end..] ==>
            KeysLeft(bytes, all, texts + [AsCString(k.value)], end, n - 1))
      && (k.Rejected? ==> all.Rejected?)
      && (k.Overrun? ==> all.Overrun?)
  {
    var raw :| texts == AsCStrings(raw) && Completes(all, raw, bytes[ptr..], n);
    var k := ReadKey(bytes[ptr..]);
    if k.Got? {
      CompletesStep(all, raw, bytes[ptr..], n);
      CookedSnoc(raw, k.value);
    }
  }

  lemma KeysLeftDone(bytes: seq<Byte>, all: Parse<seq<seq<Byte>>>, texts: seq<CString>, ptr: int)
    requires KeysLeft(bytes, all, texts, ptr, 0)
    ensures all.Got? && texts == AsCStrings(all.value) && all.rest == bytes[ptr..]
  {
    var raw :| texts == AsCStrings(raw) && Completes(all, raw, bytes[ptr..], 0);
    assert raw + [] == raw;
  }

  /** The loop of the decoder over a list of `n` keys that starts at `start`. */
  method ReadKeyList(buf: array<Byte>, start: int, n: nat) returns (keys: Parse<seq<CString>>)
    requires 0 <= start <= buf.Length
    ensures match ReadKeys(buf[start..], n)
      case Got(raw, rest) => keys == Got(AsCStrings(raw), rest)
      case Rejected => keys.Rejected?
      case Overrun => keys.Overrun?
  {
    var ptr, i := start, 0;
    var texts: seq<CString> := [];
    ghost var all := ReadKeys(buf[start..], n);
    assert buf[start..] == buf[..][start..];
    KeysLeftStart(buf[..], start, n);
    while i < n
      invariant 0 <= i <= n && KeysLeft(buf[..], all, texts, ptr, n - i)
    {
      assert buf[ptr..] == buf[..][ptr..];
      var k, end := ReadKeyAt(buf, ptr);
      KeysLeftStep(buf[..], all, texts, ptr, n - i, end);
      if k.Rejected? { return Rejected; }
      if k.Overrun? { return Overrun; }
      assert buf[end..] == buf[..][end..];
      texts := texts + [AsCString(k.value)];
      ptr := end;
      i := i + 1;
    }
    KeysLeftDone(buf[..], all, texts, ptr);
    return Got(texts, buf[ptr..]);
  }

  method BufferToMessage(buf: array<Byte>) returns (r: Parse<Message>)
    ensures r == Decode(buf[..])
  {
    if buf.Length < 6 { return Overrun; }
    var opcode, ctype, tableNum := S16(buf[..]), S16(buf[2..]), S16(buf[4..]);
    assert buf[..][2..] == buf[2..] && buf[..][4..] == buf[4..] && buf[..][6..] == buf[6..];
    if !OpcodeAccepted(opcode) {
      if Freed(ctype) { return Overrun; }
      return Rejected;
    }
    var b := buf[6..];
    var content, rest;
    if ctype == CT_NONE {
      content, rest := NoContent, b;
    } else if ctype == CT_RESULT {
      if |b| < 4 { return Overrun; }
      content, rest := Result(S32(b)), b[4..];
    } else if ctype == CT_KEY {
      if |b| < 2 { return Overrun; }
      var ks := U16(b);
      if |b| - 2 < ks { return Overrun; }
      assert b[2..][..ks] == b[2..2 + ks] && b[2..][ks..] == b[2 + ks..];
      content, rest := KeyText(AsCString(b[2..2 + ks])), b[2 + ks..];
    } else if ctype == CT_KEYS {
      if |b| < 4 { return Overrun; }
      var ks: int := S32(b);
      if ks < -1 { return Rejected; }
      if ks == -1 { return Overrun; }
      assert buf[10..] == b[4..];
      var keys := ReadKeyList(buf, 10, ks);
      match keys
      case Got(texts, after) => content, rest := KeyTexts(texts), after;
      case Rejected => return Rejected;
      case Overrun => return Overrun;
    } else if ctype == CT_VALUE {
      match ReadData(b)
      case Got(d, after) => content, rest := Value(Some(d)), after;
      case Rejected => return Rejected;
      case Overrun => return Overrun;
    } else if ctype == CT_ENTRY {
      match ReadKey(b)
      case Got(k, b1) =>
        match ReadData(b1) {
          case Got(d, after) => content, rest := Entry(AsCString(k), d), after;
          case Rejected => return Rejected;
          case Overrun => return Overrun;
        }
      case Rejected => return Rejected;
      case Overrun => return Overrun;
    } else {
      return Rejected;
    }
    return Got(Message(opcode, tableNum, content), rest);
  }
}
