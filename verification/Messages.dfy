/** The messages of `include/message.h` and their codes. */
module Messages {
  import opened Bytes

  type Short = x: int | -0x8000 <= x < 0x8000
  type Int32 = x: int | -0x8000_0000 <= x < 0x8000_0000

  const OC_SIZE: Short := 10
  const OC_UPDATE: Short := 20
  const OC_GET: Short := 30
  const OC_PUT: Short := 40
  const OC_COLLS: Short := 50
  const OC_SZ_TABLES: Short := 60
  const OC_ACK: Short := 70
  const OC_IP_PORT: Short := 80
  const OC_HELLO: Short := 90
  const OC_RT_ERROR: Short := 99

  const CT_NONE: Short := 0
  const CT_RESULT: Short := 10
  const CT_VALUE: Short := 20
  const CT_KEY: Short := 30
  const CT_KEYS: Short := 40
  const CT_ENTRY: Short := 50

  /** The content union together with its `c_type`. None as data is the NULL of a missed get. */
  datatype Content =
    | NoContent
    | Result(result: Int32)
    | Value(data: Option<Data>)
    | KeyText(text: CString)
    | KeyTexts(texts: seq<CString>)
    | Entry(key: CString, value: Data)

  datatype Message = Message(opcode: Short, tableNum: Short, content: Content)

  function ContentType(c: Content): Short {
    match c
    case NoContent => CT_NONE
    case Result(_) => CT_RESULT
    case Value(_) => CT_VALUE
    case KeyText(_) => CT_KEY
    case KeyTexts(_) => CT_KEYS
    case Entry(_, _) => CT_ENTRY
  }

  /** `messgerror` */
  const ERROR_REPLY: Message := Message(OC_RT_ERROR, 0, Result(-1))

  predicate OpcodeAccepted(opcode: int) {
    10 <= opcode <= 91 || opcode == 99
  }

  /** The contents `message_to_buffer` can encode: it dereferences the data pointer. */
  predicate Encodable(m: Message) {
    m.content.Value? ==> m.content.data.Some?
  }

  /** The contents whose length fields survive the wire: 16 unsigned bits for a single key, 16 signed
      bits for the keys of a list and of an entry, 32 signed bits for the number of keys. */
  predicate FieldsFit(c: Content) {
    match c
    case KeyText(k) => |k| <= 0xFFFF
    case KeyTexts(ks) => |ks| < 0x8000_0000 && forall i :: 0 <= i < |ks| ==> |ks[i]| <= 0x7FFF
    case Entry(k, _) => |k| <= 0x7FFF
    case _ => true
  }

  predicate WellFormed(m: Message) {
    OpcodeAccepted(m.opcode) && Encodable(m) && FieldsFit(m.content)
  }
}
