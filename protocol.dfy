/** The wire protocol shared by server and client (Common.h): four fixed-layout records that all
    begin with the same two-int header, and the kind constants that tell them apart.

    A record is sent as its raw memory. The model fixes that layout: each `int` is four bytes,
    least significant first (the host order of the little-endian targets the code is built for),
    and every char field is the NUL-terminated string sprintf_s wrote into it. */
module Protocol {
  import opened CStrings

  // Message kinds (the msg_type field).
  const MSG_BASE: int := 0
  const MSG_SETNICK: int := 1
  const MSG_TEXT_FROM_CLIENT: int := 2
  const MSG_TEXT_FROM_SERVER: int := 3
  const MSG_EXIT: int := 4

  // Field capacities and record sizes, in bytes (sizeof of each record).
  const INT_SIZE: nat := 4
  const NICKNAME_CAPACITY: nat := 64
  const TEXT_CAPACITY: nat := 1024
  const HEADER_SIZE: nat := 2 * INT_SIZE
  const SETNICK_SIZE: nat := HEADER_SIZE + NICKNAME_CAPACITY
  const TEXT_FROM_CLIENT_SIZE: nat := HEADER_SIZE + TEXT_CAPACITY
  const TEXT_FROM_SERVER_SIZE: nat := HEADER_SIZE + NICKNAME_CAPACITY + TEXT_CAPACITY
  const EXIT_SIZE: nat := HEADER_SIZE

  const INT32_LIMIT: int := 0x8000_0000

  /** The four bytes of a non-negative 32-bit int, least significant first. */
  function Int32Bytes(v: int): (b: seq<byte>)
    requires 0 <= v < INT32_LIMIT
    ensures |b| == INT_SIZE
  {
    [(v % 256) as byte, (v / 256 % 256) as byte, (v / 65536 % 256) as byte, (v / 16777216) as byte]
  }

  /** The signed 32-bit int that four bytes hold. */
  function Int32Of(b: seq<byte>): (v: int)
    requires |b| == INT_SIZE
    ensures -INT32_LIMIT <= v < INT32_LIMIT
  {
    var u := b[0] as int + 256 * (b[1] as int) + 65536 * (b[2] as int) + 16777216 * (b[3] as int);
    if u >= INT32_LIMIT then u - 2 * INT32_LIMIT else u
  }

  lemma Int32RoundTrip(v: int)
    requires 0 <= v < INT32_LIMIT
    ensures Int32Of(Int32Bytes(v)) == v
  {
    var b := Int32Bytes(v);
    assert b[0] as int + 256 * (b[1] as int) == v % 65536;
    assert b[0] as int + 256 * (b[1] as int) + 65536 * (b[2] as int) == v % 16777216;
  }

  /** The two fields every record starts with (MessageBase). */
  datatype Header = Header(msgType: int, msgLength: int)

  /** The header a buffer of at least HEADER_SIZE bytes starts with. */
  function HeaderOf(b: seq<byte>): (h: Header)
    requires |b| >= HEADER_SIZE
  {
    Header(Int32Of(b[..INT_SIZE]), Int32Of(b[INT_SIZE..HEADER_SIZE]))
  }

  /** A record's logical content: its kind and the strings in its char fields. */
  datatype Message =
    | SetNick(nickname: seq<byte>)
    | TextFromClient(text: seq<byte>)
    | TextFromServer(nickname: seq<byte>, text: seq<byte>)
    | Exit
  {
    /** Every string fits its field with room for the terminating NUL. */
    predicate Valid()
    {
      match this
      case SetNick(n) => NoNul(n) && |n| < NICKNAME_CAPACITY
      case TextFromClient(t) => NoNul(t) && |t| < TEXT_CAPACITY
      case TextFromServer(n, t) =>
        NoNul(n) && |n| < NICKNAME_CAPACITY && NoNul(t) && |t| < TEXT_CAPACITY
      case Exit => true
    }

    function Kind(): int
    {
      match this
      case SetNick(_) => MSG_SETNICK
      case TextFromClient(_) => MSG_TEXT_FROM_CLIENT
      case TextFromServer(_, _) => MSG_TEXT_FROM_SERVER
      case Exit => MSG_EXIT
    }

    /** sizeof the record of this kind, the value its msg_length field carries. */
    function Size(): nat
    {
      match this
      case SetNick(_) => SETNICK_SIZE
      case TextFromClient(_) => TEXT_FROM_CLIENT_SIZE
      case TextFromServer(_, _) => TEXT_FROM_SERVER_SIZE
      case Exit => EXIT_SIZE
    }
  }

  /** The bytes a record puts on the wire: header, then its fields in declaration order. */
  function Encode(m: Message): (b: seq<byte>)
    requires m.Valid()
    ensures |b| == m.Size()
  {
    var header := Int32Bytes(m.Kind()) + Int32Bytes(m.Size());
    match m
    case SetNick(n) => header + Field(n, NICKNAME_CAPACITY)
    case TextFromClient(t) => header + Field(t, TEXT_CAPACITY)
    case TextFromServer(n, t) => header + Field(n, NICKNAME_CAPACITY) + Field(t, TEXT_CAPACITY)
    case Exit => header
  }

  // Where the char fields sit inside a record of each kind.
  function SetNickField(b: seq<byte>): seq<byte>
    requires |b| >= SETNICK_SIZE
  {
    b[HEADER_SIZE..SETNICK_SIZE]
  }

  function ClientTextField(b: seq<byte>): seq<byte>
    requires |b| >= TEXT_FROM_CLIENT_SIZE
  {
    b[HEADER_SIZE..TEXT_FROM_CLIENT_SIZE]
  }

  function ServerNicknameField(b: seq<byte>): seq<byte>
    requires |b| >= TEXT_FROM_SERVER_SIZE
  {
    b[HEADER_SIZE..HEADER_SIZE + NICKNAME_CAPACITY]
  }

  function ServerTextField(b: seq<byte>): seq<byte>
    requires |b| >= TEXT_FROM_SERVER_SIZE
  {
    b[HEADER_SIZE + NICKNAME_CAPACITY..TEXT_FROM_SERVER_SIZE]
  }

  /** The reference reader of a whole record, the inverse of Encode: the record is read through
      the struct of the kind its header names, and a field without a NUL is refused. The two
      programs do not call a reader like this one: each reads the fields of the kinds it handles
      itself, after a peek (Handler.Dispatch on the server, Client.DrainStep and Client.ShownOf on
      the client), and those readers are tied to Encode by Handler.DispatchFrame and
      Client.ShownOfFrame. Neither program looks at msg_length, and neither does this. */
  function Decode(b: seq<byte>): (r: Option<Message>)
    ensures r.Some? ==> r.value.Valid() && |b| == r.value.Size()
    ensures r.Some? ==> HeaderOf(b).msgType == r.value.Kind()
  {
    if |b| < HEADER_SIZE then None
    else
      var kind := HeaderOf(b).msgType;
      if kind == MSG_SETNICK && |b| == SETNICK_SIZE && NUL in SetNickField(b) then
        Some(SetNick(CStr(SetNickField(b))))
      else if kind == MSG_TEXT_FROM_CLIENT && |b| == TEXT_FROM_CLIENT_SIZE && NUL in ClientTextField(b) then
        Some(TextFromClient(CStr(ClientTextField(b))))
      else if kind == MSG_TEXT_FROM_SERVER && |b| == TEXT_FROM_SERVER_SIZE
              && NUL in ServerNicknameField(b) && NUL in ServerTextField(b) then
        Some(TextFromServer(CStr(ServerNicknameField(b)), CStr(ServerTextField(b))))
      else if kind == MSG_EXIT && |b| == EXIT_SIZE then
        Some(Exit)
      else None
  }

  datatype Option<T> = None | Some(value: T)

  /** Every record starts with MessageBase: whatever follows a frame on the stream, the first
      HEADER_SIZE bytes hold the frame's own kind and size. */
  lemma HeaderOfFrame(m: Message, rest: seq<byte>)
    requires m.Valid()
    ensures |Encode(m) + rest| >= HEADER_SIZE
    ensures HeaderOf(Encode(m) + rest) == Header(m.Kind(), m.Size())
  {
    var b := Encode(m) + rest;
    assert b[..INT_SIZE] == Int32Bytes(m.Kind());
    assert b[INT_SIZE..HEADER_SIZE] == Int32Bytes(m.Size());
    Int32RoundTrip(m.Kind());
    Int32RoundTrip(m.Size());
  }

  /** The kinds are distinct, and the record size grows with the payload: the Exit record is
      exactly a header, so a complete header peek of it already covers the whole frame. */
  lemma KindsAndSizes(m: Message)
    ensures MSG_BASE < MSG_SETNICK < MSG_TEXT_FROM_CLIENT < MSG_TEXT_FROM_SERVER < MSG_EXIT
    ensures m.Size() == HEADER_SIZE <==> m.Exit?
    ensures m.Size() >= HEADER_SIZE
  {
  }

  /** Decoding an encoded record gives back the record: kind and every field. */
  lemma DecodeEncode(m: Message)
    requires m.Valid()
    ensures Decode(Encode(m)) == Some(m)
  {
    var b := Encode(m);
    HeaderOfFrame(m, []);
    assert b + [] == b;
    match m
    case SetNick(n) =>
      assert SetNickField(b) == Field(n, NICKNAME_CAPACITY);
      FieldRoundTrip(n, NICKNAME_CAPACITY);
    case TextFromClient(t) =>
      assert ClientTextField(b) == Field(t, TEXT_CAPACITY);
      FieldRoundTrip(t, TEXT_CAPACITY);
    case TextFromServer(n, t) =>
      assert ServerNicknameField(b) == Field(n, NICKNAME_CAPACITY);
      assert ServerTextField(b) == Field(t, TEXT_CAPACITY);
      FieldRoundTrip(n, NICKNAME_CAPACITY);
      FieldRoundTrip(t, TEXT_CAPACITY);
    case Exit =>
  }
}
