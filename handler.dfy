/** The per-connection thread of the server (connection_thread in Server.c): a loop that peeks
    at the next header without consuming it, then reads the whole record of the kind the header
    names and acts on it. Its state is the connection's nickname buffer and the exit flag; the
    thread's end is Registry.Server.Remove of its own node. */
module Handler {
  import opened CStrings
  import opened Protocol
  import opened Transport
  import opened Registry

  /** What one pass of the loop does.
      Idle: nothing beyond possibly consuming bytes. Renamed: the nickname buffer is overwritten.
      Forward: the text is broadcast under the current nickname. ExitRequested: exit = 1.
      SocketFailed: the peek returned -1 and the loop breaks. */
  datatype Event =
    | Idle
    | Renamed(nickname: seq<byte>)
    | Forward(text: seq<byte>)
    | ExitRequested
    | SocketFailed

  datatype Dispatched = Dispatched(event: Event, rx: Inbound)

  /** The record at the head of the stream has NUL-terminated char fields. The thread copies them
      with sprintf_s(.., "%s", field), which reads the field as a C string; an unterminated field
      would be read past the end of the record. */
  predicate HeadFieldsTerminated(p: seq<byte>)
  {
    |p| >= HEADER_SIZE ==>
      && (HeaderOf(p).msgType == MSG_SETNICK && |p| >= SETNICK_SIZE ==> NUL in SetNickField(p))
      && (HeaderOf(p).msgType == MSG_TEXT_FROM_CLIENT && |p| >= TEXT_FROM_CLIENT_SIZE ==>
            NUL in ClientTextField(p))
  }

  /** The name a connection starts with: "Client " followed by its id in decimal. */
  function DefaultNickname(id: nat): (s: seq<byte>)
    requires id <= MAX_CLIENT_ID
    ensures NoNul(s) && |s| < NICKNAME_CAPACITY
    ensures |s| > 7 && s[..7] == Ascii("Client ") && DigitsValue(s[7..]) == id
    ensures forall i :: 7 <= i < |s| ==> 48 <= s[i] <= 57
    ensures |s| > 8 ==> s[7] != 48
  {
    assert Pow10(10) == 10000000000;
    DecimalLength(id, 10);
    DecimalRoundTrip(id);
    var s := Ascii("Client ") + Decimal(id);
    assert s[7..] == Decimal(id);
    s
  }

  /** One pass of the loop over the inbound stream. The peek asks for a header: -1 ends the
      loop; fewer bytes than a header (0 included) change nothing; a complete header selects the
      record to read, and a kind with no case changes nothing. The read consumes what it returns,
      and only a read of the full record size has an effect. */
  function Dispatch(rx: Inbound): (d: Dispatched)
    requires HeadFieldsTerminated(rx.pending)
    ensures d.rx.status == rx.status
    ensures |d.rx.pending| <= |rx.pending| && d.rx.pending == rx.pending[|rx.pending| - |d.rx.pending|..]
    ensures d.event.Renamed? ==> NoNul(d.event.nickname) && |d.event.nickname| < NICKNAME_CAPACITY
    ensures d.event.Forward? ==> NoNul(d.event.text) && |d.event.text| < TEXT_CAPACITY
  {
    match Peek(rx, HEADER_SIZE)
    case Failed => Dispatched(SocketFailed, rx)
    case NoData => Dispatched(Idle, rx)
    case Got(header) =>
      if |header| != HEADER_SIZE then Dispatched(Idle, rx)
      else
        var kind := HeaderOf(header).msgType;
        assert kind == HeaderOf(rx.pending).msgType;
        if kind == MSG_SETNICK then
          var r := Recv(rx, SETNICK_SIZE);
          if |r.data| == SETNICK_SIZE then
            assert SetNickField(r.data) == SetNickField(rx.pending);
            Dispatched(Renamed(CStr(SetNickField(r.data))), r.rest)
          else Dispatched(Idle, r.rest)
        else if kind == MSG_TEXT_FROM_CLIENT then
          var r := Recv(rx, TEXT_FROM_CLIENT_SIZE);
          if |r.data| == TEXT_FROM_CLIENT_SIZE then
            assert ClientTextField(r.data) == ClientTextField(rx.pending);
            Dispatched(Forward(CStr(ClientTextField(r.data))), r.rest)
          else Dispatched(Idle, r.rest)
        else if kind == MSG_EXIT then
          var r := Recv(rx, EXIT_SIZE);
          if |r.data| == EXIT_SIZE then Dispatched(ExitRequested, r.rest) else Dispatched(Idle, r.rest)
        else Dispatched(Idle, rx)
  }

  /** With a complete header at the head, the kind alone selects the outcome: a full record of a
      handled kind is consumed and acted on, and any other kind leaves the stream as it was. */
  lemma DispatchCompleteHeader(rx: Inbound)
    requires rx.status != Broken && |rx.pending| >= HEADER_SIZE
    requires HeadFieldsTerminated(rx.pending)
    ensures var p, kind := rx.pending, HeaderOf(rx.pending).msgType;
      && (kind == MSG_SETNICK && |p| >= SETNICK_SIZE ==>
            Dispatch(rx) == Dispatched(Renamed(CStr(SetNickField(p))), Inbound(p[SETNICK_SIZE..], rx.status)))
      && (kind == MSG_TEXT_FROM_CLIENT && |p| >= TEXT_FROM_CLIENT_SIZE ==>
            Dispatch(rx) == Dispatched(Forward(CStr(ClientTextField(p))),
                                       Inbound(p[TEXT_FROM_CLIENT_SIZE..], rx.status)))
      && (kind == MSG_EXIT ==> Dispatch(rx) == Dispatched(ExitRequested, Inbound(p[EXIT_SIZE..], rx.status)))
      && (kind !in {MSG_SETNICK, MSG_TEXT_FROM_CLIENT, MSG_EXIT} ==> Dispatch(rx) == Dispatched(Idle, rx))
  {
    var p := rx.pending;
    assert HeaderOf(p[..HEADER_SIZE]) == HeaderOf(p);
    if |p| >= SETNICK_SIZE {
      assert SetNickField(p[..SETNICK_SIZE]) == SetNickField(p);
    }
    if |p| >= TEXT_FROM_CLIENT_SIZE {
      assert ClientTextField(p[..TEXT_FROM_CLIENT_SIZE]) == ClientTextField(p);
    }
  }

  /** A complete record at the head of the stream is consumed whole and acted on by kind:
      SetNick renames, TextFromClient is forwarded, Exit ends the loop. TextFromServer has no case
      on the server, so it is left in place and nothing happens. */
  lemma DispatchFrame(m: Message, rest: seq<byte>, status: Status)
    requires m.Valid() && status != Broken
    ensures HeadFieldsTerminated(Encode(m) + rest)
    ensures var d := Dispatch(Inbound(Encode(m) + rest, status));
      match m
      case SetNick(n) => d == Dispatched(Renamed(n), Inbound(rest, status))
      case TextFromClient(t) => d == Dispatched(Forward(t), Inbound(rest, status))
      case Exit => d == Dispatched(ExitRequested, Inbound(rest, status))
      case TextFromServer(_, _) => d == Dispatched(Idle, Inbound(Encode(m) + rest, status))
  {
    var p := Encode(m) + rest;
    HeaderOfFrame(m, rest);
    assert p[m.Size()..] == rest;
    match m
    case SetNick(n) =>
      assert SetNickField(p) == Field(n, NICKNAME_CAPACITY);
      FieldRoundTrip(n, NICKNAME_CAPACITY);
      DispatchCompleteHeader(Inbound(p, status));
    case TextFromClient(t) =>
      assert ClientTextField(p) == Field(t, TEXT_CAPACITY);
      FieldRoundTrip(t, TEXT_CAPACITY);
      DispatchCompleteHeader(Inbound(p, status));
    case Exit =>
      DispatchCompleteHeader(Inbound(p, status));
    case TextFromServer(_, _) =>
      DispatchCompleteHeader(Inbound(p, status));
  }

  /** Fewer bytes than a header, zero included, leave everything as it was: nothing is consumed
      and the nickname and exit flag are untouched; the thread just peeks again. */
  lemma DispatchIncompleteHeader(rx: Inbound)
    requires rx.status != Broken && |rx.pending| < HEADER_SIZE
    ensures Dispatch(rx) == Dispatched(Idle, rx)
  {
  }

  /** A record that has only partly arrived is read short: the bytes read are consumed and lost,
      and nothing else changes. */
  lemma DispatchShortRead(rx: Inbound)
    requires rx.status != Broken && |rx.pending| >= HEADER_SIZE
    requires || (HeaderOf(rx.pending).msgType == MSG_SETNICK && |rx.pending| < SETNICK_SIZE)
             || (HeaderOf(rx.pending).msgType == MSG_TEXT_FROM_CLIENT
                 && |rx.pending| < TEXT_FROM_CLIENT_SIZE)
    ensures Dispatch(rx) == Dispatched(Idle, Inbound([], rx.status))
  {
    assert HeaderOf(rx.pending[..HEADER_SIZE]) == HeaderOf(rx.pending);
    if HeaderOf(rx.pending).msgType == MSG_SETNICK {
      assert Recv(rx, SETNICK_SIZE) == Received(rx.pending, Inbound([], rx.status));
    } else {
      assert Recv(rx, TEXT_FROM_CLIENT_SIZE) == Received(rx.pending, Inbound([], rx.status));
    }
  }

  /** The loop ends exactly on a failed peek or a complete Exit record, and on nothing else. */
  lemma DispatchEndsLoop(rx: Inbound)
    requires HeadFieldsTerminated(rx.pending)
    ensures var e := Dispatch(rx).event;
      (e.ExitRequested? || e.SocketFailed?) <==>
        (rx.status == Broken
         || (|rx.pending| >= HEADER_SIZE && HeaderOf(rx.pending).msgType == MSG_EXIT))
  {
    if rx.status != Broken && |rx.pending| >= HEADER_SIZE {
      assert HeaderOf(rx.pending[..HEADER_SIZE]) == HeaderOf(rx.pending);
    }
  }

  class Handler {
    const connection: Connection
    const nickname: array<byte>
    var exit: bool
    var rx: Inbound

    ghost predicate Valid()
      reads this, nickname
    {
      nickname.Length == NICKNAME_CAPACITY && NUL in nickname[..]
    }

    /** The nickname buffer read as a C string. */
    function Nickname(): (s: seq<byte>)
      requires Valid()
      reads this, nickname
      ensures NoNul(s) && |s| < NICKNAME_CAPACITY
    {
      CStr(nickname[..])
    }

    /** The start of the thread: the nickname buffer gets "Client <id>" and exit is 0. */
    constructor (connection: Connection, rx: Inbound)
      requires 0 <= connection.clientId <= MAX_CLIENT_ID
      ensures Valid() && fresh(nickname)
      ensures this.connection == connection && this.rx == rx && !exit
      ensures Nickname() == DefaultNickname(connection.clientId)
    {
      var buffer := new byte[NICKNAME_CAPACITY];
      WriteCString(buffer, DefaultNickname(connection.clientId));
      this.connection := connection;
      this.rx := rx;
      exit := false;
      nickname := buffer;
    }

    /** The peek and the read of one pass: the header is peeked without consuming it, the record
        of the kind it names is received from the socket, and the event that record asks for is
        returned. Nothing but the stream changes. */
    method Receive() returns (event: Event)
      requires HeadFieldsTerminated(rx.pending)
      modifies this
      ensures rx == Dispatch(old(rx)).rx && event == Dispatch(old(rx)).event
      ensures exit == old(exit)
    {
      event := Idle;
      var peeked := Peek(rx, HEADER_SIZE);
      match peeked {
        case Failed =>
          event := SocketFailed;
        case NoData =>
        case Got(header) =>
          if |header| == HEADER_SIZE {
            var kind := HeaderOf(header).msgType;
            assert kind == HeaderOf(rx.pending).msgType;
            if kind == MSG_SETNICK {
              var r := Recv(rx, SETNICK_SIZE);
              assert |r.data| == SETNICK_SIZE ==> SetNickField(r.data) == SetNickField(rx.pending);
              rx := r.rest;
              if |r.data| == SETNICK_SIZE {
                event := Renamed(CStr(SetNickField(r.data)));
              }
            } else if kind == MSG_TEXT_FROM_CLIENT {
              var r := Recv(rx, TEXT_FROM_CLIENT_SIZE);
              assert |r.data| == TEXT_FROM_CLIENT_SIZE ==> ClientTextField(r.data) == ClientTextField(rx.pending);
              rx := r.rest;
              if |r.data| == TEXT_FROM_CLIENT_SIZE {
                event := Forward(CStr(ClientTextField(r.data)));
              }
            } else if kind == MSG_EXIT {
              var r := Recv(rx, EXIT_SIZE);
              rx := r.rest;
              if |r.data| == EXIT_SIZE {
                event := ExitRequested;
              }
            }
          }
      }
    }

    /** One pass of the while (!exit) loop. `done` reports that the loop ends: the exit flag was
        set or the peek failed (the break). A received text is fanned out by the registry under
        the nickname the buffer holds at that moment. */
    method Step(server: Server) returns (done: bool)
      requires Valid() && server.Valid() && !exit
      requires HeadFieldsTerminated(rx.pending)
      modifies this, nickname, server
      ensures Valid() && server.Valid()
      ensures var d := Dispatch(old(rx));
        && rx == d.rx
        && exit == d.event.ExitRequested?
        && done == (d.event.ExitRequested? || d.event.SocketFailed?)
        && Nickname() == (if d.event.Renamed? then d.event.nickname else old(Nickname()))
        && server.connections == old(server.connections)
        && server.nextClientId == old(server.nextClientId)
        && server.outbox == if d.event.Forward? then
             Fanout(old(server.outbox), server.connections, connection,
                    Encode(TextFromServer(old(Nickname()), d.event.text)))
           else old(server.outbox)
    {
      var event := Receive();
      match event {
        case Renamed(name) =>
          WriteCString(nickname, name);
        case Forward(text) =>
          var _ := server.Broadcast(connection, Nickname(), text);
        case ExitRequested =>
          exit := true;
        case _ =>
      }
      done := event.ExitRequested? || event.SocketFailed?;
    }
  }
}
