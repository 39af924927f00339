/** The chat client (Client.c): a single thread that reads a console line, turns it into at most
    one record for the server, then drains every complete TextFromServer record that has arrived
    on its non-blocking socket. When the loop ends it sends one Exit record. */
module Client {
  import opened CStrings
  import opened Protocol
  import opened Transport

  /** The commands the client recognises, as the bytes _strnicmp compares against. */
  const NICK_COMMAND: seq<byte> := Ascii("/nick ")
  const EXIT_COMMAND: seq<byte> := Ascii("/exit")

  /** The line fgets(buffer, 1024, stdin) stored, cut at its first CR or LF by
      buffer[strcspn(buffer, "\r\n")] = 0. The bytes fgets read may hold a NUL; the line is
      still the C string before it. */
  function InputLine(input: seq<byte>): (line: seq<byte>)
    ensures NoNul(line) && |line| <= |input| && line == input[..|line|]
    ensures forall i :: 0 <= i < |line| ==> line[i] != CR && line[i] != LF
    ensures |line| < |input| ==> input[|line|] in {NUL, CR, LF}
  {
    var s := CStr(input);
    s[..LineEnd(s)]
  }

  /** What a line asks the client to do. */
  datatype Command =
    | ChangeNick(nickname: seq<byte>)
    | Quit
    | Say(text: seq<byte>)
    | Nothing

  /** The if / else-if chain over the line: "/nick " (any case) is tested first and takes the
      rest of the line as the nickname; then "/exit" (any case, any suffix) leaves; any other
      non-empty line is text. */
  function Classify(line: seq<byte>): (c: Command)
    ensures c.Nothing? <==> line == []
    ensures c.Say? ==> c.text == line
    ensures c.ChangeNick? ==> |line| >= |NICK_COMMAND| && line == line[..|NICK_COMMAND|] + c.nickname
  {
    if StartsWithIgnoringCase(line, NICK_COMMAND) then ChangeNick(line[|NICK_COMMAND|..])
    else if StartsWithIgnoringCase(line, EXIT_COMMAND) then Quit
    else if |line| != 0 then Say(line)
    else Nothing
  }

  /** A line that starts with "/nick " in any letter case is a rename to the rest of the line,
      whatever that is: "/nick " is tested before "/exit", so "/nick /exit" renames. */
  lemma NickCommand(prefix: seq<byte>, name: seq<byte>)
    requires |prefix| == |NICK_COMMAND|
    requires forall i :: 0 <= i < |prefix| ==> ToLower(prefix[i]) == ToLower(NICK_COMMAND[i])
    ensures Classify(prefix + name) == ChangeNick(name)
  {
    assert (prefix + name)[|NICK_COMMAND|..] == name;
  }

  /** A line that starts with "/exit" in any letter case, with anything after it, leaves the
      loop. */
  lemma ExitCommand(prefix: seq<byte>, suffix: seq<byte>)
    requires |prefix| == |EXIT_COMMAND|
    requires forall i :: 0 <= i < |prefix| ==> ToLower(prefix[i]) == ToLower(EXIT_COMMAND[i])
    ensures Classify(prefix + suffix) == Quit
  {
    assert ToLower((prefix + suffix)[1]) == ToLower(EXIT_COMMAND[1]);
  }

  /** Every other non-empty line is sent as typed. */
  lemma OtherIsText(line: seq<byte>)
    requires line != []
    requires !StartsWithIgnoringCase(line, NICK_COMMAND) && !StartsWithIgnoringCase(line, EXIT_COMMAND)
    ensures Classify(line) == Say(line)
  {
  }

  /** "/nick" without the space is not a command: it is sent as text. */
  lemma BareNickIsText()
    ensures Classify(Ascii("/nick")) == Say(Ascii("/nick"))
  {
    var line := Ascii("/nick");
    assert |line| < |NICK_COMMAND|;
    assert line[1] != EXIT_COMMAND[1];
  }

  /** The command's strings fit the record fields they are printed into. For the nickname this is
      the bound sprintf_s(nickname, 64, ...) demands; the text always fits, since fgets stores
      at most 1023 bytes. */
  predicate Fits(c: Command)
  {
    match c
    case ChangeNick(n) => NoNul(n) && |n| < NICKNAME_CAPACITY
    case Say(t) => NoNul(t) && |t| < TEXT_CAPACITY
    case _ => true
  }

  /** An input the loop body can process: what fgets can store, with a nickname that fits. */
  predicate InputFits(input: seq<byte>)
  {
    |input| < TEXT_CAPACITY && Fits(Classify(InputLine(input)))
  }

  /** The record a command sends, if any. */
  function Request(c: Command): (r: Option<Message>)
    requires Fits(c)
    ensures r.None? <==> c.Quit? || c.Nothing?
    ensures r.Some? ==> r.value.Valid() && (r.value.SetNick? || r.value.TextFromClient?)
    ensures c.ChangeNick? ==> r == Some(SetNick(c.nickname))
    ensures c.Say? ==> r == Some(TextFromClient(c.text))
  {
    match c
    case ChangeNick(n) => Some(SetNick(n))
    case Say(t) => Some(TextFromClient(t))
    case _ => None
  }

  /** A line printed by printf("[%s] %s\n", nickname, text) for a received record. */
  datatype Shown = Shown(nickname: seq<byte>, text: seq<byte>)

  /** What printf("[%s] %s\n", nickname, text) prints for a received record. The nickname is
      read from its field up to a NUL; the text field follows it directly in the record, so a
      nickname field with no NUL runs on into the text. */
  function ShownOf(frame: seq<byte>): (sh: Shown)
    requires |frame| >= TEXT_FROM_SERVER_SIZE
    ensures NUL in ServerNicknameField(frame) ==> sh.nickname == CStr(ServerNicknameField(frame))
    ensures NUL !in ServerNicknameField(frame) ==> sh.nickname == ServerNicknameField(frame) + sh.text
    ensures sh.text == CStr(ServerTextField(frame))
  {
    var fields := frame[HEADER_SIZE..TEXT_FROM_SERVER_SIZE];
    assert fields == ServerNicknameField(frame) + ServerTextField(frame);
    CStrAcross(ServerNicknameField(frame), ServerTextField(frame));
    Shown(CStr(fields), CStr(ServerTextField(frame)))
  }

  /** The outcome of one pass of the while (retry) body: the stream and exit flag after it,
      whether it retries, and the line it printed, if any. */
  datatype Stepped = Stepped(rx: Inbound, exit: bool, retry: bool, shown: seq<Shown>)

  /** One pass of the drain loop. A peek of -1 with an error sets exit; -1 without one (nothing
      has arrived), 0 bytes or a partial header stop; a complete header of another kind sets exit
      and consumes nothing; a TextFromServer header reads the record, and only a full record is
      shown, clears exit and retries. */
  function DrainStep(rx: Inbound, exit: bool): (s: Stepped)
    ensures s.rx.status == rx.status
    ensures s.retry ==> !s.exit && |s.shown| == 1 && |rx.pending| >= TEXT_FROM_SERVER_SIZE
                        && s.rx.pending == rx.pending[TEXT_FROM_SERVER_SIZE..]
    ensures !s.retry ==> s.shown == [] && (s.exit || s.exit == exit)
    ensures !s.retry ==> s.rx == rx || s.rx == Inbound([], rx.status)
  {
    match Peek(rx, HEADER_SIZE)
    case Failed => Stepped(rx, true, false, [])
    case NoData => Stepped(rx, exit, false, [])
    case Got(header) =>
      if |header| != HEADER_SIZE then Stepped(rx, exit, false, [])
      else if HeaderOf(header).msgType == MSG_TEXT_FROM_SERVER then
        var r := Recv(rx, TEXT_FROM_SERVER_SIZE);
        if |r.data| == TEXT_FROM_SERVER_SIZE then Stepped(r.rest, false, true, [ShownOf(r.data)])
        else Stepped(r.rest, exit, false, [])
      else Stepped(rx, true, false, [])
  }

  datatype Drained = Drained(rx: Inbound, exit: bool, shown: seq<Shown>)

  /** The whole drain loop, from the inbound stream and the exit flag it starts with: passes are
      repeated for as long as each one retries. */
  function DrainAll(rx: Inbound, exit: bool): (d: Drained)
    ensures d.rx.status == rx.status
    ensures exit && !d.exit ==> |d.shown| > 0
    decreases |rx.pending|
  {
    var s := DrainStep(rx, exit);
    if s.retry then
      var more := DrainAll(s.rx, s.exit);
      Drained(more.rx, more.exit, s.shown + more.shown)
    else Drained(s.rx, s.exit, [])
  }

  /** The drain loop only ever consumes from the front of the stream: what is left is a suffix of
      what was there. */
  lemma {:induction false} DrainConsumesPrefix(rx: Inbound, exit: bool)
    ensures var d := DrainAll(rx, exit);
      |d.rx.pending| <= |rx.pending| && d.rx.pending == rx.pending[|rx.pending| - |d.rx.pending|..]
    decreases |rx.pending|
  {
    var s := DrainStep(rx, exit);
    if s.retry {
      DrainConsumesPrefix(s.rx, s.exit);
    }
  }

  /** The lines `shown` printed before a drain that ends as `d`. */
  function After(shown: seq<Shown>, d: Drained): Drained
  {
    Drained(d.rx, d.exit, shown + d.shown)
  }

  /** What is left of the drain loop: all of it while it retries, nothing once it stopped. */
  function Remaining(rx: Inbound, exit: bool, retry: bool): Drained
  {
    if retry then DrainAll(rx, exit) else Drained(rx, exit, [])
  }

  /** One pass of the drain loop moves its printed line from what is left to do to what is
      done: the loop's overall outcome is unchanged. */
  lemma DrainAllStep(seen: seq<Shown>, rx: Inbound, exit: bool)
    ensures var s := DrainStep(rx, exit);
      After(seen, DrainAll(rx, exit)) == After(seen + s.shown, Remaining(s.rx, s.exit, s.retry))
  {
    var s := DrainStep(rx, exit);
    var rest := Remaining(s.rx, s.exit, s.retry);
    assert seen + (s.shown + rest.shown) == seen + s.shown + rest.shown;
  }

  /** The line printed for a TextFromServer record shows the nickname and text it was built
      from. */
  lemma ShownOfFrame(m: Message)
    requires m.TextFromServer? && m.Valid()
    ensures ShownOf(Encode(m)) == Shown(m.nickname, m.text)
  {
    assert ServerNicknameField(Encode(m)) == Field(m.nickname, NICKNAME_CAPACITY);
    assert ServerTextField(Encode(m)) == Field(m.text, TEXT_CAPACITY);
    FieldRoundTrip(m.nickname, NICKNAME_CAPACITY);
    FieldRoundTrip(m.text, TEXT_CAPACITY);
  }

  /** A complete TextFromServer record at the head of the stream is consumed whole, shown with the
      nickname and text it carries, clears exit and lets the loop retry. */
  lemma DrainTextFrame(m: Message, rest: seq<byte>, status: Status, exit: bool)
    requires m.TextFromServer? && m.Valid() && status != Broken
    ensures DrainStep(Inbound(Encode(m) + rest, status), exit)
         == Stepped(Inbound(rest, status), false, true, [Shown(m.nickname, m.text)])
  {
    var rx := Inbound(Encode(m) + rest, status);
    HeaderOfFrame(m, rest);
    assert Peek(rx, HEADER_SIZE) == Got(rx.pending[..HEADER_SIZE]);
    assert HeaderOf(rx.pending[..HEADER_SIZE]) == HeaderOf(rx.pending);
    assert rx.pending[..TEXT_FROM_SERVER_SIZE] == Encode(m) && rx.pending[TEXT_FROM_SERVER_SIZE..] == rest;
    assert Recv(rx, TEXT_FROM_SERVER_SIZE) == Received(Encode(m), Inbound(rest, status));
    ShownOfFrame(m);
  }

  /** After a complete TextFromServer record, the drain goes on with the rest of the stream and
      exit cleared. */
  lemma DrainFirstFrame(m: Message, rest: seq<byte>, status: Status, exit: bool)
    requires m.TextFromServer? && m.Valid() && status != Broken
    ensures DrainAll(Inbound(Encode(m) + rest, status), exit)
         == After([Shown(m.nickname, m.text)], DrainAll(Inbound(rest, status), false))
  {
    DrainTextFrame(m, rest, status, exit);
  }

  predicate ServerTexts(ms: seq<Message>)
  {
    forall i :: 0 <= i < |ms| ==> ms[i].TextFromServer? && ms[i].Valid()
  }

  /** The bytes of records sent back to back. */
  function Frames(ms: seq<Message>): (b: seq<byte>)
    requires forall i :: 0 <= i < |ms| ==> ms[i].Valid()
  {
    if ms == [] then [] else Encode(ms[0]) + Frames(ms[1..])
  }

  /** The lines printed for a run of TextFromServer records. */
  function Lines(ms: seq<Message>): (lines: seq<Shown>)
    requires ServerTexts(ms)
    ensures |lines| == |ms|
    ensures forall i :: 0 <= i < |ms| ==> lines[i] == Shown(ms[i].nickname, ms[i].text)
  {
    seq(|ms|, i requires 0 <= i < |ms| => Shown(ms[i].nickname, ms[i].text))
  }

  lemma LinesCons(ms: seq<Message>)
    requires ServerTexts(ms) && ms != []
    ensures Lines(ms) == [Shown(ms[0].nickname, ms[0].text)] + Lines(ms[1..])
  {
    var a, b := Lines(ms), [Shown(ms[0].nickname, ms[0].text)] + Lines(ms[1..]);
    assert |a| == |b|;
    forall i | 0 <= i < |a| ensures a[i] == b[i] {
      if i > 0 {
        assert b[i] == Lines(ms[1..])[i - 1];
      }
    }
  }

  /** Draining a stream of complete TextFromServer records followed by less than a header prints
      every record in order and consumes all of them; exit ends cleared if any record arrived and
      unchanged otherwise. */
  lemma {:induction false} DrainTextFrames(ms: seq<Message>, tail: seq<byte>, status: Status, exit: bool)
    requires ServerTexts(ms) && |tail| < HEADER_SIZE && status != Broken
    ensures DrainAll(Inbound(Frames(ms) + tail, status), exit)
         == Drained(Inbound(tail, status), if ms == [] then exit else false, Lines(ms))
    decreases |ms|
  {
    if ms == [] {
      assert Frames(ms) + tail == tail;
      DrainIncompleteHeader(Inbound(tail, status), exit);
    } else {
      var rest := Frames(ms[1..]) + tail;
      assert Frames(ms) + tail == Encode(ms[0]) + rest;
      DrainFirstFrame(ms[0], rest, status, exit);
      DrainTextFrames(ms[1..], tail, status, false);
      LinesCons(ms);
    }
  }

  /** A peek of -1 with an error set ends the drain and sets exit, consuming nothing. */
  lemma DrainSocketError(rx: Inbound, exit: bool)
    requires rx.status == Broken
    ensures DrainAll(rx, exit) == Drained(rx, true, [])
  {
  }

  /** Less than a header, including nothing at all, ends the drain with nothing consumed and exit
      unchanged. */
  lemma DrainIncompleteHeader(rx: Inbound, exit: bool)
    requires rx.status != Broken && |rx.pending| < HEADER_SIZE
    ensures DrainAll(rx, exit) == Drained(rx, exit, [])
  {
  }

  /** A complete header of any kind but TextFromServer sets exit and ends the drain, and nothing
      is consumed. */
  lemma DrainForeignKind(rx: Inbound, exit: bool)
    requires rx.status != Broken && |rx.pending| >= HEADER_SIZE
    requires HeaderOf(rx.pending).msgType != MSG_TEXT_FROM_SERVER
    ensures DrainAll(rx, exit) == Drained(rx, true, [])
  {
    assert HeaderOf(rx.pending[..HEADER_SIZE]) == HeaderOf(rx.pending);
  }

  /** A TextFromServer record that has only partly arrived is read short: its bytes are consumed
      and lost, nothing is shown, exit is unchanged and the drain ends. */
  lemma DrainShortFrame(rx: Inbound, exit: bool)
    requires rx.status != Broken && HEADER_SIZE <= |rx.pending| < TEXT_FROM_SERVER_SIZE
    requires HeaderOf(rx.pending).msgType == MSG_TEXT_FROM_SERVER
    ensures DrainAll(rx, exit) == Drained(Inbound([], rx.status), exit, [])
  {
    assert HeaderOf(rx.pending[..HEADER_SIZE]) == HeaderOf(rx.pending);
  }

  /** The client's state: the exit flag, the inbound side of its socket, the records it issued
      send() for, the bytes those sends put on the wire, and the lines it printed. */
  datatype State = State(exit: bool, rx: Inbound, sent: seq<Message>, wire: seq<byte>, shown: seq<Shown>)

  datatype Turned = Turned(state: State, leave: bool)

  /** One pass of the while (!exit) body for the line fgets stored and the value send() returned.
      "/exit" breaks out at once. Otherwise the record, if any, is sent, a transfer of a byte count
      other than its size sets exit, and the drain loop runs. */
  function Iterate(s: State, input: seq<byte>, sendResult: int): (t: Turned)
    requires InputFits(input)
    ensures t.leave <==> Classify(InputLine(input)).Quit?
    ensures t.leave ==> t.state == s
    ensures |s.sent| <= |t.state.sent| <= |s.sent| + 1 && t.state.sent[..|s.sent|] == s.sent
    ensures multiset(t.state.sent)[Exit] == multiset(s.sent)[Exit]
    ensures var r := Request(Classify(InputLine(input)));
      && (!t.leave ==> t.state.sent == s.sent + (if r.Some? then [r.value] else []))
      && (r.Some? && sendResult != r.value.Size() && t.state.shown == s.shown ==> t.state.exit)
  {
    var cmd := Classify(InputLine(input));
    if cmd.Quit? then Turned(s, true)
    else
      var request := Request(cmd);
      var sent := if request.Some? then s.sent + [request.value] else s.sent;
      var wire := if request.Some? then s.wire + Transfer(Encode(request.value), sendResult) else s.wire;
      var failed := request.Some? && sendResult != request.value.Size();
      var d := DrainAll(s.rx, s.exit || failed);
      Turned(State(d.exit, d.rx, sent, wire, s.shown + d.shown), false)
  }

  /** Bytes from the server that arrive while the client waits for the next line. */
  function Arrive(s: State, bytes: seq<byte>): State
  {
    s.(rx := Inbound(s.rx.pending + bytes, s.rx.status))
  }

  predicate Inputs(inputs: seq<seq<byte>>, sendResults: seq<int>, arrivals: seq<seq<byte>>)
  {
    |sendResults| == |inputs| && |arrivals| == |inputs| && forall i :: 0 <= i < |inputs| ==> InputFits(inputs[i])
  }

  /** The outer loop over a run of console lines: it ends when exit is set or a line breaks out
      (leave is then true), or when the lines run out while it is still waiting for input. */
  function Loop(s: State, inputs: seq<seq<byte>>, sendResults: seq<int>, arrivals: seq<seq<byte>>): (t: Turned)
    requires Inputs(inputs, sendResults, arrivals)
    ensures !t.leave ==> !t.state.exit
    decreases |inputs|
  {
    if s.exit then Turned(s, true)
    else if |inputs| == 0 then Turned(s, false)
    else
      var t := Iterate(Arrive(s, arrivals[0]), inputs[0], sendResults[0]);
      if t.leave then Turned(t.state, true)
      else Loop(t.state, inputs[1..], sendResults[1..], arrivals[1..])
  }

  /** After the loop: one Exit record is sent, whatever send() then returns. */
  function Finish(s: State, exitResult: int): (f: State)
    ensures f.sent == s.sent + [Exit]
  {
    s.(sent := s.sent + [Exit], wire := s.wire + Transfer(Encode(Exit), exitResult))
  }

  /** The loop never sends an Exit record: every record it sends is a SetNick or a
      TextFromClient. */
  lemma {:induction false} LoopSendsNoExit(s: State, inputs: seq<seq<byte>>, sendResults: seq<int>, arrivals: seq<seq<byte>>)
    requires Inputs(inputs, sendResults, arrivals)
    ensures multiset(Loop(s, inputs, sendResults, arrivals).state.sent)[Exit] == multiset(s.sent)[Exit]
    decreases |inputs|
  {
    if !s.exit && |inputs| > 0 {
      var t := Iterate(Arrive(s, arrivals[0]), inputs[0], sendResults[0]);
      if !t.leave {
        LoopSendsNoExit(t.state, inputs[1..], sendResults[1..], arrivals[1..]);
      }
    }
  }

  /** Whichever way the loop ends, exactly one Exit record is sent after it, and it is the last
      record sent. */
  lemma OneExitAtTheEnd(s: State, inputs: seq<seq<byte>>, sendResults: seq<int>, arrivals: seq<seq<byte>>, exitResult: int)
    requires Inputs(inputs, sendResults, arrivals)
    requires Exit !in s.sent
    ensures var f := Finish(Loop(s, inputs, sendResults, arrivals).state, exitResult);
      f.sent[|f.sent| - 1] == Exit && multiset(f.sent)[Exit] == 1
  {
    LoopSendsNoExit(s, inputs, sendResults, arrivals);
  }

  /** A failed send sets exit, but a record drained in the same pass clears it again: the loop
      goes on as if the send had succeeded. */
  lemma SendFailureMasked(s: State, input: seq<byte>, sendResult: int, m: Message)
    requires InputFits(input) && Request(Classify(InputLine(input))).Some?
    requires sendResult != Request(Classify(InputLine(input))).value.Size()
    requires m.TextFromServer? && m.Valid() && s.rx == Inbound(Encode(m), Open)
    ensures var t := Iterate(s, input, sendResult);
      !t.leave && !t.state.exit && t.state.shown == s.shown + [Shown(m.nickname, m.text)]
  {
    assert Frames([m]) + [] == Encode(m);
    DrainTextFrames([m], [], Open, true);
  }

  /** A failed send with nothing arrived from the server ends the loop. */
  lemma SendFailureExits(s: State, input: seq<byte>, sendResult: int)
    requires InputFits(input) && Request(Classify(InputLine(input))).Some?
    requires sendResult != Request(Classify(InputLine(input))).value.Size()
    requires s.rx == Inbound([], Open)
    ensures var t := Iterate(s, input, sendResult);
      !t.leave && t.state.exit && t.state.sent == s.sent + [Request(Classify(InputLine(input))).value]
  {
  }

  /** The while (retry) loop, on the inbound side of the socket and main's exit flag; the lines
      it prints are returned in order. */
  method Drain(rx0: Inbound, exit0: bool) returns (rx: Inbound, exit: bool, shown: seq<Shown>)
    ensures Drained(rx, exit, shown) == DrainAll(rx0, exit0)
  {
    rx, exit, shown := rx0, exit0, [];
    var retry := true;
    while retry
      invariant DrainAll(rx0, exit0) == After(shown, Remaining(rx, exit, retry))
      decreases retry, |rx.pending|
    {
      DrainAllStep(shown, rx, exit);
      retry := false;
      var peeked := Peek(rx, HEADER_SIZE);
      match peeked {
        case Failed =>
          exit := true;
        case NoData =>
        case Got(header) =>
          if |header| == HEADER_SIZE {
            if HeaderOf(header).msgType == MSG_TEXT_FROM_SERVER {
              var r := Recv(rx, TEXT_FROM_SERVER_SIZE);
              rx := r.rest;
              if |r.data| == TEXT_FROM_SERVER_SIZE {
                shown := shown + [ShownOf(r.data)];
                retry := true;
                exit := false;
              }
            } else {
              exit := true;
            }
          }
      }
    }
    assert shown + [] == shown;
  }

  /** fgets(buffer, 1024, stdin) followed by buffer[strcspn(buffer, "\r\n")] = 0: the bytes read
      are stored with their NUL in a 1024-byte buffer, which is then cut in place at its first CR
      or LF. */
  method ReadLine(input: seq<byte>) returns (line: seq<byte>)
    requires |input| < TEXT_CAPACITY
    ensures line == InputLine(input)
  {
    var buffer := new byte[TEXT_CAPACITY];
    forall i | 0 <= i < |input| {
      buffer[i] := input[i];
    }
    buffer[|input|] := NUL;
    assert buffer[..] == input + [NUL] + buffer[|input| + 1..];
    CStrStopsAtNul(input, buffer[|input| + 1..]);
    var k := LineEnd(CStr(buffer[..]));
    CStrTruncate(buffer[..], k);
    buffer[k] := NUL;
    line := CStr(buffer[..]);
  }

  /** One pass of the while (!exit) body: the line is read and classified, the record built from
      it is sent, and the inbound records are drained. */
  method Iteration(s: State, input: seq<byte>, sendResult: int) returns (next: State, leave: bool)
    requires InputFits(input)
    ensures Iterate(s, input, sendResult) == Turned(next, leave)
  {
    var line := ReadLine(input);
    var exit, sent, wire := s.exit, s.sent, s.wire;
    if StartsWithIgnoringCase(line, NICK_COMMAND) {
      var request := SetNick(line[|NICK_COMMAND|..]);
      sent := sent + [request];
      wire := wire + Transfer(Encode(request), sendResult);
      if sendResult != SETNICK_SIZE {
        exit := true;
      }
    } else if StartsWithIgnoringCase(line, EXIT_COMMAND) {
      return s, true;
    } else if |line| != 0 {
      var request := TextFromClient(line);
      sent := sent + [request];
      wire := wire + Transfer(Encode(request), sendResult);
      if sendResult != TEXT_FROM_CLIENT_SIZE {
        exit := true;
      }
    }
    var rx, shown;
    rx, exit, shown := Drain(s.rx, exit);
    next, leave := State(exit, rx, sent, wire, s.shown + shown), false;
  }

  /** main's loop over a run of console lines, each preceded by the bytes that arrived from the
      server while the client waited for it, then the final Exit send once the loop has ended.
      `finished` is false when the lines ran out with the loop still running. */
  method Run(s: State, inputs: seq<seq<byte>>, sendResults: seq<int>, arrivals: seq<seq<byte>>, exitResult: int)
    returns (final: State, finished: bool)
    requires Inputs(inputs, sendResults, arrivals)
    ensures var t := Loop(s, inputs, sendResults, arrivals);
      finished == t.leave && final == if finished then Finish(t.state, exitResult) else t.state
  {
    var state := s;
    var i := 0;
    var leave := false;
    while !state.exit && i < |inputs|
      invariant 0 <= i <= |inputs| && !leave
      invariant Loop(s, inputs, sendResults, arrivals) == Loop(state, inputs[i..], sendResults[i..], arrivals[i..])
    {
      state := Arrive(state, arrivals[i]);
      state, leave := Iteration(state, inputs[i], sendResults[i]);
      i := i + 1;
      if leave {
        break;
      }
    }
    finished := state.exit || leave;
    if finished {
      state := state.(sent := state.sent + [Exit], wire := state.wire + Transfer(Encode(Exit), exitResult));
    }
    final := state;
  }
}
