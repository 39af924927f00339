/** How the two programs fit together: a line typed at one client becomes the record the server
    thread acts on, and a text the server relays is printed by every other client exactly as it
    was typed, under the sender's nickname. */
module Scenarios {
  import opened CStrings
  import opened Protocol
  import opened Transport
  import opened Registry
  import opened Handler
  import opened Client

  /** A record a client sends for a console line, once it has reached the server whole, is
      consumed whole by the connection thread and has the effect the line asked for: "/nick x"
      renames to x and any other non-empty line is forwarded as typed. */
  lemma LineReachesServer(input: seq<byte>, rest: seq<byte>, status: Status)
    requires InputFits(input) && status != Broken
    requires Request(Classify(InputLine(input))).Some?
    ensures var cmd := Classify(InputLine(input));
      var frame := Encode(Request(cmd).value);
      && HeadFieldsTerminated(frame + rest)
      && Dispatch(Inbound(frame + rest, status)).rx == Inbound(rest, status)
      && (cmd.ChangeNick? ==> Dispatch(Inbound(frame + rest, status)).event == Renamed(cmd.nickname))
      && (cmd.Say? ==> Dispatch(Inbound(frame + rest, status)).event == Forward(InputLine(input)))
  {
    DispatchFrame(Request(Classify(InputLine(input))).value, rest, status);
  }

  /** A text relayed by the server reaches every other registered client: each one's drain loop
      prints exactly one line, with the sender's nickname and the text, and consumes the record.
      The sender receives nothing. */
  lemma RelayedTextIsShown(outbox: map<int, seq<byte>>, conns: seq<Connection>, sender: Connection,
                           nickname: seq<byte>, text: seq<byte>, exit: bool)
    requires forall c :: c in conns ==> c.clientId in outbox && outbox[c.clientId] == []
    requires DistinctIds(conns) && sender in conns
    requires NoNul(nickname) && |nickname| < NICKNAME_CAPACITY
    requires NoNul(text) && |text| < TEXT_CAPACITY
    ensures var after := Fanout(outbox, conns, sender, Encode(TextFromServer(nickname, text)));
      && after[sender.clientId] == []
      && forall c :: c in conns && c != sender ==>
           DrainAll(Inbound(after[c.clientId], Open), exit) == Drained(Inbound([], Open), false, [Shown(nickname, text)])
  {
    var m := TextFromServer(nickname, text);
    var after := Fanout(outbox, conns, sender, Encode(m));
    FanoutDelivers(outbox, conns, sender, Encode(m));
    assert Frames([m]) + [] == Encode(m);
    DrainTextFrames([m], [], Open, exit);
    forall c | c in conns && c != sender
      ensures DrainAll(Inbound(after[c.clientId], Open), exit) == Drained(Inbound([], Open), false, [Shown(nickname, text)])
    {
      assert after[c.clientId] == Encode(m);
    }
  }

  /** Chat round trip: a line typed at one client, relayed by the server, is printed by another
      client exactly as it was typed. */
  lemma TypedLineIsPrinted(input: seq<byte>, nickname: seq<byte>, outbox: map<int, seq<byte>>,
                           conns: seq<Connection>, sender: Connection, receiver: Connection)
    requires InputFits(input) && Classify(InputLine(input)).Say?
    requires forall c :: c in conns ==> c.clientId in outbox && outbox[c.clientId] == []
    requires DistinctIds(conns) && sender in conns && receiver in conns && receiver != sender
    requires NoNul(nickname) && |nickname| < NICKNAME_CAPACITY
    ensures var frame := Encode(TextFromClient(InputLine(input)));
      && HeadFieldsTerminated(frame)
      && Dispatch(Inbound(frame, Open)) == Dispatched(Forward(InputLine(input)), Inbound([], Open))
      && var after := Fanout(outbox, conns, sender, Encode(TextFromServer(nickname, InputLine(input))));
         DrainAll(Inbound(after[receiver.clientId], Open), false).shown == [Shown(nickname, InputLine(input))]
  {
    var line := InputLine(input);
    assert Request(Classify(line)).value == TextFromClient(line);
    LineReachesServer(input, [], Open);
    assert Encode(TextFromClient(line)) + [] == Encode(TextFromClient(line));
    assert Dispatch(Inbound(Encode(TextFromClient(line)), Open)).event == Forward(line);
    RelayedTextIsShown(outbox, conns, sender, nickname, line, false);
    var after := Fanout(outbox, conns, sender, Encode(TextFromServer(nickname, line)));
    assert DrainAll(Inbound(after[receiver.clientId], Open), false)
        == Drained(Inbound([], Open), false, [Shown(nickname, line)]);
  }
}
