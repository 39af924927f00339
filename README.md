# Chat relay over TCP: a verified model

A minimal multi-user chat. A server accepts TCP connections, gives each one a numeric client id
and a default nickname "Client <id>", and runs one thread per connection. Each thread peeks at the
next record header, reads the whole record of the kind the header names, and acts on it:
- SetNick changes the connection's nickname.
- TextFromClient is relayed as TextFromServer, carrying the sender's nickname, to every other
  registered connection.
- Exit ends the thread. The thread then unlinks its node from the shared connection list.

The client reads console lines. It turns `/nick <name>` into SetNick and `/exit` into leaving
the loop, and any other non-empty line into TextFromClient. After every line but `/exit`, which
breaks out of the loop at once, it drains every complete TextFromServer record waiting on its
non-blocking socket and prints `[nick] text` for each. It sends one Exit record when its loop ends.

The model has seven modules:
- `CStrings` covers the C string behaviour the programs rely on: NUL-terminated buffers,
  `sprintf_s` with `%s` and `%i`, `strcspn` and `_strnicmp`.
- `Protocol` covers the four fixed-layout records of `Common.h`, byte for byte, with
  `Encode`/`Decode` and their round trip.
- `Transport` is the inbound side of a stream socket: the pending bytes and the open/closed/broken
  status, with peek (which consumes nothing) and receive (which consumes).
- `Registry` holds the server's connection list, its id counter and what each socket has been
  sent. It is a class whose three mutex-protected critical sections (accept, broadcast, remove)
  are its methods.
- `Handler` is the per-connection thread. A class holds the 64-byte nickname buffer, the exit
  flag and the stream. The pure `Dispatch` specifies one pass of the loop, and `Step` implements
  that pass against the registry.
- `Client` is the client's main loop: the console line, its classification, the record it sends,
  the drain loop and the final Exit send. The methods are proved against specification functions.
- `Scenarios` holds end-to-end lemmas that join the two programs.

Records go on the wire as their raw struct memory, with no htonl or htons on the int fields, so
the model encodes each int in the little-endian host order of the targets the code is built for.
On the server, a complete header of a kind with no case (Server.c:47-105) is left unconsumed and
peeked again on the next pass, and a record read short (Server.c:53, 64, 98) loses the bytes read
and has no other effect: neither ends the connection's loop.

## Model

| member | source | states |
|---|---|---|
| CStrings.CStr | Server.c:55-56 | Reading a buffer as a C string gives the NUL-free prefix before its first NUL, or the whole buffer when it has none. |
| CStrings.CStrStopsAtNul | Client.c:75-78 | Nothing after a NUL is ever part of the string. |
| CStrings.CStrAcross | Client.c:137 | A C string read from a field that another field follows directly is the field's own string when the field is terminated; when it is not, it is the whole field followed by the C string of the next field. |
| CStrings.CStrTruncate | Client.c:78 | Storing a NUL at index k inside the string cuts the string to its first k bytes. |
| CStrings.Field | Server.c:80-81 | A char field written by `sprintf_s(field, cap, "%s", s)` has exactly `cap` bytes, begins with `s` and has a NUL right after it. |
| CStrings.FieldRoundTrip | Common.h:26-31 | Reading back a field written with a string that fits gives exactly that string, and the field is terminated. |
| CStrings.WriteCString | Server.c:56 | sprintf_s into the nickname buffer, in place: the string and its NUL are written, later bytes are kept, and the buffer then reads as the new string. |
| CStrings.Decimal | Server.c:30 | `%i` of a non-negative value prints at least one byte, every one a decimal digit, and no leading zero. |
| CStrings.DecimalRoundTrip | Server.c:30 | The printed digits read back as the number printed. |
| CStrings.DecimalLength | Server.c:30 | A number below 10^k prints with at most k digits, so "Client <id>" fits the 64-byte buffer. |
| CStrings.StartsWithIgnoringCase | Client.c:80 | `_strnicmp(s, p, n) == 0` with n the length of `p`: the first n bytes of the C string equal `p` up to ASCII letter case. |
| CStrings.LineEnd | Client.c:78 | `strcspn(s, "\r\n")` is the index of the first CR or LF, or the length of the string when it has neither. |
| Protocol.Int32RoundTrip | Common.h:20-24 | An int field written into its four bytes reads back as the same value. |
| Protocol.Encode | Common.h:20-52 | A record's bytes are exactly `sizeof` of its struct. |
| Protocol.Decode | Common.h:20-58 | A decoded record is valid, its size is the byte count, and its kind is the header's msg_type. |
| Protocol.HeaderOfFrame | Common.h:20-24 | Whatever follows a record on the stream, its first eight bytes read as its own kind and size. |
| Protocol.KindsAndSizes | Common.h:54-58 | The five kind constants are distinct and ordered. Only Exit is exactly a header long. |
| Protocol.DecodeEncode | Common.h:26-52 | Decoding an encoded record gives back the record with its kind and every field. |
| Transport.Peek | Server.c:38 | A peek fails exactly on a broken socket and has no data exactly on an open socket with nothing pending. Otherwise it copies the first min(n, pending) bytes and consumes none. |
| Transport.Recv | Server.c:52 | A receive returns the first min(n, pending) bytes, leaves the rest pending, and keeps the status. |
| Transport.Transfer | Client.c:88 | The bytes a send put on the wire are a prefix of the record, as long as the count send returned, and nothing when it failed. |
| Registry.Others | Server.c:72-87 | The connections other than the given one, in list order: a node is in it exactly when it is listed and is not that connection. |
| Registry.IndexOf | Server.c:124-136 | The list walk's stopping point is the first node equal to the connection, or the list's end. |
| Registry.Without | Server.c:118-137 | Unlinking a listed node shortens the list by one; unlinking a node that is not listed leaves the list as it was. |
| Registry.Fanout | Server.c:72-87 | The fan-out touches only existing sockets: the set of sockets is unchanged. |
| Registry.FanoutDelivers | Server.c:72-87 | Every listed connection except the sender gets exactly one copy of the record appended, and the sender gets nothing. |
| Registry.FanoutSkipsUnlisted | Server.c:72-87 | A socket whose connection is not in the list receives nothing from a broadcast. |
| Registry.WithoutIsOthers | Server.c:118-137 | Unlinking removes exactly that node and keeps every other node in its order; the head case and the middle case agree. |
| Registry.WithoutDescending | Server.c:118-137 | Unlinking keeps the list ordered by descending id and adds no node. |
| Registry.RemovedGetsNothing | Server.c:116-141 | Once a connection is unlinked, no later broadcast writes to its socket. |
| Registry.Server.constructor | Server.c:192 | The server starts with client_id 0 and an empty connection list (g_connections is NULL, Server.c:14). |
| Registry.Server.Accept | Server.c:203-217 | Accept pushes a node carrying the next id, which no listed node has, at the head. The counter grows by one, and the id order and every other invariant are kept. |
| Registry.Server.Broadcast | Server.c:70-90 | The relay walks the list head first and sends one TextFromServer record with the nickname and text to each node but the sender, in list order. The list and the counter are unchanged. |
| Registry.Server.Remove | Server.c:116-141 | The thread's end unlinks its own node, whether it is the head or not, and leaves the counter and the sockets unchanged. |
| Handler.DefaultNickname | Server.c:29-30 | The initial nickname is "Client " followed by decimal digits, with no leading zero, that read back as the id. It fits the 64-byte buffer with its NUL. |
| Handler.Dispatch | Server.c:33-107 | One loop pass consumes only from the front of the stream and keeps its status. A rename or forward carries a terminated string that fits its field. |
| Handler.DispatchCompleteHeader | Server.c:44-105 | With a complete header the kind alone decides. A full SetNick renames to the field's string, a full TextFromClient forwards its text, and Exit requests exit, each consuming exactly its record. Any other kind changes nothing. |
| Handler.DispatchFrame | Server.c:47-104 | A complete record of each kind, as a client encodes it, is consumed whole and acted on with the exact string sent. A TextFromServer record has no case and is left in place. |
| Handler.DispatchIncompleteHeader | Server.c:38-44 | A peek of fewer bytes than a header, zero included, changes nothing. |
| Handler.DispatchShortRead | Server.c:52-53 | A SetNick or TextFromClient record read short loses the bytes read and has no effect. |
| Handler.DispatchEndsLoop | Server.c:33-43 | The loop ends exactly on a failed peek or a complete Exit record, and on nothing else. |
| Handler.Handler.Receive | Server.c:37-105 | The thread peeks the header and receives the record from its own socket in place: the stream and the event are those Dispatch specifies, and the exit flag is untouched. |
| Handler.Handler.Nickname | Server.c:29 | The nickname buffer reads as a NUL-free string shorter than 64 bytes. |
| Handler.Handler.constructor | Server.c:20-32 | The thread starts with exit 0 and its buffer reading "Client <id>". |
| Handler.Handler.Step | Server.c:33-107 | One pass of the thread's loop against the registry. It consumes what Dispatch consumes, overwrites the nickname on a rename, broadcasts under the current nickname on a forward, and sets exit on Exit. It reports the end of the loop, and the registry's invariant is kept. |
| Client.InputLine | Client.c:73-78 | The line is a NUL-free prefix of what fgets stored, with no CR or LF, and it stops only at a NUL, CR or LF. |
| Client.Classify | Client.c:80-114 | An empty line does nothing. Text is sent exactly as typed, and the nickname is the rest of the line after "/nick ". |
| Client.NickCommand | Client.c:80-86 | Every line that starts with "/nick " in any letter case is a rename to the rest of the line, whatever it holds. |
| Client.ExitCommand | Client.c:95-99 | Every line that starts with "/exit" in any letter case, with any suffix, leaves the loop. |
| Client.OtherIsText | Client.c:100-106 | Every other non-empty line is sent as text exactly as typed. |
| Client.BareNickIsText | Client.c:80-106 | "/nick" without the space is sent as text. |
| Client.Request | Client.c:83-106 | /nick sends a SetNick and text sends a TextFromClient, each valid and carrying the string. /exit and the empty line send nothing. |
| Client.DrainStep | Client.c:120-162 | One drain pass keeps the socket status. It retries only after consuming exactly one full TextFromServer record, printing one line and clearing exit. Otherwise it prints nothing, consumes nothing or everything pending, and only ever sets exit. |
| Client.DrainAll | Client.c:117-163 | The drain keeps the socket status, and it can clear a set exit flag only by printing at least one line. |
| Client.DrainConsumesPrefix | Client.c:117-163 | The drain only consumes from the front of the stream. |
| Client.ShownOf | Client.c:137 | The printed text is the text field's string. The printed nickname is the nickname field's string when the field is terminated; when it is not, it is all 64 bytes of the field followed by the printed text, as printf reads on into the adjacent text field. |
| Client.ShownOfFrame | Client.c:133-137 | The printed line shows the nickname and the text the record was built from. |
| Client.DrainTextFrame | Client.c:131-141 | A complete TextFromServer record is consumed whole and printed, clears exit and makes the loop retry. |
| Client.DrainTextFrames | Client.c:117-142 | A run of complete TextFromServer records prints every one in order and consumes them all. Exit is cleared if any arrived. |
| Client.DrainSocketError | Client.c:150-161 | A receive error sets exit and ends the drain, consuming nothing. |
| Client.DrainIncompleteHeader | Client.c:124-128 | Less than a header, nothing included, ends the drain with nothing consumed and exit unchanged. |
| Client.DrainForeignKind | Client.c:143-147 | A header of any other kind sets exit and ends the drain, consuming nothing. |
| Client.DrainShortFrame | Client.c:134-135 | A TextFromServer record read short loses its bytes, prints nothing and ends the drain. |
| Client.Iterate | Client.c:71-164 | A pass leaves the loop exactly on /exit, and then changes nothing. Otherwise it sends exactly the record the line asks for, if any, and never Exit. A failed send sets exit unless a record drained in the same pass clears it. |
| Client.Loop | Client.c:70-164 | The loop stops without leaving only when the lines run out with exit still clear. |
| Client.Finish | Client.c:166-171 | After the loop, an Exit record is appended to what was sent. |
| Client.LoopSendsNoExit | Client.c:70-164 | The loop over any run of lines sends no Exit record. |
| Client.OneExitAtTheEnd | Client.c:166-171 | Whichever way the loop ends, exactly one Exit is sent, and it is the last record sent. |
| Client.SendFailureMasked | Client.c:108-140 | A failed send followed by a record drained in the same pass leaves exit cleared, so the loop goes on. |
| Client.SendFailureExits | Client.c:88-113 | A failed send with nothing arrived ends the loop, after the record was issued. |
| Client.Drain | Client.c:117-163 | The while (retry) loop ends in the stream, exit flag and printed lines that DrainAll specifies. |
| Client.ReadLine | Client.c:73-78 | Storing the input in the 1024-byte buffer and cutting it in place at the first CR or LF gives InputLine. |
| Client.Iteration | Client.c:71-164 | The loop body's code computes exactly the pass Iterate specifies. |
| Client.Run | Client.c:70-171 | main's loop followed by the final Exit send ends in the state Loop and Finish specify, and reports whether the loop ended. |
| Scenarios.LineReachesServer | Server.c:44-104 | A record a client sends for a console line is consumed whole by the server thread. It renames to the typed nickname or forwards the typed text. |
| Scenarios.RelayedTextIsShown | Server.c:72-87 | Every other client's drain prints exactly one line with the sender's nickname and the text, and consumes the record; the sender receives nothing. |
| Scenarios.TypedLineIsPrinted | Client.c:100-137 | A line typed at one client, forwarded by the server, is printed by another client exactly as typed. |

## Left out

- WinSock start-up and clean-up, socket creation, bind, listen, connect, the non-blocking mode
  switch and closesocket are plumbing and are not modelled. The accepted socket is an integer
  handle.
- Threads and the mutex are not modelled. Each critical section (accept, broadcast, remove) is one
  atomic method, and interleavings between the accept loop and the connection threads are not
  modelled.
- The `printf` logging of the server is not modelled. The client's printed lines are recorded as
  `Shown` values, not as formatted text.
- Console input is given as parameters: one byte sequence per `fgets` call. End of input and read
  errors of `fgets` are not modelled, so `Client.Run` also stops when the given lines run out.
- Bytes from the server arrive only between two console lines (`arrivals`), not during a pass.
- The send results are parameters. The server ignores the result of its broadcast sends, and so
  does the model, which appends the whole record to the receiving socket's bytes.
- `errno` after a failed receive is folded into the socket status: `Broken` is an error, and an
  open socket with nothing pending is "would block".
- The bytes of a char field after its NUL are uninitialised stack memory in the source. They are
  zero in the model, and nothing reads them.
- Handler.Dispatch: requires the head record's char fields to be NUL-terminated, because the
  thread copies them with `sprintf_s("%s")`, which would read past the record otherwise (undefined
  behaviour).
- Client.InputFits: a `/nick` name of 64 bytes or more makes `sprintf_s` fail at run time (its
  invalid-parameter handler). The model requires the name to fit instead of modelling that abort.
- Registry.Server.Accept: requires the id counter to be below INT_MAX, because `client_id++` past
  it is signed overflow.
- A peer that closed its socket makes the server's peek return 0 forever, so the thread spins
  without consuming anything. The model states this pass (`Handler.DispatchIncompleteHeader`) but
  not the liveness consequence.
- Client.ShownOf: a text field with no NUL is read by printf past the end of the record, which is
  undefined behaviour; the model stops reading at the end of the record.
- The non-Windows `close(new_socket)` branch of the client does not compile as written and is not
  modelled.
- The msg_length field is written but never read by either program. It is encoded, and nothing
  reads it.
