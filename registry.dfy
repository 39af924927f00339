/** The server's connection registry (Server.c): the list of live connections headed by
    g_connections, the client id counter of the accept loop, and what the server has written to
    each connection's socket.

    Every access to the list happens with connections_mutex held, and each of the three critical
    sections (insert on accept, broadcast fan-out, removal on close) runs start to finish inside
    one hold of the mutex. Each is therefore one method here, and interleavings are not modelled.
    The list is a sequence in list order, head first; since ids are unique, comparing nodes by
    identity and comparing them by value agree. */
module Registry {
  import opened CStrings
  import opened Protocol

  type Socket = int

  /** A node of the connection list: the id handed out at accept and the accepted socket. */
  datatype Connection = Connection(clientId: int, socket: Socket)

  /** INT_MAX: client_id++ is defined only below it. */
  const MAX_CLIENT_ID: int := INT32_LIMIT - 1

  /** Ids strictly decrease from the head, as they do when every accept prepends a node whose id
      is larger than any before it. */
  predicate Descending(conns: seq<Connection>)
  {
    forall i, j :: 0 <= i < j < |conns| ==> conns[i].clientId > conns[j].clientId
  }

  predicate DistinctIds(conns: seq<Connection>)
  {
    forall i, j :: 0 <= i < j < |conns| ==> conns[i].clientId != conns[j].clientId
  }

  function Ids(conns: seq<Connection>): set<int>
  {
    set c | c in conns :: c.clientId
  }

  /** The connections other than `c`, in list order. */
  function Others(conns: seq<Connection>, c: Connection): (r: seq<Connection>)
    ensures forall d :: d in r <==> d in conns && d != c
    ensures |r| <= |conns|
  {
    if conns == [] then []
    else
      var last := conns[|conns| - 1];
      Others(conns[..|conns| - 1], c) + (if last != c then [last] else [])
  }

  /** The position of the first node equal to `c`, or the length of the list if there is none. */
  function IndexOf(conns: seq<Connection>, c: Connection): (i: nat)
    ensures i <= |conns|
    ensures i < |conns| ==> conns[i] == c
    ensures forall j :: 0 <= j < i ==> conns[j] != c
  {
    if conns == [] || conns[0] == c then 0 else 1 + IndexOf(conns[1..], c)
  }

  /** The list after unlinking `c`: the head moves to its successor when `c` is the head, its
      predecessor is linked to its successor otherwise, and a list without `c` is left alone. */
  function Without(conns: seq<Connection>, c: Connection): (r: seq<Connection>)
    ensures c !in conns ==> r == conns
    ensures c in conns ==> |r| == |conns| - 1
  {
    var i := IndexOf(conns, c);
    if i == |conns| then conns else conns[..i] + conns[i + 1..]
  }

  /** One send of `frame` to every connection in `conns` other than `sender`, walked in list
      order; each send appends the frame to what that connection's socket has received. */
  function Fanout(outbox: map<int, seq<byte>>, conns: seq<Connection>, sender: Connection,
                  frame: seq<byte>): (r: map<int, seq<byte>>)
    requires forall c :: c in conns ==> c.clientId in outbox
    requires DistinctIds(conns)
    ensures r.Keys == outbox.Keys
  {
    if conns == [] then outbox
    else
      var last := conns[|conns| - 1];
      var sent := Fanout(outbox, conns[..|conns| - 1], sender, frame);
      if last == sender then sent else sent[last.clientId := sent[last.clientId] + frame]
  }

  /** Exactly one frame reaches each listed connection other than the sender, and none reaches
      the sender. */
  lemma {:induction false} FanoutDelivers(outbox: map<int, seq<byte>>, conns: seq<Connection>,
                                          sender: Connection, frame: seq<byte>)
    requires forall c :: c in conns ==> c.clientId in outbox
    requires DistinctIds(conns)
    ensures forall c :: c in conns ==>
              Fanout(outbox, conns, sender, frame)[c.clientId]
                == outbox[c.clientId] + (if c == sender then [] else frame)
  {
    if conns != [] {
      var prefix, last := conns[..|conns| - 1], conns[|conns| - 1];
      assert conns == prefix + [last];
      FanoutDelivers(outbox, prefix, sender, frame);
      assert last.clientId !in Ids(prefix) by {
        forall c | c in prefix ensures c.clientId != last.clientId {
          var j :| 0 <= j < |prefix| && prefix[j] == c;
          assert conns[j] == c;
        }
      }
      FanoutSkipsUnlisted(outbox, prefix, sender, frame, last.clientId);
    }
  }

  /** A socket whose connection is not in the list receives nothing from a fan-out. */
  lemma {:induction false} FanoutSkipsUnlisted(outbox: map<int, seq<byte>>, conns: seq<Connection>,
                                               sender: Connection, frame: seq<byte>, id: int)
    requires forall c :: c in conns ==> c.clientId in outbox
    requires DistinctIds(conns)
    requires id in outbox && id !in Ids(conns)
    ensures Fanout(outbox, conns, sender, frame)[id] == outbox[id]
  {
    if conns != [] {
      var prefix := conns[..|conns| - 1];
      assert forall c :: c in prefix ==> c in conns;
      FanoutSkipsUnlisted(outbox, prefix, sender, frame, id);
      assert conns[|conns| - 1].clientId in Ids(conns);
    }
  }

  /** Walking one more node of the list extends the fan-out by that node's send. */
  lemma FanoutExtend(outbox: map<int, seq<byte>>, conns: seq<Connection>, i: nat,
                     sender: Connection, frame: seq<byte>)
    requires i < |conns| && DistinctIds(conns)
    requires forall c :: c in conns ==> c.clientId in outbox
    ensures DistinctIds(conns[..i + 1])
    ensures var sent := Fanout(outbox, conns[..i], sender, frame);
            Fanout(outbox, conns[..i + 1], sender, frame)
              == if conns[i] == sender then sent
                 else sent[conns[i].clientId := sent[conns[i].clientId] + frame]
    ensures Others(conns[..i + 1], sender)
              == Others(conns[..i], sender) + (if conns[i] != sender then [conns[i]] else [])
  {
    assert conns[..i + 1][..i] == conns[..i];
  }

  /** Filtering out a connection that is not in the list leaves the list unchanged. */
  lemma {:induction false} OthersOfAbsent(conns: seq<Connection>, c: Connection)
    requires c !in conns
    ensures Others(conns, c) == conns
  {
    if conns != [] {
      var prefix := conns[..|conns| - 1];
      assert conns == prefix + [conns[|conns| - 1]];
      OthersOfAbsent(prefix, c);
    }
  }

  /** Removal deletes exactly the node `c` and keeps every other node, in the same relative
      order: the list afterwards is the list of the other connections. */
  lemma {:induction false} WithoutIsOthers(conns: seq<Connection>, c: Connection)
    requires DistinctIds(conns)
    ensures Without(conns, c) == Others(conns, c)
  {
    if conns == [] {
      return;
    }
    var n := |conns|;
    var prefix, last := conns[..n - 1], conns[n - 1];
    assert conns == prefix + [last];
    WithoutIsOthers(prefix, c);
    if c in prefix {
      var i := IndexOf(prefix, c);
      assert last != c by {
        assert conns[i] == c && i < n - 1;
      }
      WithoutAppend(prefix, last, c);
      assert Others(conns, c) == Others(prefix, c) + [last];
    } else {
      IndexOfExtend(prefix, last, c);
      OthersOfAbsent(prefix, c);
    }
  }

  /** Removing a node that is already in a list is not affected by a node appended after it. */
  lemma WithoutAppend(prefix: seq<Connection>, last: Connection, c: Connection)
    requires c in prefix
    ensures Without(prefix + [last], c) == Without(prefix, c) + [last]
  {
    var s := prefix + [last];
    var i := IndexOf(prefix, c);
    IndexOfExtend(prefix, last, c);
    assert IndexOf(s, c) == i < |prefix|;
    assert s[..i] == prefix[..i];
    assert s[i + 1..] == prefix[i + 1..] + [last];
    assert prefix[..i] + (prefix[i + 1..] + [last]) == (prefix[..i] + prefix[i + 1..]) + [last];
  }

  lemma {:induction false} IndexOfExtend(s: seq<Connection>, x: Connection, c: Connection)
    ensures c in s ==> IndexOf(s + [x], c) == IndexOf(s, c)
    ensures c !in s ==> IndexOf(s + [x], c) == if x == c then |s| else |s| + 1
  {
    if s != [] && s[0] != c {
      assert (s + [x])[1..] == s[1..] + [x];
      IndexOfExtend(s[1..], x, c);
    }
  }

  /** Removing a node cannot break the descending order of ids. */
  lemma WithoutDescending(conns: seq<Connection>, c: Connection)
    requires Descending(conns)
    ensures Descending(Without(conns, c))
    ensures forall d :: d in Without(conns, c) ==> d in conns
  {
    var i := IndexOf(conns, c);
    if i < |conns| {
      var r := Without(conns, c);
      forall a, b | 0 <= a < b < |r| ensures r[a].clientId > r[b].clientId {
        var a' := if a < i then a else a + 1;
        var b' := if b < i then b else b + 1;
        assert r[a] == conns[a'] && r[b] == conns[b'];
      }
    }
  }

  /** Once a connection is removed, no later broadcast writes to its socket. */
  lemma RemovedGetsNothing(outbox: map<int, seq<byte>>, conns: seq<Connection>, c: Connection,
                           sender: Connection, frame: seq<byte>)
    requires Descending(conns) && c in conns && c.clientId in outbox
    requires forall d :: d in conns ==> d.clientId in outbox
    ensures DistinctIds(Without(conns, c))
    ensures Fanout(outbox, Without(conns, c), sender, frame)[c.clientId] == outbox[c.clientId]
  {
    WithoutDescending(conns, c);
    var rest := Without(conns, c);
    WithoutIsOthers(conns, c);
    forall d | d in rest ensures d.clientId != c.clientId {
      var j :| 0 <= j < |conns| && conns[j] == d;
      var k :| 0 <= k < |conns| && conns[k] == c;
      assert j != k;
    }
    FanoutSkipsUnlisted(outbox, rest, sender, frame, c.clientId);
  }

  class Server {
    var connections: seq<Connection>
    var nextClientId: int
    var outbox: map<int, seq<byte>>

    /** Ids are handed out by a counter that only grows, so every live id is below the
        counter and the list, built by prepending, is ordered by descending id. */
    ghost predicate Valid()
      reads this
    {
      && 0 <= nextClientId <= MAX_CLIENT_ID
      && Descending(connections)
      && (forall c :: c in connections ==> 0 <= c.clientId < nextClientId && c.clientId in outbox)
      && (forall id :: id in outbox ==> 0 <= id < nextClientId)
    }

    /** The state before the accept loop: no connections and client_id == 0. */
    constructor ()
      ensures Valid()
      ensures connections == [] && nextClientId == 0 && outbox == map[]
    {
      connections := [];
      nextClientId := 0;
      outbox := map[];
    }

    /** The critical section after accept(): a new node with the next id is pushed at the head. */
    method Accept(socket: Socket) returns (c: Connection)
      requires Valid() && nextClientId < MAX_CLIENT_ID
      modifies this
      ensures Valid()
      ensures c == Connection(old(nextClientId), socket) && c.clientId !in old(Ids(connections))
      ensures connections == [c] + old(connections)
      ensures nextClientId == old(nextClientId) + 1
      ensures outbox == old(outbox)[c.clientId := []]
    {
      c := Connection(nextClientId, socket);
      nextClientId := nextClientId + 1;
      connections := [c] + connections;
      outbox := outbox[c.clientId := []];
    }

    /** The fan-out of a text from `sender`: with the mutex held, the list is walked from the
        head and one TextFromServer record carrying the sender's nickname and the text is sent
        to every node but the sender's own. `targets` lists the receivers in the order sent. */
    method Broadcast(sender: Connection, nickname: seq<byte>, text: seq<byte>)
      returns (targets: seq<Connection>)
      requires Valid()
      requires NoNul(nickname) && |nickname| < NICKNAME_CAPACITY
      requires NoNul(text) && |text| < TEXT_CAPACITY
      modifies this
      ensures Valid()
      ensures connections == old(connections) && nextClientId == old(nextClientId)
      ensures targets == Others(connections, sender)
      ensures outbox == Fanout(old(outbox), connections, sender, Encode(TextFromServer(nickname, text)))
    {
      ghost var frame := Encode(TextFromServer(nickname, text));
      var i := 0;
      targets := [];
      while i < |connections|
        invariant 0 <= i <= |connections|
        invariant connections == old(connections) && nextClientId == old(nextClientId)
        invariant DistinctIds(connections[..i])
        invariant outbox == Fanout(old(outbox), connections[..i], sender, frame)
        invariant targets == Others(connections[..i], sender)
      {
        var current := connections[i];
        FanoutExtend(old(outbox), connections, i, sender, frame);
        if current != sender {
          var msg := TextFromServer(nickname, text);
          outbox := outbox[current.clientId := outbox[current.clientId] + Encode(msg)];
          targets := targets + [current];
        }
        i := i + 1;
      }
      assert connections[..i] == connections;
      assert outbox.Keys == old(outbox).Keys;
    }

    /** The critical section at the end of a connection's thread: its node is unlinked. */
    method Remove(c: Connection)
      requires Valid()
      modifies this
      ensures Valid()
      ensures connections == Without(old(connections), c)
      ensures nextClientId == old(nextClientId) && outbox == old(outbox)
    {
      WithoutDescending(connections, c);
      if |connections| > 0 && connections[0] == c {
        assert IndexOf(connections, c) == 0;
        connections := connections[1..];
      } else {
        var i := 0;
        while i < |connections|
          invariant 0 <= i <= |connections|
          invariant connections == old(connections)
          invariant forall j :: 0 <= j < i ==> connections[j] != c
        {
          if connections[i] == c {
            assert IndexOf(connections, c) == i;
            connections := connections[..i] + connections[i + 1..];
            break;
          }
          i := i + 1;
        }
      }
    }
  }
}
