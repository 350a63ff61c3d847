/** The server side of the sync protocol: a registry of live connections, the
    per-message dispatcher and the heartbeat sweep. Socket sends become
    entries appended to an outbox; events on the socket (message, close,
    error) and the heartbeat timer become method calls carrying the current
    time. */
module SyncRoute {
  import opened Util
  import opened Protocol
  import opened ServerDatabase

  const HeartbeatInterval: int := 30000
  /** A connection silent for longer than this is dropped by the sweep. */
  const HeartbeatTimeout: int := 60000
  const UnauthorizedCode: int := 4001

  /** A registered connection: when it was last heard from, and whether its
      socket is in the OPEN ready state. */
  datatype Connection = Connection(lastPing: Timestamp, open: bool)

  /** One `socket.send`: the recipient and the message. */
  datatype Delivery = Delivery(to: Id, message: Message)

  datatype ConnectOutcome = Registered(clientId: Id) | Refused(code: int, reason: string)

  /** A configured (non-empty) server token must be matched exactly by the
      query token; an unconfigured one admits everybody. */
  predicate Admitted(serverToken: Option<string>, token: Option<string>) {
    !(serverToken.Some? && Truthy(serverToken.value) && token != serverToken)
  }

  /** The connections among `keys` that a broadcast excluding `exclude`
      reaches: registered, open, and not the excluded one. */
  ghost function RecipientsAmong(conns: map<Id, Connection>, exclude: Option<Id>, keys: set<Id>): set<Id> {
    set id | id in keys && id in conns && Some(id) != exclude && conns[id].open
  }

  ghost function Recipients(conns: map<Id, Connection>, exclude: Option<Id>): set<Id> {
    RecipientsAmong(conns, exclude, conns.Keys)
  }

  ghost function Addressees(ds: seq<Delivery>): seq<Id> {
    seq(|ds|, i requires 0 <= i < |ds| => ds[i].to)
  }

  /** `ds` delivers `m` to every member of `to` exactly once and to nobody
      else, in some order. */
  ghost predicate FanOut(ds: seq<Delivery>, to: set<Id>, m: Message) {
    (forall i | 0 <= i < |ds| :: ds[i].message == m) && multiset(Addressees(ds)) == multiset(to)
  }

  lemma FanOutSnoc(ds: seq<Delivery>, to: set<Id>, m: Message, id: Id)
    requires FanOut(ds, to, m) && id !in to
    ensures FanOut(ds + [Delivery(id, m)], to + {id}, m)
  {
    assert Addressees(ds + [Delivery(id, m)]) == Addressees(ds) + [id];
  }

  lemma RecipientsStep(conns: map<Id, Connection>, exclude: Option<Id>, done: set<Id>, id: Id)
    requires id in conns && id !in done
    ensures RecipientsAmong(conns, exclude, done + {id})
         == RecipientsAmong(conns, exclude, done) + (if Some(id) != exclude && conns[id].open then {id} else {})
    ensures id !in RecipientsAmong(conns, exclude, done)
  {
  }

  /** The `connections.forEach` of `broadcast`: one delivery of `m` to
      every open connection except the excluded one. */
  method Deliveries(conns: map<Id, Connection>, exclude: Option<Id>, m: Message) returns (sent: seq<Delivery>)
    ensures FanOut(sent, Recipients(conns, exclude), m)
  {
    sent := [];
    ghost var done: set<Id> := {};
    var todo := conns.Keys;
    while todo != {}
      invariant done + todo == conns.Keys && done !! todo
      invariant FanOut(sent, RecipientsAmong(conns, exclude, done), m)
      decreases |todo|
    {
      var id :| id in todo;
      DeliveriesStep(conns, exclude, m, done, todo, sent, id);
      if Some(id) != exclude && conns[id].open {
        sent := sent + [Delivery(id, m)];
      }
      done := done + {id};
      todo := todo - {id};
    }
  }

  /** One turn of the `Deliveries` loop keeps its invariant. */
  lemma DeliveriesStep(conns: map<Id, Connection>, exclude: Option<Id>, m: Message,
                       done: set<Id>, todo: set<Id>, sent: seq<Delivery>, id: Id)
    requires done + todo == conns.Keys && done !! todo && id in todo
    requires FanOut(sent, RecipientsAmong(conns, exclude, done), m)
    ensures (done + {id}) + (todo - {id}) == conns.Keys && (done + {id}) !! (todo - {id})
    ensures |todo - {id}| < |todo|
    ensures var next := if Some(id) != exclude && conns[id].open then sent + [Delivery(id, m)] else sent;
      FanOut(next, RecipientsAmong(conns, exclude, done + {id}), m)
  {
    MoveOne(done, todo, id);
    RecipientsStep(conns, exclude, done, id);
    if Some(id) != exclude && conns[id].open {
      FanOutSnoc(sent, RecipientsAmong(conns, exclude, done), m, id);
    }
  }

  /** What `sendTo` emits: one delivery if the recipient is registered and
      open, nothing otherwise. */
  ghost function Unicast(conns: map<Id, Connection>, to: Id, m: Message): seq<Delivery> {
    if to in conns && conns[to].open then [Delivery(to, m)] else []
  }

  /** Receiving any parsed message refreshes the sender's `lastPing`. */
  ghost function Touch(conns: map<Id, Connection>, id: Id, now: Timestamp): map<Id, Connection> {
    if id in conns then conns[id := conns[id].(lastPing := now)] else conns
  }

  /** The connections the heartbeat sweep keeps. */
  ghost function Survivors(conns: map<Id, Connection>, now: Timestamp): map<Id, Connection> {
    map id | id in conns && now - conns[id].lastPing <= HeartbeatTimeout :: conns[id]
  }

  function AckFor(m: Message, now: Timestamp): Message {
    Message(now, None, Ack(m.timestamp))
  }

  /** The reply to INIT: every stored note, newest first, to the sender alone. */
  ghost predicate InitReply(conns: map<Id, Connection>, sender: Id, now: Timestamp,
                            notes: map<Id, Row<Note>>, out: seq<Delivery>) {
    if sender in conns && conns[sender].open then
      |out| == 1 && out[0].to == sender && out[0].message.timestamp == now
      && out[0].message.clientId == Some(sender) && out[0].message.body.InitResponse?
      && multiset(out[0].message.body.notes) == multiset(Entities(notes))
      && Descending(out[0].message.body.notes, (n: Note) => n.updatedAt)
    else out == []
  }

  /** A broadcast part followed by the ACK to the sender. The broadcast is
      present only when `relay` is, and reaches every other open connection. */
  ghost predicate RelayThenAck(conns: map<Id, Connection>, sender: Id, m: Message, relay: Option<Message>,
                               now: Timestamp, out: seq<Delivery>) {
    var ack := Unicast(conns, sender, AckFor(m, now));
    |ack| <= |out| && out[|out| - |ack|..] == ack
    && (if relay.Some? then FanOut(out[..|out| - |ack|], Recipients(conns, Some(sender)), relay.value)
        else out[..|out| - |ack|] == [])
  }

  /** A broadcast never reaches the excluded sender, and reaches only open,
      registered connections. */
  lemma FanOutExcludesSender(ds: seq<Delivery>, conns: map<Id, Connection>, sender: Id, m: Message)
    requires FanOut(ds, Recipients(conns, Some(sender)), m)
    ensures forall i | 0 <= i < |ds| :: ds[i].to != sender && ds[i].to in conns && conns[ds[i].to].open
  {
    forall i | 0 <= i < |ds| ensures ds[i].to != sender && ds[i].to in conns && conns[ds[i].to].open {
      assert Addressees(ds)[i] == ds[i].to;
      assert ds[i].to in multiset(Addressees(ds));
    }
  }

  /** Every other open connection receives the broadcast exactly once. */
  lemma FanOutReachesOthersOnce(ds: seq<Delivery>, conns: map<Id, Connection>, sender: Id, m: Message, id: Id)
    requires FanOut(ds, Recipients(conns, Some(sender)), m)
    requires id in conns && conns[id].open && id != sender
    ensures exists i | 0 <= i < |ds| :: ds[i].to == id
    ensures forall i, j | 0 <= i < j < |ds| :: !(ds[i].to == id && ds[j].to == id)
  {
    var a := Addressees(ds);
    assert id in Recipients(conns, Some(sender));
    assert multiset(a)[id] == 1;
    assert id in a;
    var k :| 0 <= k < |a| && a[k] == id;
    assert ds[k].to == id;
    forall i, j | 0 <= i < j < |ds| ensures !(ds[i].to == id && ds[j].to == id) {
      if ds[i].to == id && ds[j].to == id {
        TwoOccurrences(a, i, j);
        assert false;
      }
    }
  }

  /** The sweep keeps exactly the connections heard from within the timeout,
      and keeps them as they were. */
  lemma {:induction false} SweepKeepsExactlyLive(conns: map<Id, Connection>, now: Timestamp, id: Id)
    ensures id in Survivors(conns, now) <==> id in conns && now - conns[id].lastPing <= HeartbeatTimeout
    ensures id in Survivors(conns, now) ==> Survivors(conns, now)[id] == conns[id]
  {
  }

  class SyncServer {
    const db: Database
    var connections: map<Id, Connection>
    var outbox: seq<Delivery>

    ghost predicate Valid()
      reads this, db
    {
      db.Valid()
    }

    constructor (store: Database)
      requires store.Valid()
      ensures Valid() && db == store
      ensures connections == map[] && outbox == []
    {
      db := store;
      connections := map[];
      outbox := [];
    }

    /** `getConnectionCount` */
    function ConnectionCount(): (n: nat)
      reads this
      ensures n == |connections.Keys|
    {
      |connections|
    }

    /** A new socket: refused with 4001 when the token check fails, otherwise
        registered under the generated id with `lastPing = now`. */
    method Connect(serverToken: Option<string>, token: Option<string>, clientId: Id, now: Timestamp)
      returns (o: ConnectOutcome)
      modifies this`connections
      ensures Admitted(serverToken, token) ==>
        o == Registered(clientId) && connections == old(connections)[clientId := Connection(now, true)]
      ensures !Admitted(serverToken, token) ==>
        o == Refused(UnauthorizedCode, "Unauthorized") && connections == old(connections)
    {
      if serverToken.Some? && Truthy(serverToken.value) && token != serverToken {
        return Refused(UnauthorizedCode, "Unauthorized");
      }
      connections := connections[clientId := Connection(now, true)];
      o := Registered(clientId);
    }

    /** The `close` and `error` handlers: drop exactly this connection. */
    method Disconnect(clientId: Id)
      modifies this`connections
      ensures connections == old(connections) - {clientId}
    {
      connections := connections - {clientId};
    }

    /** The socket has left the OPEN state while still registered (it is
        closing); sends to it are skipped from now on. */
    method SocketLeftOpen(clientId: Id)
      modifies this`connections
      ensures clientId in old(connections) ==>
        connections == old(connections)[clientId := old(connections)[clientId].(open := false)]
      ensures clientId !in old(connections) ==> connections == old(connections)
    {
      if clientId in connections {
        connections := connections[clientId := connections[clientId].(open := false)];
      }
    }

    /** Server shutdown: every connection is terminated and the registry
        cleared. */
    method Shutdown()
      modifies this`connections
      ensures connections == map[]
    {
      connections := map[];
    }

    /** `sendTo` */
    method SendTo(clientId: Id, m: Message)
      modifies this`outbox
      ensures outbox == old(outbox) + Unicast(connections, clientId, m)
    {
      if clientId in connections && connections[clientId].open {
        outbox := outbox + [Delivery(clientId, m)];
      }
    }

    /** `broadcast`: one delivery to every open connection except the
        excluded one. */
    method Broadcast(m: Message, exclude: Option<Id>)
      modifies this`outbox
      ensures |old(outbox)| <= |outbox| && outbox[..|old(outbox)|] == old(outbox)
      ensures FanOut(outbox[|old(outbox)|..], Recipients(connections, exclude), m)
    {
      var sent := Deliveries(connections, exclude, m);
      outbox := outbox + sent;
      assert outbox[|old(outbox)|..] == sent;
    }

    /** The heartbeat timer: terminate and forget every connection silent for
        more than the timeout. */
    method Tick(now: Timestamp)
      modifies this`connections
      ensures connections == Survivors(old(connections), now)
    {
      var todo := connections.Keys;
      ghost var start := connections;
      while todo != {}
        invariant todo <= connections.Keys <= start.Keys
        invariant forall id | id in connections :: connections[id] == start[id]
        invariant forall id | id in start && id !in todo ::
          (id in connections <==> now - start[id].lastPing <= HeartbeatTimeout)
        decreases |todo|
      {
        var id :| id in todo;
        if now - connections[id].lastPing > HeartbeatTimeout {
          connections := connections - {id};
        }
        todo := todo - {id};
      }
      assert connections.Keys == Survivors(start, now).Keys;
    }

    /** The tail shared by the CREATE, UPDATE and DELETE branches: broadcast
        the change to the others if there is one, then ACK the sender. */
    method RelayAndAck(clientId: Id, m: Message, relay: Option<Message>, now: Timestamp)
      modifies this`outbox
      ensures |old(outbox)| <= |outbox| && outbox[..|old(outbox)|] == old(outbox)
      ensures RelayThenAck(connections, clientId, m, relay, now, outbox[|old(outbox)|..])
    {
      ghost var start := outbox;
      if relay.Some? {
        Broadcast(relay.value, Some(clientId));
      }
      ghost var relayed := outbox[|start|..];
      SendTo(clientId, AckFor(m, now));
      ghost var ack := Unicast(connections, clientId, AckFor(m, now));
      assert outbox[|start|..] == relayed + ack;
      assert outbox[|start|..][..|outbox[|start|..]| - |ack|] == relayed;
    }

    /** The CREATE and UPDATE branches: upsert under last-write-wins,
        broadcast the stored note with its type kept if it was stored, then
        ACK. */
    method NoteWrite(clientId: Id, m: Message, now: Timestamp)
      requires Valid() && IsNoteWrite(m.body)
      modifies this`outbox, db
      ensures Valid()
      ensures |old(outbox)| <= |outbox| && outbox[..|old(outbox)|] == old(outbox)
      ensures var u := NoteUpsert(old(db.notes), m.body.note);
        db.notes == u.rows
        && db.tags == old(db.tags) && db.categories == old(db.categories)
        && db.noteTags == old(db.noteTags) && db.noteCategories == old(db.noteCategories)
        && RelayThenAck(connections, clientId, m,
                        if u.stored.Some? then Some(Message(now, Some(clientId), WithNote(m.body, u.stored.value)))
                        else None,
                        now, outbox[|old(outbox)|..])
    {
      var updated := db.UpsertNote(m.body.note);
      RelayAndAck(clientId, m, if updated.Some? then Some(Message(now, Some(clientId), WithNote(m.body, updated.value))) else None, now);
    }

    /** The DELETE branch: delete the note and its links, broadcast the
        deletion if there was a note, then ACK. */
    method NoteDelete(clientId: Id, m: Message, now: Timestamp)
      requires Valid() && m.body.Delete?
      modifies this`outbox, db
      ensures Valid()
      ensures |old(outbox)| <= |outbox| && outbox[..|old(outbox)|] == old(outbox)
      ensures var id := m.body.noteId;
        db.notes == old(db.notes) - {id}
        && db.noteTags == LinksWithoutNote(old(db.noteTags), id)
        && db.noteCategories == LinksWithoutNote(old(db.noteCategories), id)
        && db.tags == old(db.tags) && db.categories == old(db.categories)
        && RelayThenAck(connections, clientId, m,
                        if id in old(db.notes) then Some(Message(now, Some(clientId), Delete(id))) else None,
                        now, outbox[|old(outbox)|..])
    {
      var id := m.body.noteId;
      var deleted := db.DeleteNote(id);
      RelayAndAck(clientId, m, if deleted then Some(Message(now, Some(clientId), Delete(id))) else None, now);
    }

    /** The `message` handler. `raw` is the outcome of `JSON.parse`: `None`
        for a frame that does not parse, which is dropped without a reply and
        without refreshing `lastPing`. */
    method HandleMessage(clientId: Id, raw: Option<Message>, now: Timestamp)
      requires Valid()
      modifies this, db
      ensures Valid()
      ensures raw.None? ==>
        connections == old(connections) && outbox == old(outbox) && db.Tables() == old(db.Tables())
      ensures raw.Some? ==> connections == Touch(old(connections), clientId, now)
      ensures |old(outbox)| <= |outbox| && outbox[..|old(outbox)|] == old(outbox)
      ensures raw.Some? && raw.value.body.Init? ==>
        db.Tables() == old(db.Tables())
        && InitReply(connections, clientId, now, db.notes, outbox[|old(outbox)|..])
      ensures raw.Some? && IsNoteWrite(raw.value.body) ==>
        var u := NoteUpsert(old(db.notes), raw.value.body.note);
        db.notes == u.rows
        && db.tags == old(db.tags) && db.categories == old(db.categories)
        && db.noteTags == old(db.noteTags) && db.noteCategories == old(db.noteCategories)
        && RelayThenAck(connections, clientId, raw.value,
                        if u.stored.Some? then Some(Message(now, Some(clientId), WithNote(raw.value.body, u.stored.value)))
                        else None,
                        now, outbox[|old(outbox)|..])
      ensures raw.Some? && raw.value.body.Delete? ==>
        var id := raw.value.body.noteId;
        db.notes == old(db.notes) - {id}
        && db.noteTags == LinksWithoutNote(old(db.noteTags), id)
        && db.noteCategories == LinksWithoutNote(old(db.noteCategories), id)
        && db.tags == old(db.tags) && db.categories == old(db.categories)
        && RelayThenAck(connections, clientId, raw.value,
                        if id in old(db.notes) then Some(Message(now, Some(clientId), Delete(id))) else None,
                        now, outbox[|old(outbox)|..])
      ensures raw.Some? && raw.value.body.Ping? ==>
        db.Tables() == old(db.Tables())
        && outbox[|old(outbox)|..] == Unicast(connections, clientId, Message(now, None, Pong))
      ensures raw.Some? && !(raw.value.body.Init? || IsNoteWrite(raw.value.body) || raw.value.body.Delete?
                             || raw.value.body.Ping?) ==>
        db.Tables() == old(db.Tables()) && outbox == old(outbox)
    {
      if raw.None? {
        return;
      }
      var m := raw.value;
      if clientId in connections {
        connections := connections[clientId := connections[clientId].(lastPing := now)];
      }
      ghost var start := outbox;
      match m.body
      case Init =>
        var notes := db.GetAllNotes();
        SendTo(clientId, Message(now, Some(clientId), InitResponse(notes)));
        assert outbox[|start|..] == Unicast(connections, clientId, Message(now, Some(clientId), InitResponse(notes)));
      case Create(_) =>
        NoteWrite(clientId, m, now);
      case Update(_) =>
        NoteWrite(clientId, m, now);
      case Delete(id) =>
        NoteDelete(clientId, m, now);
      case Ping =>
        SendTo(clientId, Message(now, None, Pong));
        assert outbox[|start|..] == Unicast(connections, clientId, Message(now, None, Pong));
      case _ =>
    }
  }
}
