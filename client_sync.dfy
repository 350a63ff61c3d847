/** The client side of the sync protocol: the inbound dispatcher that turns a
    server message into store callbacks, and the connection agent with its
    reconnect and heartbeat logic. Socket events and timer expiries are
    method calls; frames written to the socket and `onConnectionChange`
    notifications are recorded in sequences. */
module ClientSync {
  import opened Util
  import opened Protocol

  /** One invocation of a `SyncEvents` callback with its arguments. */
  datatype Callback =
    | OnNotesInit(notes: seq<Note>)
    | OnNoteUpdate(note: Note)
    | OnNoteCreate(note: Note)
    | OnNoteDelete(noteId: Id)
    | OnTagCreate(tag: Tag)
    | OnTagUpdate(tag: Tag)
    | OnTagDelete(tagId: Id)
    | OnCategoryCreate(category: Category)
    | OnCategoryUpdate(category: Category)
    | OnCategoryDelete(categoryId: Id)
    | OnRelationAdd(relationName: RelationName, noteId: Id, targetId: Id)
    | OnRelationRemove(relationName: RelationName, noteId: Id, targetId: Id)

  /** The message types whose echo of the client's own writes is ignored. */
  predicate Filtered(b: Body) {
    b.Update? || b.Create? || b.Delete? || b.TagCreate? || b.TagUpdate? || b.TagDelete?
    || b.CategoryCreate? || b.CategoryUpdate? || b.CategoryDelete? || b.RelationAdd? || b.RelationRemove?
  }

  /** The message types with a data callback; PONG, ACK and the rest have
      none. */
  predicate HasHandler(b: Body) {
    Filtered(b) || b.InitResponse? || b.InitResponseNorm?
  }

  /** The single callback a filtered message triggers when it is not the
      client's own. */
  function Single(b: Body): (c: Callback)
    requires Filtered(b)
  {
    match b
    case Update(n) => OnNoteUpdate(n)
    case Create(n) => OnNoteCreate(n)
    case Delete(id) => OnNoteDelete(id)
    case TagCreate(t) => OnTagCreate(t)
    case TagUpdate(t) => OnTagUpdate(t)
    case TagDelete(id) => OnTagDelete(id)
    case CategoryCreate(c) => OnCategoryCreate(c)
    case CategoryUpdate(c) => OnCategoryUpdate(c)
    case CategoryDelete(id) => OnCategoryDelete(id)
    case RelationAdd(r, n, t) => OnRelationAdd(r, n, t)
    case RelationRemove(r, n, t) => OnRelationRemove(r, n, t)
  }

  /** The normalized initial payload, expanded in the order the handler walks
      it: notes, then tags, categories, note-tag and note-category pairs. */
  function Expand(p: NormalizedPayload): (r: seq<Callback>)
    ensures |r| == 1 + |p.tags| + |p.categories| + |p.noteTags| + |p.noteCategories|
    ensures r[0] == OnNotesInit(p.notes)
    ensures forall i | 0 <= i < |p.tags| :: r[1 + i] == OnTagCreate(p.tags[i])
    ensures forall i | 0 <= i < |p.categories| :: r[1 + |p.tags| + i] == OnCategoryCreate(p.categories[i])
    ensures forall i | 0 <= i < |p.noteTags| ::
      r[1 + |p.tags| + |p.categories| + i] == OnRelationAdd(NoteTags, p.noteTags[i].noteId, p.noteTags[i].targetId)
    ensures forall i | 0 <= i < |p.noteCategories| ::
      r[1 + |p.tags| + |p.categories| + |p.noteTags| + i]
        == OnRelationAdd(NoteCategories, p.noteCategories[i].noteId, p.noteCategories[i].targetId)
  {
    [OnNotesInit(p.notes)]
    + seq(|p.tags|, i requires 0 <= i < |p.tags| => OnTagCreate(p.tags[i]))
    + seq(|p.categories|, i requires 0 <= i < |p.categories| => OnCategoryCreate(p.categories[i]))
    + seq(|p.noteTags|, i requires 0 <= i < |p.noteTags| =>
          OnRelationAdd(NoteTags, p.noteTags[i].noteId, p.noteTags[i].targetId))
    + seq(|p.noteCategories|, i requires 0 <= i < |p.noteCategories| =>
          OnRelationAdd(NoteCategories, p.noteCategories[i].noteId, p.noteCategories[i].targetId))
  }

  /** `handleMessage`: the callbacks one inbound frame triggers. `raw` is
      `None` when the frame is not JSON. The own-id test is `!==` against the
      client's id, so a message without `clientId` always passes. */
  function Callbacks(ownId: Id, raw: Option<Message>): (r: seq<Callback>)
    ensures raw.None? ==> r == []
    ensures raw.Some? && Filtered(raw.value.body) ==>
      r == if raw.value.clientId == Some(ownId) then [] else [Single(raw.value.body)]
    ensures raw.Some? && raw.value.body.InitResponse? ==> r == [OnNotesInit(raw.value.body.notes)]
    ensures raw.Some? && raw.value.body.InitResponseNorm? ==> r == Expand(raw.value.body.payload)
    ensures raw.Some? && !HasHandler(raw.value.body) ==> r == []
  {
    if raw.None? then []
    else
      var m := raw.value;
      match m.body
      case InitResponse(notes) => [OnNotesInit(notes)]
      case InitResponseNorm(p) => Expand(p)
      case Pong => []
      case Ack(_) => []
      case Init => []
      case Ping => []
      case Unrecognised(_) => []
      case _ => if m.clientId != Some(ownId) then [Single(m.body)] else []
  }

  /** An echo of the client's own write triggers nothing. */
  lemma OwnEchoSuppressed(ownId: Id, m: Message)
    requires Filtered(m.body) && m.clientId == Some(ownId)
    ensures Callbacks(ownId, Some(m)) == []
  {
  }

  /** Anybody else's write triggers exactly one callback, and it carries the
      message's payload. */
  lemma OthersTriggerOne(ownId: Id, m: Message)
    requires Filtered(m.body) && m.clientId != Some(ownId)
    ensures |Callbacks(ownId, Some(m))| == 1
    ensures m.body.Update? ==> Callbacks(ownId, Some(m))[0] == OnNoteUpdate(m.body.note)
    ensures m.body.Delete? ==> Callbacks(ownId, Some(m))[0] == OnNoteDelete(m.body.noteId)
    ensures m.body.RelationAdd? ==>
      Callbacks(ownId, Some(m))[0] == OnRelationAdd(m.body.relationName, m.body.noteId, m.body.targetId)
  {
  }

  /** The normalized payload is expanded even when it carries the client's
      own id. */
  lemma NormIgnoresOwnId(ownId: Id, p: NormalizedPayload, ts: Timestamp)
    ensures Callbacks(ownId, Some(Message(ts, Some(ownId), InitResponseNorm(p)))) == Expand(p)
    ensures |Callbacks(ownId, Some(Message(ts, Some(ownId), InitResponseNorm(p))))| >= 1
  {
  }

  datatype Status = Connecting | Connected | Disconnected | Error

  /** `WebSocket.readyState` */
  datatype ReadyState = WsConnecting | WsOpen | WsClosing | WsClosed

  datatype Options = Options(serverUrl: string, token: string, reconnectInterval: nat,
                             heartbeatInterval: nat, maxReconnectAttempts: nat)

  const DefaultOptions := Options("ws://localhost:4000/v1/sync", "", 3000, 25000, 10)

  /** The close code of a deliberate close (`disconnect`). */
  const NormalClosure: int := 1000

  /** The decision `onclose` takes: a reconnect is scheduled, and the
      counter bumped, only for an abnormal close below the attempt limit. */
  function CloseStep(attempts: nat, code: int, max: nat): (s: (nat, bool))
    ensures s.1 <==> code != NormalClosure && attempts < max
    ensures s.0 == if s.1 then attempts + 1 else attempts
  {
    if code != NormalClosure && attempts < max then (attempts + 1, true) else (attempts, false)
  }

  /** Reconnects scheduled by a run of closes with no successful open in
      between. */
  function ReconnectsScheduled(attempts: nat, codes: seq<int>, max: nat): nat
    decreases |codes|
  {
    if codes == [] then 0
    else
      var s := CloseStep(attempts, codes[0], max);
      (if s.1 then 1 else 0) + ReconnectsScheduled(s.0, codes[1..], max)
  }

  /** However often the connection drops, at most `max - attempts` reconnects
      are scheduled before an open resets the counter. */
  lemma {:induction false} ReconnectsBounded(attempts: nat, codes: seq<int>, max: nat)
    requires attempts <= max
    ensures ReconnectsScheduled(attempts, codes, max) <= max - attempts
    decreases |codes|
  {
    if codes != [] {
      ReconnectsBounded(CloseStep(attempts, codes[0], max).0, codes[1..], max);
    }
  }

  /** A run of abnormal closes schedules exactly `max - attempts` reconnects
      once it is long enough: the limit is reached, not undershot. */
  lemma {:induction false} AbnormalClosesReachLimit(attempts: nat, codes: seq<int>, max: nat)
    requires attempts <= max && |codes| >= max - attempts
    requires forall i | 0 <= i < |codes| :: codes[i] != NormalClosure
    ensures ReconnectsScheduled(attempts, codes, max) == max - attempts
    decreases |codes|
  {
    if codes != [] {
      AbnormalClosesReachLimit(CloseStep(attempts, codes[0], max).0, codes[1..], max);
    }
  }

  /** Closes with the normal code never schedule anything. */
  lemma {:induction false} NormalClosesNeverReconnect(attempts: nat, codes: seq<int>, max: nat)
    requires forall i | 0 <= i < |codes| :: codes[i] == NormalClosure
    ensures ReconnectsScheduled(attempts, codes, max) == 0
    decreases |codes|
  {
    if codes != [] {
      NormalClosesNeverReconnect(attempts, codes[1..], max);
    }
  }

  /** The URL `connect` opens: the token, when configured, as a query
      parameter. */
  function ConnectUrl(o: Options): (u: string)
    ensures o.token == "" ==> u == o.serverUrl
    ensures o.token != "" ==> u == o.serverUrl + "?token=" + o.token
  {
    if Truthy(o.token) then o.serverUrl + "?token=" + o.token else o.serverUrl
  }

  /** The hook's state: status, the current socket (`wsRef`), the attempt
      counter, the reconnect timers still pending (by the handle `setTimeout`
      returned), the handle `reconnectTimeoutRef` holds, the handle the next
      `setTimeout` returns, whether the heartbeat interval runs, what has
      been written to sockets, the notifications sent to
      `onConnectionChange`, the URLs sockets were opened on, and the data
      callbacks fired. */
  class SyncAgent {
    const clientId: Id
    const opts: Options
    var status: Status
    var socket: Option<ReadyState>
    var attempts: nat
    var timers: set<nat>
    var latestTimer: Option<nat>
    var nextTimer: nat
    var heartbeatRunning: bool
    var sent: seq<Message>
    var statusChanges: seq<Status>
    var urls: seq<string>
    var fired: seq<Callback>

    ghost predicate Valid()
      reads this
    {
      attempts <= opts.maxReconnectAttempts
    }

    constructor (id: Id, o: Options)
      ensures Valid() && clientId == id && opts == o
      ensures status == Disconnected && socket == None && attempts == 0
      ensures timers == {} && latestTimer == None && nextTimer == 0 && !heartbeatRunning
      ensures sent == [] && statusChanges == [] && urls == [] && fired == []
    {
      clientId, opts := id, o;
      status, socket, attempts := Disconnected, None, 0;
      timers, latestTimer, nextTimer, heartbeatRunning := {}, None, 0, false;
      sent, statusChanges, urls, fired := [], [], [], [];
    }

    /** `send`: stamp the message with the time and this client's id, and
        write it only if the socket is OPEN. */
    method Send(b: Body, now: Timestamp)
      modifies this`sent
      ensures sent == old(sent) + (if socket == Some(WsOpen) then [Message(now, Some(clientId), b)] else [])
    {
      if socket == Some(WsOpen) {
        sent := sent + [Message(now, Some(clientId), b)];
      }
    }

    method SendUpdate(n: Note, now: Timestamp)
      modifies this`sent
      ensures sent == old(sent) + (if socket == Some(WsOpen) then [Message(now, Some(clientId), Update(n))] else [])
    {
      Send(Update(n), now);
    }

    method SendCreate(n: Note, now: Timestamp)
      modifies this`sent
      ensures sent == old(sent) + (if socket == Some(WsOpen) then [Message(now, Some(clientId), Create(n))] else [])
    {
      Send(Create(n), now);
    }

    method SendDelete(noteId: Id, now: Timestamp)
      modifies this`sent
      ensures sent == old(sent) + (if socket == Some(WsOpen) then [Message(now, Some(clientId), Delete(noteId))] else [])
    {
      Send(Delete(noteId), now);
    }

    /** `ws.onmessage` */
    method OnMessage(raw: Option<Message>)
      modifies this`fired
      ensures fired == old(fired) + Callbacks(clientId, raw)
    {
      fired := fired + Callbacks(clientId, raw);
    }

    /** `connect`: nothing while a socket is OPEN or CONNECTING; otherwise
        the status becomes `connecting` and a new socket is opened.
        `constructionFails` stands for `new WebSocket(url)` throwing (a
        malformed URL): the catch block announces `error`, and `wsRef` keeps
        the socket it had. */
    method Connect(constructionFails: bool)
      modifies this
      ensures Valid() <==> old(Valid())
      ensures old(socket) == Some(WsOpen) || old(socket) == Some(WsConnecting) ==>
        status == old(status) && socket == old(socket) && statusChanges == old(statusChanges)
        && urls == old(urls)
      ensures !(old(socket) == Some(WsOpen) || old(socket) == Some(WsConnecting)) && !constructionFails ==>
        status == Connecting && socket == Some(WsConnecting)
        && statusChanges == old(statusChanges) + [Connecting] && urls == old(urls) + [ConnectUrl(opts)]
      ensures !(old(socket) == Some(WsOpen) || old(socket) == Some(WsConnecting)) && constructionFails ==>
        status == Error && socket == old(socket)
        && statusChanges == old(statusChanges) + [Connecting, Error] && urls == old(urls)
      ensures attempts == old(attempts)
      ensures timers == old(timers) && latestTimer == old(latestTimer) && nextTimer == old(nextTimer)
      ensures heartbeatRunning == old(heartbeatRunning) && sent == old(sent) && fired == old(fired)
    {
      if socket == Some(WsOpen) || socket == Some(WsConnecting) {
        return;
      }
      status := Connecting;
      statusChanges := statusChanges + [Connecting];
      if constructionFails {
        status := Error;
        statusChanges := statusChanges + [Error];
        return;
      }
      urls := urls + [ConnectUrl(opts)];
      socket := Some(WsConnecting);
    }

    /** `ws.onopen`: connected, counter reset, INIT sent, heartbeat started. */
    method OnOpen(now: Timestamp)
      requires socket == Some(WsConnecting)
      modifies this
      ensures Valid()
      ensures status == Connected && socket == Some(WsOpen) && attempts == 0 && heartbeatRunning
      ensures statusChanges == old(statusChanges) + [Connected]
      ensures sent == old(sent) + [Message(now, Some(clientId), Init)]
      ensures timers == old(timers) && latestTimer == old(latestTimer) && nextTimer == old(nextTimer)
      ensures urls == old(urls) && fired == old(fired)
    {
      socket := Some(WsOpen);
      status := Connected;
      statusChanges := statusChanges + [Connected];
      attempts := 0;
      Send(Init, now);
      heartbeatRunning := true;
    }

    /** `ws.onclose`: disconnected, heartbeat stopped, and one reconnect
        scheduled for an abnormal close below the attempt limit. The handler
        is attached to every socket and never touches `wsRef`: `current`
        says whether the closing socket is still the one `wsRef` holds, so
        that its ready state becomes CLOSED; a socket already replaced (by
        `disconnect` and a new `connect`, say) leaves the current one as
        it is, while the status, heartbeat and reconnect steps run all the
        same. An abnormal close below the limit starts one more timer and
        overwrites `reconnectTimeoutRef` with its handle; a timer already
        pending is not cleared and stays live. */
    method OnClose(code: int, current: bool)
      requires Valid()
      modifies this
      ensures Valid()
      ensures status == Disconnected && !heartbeatRunning
      ensures statusChanges == old(statusChanges) + [Disconnected]
      ensures socket == if current && old(socket).Some? then Some(WsClosed) else old(socket)
      ensures attempts == CloseStep(old(attempts), code, opts.maxReconnectAttempts).0
      ensures CloseStep(old(attempts), code, opts.maxReconnectAttempts).1 ==>
        timers == old(timers) + {old(nextTimer)} && latestTimer == Some(old(nextTimer))
        && nextTimer == old(nextTimer) + 1
      ensures !CloseStep(old(attempts), code, opts.maxReconnectAttempts).1 ==>
        timers == old(timers) && latestTimer == old(latestTimer) && nextTimer == old(nextTimer)
      ensures sent == old(sent) && urls == old(urls) && fired == old(fired)
    {
      if current && socket.Some? {
        socket := Some(WsClosed);
      }
      status := Disconnected;
      statusChanges := statusChanges + [Disconnected];
      heartbeatRunning := false;
      if code != NormalClosure && attempts < opts.maxReconnectAttempts {
        attempts := attempts + 1;
        timers := timers + {nextTimer};
        latestTimer := Some(nextTimer);
        nextTimer := nextTimer + 1;
      }
    }

    /** The pending reconnect timer `h` expires after `reconnectInterval` and
        calls `connect`. `reconnectTimeoutRef` keeps its handle, so a later
        `clearTimeout` of it does nothing. */
    method ReconnectTimerFires(h: nat, constructionFails: bool)
      requires h in timers
      modifies this
      ensures Valid() <==> old(Valid())
      ensures timers == old(timers) - {h} && latestTimer == old(latestTimer) && nextTimer == old(nextTimer)
      ensures old(socket) == Some(WsOpen) || old(socket) == Some(WsConnecting) ==>
        status == old(status) && socket == old(socket) && statusChanges == old(statusChanges)
        && urls == old(urls)
      ensures !(old(socket) == Some(WsOpen) || old(socket) == Some(WsConnecting)) && !constructionFails ==>
        status == Connecting && socket == Some(WsConnecting)
        && statusChanges == old(statusChanges) + [Connecting] && urls == old(urls) + [ConnectUrl(opts)]
      ensures !(old(socket) == Some(WsOpen) || old(socket) == Some(WsConnecting)) && constructionFails ==>
        status == Error && socket == old(socket)
        && statusChanges == old(statusChanges) + [Connecting, Error] && urls == old(urls)
      ensures attempts == old(attempts)
      ensures heartbeatRunning == old(heartbeatRunning) && sent == old(sent) && fired == old(fired)
    {
      timers := timers - {h};
      Connect(constructionFails);
    }

    /** `ws.onerror` */
    method OnError()
      modifies this`status, this`statusChanges
      ensures status == Error && statusChanges == old(statusChanges) + [Error]
    {
      status := Error;
      statusChanges := statusChanges + [Error];
    }

    /** The heartbeat interval fires: a PING through `send`. */
    method HeartbeatTick(now: Timestamp)
      requires heartbeatRunning
      modifies this`sent
      ensures sent == old(sent) + (if socket == Some(WsOpen) then [Message(now, Some(clientId), Ping)] else [])
    {
      Send(Ping, now);
    }

    /** `disconnect`: cancel the timer whose handle `reconnectTimeoutRef`
        holds (only that one: an earlier timer still pending stays live),
        stop the heartbeat, close the socket with the normal code and forget
        it. The status is set without notifying `onConnectionChange`. */
    method Disconnect()
      modifies this
      ensures Valid() <==> old(Valid())
      ensures timers == (if old(latestTimer).Some? then old(timers) - {old(latestTimer).value} else old(timers))
      ensures latestTimer == old(latestTimer) && nextTimer == old(nextTimer)
      ensures !heartbeatRunning && socket == None && status == Disconnected
      ensures statusChanges == old(statusChanges) && attempts == old(attempts)
      ensures sent == old(sent) && urls == old(urls) && fired == old(fired)
    {
      if latestTimer.Some? {
        timers := timers - {latestTimer.value};
      }
      heartbeatRunning := false;
      if socket.Some? {
        socket := None;
      }
      status := Disconnected;
    }
  }

  /** A mount, unmount and remount (as React StrictMode runs effects): the
      first socket, closed while still CONNECTING, reports the abnormal code
      1006 after the second one has taken its place. The late close announces
      `disconnected` and may schedule a reconnect, but the second socket stays
      CONNECTING, so the timer meets the guard of `connect` and opens nothing,
      and the second socket then opens. */
  method StrictModeRemount(id: Id, o: Options, now: Timestamp) returns (a: SyncAgent)
    ensures a.status == Connected && a.socket == Some(WsOpen) && a.attempts == 0
    ensures a.timers == {}
    ensures a.urls == [ConnectUrl(o), ConnectUrl(o)]
    ensures a.statusChanges == [Connecting, Connecting, Disconnected, Connected]
    ensures a.sent == [Message(now, Some(id), Init)]
  {
    a := new SyncAgent(id, o);
    a.Connect(false);
    a.Disconnect();
    a.Connect(false);
    a.OnClose(1006, false);
    if 0 in a.timers {
      a.ReconnectTimerFires(0, false);
    }
    a.OnOpen(now);
  }

  /** The same remount, but the second socket also closes abnormally before
      the first timer fires. Its timer takes `reconnectTimeoutRef`, so the
      unmount cancels that one only; the first timer outlives the unmount and
      opens a third socket on the URL though the hook was torn down. */
  method TimerOutlivesUnmount(id: Id, o: Options) returns (a: SyncAgent)
    requires o.maxReconnectAttempts >= 2
    ensures a.timers == {} && a.attempts == 2 && !a.heartbeatRunning
    ensures a.status == Connecting && a.socket == Some(WsConnecting)
    ensures a.urls == [ConnectUrl(o), ConnectUrl(o), ConnectUrl(o)]
    ensures a.statusChanges == [Connecting, Connecting, Disconnected, Disconnected, Connecting]
  {
    a := new SyncAgent(id, o);
    a.Connect(false);
    a.Disconnect();
    a.Connect(false);
    a.OnClose(1006, false);
    a.OnClose(1006, true);
    a.Disconnect();
    assert a.timers == {0} && a.socket == None;
    a.ReconnectTimerFires(0, false);
  }
}
