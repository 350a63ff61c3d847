# NoteGPT note synchronisation, modelled in Dafny

NoteGPT is a note-taking application. Notes, tags and categories live in a
SQLite store on the server and in an IndexedDB store in the browser, and the
two are kept in step over a WebSocket sync protocol. An AI assistant streams
generated text to the editor over server-sent events. This project models
the parts that decide what data looks like after each operation:

- **Server store** (`ServerDatabase`, class `Database`). Last-writer-wins
  upserts of notes, tags and categories. Deletes that report whether a row
  existed and cascade to the relation tables. Idempotent link and unlink,
  where a new link naming a missing row fails on the foreign key.
  The newest-first reads, the bulk merge `syncNotes` and the normalized
  payload.
- **Server sync route** (`SyncRoute`, class `SyncServer`). The token check
  and registration of sockets, the message dispatcher (INIT, CREATE and
  UPDATE, DELETE, PING, and the no-op default), broadcast to every other
  open connection, unicast ACK and PONG, close and error removal, and the
  heartbeat sweep. Socket sends are appended to an outbox of (recipient,
  message) pairs.
- **Client sync agent** (`ClientSync`). The inbound dispatcher, which
  ignores echoes of the client's own writes and expands the normalized
  initial payload; outbound stamping; and the connect / open / close /
  disconnect state machine with its bounded reconnects (class `SyncAgent`).
- **Client state.** The zustand store of ids, maps and per-note relation
  lists, writing through to the DAO (`NotesStore`, class `Store`). The
  IndexedDB DAO with its cascading deletes and pair-keyed relation stores
  (`LocalDb`, class `NoteDb`). The `replaceRange` splice (`UseNotes`).
- **Utilities.**
  - The input segmenter (`Segmenter`).
  - The fixed-window rate limiter (`RateLimit`, class `RateLimiter`).
  - The `\n\n` server-sent-event framing shared by both stream readers
    (`Sse`), the client stream hook (`AIStream`, class `Stream`) and the
    upstream completion client (`OpenAI`).
  - The toast queue (`Toast`), the audit log (`Audit`), and the p95
    performance gate with its nearest-rank percentile (`PerfBaseline`).
- **Shared vocabulary.** `Protocol` holds the entities and the message
  union. `Util` holds options, and the JavaScript string operations the
  code relies on (`\s`, `trim`, `substring`, `slice`, `includes`, decimal
  rendering, `map(...).filter(Boolean)`).

Timestamps are integers (milliseconds); the code compares `Date` values
built from ISO strings, which order the same way for valid dates. Clocks,
random ids, `JSON.parse` and socket readiness are parameters of the methods
that use them.

Where the code and the design documents disagree, the model follows the
code:

- **Equal timestamps.** The server's last-writer-wins test at
  `server/src/services/database.ts:153` rejects only a strictly older
  write. A write with an equal timestamp therefore overwrites the stored
  row (`EqualStampOverwrites`), and two such writes end in the order they
  were applied (`TieIsOrderDependent`).
- **Foreign keys.** The code never sets `PRAGMA foreign_keys` itself, but
  better-sqlite3 enables foreign-key enforcement on every connection. The
  `ON DELETE CASCADE` of the relation tables is therefore modelled as a
  postcondition of each delete, every relation row names existing rows
  (`Database.Valid`), and `INSERT OR IGNORE` of a new pair naming a missing
  note, tag or category throws rather than being ignored.
- **`error` frames.** The client stream treats an `error` field whose text
  contains `JSON` as a parse error and swallows it (`JsonErrorIsSwallowed`).
- **Missing threshold.** A baseline file without `p95_threshold_ms` never
  reports a regression, because `p95 > undefined` is false
  (`MissingFieldPasses`).
- **Disconnect notifies nobody.** `disconnect` sets the status without
  calling `onConnectionChange`, and the model keeps that.

## Model

| member | source | states |
|---|---|---|
| ServerDatabase.StoredTitle | server/src/services/database.ts:162-168 | a falsy title is stored as null and a non-empty title as given; this is the title `NoteUpsert` stores and `LwwNewerWins` shows the winner keeping |
| ServerDatabase.NoteUpsert | server/src/services/database.ts:145-172 | a new id is inserted with version 1 and returned; a strictly older write is refused (null) and the table is unchanged; an equal or newer write replaces title, content and `updatedAt`, keeps `createdAt`, bumps the version by one and returns the stored note |
| ServerDatabase.TagUpsert | server/src/services/database.ts:237-260 | the same last-writer-wins rule for a tag's name: insert with version 1, refuse strictly older, otherwise overwrite name and `updatedAt` keeping `createdAt` and bumping the version |
| ServerDatabase.NoteUpsertPreservesValid | server/src/services/database.ts:145-172 | an upsert keeps every row under its own id with version at least 1, adds exactly the note's id and leaves every other row unchanged |
| ServerDatabase.TagUpsertPreservesValid | server/src/services/database.ts:291-314 | the same for tags and categories |
| ServerDatabase.LwwConverges | server/src/services/database.ts:151-162 | two writes of the same note with different timestamps leave the same visible row (title, content, `updatedAt`) whichever order they arrive in |
| ServerDatabase.LwwNewerWins | server/src/services/database.ts:151-162 | when the stored row is no newer than either write, the row left in both orders is the newer write's title, content and `updatedAt` |
| ServerDatabase.StaleWritesIgnored | server/src/services/database.ts:151-155 | two writes both older than the stored row leave the table exactly as it was, in either order |
| ServerDatabase.EqualStampOverwrites | server/src/services/database.ts:153-162 | a write whose timestamp equals the stored one is accepted, stores its content and bumps the version |
| ServerDatabase.TieIsOrderDependent | server/src/services/database.ts:153 | two writes with the same timestamp applied in the two orders leave different contents |
| ServerDatabase.ReplayIsVisiblyIdempotent | server/src/services/database.ts:151-162 | applying the same note twice leaves the same visible row as applying it once |
| ServerDatabase.UpsertAllKeys | server/src/services/database.ts:190-201 | after the bulk merge the stored ids are exactly the server's ids plus the client notes' ids, and the table stays well formed |
| ServerDatabase.InsertNewestPerm | server/src/services/database.ts:117-125 | placing a row in the newest-first list adds exactly that row |
| ServerDatabase.InsertNewestSorted | server/src/services/database.ts:117-125 | placing a row keeps the list ordered by `updatedAt` descending |
| ServerDatabase.NewestFirst | server/src/services/database.ts:117-125 | the rows of a table, each exactly once, ordered by `updatedAt` descending |
| ServerDatabase.Database.constructor | server/src/services/database.ts:44-98 | all five tables start empty |
| ServerDatabase.Database.GetNoteById | server/src/services/database.ts:130-138 | the stored note when the id is present, undefined otherwise |
| ServerDatabase.Database.GetTagById | server/src/services/database.ts:227-235 | the stored tag when the id is present, undefined otherwise |
| ServerDatabase.Database.GetCategoryById | server/src/services/database.ts:281-289 | the stored category when the id is present, undefined otherwise |
| ServerDatabase.Database.UpsertNote | server/src/services/database.ts:145-172 | the notes table becomes `NoteUpsert` of the old one and the call returns its result; the other four tables are unchanged |
| ServerDatabase.Database.UpsertTag | server/src/services/database.ts:237-260 | the tags table becomes `TagUpsert` of the old one; nothing else changes |
| ServerDatabase.Database.UpsertCategory | server/src/services/database.ts:291-314 | the categories table becomes `TagUpsert` of the old one; nothing else changes |
| ServerDatabase.Database.DeleteNote | server/src/services/database.ts:178-183 | true iff the note existed; afterwards it is gone and every note-tag and note-category pair naming it is removed; tags and categories are unchanged |
| ServerDatabase.Database.DeleteTag | server/src/services/database.ts:262-267 | true iff the tag existed; afterwards it is gone with every note-tag pair naming it; notes, categories and note-category pairs are unchanged |
| ServerDatabase.Database.DeleteCategory | server/src/services/database.ts:316-321 | true iff the category existed; afterwards it is gone with every note-category pair naming it; nothing else changes |
| ServerDatabase.Database.LinkNoteTag | server/src/services/database.ts:369-377 | a pair already present is ignored and true returned; a new pair is added and true returned when both the note and the tag exist, and otherwise the foreign key fails and nothing changes; referential integrity is kept |
| ServerDatabase.Database.UnlinkNoteTag | server/src/services/database.ts:379-386 | true iff the pair existed; afterwards it is absent |
| ServerDatabase.Database.LinkNoteCategory | server/src/services/database.ts:388-396 | the same for a category: an existing pair is ignored, a new pair with both ends present is added, and a dangling one fails on the foreign key and changes nothing |
| ServerDatabase.Database.UnlinkNoteCategory | server/src/services/database.ts:398-405 | true iff the pair existed; afterwards it is absent |
| ServerDatabase.Database.GetAllNotes | server/src/services/database.ts:117-125 | every stored note exactly once, newest first |
| ServerDatabase.Database.GetAllTags | server/src/services/database.ts:217-225 | every stored tag exactly once, newest first |
| ServerDatabase.Database.GetAllCategories | server/src/services/database.ts:271-279 | every stored category exactly once, newest first |
| ServerDatabase.Database.SyncNotes | server/src/services/database.ts:190-201 | each client note goes through the last-writer-wins upsert in order; the stored ids become the union of server and client ids; the result is every stored note once, newest first; the other tables are unchanged |
| ServerDatabase.Database.GetNormalizedPayload | server/src/services/database.ts:409-433 | the three tables newest first and both relation tables, each row exactly once |
| ServerDatabase.Database.TagsForNote | server/src/services/database.ts:325-334 | exactly the stored tags paired with the note (an inner join; a pair naming a missing tag would be dropped, and the foreign keys leave none) |
| ServerDatabase.Database.CategoriesForNote | server/src/services/database.ts:336-345 | exactly the stored categories paired with the note |
| ServerDatabase.Database.NotesByTag | server/src/services/database.ts:347-356 | exactly the stored notes paired with the tag |
| ServerDatabase.Database.NotesByCategory | server/src/services/database.ts:358-367 | exactly the stored notes paired with the category |
| Protocol.WithNote | server/src/routes/sync.ts:156-161 | the rebroadcast message keeps the incoming type (CREATE or UPDATE) and carries the stored note |
| Protocol.LinksWithoutNote | server/src/services/database.ts:84-96 | exactly the pairs that do not name the note; every `DeleteNote` of the three stores leaves this as its relation tables |
| Protocol.LinksWithoutTarget | server/src/services/database.ts:84-96 | exactly the pairs that do not name the tag or category; every `DeleteTag` and `DeleteCategory` leaves this as its relation table |
| SyncRoute.Deliveries | server/src/routes/sync.ts:34-41 | one delivery of the message to each open connection except the excluded one, each exactly once |
| SyncRoute.FanOutExcludesSender | server/src/routes/sync.ts:36-38 | a broadcast never reaches the sender, and reaches only registered open connections |
| SyncRoute.FanOutReachesOthersOnce | server/src/routes/sync.ts:36-38 | a broadcast reaches every other open connection exactly once |
| SyncRoute.SweepKeepsExactlyLive | server/src/routes/sync.ts:62-75 | the sweep keeps a connection iff it was heard from at most 60000 ms ago, and keeps it unchanged |
| SyncRoute.SyncServer.constructor | server/src/routes/sync.ts:25 | no connections and nothing sent |
| SyncRoute.SyncServer.ConnectionCount | server/src/routes/sync.ts:56-58 | the number of registered connections |
| SyncRoute.SyncServer.Connect | server/src/routes/sync.ts:100-115 | a configured token that the query token does not match closes the socket with 4001 `Unauthorized` and registers nothing; otherwise the generated id is registered with `lastPing = now` |
| SyncRoute.SyncServer.Disconnect | server/src/routes/sync.ts:217-226 | close or error removes exactly that id |
| SyncRoute.SyncServer.SocketLeftOpen | server/src/routes/sync.ts:34-51 | a registered socket that leaves the OPEN state stays registered, and sends to it are skipped |
| SyncRoute.SyncServer.Shutdown | server/src/routes/sync.ts:78-89 | every connection is dropped |
| SyncRoute.SyncServer.SendTo | server/src/routes/sync.ts:46-51 | one delivery if the recipient is registered and open, nothing otherwise |
| SyncRoute.SyncServer.Broadcast | server/src/routes/sync.ts:34-41 | earlier sends are kept, and the new ones reach each open connection except the excluded one exactly once |
| SyncRoute.SyncServer.Tick | server/src/routes/sync.ts:62-75 | the registry becomes exactly the connections heard from within the timeout |
| SyncRoute.SyncServer.RelayAndAck | server/src/routes/sync.ts:152-196 | the broadcast to the others (when there is one) followed by the ACK carrying the message's timestamp to the sender |
| SyncRoute.SyncServer.NoteWrite | server/src/routes/sync.ts:144-172 | the note goes through the last-writer-wins upsert; if it was stored, the stored note is broadcast with the same type and the sender's id to every other open connection; the sender gets an ACK either way |
| SyncRoute.SyncServer.NoteDelete | server/src/routes/sync.ts:174-198 | the note and its pairs are deleted; the deletion is broadcast only when a note was removed; the sender is always ACKed |
| SyncRoute.SyncServer.HandleMessage | server/src/routes/sync.ts:120-213 | an unparsable frame changes nothing; a parsed one refreshes the sender's `lastPing`; INIT sends one INIT_RESPONSE with every stored note, newest first, to the sender only; CREATE/UPDATE and DELETE as above; PING sends one PONG to the sender; every other type sends nothing and leaves the store unchanged |
| ClientSync.Expand | client/src/hooks/useSync.ts:120-140 | `onNotesInit`, then one `onTagCreate` per tag, one `onCategoryCreate` per category and one `onRelationAdd` per relation row, in order |
| ClientSync.Callbacks | client/src/hooks/useSync.ts:110-233 | an unparsable frame fires nothing; a filtered type fires its one callback unless the message carries the client's own id; INIT_RESPONSE fires `onNotesInit`; INIT_RESPONSE_NORM fires its expansion; PONG, ACK and other types fire nothing |
| ClientSync.OwnEchoSuppressed | client/src/hooks/useSync.ts:141-218 | an echo of the client's own write triggers no callback |
| ClientSync.OthersTriggerOne | client/src/hooks/useSync.ts:141-218 | anyone else's write triggers exactly one callback, carrying the message's data |
| ClientSync.NormIgnoresOwnId | client/src/hooks/useSync.ts:120-140 | the normalized payload is expanded even when it carries the client's own id |
| ClientSync.CloseStep | client/src/hooks/useSync.ts:293-299 | a reconnect is scheduled iff the close code is not 1000 and fewer than the maximum attempts were made, and the counter goes up by one exactly then; `ReconnectsBounded`, `AbnormalClosesReachLimit` and `NormalClosesNeverReconnect` follow it over a run of closes |
| ClientSync.ReconnectsBounded | client/src/hooks/useSync.ts:293-299 | a run of closes with no open in between schedules at most `max - attempts` reconnects |
| ClientSync.AbnormalClosesReachLimit | client/src/hooks/useSync.ts:293-299 | enough abnormal closes schedule exactly `max - attempts` reconnects |
| ClientSync.NormalClosesNeverReconnect | client/src/hooks/useSync.ts:293 | closes with code 1000 never schedule a reconnect |
| ClientSync.ConnectUrl | client/src/hooks/useSync.ts:260-262 | the server URL, with `?token=` and the token appended when a token is configured; `SyncAgent.Connect` and `SyncAgent.ReconnectTimerFires` record every socket opened on it |
| ClientSync.SyncAgent.constructor | client/src/hooks/useSync.ts:57-75 | disconnected, no socket, no attempts, no timers, nothing sent or fired |
| ClientSync.SyncAgent.Send | client/src/hooks/useSync.ts:83-92 | the message is stamped with the time and the client's id, and written only while the socket is OPEN |
| ClientSync.SyncAgent.SendUpdate | client/src/hooks/useSync.ts:95-97 | an UPDATE of the note, sent as `send` does |
| ClientSync.SyncAgent.SendCreate | client/src/hooks/useSync.ts:100-102 | a CREATE of the note, sent as `send` does |
| ClientSync.SyncAgent.SendDelete | client/src/hooks/useSync.ts:105-107 | a DELETE of the id, sent as `send` does |
| ClientSync.SyncAgent.OnMessage | client/src/hooks/useSync.ts:284 | the callbacks of the frame are fired |
| ClientSync.SyncAgent.Connect | client/src/hooks/useSync.ts:254-269 | nothing while the socket is OPEN or CONNECTING; otherwise status `connecting` is announced and a socket is opened on the connect URL; when creating the socket throws, `connecting` then `error` are announced, status is `error`, and the socket, the attempts and the pending timers stay as they were |
| ClientSync.SyncAgent.OnOpen | client/src/hooks/useSync.ts:271-282 | status `connected` is announced, the attempt counter resets to 0, INIT is sent and the heartbeat starts |
| ClientSync.SyncAgent.OnClose | client/src/hooks/useSync.ts:286-300 | status `disconnected` is announced, the heartbeat stops, and the counter follows `CloseStep`, whichever socket closed; when `CloseStep` schedules, one more timer is pending under a new handle, `reconnectTimeoutRef` takes that handle, and the timers already pending stay pending; only a close of the socket `wsRef` still holds makes its state CLOSED, and a replaced socket's close leaves the current one as it is |
| ClientSync.SyncAgent.ReconnectTimerFires | client/src/hooks/useSync.ts:295-298 | the timer that fired is no longer pending, the others and `reconnectTimeoutRef` are untouched, and `connect` runs: nothing is announced or opened while a socket is OPEN or CONNECTING; otherwise `connecting` is announced and one socket is opened on the URL, or, when the socket cannot be created, `connecting` then `error` with no URL opened; the counter, heartbeat, sent messages and callbacks are unchanged |
| ClientSync.StrictModeRemount | client/src/hooks/useSync.ts:327-333 | mount, unmount and remount, then the first socket's late 1006 close: the second socket stays CONNECTING, the timer opens no third socket, no timer is left pending, and it opens with `connected` and one INIT |
| ClientSync.TimerOutlivesUnmount | client/src/hooks/useSync.ts:295-318 | the same remount with the second socket also closing abnormally: the unmount cancels only the second timer, and the first one, still pending, opens a third socket with `connecting` after the hook was torn down |
| ClientSync.SyncAgent.OnError | client/src/hooks/useSync.ts:302-306 | status `error` is announced |
| ClientSync.SyncAgent.HeartbeatTick | client/src/hooks/useSync.ts:240-242 | a PING goes out through `send` |
| ClientSync.SyncAgent.Disconnect | client/src/hooks/useSync.ts:315-325 | only the timer whose handle `reconnectTimeoutRef` holds is cancelled (an earlier timer still pending stays pending), the heartbeat stops, the socket is closed and dropped, and the status is `disconnected` |
| NotesStore.PrependIfAbsent | client/src/stores/notesStore.ts:134-143 | the id is in the result, the result holds exactly the old ids and the id, and a duplicate-free list stays duplicate-free |
| NotesStore.FilterAll | client/src/stores/notesStore.ts:183-186 | the same notes, each list with the id filtered out; `RemoveTagSpec` and `RemoveCategorySpec` show the store stays coherent with it |
| NotesStore.TagsForNote | client/src/stores/notesStore.ts:274-278 | exactly the stored tags whose ids are on the note's list; ids with no stored tag are dropped |
| NotesStore.CategoriesForNote | client/src/stores/notesStore.ts:280-284 | exactly the stored categories whose ids are on the note's list |
| NotesStore.NotesByTag | client/src/stores/notesStore.ts:262-266 | exactly the stored notes whose tag list contains the tag |
| NotesStore.NotesByCategory | client/src/stores/notesStore.ts:268-272 | exactly the stored notes whose category list contains the category |
| NotesStore.PutNoteSpec | client/src/stores/notesStore.ts:130-145 | the note is stored unconditionally (no timestamp comparison); an existing id keeps its place in the list, a new one is prepended; the store stays coherent |
| NotesStore.PutNote | client/src/stores/notesStore.ts:130-145 | the note is stored under its id with no timestamp comparison, its id is listed, and the relation lists are untouched |
| NotesStore.RemoveNoteSpec | client/src/stores/notesStore.ts:147-160 | the id leaves the map, the list and both relation maps; every other entry is unchanged |
| NotesStore.RemoveNote | client/src/stores/notesStore.ts:147-160 | the id leaves the note map, the id list and both relation maps |
| NotesStore.RemoveTagSpec | client/src/stores/notesStore.ts:178-193 | the tag leaves the map and the list and every note's tag list; category lists are unchanged |
| NotesStore.DropTag | client/src/stores/notesStore.ts:178-193 | the tag leaves the map and the list, and no note's list names it any more; the same notes keep lists |
| NotesStore.RemoveCategorySpec | client/src/stores/notesStore.ts:211-226 | the category leaves the map and the list and every note's category list; tag lists are unchanged |
| NotesStore.DropCategory | client/src/stores/notesStore.ts:211-226 | the category leaves the map and the list, and no note's list names it any more |
| NotesStore.PutTagSpec | client/src/stores/notesStore.ts:162-176 | the tag is stored and the store stays coherent |
| NotesStore.PutTag | client/src/stores/notesStore.ts:162-176 | the tag is stored under its id and listed; notes and note-tag lists are untouched |
| NotesStore.PutCategorySpec | client/src/stores/notesStore.ts:195-209 | the category is stored and the store stays coherent |
| NotesStore.PutCategory | client/src/stores/notesStore.ts:195-209 | the category is stored under its id and listed; notes and note-category lists are untouched |
| NotesStore.LinkSpec | client/src/stores/notesStore.ts:228-235 | linking is idempotent, adds the target to that note's list only, and keeps the list duplicate-free |
| NotesStore.LinkIn | client/src/stores/notesStore.ts:228-235 | the target is on the note's list afterwards and every other note's list is unchanged |
| NotesStore.UnlinkSpec | client/src/stores/notesStore.ts:237-243 | unlinking removes only that target from only that note's list |
| NotesStore.UnlinkIn | client/src/stores/notesStore.ts:237-243 | the target is off the note's list afterwards and every other note's list is unchanged |
| NotesStore.RemovedTagNotListed | client/src/stores/notesStore.ts:178-193 | after a tag is removed it is on no note's list |
| NotesStore.Store.constructor | client/src/stores/notesStore.ts:71-79 | an empty store over the database |
| NotesStore.Store.Reload | client/src/stores/notesStore.ts:81-90 | the note map becomes the database's notes and the list indexes it; nothing else changes |
| NotesStore.Store.ReloadTags | client/src/stores/notesStore.ts:92-101 | the tag map becomes the database's tags; nothing else changes |
| NotesStore.Store.ReloadCategories | client/src/stores/notesStore.ts:103-112 | the category map becomes the database's categories; nothing else changes |
| NotesStore.Store.ReloadRelations | client/src/stores/notesStore.ts:114-128 | each listed note gets the ids of the stored tags and categories linked to it in the database |
| NotesStore.Store.TagLists | client/src/stores/notesStore.ts:119-121 | for each listed note, the ids of exactly the stored tags linked to it |
| NotesStore.Store.CategoryLists | client/src/stores/notesStore.ts:119-124 | for each listed note, the ids of exactly the stored categories linked to it |
| NotesStore.Store.Create | client/src/stores/notesStore.ts:130-137 | the note is written to the database and put in the store, and returned; the tag, category and relation stores of the database are unchanged |
| NotesStore.Store.Upsert | client/src/stores/notesStore.ts:139-145 | the note is written to the database and put in the store; the other database stores are unchanged |
| NotesStore.Store.Remove | client/src/stores/notesStore.ts:147-160 | the database deletes the note with its pairs, and the store removes it everywhere; the database's tags and categories are unchanged |
| NotesStore.Store.AddTag | client/src/stores/notesStore.ts:162-168 | the tag is written through and put in the store; the other database stores are unchanged |
| NotesStore.Store.UpsertTag | client/src/stores/notesStore.ts:170-176 | the tag is written through and put in the store; the other database stores are unchanged |
| NotesStore.Store.RemoveTag | client/src/stores/notesStore.ts:178-193 | the database deletes the tag with its pairs; the store drops it from the map, the list and every note's list; the database's notes, categories and note-category pairs are unchanged |
| NotesStore.Store.AddCategory | client/src/stores/notesStore.ts:195-201 | the category is written through and put in the store; the other database stores are unchanged |
| NotesStore.Store.UpsertCategory | client/src/stores/notesStore.ts:203-209 | the category is written through and put in the store; the other database stores are unchanged |
| NotesStore.Store.RemoveCategory | client/src/stores/notesStore.ts:211-226 | the database deletes the category with its pairs; the store drops it everywhere; the database's notes, tags and note-tag pairs are unchanged |
| NotesStore.Store.LinkNoteTag | client/src/stores/notesStore.ts:228-235 | the pair is put in the database and the tag prepended to the note's list if absent; only the database's note-tag pairs change |
| NotesStore.Store.UnlinkNoteTag | client/src/stores/notesStore.ts:237-243 | the pair is deleted from the database and the tag filtered out of the note's list; only the database's note-tag pairs change |
| NotesStore.Store.LinkNoteCategory | client/src/stores/notesStore.ts:245-252 | the pair is put in the database and the category prepended to the note's list if absent; only the database's note-category pairs change |
| NotesStore.Store.UnlinkNoteCategory | client/src/stores/notesStore.ts:254-260 | the pair is deleted and the category filtered out of the note's list; only the database's note-category pairs change |
| NotesStore.TagIdsOf | client/src/stores/notesStore.ts:121-124 | the ids of the given tags, one per tag in the same order, and so exactly those ids |
| NotesStore.Index | client/src/stores/notesStore.ts:83-88 | the list holds the ids in order, and the map holds exactly those ids, each with the item listed under it; used for notes, tags and categories alike |
| NotesStore.KeyedIndex | client/src/stores/notesStore.ts:81-112 | indexing every stored value once gives back the stored table, and the list indexes its keys once each |
| LocalDb.NoteDb.constructor | client/src/lib/db/notes.ts:61-109 | five empty stores |
| LocalDb.NoteDb.GetAllNotes | client/src/lib/db/notes.ts:116-119 | every stored note exactly once |
| LocalDb.NoteDb.GetAllTags | client/src/lib/db/notes.ts:150-153 | every stored tag exactly once |
| LocalDb.NoteDb.GetAllCategories | client/src/lib/db/notes.ts:179-182 | every stored category exactly once |
| LocalDb.NoteDb.GetNote | client/src/lib/db/notes.ts:121-124 | the stored note for the id, or undefined |
| LocalDb.NoteDb.GetTag | client/src/lib/db/notes.ts:155-158 | the stored tag for the id, or undefined |
| LocalDb.NoteDb.GetCategory | client/src/lib/db/notes.ts:184-187 | the stored category for the id, or undefined |
| LocalDb.NoteDb.UpsertNote | client/src/lib/db/notes.ts:126-129 | the note overwrites its id unconditionally, so a later get returns exactly it |
| LocalDb.NoteDb.UpsertTag | client/src/lib/db/notes.ts:160-163 | the tag overwrites its id unconditionally |
| LocalDb.NoteDb.UpsertCategory | client/src/lib/db/notes.ts:189-192 | the category overwrites its id unconditionally |
| LocalDb.NoteDb.DeleteNoteTagRows | client/src/lib/db/notes.ts:138-140 | the given note-tag rows are deleted one at a time |
| LocalDb.NoteDb.DeleteNoteCategoryRows | client/src/lib/db/notes.ts:142-144 | the given note-category rows are deleted one at a time |
| LocalDb.NoteDb.DeleteNote | client/src/lib/db/notes.ts:131-146 | the note and every note-tag and note-category row with its id are removed; tags and categories are untouched |
| LocalDb.NoteDb.DeleteTag | client/src/lib/db/notes.ts:165-175 | the tag and every note-tag row with its id are removed; categories and note-category rows are untouched |
| LocalDb.NoteDb.DeleteCategory | client/src/lib/db/notes.ts:194-204 | the category and every note-category row with its id are removed; nothing else changes |
| LocalDb.NoteDb.LinkNoteTag | client/src/lib/db/notes.ts:252-255 | `put` on the pair key, so linking twice leaves one row |
| LocalDb.NoteDb.UnlinkNoteTag | client/src/lib/db/notes.ts:257-260 | `delete` on the pair key; an absent pair changes nothing |
| LocalDb.NoteDb.LinkNoteCategory | client/src/lib/db/notes.ts:262-265 | `put` on the pair key, so linking twice leaves one row |
| LocalDb.NoteDb.UnlinkNoteCategory | client/src/lib/db/notes.ts:267-270 | `delete` on the pair key; an absent pair changes nothing |
| LocalDb.NoteDb.GetTagsForNote | client/src/lib/db/notes.ts:208-217 | exactly the stored tags linked to the note; rows naming a missing tag are skipped |
| LocalDb.NoteDb.GetCategoriesForNote | client/src/lib/db/notes.ts:219-228 | exactly the stored categories linked to the note; rows naming a missing category are skipped |
| LocalDb.NoteDb.GetNotesByTag | client/src/lib/db/notes.ts:230-239 | exactly the stored notes linked to the tag; rows naming a missing note are skipped |
| LocalDb.NoteDb.GetNotesByCategory | client/src/lib/db/notes.ts:241-250 | exactly the stored notes linked to the category |
| LocalDb.ResolvedTargets | client/src/lib/db/notes.ts:210-216 | looking up the targets of a note's rows yields exactly the linked stored entities, at most one per row |
| LocalDb.ResolvedSources | client/src/lib/db/notes.ts:232-238 | looking up the notes of a target's rows yields exactly the linked stored notes, at most one per row |
| UseNotes.VisibleNotesAreAll | client/src/hooks/useNotes.ts:10 | in a coherent store the hook's list is the stored notes in list order, none dropped |
| UseNotes.VisibleNotes | client/src/hooks/useNotes.ts:10 | no more notes than listed ids, and exactly the stored notes some listed id resolves to |
| UseNotes.SpliceInRange | client/src/hooks/useNotes.ts:21 | for `0 <= start <= end <= length` the new content is the prefix, the replacement and the suffix; its length is `length - (end - start) + |replacement|` |
| UseNotes.Splice | client/src/hooks/useNotes.ts:21 | the replacement occurs whole right after the kept prefix, and the result is no longer than twice the content plus the replacement |
| UseNotes.HelloUniverse | client/src/hooks/useNotes.ts:21 | `'hello world'`, 6, 11, `'universe'` gives `'hello universe'` |
| UseNotes.BackwardsRangeRepeatsSpan | client/src/hooks/useNotes.ts:21 | a backwards range is not reordered: the span between the offsets appears twice |
| UseNotes.SpliceClamps | client/src/hooks/useNotes.ts:21 | offsets outside the content are clamped to it |
| UseNotes.ReplaceRange | client/src/hooks/useNotes.ts:15-31 | an id not in the store fails with "Note not found" and changes nothing; otherwise the note keeps its other fields, gets the spliced content and the new `updatedAt`, is upserted and returned; only the database's notes can change |
| Segmenter.SpanEndSpec | server/src/services/segmenter.ts:3 | every character of a span is of the kind asked for |
| Segmenter.Tokens | server/src/services/segmenter.ts:3 | the split has an odd number of pieces |
| Segmenter.TokensAlternate | server/src/services/segmenter.ts:3 | words (no whitespace) and non-empty whitespace runs alternate, starting and ending with a word |
| Segmenter.TokensJoin | server/src/services/segmenter.ts:3 | joining the tokens gives back the text |
| Segmenter.NoWhitespaceOneToken | server/src/services/segmenter.ts:3 | text without whitespace is a single token |
| Segmenter.SegmentInput | server/src/services/segmenter.ts:1-22 | the loop computes the segments of `segmentInput` |
| Segmenter.ShortInputUnchanged | server/src/services/segmenter.ts:2 | empty input or input no longer than the limit comes back as the only segment |
| Segmenter.PackJoin | server/src/services/segmenter.ts:6-19 | the loop loses and reorders nothing |
| Segmenter.Step | server/src/services/segmenter.ts:6-18 | segments already pushed are never changed; at most one is pushed, exactly when the token does not fit beside the current segment |
| Segmenter.Pack | server/src/services/segmenter.ts:6-19 | no more segments are pushed than there are tokens |
| Segmenter.Segments | server/src/services/segmenter.ts:1-22 | joining the segments in order gives back the input exactly |
| Segmenter.PackBounded | server/src/services/segmenter.ts:6-19 | when every token fits the limit, so do all segments |
| Segmenter.SegmentsBounded | server/src/services/segmenter.ts:1-22 | when no token exceeds the limit, every segment is within it |
| Segmenter.CutIsExactlyMaxLen | server/src/services/segmenter.ts:11-14 | a token too long for an empty segment is cut so that the piece pushed has exactly the limit's length |
| Segmenter.PackNonEmpty | server/src/services/segmenter.ts:8-10 | with a positive limit the loop never pushes an empty segment |
| Segmenter.LongInputNoEmptySegment | server/src/services/segmenter.ts:8-20 | long input with a positive limit yields no empty segment |
| Segmenter.LongWordOverflows | server/src/services/segmenter.ts:11-14 | as written, `"abcdefg"` with limit 2 yields `["ab", "cdefg"]`, a segment over the limit |
| Segmenter.LongWordAfterSegmentOverflows | server/src/services/segmenter.ts:8-10 | as written, `"a bcdef"` with limit 2 yields `["a ", "bcdef"]`: a long word that follows a pushed segment is kept whole |
| Segmenter.WordRunLongWord | server/src/services/segmenter.ts:6-20 | as written, a word and a whitespace run that fit, followed by a word that does not, give two segments, the second being that word whole however long it is |
| Segmenter.ThreeTokens | server/src/services/segmenter.ts:3 | a word, a whitespace run and a word split into exactly those three tokens |
| Segmenter.SpanEndAt | server/src/services/segmenter.ts:3 | a stretch of one kind that ends at the end of the text or at a character of the other kind is exactly the span the split finds |
| Segmenter.CutSpec | server/src/services/segmenter.ts:11-14 | cutting a token yields pieces of exactly the limit's length and a remainder within it, which join back to the token |
| Segmenter.CutPackBounded | server/src/services/segmenter.ts:6-19 | with the cut repeated, every pushed segment and the pending one are within the limit, whatever the tokens |
| Segmenter.CutPackJoin | server/src/services/segmenter.ts:6-19 | with the cut repeated, the pushed segments and the pending one still join back to the tokens |
| Segmenter.BoundedSegmentsSound | server/src/services/segmenter.ts:1-22 | with the cut repeated, every segment is within the limit and the segments still join back to the input |
| RateLimit.Setting | server/src/middleware/rate_limit.ts:6-7 | the configured value, or the default when unset; `RateLimiter.constructor` applies it to the window and the maximum |
| RateLimit.RequestKey | server/src/middleware/rate_limit.ts:12 | the `x-api-key` header when non-empty, else the client address when non-empty, else `anon`, so never an empty key; `RateLimiter.OnRequest` counts under it |
| RateLimit.Admit | server/src/middleware/rate_limit.ts:14-24 | the key always has an entry afterwards; a rejected request never opens a new window and leaves the key's count above the maximum |
| RateLimit.NewWindow | server/src/middleware/rate_limit.ts:15-17 | a key's first request, or one more than `windowMs` after its window started, starts a new window with count 1 and passes |
| RateLimit.SameWindow | server/src/middleware/rate_limit.ts:19-24 | inside the window the count goes up by one and the request passes iff the new count is at most the maximum |
| RateLimit.BoundaryStaysInWindow | server/src/middleware/rate_limit.ts:15 | a request exactly `windowMs` after the start counts in the same window |
| RateLimit.OtherKeysUntouched | server/src/middleware/rate_limit.ts:14-24 | a request touches only its own key's entry |
| RateLimit.RejectedStaysRejected | server/src/middleware/rate_limit.ts:19-21 | a rejected request still increments the count, so every later request in that window is rejected too |
| RateLimit.ThreeThenRejected | server/src/middleware/rate_limit.ts:15-21 | with a maximum of 3, three requests in one window pass and the fourth is rejected |
| RateLimit.RateLimiter.constructor | server/src/middleware/rate_limit.ts:6-9 | the window defaults to 60000 ms and the maximum to 10; the store starts empty |
| RateLimit.RateLimiter.OnRequest | server/src/middleware/rate_limit.ts:11-25 | the store and the verdict are those of the fixed-window rule on the old store |
| Sse.FirstSepSpec | server/src/services/openai.ts:56 | the separator found is the leftmost `\n\n` |
| Sse.SplitJoin | server/src/services/openai.ts:56 | joining the pieces of `split('\n\n')` gives back the text |
| Sse.Split | server/src/services/openai.ts:56 | `split` always yields at least one piece (the pieces join back by `SplitJoin` and hold no separator by `SplitPiecesHaveNoSep`) |
| Sse.SplitPiecesHaveNoSep | server/src/services/openai.ts:56 | no piece of the split contains a separator |
| Sse.SplitExtend | server/src/services/openai.ts:53-57 | appending text changes only the last piece of the split and what follows it |
| Sse.FeedSplits | client/src/hooks/useAIStream.ts:68-71 | one read's frames and the carried remainder are the pieces of the carry plus the chunk |
| Sse.Feed | client/src/hooks/useAIStream.ts:68-71 | no complete frame of a read and no remainder carried over contains a blank line |
| Sse.FeedAllIsSplit | client/src/hooks/useAIStream.ts:65-71 | read by read, the frames handled and the final carry are the pieces of all text read |
| Sse.FeedAll | client/src/hooks/useAIStream.ts:65-71 | over any sequence of reads, no frame handled and no final carry contains a blank line |
| Sse.ChunkingInvariant | client/src/hooks/useAIStream.ts:65-71 | two ways of cutting the same text into reads handle the same frames and keep the same carry |
| Sse.DataPayloadSpec | client/src/hooks/useAIStream.ts:73-75 | a frame has a payload iff its trimmed text starts with `data:`, and the payload is what follows with leading whitespace removed |
| Sse.DataPayload | client/src/hooks/useAIStream.ts:73-75 | a payload is at least five characters shorter than its frame and never starts with whitespace |
| Sse.DoneFrame | server/src/services/openai.ts:60-63 | `data: [DONE]` carries the payload `[DONE]` |
| Sse.FeedAllFrames | server/src/services/openai.ts:50-57 | the frames handled over all reads are the complete frames of the whole text |
| Sse.UnterminatedTailNotFramed | client/src/hooks/useAIStream.ts:66-71 | a final frame not closed by `\n\n` is never handled |
| Sse.PayloadsAppend | server/src/services/openai.ts:59-62 | the payloads of two runs of frames are the payloads of each |
| AIStream.ClassifySpec | client/src/hooks/useAIStream.ts:76-97 | a parse failure (its message mentions `JSON`) is skipped; a non-empty delta always reaches the caller; an `error` field or a thrown message without `JSON` ends the stream with that message |
| AIStream.Classify | client/src/hooks/useAIStream.ts:76-97 | a delta handed on is never empty, and a failure carries a non-empty message that does not mention `JSON` |
| AIStream.JsonErrorIsSwallowed | client/src/hooks/useAIStream.ts:84-96 | an `error` field whose text mentions `JSON` is swallowed |
| AIStream.EventsShape | client/src/hooks/useAIStream.ts:72-98 | without a failure only deltas are fired; with one, deltas are followed by a single `onError` and nothing after it |
| AIStream.Events | client/src/hooks/useAIStream.ts:72-98 | at most one callback per payload, and every callback is `onDelta` except possibly the last, which is then `onError` |
| AIStream.EventsAppend | client/src/hooks/useAIStream.ts:65-99 | handling two reads' frames in turn fires what handling them together fires, and stops at the first failure |
| AIStream.SameEventsForAnyChunking | client/src/hooks/useAIStream.ts:65-99 | however the body is cut into reads, the same callbacks fire in the same order |
| AIStream.RunIsEvents | client/src/hooks/useAIStream.ts:65-99 | read by read, the callbacks are those of the complete frames of all text read, up to the first failure |
| AIStream.HandlePayloads | client/src/hooks/useAIStream.ts:72-98 | the callbacks of one read's frames in order; the first delta of the run latches `seenFirst` and records the elapsed time once |
| AIStream.BuildPayload | client/src/hooks/useAIStream.ts:40-47 | the body carries the input, the connection settings exactly when some were given, and the prompt template only when it is non-empty |
| AIStream.GeneratorError | client/src/hooks/useAIStream.ts:55-58 | the message is `Generator error: `, then the status in decimal, a space, and the response text |
| AIStream.GeneratorErrorDetermines | client/src/hooks/useAIStream.ts:57 | two messages are equal only when their statuses and their texts are |
| AIStream.Stream.constructor | client/src/hooks/useAIStream.ts:28-30 | not running, no controller, no first-delta time |
| AIStream.Stream.Start | client/src/hooks/useAIStream.ts:32-54 | while running nothing happens; otherwise a controller is taken, `running` is set, `onStart` fires and the request body is built |
| AIStream.Stream.Finish | client/src/hooks/useAIStream.ts:109-112 | `running` ends false and the controller is dropped |
| AIStream.Stream.Respond | client/src/hooks/useAIStream.ts:55-63 | a response that is not ok or has no body fires `onError` with the status and ends the run; otherwise reading starts with an empty buffer |
| AIStream.Stream.Read | client/src/hooks/useAIStream.ts:65-99 | the chunk's complete frames fire their callbacks in order, the rest is carried; a failure fires `onError` and ends the run; the first delta records the time since the start |
| AIStream.Stream.ReadDone | client/src/hooks/useAIStream.ts:101-112 | the end of the body fires `onComplete` and ends the run; an incomplete buffered frame is dropped |
| AIStream.Stream.Reject | client/src/hooks/useAIStream.ts:102-112 | an abort ends the run without a callback; any other error fires `onError` first |
| AIStream.Stream.Stop | client/src/hooks/useAIStream.ts:117-121 | the controller is aborted and dropped and `running` is cleared; no callback fires |
| OpenAI.StripTrailingSlash | server/src/services/openai.ts:24 | one trailing slash is removed, and only one (`OneSlashOnly`); `TrailingSlashIgnored` shows a base with or without it gives the same URL |
| OpenAI.BuildRequest | server/src/services/openai.ts:22-35 | the URL is the base (default `https://api.openai.com`) without its trailing slash plus `/v1/chat/completions`; `options.apiKey` overrides the argument; the model defaults to `gpt-3.5-turbo`; `DefaultEndpoint` and `TrailingSlashIgnored` are its consequences |
| OpenAI.DefaultEndpoint | server/src/services/openai.ts:23-24 | without options the request goes to `https://api.openai.com/v1/chat/completions` |
| OpenAI.TrailingSlashIgnored | server/src/services/openai.ts:24 | a base URL with or without one trailing slash gives the same URL |
| OpenAI.OneSlashOnly | server/src/services/openai.ts:24 | only a single slash is stripped |
| OpenAI.FailureMessage | server/src/services/openai.ts:41-44 | the message is `OpenAI request failed: `, then the status in decimal, a space, and the response text |
| OpenAI.FailureMessageDetermines | server/src/services/openai.ts:43 | two messages are equal only when their statuses and their texts are |
| OpenAI.NothingAfterDone | server/src/services/openai.ts:63-65 | nothing after a `[DONE]` frame is yielded |
| OpenAI.DeltasNonEmpty | server/src/services/openai.ts:66-71 | every delta yielded is non-empty |
| OpenAI.Yielded | server/src/services/openai.ts:59-75 | at most one delta per payload |
| OpenAI.Deltas | server/src/services/openai.ts:56-75 | at most one delta per frame |
| OpenAI.YieldedFromPayloads | server/src/services/openai.ts:59-75 | every delta yielded is the content of one of the payloads |
| OpenAI.DeltasFromFrames | server/src/services/openai.ts:56-75 | every delta is the content read from the payload of one of the data frames |
| OpenAI.SameDeltasForAnyChunking | server/src/services/openai.ts:50-76 | however the response is cut into reads, the same deltas are yielded |
| OpenAI.DoneCutsOff | server/src/services/openai.ts:63-65 | once a `[DONE]` has been read, later frames change nothing |
| OpenAI.DoneEndsStream | server/src/services/openai.ts:63-65 | when the first k reads hold a `[DONE]` frame, returning there yields exactly what the whole stream yields |
| OpenAI.StreamChatCompletion | server/src/services/openai.ts:41-76 | a response that is not ok or has no body yields nothing and throws `OpenAI request failed: <status> <text>`; otherwise the deltas yielded are those of the complete frames read, in order, up to the first `[DONE]` |
| OpenAI.HandleFrames | server/src/services/openai.ts:59-75 | one read's deltas up to a `[DONE]`, and whether one was met |
| Toast.KindOrDefault | client/src/components/Toast/useToast.ts:31 | the type defaults to `info`; `Toasts.AddToast` stores the toast with it |
| Toast.IdNumberOfToastId | client/src/components/Toast/useToast.ts:34 | the counter value can be read back from the id `toast-N` |
| Toast.ToastId | client/src/components/Toast/useToast.ts:34 | `toast-` followed by at least one decimal digit and nothing else |
| Toast.ToastIdsDistinct | client/src/components/Toast/useToast.ts:34 | ids made from different counter values differ |
| Toast.WithoutIdMembers | client/src/components/Toast/useToast.ts:49 | removal keeps exactly the toasts with another id |
| Toast.WithoutIdAppend | client/src/components/Toast/useToast.ts:49 | removal keeps the order of the rest |
| Toast.WithoutAbsentId | client/src/components/Toast/useToast.ts:49 | removing an id no toast has changes nothing |
| Toast.RemoveOne | client/src/components/Toast/useToast.ts:49 | with unique ids, removing the id of the toast at position k removes that toast alone |
| Toast.WithoutIdSubsequence | client/src/components/Toast/useToast.ts:49 | filtering keeps unique ids unique |
| Toast.IdCounter.constructor | client/src/components/Toast/useToast.ts:7 | the shared counter starts at 0 |
| Toast.Toasts.constructor | client/src/components/Toast/useToast.ts:26 | an empty list |
| Toast.Toasts.AddToast | client/src/components/Toast/useToast.ts:28-46 | the counter goes up by one, the toast `toast-N` is appended at the end with the type (default `info`), duration and retry given, and no earlier toast has that id |
| Toast.Toasts.RemoveToast | client/src/components/Toast/useToast.ts:48-50 | exactly the toasts with that id are removed, the rest keep their order, and an absent id changes nothing |
| Toast.Toasts.ClearAll | client/src/components/Toast/useToast.ts:52-54 | the list is empty |
| Toast.Toasts.ShowSuccess | client/src/components/Toast/useToast.ts:57-60 | a `success` toast with the given duration |
| Toast.Toasts.ShowError | client/src/components/Toast/useToast.ts:62-66 | an `error` toast whose duration defaults to 0 (stays until dismissed), keeping the retry callback |
| Toast.Toasts.ShowWarning | client/src/components/Toast/useToast.ts:68-71 | a `warning` toast with the given duration |
| Toast.Toasts.ShowInfo | client/src/components/Toast/useToast.ts:73-76 | an `info` toast with the given duration |
| Audit.Find | tests/integration/server/audit.test.ts:24-25 | the first event of the kind, if any: it occurs in the log and no earlier event has the kind; none iff no event has it |
| Audit.GenerateEvents | server/src/routes/generate.ts:28-57 | a request event, then a completion or an error event, both naming the input |
| Audit.MockRequestLogged | server/src/routes/generate.ts:28-42 | a completed mock request logs `generate.request` before `generate.complete`, with `mock: true` and the segment count |
| Audit.FailureNotCompleted | server/src/routes/generate.ts:55-57 | a failed request logs an error event with its message and no completion |
| Audit.FindAppend | server/src/services/audit.ts:5-7 | events already in the log are found before the ones appended after them |
| Audit.AuditLog.constructor | server/src/services/audit.ts:3 | an empty log |
| Audit.AuditLog.LogEvent | server/src/services/audit.ts:5-7 | exactly one event `{type, payload, ts}` is appended at the end; earlier events are unchanged |
| Audit.AuditLog.GetEvents | server/src/services/audit.ts:9-11 | a new array holding the events in order, so writing to it leaves the log unchanged |
| Audit.AuditLog.ClearEvents | server/src/services/audit.ts:13-15 | the log is empty |
| Audit.AuditLog.RecordGenerate | server/src/routes/generate.ts:28-57 | the two audit events of one generate request are appended |
| Audit.AuditTest | tests/integration/server/audit.test.ts:15-28 | after clearing, serving a mock request and reading a copy, both events are found, and changing the copy leaves the log as recorded |
| PerfBaseline.SortSpec | scripts/perf/compare-baseline.js:10 | the sorted copy is ascending and holds the same samples |
| PerfBaseline.SortAscendingSorted | scripts/perf/compare-baseline.js:10 | the insertion sort yields an ascending sequence |
| PerfBaseline.SortPerm | scripts/perf/compare-baseline.js:10 | the insertion sort yields a permutation of the samples |
| PerfBaseline.CeilDiv100 | scripts/perf/compare-baseline.js:11 | the ceiling of a hundredth: `100(r-1) < a <= 100r` |
| PerfBaseline.RankIndex | scripts/perf/compare-baseline.js:11-12 | the clamped index is a valid position of the sorted copy |
| PerfBaseline.Percentile | scripts/perf/compare-baseline.js:8-13 | null iff there are no samples |
| PerfBaseline.PercentileIsSample | scripts/perf/compare-baseline.js:12 | the percentile is one of the samples |
| PerfBaseline.HundredthIsMax | scripts/perf/compare-baseline.js:11-12 | the 100th percentile is the largest sample |
| PerfBaseline.Monotone | scripts/perf/compare-baseline.js:11-12 | a higher percentile is never smaller |
| PerfBaseline.CountAboveSort | scripts/perf/compare-baseline.js:10 | sorting does not change how many samples lie above a value |
| PerfBaseline.PercentileAbove | scripts/perf/compare-baseline.js:10-12 | the percentile exceeds t iff at least `n - k` samples exceed t, where k is the rank index |
| PerfBaseline.Threshold | scripts/perf/compare-baseline.js:16-19 | 2000 ms without a baseline file, otherwise the file's field, possibly absent; `RegressionIff` and `MissingFieldPasses` compare the p95 with it |
| PerfBaseline.RegressionIff | scripts/perf/compare-baseline.js:44-56 | a regression is reported iff there are samples and their p95 exceeds the threshold in force |
| PerfBaseline.Decide | scripts/perf/compare-baseline.js:44-57 | the comparison is skipped exactly when there are no latencies; otherwise the p95 reported is one of the samples, and a regression's p95 exceeds its threshold |
| PerfBaseline.TwentySamples | scripts/perf/compare-baseline.js:50-56 | of twenty samples, one over 2000 ms passes and two regress |
| PerfBaseline.MissingFieldPasses | scripts/perf/compare-baseline.js:16-56 | a baseline file without the threshold field never reports a regression |
| PerfBaseline.Latencies | scripts/perf/compare-baseline.js:34-42 | at most one latency per result file |
| PerfBaseline.LatenciesMembers | scripts/perf/compare-baseline.js:38 | a latency is collected iff some result file carries it |
| PerfBaseline.CollectLatencies | scripts/perf/compare-baseline.js:34-42 | the loop collects the numeric latencies of the result files in order |
| Util.Clamp | scripts/perf/compare-baseline.js:12 | the value clamped into the range, unchanged when already inside it |
| Util.JsSubstring | client/src/hooks/useNotes.ts:21 | `substring` takes the slice between the offsets, swapping them when given backwards |
| Util.TrimSpec | client/src/hooks/useAIStream.ts:73 | the trimmed text occurs in the text and has no whitespace at either end |
| Util.TrimStartSpec | client/src/hooks/useAIStream.ts:74 | the result is a suffix of the text with only whitespace removed in front of it |
| Util.TrimEndSpec | client/src/hooks/useAIStream.ts:73 | the result is a prefix of the text, ends in a non-whitespace character or is empty, and only whitespace follows it |
| Util.DecimalRoundTrip | client/src/components/Toast/useToast.ts:34 | parsing the decimal rendering of a number gives the number back |
| Util.DecimalInjective | client/src/components/Toast/useToast.ts:34 | different numbers render to different decimal strings |
| Util.IntStringInjective | client/src/hooks/useAIStream.ts:57 | `${n}` of an integer renders distinct integers as distinct strings, with a leading `-` exactly for negatives |
| Util.SpaceSeparated | client/src/hooks/useAIStream.ts:57 | a word without spaces, a space and a tail can be split back into the word and the tail |
| Util.ResolvedMembership | client/src/stores/notesStore.ts:277-283 | an entity is in `keys.map(k => table[k]).filter(Boolean)` iff some key maps to it |
| Util.ResolvedTotal | client/src/hooks/useNotes.ts:10 | when every key has an entry nothing is dropped and the order is kept |
| Util.Without | client/src/stores/notesStore.ts:155 | filtering a value out keeps exactly the other elements |
| Util.WithoutKeepsNoDuplicates | client/src/stores/notesStore.ts:185 | filtering keeps a duplicate-free list duplicate-free |
| Util.ResolveAll | client/src/lib/db/notes.ts:211-216 | the loop that looks up each row's entity and pushes the ones found computes the resolved list |
| Util.JsSlice | server/src/services/segmenter.ts:13-14 | `slice` between offsets inside the string is the plain slice, and never longer than the string |
| Util.SliceSplits | server/src/services/segmenter.ts:13-14 | `w.slice(0, k) + w.slice(k)` is `w` for every k |

## Left out

- I/O is not modelled: SQLite, IndexedDB, their transactions and indexes, fetch, `ReadableStream`, `TextDecoder`, WebSocket sends and timers. Stores are maps and sets of pairs, sockets an outbox, and timer and socket events are method calls.
- `JSON.parse` and `JSON.stringify` are not modelled. A frame that does not parse is an `Option` or a `Parsed` parameter, and payload field reads are a function parameter.
- The clock, `Math.random` client ids and environment variables are parameters.
- Concurrency is not modelled. Each handler runs atomically, and the interleaving of `start`'s awaits with `stop` or a re-render is not modelled.
- AIStream.Stream.Start: reads `running` directly. The React closure over a stale `running` value, which can let a second `start` through before the re-render, is not modelled.
- AIStream.Stream.Stop: puts the run to rest at once. The pending read's later rejection with `AbortError` then finds the run over, which matches the silent abort but not the exact order of the `finally` block.
- `server/src/services/database.ts` `clearAllNotes`, `getDatabase` and `closeDatabase` are not modelled. They are test and connection plumbing.
- Audit.AuditLog.GetEvents: the events are values, so the copy is modelled as deep. `events.slice()` copies only the array; a caller mutating an event object (say its `meta`) would change the logged event too, and that aliasing is not modelled.
- ServerDatabase.Database.LinkNoteTag: the thrown `FOREIGN KEY constraint failed` is returned as an error result rather than raised.
- ServerDatabase.Database.LinkNoteCategory: the same as `LinkNoteTag` for categories.
- OpenAI.StreamChatCompletion: the response's `ok`, body presence, `status` and text are parameters, and the thrown `OpenAI request failed` error is returned as an error result rather than raised.
- An invalid date string is not modelled: a NaN timestamp never compares as older and would be stored.
- The order of rows with equal `updatedAt`, and IndexedDB's key order from `getAll`, are not modelled. The model states contents exactly and order only where `ORDER BY` fixes it.
- NotesStore.NotesByTag: returns the set of notes, so the `Object.keys(state.noteTags)` order of the source's array is not modelled.
- NotesStore.NotesByCategory: returns the set of notes, so the `Object.keys(state.noteCategories)` order of the source's array is not modelled.
- SyncRoute.SyncServer.Broadcast: states the deliveries as a set of recipients reached once each. The `Map.forEach` insertion order of the sends is not modelled.
- ClientSync.ConnectUrl: appends the token as given. `encodeURIComponent` is not modelled, so the URL is exact only for tokens without reserved characters.
- ClientSync.SyncAgent.OnOpen: requires a socket in the CONNECTING state, the only state in which a browser fires `open`.
- The client sync agent's `onConnectionChange` notifications are recorded in `statusChanges`. The other callbacks of `SyncEvents` are the `Callback` values recorded in `fired`.
- `useStreamingMetrics.ts`, rendering components, the settings storage and the `generate` route's HTTP streaming are not modelled. Only the generate route's audit calls are modelled, in `Audit`.
- PerfBaseline.Percentile: computes `ceil(p·n/100)` exactly on integers. The script computes `(p/100)·n` in floating point, which can round differently for some `p` and `n`.
- PerfBaseline.Decide: takes the samples and the parsed baseline as arguments. The reading of the results directory and the early exits for a missing directory or no files are not modelled; they end in the same skip as no latencies.
- Strings are sequences of characters, with no UTF-16 code units. `\s` is the ECMAScript whitespace set; characters outside it and surrogate pairs are not distinguished.
- The OpenAI request's fixed fields (`temperature: 0.7`, `stream: true`, the message array) are not modelled. Only the fields that depend on the arguments are modelled.

## Findings

| source | as written | input that shows it | evidently intended | confidence | as-written member | corrected member |
|---|---|---|---|---|---|---|
| server/src/services/segmenter.ts:11-14 | a word longer than the limit met with an empty segment has only its first `maxLen` characters pushed; the rest becomes the current segment with no further length check | `segmentInput("abcdefg", 2)` gives `["ab", "cdefg"]` | the comment "single word longer than maxLen: slice it" asks for every piece to fit: `["ab", "cd", "ef", "g"]` | not executed | Segmenter.LongWordOverflows | Segmenter.BoundedSegmentsSound |
| server/src/services/segmenter.ts:8-10 | when a word does not fit beside a non-empty segment, the segment is pushed and the word becomes the current segment whole, with no length check | `segmentInput("a bcdef", 2)` gives `["a ", "bcdef"]` | a segment limit that holds for every segment: `["a ", "bc", "de", "f"]` | not executed | Segmenter.LongWordAfterSegmentOverflows | Segmenter.BoundedSegmentsSound |
