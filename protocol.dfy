/** The entities and the tagged message union shared by the sync server and
    its clients. Timestamps are epoch milliseconds; the original carries the
    entity timestamps as ISO-8601 strings and compares them as dates. */
module Protocol {
  import opened Util

  type Id = string
  type Timestamp = int

  datatype Note = Note(id: Id, title: Option<string>, content: string,
                       createdAt: Timestamp, updatedAt: Timestamp)

  /** Tags and categories have the same shape; only the relation that refers
      to them tells them apart. */
  datatype Tag = Tag(id: Id, name: string, createdAt: Timestamp, updatedAt: Timestamp)

  type Category = Tag

  /** One row of a relation table: a note and a tag (or category) id. */
  datatype Link = Link(noteId: Id, targetId: Id)

  datatype RelationName = NoteTags | NoteCategories

  datatype NormalizedPayload = NormalizedPayload(
    notes: seq<Note>,
    tags: seq<Tag>,
    categories: seq<Category>,
    noteTags: seq<Link>,
    noteCategories: seq<Link>)

  /** The type-specific part of a message, one constructor per member of the
      protocol's union. `Unrecognised` stands for a frame that parses as JSON
      but whose `type` is none of the protocol's names. */
  datatype Body =
    | Init
    | InitResponse(notes: seq<Note>)
    | InitResponseNorm(payload: NormalizedPayload)
    | Update(note: Note)
    | Delete(noteId: Id)
    | Create(note: Note)
    | TagCreate(tag: Tag)
    | TagUpdate(tag: Tag)
    | TagDelete(tagId: Id)
    | CategoryCreate(category: Category)
    | CategoryUpdate(category: Category)
    | CategoryDelete(categoryId: Id)
    | RelationAdd(relationName: RelationName, noteId: Id, targetId: Id)
    | RelationRemove(relationName: RelationName, noteId: Id, targetId: Id)
    | Ping
    | Pong
    | Ack(originalTimestamp: Timestamp)
    | Unrecognised(typeName: string)

  /** Every message carries the envelope fields `timestamp` and an optional
      `clientId` naming the originating client. */
  datatype Message = Message(timestamp: Timestamp, clientId: Option<Id>, body: Body)

  /** The exact wire name of each message type. */
  function TypeName(b: Body): string {
    match b
    case Init => "INIT"
    case InitResponse(_) => "INIT_RESPONSE"
    case InitResponseNorm(_) => "INIT_RESPONSE_NORM"
    case Update(_) => "UPDATE"
    case Delete(_) => "DELETE"
    case Create(_) => "CREATE"
    case TagCreate(_) => "TAG_CREATE"
    case TagUpdate(_) => "TAG_UPDATE"
    case TagDelete(_) => "TAG_DELETE"
    case CategoryCreate(_) => "CATEGORY_CREATE"
    case CategoryUpdate(_) => "CATEGORY_UPDATE"
    case CategoryDelete(_) => "CATEGORY_DELETE"
    case RelationAdd(_, _, _) => "RELATION_ADD"
    case RelationRemove(_, _, _) => "RELATION_REMOVE"
    case Ping => "PING"
    case Pong => "PONG"
    case Ack(_) => "ACK"
    case Unrecognised(t) => t
  }

  function RelationWireName(r: RelationName): string {
    match r
    case NoteTags => "note_tags"
    case NoteCategories => "note_categories"
  }

  /** A note mutation as the server rebroadcasts it: same type as the
      incoming message, carrying the stored note. */
  predicate IsNoteWrite(b: Body) { b.Create? || b.Update? }

  function WithNote(b: Body, n: Note): (r: Body)
    requires IsNoteWrite(b)
    ensures IsNoteWrite(r) && TypeName(r) == TypeName(b) && r.note == n
  {
    if b.Create? then Create(n) else Update(n)
  }

  /** The relation rows that survive removal of a note. The two cascades
      are kept apart because they filter on different columns of the pair:
      a note's delete clears its rows in both relation tables by `note_id`,
      while a tag's or category's delete clears one table by the target's
      column. */
  function LinksWithoutNote(links: set<Link>, noteId: Id): (r: set<Link>)
    ensures forall l :: l in r <==> l in links && l.noteId != noteId
  {
    set l | l in links && l.noteId != noteId
  }

  /** The relation rows that survive removal of a tag or category. */
  function LinksWithoutTarget(links: set<Link>, targetId: Id): (r: set<Link>)
    ensures forall l :: l in r <==> l in links && l.targetId != targetId
  {
    set l | l in links && l.targetId != targetId
  }

  /** The relation rows of one note (an index lookup by note id). */
  function LinksOfNote(links: set<Link>, noteId: Id): (r: set<Link>)
    ensures forall l :: l in r <==> l in links && l.noteId == noteId
  {
    set l | l in links && l.noteId == noteId
  }

  /** The relation rows of one tag or category. */
  function LinksOfTarget(links: set<Link>, targetId: Id): (r: set<Link>)
    ensures forall l :: l in r <==> l in links && l.targetId == targetId
  {
    set l | l in links && l.targetId == targetId
  }

  function TargetIds(ls: seq<Link>): (r: seq<Id>)
    ensures |r| == |ls| && forall i | 0 <= i < |ls| :: r[i] == ls[i].targetId
  {
    seq(|ls|, i requires 0 <= i < |ls| => ls[i].targetId)
  }

  function NoteIds(ls: seq<Link>): (r: seq<Id>)
    ensures |r| == |ls| && forall i | 0 <= i < |ls| :: r[i] == ls[i].noteId
  {
    seq(|ls|, i requires 0 <= i < |ls| => ls[i].noteId)
  }
}
