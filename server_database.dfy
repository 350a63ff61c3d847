/** The server's entity store: notes, tags and categories keyed by id, each
    row carrying a version counter, and the two relation tables (note-tag
    and note-category) as sets of pairs. SQL statements become updates of
    these maps and sets. */
module ServerDatabase {
  import opened Util
  import opened Protocol

  /** A stored row: the entity as `SELECT` returns it, and its version. */
  datatype Row<T> = Row(value: T, version: nat)

  /** The outcome of an upsert: the new table and what the call returns
      (`None` when last-writer-wins rejected the write). */
  datatype Upserted<T> = Upserted(rows: map<Id, Row<T>>, stored: Option<T>)

  /** The title column receives `note.title || null`: every falsy title
      (absent or empty) is stored as NULL. */
  function StoredTitle(t: Option<string>): (r: Option<string>)
    ensures r != Some("")
    ensures t.Some? && t.value != "" ==> r == t
    ensures t == None || t == Some("") ==> r == None
  {
    if t.Some? && t.value != "" then t else None
  }

  /** Every row is stored under its own id, has a version of at least 1 and,
      for notes, no empty title. */
  ghost predicate NotesValid(rows: map<Id, Row<Note>>) {
    forall k | k in rows :: rows[k].value.id == k && rows[k].version >= 1 && rows[k].value.title != Some("")
  }

  ghost predicate TagsValid(rows: map<Id, Row<Tag>>) {
    forall k | k in rows :: rows[k].value.id == k && rows[k].version >= 1
  }

  /** Last-writer-wins upsert of a note. The incoming row is rejected only when
      its `updatedAt` is strictly earlier than the stored one, so an equal
      timestamp overwrites. An update keeps `createdAt` and bumps the version;
      an insert starts at version 1. */
  function NoteUpsert(rows: map<Id, Row<Note>>, n: Note): (u: Upserted<Note>)
    ensures n.id !in rows ==>
      u.rows == rows[n.id := Row(Note(n.id, StoredTitle(n.title), n.content, n.createdAt, n.updatedAt), 1)]
      && u.stored == Some(u.rows[n.id].value)
    ensures n.id in rows && n.updatedAt < rows[n.id].value.updatedAt ==> u == Upserted(rows, None)
    ensures n.id in rows && n.updatedAt >= rows[n.id].value.updatedAt ==>
      u.rows == rows[n.id := Row(Note(n.id, StoredTitle(n.title), n.content, rows[n.id].value.createdAt, n.updatedAt),
                                 rows[n.id].version + 1)]
      && u.stored == Some(u.rows[n.id].value)
  {
    if n.id in rows then
      var prev := rows[n.id];
      if n.updatedAt < prev.value.updatedAt then Upserted(rows, None)
      else
        var v := Note(n.id, StoredTitle(n.title), n.content, prev.value.createdAt, n.updatedAt);
        Upserted(rows[n.id := Row(v, prev.version + 1)], Some(v))
    else
      var v := Note(n.id, StoredTitle(n.title), n.content, n.createdAt, n.updatedAt);
      Upserted(rows[n.id := Row(v, 1)], Some(v))
  }

  /** The same rule for tags and categories, whose updatable column is the
      name. */
  function TagUpsert(rows: map<Id, Row<Tag>>, t: Tag): (u: Upserted<Tag>)
    ensures t.id !in rows ==>
      u.rows == rows[t.id := Row(t, 1)] && u.stored == Some(t)
    ensures t.id in rows && t.updatedAt < rows[t.id].value.updatedAt ==> u == Upserted(rows, None)
    ensures t.id in rows && t.updatedAt >= rows[t.id].value.updatedAt ==>
      u.rows == rows[t.id := Row(Tag(t.id, t.name, rows[t.id].value.createdAt, t.updatedAt), rows[t.id].version + 1)]
      && u.stored == Some(u.rows[t.id].value)
  {
    if t.id in rows then
      var prev := rows[t.id];
      if t.updatedAt < prev.value.updatedAt then Upserted(rows, None)
      else
        var v := Tag(t.id, t.name, prev.value.createdAt, t.updatedAt);
        Upserted(rows[t.id := Row(v, prev.version + 1)], Some(v))
    else
      Upserted(rows[t.id := Row(t, 1)], Some(t))
  }

  /** Upsert keeps the table well formed and touches no other id. */
  lemma NoteUpsertPreservesValid(rows: map<Id, Row<Note>>, n: Note)
    requires NotesValid(rows)
    ensures NotesValid(NoteUpsert(rows, n).rows)
    ensures NoteUpsert(rows, n).rows.Keys == rows.Keys + {n.id}
    ensures forall k | k in rows && k != n.id :: NoteUpsert(rows, n).rows[k] == rows[k]
  {
  }

  lemma TagUpsertPreservesValid(rows: map<Id, Row<Tag>>, t: Tag)
    requires TagsValid(rows)
    ensures TagsValid(TagUpsert(rows, t).rows)
    ensures TagUpsert(rows, t).rows.Keys == rows.Keys + {t.id}
    ensures forall k | k in rows && k != t.id :: TagUpsert(rows, t).rows[k] == rows[k]
  {
  }

  /** The part of a stored note that last-writer-wins arbitrates. */
  function Visible(n: Note): (Option<string>, string, Timestamp) {
    (n.title, n.content, n.updatedAt)
  }

  /** Two writes of the same note with different timestamps converge: applied
      in either order they leave the same title, content and `updatedAt`,
      namely those of the later-stamped write unless the stored row is newer
      than both. */
  lemma LwwConverges(rows: map<Id, Row<Note>>, a: Note, b: Note)
    requires a.id == b.id && a.updatedAt != b.updatedAt
    ensures var ab := NoteUpsert(NoteUpsert(rows, a).rows, b).rows;
            var ba := NoteUpsert(NoteUpsert(rows, b).rows, a).rows;
            a.id in ab && a.id in ba && Visible(ab[a.id].value) == Visible(ba[a.id].value)
  {
    var ra := NoteUpsert(rows, a).rows;
    var rb := NoteUpsert(rows, b).rows;
    assert a.id in ra && b.id in rb;
  }

  /** The later-stamped write wins: unless the stored row is newer than it,
      both orders leave its title, content and `updatedAt`. */
  lemma LwwNewerWins(rows: map<Id, Row<Note>>, a: Note, b: Note)
    requires a.id == b.id && a.updatedAt < b.updatedAt
    requires a.id !in rows || rows[a.id].value.updatedAt <= b.updatedAt
    ensures var ab := NoteUpsert(NoteUpsert(rows, a).rows, b).rows;
            var ba := NoteUpsert(NoteUpsert(rows, b).rows, a).rows;
            a.id in ab && a.id in ba
            && Visible(ab[a.id].value) == (StoredTitle(b.title), b.content, b.updatedAt)
            && Visible(ba[a.id].value) == (StoredTitle(b.title), b.content, b.updatedAt)
  {
    var ra := NoteUpsert(rows, a).rows;
    var rb := NoteUpsert(rows, b).rows;
    assert a.id in ra && b.id in rb;
  }

  /** Writes older than the stored row are refused in either order, and the
      table is left as it was. */
  lemma StaleWritesIgnored(rows: map<Id, Row<Note>>, a: Note, b: Note)
    requires a.id == b.id && a.id in rows
    requires a.updatedAt < rows[a.id].value.updatedAt && b.updatedAt < rows[a.id].value.updatedAt
    ensures NoteUpsert(NoteUpsert(rows, a).rows, b).rows == rows
    ensures NoteUpsert(NoteUpsert(rows, b).rows, a).rows == rows
  {
  }

  /** With equal timestamps the order decides: the write applied last wins.
      The code's strict `<` lets a tie overwrite rather than keep the stored
      row. */
  lemma EqualStampOverwrites(rows: map<Id, Row<Note>>, n: Note)
    requires n.id in rows && n.updatedAt == rows[n.id].value.updatedAt
    ensures NoteUpsert(rows, n).stored.Some?
    ensures NoteUpsert(rows, n).rows[n.id].value.content == n.content
    ensures NoteUpsert(rows, n).rows[n.id].version == rows[n.id].version + 1
  {
  }

  /** Concretely: stored "A" at time 5, then "B" and "C" both stamped 7; the
      outcome depends on which arrives last. */
  lemma TieIsOrderDependent()
    ensures var rows := map["n" := Row(Note("n", None, "A", 1, 5), 1)];
            var b := Note("n", None, "B", 1, 7);
            var c := Note("n", None, "C", 1, 7);
            NoteUpsert(NoteUpsert(rows, b).rows, c).rows["n"].value.content == "C"
            && NoteUpsert(NoteUpsert(rows, c).rows, b).rows["n"].value.content == "B"
  {
  }

  /** Replaying an accepted write changes nothing visible (only the version
      moves on). */
  lemma ReplayIsVisiblyIdempotent(rows: map<Id, Row<Note>>, n: Note)
    ensures var once := NoteUpsert(rows, n).rows;
            var twice := NoteUpsert(once, n).rows;
            n.id in once && n.id in twice
            && Visible(twice[n.id].value) == Visible(once[n.id].value)
            && twice[n.id].value.createdAt == once[n.id].value.createdAt
  {
    var once := NoteUpsert(rows, n).rows;
    assert n.id in once;
  }

  /** `syncNotes`' loop: every client note through the upsert, in order. */
  function UpsertAll(rows: map<Id, Row<Note>>, ns: seq<Note>): map<Id, Row<Note>>
    decreases |ns|
  {
    if ns == [] then rows else UpsertAll(NoteUpsert(rows, ns[0]).rows, ns[1..])
  }

  /** After a bulk merge the stored ids are those of the server and those of
      the client, and the table stays well formed. */
  lemma {:induction false} UpsertAllKeys(rows: map<Id, Row<Note>>, ns: seq<Note>)
    requires NotesValid(rows)
    ensures NotesValid(UpsertAll(rows, ns))
    ensures UpsertAll(rows, ns).Keys == rows.Keys + set i | 0 <= i < |ns| :: ns[i].id
    decreases |ns|
  {
    if ns != [] {
      NoteUpsertPreservesValid(rows, ns[0]);
      UpsertAllKeys(NoteUpsert(rows, ns[0]).rows, ns[1..]);
      var tail := set i | 0 <= i < |ns[1..]| :: ns[1..][i].id;
      var all := set i | 0 <= i < |ns| :: ns[i].id;
      assert all == {ns[0].id} + tail by {
        forall x | x in all ensures x in {ns[0].id} + tail {
          var i :| 0 <= i < |ns| && ns[i].id == x;
          if i > 0 { assert ns[1..][i - 1].id == x; }
        }
        forall x | x in tail ensures x in all {
          var i :| 0 <= i < |ns[1..]| && ns[1..][i].id == x;
          assert ns[i + 1].id == x;
        }
      }
    }
  }

  /** The newest-first order of `ORDER BY updated_at DESC`. */
  ghost predicate Descending<T>(r: seq<T>, stamp: T -> int) {
    forall i, j | 0 <= i < j < |r| :: stamp(r[i]) >= stamp(r[j])
  }

  /** The entities stored under the given keys. */
  ghost function EntitiesOf<T>(rows: map<Id, Row<T>>, keys: set<Id>): set<T> {
    set k | k in keys && k in rows :: rows[k].value
  }

  /** The entities of a table, as a set. */
  ghost function Entities<T>(rows: map<Id, Row<T>>): set<T> {
    EntitiesOf(rows, rows.Keys)
  }

  lemma EntitiesOfAdd<T>(rows: map<Id, Row<T>>, keys: set<Id>, k: Id, idOf: T -> Id)
    requires k in rows && k !in keys
    requires forall j | j in rows :: idOf(rows[j].value) == j
    ensures EntitiesOf(rows, keys + {k}) == EntitiesOf(rows, keys) + {rows[k].value}
    ensures rows[k].value !in EntitiesOf(rows, keys)
  {
    var v := rows[k].value;
    forall y | y in EntitiesOf(rows, keys + {k}) ensures y in EntitiesOf(rows, keys) + {v} {
      var j :| j in keys + {k} && j in rows && rows[j].value == y;
      if j != k { assert j in keys; }
    }
    forall j | j in keys && j in rows ensures rows[j].value != v {
      assert idOf(rows[j].value) == j;
    }
  }

  /** Places `x` before the first element that is not newer than it. */
  function InsertNewest<T>(r: seq<T>, x: T, stamp: T -> int): seq<T>
    decreases |r|
  {
    if r == [] || stamp(x) >= stamp(r[0]) then [x] + r
    else [r[0]] + InsertNewest(r[1..], x, stamp)
  }

  /** Insertion adds exactly one element. */
  lemma {:induction false} InsertNewestPerm<T>(r: seq<T>, x: T, stamp: T -> int)
    ensures multiset(InsertNewest(r, x, stamp)) == multiset(r) + multiset{x}
    ensures |InsertNewest(r, x, stamp)| == |r| + 1
    decreases |r|
  {
    if r != [] && stamp(x) < stamp(r[0]) {
      InsertNewestPerm(r[1..], x, stamp);
      assert r == [r[0]] + r[1..];
    }
  }

  /** Insertion brings in no element but `x`. */
  lemma {:induction false} InsertNewestMembers<T>(r: seq<T>, x: T, stamp: T -> int)
    ensures forall y | y in InsertNewest(r, x, stamp) :: y == x || y in r
    decreases |r|
  {
    if r != [] && stamp(x) < stamp(r[0]) {
      InsertNewestMembers(r[1..], x, stamp);
      assert r == [r[0]] + r[1..];
    }
  }

  /** An element at least as new as all of a newest-first list can lead it. */
  lemma ConsDescending<T>(h: T, rest: seq<T>, stamp: T -> int)
    requires Descending(rest, stamp)
    requires forall y | y in rest :: stamp(h) >= stamp(y)
    ensures Descending([h] + rest, stamp)
  {
    var s := [h] + rest;
    forall i, j | 0 <= i < j < |s| ensures stamp(s[i]) >= stamp(s[j]) {
      assert s[j] == rest[j - 1];
      if i > 0 { assert s[i] == rest[i - 1]; }
    }
  }

  /** Insertion keeps the newest-first order. */
  lemma {:induction false} InsertNewestSorted<T>(r: seq<T>, x: T, stamp: T -> int)
    requires Descending(r, stamp)
    ensures Descending(InsertNewest(r, x, stamp), stamp)
    decreases |r|
  {
    if r == [] || stamp(x) >= stamp(r[0]) {
      forall y | y in r ensures stamp(x) >= stamp(y) {
        var k :| 0 <= k < |r| && r[k] == y;
        assert k == 0 || stamp(r[0]) >= stamp(r[k]);
      }
      ConsDescending(x, r, stamp);
    } else {
      var tail := r[1..];
      InsertNewestSorted(tail, x, stamp);
      InsertNewestMembers(tail, x, stamp);
      forall y | y in InsertNewest(tail, x, stamp) ensures stamp(r[0]) >= stamp(y) {
        if y != x {
          var k :| 0 <= k < |tail| && tail[k] == y;
          assert r[k + 1] == y;
        }
      }
      ConsDescending(r[0], InsertNewest(tail, x, stamp), stamp);
    }
  }

  /** One more row placed in the newest-first list of the rows done. */
  lemma {:induction false} NewestFirstStep<T>(rows: map<Id, Row<T>>, done: set<Id>, todo: set<Id>, k: Id, r: seq<T>,
                           idOf: T -> Id, stamp: T -> int)
    requires k in todo && todo !! done && todo + done == rows.Keys
    requires forall j | j in rows :: idOf(rows[j].value) == j
    requires Descending(r, stamp) && multiset(r) == multiset(EntitiesOf(rows, done)) && |r| == |done|
    ensures (todo - {k}) !! (done + {k}) && (todo - {k}) + (done + {k}) == rows.Keys
    ensures |todo - {k}| < |todo|
    ensures Descending(InsertNewest(r, rows[k].value, stamp), stamp)
    ensures multiset(InsertNewest(r, rows[k].value, stamp)) == multiset(EntitiesOf(rows, done + {k}))
    ensures |InsertNewest(r, rows[k].value, stamp)| == |done + {k}|
  {
    MoveOne(done, todo, k);
    var v := rows[k].value;
    EntitiesOfAdd(rows, done, k, idOf);
    InsertNewestSorted(r, v, stamp);
    InsertNewestPerm(r, v, stamp);
    SetMultisetAdd(EntitiesOf(rows, done), v);
  }

  lemma SetMultisetAdd<T>(a: set<T>, v: T)
    requires v !in a
    ensures multiset(a + {v}) == multiset(a) + multiset{v}
  {
  }

  /** All rows of a table, newest first: every entity exactly once. */
  method NewestFirst<T(==)>(rows: map<Id, Row<T>>, idOf: T -> Id, stamp: T -> int) returns (r: seq<T>)
    requires forall k | k in rows :: idOf(rows[k].value) == k
    ensures Descending(r, stamp)
    ensures multiset(r) == multiset(Entities(rows))
    ensures |r| == |rows|
  {
    r := [];
    var todo := rows.Keys;
    ghost var done: set<Id> := {};
    while todo != {}
      invariant todo !! done && todo + done == rows.Keys
      invariant Descending(r, stamp)
      invariant multiset(r) == multiset(EntitiesOf(rows, done))
      invariant |r| == |done|
      decreases |todo|
    {
      var k :| k in todo;
      NewestFirstStep(rows, done, todo, k, r, idOf, stamp);
      r := InsertNewest(r, rows[k].value, stamp);
      todo := todo - {k};
      done := done + {k};
    }
    assert done == rows.Keys;
  }

  /** Every relation row names an existing row on each side, as the
      foreign keys of `note_tags` and `note_categories` demand. */
  ghost predicate LinksResolve<T, U>(links: set<Link>, left: map<Id, T>, right: map<Id, U>)
  {
    forall l | l in links :: l.noteId in left && l.targetId in right
  }

  /** The message SQLite gives a statement that breaks a foreign key. */
  const ForeignKeyFailed := "FOREIGN KEY constraint failed"

  class Database {
    var notes: map<Id, Row<Note>>
    var tags: map<Id, Row<Tag>>
    var categories: map<Id, Row<Category>>
    var noteTags: set<Link>
    var noteCategories: set<Link>

    ghost predicate Valid()
      reads this
    {
      NotesValid(notes) && TagsValid(tags) && TagsValid(categories)
      && LinksResolve(noteTags, notes, tags) && LinksResolve(noteCategories, notes, categories)
    }

    /** All five tables at once, to state that a call leaves them alone. */
    ghost function Tables(): (map<Id, Row<Note>>, map<Id, Row<Tag>>, map<Id, Row<Category>>, set<Link>, set<Link>)
      reads this
    {
      (notes, tags, categories, noteTags, noteCategories)
    }

    constructor ()
      ensures Valid()
      ensures notes == map[] && tags == map[] && categories == map[]
      ensures noteTags == {} && noteCategories == {}
    {
      notes, tags, categories := map[], map[], map[];
      noteTags, noteCategories := {}, {};
    }

    /** `getNoteById` */
    method GetNoteById(id: Id) returns (r: Option<Note>)
      ensures r.Some? <==> id in notes
      ensures r.Some? ==> r.value == notes[id].value
    {
      r := if id in notes then Some(notes[id].value) else None;
    }

    method GetTagById(id: Id) returns (r: Option<Tag>)
      ensures r.Some? <==> id in tags
      ensures r.Some? ==> r.value == tags[id].value
    {
      r := if id in tags then Some(tags[id].value) else None;
    }

    method GetCategoryById(id: Id) returns (r: Option<Category>)
      ensures r.Some? <==> id in categories
      ensures r.Some? ==> r.value == categories[id].value
    {
      r := if id in categories then Some(categories[id].value) else None;
    }

    /** `upsertNote`: read the stored row, reject a strictly older write,
        otherwise update in place or insert, then read the row back. */
    method UpsertNote(n: Note) returns (r: Option<Note>)
      requires Valid()
      modifies this
      ensures Valid()
      ensures notes == NoteUpsert(old(notes), n).rows
      ensures r == NoteUpsert(old(notes), n).stored
      ensures tags == old(tags) && categories == old(categories)
      ensures noteTags == old(noteTags) && noteCategories == old(noteCategories)
    {
      NoteUpsertPreservesValid(notes, n);
      var existing := GetNoteById(n.id);
      if existing.Some? {
        if n.updatedAt < existing.value.updatedAt {
          return None;
        }
        var version := notes[n.id].version;
        notes := notes[n.id := Row(Note(n.id, StoredTitle(n.title), n.content, existing.value.createdAt, n.updatedAt),
                                   version + 1)];
      } else {
        notes := notes[n.id := Row(Note(n.id, StoredTitle(n.title), n.content, n.createdAt, n.updatedAt), 1)];
      }
      r := GetNoteById(n.id);
    }

    method UpsertTag(t: Tag) returns (r: Option<Tag>)
      requires Valid()
      modifies this
      ensures Valid()
      ensures tags == TagUpsert(old(tags), t).rows
      ensures r == TagUpsert(old(tags), t).stored
      ensures notes == old(notes) && categories == old(categories)
      ensures noteTags == old(noteTags) && noteCategories == old(noteCategories)
    {
      TagUpsertPreservesValid(tags, t);
      var existing := GetTagById(t.id);
      if existing.Some? {
        if t.updatedAt < existing.value.updatedAt {
          return None;
        }
        var version := tags[t.id].version;
        tags := tags[t.id := Row(Tag(t.id, t.name, existing.value.createdAt, t.updatedAt), version + 1)];
      } else {
        tags := tags[t.id := Row(t, 1)];
      }
      r := GetTagById(t.id);
    }

    method UpsertCategory(c: Category) returns (r: Option<Category>)
      requires Valid()
      modifies this
      ensures Valid()
      ensures categories == TagUpsert(old(categories), c).rows
      ensures r == TagUpsert(old(categories), c).stored
      ensures notes == old(notes) && tags == old(tags)
      ensures noteTags == old(noteTags) && noteCategories == old(noteCategories)
    {
      TagUpsertPreservesValid(categories, c);
      var existing := GetCategoryById(c.id);
      if existing.Some? {
        if c.updatedAt < existing.value.updatedAt {
          return None;
        }
        var version := categories[c.id].version;
        categories := categories[c.id := Row(Tag(c.id, c.name, existing.value.createdAt, c.updatedAt), version + 1)];
      } else {
        categories := categories[c.id := Row(c, 1)];
      }
      r := GetCategoryById(c.id);
    }

    /** `deleteNote`: true iff a row was removed; the relation rows that
        reference the note go with it. */
    method DeleteNote(id: Id) returns (removed: bool)
      requires Valid()
      modifies this
      ensures Valid()
      ensures removed == (id in old(notes))
      ensures notes == old(notes) - {id} && id !in notes
      ensures noteTags == LinksWithoutNote(old(noteTags), id)
      ensures noteCategories == LinksWithoutNote(old(noteCategories), id)
      ensures tags == old(tags) && categories == old(categories)
    {
      removed := id in notes;
      notes := notes - {id};
      noteTags := LinksWithoutNote(noteTags, id);
      noteCategories := LinksWithoutNote(noteCategories, id);
    }

    method DeleteTag(id: Id) returns (removed: bool)
      requires Valid()
      modifies this
      ensures Valid()
      ensures removed == (id in old(tags))
      ensures tags == old(tags) - {id} && id !in tags
      ensures noteTags == LinksWithoutTarget(old(noteTags), id)
      ensures notes == old(notes) && categories == old(categories) && noteCategories == old(noteCategories)
    {
      removed := id in tags;
      tags := tags - {id};
      noteTags := LinksWithoutTarget(noteTags, id);
    }

    method DeleteCategory(id: Id) returns (removed: bool)
      requires Valid()
      modifies this
      ensures Valid()
      ensures removed == (id in old(categories))
      ensures categories == old(categories) - {id} && id !in categories
      ensures noteCategories == LinksWithoutTarget(old(noteCategories), id)
      ensures notes == old(notes) && tags == old(tags) && noteTags == old(noteTags)
    {
      removed := id in categories;
      categories := categories - {id};
      noteCategories := LinksWithoutTarget(noteCategories, id);
    }

    /** `INSERT OR IGNORE` under foreign-key enforcement (better-sqlite3
        turns it on for every connection): a pair already present is
        ignored, a new pair naming a missing note or tag makes the statement
        throw, and any other pair is added. A call that returns reports
        true. */
    method LinkNoteTag(noteId: Id, tagId: Id) returns (r: Result<bool>)
      modifies this`noteTags
      ensures old(Valid()) ==> Valid()
      ensures r.Ok? <==> Link(noteId, tagId) in old(noteTags) || (noteId in notes && tagId in tags)
      ensures r.Ok? ==> r.value && noteTags == old(noteTags) + {Link(noteId, tagId)}
      ensures r.Err? ==> r.error == ForeignKeyFailed && noteTags == old(noteTags)
    {
      if Link(noteId, tagId) in noteTags || (noteId in notes && tagId in tags) {
        noteTags := noteTags + {Link(noteId, tagId)};
        r := Ok(true);
      } else {
        r := Err(ForeignKeyFailed);
      }
    }

    /** True iff the pair was present. */
    method UnlinkNoteTag(noteId: Id, tagId: Id) returns (removed: bool)
      modifies this`noteTags
      ensures removed == (Link(noteId, tagId) in old(noteTags))
      ensures noteTags == old(noteTags) - {Link(noteId, tagId)}
    {
      removed := Link(noteId, tagId) in noteTags;
      noteTags := noteTags - {Link(noteId, tagId)};
    }

    method LinkNoteCategory(noteId: Id, categoryId: Id) returns (r: Result<bool>)
      modifies this`noteCategories
      ensures old(Valid()) ==> Valid()
      ensures r.Ok? <==> Link(noteId, categoryId) in old(noteCategories) || (noteId in notes && categoryId in categories)
      ensures r.Ok? ==> r.value && noteCategories == old(noteCategories) + {Link(noteId, categoryId)}
      ensures r.Err? ==> r.error == ForeignKeyFailed && noteCategories == old(noteCategories)
    {
      if Link(noteId, categoryId) in noteCategories || (noteId in notes && categoryId in categories) {
        noteCategories := noteCategories + {Link(noteId, categoryId)};
        r := Ok(true);
      } else {
        r := Err(ForeignKeyFailed);
      }
    }

    method UnlinkNoteCategory(noteId: Id, categoryId: Id) returns (removed: bool)
      modifies this`noteCategories
      ensures removed == (Link(noteId, categoryId) in old(noteCategories))
      ensures noteCategories == old(noteCategories) - {Link(noteId, categoryId)}
    {
      removed := Link(noteId, categoryId) in noteCategories;
      noteCategories := noteCategories - {Link(noteId, categoryId)};
    }

    /** `getAllNotes`: every stored note once, newest first. */
    method GetAllNotes() returns (r: seq<Note>)
      requires Valid()
      ensures Descending(r, (n: Note) => n.updatedAt)
      ensures multiset(r) == multiset(Entities(notes))
      ensures |r| == |notes|
    {
      r := NewestFirst(notes, (n: Note) => n.id, (n: Note) => n.updatedAt);
    }

    method GetAllTags() returns (r: seq<Tag>)
      requires Valid()
      ensures Descending(r, (t: Tag) => t.updatedAt)
      ensures multiset(r) == multiset(Entities(tags))
      ensures |r| == |tags|
    {
      r := NewestFirst(tags, (t: Tag) => t.id, (t: Tag) => t.updatedAt);
    }

    method GetAllCategories() returns (r: seq<Category>)
      requires Valid()
      ensures Descending(r, (c: Category) => c.updatedAt)
      ensures multiset(r) == multiset(Entities(categories))
      ensures |r| == |categories|
    {
      r := NewestFirst(categories, (c: Category) => c.id, (c: Category) => c.updatedAt);
    }

    /** `syncNotes`: upsert each client note in order, then return all stored
        notes; the stored ids become the union of both sides. */
    method SyncNotes(clientNotes: seq<Note>) returns (all: seq<Note>)
      requires Valid()
      modifies this
      ensures Valid()
      ensures notes == UpsertAll(old(notes), clientNotes)
      ensures notes.Keys == old(notes).Keys + set i | 0 <= i < |clientNotes| :: clientNotes[i].id
      ensures Descending(all, (n: Note) => n.updatedAt)
      ensures multiset(all) == multiset(Entities(notes))
      ensures tags == old(tags) && categories == old(categories)
      ensures noteTags == old(noteTags) && noteCategories == old(noteCategories)
    {
      UpsertAllKeys(notes, clientNotes);
      var i := 0;
      while i < |clientNotes|
        invariant 0 <= i <= |clientNotes|
        invariant Valid()
        invariant UpsertAll(notes, clientNotes[i..]) == UpsertAll(old(notes), clientNotes)
        invariant tags == old(tags) && categories == old(categories)
        invariant noteTags == old(noteTags) && noteCategories == old(noteCategories)
      {
        assert clientNotes[i..][1..] == clientNotes[i + 1..];
        var _ := UpsertNote(clientNotes[i]);
        i := i + 1;
      }
      all := GetAllNotes();
    }

    /** `getNormalizedPayload`: the three tables newest first and both
        relation tables in full. */
    method GetNormalizedPayload() returns (p: NormalizedPayload)
      requires Valid()
      ensures multiset(p.notes) == multiset(Entities(notes)) && Descending(p.notes, (n: Note) => n.updatedAt)
      ensures multiset(p.tags) == multiset(Entities(tags)) && Descending(p.tags, (t: Tag) => t.updatedAt)
      ensures multiset(p.categories) == multiset(Entities(categories))
      ensures Descending(p.categories, (c: Category) => c.updatedAt)
      ensures multiset(p.noteTags) == multiset(noteTags)
      ensures multiset(p.noteCategories) == multiset(noteCategories)
    {
      var ns := GetAllNotes();
      var ts := GetAllTags();
      var cs := GetAllCategories();
      var nt := Enumerate(noteTags);
      var nc := Enumerate(noteCategories);
      p := NormalizedPayload(ns, ts, cs, nt, nc);
    }

    /** `getTagsForNote`: the inner join of note_tags with tags; a pair whose
        tag row is gone contributes nothing. */
    function TagsForNote(noteId: Id): (r: set<Tag>)
      reads this
      requires Valid()
      ensures forall t :: t in r <==> t.id in tags && tags[t.id].value == t && Link(noteId, t.id) in noteTags
    {
      set l | l in noteTags && l.noteId == noteId && l.targetId in tags :: tags[l.targetId].value
    }

    function CategoriesForNote(noteId: Id): (r: set<Category>)
      reads this
      requires Valid()
      ensures forall c :: c in r <==>
        c.id in categories && categories[c.id].value == c && Link(noteId, c.id) in noteCategories
    {
      set l | l in noteCategories && l.noteId == noteId && l.targetId in categories :: categories[l.targetId].value
    }

    function NotesByTag(tagId: Id): (r: set<Note>)
      reads this
      requires Valid()
      ensures forall n :: n in r <==> n.id in notes && notes[n.id].value == n && Link(n.id, tagId) in noteTags
    {
      set l | l in noteTags && l.targetId == tagId && l.noteId in notes :: notes[l.noteId].value
    }

    function NotesByCategory(categoryId: Id): (r: set<Note>)
      reads this
      requires Valid()
      ensures forall n :: n in r <==>
        n.id in notes && notes[n.id].value == n && Link(n.id, categoryId) in noteCategories
    {
      set l | l in noteCategories && l.targetId == categoryId && l.noteId in notes :: notes[l.noteId].value
    }
  }
}
