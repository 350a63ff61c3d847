/** The client's in-memory store of notes, tags, categories and the per-note
    relation lists. Each action first writes through to the local database
    and then replaces the store's state by a new state computed from the old
    one; those state transformers are the pure functions below. */
module NotesStore {
  import opened Util
  import opened Protocol
  import opened LocalDb

  datatype State = State(
    notesById: map<Id, Note>,
    noteIds: seq<Id>,
    tagsById: map<Id, Tag>,
    tagIds: seq<Id>,
    categoriesById: map<Id, Category>,
    categoryIds: seq<Id>,
    noteTags: map<Id, seq<Id>>,
    noteCategories: map<Id, seq<Id>>)

  const Empty := State(map[], [], map[], [], map[], [], map[], map[])

  /** An id list lists exactly the keys of its map, each once. */
  ghost predicate Indexes<T>(ids: seq<Id>, byId: map<Id, T>) {
    NoDuplicates(ids) && forall id :: id in ids <==> id in byId
  }

  /** Every entity is stored under its own id, and every id list indexes
      its map. */
  ghost predicate Coherent(s: State) {
    (forall k | k in s.notesById :: s.notesById[k].id == k) && Keyed(s.tagsById) && Keyed(s.categoriesById)
    && Indexes(s.noteIds, s.notesById) && Indexes(s.tagIds, s.tagsById) && Indexes(s.categoryIds, s.categoriesById)
  }

  /** `[id, ...ids]` unless `ids.includes(id)` */
  function PrependIfAbsent(ids: seq<Id>, id: Id): (r: seq<Id>)
    ensures id in r && forall x :: x in r <==> x in ids || x == id
    ensures NoDuplicates(ids) ==> NoDuplicates(r)
  {
    if id in ids then ids else [id] + ids
  }

  /** The list stored for a key, or `[]` (`record[key] || []`). */
  function ListOf(m: map<Id, seq<Id>>, key: Id): seq<Id> {
    if key in m then m[key] else []
  }

  /** `create` and `upsert`: overwrite by id without comparing timestamps;
      the id is prepended to the list only if it is new. */
  function PutNote(s: State, n: Note): (r: State)
    ensures r.notesById.Keys == s.notesById.Keys + {n.id} && r.notesById[n.id] == n
    ensures forall x :: x in r.noteIds <==> x in s.noteIds || x == n.id
    ensures r.noteTags == s.noteTags && r.noteCategories == s.noteCategories
  {
    s.(notesById := s.notesById[n.id := n], noteIds := PrependIfAbsent(s.noteIds, n.id))
  }

  /** `remove`: the note leaves the map, the list and both relation maps. */
  function RemoveNote(s: State, id: Id): (r: State)
    ensures r.notesById.Keys == s.notesById.Keys - {id}
    ensures forall x :: x in r.noteIds <==> x in s.noteIds && x != id
    ensures r.noteTags.Keys == s.noteTags.Keys - {id} && r.noteCategories.Keys == s.noteCategories.Keys - {id}
  {
    s.(notesById := s.notesById - {id}, noteIds := Without(s.noteIds, id),
       noteTags := s.noteTags - {id}, noteCategories := s.noteCategories - {id})
  }

  /** `addTag` and `upsertTag` */
  function PutTag(s: State, t: Tag): (r: State)
    ensures r.tagsById.Keys == s.tagsById.Keys + {t.id} && r.tagsById[t.id] == t
    ensures forall x :: x in r.tagIds <==> x in s.tagIds || x == t.id
    ensures r.noteTags == s.noteTags && r.notesById == s.notesById
  {
    s.(tagsById := s.tagsById[t.id := t], tagIds := PrependIfAbsent(s.tagIds, t.id))
  }

  /** Filter one id out of every list of a relation map. */
  function FilterAll(m: map<Id, seq<Id>>, id: Id): (r: map<Id, seq<Id>>)
    ensures r.Keys == m.Keys
    ensures forall k | k in r :: r[k] == Without(m[k], id)
  {
    map k | k in m :: Without(m[k], id)
  }

  /** `removeTag`: the tag leaves the map, the list and every note's list. */
  function DropTag(s: State, id: Id): (r: State)
    ensures r.tagsById.Keys == s.tagsById.Keys - {id}
    ensures forall x :: x in r.tagIds <==> x in s.tagIds && x != id
    ensures r.noteTags.Keys == s.noteTags.Keys && forall k | k in r.noteTags :: id !in r.noteTags[k]
  {
    s.(tagsById := s.tagsById - {id}, tagIds := Without(s.tagIds, id), noteTags := FilterAll(s.noteTags, id))
  }

  function PutCategory(s: State, c: Category): (r: State)
    ensures r.categoriesById.Keys == s.categoriesById.Keys + {c.id} && r.categoriesById[c.id] == c
    ensures forall x :: x in r.categoryIds <==> x in s.categoryIds || x == c.id
    ensures r.noteCategories == s.noteCategories && r.notesById == s.notesById
  {
    s.(categoriesById := s.categoriesById[c.id := c], categoryIds := PrependIfAbsent(s.categoryIds, c.id))
  }

  function DropCategory(s: State, id: Id): (r: State)
    ensures r.categoriesById.Keys == s.categoriesById.Keys - {id}
    ensures forall x :: x in r.categoryIds <==> x in s.categoryIds && x != id
    ensures r.noteCategories.Keys == s.noteCategories.Keys && forall k | k in r.noteCategories :: id !in r.noteCategories[k]
  {
    s.(categoriesById := s.categoriesById - {id}, categoryIds := Without(s.categoryIds, id),
       noteCategories := FilterAll(s.noteCategories, id))
  }

  /** Prepend a target to a note's list unless it is already there. */
  function LinkIn(m: map<Id, seq<Id>>, noteId: Id, targetId: Id): (r: map<Id, seq<Id>>)
    ensures targetId in ListOf(r, noteId)
    ensures forall k | k != noteId :: ListOf(r, k) == ListOf(m, k)
  {
    var current := ListOf(m, noteId);
    if targetId in current then m else m[noteId := [targetId] + current]
  }

  /** Filter a target out of a note's list (the entry is created, empty, if
      the note had none). */
  function UnlinkIn(m: map<Id, seq<Id>>, noteId: Id, targetId: Id): (r: map<Id, seq<Id>>)
    ensures noteId in r && targetId !in r[noteId]
    ensures forall k | k != noteId :: ListOf(r, k) == ListOf(m, k)
  {
    m[noteId := Without(ListOf(m, noteId), targetId)]
  }

  function LinkTag(s: State, noteId: Id, tagId: Id): State {
    s.(noteTags := LinkIn(s.noteTags, noteId, tagId))
  }

  function UnlinkTag(s: State, noteId: Id, tagId: Id): State {
    s.(noteTags := UnlinkIn(s.noteTags, noteId, tagId))
  }

  function LinkCategory(s: State, noteId: Id, categoryId: Id): State {
    s.(noteCategories := LinkIn(s.noteCategories, noteId, categoryId))
  }

  function UnlinkCategory(s: State, noteId: Id, categoryId: Id): State {
    s.(noteCategories := UnlinkIn(s.noteCategories, noteId, categoryId))
  }

  /** `getTagsForNote`: the stored tags of the note's list, with ids that
      have no tag dropped, in list order. */
  function TagsForNote(s: State, noteId: Id): (r: seq<Tag>)
    ensures forall t :: t in r <==> exists i | 0 <= i < |ListOf(s.noteTags, noteId)| ::
      ListOf(s.noteTags, noteId)[i] in s.tagsById && s.tagsById[ListOf(s.noteTags, noteId)[i]] == t
  {
    var r := Resolved(ListOf(s.noteTags, noteId), s.tagsById);
    assert forall t :: t in r <==> exists i | 0 <= i < |ListOf(s.noteTags, noteId)| ::
      ListOf(s.noteTags, noteId)[i] in s.tagsById && s.tagsById[ListOf(s.noteTags, noteId)[i]] == t by {
      forall t { ResolvedMembership(ListOf(s.noteTags, noteId), s.tagsById, t); }
    }
    r
  }

  function CategoriesForNote(s: State, noteId: Id): (r: seq<Category>)
    ensures forall c :: c in r <==> exists i | 0 <= i < |ListOf(s.noteCategories, noteId)| ::
      ListOf(s.noteCategories, noteId)[i] in s.categoriesById
      && s.categoriesById[ListOf(s.noteCategories, noteId)[i]] == c
  {
    var r := Resolved(ListOf(s.noteCategories, noteId), s.categoriesById);
    assert forall c :: c in r <==> exists i | 0 <= i < |ListOf(s.noteCategories, noteId)| ::
      ListOf(s.noteCategories, noteId)[i] in s.categoriesById
      && s.categoriesById[ListOf(s.noteCategories, noteId)[i]] == c by {
      forall c { ResolvedMembership(ListOf(s.noteCategories, noteId), s.categoriesById, c); }
    }
    r
  }

  /** `getNotesByTag`: the stored notes whose tag list contains the tag. The
      result's order (that of the relation map's keys) is not modelled. */
  function NotesByTag(s: State, tagId: Id): (r: set<Note>)
    ensures forall n :: n in r <==>
      exists nid | nid in s.noteTags :: tagId in s.noteTags[nid] && nid in s.notesById && s.notesById[nid] == n
  {
    set nid | nid in s.noteTags && tagId in s.noteTags[nid] && nid in s.notesById :: s.notesById[nid]
  }

  function NotesByCategory(s: State, categoryId: Id): (r: set<Note>)
    ensures forall n :: n in r <==>
      exists nid | nid in s.noteCategories ::
        categoryId in s.noteCategories[nid] && nid in s.notesById && s.notesById[nid] == n
  {
    set nid | nid in s.noteCategories && categoryId in s.noteCategories[nid] && nid in s.notesById
      :: s.notesById[nid]
  }

  /** Upserting a note stores exactly it, keeps the lists coherent and, for
      an id already listed, leaves the list as it was. */
  lemma PutNoteSpec(s: State, n: Note)
    requires Coherent(s)
    ensures Coherent(PutNote(s, n))
    ensures PutNote(s, n).notesById[n.id] == n
    ensures n.id in s.notesById ==> PutNote(s, n).noteIds == s.noteIds
    ensures n.id !in s.notesById ==> PutNote(s, n).noteIds == [n.id] + s.noteIds
  {
  }

  /** Removing a note removes it everywhere and keeps every other entry. */
  lemma RemoveNoteSpec(s: State, id: Id)
    requires Coherent(s)
    ensures Coherent(RemoveNote(s, id))
    ensures id !in RemoveNote(s, id).notesById && id !in RemoveNote(s, id).noteIds
    ensures id !in RemoveNote(s, id).noteTags && id !in RemoveNote(s, id).noteCategories
    ensures forall k | k in s.notesById && k != id :: RemoveNote(s, id).notesById[k] == s.notesById[k]
    ensures forall k | k in s.noteTags && k != id :: RemoveNote(s, id).noteTags[k] == s.noteTags[k]
  {
    WithoutKeepsNoDuplicates(s.noteIds, id);
  }

  /** Removing a tag takes it out of every note's list and nothing else. */
  lemma RemoveTagSpec(s: State, id: Id)
    requires Coherent(s)
    ensures Coherent(DropTag(s, id))
    ensures id !in DropTag(s, id).tagsById && id !in DropTag(s, id).tagIds
    ensures DropTag(s, id).noteTags.Keys == s.noteTags.Keys
    ensures forall nid, x | nid in s.noteTags ::
      x in DropTag(s, id).noteTags[nid] <==> x in s.noteTags[nid] && x != id
    ensures DropTag(s, id).noteCategories == s.noteCategories
  {
    WithoutKeepsNoDuplicates(s.tagIds, id);
  }

  lemma RemoveCategorySpec(s: State, id: Id)
    requires Coherent(s)
    ensures Coherent(DropCategory(s, id))
    ensures id !in DropCategory(s, id).categoriesById && id !in DropCategory(s, id).categoryIds
    ensures DropCategory(s, id).noteCategories.Keys == s.noteCategories.Keys
    ensures forall nid, x | nid in s.noteCategories ::
      x in DropCategory(s, id).noteCategories[nid] <==> x in s.noteCategories[nid] && x != id
    ensures DropCategory(s, id).noteTags == s.noteTags
  {
    WithoutKeepsNoDuplicates(s.categoryIds, id);
  }

  lemma PutTagSpec(s: State, t: Tag)
    requires Coherent(s)
    ensures Coherent(PutTag(s, t)) && PutTag(s, t).tagsById[t.id] == t
  {
  }

  lemma PutCategorySpec(s: State, c: Category)
    requires Coherent(s)
    ensures Coherent(PutCategory(s, c)) && PutCategory(s, c).categoriesById[c.id] == c
  {
  }

  /** Linking is idempotent, adds the target to that note's list only, and
      keeps a duplicate-free list duplicate-free. */
  lemma LinkSpec(m: map<Id, seq<Id>>, noteId: Id, targetId: Id)
    ensures LinkIn(LinkIn(m, noteId, targetId), noteId, targetId) == LinkIn(m, noteId, targetId)
    ensures targetId in ListOf(LinkIn(m, noteId, targetId), noteId)
    ensures forall x :: x in ListOf(LinkIn(m, noteId, targetId), noteId) <==> x in ListOf(m, noteId) || x == targetId
    ensures forall k | k in m && k != noteId :: k in LinkIn(m, noteId, targetId) && LinkIn(m, noteId, targetId)[k] == m[k]
    ensures NoDuplicates(ListOf(m, noteId)) ==> NoDuplicates(ListOf(LinkIn(m, noteId, targetId), noteId))
  {
    var once := LinkIn(m, noteId, targetId);
    assert targetId in ListOf(once, noteId);
  }

  /** Unlinking removes only that target from only that note's list. */
  lemma UnlinkSpec(m: map<Id, seq<Id>>, noteId: Id, targetId: Id)
    ensures forall x :: x in ListOf(UnlinkIn(m, noteId, targetId), noteId) <==> x in ListOf(m, noteId) && x != targetId
    ensures forall k | k in m && k != noteId :: k in UnlinkIn(m, noteId, targetId) && UnlinkIn(m, noteId, targetId)[k] == m[k]
    ensures NoDuplicates(ListOf(m, noteId)) ==> NoDuplicates(ListOf(UnlinkIn(m, noteId, targetId), noteId))
  {
    if NoDuplicates(ListOf(m, noteId)) {
      WithoutKeepsNoDuplicates(ListOf(m, noteId), targetId);
    }
  }

  /** A tag that has been removed is never among a note's tags any more. */
  lemma RemovedTagNotListed(s: State, id: Id, noteId: Id)
    ensures forall t | t in TagsForNote(DropTag(s, id), noteId) :: t.id != id || t in s.tagsById.Values
    ensures id !in ListOf(DropTag(s, id).noteTags, noteId)
  {
  }

  /** The store: its state and the local database it writes through to. */
  class Store {
    const db: NoteDb
    var state: State

    ghost predicate Valid()
      reads this, db
    {
      db.Valid() && Coherent(state)
    }

    constructor (d: NoteDb)
      requires d.Valid()
      ensures Valid() && db == d && state == Empty
    {
      db := d;
      state := Empty;
    }

    /** `reload`: rebuild the note map and list from the database. */
    method Reload()
      requires Valid()
      modifies this
      ensures Valid()
      ensures state.notesById == db.notes
      ensures state == old(state).(notesById := state.notesById, noteIds := state.noteIds)
    {
      var notes := db.GetAllNotes();
      var byId, ids := Index(notes, (n: Note) => n.id);
      KeyedIndex(notes, byId, ids, db.notes, (n: Note) => n.id);
      state := state.(notesById := byId, noteIds := ids);
    }

    method ReloadTags()
      requires Valid()
      modifies this
      ensures Valid()
      ensures state.tagsById == db.tags
      ensures state == old(state).(tagsById := state.tagsById, tagIds := state.tagIds)
    {
      var tags := db.GetAllTags();
      var byId, ids := Index(tags, (t: Tag) => t.id);
      KeyedIndex(tags, byId, ids, db.tags, (t: Tag) => t.id);
      state := state.(tagsById := byId, tagIds := ids);
    }

    method ReloadCategories()
      requires Valid()
      modifies this
      ensures Valid()
      ensures state.categoriesById == db.categories
      ensures state == old(state).(categoriesById := state.categoriesById, categoryIds := state.categoryIds)
    {
      var cats := db.GetAllCategories();
      var byId, ids := Index(cats, (c: Category) => c.id);
      KeyedIndex(cats, byId, ids, db.categories, (c: Category) => c.id);
      state := state.(categoriesById := byId, categoryIds := ids);
    }

    /** `reloadRelations`: for every listed note, its tag and category ids as
        the database links them to existing entities. */
    method ReloadRelations()
      requires Valid()
      modifies this
      ensures Valid()
      ensures forall nid :: nid in state.noteTags <==> nid in state.noteIds
      ensures forall nid :: nid in state.noteCategories <==> nid in state.noteIds
      ensures forall nid, tid | nid in state.noteTags ::
        tid in state.noteTags[nid] <==> tid in db.tags && Link(nid, tid) in db.noteTags
      ensures forall nid, cid | nid in state.noteCategories ::
        cid in state.noteCategories[nid] <==> cid in db.categories && Link(nid, cid) in db.noteCategories
      ensures state == old(state).(noteTags := state.noteTags, noteCategories := state.noteCategories)
    {
      var noteTags := TagLists(state.noteIds);
      var noteCategories := CategoryLists(state.noteIds);
      state := state.(noteTags := noteTags, noteCategories := noteCategories);
    }

    /** The tag half of the `reloadRelations` loop. */
    method TagLists(noteIds: seq<Id>) returns (m: map<Id, seq<Id>>)
      requires db.Valid()
      ensures forall nid :: nid in m <==> nid in noteIds
      ensures forall nid, tid | nid in m :: tid in m[nid] <==> tid in db.tags && Link(nid, tid) in db.noteTags
    {
      m := map[];
      var i := 0;
      while i < |noteIds|
        invariant 0 <= i <= |noteIds|
        invariant forall nid :: nid in m <==> nid in noteIds[..i]
        invariant forall nid, tid | nid in m :: tid in m[nid] <==> tid in db.tags && Link(nid, tid) in db.noteTags
      {
        var tags := db.GetTagsForNote(noteIds[i]);
        LinkedIds(tags, db.tags, db.noteTags, noteIds[i]);
        m := m[noteIds[i] := TagIdsOf(tags)];
        assert noteIds[..i + 1] == noteIds[..i] + [noteIds[i]];
        i := i + 1;
      }
      assert noteIds[..i] == noteIds;
    }

    /** The category half of the `reloadRelations` loop. */
    method CategoryLists(noteIds: seq<Id>) returns (m: map<Id, seq<Id>>)
      requires db.Valid()
      ensures forall nid :: nid in m <==> nid in noteIds
      ensures forall nid, cid | nid in m ::
        cid in m[nid] <==> cid in db.categories && Link(nid, cid) in db.noteCategories
    {
      m := map[];
      var i := 0;
      while i < |noteIds|
        invariant 0 <= i <= |noteIds|
        invariant forall nid :: nid in m <==> nid in noteIds[..i]
        invariant forall nid, cid | nid in m ::
          cid in m[nid] <==> cid in db.categories && Link(nid, cid) in db.noteCategories
      {
        var cats := db.GetCategoriesForNote(noteIds[i]);
        LinkedIds(cats, db.categories, db.noteCategories, noteIds[i]);
        m := m[noteIds[i] := TagIdsOf(cats)];
        assert noteIds[..i + 1] == noteIds[..i] + [noteIds[i]];
        i := i + 1;
      }
      assert noteIds[..i] == noteIds;
    }

    /** `create`: write through, store the note, return it. */
    method Create(n: Note) returns (r: Note)
      requires Valid()
      modifies this, db`notes
      ensures Valid() && r == n
      ensures db.notes == old(db.notes)[n.id := n]
      ensures state == PutNote(old(state), n)
      ensures db.tags == old(db.tags) && db.categories == old(db.categories)
      ensures db.noteTags == old(db.noteTags) && db.noteCategories == old(db.noteCategories)
    {
      db.UpsertNote(n);
      PutNoteSpec(state, n);
      state := PutNote(state, n);
      r := n;
    }

    method Upsert(n: Note)
      requires Valid()
      modifies this, db`notes
      ensures Valid()
      ensures db.notes == old(db.notes)[n.id := n]
      ensures state == PutNote(old(state), n)
      ensures db.tags == old(db.tags) && db.categories == old(db.categories)
      ensures db.noteTags == old(db.noteTags) && db.noteCategories == old(db.noteCategories)
    {
      db.UpsertNote(n);
      PutNoteSpec(state, n);
      state := PutNote(state, n);
    }

    method Remove(id: Id)
      requires Valid()
      modifies this, db
      ensures Valid()
      ensures db.notes == old(db.notes) - {id}
      ensures db.noteTags == LinksWithoutNote(old(db.noteTags), id)
      ensures db.noteCategories == LinksWithoutNote(old(db.noteCategories), id)
      ensures state == RemoveNote(old(state), id)
      ensures db.tags == old(db.tags) && db.categories == old(db.categories)
    {
      db.DeleteNote(id);
      RemoveNoteSpec(state, id);
      state := RemoveNote(state, id);
    }

    method AddTag(t: Tag)
      requires Valid()
      modifies this, db`tags
      ensures Valid()
      ensures db.tags == old(db.tags)[t.id := t]
      ensures state == PutTag(old(state), t)
      ensures db.notes == old(db.notes) && db.categories == old(db.categories)
      ensures db.noteTags == old(db.noteTags) && db.noteCategories == old(db.noteCategories)
    {
      db.UpsertTag(t);
      PutTagSpec(state, t);
      state := PutTag(state, t);
    }

    method UpsertTag(t: Tag)
      requires Valid()
      modifies this, db`tags
      ensures Valid()
      ensures db.tags == old(db.tags)[t.id := t]
      ensures state == PutTag(old(state), t)
      ensures db.notes == old(db.notes) && db.categories == old(db.categories)
      ensures db.noteTags == old(db.noteTags) && db.noteCategories == old(db.noteCategories)
    {
      db.UpsertTag(t);
      PutTagSpec(state, t);
      state := PutTag(state, t);
    }

    method RemoveTag(id: Id)
      requires Valid()
      modifies this, db
      ensures Valid()
      ensures db.tags == old(db.tags) - {id}
      ensures db.noteTags == LinksWithoutTarget(old(db.noteTags), id)
      ensures state == DropTag(old(state), id)
      ensures db.notes == old(db.notes)
      ensures db.categories == old(db.categories) && db.noteCategories == old(db.noteCategories)
    {
      db.DeleteTag(id);
      RemoveTagSpec(state, id);
      state := DropTag(state, id);
    }

    method AddCategory(c: Category)
      requires Valid()
      modifies this, db`categories
      ensures Valid()
      ensures db.categories == old(db.categories)[c.id := c]
      ensures state == PutCategory(old(state), c)
      ensures db.notes == old(db.notes) && db.tags == old(db.tags)
      ensures db.noteTags == old(db.noteTags) && db.noteCategories == old(db.noteCategories)
    {
      db.UpsertCategory(c);
      PutCategorySpec(state, c);
      state := PutCategory(state, c);
    }

    method UpsertCategory(c: Category)
      requires Valid()
      modifies this, db`categories
      ensures Valid()
      ensures db.categories == old(db.categories)[c.id := c]
      ensures state == PutCategory(old(state), c)
      ensures db.notes == old(db.notes) && db.tags == old(db.tags)
      ensures db.noteTags == old(db.noteTags) && db.noteCategories == old(db.noteCategories)
    {
      db.UpsertCategory(c);
      PutCategorySpec(state, c);
      state := PutCategory(state, c);
    }

    method RemoveCategory(id: Id)
      requires Valid()
      modifies this, db
      ensures Valid()
      ensures db.categories == old(db.categories) - {id}
      ensures db.noteCategories == LinksWithoutTarget(old(db.noteCategories), id)
      ensures state == DropCategory(old(state), id)
      ensures db.notes == old(db.notes) && db.tags == old(db.tags) && db.noteTags == old(db.noteTags)
    {
      db.DeleteCategory(id);
      RemoveCategorySpec(state, id);
      state := DropCategory(state, id);
    }

    method LinkNoteTag(noteId: Id, tagId: Id)
      requires Valid()
      modifies this, db`noteTags
      ensures Valid()
      ensures db.noteTags == old(db.noteTags) + {Link(noteId, tagId)}
      ensures state == LinkTag(old(state), noteId, tagId)
      ensures db.notes == old(db.notes) && db.tags == old(db.tags)
      ensures db.categories == old(db.categories) && db.noteCategories == old(db.noteCategories)
    {
      db.LinkNoteTag(noteId, tagId);
      state := LinkTag(state, noteId, tagId);
    }

    method UnlinkNoteTag(noteId: Id, tagId: Id)
      requires Valid()
      modifies this, db`noteTags
      ensures Valid()
      ensures db.noteTags == old(db.noteTags) - {Link(noteId, tagId)}
      ensures state == UnlinkTag(old(state), noteId, tagId)
      ensures db.notes == old(db.notes) && db.tags == old(db.tags)
      ensures db.categories == old(db.categories) && db.noteCategories == old(db.noteCategories)
    {
      db.UnlinkNoteTag(noteId, tagId);
      state := UnlinkTag(state, noteId, tagId);
    }

    method LinkNoteCategory(noteId: Id, categoryId: Id)
      requires Valid()
      modifies this, db`noteCategories
      ensures Valid()
      ensures db.noteCategories == old(db.noteCategories) + {Link(noteId, categoryId)}
      ensures state == LinkCategory(old(state), noteId, categoryId)
      ensures db.notes == old(db.notes) && db.tags == old(db.tags)
      ensures db.categories == old(db.categories) && db.noteTags == old(db.noteTags)
    {
      db.LinkNoteCategory(noteId, categoryId);
      state := LinkCategory(state, noteId, categoryId);
    }

    method UnlinkNoteCategory(noteId: Id, categoryId: Id)
      requires Valid()
      modifies this, db`noteCategories
      ensures Valid()
      ensures db.noteCategories == old(db.noteCategories) - {Link(noteId, categoryId)}
      ensures state == UnlinkCategory(old(state), noteId, categoryId)
      ensures db.notes == old(db.notes) && db.tags == old(db.tags)
      ensures db.categories == old(db.categories) && db.noteTags == old(db.noteTags)
    {
      db.UnlinkNoteCategory(noteId, categoryId);
      state := UnlinkCategory(state, noteId, categoryId);
    }
  }

  function TagIdsOf(ts: seq<Tag>): (r: seq<Id>)
    ensures |r| == |ts| && forall i | 0 <= i < |ts| :: r[i] == ts[i].id
    ensures forall x :: x in r <==> exists t | t in ts :: t.id == x
  {
    var r := seq(|ts|, i requires 0 <= i < |ts| => ts[i].id);
    assert forall x :: x in r <==> exists t | t in ts :: t.id == x by {
      forall x ensures x in r <==> exists t | t in ts :: t.id == x {
        if exists t | t in ts :: t.id == x {
          var t :| t in ts && t.id == x;
          var i :| 0 <= i < |ts| && ts[i] == t;
          assert r[i] == x;
        }
      }
    }
    r
  }

  /** The ids of the entities linked to a note are the linked ids that
      name an existing entity. */
  lemma LinkedIds(r: seq<Tag>, table: map<Id, Tag>, links: set<Link>, noteId: Id)
    requires Keyed(table)
    requires forall t :: t in r <==> t.id in table && table[t.id] == t && Link(noteId, t.id) in links
    ensures forall tid :: tid in TagIdsOf(r) <==> tid in table && Link(noteId, tid) in links
  {
    forall tid | tid in table && Link(noteId, tid) in links ensures tid in TagIdsOf(r) {
      assert table[tid] in r;
    }
  }

  /** The `for ... byId[n.id] = n; ids.push(n.id)` loop of `reload`, and
      its copies for tags and categories. */
  method Index<T>(items: seq<T>, idOf: T -> Id) returns (byId: map<Id, T>, ids: seq<Id>)
    ensures |ids| == |items| && forall i | 0 <= i < |items| :: ids[i] == idOf(items[i])
    ensures forall k :: k in byId <==> k in ids
    ensures forall k | k in byId :: exists i | 0 <= i < |items| :: idOf(items[i]) == k && byId[k] == items[i]
  {
    byId, ids := map[], [];
    var i := 0;
    while i < |items|
      invariant 0 <= i <= |items|
      invariant |ids| == i && forall j | 0 <= j < i :: ids[j] == idOf(items[j])
      invariant forall k :: k in byId <==> k in ids
      invariant forall k | k in byId :: exists j | 0 <= j < i :: idOf(items[j]) == k && byId[k] == items[j]
    {
      byId := byId[idOf(items[i]) := items[i]];
      ids := ids + [idOf(items[i])];
      i := i + 1;
    }
  }

  /** Every listed item is the table's entry for its own id. */
  lemma ItemsAreEntries<T>(items: seq<T>, table: map<Id, T>, idOf: T -> Id)
    requires forall k | k in table :: idOf(table[k]) == k
    requires multiset(items) == multiset(table.Values)
    ensures forall i | 0 <= i < |items| :: idOf(items[i]) in table && table[idOf(items[i])] == items[i]
  {
    forall i | 0 <= i < |items| ensures idOf(items[i]) in table && table[idOf(items[i])] == items[i] {
      assert items[i] in multiset(items);
      var k :| k in table && table[k] == items[i];
    }
  }

  /** Every entry of the table is listed. */
  lemma EntriesAreItems<T>(items: seq<T>, table: map<Id, T>)
    requires multiset(items) == multiset(table.Values)
    ensures forall k | k in table :: exists i | 0 <= i < |items| :: items[i] == table[k]
  {
    forall k | k in table ensures exists i | 0 <= i < |items| :: items[i] == table[k] {
      assert table[k] in table.Values;
      assert table[k] in multiset(items);
    }
  }

  /** Indexing every value of a table keyed by id once gives back the table
      and a duplicate-free list of its keys. */
  lemma KeyedIndex<T>(items: seq<T>, byId: map<Id, T>, ids: seq<Id>, table: map<Id, T>, idOf: T -> Id)
    requires forall k | k in table :: idOf(table[k]) == k
    requires multiset(items) == multiset(table.Values)
    requires |ids| == |items| && forall i | 0 <= i < |items| :: ids[i] == idOf(items[i])
    requires forall k :: k in byId <==> k in ids
    requires forall k | k in byId :: exists i | 0 <= i < |items| :: idOf(items[i]) == k && byId[k] == items[i]
    ensures byId == table
    ensures Indexes(ids, byId)
  {
    ItemsAreEntries(items, table, idOf);
    EntriesAreItems(items, table);
    forall k | k in table ensures k in byId {
      var i :| 0 <= i < |items| && items[i] == table[k];
      assert ids[i] == k;
    }
    forall k | k in byId ensures k in table && byId[k] == table[k] {
      var i :| 0 <= i < |items| && idOf(items[i]) == k && byId[k] == items[i];
    }
    forall i, j | 0 <= i < j < |ids| ensures ids[i] != ids[j] {
      if ids[i] == ids[j] {
        TwoOccurrences(items, i, j);
        assert false;
      }
    }
  }
}
