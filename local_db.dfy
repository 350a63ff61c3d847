/** The browser's local database: object stores for notes, tags and
    categories keyed by id, and two relation stores keyed by the
    `[noteId, targetId]` pair. `put` overwrites by key; the delete functions
    walk the relation rows found through an index and delete them one by
    one. */
module LocalDb {
  import opened Util
  import opened Protocol

  /** Each store keeps every value under its own `id` (the key path). */
  ghost predicate Keyed(m: map<Id, Tag>) {
    forall k | k in m :: m[k].id == k
  }

  class NoteDb {
    var notes: map<Id, Note>
    var tags: map<Id, Tag>
    var categories: map<Id, Category>
    var noteTags: set<Link>
    var noteCategories: set<Link>

    ghost predicate Valid()
      reads this
    {
      (forall k | k in notes :: notes[k].id == k) && Keyed(tags) && Keyed(categories)
    }

    constructor ()
      ensures Valid()
      ensures notes == map[] && tags == map[] && categories == map[]
      ensures noteTags == {} && noteCategories == {}
    {
      notes, tags, categories := map[], map[], map[];
      noteTags, noteCategories := {}, {};
    }

    /** `getAllNotes`: every stored note once (in key order, which is not
        modelled). */
    method GetAllNotes() returns (r: seq<Note>)
      ensures multiset(r) == multiset(notes.Values)
    {
      r := Enumerate(notes.Values);
    }

    method GetAllTags() returns (r: seq<Tag>)
      ensures multiset(r) == multiset(tags.Values)
    {
      r := Enumerate(tags.Values);
    }

    method GetAllCategories() returns (r: seq<Category>)
      ensures multiset(r) == multiset(categories.Values)
    {
      r := Enumerate(categories.Values);
    }

    method GetNote(id: Id) returns (r: Option<Note>)
      ensures r.Some? <==> id in notes
      ensures r.Some? ==> r.value == notes[id]
    {
      r := if id in notes then Some(notes[id]) else None;
    }

    method GetTag(id: Id) returns (r: Option<Tag>)
      ensures r.Some? <==> id in tags
      ensures r.Some? ==> r.value == tags[id]
    {
      r := if id in tags then Some(tags[id]) else None;
    }

    method GetCategory(id: Id) returns (r: Option<Category>)
      ensures r.Some? <==> id in categories
      ensures r.Some? ==> r.value == categories[id]
    {
      r := if id in categories then Some(categories[id]) else None;
    }

    /** `put`: unconditional overwrite by id, no timestamp comparison. */
    method UpsertNote(n: Note)
      requires Valid()
      modifies this`notes
      ensures Valid()
      ensures notes == old(notes)[n.id := n]
    {
      notes := notes[n.id := n];
    }

    method UpsertTag(t: Tag)
      requires Valid()
      modifies this`tags
      ensures Valid()
      ensures tags == old(tags)[t.id := t]
    {
      tags := tags[t.id := t];
    }

    method UpsertCategory(c: Category)
      requires Valid()
      modifies this`categories
      ensures Valid()
      ensures categories == old(categories)[c.id := c]
    {
      categories := categories[c.id := c];
    }

    /** Deletes the given relation rows of the note-tag store one at a time. */
    method DeleteNoteTagRows(rows: seq<Link>)
      modifies this`noteTags
      ensures noteTags == old(noteTags) - set i | 0 <= i < |rows| :: rows[i]
    {
      var i := 0;
      while i < |rows|
        invariant 0 <= i <= |rows|
        invariant noteTags == old(noteTags) - set j | 0 <= j < i :: rows[j]
      {
        assert (set j | 0 <= j < i + 1 :: rows[j]) == (set j | 0 <= j < i :: rows[j]) + {rows[i]};
        noteTags := noteTags - {rows[i]};
        i := i + 1;
      }
    }

    method DeleteNoteCategoryRows(rows: seq<Link>)
      modifies this`noteCategories
      ensures noteCategories == old(noteCategories) - set i | 0 <= i < |rows| :: rows[i]
    {
      var i := 0;
      while i < |rows|
        invariant 0 <= i <= |rows|
        invariant noteCategories == old(noteCategories) - set j | 0 <= j < i :: rows[j]
      {
        assert (set j | 0 <= j < i + 1 :: rows[j]) == (set j | 0 <= j < i :: rows[j]) + {rows[i]};
        noteCategories := noteCategories - {rows[i]};
        i := i + 1;
      }
    }

    /** `deleteNote`: the note and every relation row naming it, in both
        relation stores. */
    method DeleteNote(id: Id)
      requires Valid()
      modifies this
      ensures Valid()
      ensures notes == old(notes) - {id}
      ensures noteTags == LinksWithoutNote(old(noteTags), id)
      ensures noteCategories == LinksWithoutNote(old(noteCategories), id)
      ensures tags == old(tags) && categories == old(categories)
    {
      notes := notes - {id};
      var tagRows := Enumerate(LinksOfNote(noteTags, id));
      SameElements(tagRows, LinksOfNote(noteTags, id));
      DeleteNoteTagRows(tagRows);
      var catRows := Enumerate(LinksOfNote(noteCategories, id));
      SameElements(catRows, LinksOfNote(noteCategories, id));
      DeleteNoteCategoryRows(catRows);
    }

    /** `deleteTag`: the tag and its note-tag rows; categories and their
        relation store are untouched. */
    method DeleteTag(id: Id)
      requires Valid()
      modifies this
      ensures Valid()
      ensures tags == old(tags) - {id}
      ensures noteTags == LinksWithoutTarget(old(noteTags), id)
      ensures notes == old(notes) && categories == old(categories) && noteCategories == old(noteCategories)
    {
      tags := tags - {id};
      var rows := Enumerate(LinksOfTarget(noteTags, id));
      SameElements(rows, LinksOfTarget(noteTags, id));
      DeleteNoteTagRows(rows);
    }

    method DeleteCategory(id: Id)
      requires Valid()
      modifies this
      ensures Valid()
      ensures categories == old(categories) - {id}
      ensures noteCategories == LinksWithoutTarget(old(noteCategories), id)
      ensures notes == old(notes) && tags == old(tags) && noteTags == old(noteTags)
    {
      categories := categories - {id};
      var rows := Enumerate(LinksOfTarget(noteCategories, id));
      SameElements(rows, LinksOfTarget(noteCategories, id));
      DeleteNoteCategoryRows(rows);
    }

    /** `put` on the pair key: linking twice leaves one row. */
    method LinkNoteTag(noteId: Id, tagId: Id)
      modifies this`noteTags
      ensures noteTags == old(noteTags) + {Link(noteId, tagId)}
    {
      noteTags := noteTags + {Link(noteId, tagId)};
    }

    /** `delete` on the pair key: removing an absent pair changes nothing. */
    method UnlinkNoteTag(noteId: Id, tagId: Id)
      modifies this`noteTags
      ensures noteTags == old(noteTags) - {Link(noteId, tagId)}
    {
      noteTags := noteTags - {Link(noteId, tagId)};
    }

    method LinkNoteCategory(noteId: Id, categoryId: Id)
      modifies this`noteCategories
      ensures noteCategories == old(noteCategories) + {Link(noteId, categoryId)}
    {
      noteCategories := noteCategories + {Link(noteId, categoryId)};
    }

    method UnlinkNoteCategory(noteId: Id, categoryId: Id)
      modifies this`noteCategories
      ensures noteCategories == old(noteCategories) - {Link(noteId, categoryId)}
    {
      noteCategories := noteCategories - {Link(noteId, categoryId)};
    }

    /** `getTagsForNote`: the tags of the note's relation rows, skipping rows
        whose tag no longer exists. */
    method GetTagsForNote(noteId: Id) returns (r: seq<Tag>)
      requires Valid()
      ensures forall t :: t in r <==> t.id in tags && tags[t.id] == t && Link(noteId, t.id) in noteTags
      ensures |r| <= |LinksOfNote(noteTags, noteId)|
    {
      var rows := Enumerate(LinksOfNote(noteTags, noteId));
      r := ResolveAll(TargetIds(rows), tags);
      ResolvedTargets(rows, tags, noteTags, noteId);
    }

    method GetCategoriesForNote(noteId: Id) returns (r: seq<Category>)
      requires Valid()
      ensures forall c :: c in r <==>
        c.id in categories && categories[c.id] == c && Link(noteId, c.id) in noteCategories
      ensures |r| <= |LinksOfNote(noteCategories, noteId)|
    {
      var rows := Enumerate(LinksOfNote(noteCategories, noteId));
      r := ResolveAll(TargetIds(rows), categories);
      ResolvedTargets(rows, categories, noteCategories, noteId);
    }

    /** `getNotesByTag`: the notes of the tag's relation rows, skipping rows
        whose note no longer exists. */
    method GetNotesByTag(tagId: Id) returns (r: seq<Note>)
      requires Valid()
      ensures forall n :: n in r <==> n.id in notes && notes[n.id] == n && Link(n.id, tagId) in noteTags
      ensures |r| <= |LinksOfTarget(noteTags, tagId)|
    {
      var rows := Enumerate(LinksOfTarget(noteTags, tagId));
      r := ResolveAll(NoteIds(rows), notes);
      ResolvedSources(rows, notes, noteTags, tagId);
    }

    method GetNotesByCategory(categoryId: Id) returns (r: seq<Note>)
      requires Valid()
      ensures forall n :: n in r <==>
        n.id in notes && notes[n.id] == n && Link(n.id, categoryId) in noteCategories
      ensures |r| <= |LinksOfTarget(noteCategories, categoryId)|
    {
      var rows := Enumerate(LinksOfTarget(noteCategories, categoryId));
      r := ResolveAll(NoteIds(rows), notes);
      ResolvedSources(rows, notes, noteCategories, categoryId);
    }
  }

  /** A list with the multiset of a set has exactly its elements. */
  lemma SameElements<T>(rows: seq<T>, s: set<T>)
    requires multiset(rows) == multiset(s)
    ensures (set i | 0 <= i < |rows| :: rows[i]) == s
    ensures |rows| == |s|
  {
    forall x | x in s ensures x in set i | 0 <= i < |rows| :: rows[i] {
      assert x in multiset(rows);
      var i :| 0 <= i < |rows| && rows[i] == x;
    }
    forall i | 0 <= i < |rows| ensures rows[i] in s {
      assert rows[i] in multiset(rows);
    }
    assert |rows| == |multiset(rows)| == |multiset(s)| == |s|;
  }

  /** Resolving the targets of a note's rows yields exactly the linked
      entities that exist. */
  lemma ResolvedTargets(rows: seq<Link>, table: map<Id, Tag>, links: set<Link>, noteId: Id)
    requires Keyed(table)
    requires multiset(rows) == multiset(LinksOfNote(links, noteId))
    ensures forall t :: t in Resolved(TargetIds(rows), table) <==>
      t.id in table && table[t.id] == t && Link(noteId, t.id) in links
    ensures |Resolved(TargetIds(rows), table)| <= |LinksOfNote(links, noteId)|
  {
    SameElements(rows, LinksOfNote(links, noteId));
    var keys := TargetIds(rows);
    forall t ensures t in Resolved(keys, table) <==> t.id in table && table[t.id] == t && Link(noteId, t.id) in links {
      ResolvedMembership(keys, table, t);
      if t in Resolved(keys, table) {
        var i :| 0 <= i < |keys| && keys[i] in table && table[keys[i]] == t;
        assert rows[i] in LinksOfNote(links, noteId);
      }
      if t.id in table && table[t.id] == t && Link(noteId, t.id) in links {
        var l := Link(noteId, t.id);
        assert l in LinksOfNote(links, noteId);
        var i :| 0 <= i < |rows| && rows[i] == l;
        assert keys[i] == t.id;
      }
    }
  }

  lemma ResolvedSources(rows: seq<Link>, table: map<Id, Note>, links: set<Link>, targetId: Id)
    requires forall k | k in table :: table[k].id == k
    requires multiset(rows) == multiset(LinksOfTarget(links, targetId))
    ensures forall n :: n in Resolved(NoteIds(rows), table) <==>
      n.id in table && table[n.id] == n && Link(n.id, targetId) in links
    ensures |Resolved(NoteIds(rows), table)| <= |LinksOfTarget(links, targetId)|
  {
    SameElements(rows, LinksOfTarget(links, targetId));
    var keys := NoteIds(rows);
    forall n ensures n in Resolved(keys, table) <==> n.id in table && table[n.id] == n && Link(n.id, targetId) in links {
      ResolvedMembership(keys, table, n);
      if n in Resolved(keys, table) {
        var i :| 0 <= i < |keys| && keys[i] in table && table[keys[i]] == n;
        assert rows[i] in LinksOfTarget(links, targetId);
      }
      if n.id in table && table[n.id] == n && Link(n.id, targetId) in links {
        var l := Link(n.id, targetId);
        assert l in LinksOfTarget(links, targetId);
        var i :| 0 <= i < |rows| && rows[i] == l;
        assert keys[i] == n.id;
      }
    }
  }
}
