/** The notes hook: the ordered note list it exposes and `replaceRange`, which
    splices a replacement into a note's content and upserts the result. */
module UseNotes {
  import opened Util
  import opened Protocol
  import opened NotesStore

  /** The hook's `notes`: the listed ids resolved through the map, with ids
      that have no note dropped. In a coherent state that is every note, in
      list order. */
  function VisibleNotes(s: State): (r: seq<Note>)
    ensures |r| <= |s.noteIds|
    ensures forall n :: n in r <==> exists i | 0 <= i < |s.noteIds| ::
      s.noteIds[i] in s.notesById && s.notesById[s.noteIds[i]] == n
  {
    var r := Resolved(s.noteIds, s.notesById);
    assert forall n :: n in r <==> exists i | 0 <= i < |s.noteIds| ::
      s.noteIds[i] in s.notesById && s.notesById[s.noteIds[i]] == n by {
      forall n { ResolvedMembership(s.noteIds, s.notesById, n); }
    }
    r
  }

  lemma VisibleNotesAreAll(s: State)
    requires Coherent(s)
    ensures |VisibleNotes(s)| == |s.noteIds|
    ensures forall i | 0 <= i < |s.noteIds| :: VisibleNotes(s)[i] == s.notesById[s.noteIds[i]]
    ensures forall n :: n in VisibleNotes(s) <==> n in s.notesById.Values
  {
    ResolvedTotal(s.noteIds, s.notesById);
    forall n | n in s.notesById.Values ensures n in VisibleNotes(s) {
      var k :| k in s.notesById && s.notesById[k] == n;
      var i :| 0 <= i < |s.noteIds| && s.noteIds[i] == k;
      assert VisibleNotes(s)[i] == n;
    }
  }

  /** `content.substring(0, start) + replacement + content.substring(end)` */
  function Splice(content: string, start: int, end: int, replacement: string): (r: string)
    ensures OccursAt(r, replacement, |JsSubstring(content, 0, start)|)
    ensures |r| <= 2 * |content| + |replacement|
  {
    var r := JsSubstring(content, 0, start) + replacement + JsSubstring(content, end, |content|);
    assert r[|JsSubstring(content, 0, start)|..][..|replacement|] == replacement;
    r
  }

  /** Inside the content, the splice keeps the prefix before `start` and the
      suffix from `end`, and the length changes by the replaced span. */
  lemma SpliceInRange(content: string, start: int, end: int, replacement: string)
    requires 0 <= start <= end <= |content|
    ensures Splice(content, start, end, replacement) == content[..start] + replacement + content[end..]
    ensures |Splice(content, start, end, replacement)| == |content| - (end - start) + |replacement|
    ensures Splice(content, start, end, replacement)[..start] == content[..start]
    ensures Splice(content, start, end, replacement)[start + |replacement|..] == content[end..]
  {
    var r := Splice(content, start, end, replacement);
    assert r == content[..start] + replacement + content[end..];
    assert r[..start] == content[..start];
    assert r[start + |replacement|..] == content[end..];
  }

  /** The example of the hook's unit test. */
  lemma HelloUniverse()
    ensures Splice("hello world", 6, 11, "universe") == "hello universe"
  {
    SpliceInRange("hello world", 6, 11, "universe");
    assert "hello world"[..6] == "hello ";
  }

  /** A range given backwards is not reordered: both substrings are taken as
      written, so the characters between `end` and `start` appear twice. */
  lemma BackwardsRangeRepeatsSpan(content: string, start: int, end: int, replacement: string)
    requires 0 <= end <= start <= |content|
    ensures Splice(content, start, end, replacement) == content[..start] + replacement + content[end..]
    ensures |Splice(content, start, end, replacement)| == |content| + (start - end) + |replacement|
  {
  }

  /** Out-of-range offsets are clamped to the content. */
  lemma SpliceClamps(content: string, start: int, end: int, replacement: string)
    ensures start <= 0 ==> Splice(content, start, end, replacement) == replacement + JsSubstring(content, end, |content|)
    ensures end >= |content| ==> Splice(content, start, end, replacement) == JsSubstring(content, 0, start) + replacement
  {
    if start <= 0 {
      assert JsSubstring(content, 0, start) == "";
    }
    if end >= |content| {
      assert JsSubstring(content, end, |content|) == "";
    }
  }

  /** `replaceRange`: "Note not found" for an id the store does not hold;
      otherwise the note with spliced content and a fresh `updatedAt`, which
      is upserted into the store and returned. */
  method ReplaceRange(store: Store, id: Id, start: int, end: int, replacement: string, now: Timestamp)
    returns (r: Result<Note>)
    requires store.Valid()
    modifies store, store.db`notes
    ensures store.Valid()
    ensures store.db.tags == old(store.db.tags) && store.db.categories == old(store.db.categories)
    ensures store.db.noteTags == old(store.db.noteTags) && store.db.noteCategories == old(store.db.noteCategories)
    ensures id !in old(store.state.notesById) ==>
      r == Err("Note not found") && store.state == old(store.state) && store.db.notes == old(store.db.notes)
    ensures id in old(store.state.notesById) ==>
      var n := old(store.state.notesById[id]);
      r == Ok(n.(content := Splice(n.content, start, end, replacement), updatedAt := now))
      && store.state == PutNote(old(store.state), r.value)
      && store.db.notes == old(store.db.notes)[id := r.value]
  {
    if id !in store.state.notesById {
      return Err("Note not found");
    }
    var note := store.state.notesById[id];
    var updated := note.(content := Splice(note.content, start, end, replacement), updatedAt := now);
    store.Upsert(updated);
    r := Ok(updated);
  }
}
