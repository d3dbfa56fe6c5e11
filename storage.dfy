/** `PromptStorageManager`: the saved-prompt store of the application. */
module Storage {
  import opened Records
  import opened Wrappers

  /** The ordered record list, the id index whose entries are the list's records,
      and the document the last save wrote. Records are values here: in
      `PromptStorageManager` the index and list share one dict per record, so every in-place change below
      updates the list entry and the index entry together. */
  class PromptStorage {
    var prompts: seq<Prompt>
    var index: map<string, Prompt>
    /** The list last written to `saved_prompts.json` by this store; `None` before the first save. */
    ghost var written: Option<seq<Prompt>>

    /** Ids are unique, the list is ordered favorites first and newest first,
        and the index maps each id to its record. */
    ghost predicate Valid()
      reads this
    {
      UniqueIds(prompts) && Ordered(prompts) && Indexes(index, prompts)
    }

    /** `__init__`: start empty, then load. `doc` is the parsed document, `None`
        when the file is missing or does not parse. */
    constructor (doc: Option<seq<Prompt>>)
      ensures prompts == Loaded(doc) && index == IndexOf(prompts) && written == None
      ensures (doc.Some? ==> UniqueIds(doc.value)) ==> Valid()
    {
      prompts, index := [], map[];
      written := None;
      new;
      Load(doc);
    }

    /** `_load_prompts`: replace the state by the sorted document and rebuild the index,
        in which a later record of the sorted list wins over an earlier one with its id.
        The store invariant holds when the document's ids are unique. */
    method Load(doc: Option<seq<Prompt>>)
      modifies this
      ensures prompts == Loaded(doc) && index == IndexOf(prompts) && written == old(written)
      ensures (doc.Some? ==> UniqueIds(doc.value)) ==> Valid()
    {
      match doc {
        case None =>
          prompts, index := [], map[];
        case Some(list) =>
          var sorted := SortByKey(list);
          prompts := sorted;
          index := BuildIndex(sorted);
          if UniqueIds(list) {
            SortUniqueIds(list);
            IndexOfIndexes(sorted);
          }
      }
    }

    /** `_save_all_prompts`: sort in place, then write the whole list. */
    method SaveAll()
      modifies this
      ensures prompts == SortDesc(old(prompts)) && index == old(index) && written == Some(prompts)
    {
      prompts := SortByKey(prompts);
      written := Some(prompts);
    }

    /** `get_prompt_by_id`: the lookup through the index finds what a scan of the list finds. */
    function GetPromptById(id: string): (r: Option<Prompt>)
      reads this
      requires Valid()
      ensures r == Find(prompts, id)
    {
      IndexedFind(index, prompts, id);
      if id in index then Some(index[id]) else None
    }

    /** `add_prompt`. `id` and `timestamp` are the clock readings `isoformat()` and
        `strftime("%Y-%m-%d %H:%M")`; the id must not be in use yet. */
    method AddPrompt(original: string, improved: string, id: string, timestamp: string) returns (added: bool)
      requires Valid()
      requires id !in index
      modifies this
      ensures Valid()
      ensures added <==> improved != [] && !HasImproved(old(prompts), improved)
      ensures added ==>
                var rec := NewPrompt(id, timestamp, original, improved);
                && prompts == SortDesc([rec] + old(prompts))
                && index == old(index)[id := rec]
                && written == Some(prompts)
                && GetPromptById(id) == Some(rec)
      ensures !added ==> prompts == old(prompts) && index == old(index) && written == old(written)
    {
      if improved == [] {
        return false;
      }
      var duplicate := ContainsImproved(prompts, improved);
      if duplicate {
        return false;
      }
      var rec := NewPrompt(id, timestamp, original, improved);
      IndexAfterAdd(index, prompts, rec);
      AddThenSort(prompts, rec);
      prompts := [rec] + prompts;
      index := index[id := rec];
      SaveAll();
      added := true;
    }

    /** `update_prompt`: new texts, a recomputed title and a fresh timestamp on the
        record with this id; id and favorite flag are kept. The duplicate rule of
        `add_prompt` is not applied. */
    method UpdatePrompt(id: string, original: string, improved: string, timestamp: string) returns (updated: bool)
      requires Valid()
      requires improved != []
      modifies this
      ensures Valid()
      ensures updated <==> HasId(old(prompts), id)
      ensures updated ==>
                var q := Revised(old(Find(prompts, id)).value, original, improved, timestamp);
                && prompts == SortDesc(Replaced(old(prompts), id, q))
                && index == old(index)[id := q]
                && written == Some(prompts)
                && GetPromptById(id) == Some(q)
      ensures !updated ==> prompts == old(prompts) && index == old(index) && written == old(written)
    {
      var found := GetPromptById(id);
      if found.None? {
        return false;
      }
      var q := Revised(found.value, original, improved, timestamp);
      ghost var i :| 0 <= i < |prompts| && prompts[i].id == id;
      UpdateThenSort(prompts, i, q);
      IndexAfterReplace(index, prompts, q);
      prompts := Replaced(prompts, id, q);
      index := index[id := q];
      SaveAll();
      updated := true;
    }

    /** `delete_prompt`: drop the id from the index and every record with it from the list. */
    method DeletePrompt(id: string) returns (deleted: bool)
      requires Valid()
      modifies this
      ensures Valid()
      ensures deleted <==> HasId(old(prompts), id)
      ensures deleted ==>
                && prompts == Without(old(prompts), id)
                && (exists i :: 0 <= i < |old(prompts)| && old(prompts)[i].id == id
                                && prompts == old(prompts)[..i] + old(prompts)[i + 1..])
                && index == old(index) - {id}
                && written == Some(prompts)
      ensures !deleted ==> prompts == old(prompts) && index == old(index) && written == old(written)
    {
      IndexedFind(index, prompts, id);
      if id !in index {
        return false;
      }
      ghost var i :| 0 <= i < |prompts| && prompts[i].id == id;
      WithoutAt(prompts, i);
      WithoutKeeps(prompts, id);
      IndexAfterDelete(index, prompts, id);
      SortIdempotent(Without(prompts, id));
      index := index - {id};
      prompts := Without(prompts, id);
      SaveAll();
      deleted := true;
    }

    /** `update_title`: only the title of the record changes; its place in the list does not. */
    method UpdateTitle(id: string, title: string) returns (renamed: bool)
      requires Valid()
      modifies this
      ensures Valid()
      ensures renamed <==> HasId(old(prompts), id)
      ensures renamed ==>
                var q := old(Find(prompts, id)).value.(title := title);
                && prompts == Replaced(old(prompts), id, q)
                && index == old(index)[id := q]
                && written == Some(prompts)
      ensures !renamed ==> prompts == old(prompts) && index == old(index) && written == old(written)
    {
      var found := GetPromptById(id);
      if found.None? {
        return false;
      }
      var q := found.value.(title := title);
      ghost var i :| 0 <= i < |prompts| && prompts[i].id == id;
      FindUnique(prompts, i);
      RenameKeepsOrder(prompts, i, title);
      UpdateThenSort(prompts, i, q);
      IndexAfterReplace(index, prompts, q);
      prompts := Replaced(prompts, id, q);
      index := index[id := q];
      SaveAll();
      renamed := true;
    }

    /** `toggle_favorite`: flip the flag of the record and sort again. */
    method ToggleFavorite(id: string) returns (toggled: bool)
      requires Valid()
      modifies this
      ensures Valid()
      ensures toggled <==> HasId(old(prompts), id)
      ensures prompts == Toggled(old(prompts), id)
      ensures toggled ==> index == old(index)[id := Flip(old(Find(prompts, id)).value)] && written == Some(prompts)
      ensures !toggled ==> index == old(index) && written == old(written)
    {
      var found := GetPromptById(id);
      if found.None? {
        return false;
      }
      var q := Flip(found.value);
      ToggleFound(prompts, id);
      IndexAfterReplace(index, prompts, q);
      prompts := Replaced(prompts, id, q);
      index := index[id := q];
      SaveAll();
      toggled := true;
    }
  }
}
