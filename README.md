# PromptMaster saved-prompt store, modelled in Dafny

PromptMaster is a desktop tool that refines a rough prompt through a remote text-generation
service and lets the user save the results. This project models its record store,
`PromptStorageManager`, and the nested settings of `ConfigManager`, both in `Python/main.py`.

The store keeps saved prompts as an ordered list plus an index from id to record. Every
mutation changes the list and the index, then re-sorts the list and rewrites the whole document.
Update, rename and toggle change the shared record in place; add inserts a new record at the
front; delete filters the list.
The sort puts favorites first and then newer timestamps first. It is Python's stable
`sort(..., reverse=True)`, so records with equal keys keep their relative order.

Files:
- `wrappers.dfy`: module `Wrappers`, the `Option` type.
- `titles.dfy`: module `Titles`, the default title (first line, at most 100 characters, or a placeholder).
- `ordering.dfy`: module `Ordering`, the sort key `(favorite, timestamp)` and Python's order on it.
- `records.dfy`: module `Records`, the record type and the pure list operations: stable sort,
  lookup, in-place replacement, deletion, the index comprehension, and their lemmas.
- `storage.dfy`: module `Storage`, class `PromptStorage` with the list, the index and the last
  written document, one method per operation of `PromptStorageManager`.
- `settings.dfy`: module `Settings`, the two-level configuration and class `ConfigManager`.

Environment as parameters:
- The clock: `add_prompt`'s `datetime.now()` becomes the `id` and `timestamp` parameters of
  `AddPrompt`, and `UpdatePrompt` takes its `timestamp`. The Python code never checks that an id
  is unused; it relies on `isoformat()` having microsecond resolution. `AddPrompt` therefore
  requires the id to be absent from the index.
- Reading `saved_prompts.json`: `Load` and the constructor receive the parsed document, or `None`
  when the file is missing or does not parse.
- Writing it: the ghost field `written` holds the list the last save wrote.
- The built-in system prompt text is the `builtIn` parameter of `ActiveSystemPrompt`.
- `get_setting`'s optional `default=None` is the `Null` setting, which callers that omit the default pass.

## Model

| member | source | states |
|---|---|---|
| Titles.FirstLine | Python/main.py:217 | the first line is the longest prefix without a line break (`splitlines` separators) |
| Titles.DeriveTitle | Python/main.py:217 | the title is the placeholder when the text starts with a line break; otherwise a non-empty prefix of at most 100 characters with no line break that ends at character 100, at the end of the text or at a line break |
| Ordering.StrLessTransitive | Python/main.py:200 | timestamp string comparison is transitive |
| Ordering.StrLessTotal | Python/main.py:200 | two different timestamps are always ordered one way or the other |
| Ordering.NotGreaterTransitive | Python/main.py:200 | "not greater" on sort keys is transitive, so the key order is a total preorder |
| Records.NewPrompt | Python/main.py:214-221 | the new record has the given id, timestamp and texts, is not a favorite, and has the derived title of the improved text, non-empty and of at most 100 characters |
| Records.Revised | Python/main.py:231-236 | an update keeps the id and the favorite flag and sets the texts, the timestamp and the derived title of the improved text, non-empty and of at most 100 characters |
| Records.InsertFrontPermutes | Python/main.py:200 | inserting one record adds exactly that record to the multiset |
| Records.SortPermutes | Python/main.py:200 | the sort is a permutation of its input and keeps its length |
| Records.SortOrdered | Python/main.py:200 | after the sort, favorites come first and timestamps do not increase within each group |
| Records.SortUniqueIds | Python/main.py:200 | sorting keeps record ids unique |
| Records.SortStable | Python/main.py:200 | for every key, the records with that key keep their relative order through the sort |
| Records.SortIdempotent | Python/main.py:198-202 | sorting an already ordered list changes nothing |
| Records.Loaded | Python/main.py:183-196 | a missing or unreadable document loads as the empty list; otherwise the loaded list is an ordered permutation of the document |
| Records.SaveLoadRoundTrip | Python/main.py:183-202 | loading the list a save wrote gives back that same list |
| Records.CountAbove | Python/main.py:222 | the insertion point is past exactly the leading records whose key is strictly greater |
| Records.InsertFrontAt | Python/main.py:222 | inserting a record puts it at its insertion point and keeps everything else in place |
| Records.AddPlacement | Python/main.py:222 | a record inserted at the front and sorted lands after the records strictly above it and before every older record with an equal key |
| Records.AddThenSort | Python/main.py:213-224 | adding a record with a fresh id gives one more record, unique ids, an ordered list and the record found by its id |
| Records.Find | Python/main.py:204-206 | lookup finds a record exactly when some record has the id, and what it finds has that id |
| Records.FindUnique | Python/main.py:204-206 | with unique ids, lookup returns the one record that has the id |
| Records.IndexedFind | Python/main.py:204-206 | lookup through the index agrees with a scan of the list |
| Records.WithoutMembers | Python/main.py:245 | the filtered list keeps exactly the records whose id differs, so no record with the id is left |
| Records.WithoutAbsent | Python/main.py:245 | filtering out an id no record has changes nothing |
| Records.WithoutAt | Python/main.py:245 | with unique ids, filtering out the id of the record at `i` removes exactly that record and keeps every other record once, in its order |
| Records.WithoutKeeps | Python/main.py:241-248 | deletion keeps the list ordered and the ids unique; it removes one record for a present id and nothing for an absent one |
| Records.ReplacedAt | Python/main.py:231-236 | with unique ids, an in-place update changes exactly one list entry |
| Records.UpdateThenSort | Python/main.py:227-239 | update then sort: ordered, unique ids, same length, exactly the old record swapped for the new one, and the new one found by its id |
| Records.RenameKeepsOrder | Python/main.py:250-257 | a title change keeps every record in its place and changes only that record's title |
| Records.Flip | Python/main.py:263 | the favorite flag is negated and no other field changes |
| Records.Toggled | Python/main.py:259-266 | a toggle keeps the length; it changes nothing for an absent id and leaves the list ordered for a present one |
| Records.ToggleFound | Python/main.py:259-266 | for a present id, the toggled list is the sort of the list with the found record flipped; it is ordered with unique ids and the flipped record is found by the id |
| Records.ToggleOnce | Python/main.py:259-266 | one toggle swaps the record for its flipped copy and keeps the list ordered and the ids unique |
| Records.ToggleTwice | Python/main.py:259-266 | toggling twice gives back the same records, the original record under its id, and an ordered list |
| Records.ContainsImproved | Python/main.py:210 | the scan reports a duplicate exactly when `HasImproved` holds, that is, when some record has the same improved text |
| Records.InsertionPoint | Python/main.py:200 | the scan finds the insertion point of the sort |
| Records.SortByKey | Python/main.py:198-202 | the in-place sort computes the stable descending sort |
| Records.IndexOf | Python/main.py:194 | the comprehension has an entry for every id of the list, each entry is a record of the list with that id, and the last record wins its id |
| Records.IndexOfLastWins | Python/main.py:194 | for every id, the comprehension holds the last record of the list carrying it |
| Records.BuildIndex | Python/main.py:194 | the loop builds the id index of the dict comprehension, where later records win |
| Records.IndexOfIndexes | Python/main.py:194 | with unique ids the comprehension maps every id to its record and nothing else |
| Records.IndexesPermutation | Python/main.py:198-202 | re-sorting the list keeps the index exact |
| Records.IndexAfterAdd | Python/main.py:222-223 | adding under a fresh id keeps the index exact |
| Records.IndexAfterReplace | Python/main.py:231-237 | updating a record keeps the index exact |
| Records.IndexAfterDelete | Python/main.py:243-245 | deleting from index and list keeps the index exact |
| Storage.PromptStorage.constructor | Python/main.py:177-181 | a new store holds the loaded list and the comprehension index of it, and has written nothing; with unique ids in the document the store invariant holds |
| Storage.PromptStorage.Load | Python/main.py:183-196 | loading gives an empty store for a missing or unreadable document, otherwise the sorted document and its comprehension index (a later record wins a repeated id); with unique ids the store invariant holds |
| Storage.PromptStorage.SaveAll | Python/main.py:198-202 | a save sorts the list and writes exactly that list |
| Storage.PromptStorage.GetPromptById | Python/main.py:204-206 | the index lookup equals the scan of the list |
| Storage.PromptStorage.AddPrompt | Python/main.py:208-225 | fails without change for empty or duplicate improved text; otherwise inserts the new non-favorite record with the derived title, sorts, indexes it, saves, and makes it retrievable by id |
| Storage.PromptStorage.UpdatePrompt | Python/main.py:227-239 | on a present id sets texts, title and timestamp and keeps id and favorite, then sorts and saves; on an absent id fails without change |
| Storage.PromptStorage.DeletePrompt | Python/main.py:241-248 | on a present id removes it from the index and exactly its record from the list, the others keeping their order, and saves; on an absent id fails without change |
| Storage.PromptStorage.UpdateTitle | Python/main.py:250-257 | on a present id changes only the title, in place, and saves; on an absent id fails without change |
| Storage.PromptStorage.ToggleFavorite | Python/main.py:259-266 | on a present id flips only the favorite flag, sorts and saves; on an absent id fails without change |
| Settings.LookupStore | Python/main.py:141-150 | after a set, the same keys read the new value and every other pair reads as before |
| Settings.Lookup | Python/main.py:141-143 | the stored value when the section and the entry exist, the default otherwise |
| Settings.Store | Python/main.py:145-149 | a set creates the section on demand, writes the one entry, and keeps every other section and every other entry of the section |
| Settings.ActiveSystemPrompt | Python/main.py:152-155 | the built-in prompt is active when the flag is absent or truthy; otherwise the stored custom prompt, or the built-in one if none is stored |
| Settings.DefaultOnWins | Python/main.py:152-155 | once the flag is set to true, the built-in prompt is active whatever custom prompt is stored |
| Settings.ConfigManager.constructor | Python/main.py:115-124 | a new manager holds the loaded configuration; it has written exactly that configuration when the file was missing and the default was created, and nothing otherwise |
| Settings.ConfigManager.GetSetting | Python/main.py:141-143 | `get_setting` is `Lookup` on the current configuration; an omitted default is `Null` |
| Settings.ConfigManager.GetActiveSystemPrompt | Python/main.py:152-155 | `get_active_system_prompt` is `ActiveSystemPrompt` on the current configuration |
| Settings.ConfigManager.SetSetting | Python/main.py:145-150 | writes one entry (creating its section), saves, and leaves every other entry unchanged |

## Left out

- Reading and writing the JSON files (`json.load`, `json.dump`, `Path.open`, `exists`). A document is a parsed list, or `None` when it is missing or unreadable. A write is the ghost field `written`. Write failures are not modelled.
- Missing fields in a loaded record. `_load_prompts` sorts with `p.get("favorite", False)` and `p.get("timestamp", "")` but does not store those defaults. The model's records hold the values those `get` calls return. A record without `"id"` makes `_load_prompts` raise `KeyError`; the model does not cover that.
- A store loaded from a document with duplicate ids. `Storage.PromptStorage.constructor` and `Storage.PromptStorage.Load` accept such a document as the Python code does: the list keeps every record and the index holds the later record of each id. The store invariant `Valid()` (unique ids, every list entry indexed) does not hold then, and `GetPromptById` and the five mutators (`AddPrompt`, `UpdatePrompt`, `DeletePrompt`, `UpdateTitle`, `ToggleFavorite`) require it, so those operations on such a store are not modelled. `SaveAll` does not require it.
- Storage.PromptStorage.AddPrompt: requires the clock-derived id to be unused. The Python code assumes this without checking it.
- Storage.PromptStorage.UpdatePrompt: requires non-empty improved text. For empty text `splitlines()[0]` raises `IndexError`, and its only caller rejects empty text before calling.
- Aliasing between the list and the index. `PromptStorageManager`'s list and index share one dict per record. In the model, records are values, and each operation writes the list entry and the index entry together.
- The clock. `datetime.now()`, `isoformat()` and `strftime` are not modelled: ids and timestamps are parameters. Nothing makes an update's timestamp at least the old one.
- The default system prompt text and the other UI text constants, except the untitled placeholder. The default prompt is the `builtIn` parameter.
- Configuration values other than `null`, strings, booleans and string lists. Config sections that are not dicts are not modelled either (for those, the Python `.get` call would fail).
- Settings.ConfigManager.constructor: the reading and parsing in `_load_config`, `save_config`'s file handling and `_get_default_config`'s contents are not modelled. The constructor takes the configuration `_load_config` returned, including the `use_default_system_prompt` entry it adds, and a flag saying whether the file was missing so that the default configuration was written. `written` records that first-start write and the writes of `set_setting`.
- The user interface, the remote generation call (`ApiService`), background threads and clipboard access.
