/** Saved prompt records and the pure operations on the ordered list that
    `PromptStorageManager` keeps: the stable descending sort it runs before
    every save, lookup by id, in-place field updates and deletion. */
module Records {
  import opened Ordering
  import opened Titles
  import opened Wrappers

  /** One entry of `saved_prompts`. */
  datatype Prompt = Prompt(
    id: string,
    timestamp: string,
    title: string,
    original: string,
    improved: string,
    favorite: bool)

  function KeyOf(p: Prompt): Key
  {
    Key(p.favorite, p.timestamp)
  }

  /** `p` sorts strictly before `q` under `sort(key=..., reverse=True)`. */
  predicate Above(p: Prompt, q: Prompt)
  {
    Greater(KeyOf(p), KeyOf(q))
  }

  /** Favorites first, then timestamps non-increasing: no record is above one before it. */
  predicate Ordered(s: seq<Prompt>)
  {
    forall i, j :: 0 <= i < j < |s| ==> !Above(s[j], s[i])
  }

  predicate UniqueIds(s: seq<Prompt>)
  {
    forall i, j :: 0 <= i < j < |s| ==> s[i].id != s[j].id
  }

  predicate HasId(s: seq<Prompt>, id: string)
  {
    exists i :: 0 <= i < |s| && s[i].id == id
  }

  /** `any(p.get("improved") == improved for p in prompts)` */
  predicate HasImproved(s: seq<Prompt>, improved: string)
  {
    exists i :: 0 <= i < |s| && s[i].improved == improved
  }

  /** The record `add_prompt` creates: not a favorite, titled from the improved text. */
  function NewPrompt(id: string, timestamp: string, original: string, improved: string): (r: Prompt)
    requires improved != []
    ensures r.id == id && r.timestamp == timestamp && r.original == original && r.improved == improved
    ensures KeyOf(r) == Key(false, timestamp)
    ensures r.title == DeriveTitle(improved) && 0 < |r.title| <= MaxTitleLength
  {
    Prompt(id, timestamp, DeriveTitle(improved), original, improved, false)
  }

  /** `prompt.update(original=..., improved=..., title=..., timestamp=...)`: the id and
      the favorite flag are kept, the texts, the title and the timestamp are new. */
  function Revised(p: Prompt, original: string, improved: string, timestamp: string): (r: Prompt)
    requires improved != []
    ensures r.id == p.id && r.favorite == p.favorite
    ensures r.original == original && r.improved == improved && r.timestamp == timestamp
    ensures KeyOf(r) == Key(p.favorite, timestamp)
    ensures r.title == DeriveTitle(improved) && 0 < |r.title| <= MaxTitleLength
  {
    p.(original := original, improved := improved, title := DeriveTitle(improved), timestamp := timestamp)
  }

  // ---------------------------------------------------------------------------
  // The stable descending sort

  /** Inserts `x` in front of the first element that is not strictly above it,
      so that `x` precedes every element whose key equals its own. */
  function InsertFront(t: seq<Prompt>, x: Prompt): seq<Prompt>
  {
    if t == [] then [x]
    else if !Above(t[0], x) then [x] + t
    else [t[0]] + InsertFront(t[1..], x)
  }

  /** `s.sort(key=lambda p: (p["favorite"], p["timestamp"]), reverse=True)`: a stable
      sort in descending key order, so records with equal keys keep their order. */
  function SortDesc(s: seq<Prompt>): seq<Prompt>
  {
    if s == [] then [] else InsertFront(SortDesc(s[1..]), s[0])
  }

  /** Inserting adds exactly the one record. */
  lemma {:induction false} InsertFrontPermutes(t: seq<Prompt>, x: Prompt)
    ensures multiset(InsertFront(t, x)) == multiset(t) + multiset{x}
  {
    if t != [] && Above(t[0], x) {
      InsertFrontPermutes(t[1..], x);
      assert t == [t[0]] + t[1..];
    }
  }

  /** The sort is a permutation of its input. */
  lemma {:induction false} SortPermutes(s: seq<Prompt>)
    ensures multiset(SortDesc(s)) == multiset(s)
    ensures |SortDesc(s)| == |s|
  {
    if s != [] {
      SortPermutes(s[1..]);
      InsertFrontPermutes(SortDesc(s[1..]), s[0]);
      assert s == [s[0]] + s[1..];
    }
    assert |multiset(SortDesc(s))| == |SortDesc(s)|;
  }

  /** The list `_load_prompts` ends up with: empty when the document is missing
      or unreadable, otherwise the parsed list sorted. */
  function Loaded(doc: Option<seq<Prompt>>): (r: seq<Prompt>)
    ensures doc.None? ==> r == []
    ensures doc.Some? ==> multiset(r) == multiset(doc.value)
    ensures Ordered(r)
  {
    match doc
    case None => []
    case Some(s) => SortOrdered(s); SortPermutes(s); SortDesc(s)
  }

  /** The records of `s` whose key is `k`, in their order in `s`. */
  function WithKey(s: seq<Prompt>, k: Key): seq<Prompt>
  {
    if s == [] then []
    else (if KeyOf(s[0]) == k then [s[0]] else []) + WithKey(s[1..], k)
  }

  /** Number of leading elements of `s` that are strictly above `x`. */
  function CountAbove(s: seq<Prompt>, x: Prompt): (k: nat)
    ensures k <= |s|
    ensures forall i :: 0 <= i < k ==> Above(s[i], x)
    ensures k < |s| ==> !Above(s[k], x)
  {
    if s == [] || !Above(s[0], x) then 0 else 1 + CountAbove(s[1..], x)
  }

  lemma OrderedCons(h: Prompt, t: seq<Prompt>)
    ensures Ordered([h] + t) <==> (forall j :: 0 <= j < |t| ==> !Above(t[j], h)) && Ordered(t)
  {
    var s := [h] + t;
    if (forall j :: 0 <= j < |t| ==> !Above(t[j], h)) && Ordered(t) {
      forall i, j | 0 <= i < j < |s| ensures !Above(s[j], s[i]) {
        if i > 0 {
          assert s[i] == t[i - 1] && s[j] == t[j - 1];
        } else {
          assert s[j] == t[j - 1];
        }
      }
    }
    if Ordered(s) {
      forall i, j | 0 <= i < j < |t| ensures !Above(t[j], t[i]) {
        assert s[i + 1] == t[i] && s[j + 1] == t[j];
      }
      forall j | 0 <= j < |t| ensures !Above(t[j], h) {
        assert s[0] == h && s[j + 1] == t[j];
      }
    }
  }

  lemma UniqueIdsCons(h: Prompt, t: seq<Prompt>)
    ensures UniqueIds([h] + t) <==> (forall j :: 0 <= j < |t| ==> t[j].id != h.id) && UniqueIds(t)
  {
    var s := [h] + t;
    if (forall j :: 0 <= j < |t| ==> t[j].id != h.id) && UniqueIds(t) {
      forall i, j | 0 <= i < j < |s| ensures s[i].id != s[j].id {
        if i > 0 {
          assert s[i] == t[i - 1] && s[j] == t[j - 1];
        } else {
          assert s[j] == t[j - 1];
        }
      }
    }
    if UniqueIds(s) {
      forall i, j | 0 <= i < j < |t| ensures t[i].id != t[j].id {
        assert s[i + 1] == t[i] && s[j + 1] == t[j];
      }
      forall j | 0 <= j < |t| ensures t[j].id != h.id {
        assert s[0] == h && s[j + 1] == t[j];
      }
    }
  }

  /** Every element of a sequence with multiset `multiset(t) + {x}` is `x` or an element of `t`. */
  lemma ElementOf(u: seq<Prompt>, t: seq<Prompt>, x: Prompt, j: int)
    requires multiset(u) == multiset(t) + multiset{x} && 0 <= j < |u|
    ensures u[j] == x || u[j] in t
  {
    assert u[j] in multiset(u);
  }

  lemma {:induction false} InsertFrontOrdered(t: seq<Prompt>, x: Prompt)
    requires Ordered(t)
    ensures Ordered(InsertFront(t, x))
  {
    if t == [] {
    } else if !Above(t[0], x) {
      forall j | 0 <= j < |t| ensures !Above(t[j], x) {
        if j > 0 {
          NotGreaterTransitive(KeyOf(t[j]), KeyOf(t[0]), KeyOf(x));
        }
      }
      OrderedCons(x, t);
    } else {
      var rest := t[1..];
      assert t == [t[0]] + rest;
      OrderedCons(t[0], rest);
      InsertFrontOrdered(rest, x);
      InsertFrontPermutes(rest, x);
      var u := InsertFront(rest, x);
      forall j | 0 <= j < |u| ensures !Above(u[j], t[0]) {
        ElementOf(u, rest, x, j);
        if u[j] == x {
          GreaterAsymmetric(KeyOf(t[0]), KeyOf(x));
        }
      }
      OrderedCons(t[0], u);
    }
  }

  /** The sort's result is ordered. */
  lemma {:induction false} SortOrdered(s: seq<Prompt>)
    ensures Ordered(SortDesc(s))
  {
    if s != [] {
      SortOrdered(s[1..]);
      InsertFrontOrdered(SortDesc(s[1..]), s[0]);
    }
  }

  /** Sorting an ordered list changes nothing: what a save writes, a load reads back unchanged. */
  lemma {:induction false} SortIdempotent(s: seq<Prompt>)
    requires Ordered(s)
    ensures SortDesc(s) == s
  {
    if s != [] {
      var rest := s[1..];
      assert s == [s[0]] + rest;
      OrderedCons(s[0], rest);
      SortIdempotent(rest);
    }
  }

  lemma {:induction false} InsertFrontWithKey(t: seq<Prompt>, x: Prompt, k: Key)
    ensures WithKey(InsertFront(t, x), k) == (if KeyOf(x) == k then [x] else []) + WithKey(t, k)
  {
    var hx := if KeyOf(x) == k then [x] else [];
    if t == [] {
      assert WithKey([x], k) == hx + WithKey([x][1..], k);
    } else {
      var rest := t[1..];
      var h0 := if KeyOf(t[0]) == k then [t[0]] else [];
      assert t == [t[0]] + rest;
      assert WithKey(t, k) == h0 + WithKey(rest, k);
      if !Above(t[0], x) {
        var u := [x] + t;
        assert u[0] == x && u[1..] == t;
        assert WithKey(u, k) == hx + WithKey(t, k);
      } else {
        var v := InsertFront(rest, x);
        var u := [t[0]] + v;
        assert InsertFront(t, x) == u;
        assert u[0] == t[0] && u[1..] == v;
        assert WithKey(u, k) == h0 + WithKey(v, k);
        InsertFrontWithKey(rest, x, k);
        GreaterIrreflexive(KeyOf(x));
        assert h0 == [] || hx == [];
      }
    }
  }

  /** Stability: for every key, the records carrying it appear in the sorted list
      in the same relative order as before the sort. */
  lemma {:induction false} SortStable(s: seq<Prompt>, k: Key)
    ensures WithKey(SortDesc(s), k) == WithKey(s, k)
  {
    if s != [] {
      SortStable(s[1..], k);
      InsertFrontWithKey(SortDesc(s[1..]), s[0], k);
    }
  }

  /** Loading what a save wrote gives back the same list. */
  lemma SaveLoadRoundTrip(s: seq<Prompt>)
    ensures Loaded(Some(SortDesc(s))) == SortDesc(s)
  {
    SortOrdered(s);
    SortIdempotent(SortDesc(s));
  }

  lemma {:induction false} InsertFrontAt(t: seq<Prompt>, x: Prompt)
    ensures InsertFront(t, x) == t[..CountAbove(t, x)] + [x] + t[CountAbove(t, x)..]
  {
    if t == [] {
    } else if !Above(t[0], x) {
      assert CountAbove(t, x) == 0;
      assert t[..0] == [] && t[0..] == t;
    } else {
      var rest := t[1..];
      InsertFrontAt(rest, x);
      var k := CountAbove(rest, x);
      assert CountAbove(t, x) == k + 1;
      assert InsertFront(t, x) == [t[0]] + (rest[..k] + [x] + rest[k..]);
      assert t[..k + 1] == [t[0]] + rest[..k];
      assert t[k + 1..] == rest[k..];
      assert [t[0]] + (rest[..k] + [x] + rest[k..]) == ([t[0]] + rest[..k]) + [x] + rest[k..];
    }
  }

  /** On an ordered list, sorting after an insertion at the front is one `InsertFront`. */
  lemma SortAfterFrontInsert(s: seq<Prompt>, x: Prompt)
    requires Ordered(s)
    ensures SortDesc([x] + s) == InsertFront(s, x)
  {
    var t := [x] + s;
    assert t[0] == x && t[1..] == s;
    SortIdempotent(s);
  }

  /** Pointwise reading of `r == s[..k] + [x] + s[k..]`. */
  lemma Splice(r: seq<Prompt>, s: seq<Prompt>, x: Prompt, k: nat)
    requires k <= |s| && r == s[..k] + [x] + s[k..]
    ensures |r| == |s| + 1 && r[k] == x
    ensures forall i :: 0 <= i < k ==> r[i] == s[i]
    ensures forall i :: k < i <= |s| ==> r[i] == s[i - 1]
  {
  }

  /** `add_prompt` inserts the new record at the front and then sorts. On an ordered
      list this places it after the records strictly above it and before all the
      others, in particular before every older record with an equal key; the other
      records keep their order. */
  lemma AddPlacement(s: seq<Prompt>, x: Prompt)
    requires Ordered(s)
    ensures |SortDesc([x] + s)| == |s| + 1 && SortDesc([x] + s)[CountAbove(s, x)] == x
    ensures forall i :: 0 <= i < CountAbove(s, x) ==> SortDesc([x] + s)[i] == s[i]
    ensures forall i :: CountAbove(s, x) < i <= |s| ==> SortDesc([x] + s)[i] == s[i - 1]
    ensures forall i :: CountAbove(s, x) <= i < |s| ==> !Above(s[i], x)
    ensures forall i :: 0 <= i < |s| && KeyOf(s[i]) == KeyOf(x) ==> CountAbove(s, x) <= i
  {
    var k := CountAbove(s, x);
    SortAfterFrontInsert(s, x);
    InsertFrontAt(s, x);
    Splice(SortDesc([x] + s), s, x, k);
    forall i | k < i < |s| ensures !Above(s[i], x) {
      NotGreaterTransitive(KeyOf(s[i]), KeyOf(s[k]), KeyOf(x));
    }
    GreaterIrreflexive(KeyOf(x));
  }

  lemma {:induction false} InsertFrontUniqueIds(t: seq<Prompt>, x: Prompt)
    requires UniqueIds(t) && forall j :: 0 <= j < |t| ==> t[j].id != x.id
    ensures UniqueIds(InsertFront(t, x))
  {
    if t == [] {
    } else if !Above(t[0], x) {
      UniqueIdsCons(x, t);
    } else {
      var rest := t[1..];
      assert t == [t[0]] + rest;
      UniqueIdsCons(t[0], rest);
      InsertFrontUniqueIds(rest, x);
      InsertFrontPermutes(rest, x);
      var u := InsertFront(rest, x);
      forall j | 0 <= j < |u| ensures u[j].id != t[0].id {
        ElementOf(u, rest, x, j);
      }
      UniqueIdsCons(t[0], u);
    }
  }

  /** Sorting keeps ids unique. */
  lemma {:induction false} SortUniqueIds(s: seq<Prompt>)
    requires UniqueIds(s)
    ensures UniqueIds(SortDesc(s))
  {
    if s != [] {
      var rest := s[1..];
      assert s == [s[0]] + rest;
      UniqueIdsCons(s[0], rest);
      SortUniqueIds(rest);
      var sorted := SortDesc(rest);
      SortPermutes(rest);
      forall j | 0 <= j < |sorted| ensures sorted[j].id != s[0].id {
        assert sorted[j] in multiset(sorted);
      }
      InsertFrontUniqueIds(sorted, s[0]);
    }
  }

  // ---------------------------------------------------------------------------
  // Lookup, in-place update and deletion

  /** The first record of `s` with the given id. */
  function Find(s: seq<Prompt>, id: string): (r: Option<Prompt>)
    ensures r.Some? <==> HasId(s, id)
    ensures r.Some? ==> r.value in s && r.value.id == id
  {
    if s == [] then None
    else if s[0].id == id then Some(s[0])
    else
      var r := Find(s[1..], id);
      assert HasId(s[1..], id) ==> HasId(s, id) by {
        if HasId(s[1..], id) {
          var i :| 0 <= i < |s[1..]| && s[1..][i].id == id;
          assert s[i + 1].id == id;
        }
      }
      r
  }

  /** With unique ids, the record found for an id is the one record carrying it. */
  lemma {:induction false} FindUnique(s: seq<Prompt>, i: int)
    requires UniqueIds(s) && 0 <= i < |s|
    ensures Find(s, s[i].id) == Some(s[i])
  {
    if i > 0 {
      assert s[0].id != s[i].id;
      FindUnique(s[1..], i - 1);
    }
  }

  /** Every record carrying `id` replaced by `q`: the update of the shared record object. */
  function Replaced(s: seq<Prompt>, id: string, q: Prompt): seq<Prompt>
  {
    seq(|s|, i requires 0 <= i < |s| => if s[i].id == id then q else s[i])
  }

  /** `[p for p in prompts if p.get("id") != prompt_id]` */
  function Without(s: seq<Prompt>, id: string): seq<Prompt>
  {
    if s == [] then []
    else if s[0].id == id then Without(s[1..], id)
    else [s[0]] + Without(s[1..], id)
  }

  /** The filter keeps exactly the records whose id differs, so the id is gone. */
  lemma {:induction false} WithoutMembers(s: seq<Prompt>, id: string)
    ensures forall p :: p in Without(s, id) <==> p in s && p.id != id
    ensures !HasId(Without(s, id), id)
  {
    if s != [] {
      WithoutMembers(s[1..], id);
      assert s == [s[0]] + s[1..];
    }
    var r := Without(s, id);
    forall j | 0 <= j < |r| ensures r[j].id != id {
      assert r[j] in r;
    }
  }

  lemma {:induction false} WithoutAbsent(s: seq<Prompt>, id: string)
    requires !HasId(s, id)
    ensures Without(s, id) == s
  {
    if s != [] {
      var rest := s[1..];
      assert s[0].id != id;
      forall j | 0 <= j < |rest| ensures rest[j].id != id {
        assert rest[j] == s[j + 1];
      }
      WithoutAbsent(rest, id);
      assert s == [s[0]] + rest;
    }
  }

  /** With unique ids, deleting the id of the record at `i` removes exactly that
      record: the others stay, once each and in their order. */
  lemma {:induction false} WithoutAt(s: seq<Prompt>, i: int)
    requires UniqueIds(s) && 0 <= i < |s|
    ensures Without(s, s[i].id) == s[..i] + s[i + 1..]
  {
    var id := s[i].id;
    var rest := s[1..];
    assert s == [s[0]] + rest;
    UniqueIdsCons(s[0], rest);
    if i == 0 {
      forall j | 0 <= j < |rest| ensures rest[j].id != id {
        assert rest[j] == s[j + 1];
      }
      WithoutAbsent(rest, id);
      assert s[1..] == rest;
    } else {
      assert s[0].id != s[i].id;
      assert rest[i - 1] == s[i];
      var w := Without(rest, id);
      assert Without(s, id) == [s[0]] + w;
      WithoutAt(rest, i - 1);
      assert s[..i] == [s[0]] + rest[..i - 1];
      assert s[i + 1..] == rest[i..];
      assert [s[0]] + (rest[..i - 1] + rest[i..]) == ([s[0]] + rest[..i - 1]) + rest[i..];
    }
  }

  /** Removing records keeps the list ordered and its ids unique; with unique ids
      a present id removes exactly one record, an absent one changes nothing. */
  lemma {:induction false} WithoutKeeps(s: seq<Prompt>, id: string)
    requires Ordered(s) && UniqueIds(s)
    ensures Ordered(Without(s, id)) && UniqueIds(Without(s, id))
    ensures HasId(s, id) ==> |Without(s, id)| == |s| - 1
    ensures !HasId(s, id) ==> Without(s, id) == s
  {
    if s != [] {
      var rest := s[1..];
      assert s == [s[0]] + rest;
      OrderedCons(s[0], rest);
      UniqueIdsCons(s[0], rest);
      WithoutKeeps(rest, id);
      var r := Without(rest, id);
      WithoutMembers(rest, id);
      if s[0].id == id {
        assert !HasId(rest, id);
      } else {
        forall j | 0 <= j < |r| ensures !Above(r[j], s[0]) && r[j].id != s[0].id {
          assert r[j] in r;
        }
        OrderedCons(s[0], r);
        UniqueIdsCons(s[0], r);
        if HasId(s, id) {
          var i :| 0 <= i < |s| && s[i].id == id;
          assert rest[i - 1].id == id;
        }
      }
    }
  }

  /** With unique ids, replacing the record at `i` swaps exactly one element. */
  lemma ReplacedAt(s: seq<Prompt>, i: int, q: Prompt)
    requires UniqueIds(s) && 0 <= i < |s|
    ensures Replaced(s, s[i].id, q) == s[i := q]
    ensures multiset(Replaced(s, s[i].id, q)) == multiset(s) - multiset{s[i]} + multiset{q}
  {
    var r := Replaced(s, s[i].id, q);
    assert forall j :: 0 <= j < |s| && j != i ==> s[j].id != s[i].id;
    assert r == s[i := q];
  }

  /** An update of the record at `i` by a record with the same id, followed by the sort:
      the result is ordered, ids stay unique, exactly that record is swapped for `q`,
      and `q` is what a lookup of the id now finds. */
  lemma UpdateThenSort(s: seq<Prompt>, i: int, q: Prompt)
    requires UniqueIds(s) && 0 <= i < |s| && q.id == s[i].id
    ensures var r := SortDesc(Replaced(s, s[i].id, q));
            && Ordered(r) && UniqueIds(r) && |r| == |s|
            && multiset(r) == multiset(s) - multiset{s[i]} + multiset{q}
            && Find(r, q.id) == Some(q)
  {
    var u := Replaced(s, s[i].id, q);
    ReplacedAt(s, i, q);
    assert UniqueIds(u) by {
      forall a, b | 0 <= a < b < |u| ensures u[a].id != u[b].id {
        assert u[a].id == s[a].id && u[b].id == s[b].id;
      }
    }
    SortOrdered(u);
    SortUniqueIds(u);
    SortPermutes(u);
    var r := SortDesc(u);
    assert q in multiset(r);
    var j :| 0 <= j < |r| && r[j] == q;
    FindUnique(r, j);
  }

  /** `update_title` leaves the key alone, so the record keeps its place and the
      sort after it moves nothing. */
  lemma RenameKeepsOrder(s: seq<Prompt>, i: int, title: string)
    requires Ordered(s) && UniqueIds(s) && 0 <= i < |s|
    ensures var r := Replaced(s, s[i].id, s[i].(title := title));
            && Ordered(r) && SortDesc(r) == r
            && r[i].title == title && (forall j :: 0 <= j < |s| && j != i ==> r[j] == s[j])
  {
    var q := s[i].(title := title);
    ReplacedAt(s, i, q);
    var r := Replaced(s, s[i].id, q);
    assert forall j :: 0 <= j < |s| ==> KeyOf(r[j]) == KeyOf(s[j]);
    SortIdempotent(r);
  }

  /** The record with its favorite flag flipped: `prompt["favorite"] = not prompt["favorite"]`. */
  function Flip(p: Prompt): (r: Prompt)
    ensures r.favorite != p.favorite
    ensures r.(favorite := p.favorite) == p
  {
    p.(favorite := !p.favorite)
  }

  /** The list after `toggle_favorite(id)`: unchanged when the id is absent,
      otherwise the record flipped in place and the list sorted again. */
  function Toggled(s: seq<Prompt>, id: string): (r: seq<Prompt>)
    ensures |r| == |s|
    ensures !HasId(s, id) ==> r == s
    ensures HasId(s, id) ==> Ordered(r)
  {
    match Find(s, id)
    case None => s
    case Some(p) =>
      var u := Replaced(s, id, Flip(p));
      SortOrdered(u);
      SortPermutes(u);
      SortDesc(u)
  }

  /** One `toggle_favorite` on a present id: the flipped record replaces the old one,
      the list is ordered and ids stay unique. */
  lemma ToggleOnce(s: seq<Prompt>, i: int)
    requires UniqueIds(s) && 0 <= i < |s|
    ensures Toggled(s, s[i].id) == SortDesc(Replaced(s, s[i].id, Flip(s[i])))
    ensures var r := Toggled(s, s[i].id);
            && Ordered(r) && UniqueIds(r)
            && multiset(r) == multiset(s) - multiset{s[i]} + multiset{Flip(s[i])}
            && Find(r, s[i].id) == Some(Flip(s[i]))
  {
    FindUnique(s, i);
    UpdateThenSort(s, i, Flip(s[i]));
  }

  /** A toggle of a present id, stated through the record a lookup finds: the flipped
      record replaces it, the list is ordered, ids stay unique and the flipped record is found. */
  lemma ToggleFound(s: seq<Prompt>, id: string)
    requires UniqueIds(s) && HasId(s, id)
    ensures Find(s, id).Some?
    ensures var q := Flip(Find(s, id).value);
            && Toggled(s, id) == SortDesc(Replaced(s, id, q))
            && Ordered(Toggled(s, id)) && UniqueIds(Toggled(s, id))
            && Find(Toggled(s, id), id) == Some(q)
  {
    var i :| 0 <= i < |s| && s[i].id == id;
    FindUnique(s, i);
    ToggleOnce(s, i);
  }

  /** `toggle_favorite` applied twice to the same id gives back the same records
      (the record has its original flag, title and timestamp again); only the
      position among records with an equal key may differ. */
  lemma ToggleTwice(s: seq<Prompt>, id: string)
    requires UniqueIds(s)
    ensures multiset(Toggled(Toggled(s, id), id)) == multiset(s)
    ensures Find(Toggled(Toggled(s, id), id), id) == Find(s, id)
    ensures HasId(s, id) ==> Ordered(Toggled(Toggled(s, id), id))
  {
    if HasId(s, id) {
      var i :| 0 <= i < |s| && s[i].id == id;
      var p := s[i];
      FindUnique(s, i);
      ToggleOnce(s, i);
      var once := Toggled(s, id);
      assert Flip(p) in multiset(once);
      var j :| 0 <= j < |once| && once[j] == Flip(p);
      assert once[j].id == id;
      ToggleOnce(once, j);
      assert Flip(Flip(p)) == p;
      var twice := Toggled(once, id);
      assert Find(twice, id) == Some(p);
      assert p in multiset(s);
      SwapBack(multiset(s), p, Flip(p));
    }
  }

  lemma SwapBack<T>(m: multiset<T>, a: T, b: T)
    requires a in m
    ensures m - multiset{a} + multiset{b} - multiset{b} + multiset{a} == m
  {
  }

  /** Adding a record with a fresh id: one record more, ids still unique,
      the list ordered and the new record found by its id. */
  lemma AddThenSort(s: seq<Prompt>, x: Prompt)
    requires UniqueIds(s) && !HasId(s, x.id)
    ensures var r := SortDesc([x] + s);
            && Ordered(r) && UniqueIds(r) && |r| == |s| + 1
            && multiset(r) == multiset(s) + multiset{x}
            && Find(r, x.id) == Some(x)
  {
    UniqueIdsCons(x, s);
    SortOrdered([x] + s);
    SortUniqueIds([x] + s);
    SortPermutes([x] + s);
    var r := SortDesc([x] + s);
    assert x in multiset(r);
    var j :| 0 <= j < |r| && r[j] == x;
    FindUnique(r, j);
  }

  /** Rejection rule of `add_prompt`, as a scan that stops at the first match. */
  method ContainsImproved(s: seq<Prompt>, improved: string) returns (found: bool)
    ensures found <==> HasImproved(s, improved)
  {
    found := false;
    var i := 0;
    while i < |s| && !found
      invariant 0 <= i <= |s|
      invariant found <==> exists j :: 0 <= j < i && s[j].improved == improved
    {
      found := s[i].improved == improved;
      i := i + 1;
    }
  }

  /** Where `InsertFront` puts `x`: past the leading elements strictly above it. */
  method InsertionPoint(r: seq<Prompt>, x: Prompt) returns (k: nat)
    ensures k == CountAbove(r, x)
  {
    k := 0;
    while k < |r| && Above(r[k], x)
      invariant k <= |r|
      invariant forall j :: 0 <= j < k ==> Above(r[j], x)
    {
      k := k + 1;
    }
  }

  /** The sort of `_save_all_prompts` and `_load_prompts`, by insertion from the back. */
  method SortByKey(s: seq<Prompt>) returns (r: seq<Prompt>)
    ensures r == SortDesc(s)
  {
    r := [];
    var i := |s|;
    while i > 0
      invariant 0 <= i <= |s|
      invariant r == SortDesc(s[i..])
    {
      i := i - 1;
      var x := s[i];
      var k := InsertionPoint(r, x);
      InsertFrontAt(r, x);
      assert s[i..][0] == x && s[i..][1..] == s[i + 1..];
      assert SortDesc(s[i..]) == InsertFront(r, x);
      r := r[..k] + [x] + r[k..];
    }
  }

  /** `{p["id"]: p for p in prompts}`: later records win on a repeated id. */
  function IndexOf(s: seq<Prompt>): (m: map<string, Prompt>)
    ensures forall i :: 0 <= i < |s| ==> s[i].id in m
    ensures forall id :: id in m ==> m[id] in s && m[id].id == id
    ensures |s| > 0 ==> m[s[|s| - 1].id] == s[|s| - 1]
  {
    if s == [] then map[] else IndexOf(s[..|s| - 1])[s[|s| - 1].id := s[|s| - 1]]
  }

  /** For every repeated id the comprehension keeps the last record carrying it. */
  lemma {:induction false} IndexOfLastWins(s: seq<Prompt>, i: int)
    requires 0 <= i < |s| && forall j :: i < j < |s| ==> s[j].id != s[i].id
    ensures IndexOf(s)[s[i].id] == s[i]
  {
    if i < |s| - 1 {
      var t := s[..|s| - 1];
      assert t[i] == s[i];
      forall j | i < j < |t| ensures t[j].id != t[i].id {
        assert t[j] == s[j];
      }
      IndexOfLastWins(t, i);
      assert s[|s| - 1].id != s[i].id;
    }
  }

  /** The index maps exactly the ids of `s`, each to the record of `s` carrying it. */
  ghost predicate Indexes(m: map<string, Prompt>, s: seq<Prompt>)
  {
    && (forall i :: 0 <= i < |s| ==> s[i].id in m && m[s[i].id] == s[i])
    && (forall id :: id in m ==> HasId(s, id))
  }

  /** With unique ids the comprehension indexes every record. */
  lemma IndexOfIndexes(s: seq<Prompt>)
    requires UniqueIds(s)
    ensures Indexes(IndexOf(s), s)
  {
    var m := IndexOf(s);
    forall i | 0 <= i < |s| ensures m[s[i].id] == s[i] {
      var j :| 0 <= j < |s| && s[j] == m[s[i].id];
    }
    forall id | id in m ensures HasId(s, id) {
      var j :| 0 <= j < |s| && s[j] == m[id];
    }
  }

  method BuildIndex(s: seq<Prompt>) returns (m: map<string, Prompt>)
    ensures m == IndexOf(s)
  {
    m := map[];
    for i := 0 to |s|
      invariant m == IndexOf(s[..i])
    {
      assert s[..i + 1][..i] == s[..i];
      m := m[s[i].id := s[i]];
    }
    assert s[..|s|] == s;
  }

  /** An index stays valid when the list is rearranged. */
  lemma IndexesPermutation(m: map<string, Prompt>, s: seq<Prompt>, t: seq<Prompt>)
    requires Indexes(m, s) && multiset(s) == multiset(t)
    ensures Indexes(m, t)
  {
    forall i | 0 <= i < |t| ensures t[i].id in m && m[t[i].id] == t[i] {
      assert t[i] in multiset(s);
    }
    forall id | id in m ensures HasId(t, id) {
      var j :| 0 <= j < |s| && s[j].id == id;
      assert s[j] in multiset(t);
    }
  }

  /** Find through the index gives the same record as a scan of the list. */
  lemma IndexedFind(m: map<string, Prompt>, s: seq<Prompt>, id: string)
    requires Indexes(m, s) && UniqueIds(s)
    ensures id in m ==> Find(s, id) == Some(m[id])
    ensures id !in m ==> Find(s, id) == None
  {
    if id in m {
      var i :| 0 <= i < |s| && s[i].id == id;
      FindUnique(s, i);
    }
  }

  /** Adding a record under a fresh id and sorting keeps the index exact. */
  lemma IndexAfterAdd(m: map<string, Prompt>, s: seq<Prompt>, x: Prompt)
    requires Indexes(m, s) && x.id !in m
    ensures !HasId(s, x.id)
    ensures Indexes(m[x.id := x], SortDesc([x] + s))
  {
    var t := [x] + s;
    var m' := m[x.id := x];
    forall i | 0 <= i < |t| ensures t[i].id in m' && m'[t[i].id] == t[i] {
      if i > 0 { assert t[i] == s[i - 1]; }
    }
    forall id | id in m' ensures HasId(t, id) {
      if id != x.id {
        var j :| 0 <= j < |s| && s[j].id == id;
        assert t[j + 1].id == id;
      } else {
        assert t[0].id == id;
      }
    }
    SortPermutes(t);
    IndexesPermutation(m', t, SortDesc(t));
  }

  /** Replacing the record of a present id and sorting keeps the index exact. */
  lemma IndexAfterReplace(m: map<string, Prompt>, s: seq<Prompt>, q: Prompt)
    requires Indexes(m, s) && UniqueIds(s) && q.id in m
    ensures Indexes(m[q.id := q], SortDesc(Replaced(s, q.id, q)))
  {
    var t := Replaced(s, q.id, q);
    var m' := m[q.id := q];
    forall id | id in m' ensures HasId(t, id) {
      var j :| 0 <= j < |s| && s[j].id == id;
      assert t[j].id == id;
    }
    SortPermutes(t);
    IndexesPermutation(m', t, SortDesc(t));
  }

  /** Deleting an id from both the index and the list keeps the index exact. */
  lemma IndexAfterDelete(m: map<string, Prompt>, s: seq<Prompt>, id: string)
    requires Indexes(m, s)
    ensures Indexes(m - {id}, Without(s, id))
  {
    var t := Without(s, id);
    WithoutMembers(s, id);
    forall i | 0 <= i < |t| ensures t[i].id in m - {id} && (m - {id})[t[i].id] == t[i] {
      assert t[i] in t;
    }
    forall k | k in m - {id} ensures HasId(t, k) {
      var j :| 0 <= j < |s| && s[j].id == k;
      assert s[j] in t;
    }
  }
}
