/** Favourites: public/js/favorites.js, and the paging of `renderBlocksPage` in
public/js/blocks.js.

A JavaScript `Set` is its elements in insertion order without repeats. Stored text that
does not parse is `None`. */
module Favorites {
  import opened Wrappers

  type Ids = seq<string>
  type Cache = map<string, Ids>
  type Storage = map<string, Option<Ids>>

  predicate NoRepeats(s: Ids) { forall i, j :: 0 <= i < j < |s| ==> s[i] != s[j] }

  /** Adding to a set. */
  function Added(s: Ids, id: string): Ids { if id in s then s else s + [id] }

  function ToSet(s: Ids): (r: Ids)
    ensures NoRepeats(r)
    ensures forall x :: x in r <==> x in s
  {
    if s == [] then []
    else
      assert s == s[..|s| - 1] + [s[|s| - 1]];
      Added(ToSet(s[..|s| - 1]), s[|s| - 1])
  }

  function Without(s: Ids, id: string): (r: Ids)
    ensures forall x :: x in r <==> x in s && x != id
    ensures NoRepeats(s) ==> NoRepeats(r)
  {
    if s == [] then []
    else
      var rest := Without(s[1..], id);
      assert s == [s[0]] + s[1..];
      assert NoRepeats(s) ==> s[0] !in s[1..];
      if s[0] == id then rest else [s[0]] + rest
  }

  /** What an uncached read of the storage returns. */
  function Loaded(storage: Storage, key: string): (s: Ids)
    ensures NoRepeats(s)
  {
    if key in storage && storage[key].Some? then ToSet(storage[key].value) else []
  }

  lemma {:induction false} ToSetOfSet(s: Ids)
    requires NoRepeats(s)
    ensures ToSet(s) == s
  {
    if s != [] {
      var n := |s| - 1;
      assert s == s[..n] + [s[n]];
      ToSetOfSet(s[..n]);
      assert s[n] !in s[..n];
    }
  }

  /** The favourites in force: the cached set, or the stored one. */
  function Current(cache: Cache, storage: Storage, key: string): Ids {
    if key in cache then cache[key] else Loaded(storage, key)
  }

  function Flipped(s: Ids, id: string): Ids { if id in s then Without(s, id) else s + [id] }

  /** A step: the page reads (and so caches) a key, or toggles an id under it; the storage write
      of a toggle may fail. */
  datatype Event = Get(key: string) | Toggle(key: string, id: string, stored: bool)

  datatype State = State(cache: Cache, storage: Storage)

  function Step(s: State, ev: Event): State {
    var favs := Current(s.cache, s.storage, ev.key);
    match ev
    case Get(key) => s.(cache := s.cache[key := favs])
    case Toggle(key, id, stored) =>
      var flipped := Flipped(favs, id);
      State(s.cache[key := flipped], if stored then s.storage[key := Some(flipped)] else s.storage)
  }

  function Run(s: State, evs: seq<Event>): State
    decreases |evs|
  {
    if evs == [] then s else Run(Step(s, evs[0]), evs[1..])
  }

  /** Every cached set is what an uncached reload would return. */
  predicate Synced(s: State) {
    forall key :: key in s.cache ==> NoRepeats(s.cache[key]) && s.cache[key] == Loaded(s.storage, key)
  }

  /** A toggle keeps cache and storage in step if and only if its write succeeds. */
  lemma ToggleSyncedIff(s: State, key: string, id: string, stored: bool)
    requires Synced(s)
    ensures Synced(Step(s, Toggle(key, id, stored))) <==> stored
  {
    hide Flipped, ToSet, NoRepeats;
    var favs := Current(s.cache, s.storage, key);
    var flipped := Flipped(favs, id);
    var s' := Step(s, Toggle(key, id, stored));
    FlippedFacts(favs, id);
    ToSetOfSet(flipped);
    if !stored { assert s'.cache[key] != Loaded(s'.storage, key); }
  }

  lemma FlippedFacts(favs: Ids, id: string)
    requires NoRepeats(favs)
    ensures NoRepeats(Flipped(favs, id))
    ensures id in Flipped(favs, id) <==> id !in favs
  {
  }

  /** A toggle takes the id out or puts it at the end, keeps all other favourites in their order, and touches
      no other list; the storage follows exactly if the write succeeds. */
  lemma ToggleMeans(s: State, key: string, id: string, stored: bool, x: string, other: string)
    ensures
      var t := Step(s, Toggle(key, id, stored));
      var favs := Current(s.cache, s.storage, key);
      && key in t.cache
      && (id in t.cache[key] <==> id !in favs) && (x != id ==> (x in t.cache[key] <==> x in favs))
      && Without(t.cache[key], id) == Without(favs, id)
      && (id !in favs ==> t.cache[key][|t.cache[key]| - 1] == id)
      && (if stored then key in t.storage && t.storage[key] == Some(t.cache[key]) else t.storage == s.storage)
      && (other != key ==> Current(t.cache, t.storage, other) == Current(s.cache, s.storage, other))
  {
    var favs := Current(s.cache, s.storage, key);
    if id in favs {
      WithoutAbsent(Without(favs, id), id);
    } else {
      WithoutLast(favs, id);
    }
  }

  lemma {:induction false} WithoutAbsent(s: Ids, id: string)
    requires id !in s
    ensures Without(s, id) == s
  {
    if s != [] {
      assert s[0] in s && s == [s[0]] + s[1..];
      WithoutAbsent(s[1..], id);
    }
  }

  lemma {:induction false} WithoutLast(s: Ids, id: string)
    ensures Without(s + [id], id) == Without(s, id)
  {
    if s != [] {
      assert (s + [id])[1..] == s[1..] + [id] && (s + [id])[0] == s[0];
      WithoutLast(s[1..], id);
    }
  }

  /** A read answers the cached list, or the stored one without repeats, and changes nothing it answers. */
  lemma GetMeans(s: State, key: string, x: string)
    ensures
      var t := Step(s, Get(key));
      && t.storage == s.storage && key in t.cache
      && (key in s.cache ==> t.cache[key] == s.cache[key])
      && (key !in s.cache ==>
            && NoRepeats(t.cache[key])
            && (x in t.cache[key] <==> key in s.storage && s.storage[key].Some? && x in s.storage[key].value))
      && (x != key ==> Current(t.cache, t.storage, x) == Current(s.cache, s.storage, x))
  {
  }

  /** Any interleaving of reads and successful toggles, over any number of users and entities,
      leaves every cached set equal to a reload. */
  lemma {:induction false} RunKeepsSynced(s: State, evs: seq<Event>)
    requires Synced(s) && forall i :: 0 <= i < |evs| && evs[i].Toggle? ==> evs[i].stored
    ensures Synced(Run(s, evs))
    decreases |evs|
  {
    if evs != [] {
      if evs[0].Toggle? { ToggleSyncedIff(s, evs[0].key, evs[0].id, evs[0].stored); }
      RunKeepsSynced(Step(s, evs[0]), evs[1..]);
    }
  }

  class FavoriteStore {
    var cache: Cache
    var storage: Storage

    function Model(): State reads this { State(cache, storage) }

    constructor (stored: Storage)
      ensures Model() == State(map[], stored)
    {
      cache, storage := map[], stored;
    }

    method GetFavorites(key: string) returns (favs: Ids)
      modifies this
      ensures Model() == Step(old(Model()), Get(key))
      ensures favs == Current(old(cache), old(storage), key)
    {
      if key in cache {
        favs := cache[key];
        assert cache == cache[key := favs];
        return;
      }
      favs := [];
      if key in storage && storage[key].Some? {
        var raw := storage[key].value;
        for i := 0 to |raw|
          invariant favs == ToSet(raw[..i])
        {
          assert raw[..i + 1][..i] == raw[..i];
          favs := Added(favs, raw[i]);
        }
        assert raw[..|raw|] == raw;
      }
      cache := cache[key := favs];
    }

    method ToggleFavorite(key: string, id: string, stored: bool) returns (now: bool)
      modifies this
      ensures Model() == Step(old(Model()), Toggle(key, id, stored))
      ensures now <==> id !in Current(old(cache), old(storage), key)
    {
      hide Loaded, Without;
      var s := GetFavorites(key);
      s := if id in s then Without(s, id) else s + [id];
      if stored { storage := storage[key := Some(s)]; }
      cache := cache[key := s];
      now := id in s;
    }
  }

  // ----- Favourites first

  datatype Item = Item(id: string, data: string)

  function Pick(rows: seq<Item>, favs: Ids, want: bool): seq<Item> {
    if rows == [] then []
    else
      var last := rows[|rows| - 1];
      Pick(rows[..|rows| - 1], favs, want) + (if (last.id in favs) == want then [last] else [])
  }

  /** `sortFavoritesFirst`: favourites in their own order, then the rest in theirs. */
  method SortFavoritesFirst(rows: seq<Item>, favs: Ids) returns (out: seq<Item>)
    ensures out == Pick(rows, favs, true) + Pick(rows, favs, false)
  {
    if favs == [] {
      PickNone(rows);
      return rows;
    }
    var favRows, rest := [], [];
    for i := 0 to |rows|
      invariant favRows == Pick(rows[..i], favs, true) && rest == Pick(rows[..i], favs, false)
    {
      assert rows[..i + 1][..i] == rows[..i];
      if rows[i].id in favs { favRows := favRows + [rows[i]]; } else { rest := rest + [rows[i]]; }
    }
    assert rows[..|rows|] == rows;
    out := favRows + rest;
  }

  lemma {:induction false} PickNone(rows: seq<Item>)
    ensures Pick(rows, [], true) == [] && Pick(rows, [], false) == rows
  {
    if rows != [] {
      PickNone(rows[..|rows| - 1]);
      assert rows == rows[..|rows| - 1] + [rows[|rows| - 1]];
    }
  }

  lemma {:induction false} PickUniform(rows: seq<Item>, favs: Ids, want: bool)
    ensures forall i :: 0 <= i < |Pick(rows, favs, want)| ==> (Pick(rows, favs, want)[i].id in favs) == want
  {
    if rows != [] { PickUniform(rows[..|rows| - 1], favs, want); }
  }

  lemma {:induction false} PickAll(rows: seq<Item>, favs: Ids, want: bool)
    requires forall i :: 0 <= i < |rows| ==> (rows[i].id in favs) == want
    ensures Pick(rows, favs, want) == rows && Pick(rows, favs, !want) == []
  {
    if rows != [] {
      PickAll(rows[..|rows| - 1], favs, want);
      assert rows == rows[..|rows| - 1] + [rows[|rows| - 1]];
    }
  }

  lemma {:induction false} PickAppend(a: seq<Item>, b: seq<Item>, favs: Ids, want: bool)
    ensures Pick(a + b, favs, want) == Pick(a, favs, want) + Pick(b, favs, want)
  {
    if b == [] {
      assert a + b == a;
    } else {
      var n := |b| - 1;
      PickAppend(a, b[..n], favs, want);
      assert (a + b)[..|a + b| - 1] == a + b[..n] && (a + b)[|a + b| - 1] == b[n];
    }
  }

  lemma MultisetSnoc(rows: seq<Item>, row: Item)
    ensures multiset(rows + [row]) == multiset(rows) + multiset{row}
  {
  }

  lemma PickNothing(favs: Ids)
    ensures Pick([], favs, true) == [] == Pick([], favs, false)
  {
  }

  lemma PickSnoc(rows: seq<Item>, row: Item, favs: Ids)
    ensures
      var yes, no := Pick(rows, favs, true), Pick(rows, favs, false);
      var yes', no' := Pick(rows + [row], favs, true), Pick(rows + [row], favs, false);
      if row.id in favs then yes' == yes + [row] && no' == no else yes' == yes && no' == no + [row]
  {
    assert (rows + [row])[..|rows|] == rows;
  }

  lemma {:induction false} PickMultiset(rows: seq<Item>, favs: Ids)
    ensures multiset(Pick(rows, favs, true)) + multiset(Pick(rows, favs, false)) == multiset(rows)
  {
    hide Pick;
    if rows == [] {
      PickNothing(favs);
    } else {
      var front, row := rows[..|rows| - 1], rows[|rows| - 1];
      PickMultiset(front, favs);
      assert rows == front + [row];
      MultisetSnoc(front, row);
      var yes, no := Pick(front, favs, true), Pick(front, favs, false);
      PickSnoc(front, row, favs);
      MultisetSnoc(if row.id in favs then yes else no, row);
    }
  }

  /** The ordering is a stable permutation with the favourites in front: the same rows, all
      favourites before all others, each group in its original order. */
  lemma FavoritesFirstIsStable(rows: seq<Item>, favs: Ids)
    ensures
      var out := Pick(rows, favs, true) + Pick(rows, favs, false);
      && multiset(out) == multiset(rows)
      && (forall i, j :: 0 <= i < j < |out| && out[j].id in favs ==> out[i].id in favs)
      && Pick(out, favs, true) == Pick(rows, favs, true)
      && Pick(out, favs, false) == Pick(rows, favs, false)
  {
    hide Pick;
    var yes, no := Pick(rows, favs, true), Pick(rows, favs, false);
    PickMultiset(rows, favs);
    PickUniform(rows, favs, true);
    PickUniform(rows, favs, false);
    forall want: bool ensures Pick(yes + no, favs, want) == Pick(rows, favs, want) {
      PickAppend(yes, no, favs, want);
      PickAll(yes, favs, true);
      PickAll(no, favs, false);
    }
  }

  // ----- Pages

  /** `slice(start, end)` with bounds past the end. */
  function Slice(rows: seq<Item>, start: nat, end: nat): seq<Item>
    requires start <= end
  {
    if start >= |rows| then [] else rows[start..if end < |rows| then end else |rows|]
  }

  function Page(rows: seq<Item>, page: nat, size: nat): seq<Item>
    requires page >= 1
  {
    Slice(rows, (page - 1) * size, (page - 1) * size + size)
  }

  function Pages(rows: seq<Item>, n: nat, size: nat): seq<Item> {
    if n == 0 then [] else Pages(rows, n - 1, size) + Page(rows, n, size)
  }

  lemma {:induction false} PagesPrefix(rows: seq<Item>, n: nat, size: nat)
    ensures Pages(rows, n, size) == rows[..if n * size < |rows| then n * size else |rows|]
  {
    if n != 0 {
      PagesPrefix(rows, n - 1, size);
      assert n * size == (n - 1) * size + size;
      SliceExtends(rows, (n - 1) * size, size);
    }
  }

  lemma SliceExtends(rows: seq<Item>, k: nat, size: nat)
    ensures rows[..if k < |rows| then k else |rows|] + Slice(rows, k, k + size)
      == rows[..if k + size < |rows| then k + size else |rows|]
  {
  }

  /** The pages of a list, one after the other, show every row exactly once and in order. */
  lemma PagesCover(rows: seq<Item>, n: nat, size: nat)
    requires n * size >= |rows|
    ensures Pages(rows, n, size) == rows
  {
    PagesPrefix(rows, n, size);
  }
}
