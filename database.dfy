// The importer against a live `places.sqlite`: the three tables as fields of
// a database object, and every statement of utils/places.py,
// utils/triggers.py and bookmarks/bookmark.py as a method that changes them
// in place, proved to do what the matching function of `Statements` says.

module Store {
  import opened Results
  import opened Guid
  import opened SqlText
  import opened Places
  import opened Triggers
  import opened BookmarkTypes
  import opened Bookmarks
  import opened Statements

  /**
   * The scan a query without ORDER BY makes: the index of the first row, in
   * table order, that satisfies the WHERE clause.
   */
  method Scan<T>(rows: seq<T>, where: T -> bool) returns (k: Option<nat>)
    ensures k == FirstWhere(rows, where)
  {
    var i := 0;
    while i < |rows|
      invariant 0 <= i <= |rows|
      invariant forall j :: 0 <= j < i ==> !where(rows[j])
    {
      if where(rows[i]) {
        return Some(i);
      }
      i := i + 1;
    }
    return None;
  }

  /** A place with this GUID: `INSERT OR IGNORE` ignores a new row that has it. */
  function HasPlaceGuid(guid: string): Place -> bool
  {
    (p: Place) => p.guid == guid
  }

  /** Once a level of `insert_tree` has raised, the remaining turns change nothing. */
  lemma {:induction false} LevelStuck(st: State, env: Env, tree: seq<Node>, k: nat, m: nat, rootId: int,
                                      parentGuid: string, position: Option<int>, now: int)
    requires k <= m <= |tree|
    requires !InsertLevel(st, env, tree, k, rootId, parentGuid, position, now).out.ok
    ensures InsertLevel(st, env, tree, m, rootId, parentGuid, position, now)
         == InsertLevel(st, env, tree, k, rootId, parentGuid, position, now)
    decreases m
  {
    if m > k {
      LevelStuck(st, env, tree, k, m - 1, rootId, parentGuid, position, now);
    }
  }

  /**
   * A `places.sqlite` opened by the importer: `moz_places`, `moz_origins` and
   * `moz_bookmarks`, with the SQL functions `HASH`, `GENERATE_GUID`,
   * `get_prefix` and `get_host_and_port` registered, and the two temporary
   * triggers created.  `parse` stands for `urlparse`, `entropy(n)` for the
   * bytes of the n-th `secrets.token_bytes` call and `clock(n)` for the n-th
   * reading of the time in microseconds; `draws` and `clockReads` count the
   * calls made so far.
   */
  class Database {
    const parse: string -> UrlParts
    const entropy: nat -> RandomBytes
    const clock: nat -> int
    var places: seq<Place>
    var origins: seq<Origin>
    var bookmarks: seq<BookmarkRow>
    var draws: nat
    var clockReads: nat

    /** The tables and counters as one value. */
    function Snapshot(): State
      reads this
    {
      State(places, origins, bookmarks, draws, clockReads)
    }

    /** What the database takes from outside. */
    function Environment(): Env
    {
      Env(parse, entropy, clock)
    }

    /** A connection to a database with these rows, before any GUID is drawn or the clock read. */
    constructor (parse: string -> UrlParts, entropy: nat -> RandomBytes, clock: nat -> int,
                 places: seq<Place>, origins: seq<Origin>, bookmarks: seq<BookmarkRow>)
      ensures Environment() == Env(parse, entropy, clock)
      ensures Snapshot() == State(places, origins, bookmarks, 0, 0)
    {
      this.parse := parse;
      this.entropy := entropy;
      this.clock := clock;
      this.places := places;
      this.origins := origins;
      this.bookmarks := bookmarks;
      this.draws := 0;
      this.clockReads := 0;
    }

    /** `generate_guid`: the GUID of the next random draw. */
    method NextGuid() returns (g: string)
      modifies this
      ensures g == GuidOf(Environment(), old(draws)) && IsValidGuid(g)
      ensures Snapshot() == old(Snapshot()).(draws := old(draws) + 1)
    {
      g := GenerateGuid(entropy(draws)).value;
      draws := draws + 1;
    }

    /** `int(time.time() * 1_000_000)`: the next clock reading. */
    method ReadClock() returns (t: int)
      modifies this
      ensures t == clock(old(clockReads))
      ensures Snapshot() == old(Snapshot()).(clockReads := old(clockReads) + 1)
    {
      t := clock(clockReads);
      clockReads := clockReads + 1;
    }

    /** `fetch_place_id`: the id of the first place with the URL, or -1. */
    method FetchPlaceId(url: string) returns (id: int)
      ensures id == PlaceIdOf(places, url)
      ensures (forall i :: 0 <= i < |places| ==> places[i].url != url) ==> id == -1
    {
      var k := Scan(places, HasUrl(url));
      id := if k.None? then -1 else places[k.value].id;
    }

    /** `fetch_bookmark`: the first row with the GUID, or None. */
    method FetchBookmark(guid: string) returns (r: Option<BookmarkRow>)
      ensures r == FindBookmark(bookmarks, guid)
      ensures r.Some? ==> r.value in bookmarks && r.value.guid == guid
    {
      var k := Scan(bookmarks, HasGuid(guid));
      r := if k.None? then None else Some(bookmarks[k.value]);
    }

    /**
     * `maybe_insert_place`: the GUID of a place with the URL or, only when
     * there is none, a new one; the row goes in unless its GUID is taken,
     * and then the place trigger runs.
     */
    method MaybeInsertPlace(url: string)
      modifies this
      ensures Snapshot() == Statements.MaybeInsertPlace(old(Snapshot()), Environment(), url)
    {
      ghost var before := Snapshot();
      var guid := PlaceGuid(url);
      ghost var drawn := Snapshot();
      InsertOrIgnorePlace(url, guid);
      PlaceSteps(before, Environment(), url, guid, drawn, Snapshot());
    }

    /**
     * The GUID column of `maybe_insert_place`: `IFNULL` of the GUID of a
     * place with the URL and `GENERATE_GUID()`, which is called only when
     * there is no such place.
     */
    method PlaceGuid(url: string) returns (guid: string)
      modifies this
      ensures GuidOfUrl(old(places), url).Some? ==>
        guid == GuidOfUrl(old(places), url).value && Snapshot() == old(Snapshot())
      ensures GuidOfUrl(old(places), url).None? ==>
        guid == GuidOf(Environment(), old(draws)) && Snapshot() == old(Snapshot()).(draws := old(draws) + 1)
    {
      var k := Scan(places, SameUrl(url));
      if k.Some? {
        guid := places[k.value].guid;
      } else {
        guid := NextGuid();
      }
    }

    /**
     * The INSERT OR IGNORE of `maybe_insert_place` with the GUID `guid`:
     * ignored when a place has the GUID, and otherwise followed by the place
     * trigger.
     */
    method InsertOrIgnorePlace(url: string, guid: string)
      modifies this
      ensures GuidTaken(old(places), guid) ==> Snapshot() == old(Snapshot())
      ensures !GuidTaken(old(places), guid) ==>
        var row := NewPlace(old(places), parse, url, guid);
        var after := AfterPlaceInsert(old(places) + [row], old(origins), parse, row);
        Snapshot() == old(Snapshot()).(places := after.0, origins := after.1)
    {
      var row := NewPlace(places, parse, url, guid);
      var clash := Scan(places, HasPlaceGuid(guid));
      if clash.None? {
        places := places + [row];
        PlacesAfterInsert(row);
      } else {
        assert HasPlaceGuid(guid)(places[clash.value]);
      }
    }

    /**
     * `moz_places_afterinsert_trigger` for the new place `row`: the upsert
     * of its origin, then the UPDATE that points the place at it.
     */
    method PlacesAfterInsert(row: Place)
      modifies this
      ensures var after := AfterPlaceInsert(old(places), old(origins), parse, row);
        Snapshot() == old(Snapshot()).(places := after.0, origins := after.1)
    {
      var prefix, host := GetPrefix(parse, row.url), GetHostAndPort(parse, row.url);
      var excluded := Origin(NextRowId(origins, (o: Origin) => o.id), prefix, host, row.frecency, 1, 1);
      var k := Scan(origins, HasKey(prefix, host));
      if k.None? {
        origins := origins + [excluded];
      } else {
        origins := origins[k.value := ConflictUpdate(origins[k.value], excluded)];
      }
      var found := Scan(origins, HasKey(prefix, host));
      var originId := if found.None? then None else Some(origins[found.value].id);
      UpdateOriginId(row.id, originId);
    }

    /** `UPDATE moz_places SET origin_id = ... WHERE id = NEW.id`, row by row. */
    method UpdateOriginId(id: int, originId: Option<int>)
      modifies this
      ensures Snapshot() == old(Snapshot()).(places := SetOriginId(old(places), id, originId))
    {
      var i := 0;
      while i < |places|
        invariant 0 <= i <= |places| == |old(places)|
        invariant forall j :: 0 <= j < i ==> places[j] == SetOriginId(old(places), id, originId)[j]
        invariant places[i..] == old(places)[i..]
        invariant origins == old(origins) && bookmarks == old(bookmarks)
        invariant draws == old(draws) && clockReads == old(clockReads)
      {
        if places[i].id == id {
          places := places[i := places[i].(originId := originId)];
        }
        i := i + 1;
      }
    }

    /** `moz_bookmarks_foreign_count_afterinsert_trigger` for a new bookmark whose `fk` is `fk`: its two UPDATEs. */
    method BookmarksAfterInsert(fk: Option<int>)
      modifies this
      ensures Snapshot() == old(Snapshot()).(places := AfterBookmarkInsert(old(places), fk))
    {
      UpdateFrecency(fk);
      UpdateForeignCount(fk);
    }

    /** `UPDATE moz_places SET frecency = ... WHERE frecency = -1 AND id = NEW.fk`, row by row. */
    method UpdateFrecency(fk: Option<int>)
      modifies this
      ensures Snapshot() == old(Snapshot()).(places := RaiseFrecency(old(places), fk))
    {
      var i := 0;
      while i < |places|
        invariant 0 <= i <= |places| == |old(places)|
        invariant forall j :: 0 <= j < i ==> places[j] == RaiseFrecency(old(places), fk)[j]
        invariant places[i..] == old(places)[i..]
        invariant origins == old(origins) && bookmarks == old(bookmarks)
        invariant draws == old(draws) && clockReads == old(clockReads)
      {
        places := places[i := RaisedRow(places[i], fk)];
        i := i + 1;
      }
    }

    /** `UPDATE moz_places SET foreign_count = foreign_count + 1, ... WHERE id = NEW.fk`, row by row. */
    method UpdateForeignCount(fk: Option<int>)
      modifies this
      ensures Snapshot() == old(Snapshot()).(places := CountReference(old(places), fk))
    {
      var i := 0;
      while i < |places|
        invariant 0 <= i <= |places| == |old(places)|
        invariant forall j :: 0 <= j < i ==> places[j] == CountReference(old(places), fk)[j]
        invariant places[i..] == old(places)[i..]
        invariant origins == old(origins) && bookmarks == old(bookmarks)
        invariant draws == old(draws) && clockReads == old(clockReads)
      {
        places := places[i := CountedRow(places[i], fk)];
        i := i + 1;
      }
    }

    /**
     * One row of `insert_bookmarks`; false when its GUID is already in the
     * table, which raises and changes nothing.
     */
    method InsertBookmark(info: BookmarkInfo) returns (ok: bool)
      modifies this
      ensures Outcome(Snapshot(), ok) == Statements.InsertBookmark(old(Snapshot()), Environment(), info)
    {
      var dup := Scan(bookmarks, HasGuid(info.guid));
      if dup.Some? {
        return false;
      }
      var fk: Option<int> := None;
      if info.url.Some? {
        var k := Scan(places, SameUrl(info.url.value));
        fk := if k.None? then None else Some(places[k.value].id);
      }
      bookmarks := bookmarks + [NewBookmarkRow(bookmarks, fk, info)];
      BookmarksAfterInsert(fk);
      ok := true;
    }

    /** `insert_bookmarks`: the rows in order; false when one raised, the rows before it staying in. */
    method InsertBookmarks(items: seq<BookmarkInfo>) returns (ok: bool)
      modifies this
      ensures Outcome(Snapshot(), ok) == Statements.InsertBookmarks(old(Snapshot()), Environment(), items)
    {
      var i := 0;
      while i < |items|
        invariant 0 <= i <= |items|
        invariant Outcome(Snapshot(), true) == Statements.InsertBookmarks(old(Snapshot()), Environment(), items[..i])
      {
        ok := InsertBookmark(items[i]);
        assert items[..i + 1][..i] == items[..i];
        if !ok {
          StuckBookmarks(old(Snapshot()), Environment(), items, i + 1);
          return;
        }
        i := i + 1;
      }
      assert items[..i] == items;
      ok := true;
    }

    /** `remove_folder_contents`: one recursive DELETE of the descendants of each GUID, in order. */
    method RemoveFolderContents(guids: seq<string>)
      modifies this
      ensures Snapshot() == old(Snapshot()).(bookmarks := Bookmarks.RemoveFolderContents(old(bookmarks), guids))
    {
      var i := 0;
      while i < |guids|
        invariant 0 <= i <= |guids|
        invariant Snapshot() == old(Snapshot()).(bookmarks := Bookmarks.RemoveFolderContents(old(bookmarks), guids[..i]))
      {
        bookmarks := Keep(bookmarks, Descendants(bookmarks, guids[i]));
        assert guids[..i + 1][..i] == guids[..i];
        i := i + 1;
      }
      assert guids[..i] == guids;
    }

    /**
     * `remove_tree_if_exists`: select the children of the root named like a
     * top-level item, remove their contents, then delete them.
     */
    method RemoveTreeIfExists(tree: seq<Node>, rootId: int)
      modifies this
      ensures Snapshot() == old(Snapshot()).(bookmarks := Bookmarks.RemoveTreeIfExists(old(bookmarks), tree, rootId))
    {
      if |tree| == 0 {
        return;
      }
      var guids := MatchGuids(bookmarks, rootId, Names(tree));
      if |guids| > 0 {
        RemoveFolderContents(guids);
        bookmarks := KeepGuids(bookmarks, guids);
      }
    }

    /**
     * `insert_tree`: for each node in order, a bookmark inserts its place
     * and is held back; a folder goes in at once and its items after it;
     * the held-back bookmarks go in last.  False when a statement raised,
     * what went in before it staying in.
     */
    method InsertTree(tree: seq<Node>, rootId: int, parentGuid: string, position: Option<int>, dateAdded: Option<int>)
      returns (ok: bool)
      modifies this
      ensures Outcome(Snapshot(), ok)
           == Statements.InsertTree(old(Snapshot()), Environment(), tree, rootId, parentGuid, position, dateAdded)
      decreases tree, 2
    {
      if |tree| == 0 {
        return true;
      }
      ghost var before := Snapshot();
      var now: int;
      if dateAdded.Some? && dateAdded.value != 0 {
        now := dateAdded.value;
      } else {
        now := ReadClock();
      }
      ghost var clocked := Snapshot();
      var items;
      ok, items := InsertLevelLoop(tree, rootId, parentGuid, position, now);
      ghost var level := Level(Outcome(Snapshot(), ok), items);
      if ok && |items| > 0 {
        ok := InsertBookmarks(items);
      }
      TreeSteps(before, Environment(), tree, rootId, parentGuid, position, dateAdded, clocked, now,
                level, Outcome(Snapshot(), ok));
    }

    /**
     * The loop of `insert_tree` over the nodes, at the time `now`: the
     * bookmarks it holds back, or false as soon as a statement raised.
     */
    method InsertLevelLoop(tree: seq<Node>, rootId: int, parentGuid: string, position: Option<int>, now: int)
      returns (ok: bool, items: seq<BookmarkInfo>)
      modifies this
      ensures Level(Outcome(Snapshot(), ok), items)
           == InsertLevel(old(Snapshot()), Environment(), tree, |tree|, rootId, parentGuid, position, now)
      decreases tree, 1
    {
      ghost var start := Snapshot();
      ok, items := true, [];
      var i := 0;
      while i < |tree| && ok
        invariant 0 <= i <= |tree|
        invariant InsertLevel(start, Environment(), tree, i, rootId, parentGuid, position, now)
               == Level(Outcome(Snapshot(), ok), items)
      {
        ok, items := InsertNode(start, tree, i, items, rootId, parentGuid, position, now);
        i := i + 1;
      }
      if !ok {
        LevelStuck(start, Environment(), tree, i, |tree|, rootId, parentGuid, position, now);
      }
    }

    /**
     * Turn `i` of the loop of `insert_tree`, begun in the state `start`: a
     * bookmark inserts its place and joins the held-back `items` with a new
     * GUID; a folder goes in at once.
     */
    method InsertNode(ghost start: State, tree: seq<Node>, i: nat, items: seq<BookmarkInfo>, rootId: int,
                      parentGuid: string, position: Option<int>, now: int) returns (ok: bool, held: seq<BookmarkInfo>)
      requires i < |tree|
      requires InsertLevel(start, Environment(), tree, i, rootId, parentGuid, position, now)
            == Level(Outcome(Snapshot(), true), items)
      modifies this
      ensures Level(Outcome(Snapshot(), ok), held)
           == InsertLevel(start, Environment(), tree, i + 1, rootId, parentGuid, position, now)
      decreases tree, 0
    {
      LevelNext(start, Environment(), tree, i, rootId, parentGuid, position, now);
      var node := tree[i];
      if node.Bookmark? {
        MaybeInsertPlace(node.url);
        var guid := NextGuid();
        return true, items + [Item(node, rootId, parentGuid, position, now, guid)];
      }
      ok := InsertFolderNode(node, rootId, parentGuid, position, now);
      held := items;
    }

    /** A folder of `insert_tree`: its row through `insert_bookmarks`, then its items under it. */
    method InsertFolderNode(node: Node, rootId: int, parentGuid: string, position: Option<int>, now: int)
      returns (ok: bool)
      requires node.Folder?
      modifies this
      ensures Outcome(Snapshot(), ok) == InsertFolder(old(Snapshot()), Environment(), node, rootId, parentGuid, position, now)
      decreases node, 0
    {
      ghost var before := Snapshot();
      var guid := NextGuid();
      ok := InsertBookmarks([Item(node, rootId, parentGuid, position, now, guid)]);
      ghost var inserted := Outcome(Snapshot(), ok);
      if ok {
        ok := InsertTree(node.items, rootId, guid, None, None);
      }
      FolderSteps(before, Environment(), node, rootId, parentGuid, position, now, inserted, Outcome(Snapshot(), ok));
    }
  }

  /** A folder's outcome from the outcomes of its two steps. */
  lemma FolderSteps(st: State, env: Env, node: Node, rootId: int, parentGuid: string, position: Option<int>, now: int,
                    inserted: Outcome, r: Outcome)
    requires node.Folder?
    requires inserted == InsertBookmarks(st.(draws := st.draws + 1), env, [Item(node, rootId, parentGuid, position, now, GuidOf(env, st.draws))])
    requires !inserted.ok ==> r == inserted
    requires inserted.ok ==> r == InsertTree(inserted.st, env, node.items, rootId, GuidOf(env, st.draws), None, None)
    ensures r == InsertFolder(st, env, node, rootId, parentGuid, position, now)
  {
    InsertFolderUnfold(st, env, node, rootId, parentGuid, position, now);
  }

  /** The outcome of `insert_tree` on a non-empty tree from its clock step, its loop and its flush. */
  lemma TreeSteps(st: State, env: Env, tree: seq<Node>, rootId: int, parentGuid: string, position: Option<int>,
                  dateAdded: Option<int>, clocked: State, now: int, level: Level, r: Outcome)
    requires |tree| > 0
    requires dateAdded.Some? && dateAdded.value != 0 ==> clocked == st && now == dateAdded.value
    requires !(dateAdded.Some? && dateAdded.value != 0) ==>
      clocked == st.(clockReads := st.clockReads + 1) && now == env.clock(st.clockReads)
    requires level == InsertLevel(clocked, env, tree, |tree|, rootId, parentGuid, position, now)
    requires r == Flush(level, env)
    ensures r == InsertTree(st, env, tree, rootId, parentGuid, position, dateAdded)
  {
  }

  /** The outcome of `maybe_insert_place` from its GUID step and its insert. */
  lemma PlaceSteps(st: State, env: Env, url: string, guid: string, drawn: State, r: State)
    requires GuidOfUrl(st.places, url).Some? ==> guid == GuidOfUrl(st.places, url).value && drawn == st
    requires GuidOfUrl(st.places, url).None? ==> guid == GuidOf(env, st.draws) && drawn == st.(draws := st.draws + 1)
    requires GuidTaken(st.places, guid) ==> r == drawn
    requires !GuidTaken(st.places, guid) ==>
      var row := NewPlace(st.places, env.parse, url, guid);
      var after := AfterPlaceInsert(st.places + [row], st.origins, env.parse, row);
      r == drawn.(places := after.0, origins := after.1)
    ensures r == MaybeInsertPlace(st, env, url)
  {
  }

  /** One more turn of the loop of `insert_tree`. */
  lemma LevelNext(st: State, env: Env, tree: seq<Node>, i: nat, rootId: int, parentGuid: string,
                  position: Option<int>, now: int)
    requires i < |tree|
    ensures InsertLevel(st, env, tree, i + 1, rootId, parentGuid, position, now)
         == LevelStep(InsertLevel(st, env, tree, i, rootId, parentGuid, position, now), env, tree[i],
                      rootId, parentGuid, position, now)
  {
  }

  /** Once a row of `insert_bookmarks` has raised, the rows after it are not tried. */
  lemma {:induction false} StuckBookmarks(st: State, env: Env, items: seq<BookmarkInfo>, k: nat)
    requires k <= |items|
    requires !InsertBookmarks(st, env, items[..k]).ok
    ensures InsertBookmarks(st, env, items) == InsertBookmarks(st, env, items[..k])
    decreases |items|
  {
    if k < |items| {
      var init := items[..|items| - 1];
      assert init[..k] == items[..k];
      StuckBookmarks(st, env, init, k);
    } else {
      assert items[..k] == items;
    }
  }
}
