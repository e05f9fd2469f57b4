/**
 * What each statement of the importer does to the whole database: the
 * tables `moz_places`, `moz_origins` and `moz_bookmarks`, with the temporary
 * triggers fired where SQLite fires them, and the number of GUIDs drawn and
 * clock readings taken so far.  `insert_tree` and its loop are functions here;
 * module Store runs the same steps on a mutable database and is proved to
 * reach the states these functions give.
 */
module Statements {
  import opened Results
  import opened SqlText
  import opened Guid
  import opened Places
  import opened Triggers
  import opened BookmarkTypes
  import opened Bookmarks

  /**
   * What the importer takes from outside: `urlparse`, the bytes
   * `secrets.token_bytes` returns on its n-th call, and the n-th reading of
   * `int(time.time() * 1_000_000)`.
   */
  datatype Env = Env(parse: string -> UrlParts, entropy: nat -> RandomBytes, clock: nat -> int)

  /** The three tables and how many GUIDs and clock readings have been used. */
  datatype State = State(
    places: seq<Place>,
    origins: seq<Origin>,
    bookmarks: seq<BookmarkRow>,
    draws: nat,
    clockReads: nat)

  /** The result of a statement that can raise: the state it leaves, and whether it completed. */
  datatype Outcome = Outcome(st: State, ok: bool)

  /** The GUID of the n-th `generate_guid` call. */
  function GuidOf(env: Env, n: nat): (g: string)
    ensures IsValidGuid(g)
  {
    GenerateGuid(env.entropy(n)).value
  }

  /**
   * `maybe_insert_place`: INSERT OR IGNORE of the place for `url`, whose GUID
   * is the one of a place with the same hash and URL or, only when there is
   * none, a new one; when the row goes in, the place trigger runs.
   */
  function MaybeInsertPlace(st: State, env: Env, url: string): (r: State)
    ensures r.bookmarks == st.bookmarks && r.clockReads == st.clockReads
  {
    var existing := GuidOfUrl(st.places, url);
    var guid := if existing.Some? then existing.value else GuidOf(env, st.draws);
    var draws := if existing.Some? then st.draws else st.draws + 1;
    var row := NewPlace(st.places, env.parse, url, guid);
    if GuidTaken(st.places, guid) then st.(draws := draws)
    else
      var after := AfterPlaceInsert(st.places + [row], st.origins, env.parse, row);
      st.(places := after.0, origins := after.1, draws := draws)
  }

  /**
   * One row of `insert_bookmarks`: the item's URL resolved to a place id, the
   * row appended, and the bookmark trigger run.  A GUID already in the table
   * violates its unique index: the statement raises and changes nothing.
   */
  function InsertBookmark(st: State, env: Env, info: BookmarkInfo): (r: Outcome)
    ensures r.st.clockReads == st.clockReads && r.st.draws == st.draws && r.st.origins == st.origins
  {
    if exists i :: 0 <= i < |st.bookmarks| && st.bookmarks[i].guid == info.guid then Outcome(st, false)
    else
      var fk := if info.url.None? then None else PlaceIdByHash(st.places, info.url.value);
      var row := NewBookmarkRow(st.bookmarks, fk, info);
      Outcome(st.(bookmarks := st.bookmarks + [row], places := AfterBookmarkInsert(st.places, fk)), true)
  }

  /** `insert_bookmarks` (`executemany`): the rows one after another, stopping at the first that raises. */
  function InsertBookmarks(st: State, env: Env, items: seq<BookmarkInfo>): (r: Outcome)
    ensures r.st.clockReads == st.clockReads && r.st.draws == st.draws && r.st.origins == st.origins
    decreases |items|
  {
    if |items| == 0 then Outcome(st, true)
    else
      var before := InsertBookmarks(st, env, items[..|items| - 1]);
      if !before.ok then before else InsertBookmark(before.st, env, items[|items| - 1])
  }

  /** The item for one node of a level of `insert_tree`. */
  function Item(node: Node, rootId: int, parentGuid: string, position: Option<int>, now: int, guid: string): BookmarkInfo
  {
    BookmarkInfo(
      if node.Bookmark? then Some(node.url) else None,
      if node.Bookmark? then TYPE_BOOKMARK else TYPE_FOLDER,
      rootId, parentGuid, node.name, position, now, now, guid, SYNC_STATUS_NEW, 1)
  }

  /** Where the loop of one level of `insert_tree` stands: the outcome so far and the bookmarks held back. */
  datatype Level = Level(out: Outcome, items: seq<BookmarkInfo>)

  /**
   * `insert_tree`: nothing for an empty tree; otherwise the time `now`
   * (`date_added`, or a clock reading when it is None or 0), the loop over
   * the nodes, and the held-back bookmarks in one `insert_bookmarks`.
   */
  function InsertTree(st: State, env: Env, tree: seq<Node>, rootId: int, parentGuid: string,
                      position: Option<int>, dateAdded: Option<int>): (r: Outcome)
    decreases tree, 1
  {
    if |tree| == 0 then Outcome(st, true)
    else
      var given := dateAdded.Some? && dateAdded.value != 0;
      var now := if given then dateAdded.value else env.clock(st.clockReads);
      var clocked := if given then st else st.(clockReads := st.clockReads + 1);
      Flush(InsertLevel(clocked, env, tree, |tree|, rootId, parentGuid, position, now), env)
  }

  /** The end of a level: its held-back bookmarks in one `insert_bookmarks`, if there are any and nothing raised. */
  function Flush(level: Level, env: Env): Outcome
  {
    if !level.out.ok || |level.items| == 0 then level.out
    else InsertBookmarks(level.out.st, env, level.items)
  }

  /** The loop of `insert_tree` over the first `n` nodes. */
  function InsertLevel(st: State, env: Env, tree: seq<Node>, n: nat, rootId: int, parentGuid: string,
                       position: Option<int>, now: int): (r: Level)
    requires n <= |tree|
    decreases tree, 0, n
  {
    if n == 0 then Level(Outcome(st, true), [])
    else LevelStep(InsertLevel(st, env, tree, n - 1, rootId, parentGuid, position, now), env, tree[n - 1],
                   rootId, parentGuid, position, now)
  }

  /**
   * One turn of the loop, once nothing has raised: a bookmark inserts its
   * place and is held back with a new GUID; a folder is inserted at once,
   * with its items.
   */
  function LevelStep(prev: Level, env: Env, node: Node, rootId: int, parentGuid: string,
                     position: Option<int>, now: int): (r: Level)
    decreases node, 3
  {
    if !prev.out.ok then prev
    else
      match node
      case Bookmark(_, url) =>
        var placed := MaybeInsertPlace(prev.out.st, env, url);
        var info := Item(node, rootId, parentGuid, position, now, GuidOf(env, placed.draws));
        Level(Outcome(placed.(draws := placed.draws + 1), true), prev.items + [info])
      case Folder(_, _) =>
        Level(InsertFolder(prev.out.st, env, node, rootId, parentGuid, position, now), prev.items)
  }

  /**
   * One folder of the loop of `insert_tree`: it draws its GUID, goes in at
   * once through `insert_bookmarks`, and, when that completes, its items go
   * in through the recursive call, with the same root, the folder as parent,
   * and no position or date.
   */
  function InsertFolder(st: State, env: Env, node: Node, rootId: int, parentGuid: string,
                        position: Option<int>, now: int): (r: Outcome)
    requires node.Folder?
    decreases node, 2
  {
    var guid := GuidOf(env, st.draws);
    var inserted := InsertBookmarks(st.(draws := st.draws + 1), env, [Item(node, rootId, parentGuid, position, now, guid)]);
    if !inserted.ok then inserted
    else InsertTree(inserted.st, env, node.items, rootId, guid, None, None)
  }

  // ---------------------------------------------------------------------
  // One place, one bookmark

  /** Some place has the URL, found through its hash as `maybe_insert_place` looks it up. */
  predicate Recorded(places: seq<Place>, url: string)
  {
    exists i :: 0 <= i < |places| && places[i].urlHash == UrlHash.HashOfUrl(url) && places[i].url == url
  }

  /** The places that have the URL and its hash. */
  function UrlRows(places: seq<Place>, url: string): set<int>
  {
    set i | 0 <= i < |places| && places[i].urlHash == UrlHash.HashOfUrl(url) && places[i].url == url
  }

  /**
   * `maybe_insert_place`: a URL already recorded changes nothing and draws no
   * GUID.  Otherwise one GUID is drawn; if some place already has it, the
   * INSERT OR IGNORE is ignored; if not, the new place is appended with the
   * values of `NewPlace` and points at the origin of its prefix and host,
   * and the origin keys and the place GUIDs stay unique.
   */
  lemma MaybeInsertPlaceEffect(st: State, env: Env, url: string)
    ensures var r := MaybeInsertPlace(st, env, url);
      var guid := GuidOf(env, st.draws);
      && (Recorded(st.places, url) ==> r == st)
      && (!Recorded(st.places, url) && GuidTaken(st.places, guid) ==> r == st.(draws := st.draws + 1))
      && (!Recorded(st.places, url) && !GuidTaken(st.places, guid) && KeysUnique(st.origins) ==>
            PlaceAdded(st, r, env.parse, url, guid))
  {
    var guid := GuidOf(env, st.draws);
    if Recorded(st.places, url) {
      MaybeInsertPlaceRecorded(st, env, url);
    } else if !GuidTaken(st.places, guid) && KeysUnique(st.origins) {
      MaybeInsertPlaceNew(st, env, url);
    }
  }

  lemma MaybeInsertPlaceRecorded(st: State, env: Env, url: string)
    requires Recorded(st.places, url)
    ensures MaybeInsertPlace(st, env, url) == st
  {
    var existing := GuidOfUrl(st.places, url);
    assert existing.Some?;
    assert GuidTaken(st.places, existing.value);
  }

  lemma MaybeInsertPlaceNew(st: State, env: Env, url: string)
    requires !Recorded(st.places, url)
    requires !GuidTaken(st.places, GuidOf(env, st.draws)) && KeysUnique(st.origins)
    ensures PlaceAdded(st, MaybeInsertPlace(st, env, url), env.parse, url, GuidOf(env, st.draws))
  {
    var guid := GuidOf(env, st.draws);
    assert GuidOfUrl(st.places, url).None?;
    NewPlaceTriggered(st.places, st.origins, env.parse, url, guid);
  }

  /** The new place after the place trigger, with the tables alone in sight. */
  lemma NewPlaceTriggered(places: seq<Place>, origins: seq<Origin>, parse: string -> UrlParts, url: string, guid: string)
    requires KeysUnique(origins)
    ensures var row := NewPlace(places, parse, url, guid);
      var after := AfterPlaceInsert(places + [row], origins, parse, row);
      var n := |places|;
      && |after.0| == n + 1 && after.0[..n] == places && after.0[n].(originId := None) == row
      && KeysUnique(after.1)
      && exists k :: 0 <= k < |after.1| && after.1[k].prefix == GetPrefix(parse, url)
           && after.1[k].host == GetHostAndPort(parse, url) && after.0[n].originId == Some(after.1[k].id)
  {
    var row := NewPlace(places, parse, url, guid);
    AfterPlaceInsertEffect(places + [row], origins, parse, row);
    assert (places + [row])[..|places|] == places;
  }

  /**
   * The place inserted for `url` with the GUID `guid`: appended after the old
   * places, with the values of `NewPlace` and the id of the one origin of its
   * prefix and host.
   */
  predicate PlaceAdded(st: State, r: State, parse: string -> UrlParts, url: string, guid: string)
  {
    var n := |st.places|;
    && r.bookmarks == st.bookmarks && r.clockReads == st.clockReads && r.draws == st.draws + 1
    && |r.places| == n + 1 && r.places[..n] == st.places
    && r.places[n].(originId := None) == NewPlace(st.places, parse, url, guid)
    && KeysUnique(r.origins)
    && exists k :: 0 <= k < |r.origins| && r.origins[k].prefix == GetPrefix(parse, url)
         && r.origins[k].host == GetHostAndPort(parse, url) && r.places[n].originId == Some(r.origins[k].id)
  }

  /**
   * After `maybe_insert_place`, the URL is recorded unless the drawn GUID
   * was taken, and a second call changes nothing more.
   */
  lemma MaybeInsertPlaceTwice(st: State, env: Env, url: string)
    requires !GuidTaken(st.places, GuidOf(env, st.draws)) && KeysUnique(st.origins)
    ensures var r := MaybeInsertPlace(st, env, url);
      && Recorded(r.places, url)
      && MaybeInsertPlace(r, env, url) == r
  {
    MaybeInsertPlaceEffect(st, env, url);
    var r := MaybeInsertPlace(st, env, url);
    if !Recorded(st.places, url) {
      var n := |st.places|;
      assert r.places[n].urlHash == UrlHash.HashOfUrl(url) && r.places[n].url == url;
    }
    assert Recorded(r.places, url);
    MaybeInsertPlaceEffect(r, env, url);
  }

  /**
   * With GUIDs unique, a URL that had no place has exactly one afterwards,
   * and a URL that had one keeps exactly its places.
   */
  lemma MaybeInsertPlaceOnce(st: State, env: Env, url: string)
    requires !GuidTaken(st.places, GuidOf(env, st.draws)) && KeysUnique(st.origins)
    ensures var r := MaybeInsertPlace(st, env, url);
      && (!Recorded(st.places, url) ==> UrlRows(r.places, url) == {|st.places|})
      && (Recorded(st.places, url) ==> UrlRows(r.places, url) == UrlRows(st.places, url))
  {
    var r := MaybeInsertPlace(st, env, url);
    if Recorded(st.places, url) {
      MaybeInsertPlaceRecorded(st, env, url);
    } else {
      MaybeInsertPlaceNew(st, env, url);
      UrlRowsAppend(st.places, r.places, url);
    }
  }

  /** One matching place appended to places of which none matched. */
  lemma UrlRowsAppend(before: seq<Place>, after: seq<Place>, url: string)
    requires |after| == |before| + 1 && after[..|before|] == before
    requires after[|before|].urlHash == UrlHash.HashOfUrl(url) && after[|before|].url == url
    requires !Recorded(before, url)
    ensures UrlRows(after, url) == {|before|}
  {
    assert forall i :: 0 <= i < |before| ==> after[i] == before[i];
  }

  /**
   * One row of `insert_bookmarks`: it completes exactly when no row has the
   * item's GUID, and then appends a row with a larger id than every other,
   * the item's GUID, kind and times, the parent looked up by GUID, the
   * given position or else the number of children of the root, the title
   * with "" stored as NULL, and the place of the item's URL (none for a
   * folder); the bookmark trigger then runs on that place.  GUIDs stay unique.
   */
  lemma InsertBookmarkEffect(st: State, env: Env, info: BookmarkInfo)
    ensures var r := InsertBookmark(st, env, info);
      && (r.ok <==> forall i :: 0 <= i < |st.bookmarks| ==> st.bookmarks[i].guid != info.guid)
      && (!r.ok ==> r.st == st)
      && (r.ok ==> RowAdded(st, r.st, info))
      && (Bookmarks.GuidsUnique(st.bookmarks) ==> Bookmarks.GuidsUnique(r.st.bookmarks))
  {
    var r := InsertBookmark(st, env, info);
    if r.ok {
      var n := |st.bookmarks|;
      assert r.st.bookmarks[..n] == st.bookmarks;
    }
  }

  /** The row `insert_bookmarks` appends for `info`, and the trigger's effect on the places. */
  predicate RowAdded(st: State, r: State, info: BookmarkInfo)
  {
    var n := |st.bookmarks|;
    && |r.bookmarks| == n + 1 && r.bookmarks[..n] == st.bookmarks
    && var b := r.bookmarks[n];
    && (forall i :: 0 <= i < n ==> st.bookmarks[i].id < b.id)
    && b.guid == info.guid && b.kind == info.kind
    && b.dateAdded == info.dateAdded && b.lastModified == info.lastModified
    && b.syncStatus == info.syncStatus && b.syncChangeCounter == info.syncChangeCounter
    && b.parent == ParentIdOf(st.bookmarks, info.parentGuid)
    && b.position == (if info.position.Some? then info.position.value else CountChildren(st.bookmarks, info.rootId))
    && b.title == NullIfEmpty(info.title)
    && (info.url.None? ==> b.fk.None?)
    && (info.url.Some? ==> b.fk == PlaceIdByHash(st.places, info.url.value))
    && r.places == AfterBookmarkInsert(st.places, b.fk)
    && r.origins == st.origins && r.draws == st.draws && r.clockReads == st.clockReads
  }

  /** A URL whose place was recorded resolves to the id of a place with that URL. */
  lemma RecordedResolves(places: seq<Place>, url: string)
    requires Recorded(places, url)
    ensures PlaceIdByHash(places, url).Some?
    ensures exists i :: 0 <= i < |places| && places[i].url == url && places[i].id == PlaceIdByHash(places, url).value
  {
  }

  /** Appending rows never changes which row a GUID finds first, so a parent once found stays found. */
  lemma {:induction false} ParentStable(rows: seq<BookmarkRow>, more: seq<BookmarkRow>, guid: string)
    requires ParentIdOf(rows, guid).Some?
    ensures ParentIdOf(rows + more, guid) == ParentIdOf(rows, guid)
  {
    var k := FirstWhere(rows, HasGuid(guid));
    var k' := FirstWhere(rows + more, HasGuid(guid));
    assert (rows + more)[k.value] == rows[k.value];
    assert k'.Some? && k'.value <= k.value;
    assert (rows + more)[k'.value] == rows[k'.value];
  }

  // ---------------------------------------------------------------------
  // What `insert_tree` does to `moz_bookmarks`

  /** `after` is `before` with rows appended: no existing row changes or goes. */
  predicate Appended<T(==)>(before: seq<T>, after: seq<T>)
  {
    |before| <= |after| && after[..|before|] == before
  }

  /**
   * A row as `insert_tree` writes it: sync status NEW, change counter 1, and
   * the same time added and modified.
   */
  predicate FreshRow(b: BookmarkRow)
  {
    b.syncStatus == SYNC_STATUS_NEW && b.syncChangeCounter == 1 && b.dateAdded == b.lastModified
  }

  /**
   * `after` extends `before` with fresh rows; when `counted`, each new row's
   * position is the number of rows before it whose parent is the root.
   */
  predicate Extends(before: seq<BookmarkRow>, after: seq<BookmarkRow>, rootId: int, counted: bool)
  {
    && Appended(before, after)
    && forall k :: |before| <= k < |after| ==>
         FreshRow(after[k]) && (counted ==> after[k].position == CountChildren(after[..k], rootId))
  }

  lemma ExtendsTrans(a: seq<BookmarkRow>, b: seq<BookmarkRow>, c: seq<BookmarkRow>, rootId: int, counted: bool)
    requires Extends(a, b, rootId, counted) && Extends(b, c, rootId, counted)
    ensures Extends(a, c, rootId, counted)
  {
    forall k | |a| <= k < |b|
      ensures c[k] == b[k] && c[..k] == b[..k]
    {
      assert c[..|b|] == b;
      assert c[..k] == c[..|b|][..k];
    }
  }

  /** An item as `insert_tree` builds it, for the root `rootId`; without a position when `counted`. */
  predicate ItemFits(info: BookmarkInfo, rootId: int, counted: bool)
  {
    && info.syncStatus == SYNC_STATUS_NEW && info.syncChangeCounter == 1
    && info.dateAdded == info.lastModified && info.rootId == rootId
    && (counted ==> info.position.None?)
  }

  /** One row: appended with the item's kind and title when it completes, nothing at all when it raises. */
  lemma InsertBookmarkRow(st: State, env: Env, info: BookmarkInfo)
    ensures var r := InsertBookmark(st, env, info);
      && (r.ok ==> exists b :: r.st.bookmarks == st.bookmarks + [b] && b.kind == info.kind && b.title == NullIfEmpty(info.title))
      && (!r.ok ==> r.st == st)
  {
  }

  /** The row that goes in is fresh, and counted when the item has no position. */
  lemma InsertBookmarkExtends(st: State, env: Env, info: BookmarkInfo, rootId: int, counted: bool)
    requires ItemFits(info, rootId, counted)
    ensures Extends(st.bookmarks, InsertBookmark(st, env, info).st.bookmarks, rootId, counted)
  {
    var r := InsertBookmark(st, env, info);
    if r.ok {
      assert r.st.bookmarks[..|st.bookmarks|] == st.bookmarks;
    }
  }

  /** The kind of a row and its title, NULL read as "". */
  function Label(b: BookmarkRow): (int, string)
  {
    (b.kind, if b.title.Some? then b.title.value else "")
  }

  /** The kind and the title text of each row. */
  function Shape(rows: seq<BookmarkRow>): (r: seq<(int, string)>)
    ensures |r| == |rows|
  {
    if |rows| == 0 then [] else Shape(rows[..|rows| - 1]) + [Label(rows[|rows| - 1])]
  }

  /** The kind and the title of each item. */
  function ItemShape(items: seq<BookmarkInfo>): (r: seq<(int, string)>)
    ensures |r| == |items|
  {
    if |items| == 0 then [] else ItemShape(items[..|items| - 1]) + [(items[|items| - 1].kind, items[|items| - 1].title)]
  }

  /** `insert_bookmarks` appends only fresh rows, counted when the items have no position. */
  lemma {:induction false} InsertBookmarksExtends(st: State, env: Env, items: seq<BookmarkInfo>, rootId: int, counted: bool)
    requires forall i :: 0 <= i < |items| ==> ItemFits(items[i], rootId, counted)
    ensures Extends(st.bookmarks, InsertBookmarks(st, env, items).st.bookmarks, rootId, counted)
    decreases |items|
  {
    if |items| > 0 {
      var init := items[..|items| - 1];
      var before := InsertBookmarks(st, env, init);
      InsertBookmarksExtends(st, env, init, rootId, counted);
      if before.ok {
        InsertBookmarkExtends(before.st, env, items[|items| - 1], rootId, counted);
        ExtendsTrans(st.bookmarks, before.st.bookmarks, InsertBookmarks(st, env, items).st.bookmarks, rootId, counted);
      }
    }
  }

  /**
   * When `insert_bookmarks` completes, it has added one row per item, with
   * the item's kind and title, in the items' order.
   */
  lemma {:induction false} InsertBookmarksShape(st: State, env: Env, items: seq<BookmarkInfo>)
    ensures var r := InsertBookmarks(st, env, items);
      r.ok ==> Adds(st.bookmarks, r.st.bookmarks, ItemShape(items))
    decreases |items|
  {
    if |items| > 0 {
      var init := items[..|items| - 1];
      var last := items[|items| - 1];
      var before := InsertBookmarks(st, env, init);
      InsertBookmarksShape(st, env, init);
      assert items == init + [last];
      if before.ok {
        assert InsertBookmarks(st, env, items) == InsertBookmark(before.st, env, last);
        ShapeAppendOne(st, before.st, env, init, last);
      }
    } else {
      assert st.bookmarks[|st.bookmarks|..] == [];
    }
  }

  /** One step of `insert_bookmarks`, from the rows the first items added. */
  lemma ShapeAppendOne(st: State, mid: State, env: Env, init: seq<BookmarkInfo>, last: BookmarkInfo)
    requires |mid.bookmarks| == |st.bookmarks| + |init|
    requires mid.bookmarks[..|st.bookmarks|] == st.bookmarks
    requires Shape(mid.bookmarks[|st.bookmarks|..]) == ItemShape(init)
    ensures var r := InsertBookmark(mid, env, last);
      r.ok ==>
        && |r.st.bookmarks| == |st.bookmarks| + |init| + 1
        && r.st.bookmarks[..|st.bookmarks|] == st.bookmarks
        && Shape(r.st.bookmarks[|st.bookmarks|..]) == ItemShape(init + [last])
  {
    InsertBookmarkRow(mid, env, last);
    var r := InsertBookmark(mid, env, last);
    if r.ok {
      var b :| r.st.bookmarks == mid.bookmarks + [b] && b.kind == last.kind && b.title == NullIfEmpty(last.title);
      ShapeExtend(r.st.bookmarks, mid.bookmarks, st.bookmarks, b, init, last);
    }
  }

  /** The rows after an append, with the state left out of sight. */
  lemma ShapeExtend(all: seq<BookmarkRow>, mid: seq<BookmarkRow>, start: seq<BookmarkRow>, b: BookmarkRow,
                    init: seq<BookmarkInfo>, last: BookmarkInfo)
    requires all == mid + [b] && |start| <= |mid| && mid[..|start|] == start
    requires Shape(mid[|start|..]) == ItemShape(init)
    requires b.kind == last.kind && b.title == NullIfEmpty(last.title)
    ensures all[..|start|] == start
    ensures Shape(all[|start|..]) == ItemShape(init + [last])
  {
    assert all[|start|..] == mid[|start|..] + [b];
    ShapeStep(mid[|start|..], b, init, last);
  }

  /** One more row with one more item's kind and title keeps the shapes equal. */
  lemma ShapeStep(rows: seq<BookmarkRow>, b: BookmarkRow, init: seq<BookmarkInfo>, last: BookmarkInfo)
    requires Shape(rows) == ItemShape(init)
    requires b.kind == last.kind && b.title == NullIfEmpty(last.title)
    ensures Shape(rows + [b]) == ItemShape(init + [last])
  {
    assert (rows + [b])[..|rows|] == rows;
    assert (init + [last])[..|init|] == init;
  }

  /** Weakening: rows counted against the root are in particular fresh rows. */
  lemma ExtendsUncounted(a: seq<BookmarkRow>, b: seq<BookmarkRow>, rootId: int, counted: bool)
    requires Extends(a, b, rootId, true)
    ensures Extends(a, b, rootId, counted)
  {
  }

  /** `after` is `before` with rows appended whose kinds and titles are `shape`. */
  predicate Adds(before: seq<BookmarkRow>, after: seq<BookmarkRow>, shape: seq<(int, string)>)
  {
    Appended(before, after) && Shape(after[|before|..]) == shape
  }

  lemma AddsNothing(a: seq<BookmarkRow>)
    ensures Adds(a, a, [])
  {
    assert a[..|a|] == a;
    assert a[|a|..] == [];
  }

  /** What consecutive appends add, added up, with the state left out of sight. */
  lemma AddsChain(a: seq<BookmarkRow>, b: seq<BookmarkRow>, c: seq<BookmarkRow>, x: seq<(int, string)>, y: seq<(int, string)>)
    requires Adds(a, b, x) && Adds(b, c, y)
    ensures Adds(a, c, x + y)
  {
    assert c[..|b|][..|a|] == c[..|a|];
    assert c[|a|..] == b[|a|..] + c[|b|..];
    ShapeAppend(b[|a|..], c[|b|..]);
  }

  lemma {:induction false} ShapeAppend(x: seq<BookmarkRow>, y: seq<BookmarkRow>)
    ensures Shape(x + y) == Shape(x) + Shape(y)
    decreases |y|
  {
    if |y| == 0 {
      assert x + y == x;
    } else {
      var y' := y[..|y| - 1];
      assert (x + y)[..|x + y| - 1] == x + y';
      assert y == y' + [y[|y| - 1]];
      ShapeAppend(x, y');
    }
  }

  // ---------------------------------------------------------------------
  // The order in which `insert_tree` writes a tree

  /**
   * The kinds and titles of the rows `insert_tree` writes for `tree`: at each
   * level, every folder followed at once by what its items write, in the
   * order of the nodes, and then the level's bookmarks, in their order.
   */
  function Layout(tree: seq<Node>): seq<(int, string)>
    decreases tree, 1
  {
    LevelLayout(tree, |tree|) + Held(tree, |tree|)
  }

  /** The folders among the first `n` nodes, each with the layout of its items. */
  function LevelLayout(tree: seq<Node>, n: nat): seq<(int, string)>
    requires n <= |tree|
    decreases tree, 0, n
  {
    if n == 0 then []
    else
      LevelLayout(tree, n - 1) +
        match tree[n - 1]
        case Bookmark(_, _) => []
        case Folder(name, children) => [(TYPE_FOLDER, name)] + Layout(children)
  }

  /** The bookmarks among the first `n` nodes, which the loop holds back. */
  function Held(tree: seq<Node>, n: nat): (r: seq<(int, string)>)
    requires n <= |tree|
  {
    if n == 0 then []
    else Held(tree, n - 1) + if tree[n - 1].Bookmark? then [(TYPE_BOOKMARK, tree[n - 1].name)] else []
  }

  /** The number of entries of a kind. */
  function CountKind(s: seq<(int, string)>, kind: int): (c: nat)
    ensures c <= |s|
  {
    if |s| == 0 then 0 else CountKind(s[..|s| - 1], kind) + if s[|s| - 1].0 == kind then 1 else 0
  }

  lemma {:induction false} CountKindAppend(x: seq<(int, string)>, y: seq<(int, string)>, kind: int)
    ensures CountKind(x + y, kind) == CountKind(x, kind) + CountKind(y, kind)
    decreases |y|
  {
    if |y| == 0 {
      assert x + y == x;
    } else {
      var y' := y[..|y| - 1];
      assert (x + y)[..|x + y| - 1] == x + y';
      CountKindAppend(x, y', kind);
    }
  }

  /**
   * The layout has one entry per node of the tree, and as many bookmark
   * entries as the tree has bookmarks at every depth.
   */
  lemma {:induction false} LayoutSize(tree: seq<Node>)
    ensures |Layout(tree)| == TreeSize(tree)
    ensures CountKind(Layout(tree), TYPE_BOOKMARK) == BookmarkCount(tree)
    decreases tree, 1
  {
    LevelLayoutSize(tree, |tree|);
    CountKindAppend(LevelLayout(tree, |tree|), Held(tree, |tree|), TYPE_BOOKMARK);
    assert tree[..|tree|] == tree;
  }

  lemma {:induction false} LevelLayoutSize(tree: seq<Node>, n: nat)
    requires n <= |tree|
    ensures |LevelLayout(tree, n)| + |Held(tree, n)| == TreeSize(tree[..n])
    ensures CountKind(LevelLayout(tree, n), TYPE_BOOKMARK) + CountKind(Held(tree, n), TYPE_BOOKMARK) == BookmarkCount(tree[..n])
    ensures CountKind(Held(tree, n), TYPE_BOOKMARK) == |Held(tree, n)|
    decreases tree, 0, n
  {
    if n == 0 {
      assert tree[..0] == [];
    } else {
      LevelLayoutSize(tree, n - 1);
      TreeSizeSnoc(tree, n - 1);
      var before, held := LevelLayout(tree, n - 1), Held(tree, n - 1);
      match tree[n - 1]
      case Bookmark(name, _) =>
        assert LevelLayout(tree, n) == before + [];
        CountKindAppend(held, [(TYPE_BOOKMARK, name)], TYPE_BOOKMARK);
        CountKindAppend(before, [], TYPE_BOOKMARK);
      case Folder(name, children) =>
        LayoutSize(children);
        assert Held(tree, n) == held + [];
        CountKindAppend(held, [], TYPE_BOOKMARK);
        CountKindAppend(before, [(TYPE_FOLDER, name)] + Layout(children), TYPE_BOOKMARK);
        CountKindAppend([(TYPE_FOLDER, name)], Layout(children), TYPE_BOOKMARK);
        assert CountKind([(TYPE_FOLDER, name)], TYPE_BOOKMARK) == 0 by {
          assert [(TYPE_FOLDER, name)][..0] == [];
        }
    }
  }

  // ---------------------------------------------------------------------
  // What `insert_tree` does to `moz_bookmarks`, whether or not it completes

  lemma ExtendsRefl(a: seq<BookmarkRow>, rootId: int, counted: bool)
    ensures Extends(a, a, rootId, counted)
  {
    assert a[..|a|] == a;
  }

  /**
   * `insert_tree` only appends rows, each with sync status NEW, change counter
   * 1 and equal times; without a position, each new row's position is the
   * number of rows before it whose parent is the root, at every depth.
   */
  lemma {:induction false} InsertTreeExtends(st: State, env: Env, tree: seq<Node>, rootId: int, parentGuid: string,
                                             position: Option<int>, dateAdded: Option<int>)
    ensures Extends(st.bookmarks, InsertTree(st, env, tree, rootId, parentGuid, position, dateAdded).st.bookmarks, rootId, position.None?)
    decreases tree, 1
  {
    if |tree| == 0 {
      ExtendsRefl(st.bookmarks, rootId, position.None?);
    } else {
      var clocked, now := InsertTreeStart(st, env, tree, rootId, parentGuid, position, dateAdded);
      var level := InsertLevel(clocked, env, tree, |tree|, rootId, parentGuid, position, now);
      InsertLevelExtends(clocked, env, tree, |tree|, rootId, parentGuid, position, now);
      FlushExtends(level, env, rootId, position.None?);
      ExtendsTrans(clocked.bookmarks, level.out.st.bookmarks, Flush(level, env).st.bookmarks, rootId, position.None?);
    }
  }

  lemma FlushExtends(level: Level, env: Env, rootId: int, counted: bool)
    requires forall i :: 0 <= i < |level.items| ==> ItemFits(level.items[i], rootId, counted)
    ensures Extends(level.out.st.bookmarks, Flush(level, env).st.bookmarks, rootId, counted)
  {
    if !level.out.ok || |level.items| == 0 {
      ExtendsRefl(level.out.st.bookmarks, rootId, counted);
    } else {
      InsertBookmarksExtends(level.out.st, env, level.items, rootId, counted);
    }
  }

  /** The loop over the first `n` nodes appends such rows and holds back items that fit them. */
  lemma {:induction false} InsertLevelExtends(st: State, env: Env, tree: seq<Node>, n: nat, rootId: int, parentGuid: string,
                                              position: Option<int>, now: int)
    requires n <= |tree|
    ensures var lv := InsertLevel(st, env, tree, n, rootId, parentGuid, position, now);
      && Extends(st.bookmarks, lv.out.st.bookmarks, rootId, position.None?)
      && forall i :: 0 <= i < |lv.items| ==> ItemFits(lv.items[i], rootId, position.None?)
    decreases tree, 0, n
  {
    var counted := position.None?;
    if n == 0 {
      ExtendsRefl(st.bookmarks, rootId, counted);
    } else {
      var prev := InsertLevel(st, env, tree, n - 1, rootId, parentGuid, position, now);
      InsertLevelExtends(st, env, tree, n - 1, rootId, parentGuid, position, now);
      if !prev.out.ok {
        assert InsertLevel(st, env, tree, n, rootId, parentGuid, position, now) == prev;
      } else if tree[n - 1].Bookmark? {
        var info := LevelBookmarkStep(st, env, tree, n, rootId, parentGuid, position, now);
        FitsSnoc(prev.items, info, rootId, counted);
      } else {
        InsertFolderExtends(prev.out.st, env, tree[n - 1], rootId, parentGuid, position, now);
        ExtendsTrans(st.bookmarks, prev.out.st.bookmarks,
                     InsertFolder(prev.out.st, env, tree[n - 1], rootId, parentGuid, position, now).st.bookmarks, rootId, counted);
      }
    }
  }

  /** A folder appends its own row and then those of its items, all of them fresh. */
  lemma {:induction false} InsertFolderExtends(st: State, env: Env, node: Node, rootId: int, parentGuid: string,
                                               position: Option<int>, now: int)
    requires node.Folder?
    ensures Extends(st.bookmarks, InsertFolder(st, env, node, rootId, parentGuid, position, now).st.bookmarks, rootId, position.None?)
    decreases node, 2
  {
    var counted := position.None?;
    var guid := GuidOf(env, st.draws);
    var item := Item(node, rootId, parentGuid, position, now, guid);
    var inserted := InsertBookmarks(st.(draws := st.draws + 1), env, [item]);
    InsertBookmarksExtends(st.(draws := st.draws + 1), env, [item], rootId, counted);
    if inserted.ok {
      var sub := InsertTree(inserted.st, env, node.items, rootId, guid, None, None);
      InsertTreeExtends(inserted.st, env, node.items, rootId, guid, None, None);
      ExtendsUncounted(inserted.st.bookmarks, sub.st.bookmarks, rootId, counted);
      ExtendsTrans(st.bookmarks, inserted.st.bookmarks, sub.st.bookmarks, rootId, counted);
    }
  }

  /** A bookmark node: the rows stay as they are and its item is held back. */
  lemma LevelBookmarkStep(st: State, env: Env, tree: seq<Node>, n: nat, rootId: int, parentGuid: string,
                          position: Option<int>, now: int) returns (info: BookmarkInfo)
    requires 0 < n <= |tree| && tree[n - 1].Bookmark?
    requires InsertLevel(st, env, tree, n - 1, rootId, parentGuid, position, now).out.ok
    ensures var prev := InsertLevel(st, env, tree, n - 1, rootId, parentGuid, position, now);
      var lv := InsertLevel(st, env, tree, n, rootId, parentGuid, position, now);
      && lv.out.ok && lv.out.st.bookmarks == prev.out.st.bookmarks
      && lv.items == prev.items + [info]
      && ItemFits(info, rootId, position.None?)
      && info.kind == TYPE_BOOKMARK && info.title == tree[n - 1].name
  {
    var prev := InsertLevel(st, env, tree, n - 1, rootId, parentGuid, position, now);
    var placed := MaybeInsertPlace(prev.out.st, env, tree[n - 1].url);
    info := Item(tree[n - 1], rootId, parentGuid, position, now, GuidOf(env, placed.draws));
  }

  lemma FitsSnoc(items: seq<BookmarkInfo>, info: BookmarkInfo, rootId: int, counted: bool)
    requires forall i :: 0 <= i < |items| ==> ItemFits(items[i], rootId, counted)
    requires ItemFits(info, rootId, counted)
    ensures forall i :: 0 <= i < |items + [info]| ==> ItemFits((items + [info])[i], rootId, counted)
  {
  }

  // ---------------------------------------------------------------------
  // The rows a completed `insert_tree` writes, in order

  /**
   * When `insert_tree` completes, the rows it appended have, in order, the
   * kinds and titles of `Layout(tree)`: each folder right before what its
   * items write, each level's bookmarks after all of its folders.
   */
  lemma {:induction false} InsertTreeShape(st: State, env: Env, tree: seq<Node>, rootId: int, parentGuid: string,
                                           position: Option<int>, dateAdded: Option<int>)
    ensures var r := InsertTree(st, env, tree, rootId, parentGuid, position, dateAdded);
      r.ok ==> Adds(st.bookmarks, r.st.bookmarks, Layout(tree))
    decreases tree, 1
  {
    if |tree| == 0 {
      AddsNothing(st.bookmarks);
    } else {
      var clocked, now := InsertTreeStart(st, env, tree, rootId, parentGuid, position, dateAdded);
      var level := InsertLevel(clocked, env, tree, |tree|, rootId, parentGuid, position, now);
      InsertLevelShape(clocked, env, tree, |tree|, rootId, parentGuid, position, now);
      FlushShape(level, env);
      if Flush(level, env).ok {
        AddsChain(clocked.bookmarks, level.out.st.bookmarks, Flush(level, env).st.bookmarks,
                  LevelLayout(tree, |tree|), Held(tree, |tree|));
      }
    }
  }

  /** A completed flush appends one row per held-back item, in order. */
  lemma FlushShape(level: Level, env: Env)
    ensures Flush(level, env).ok ==> level.out.ok && Adds(level.out.st.bookmarks, Flush(level, env).st.bookmarks, ItemShape(level.items))
  {
    if !level.out.ok || |level.items| == 0 {
      AddsNothing(level.out.st.bookmarks);
    } else {
      InsertBookmarksShape(level.out.st, env, level.items);
    }
  }

  /**
   * When the loop over the first `n` nodes completes, it has appended the
   * rows of the folders among them and holds back their bookmarks.
   */
  lemma {:induction false} InsertLevelShape(st: State, env: Env, tree: seq<Node>, n: nat, rootId: int, parentGuid: string,
                                           position: Option<int>, now: int)
    requires n <= |tree|
    ensures LevelShaped(st, env, tree, n, rootId, parentGuid, position, now)
    decreases tree, 0, n, 2
  {
    if n == 0 {
      LevelShapedEmpty(st, env, tree, n, rootId, parentGuid, position, now);
    } else {
      InsertLevelShape(st, env, tree, n - 1, rootId, parentGuid, position, now);
      LevelStepShape(st, env, tree, n, rootId, parentGuid, position, now);
    }
  }

  lemma LevelShapedEmpty(st: State, env: Env, tree: seq<Node>, n: nat, rootId: int, parentGuid: string,
                         position: Option<int>, now: int)
    requires n == 0
    ensures LevelShaped(st, env, tree, n, rootId, parentGuid, position, now)
  {
    AddsNothing(st.bookmarks);
  }

  /** One more node of the loop keeps `LevelShaped`. */
  lemma {:induction false} LevelStepShape(st: State, env: Env, tree: seq<Node>, n: nat, rootId: int, parentGuid: string,
                                          position: Option<int>, now: int)
    requires 0 < n <= |tree|
    requires LevelShaped(st, env, tree, n - 1, rootId, parentGuid, position, now)
    ensures LevelShaped(st, env, tree, n, rootId, parentGuid, position, now)
    decreases tree, 0, n, 1
  {
    if !InsertLevel(st, env, tree, n - 1, rootId, parentGuid, position, now).out.ok {
      LevelFails(st, env, tree, n, rootId, parentGuid, position, now);
    } else if tree[n - 1].Bookmark? {
      LevelBookmarkShape(st, env, tree, n, rootId, parentGuid, position, now);
    } else {
      LevelFolderShape(st, env, tree, n, rootId, parentGuid, position, now);
    }
  }

  /** If the loop completed the first `n` nodes, their folders' rows are in and their bookmarks held back. */
  predicate LevelShaped(st: State, env: Env, tree: seq<Node>, n: nat, rootId: int, parentGuid: string,
                        position: Option<int>, now: int)
    requires n <= |tree|
  {
    var lv := InsertLevel(st, env, tree, n, rootId, parentGuid, position, now);
    lv.out.ok ==> Adds(st.bookmarks, lv.out.st.bookmarks, LevelLayout(tree, n)) && ItemShape(lv.items) == Held(tree, n)
  }

  /** Once a node raises, the loop goes no further. */
  lemma LevelFails(st: State, env: Env, tree: seq<Node>, n: nat, rootId: int, parentGuid: string,
                   position: Option<int>, now: int)
    requires 0 < n <= |tree|
    requires !InsertLevel(st, env, tree, n - 1, rootId, parentGuid, position, now).out.ok
    ensures InsertLevel(st, env, tree, n, rootId, parentGuid, position, now) == InsertLevel(st, env, tree, n - 1, rootId, parentGuid, position, now)
  {
  }

  lemma LevelBookmarkShape(st: State, env: Env, tree: seq<Node>, n: nat, rootId: int, parentGuid: string,
                           position: Option<int>, now: int)
    requires 0 < n <= |tree| && tree[n - 1].Bookmark?
    requires InsertLevel(st, env, tree, n - 1, rootId, parentGuid, position, now).out.ok
    requires LevelShaped(st, env, tree, n - 1, rootId, parentGuid, position, now)
    ensures LevelShaped(st, env, tree, n, rootId, parentGuid, position, now)
  {
    var prev := InsertLevel(st, env, tree, n - 1, rootId, parentGuid, position, now);
    var info := LevelBookmarkStep(st, env, tree, n, rootId, parentGuid, position, now);
    assert LevelLayout(tree, n) == LevelLayout(tree, n - 1) + [];
    ItemShapeSnoc(prev.items, info);
  }

  lemma {:induction false} LevelFolderShape(st: State, env: Env, tree: seq<Node>, n: nat, rootId: int, parentGuid: string,
                                            position: Option<int>, now: int)
    requires 0 < n <= |tree| && tree[n - 1].Folder?
    requires InsertLevel(st, env, tree, n - 1, rootId, parentGuid, position, now).out.ok
    requires LevelShaped(st, env, tree, n - 1, rootId, parentGuid, position, now)
    ensures LevelShaped(st, env, tree, n, rootId, parentGuid, position, now)
    decreases tree, 0, n, 0
  {
    var prev := InsertLevel(st, env, tree, n - 1, rootId, parentGuid, position, now);
    var node := tree[n - 1];
    var r := InsertFolder(prev.out.st, env, node, rootId, parentGuid, position, now);
    LevelFolderStep(st, env, tree, n, rootId, parentGuid, position, now);
    InsertFolderShape(prev.out.st, env, node, rootId, parentGuid, position, now);
    assert Held(tree, n) == Held(tree, n - 1) + [];
    assert LevelLayout(tree, n) == LevelLayout(tree, n - 1) + ([(TYPE_FOLDER, node.name)] + Layout(node.items));
    if r.ok {
      AddsChain(st.bookmarks, prev.out.st.bookmarks, r.st.bookmarks,
                LevelLayout(tree, n - 1), [(TYPE_FOLDER, node.name)] + Layout(node.items));
    }
  }

  /** A completed folder appends its own row, then the rows of its items. */
  lemma {:induction false} InsertFolderShape(st: State, env: Env, node: Node, rootId: int, parentGuid: string,
                                             position: Option<int>, now: int)
    requires node.Folder?
    ensures var r := InsertFolder(st, env, node, rootId, parentGuid, position, now);
      r.ok ==> Adds(st.bookmarks, r.st.bookmarks, [(TYPE_FOLDER, node.name)] + Layout(node.items))
    decreases node, 2
  {
    InsertFolderUnfold(st, env, node, rootId, parentGuid, position, now);
    var guid := GuidOf(env, st.draws);
    var item := Item(node, rootId, parentGuid, position, now, guid);
    var inserted := InsertBookmarks(st.(draws := st.draws + 1), env, [item]);
    InsertBookmarksShape(st.(draws := st.draws + 1), env, [item]);
    if inserted.ok {
      ItemShapeOne(item);
      var sub := InsertTree(inserted.st, env, node.items, rootId, guid, None, None);
      InsertTreeShape(inserted.st, env, node.items, rootId, guid, None, None);
      if sub.ok {
        AddsChain(st.bookmarks, inserted.st.bookmarks, sub.st.bookmarks, [(TYPE_FOLDER, node.name)], Layout(node.items));
      }
    }
  }

  lemma ItemShapeOne(item: BookmarkInfo)
    ensures ItemShape([item]) == [(item.kind, item.title)]
  {
    assert [item][..0] == [];
  }

  /** The steps of a folder, spelled out. */
  lemma InsertFolderUnfold(st: State, env: Env, node: Node, rootId: int, parentGuid: string, position: Option<int>, now: int)
    requires node.Folder?
    ensures var guid := GuidOf(env, st.draws);
      var inserted := InsertBookmarks(st.(draws := st.draws + 1), env, [Item(node, rootId, parentGuid, position, now, guid)]);
      InsertFolder(st, env, node, rootId, parentGuid, position, now) ==
        if !inserted.ok then inserted else InsertTree(inserted.st, env, node.items, rootId, guid, None, None)
  {
  }

  /** A folder node of the loop: the folder goes in, and nothing is held back. */
  lemma LevelFolderStep(st: State, env: Env, tree: seq<Node>, n: nat, rootId: int, parentGuid: string,
                        position: Option<int>, now: int)
    requires 0 < n <= |tree| && tree[n - 1].Folder?
    requires InsertLevel(st, env, tree, n - 1, rootId, parentGuid, position, now).out.ok
    ensures var prev := InsertLevel(st, env, tree, n - 1, rootId, parentGuid, position, now);
      InsertLevel(st, env, tree, n, rootId, parentGuid, position, now) ==
        Level(InsertFolder(prev.out.st, env, tree[n - 1], rootId, parentGuid, position, now), prev.items)
  {
  }

  lemma ItemShapeSnoc(items: seq<BookmarkInfo>, info: BookmarkInfo)
    ensures ItemShape(items + [info]) == ItemShape(items) + [(info.kind, info.title)]
  {
    assert (items + [info])[..|items|] == items;
  }

  /** A non-empty tree: the clock step, then the loop and the flush. */
  lemma InsertTreeStart(st: State, env: Env, tree: seq<Node>, rootId: int, parentGuid: string,
                        position: Option<int>, dateAdded: Option<int>) returns (clocked: State, now: int)
    requires |tree| > 0
    ensures clocked.bookmarks == st.bookmarks
    ensures var given := dateAdded.Some? && dateAdded.value != 0;
      && clocked == (if given then st else st.(clockReads := st.clockReads + 1))
      && now == (if given then dateAdded.value else env.clock(st.clockReads))
    ensures InsertTree(st, env, tree, rootId, parentGuid, position, dateAdded) ==
      Flush(InsertLevel(clocked, env, tree, |tree|, rootId, parentGuid, position, now), env)
  {
    var given := dateAdded.Some? && dateAdded.value != 0;
    now := if given then dateAdded.value else env.clock(st.clockReads);
    clocked := if given then st else st.(clockReads := st.clockReads + 1);
  }
}
