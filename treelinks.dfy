/**
 * Where the rows that `insert_tree` writes point.  Each row's parent is the
 * parent the call was given or a folder row the same call wrote before it.
 * Each bookmark row refers to a place holding its URL, when the GUIDs drawn
 * for new places are free.  Each row is dated by the level's time or by a
 * clock reading taken during the call, and only the top level uses a given
 * position.
 */
module TreeLinks {
  import opened Results
  import opened Guid
  import opened Places
  import opened Triggers
  import opened BookmarkTypes
  import opened Bookmarks
  import opened Statements

  // ---------------------------------------------------------------------
  // What no statement of the importer undoes

  /** The columns of a place that nothing changes once the place is in. */
  predicate SamePlace(p: Place, q: Place)
  {
    p.id == q.id && p.url == q.url && p.urlHash == q.urlHash && p.guid == q.guid
  }

  /** `after` holds the places of `before` at the same positions, those columns kept, and maybe more after them. */
  predicate PlacesKept(before: seq<Place>, after: seq<Place>)
  {
    |before| <= |after| && forall i :: 0 <= i < |before| ==> SamePlace(before[i], after[i])
  }

  /** Some place has the id and the URL. */
  predicate HasPlace(places: seq<Place>, id: int, url: string)
  {
    exists i :: 0 <= i < |places| && places[i].id == id && places[i].url == url
  }

  /**
   * The GUIDs still to be drawn are free: no place has one of them, no two of
   * them are equal, and the origin keys are unique.
   */
  ghost predicate Fresh(st: State, env: Env)
  {
    && KeysUnique(st.origins)
    && (forall n :: st.draws <= n ==> !GuidTaken(st.places, GuidOf(env, n)))
    && (forall n, m :: st.draws <= n < m ==> GuidOf(env, n) != GuidOf(env, m))
  }

  /**
   * From `st` to `r`: the places are kept, no GUID or clock reading is given
   * back, and GUIDs still to be drawn stay free.
   */
  ghost predicate Moves(st: State, r: State, env: Env)
  {
    && PlacesKept(st.places, r.places)
    && st.draws <= r.draws && st.clockReads <= r.clockReads
    && (Fresh(st, env) ==> Fresh(r, env))
  }

  lemma KeptTrans(a: seq<Place>, b: seq<Place>, c: seq<Place>)
    requires PlacesKept(a, b) && PlacesKept(b, c)
    ensures PlacesKept(a, c)
  {
  }

  lemma MovesTrans(a: State, b: State, c: State, env: Env)
    requires Moves(a, b, env) && Moves(b, c, env)
    ensures Moves(a, c, env)
  {
    KeptTrans(a.places, b.places, c.places);
  }

  lemma MovesRefl(st: State, env: Env)
    ensures Moves(st, st, env)
  {
  }

  /** A URL once recorded stays recorded while the places are kept. */
  lemma RecordedKept(before: seq<Place>, after: seq<Place>, url: string)
    requires PlacesKept(before, after) && Recorded(before, url)
    ensures Recorded(after, url)
  {
    var i :| 0 <= i < |before| && before[i].urlHash == UrlHash.HashOfUrl(url) && before[i].url == url;
    assert SamePlace(before[i], after[i]);
  }

  /** A place once present stays present while the places are kept. */
  lemma HasPlaceKept(before: seq<Place>, after: seq<Place>, id: int, url: string)
    requires PlacesKept(before, after) && HasPlace(before, id, url)
    ensures HasPlace(after, id, url)
  {
    var i :| 0 <= i < |before| && before[i].id == id && before[i].url == url;
    assert SamePlace(before[i], after[i]);
  }

  /** Drawing a GUID for a bookmark or a folder only moves the counter on. */
  lemma DrawMoves(st: State, env: Env)
    ensures Moves(st, st.(draws := st.draws + 1), env)
  {
  }

  /** Reading the clock only moves the counter on. */
  lemma ClockMoves(st: State, env: Env)
    ensures Moves(st, st.(clockReads := st.clockReads + 1), env)
  {
  }

  /** Places the same in number and in GUIDs take the same GUIDs. */
  lemma TakenKept(before: seq<Place>, after: seq<Place>, guid: string)
    requires PlacesKept(before, after) && |after| == |before|
    ensures GuidTaken(after, guid) ==> GuidTaken(before, guid)
  {
    if GuidTaken(after, guid) {
      var i :| 0 <= i < |after| && after[i].guid == guid;
      assert SamePlace(before[i], after[i]);
    }
  }

  /** The bookmark trigger changes counts and flags of places, not what identifies them. */
  lemma BookmarkTriggerKeeps(places: seq<Place>, fk: Option<int>)
    ensures PlacesKept(places, AfterBookmarkInsert(places, fk))
  {
    AfterBookmarkInsertEffect(places, fk);
  }

  /** The place trigger changes the origin of the new place only. */
  lemma PlaceTriggerKeeps(places: seq<Place>, origins: seq<Origin>, parse: string -> UrlParts, row: Place)
    ensures PlacesKept(places, AfterPlaceInsert(places, origins, parse, row).0)
  {
  }

  /** One row of `insert_bookmarks`. */
  lemma InsertBookmarkMoves(st: State, env: Env, info: BookmarkInfo)
    ensures Moves(st, InsertBookmark(st, env, info).st, env)
  {
    var r := InsertBookmark(st, env, info);
    if r.ok {
      InsertBookmarkEffect(st, env, info);
      BookmarkTriggerKeeps(st.places, r.st.bookmarks[|st.bookmarks|].fk);
      if Fresh(st, env) {
        forall n | r.st.draws <= n
          ensures !GuidTaken(r.st.places, GuidOf(env, n))
        {
          TakenKept(st.places, r.st.places, GuidOf(env, n));
        }
      }
    }
  }

  /** `insert_bookmarks`, row by row. */
  lemma {:induction false} InsertBookmarksMoves(st: State, env: Env, items: seq<BookmarkInfo>)
    ensures Moves(st, InsertBookmarks(st, env, items).st, env)
    decreases |items|
  {
    if |items| == 0 {
      MovesRefl(st, env);
    } else {
      var before := InsertBookmarks(st, env, items[..|items| - 1]);
      InsertBookmarksMoves(st, env, items[..|items| - 1]);
      if before.ok {
        InsertBookmarkMoves(before.st, env, items[|items| - 1]);
        MovesTrans(st, before.st, InsertBookmarks(st, env, items).st, env);
      }
    }
  }

  /**
   * `maybe_insert_place`: the places are kept, and when the GUIDs still to be
   * drawn were free, the URL is recorded afterwards and they are still free.
   */
  lemma MaybeInsertPlaceMoves(st: State, env: Env, url: string)
    ensures var r := MaybeInsertPlace(st, env, url);
      Moves(st, r, env) && (Fresh(st, env) ==> Recorded(r.places, url))
  {
    var guid := GuidOf(env, st.draws);
    MaybeInsertPlaceEffect(st, env, url);
    if !Recorded(st.places, url) && !GuidTaken(st.places, guid) {
      NewPlaceKept(st, env, url);
      if Fresh(st, env) {
        NewPlaceFresh(st, MaybeInsertPlace(st, env, url), env, url, guid);
      }
    }
  }

  /** The places after a new place went in, the trigger included, keep the old ones. */
  lemma NewPlaceKept(st: State, env: Env, url: string)
    requires !Recorded(st.places, url) && !GuidTaken(st.places, GuidOf(env, st.draws))
    ensures PlacesKept(st.places, MaybeInsertPlace(st, env, url).places)
  {
    var guid := GuidOf(env, st.draws);
    var row := NewPlace(st.places, env.parse, url, guid);
    assert GuidOfUrl(st.places, url).None?;
    var ps := AfterPlaceInsert(st.places + [row], st.origins, env.parse, row).0;
    assert MaybeInsertPlace(st, env, url).places == ps;
    PlaceTriggerKeeps(st.places + [row], st.origins, env.parse, row);
    forall i | 0 <= i < |st.places|
      ensures SamePlace(st.places[i], ps[i])
    {
      assert (st.places + [row])[i] == st.places[i];
    }
  }

  /** A new place with the drawn GUID leaves the GUIDs drawn after it free, and records its URL. */
  lemma NewPlaceFresh(st: State, r: State, env: Env, url: string, guid: string)
    requires Fresh(st, env) && guid == GuidOf(env, st.draws)
    requires PlaceAdded(st, r, env.parse, url, guid)
    ensures Fresh(r, env) && Recorded(r.places, url)
  {
    var n := |st.places|;
    var p := r.places[n];
    assert p.(originId := None) == NewPlace(st.places, env.parse, url, guid);
    assert p.guid == guid && p.url == url && p.urlHash == UrlHash.HashOfUrl(url);
    GuidsStayFree(st.places, r.places, env, st.draws);
  }

  /** Places with one more place, whose GUID is the next draw: the draws after it are still free. */
  lemma GuidsStayFree(before: seq<Place>, after: seq<Place>, env: Env, d: nat)
    requires |after| == |before| + 1 && after[..|before|] == before && after[|before|].guid == GuidOf(env, d)
    requires forall n :: d <= n ==> !GuidTaken(before, GuidOf(env, n))
    requires forall n, m :: d <= n < m ==> GuidOf(env, n) != GuidOf(env, m)
    ensures forall n :: d + 1 <= n ==> !GuidTaken(after, GuidOf(env, n))
  {
    forall n | d + 1 <= n
      ensures !GuidTaken(after, GuidOf(env, n))
    {
      forall i | 0 <= i < |after|
        ensures after[i].guid != GuidOf(env, n)
      {
        if i < |before| {
          assert after[i] == before[i];
        }
      }
    }
  }

  /** `insert_tree`, whether or not it completes. */
  lemma {:induction false} InsertTreeMoves(st: State, env: Env, tree: seq<Node>, rootId: int, parentGuid: string,
                                           position: Option<int>, dateAdded: Option<int>)
    ensures Moves(st, InsertTree(st, env, tree, rootId, parentGuid, position, dateAdded).st, env)
    decreases tree, 1
  {
    if |tree| == 0 {
      MovesRefl(st, env);
    } else {
      var clocked, now := InsertTreeStart(st, env, tree, rootId, parentGuid, position, dateAdded);
      var level := InsertLevel(clocked, env, tree, |tree|, rootId, parentGuid, position, now);
      MovesRefl(st, env);
      ClockMoves(st, env);
      InsertLevelMoves(clocked, env, tree, |tree|, rootId, parentGuid, position, now);
      FlushMoves(level, env);
      MovesTrans(st, clocked, level.out.st, env);
      MovesTrans(st, level.out.st, Flush(level, env).st, env);
    }
  }

  /** The end of a level. */
  lemma FlushMoves(level: Level, env: Env)
    ensures Moves(level.out.st, Flush(level, env).st, env)
  {
    if !level.out.ok || |level.items| == 0 {
      MovesRefl(level.out.st, env);
    } else {
      InsertBookmarksMoves(level.out.st, env, level.items);
    }
  }

  /** The loop of `insert_tree` over the first `n` nodes. */
  lemma {:induction false} InsertLevelMoves(st: State, env: Env, tree: seq<Node>, n: nat, rootId: int, parentGuid: string,
                                            position: Option<int>, now: int)
    requires n <= |tree|
    ensures Moves(st, InsertLevel(st, env, tree, n, rootId, parentGuid, position, now).out.st, env)
    decreases tree, 0, n
  {
    if n == 0 {
      MovesRefl(st, env);
    } else {
      var prev := InsertLevel(st, env, tree, n - 1, rootId, parentGuid, position, now);
      InsertLevelMoves(st, env, tree, n - 1, rootId, parentGuid, position, now);
      LevelStepMoves(prev, env, tree[n - 1], rootId, parentGuid, position, now);
      MovesTrans(st, prev.out.st, LevelStep(prev, env, tree[n - 1], rootId, parentGuid, position, now).out.st, env);
    }
  }

  /** One turn of the loop. */
  lemma {:induction false} LevelStepMoves(prev: Level, env: Env, node: Node, rootId: int, parentGuid: string,
                                          position: Option<int>, now: int)
    ensures Moves(prev.out.st, LevelStep(prev, env, node, rootId, parentGuid, position, now).out.st, env)
    decreases node, 3
  {
    if !prev.out.ok {
      MovesRefl(prev.out.st, env);
    } else if node.Bookmark? {
      var placed := MaybeInsertPlace(prev.out.st, env, node.url);
      MaybeInsertPlaceMoves(prev.out.st, env, node.url);
      DrawMoves(placed, env);
      MovesTrans(prev.out.st, placed, placed.(draws := placed.draws + 1), env);
    } else {
      InsertFolderMoves(prev.out.st, env, node, rootId, parentGuid, position, now);
    }
  }

  /** One folder with its items. */
  lemma {:induction false} InsertFolderMoves(st: State, env: Env, node: Node, rootId: int, parentGuid: string,
                                             position: Option<int>, now: int)
    requires node.Folder?
    ensures Moves(st, InsertFolder(st, env, node, rootId, parentGuid, position, now).st, env)
    decreases node, 2
  {
    InsertFolderUnfold(st, env, node, rootId, parentGuid, position, now);
    var guid := GuidOf(env, st.draws);
    var drawn := st.(draws := st.draws + 1);
    var inserted := InsertBookmarks(drawn, env, [Item(node, rootId, parentGuid, position, now, guid)]);
    DrawMoves(st, env);
    InsertBookmarksMoves(drawn, env, [Item(node, rootId, parentGuid, position, now, guid)]);
    MovesTrans(st, drawn, inserted.st, env);
    if inserted.ok {
      InsertTreeMoves(inserted.st, env, node.items, rootId, guid, None, None);
      MovesTrans(st, inserted.st, InsertTree(inserted.st, env, node.items, rootId, guid, None, None).st, env);
    }
  }

  // ---------------------------------------------------------------------
  // Where each row points

  /**
   * Where one row that `insert_tree` writes points: its parent, as the
   * parent the call was given (`None`) or as the offset of an earlier row of
   * the same call, and, for a bookmark, the URL its place must hold.
   */
  datatype Link = Link(parent: Option<nat>, url: Option<string>)

  /** The links of the rows `insert_tree` writes for `tree`, in the order of `Layout(tree)`. */
  function Links(tree: seq<Node>): seq<Link>
    decreases tree, 1
  {
    LevelLinks(tree, |tree|) + HeldLinks(tree, |tree|)
  }

  /** The links of the folders among the first `n` nodes, each followed by those of its items. */
  function LevelLinks(tree: seq<Node>, n: nat): seq<Link>
    requires n <= |tree|
    decreases tree, 0, n
  {
    if n == 0 then []
    else
      var before := LevelLinks(tree, n - 1);
      before +
        match tree[n - 1]
        case Bookmark(_, _) => []
        case Folder(_, children) => Shift([Link(None, None)] + Nest(Links(children)), |before|)
  }

  /** The links of the bookmarks among the first `n` nodes: under the given parent, each with its URL. */
  function HeldLinks(tree: seq<Node>, n: nat): seq<Link>
    requires n <= |tree|
  {
    if n == 0 then []
    else HeldLinks(tree, n - 1) + if tree[n - 1].Bookmark? then [Link(None, Some(tree[n - 1].url))] else []
  }

  /** The links of a block of rows that starts `offset` rows further on. */
  function Shift(links: seq<Link>, offset: nat): (r: seq<Link>)
    ensures |r| == |links|
  {
    seq(|links|, i requires 0 <= i < |links| => ShiftLink(links[i], offset))
  }

  function ShiftLink(l: Link, offset: nat): Link
  {
    if l.parent.None? then l else l.(parent := Some(l.parent.value + offset))
  }

  /** The links of a folder's items, seen from the folder's row just before them: the given parent is that row. */
  function Nest(links: seq<Link>): (r: seq<Link>)
    ensures |r| == |links|
  {
    seq(|links|, i requires 0 <= i < |links| => NestLink(links[i]))
  }

  function NestLink(l: Link): Link
  {
    l.(parent := Some(if l.parent.None? then 0 else l.parent.value + 1))
  }

  /** Links and a layout of the same rows: one link per entry, with a URL exactly for the bookmarks. */
  predicate Fits(links: seq<Link>, layout: seq<(int, string)>)
  {
    |links| == |layout| && forall k :: 0 <= k < |links| ==> (links[k].url.Some? <==> layout[k].0 == TYPE_BOOKMARK)
  }

  lemma FitsAppend(x: seq<Link>, y: seq<Link>, a: seq<(int, string)>, b: seq<(int, string)>)
    requires Fits(x, a) && Fits(y, b)
    ensures Fits(x + y, a + b)
  {
  }

  /**
   * `Links(tree)` and `Layout(tree)` describe the same rows: as many links
   * as entries, and a URL on exactly the bookmark rows.
   */
  lemma {:induction false} LinksFit(tree: seq<Node>)
    ensures Fits(Links(tree), Layout(tree))
    decreases tree, 1
  {
    LevelLinksFit(tree, |tree|);
    HeldLinksFit(tree, |tree|);
    FitsAppend(LevelLinks(tree, |tree|), HeldLinks(tree, |tree|), LevelLayout(tree, |tree|), Held(tree, |tree|));
  }

  lemma {:induction false} LevelLinksFit(tree: seq<Node>, n: nat)
    requires n <= |tree|
    ensures Fits(LevelLinks(tree, n), LevelLayout(tree, n))
    decreases tree, 0, n
  {
    if n > 0 {
      LevelLinksFit(tree, n - 1);
      var before := LevelLinks(tree, n - 1);
      match tree[n - 1]
      case Bookmark(_, _) =>
        FitsAppend(before, [], LevelLayout(tree, n - 1), []);
      case Folder(name, children) =>
        LinksFit(children);
        var y := [Link(None, None)] + Nest(Links(children));
        FitsAppend([Link(None, None)], Nest(Links(children)), [(TYPE_FOLDER, name)], Layout(children));
        FitsAppend(before, Shift(y, |before|), LevelLayout(tree, n - 1), [(TYPE_FOLDER, name)] + Layout(children));
    }
  }

  lemma {:induction false} HeldLinksFit(tree: seq<Node>, n: nat)
    requires n <= |tree|
    ensures Fits(HeldLinks(tree, n), Held(tree, n))
  {
    if n > 0 {
      HeldLinksFit(tree, n - 1);
    }
  }

  /** The links of items handed to `insert_bookmarks`: all under the given parent. */
  function ItemLinks(items: seq<BookmarkInfo>): (r: seq<Link>)
    ensures |r| == |items|
  {
    seq(|items|, i requires 0 <= i < |items| => Link(None, items[i].url))
  }

  /**
   * What a level stamps on its rows: the root whose children are counted,
   * the position it was given, its time, the clock, and the readings taken
   * while it ran (`from` up to `to`).
   */
  datatype Stamp = Stamp(rootId: int, position: Option<int>, now: int, clock: nat -> int, from: nat, to: nat)

  /** `t` is one of the clock readings numbered `from` up to `to`. */
  ghost predicate Reading(clock: nat -> int, from: nat, to: nat, t: int)
  {
    exists j :: from <= j < to && clock(j) == t
  }

  /**
   * Row `base + k` points as `l` says.  A row under the given parent has the
   * parent `top`, the level's time, and the given position or else the
   * number of rows before it under the root.  A row under an earlier row of
   * the call sits under a folder row, takes the count of rows under the root
   * as its position, and is dated by a reading of the clock taken during the
   * call.  When `placed`, a bookmark row refers to a place holding its URL.
   */
  ghost predicate RowLinked(rows: seq<BookmarkRow>, base: nat, k: nat, top: Option<int>, l: Link,
                            places: seq<Place>, placed: bool, s: Stamp)
    requires base + k < |rows|
  {
    var b := rows[base + k];
    && (l.parent.None? ==>
          && b.parent == top && b.dateAdded == s.now
          && b.position == if s.position.Some? then s.position.value else CountChildren(rows[..base + k], s.rootId))
    && (l.parent.Some? ==>
          && l.parent.value < k && rows[base + l.parent.value].kind == TYPE_FOLDER
          && b.parent == Some(rows[base + l.parent.value].id)
          && b.position == CountChildren(rows[..base + k], s.rootId)
          && Reading(s.clock, s.from, s.to, b.dateAdded))
    && (placed && l.url.Some? ==> b.fk.Some? && HasPlace(places, b.fk.value, l.url.value))
  }

  /** `after` is `before` with one row appended per link, each pointing as its link says. */
  ghost predicate Linked(before: seq<BookmarkRow>, after: seq<BookmarkRow>, top: Option<int>, links: seq<Link>,
                         places: seq<Place>, placed: bool, s: Stamp)
  {
    && |after| == |before| + |links| && after[..|before|] == before
    && forall k :: 0 <= k < |links| ==> RowLinked(after, |before|, k, top, links[k], places, placed, s)
  }

  lemma LinkedNothing(rows: seq<BookmarkRow>, top: Option<int>, places: seq<Place>, placed: bool, s: Stamp)
    ensures Linked(rows, rows, top, [], places, placed, s)
  {
    assert rows[..|rows|] == rows;
  }

  /** A row keeps pointing as it did when the places are kept and the readings widen. */
  lemma RowWiden(rows: seq<BookmarkRow>, base: nat, k: nat, top: Option<int>, l: Link,
                 places: seq<Place>, places': seq<Place>, placed: bool, s: Stamp, s': Stamp)
    requires base + k < |rows|
    requires RowLinked(rows, base, k, top, l, places, placed, s)
    requires PlacesKept(places, places')
    requires s' == s.(from := s'.from, to := s'.to) && s'.from <= s.from && s.to <= s'.to
    ensures RowLinked(rows, base, k, top, l, places', placed, s')
  {
    var b := rows[base + k];
    if placed && l.url.Some? {
      HasPlaceKept(places, places', b.fk.value, l.url.value);
    }
    if l.parent.Some? {
      var j :| s.from <= j < s.to && s.clock(j) == b.dateAdded;
      assert s'.clock(j) == b.dateAdded;
    }
  }

  /** The rows keep pointing as they did when the places are kept and the readings widen. */
  lemma LinkedWiden(before: seq<BookmarkRow>, after: seq<BookmarkRow>, top: Option<int>, links: seq<Link>,
                    places: seq<Place>, places': seq<Place>, placed: bool, s: Stamp, s': Stamp)
    requires Linked(before, after, top, links, places, placed, s)
    requires PlacesKept(places, places')
    requires s' == s.(from := s'.from, to := s'.to) && s'.from <= s.from && s.to <= s'.to
    ensures Linked(before, after, top, links, places', placed, s')
  {
    forall k | 0 <= k < |links|
      ensures RowLinked(after, |before|, k, top, links[k], places', placed, s')
    {
      RowWiden(after, |before|, k, top, links[k], places, places', placed, s, s');
    }
  }

  /** Without `placed`, nothing is said about places. */
  lemma LinkedUnplaced(before: seq<BookmarkRow>, after: seq<BookmarkRow>, top: Option<int>, links: seq<Link>,
                       places: seq<Place>, placed: bool, s: Stamp)
    requires Linked(before, after, top, links, places, true, s)
    ensures Linked(before, after, top, links, places, placed, s)
  {
  }

  /** A row of the first block still points as it did once more rows follow. */
  lemma RowChainLeft(b: seq<BookmarkRow>, c: seq<BookmarkRow>, base: nat, k: nat, top: Option<int>, l: Link,
                     places: seq<Place>, placed: bool, s: Stamp)
    requires |b| <= |c| && c[..|b|] == b && base + k < |b|
    requires RowLinked(b, base, k, top, l, places, placed, s)
    ensures RowLinked(c, base, k, top, l, places, placed, s)
  {
    assert c[base + k] == b[base + k];
    assert c[..base + k] == b[..base + k];
    if l.parent.Some? {
      assert c[base + l.parent.value] == b[base + l.parent.value];
    }
  }

  /** A row of the second block, seen from the start of the first. */
  lemma RowChainRight(c: seq<BookmarkRow>, base: nat, offset: nat, k: nat, top: Option<int>, l: Link,
                      places: seq<Place>, placed: bool, s: Stamp)
    requires base + offset + k < |c|
    requires RowLinked(c, base + offset, k, top, l, places, placed, s)
    ensures RowLinked(c, base, offset + k, top, ShiftLink(l, offset), places, placed, s)
  {
  }

  /** Two blocks of rows one after the other, the second's offsets moved past the first. */
  lemma LinkedChain(a: seq<BookmarkRow>, b: seq<BookmarkRow>, c: seq<BookmarkRow>, top: Option<int>,
                    x: seq<Link>, y: seq<Link>, places: seq<Place>, placed: bool, s: Stamp)
    requires Linked(a, b, top, x, places, placed, s) && Linked(b, c, top, y, places, placed, s)
    ensures Linked(a, c, top, x + Shift(y, |x|), places, placed, s)
  {
    assert c[..|a|] == c[..|b|][..|a|];
    var z := x + Shift(y, |x|);
    forall k | 0 <= k < |z|
      ensures RowLinked(c, |a|, k, top, z[k], places, placed, s)
    {
      if k < |x| {
        RowChainLeft(b, c, |a|, k, top, x[k], places, placed, s);
      } else {
        RowChainRight(c, |a|, |x|, k - |x|, top, y[k - |x|], places, placed, s);
      }
    }
  }

  /** A row of a folder's items, seen from the folder's row. */
  lemma RowNest(c: seq<BookmarkRow>, base: nat, k: nat, top: Option<int>, l: Link,
                places: seq<Place>, placed: bool, s: Stamp, s': Stamp)
    requires base + 1 + k < |c| && c[base].kind == TYPE_FOLDER
    requires RowLinked(c, base + 1, k, Some(c[base].id), l, places, placed, s')
    requires s'.rootId == s.rootId && s'.position.None? && s'.clock == s.clock && s.from <= s'.from && s'.to <= s.to
    requires Reading(s.clock, s.from, s.to, s'.now)
    ensures RowLinked(c, base, 1 + k, top, NestLink(l), places, placed, s)
  {
    var b := c[base + 1 + k];
    if l.parent.Some? {
      var j :| s'.from <= j < s'.to && s'.clock(j) == b.dateAdded;
      assert s.clock(j) == b.dateAdded;
    }
  }

  /**
   * A folder's row followed by the rows of its items: the items' top rows
   * sit under the folder's row, and the folder's time is a clock reading.
   */
  lemma LinkedNest(a: seq<BookmarkRow>, b: seq<BookmarkRow>, c: seq<BookmarkRow>, top: Option<int>, y: seq<Link>,
                   places: seq<Place>, placed: bool, s: Stamp, s': Stamp)
    requires Linked(a, b, top, [Link(None, None)], places, placed, s) && b[|a|].kind == TYPE_FOLDER
    requires Linked(b, c, Some(b[|a|].id), y, places, placed, s')
    requires s'.rootId == s.rootId && s'.position.None? && s'.clock == s.clock && s.from <= s'.from && s'.to <= s.to
    requires |y| > 0 ==> Reading(s.clock, s.from, s.to, s'.now)
    ensures Linked(a, c, top, [Link(None, None)] + Nest(y), places, placed, s)
  {
    assert c[..|a|] == c[..|b|][..|a|];
    var z := [Link(None, None)] + Nest(y);
    forall k | 0 <= k < |z|
      ensures RowLinked(c, |a|, k, top, z[k], places, placed, s)
    {
      if k == 0 {
        assert RowLinked(b, |a|, 0, top, [Link(None, None)][0], places, placed, s);
        RowChainLeft(b, c, |a|, 0, top, Link(None, None), places, placed, s);
      } else {
        assert c[|a|] == b[|a|];
        RowNest(c, |a|, k - 1, top, y[k - 1], places, placed, s, s');
      }
    }
  }

  // ---------------------------------------------------------------------
  // `insert_bookmarks`

  /** A parent once found is found at the same row after rows are appended. */
  lemma ParentKept(rows: seq<BookmarkRow>, after: seq<BookmarkRow>, guid: string)
    requires ParentIdOf(rows, guid).Some?
    requires |rows| <= |after| && after[..|rows|] == rows
    ensures ParentIdOf(after, guid) == ParentIdOf(rows, guid)
  {
    assert after == rows + after[|rows|..];
    ParentStable(rows, after[|rows|..], guid);
  }

  /** An item of a level, stamped with its root, position and time. */
  predicate Stamped(info: BookmarkInfo, guid: string, s: Stamp)
  {
    info.parentGuid == guid && info.rootId == s.rootId && info.position == s.position && info.dateAdded == s.now
  }

  /**
   * One row of `insert_bookmarks`: it goes under the parent its GUID finds,
   * and, when its URL is recorded, it refers to a place holding that URL.
   */
  lemma OneRowLinked(st: State, env: Env, info: BookmarkInfo, placed: bool, s: Stamp)
    requires Stamped(info, info.parentGuid, s)
    requires placed && info.url.Some? ==> Recorded(st.places, info.url.value)
    ensures var r := InsertBookmark(st, env, info);
      r.ok ==> Linked(st.bookmarks, r.st.bookmarks, ParentIdOf(st.bookmarks, info.parentGuid),
                      [Link(None, info.url)], r.st.places, placed, s)
  {
    var r := InsertBookmark(st, env, info);
    InsertBookmarkEffect(st, env, info);
    if r.ok {
      var n := |st.bookmarks|;
      var b := r.st.bookmarks[n];
      assert r.st.bookmarks[..n] == st.bookmarks;
      if placed && info.url.Some? {
        RecordedResolves(st.places, info.url.value);
        BookmarkTriggerKeeps(st.places, b.fk);
        HasPlaceKept(st.places, r.st.places, b.fk.value, info.url.value);
      }
      assert RowLinked(r.st.bookmarks, n, 0, ParentIdOf(st.bookmarks, info.parentGuid), [Link(None, info.url)][0],
                       r.st.places, placed, s);
    }
  }

  /**
   * `insert_bookmarks` of items of one level, all under the same parent: when
   * it completes, each item has its row, under that parent, referring, when
   * its URL is recorded, to a place holding it.
   */
  lemma {:induction false} InsertBookmarksLinks(st: State, env: Env, items: seq<BookmarkInfo>, guid: string,
                                                placed: bool, s: Stamp)
    requires ParentIdOf(st.bookmarks, guid).Some?
    requires forall i :: 0 <= i < |items| ==> Stamped(items[i], guid, s)
    requires placed ==> forall i :: 0 <= i < |items| && items[i].url.Some? ==> Recorded(st.places, items[i].url.value)
    ensures var r := InsertBookmarks(st, env, items);
      r.ok ==> Linked(st.bookmarks, r.st.bookmarks, ParentIdOf(st.bookmarks, guid), ItemLinks(items), r.st.places, placed, s)
    decreases |items|
  {
    if |items| == 0 {
      LinkedNothing(st.bookmarks, ParentIdOf(st.bookmarks, guid), st.places, placed, s);
    } else {
      var init, last := items[..|items| - 1], items[|items| - 1];
      assert items == init + [last];
      InsertBookmarksLinks(st, env, init, guid, placed, s);
      InsertBookmarksSnoc(st, env, init, last);
      if InsertBookmarks(st, env, init).ok {
        InsertBookmarksMoves(st, env, init);
        BookmarksLinksStep(st, InsertBookmarks(st, env, init).st, env, init, last, guid, placed, s);
      }
    }
  }

  /** `insert_bookmarks` of one more item: the earlier rows, then that one unless they raised. */
  lemma InsertBookmarksSnoc(st: State, env: Env, init: seq<BookmarkInfo>, last: BookmarkInfo)
    ensures var before := InsertBookmarks(st, env, init);
      InsertBookmarks(st, env, init + [last]) == if !before.ok then before else InsertBookmark(before.st, env, last)
  {
    assert (init + [last])[..|init|] == init;
  }

  /** One more row of `insert_bookmarks`, after the rows of `init` went in from `st` to `mid`. */
  lemma BookmarksLinksStep(st: State, mid: State, env: Env, init: seq<BookmarkInfo>, last: BookmarkInfo, guid: string,
                           placed: bool, s: Stamp)
    requires ParentIdOf(st.bookmarks, guid).Some? && Moves(st, mid, env)
    requires Linked(st.bookmarks, mid.bookmarks, ParentIdOf(st.bookmarks, guid), ItemLinks(init), mid.places, placed, s)
    requires Stamped(last, guid, s)
    requires placed && last.url.Some? ==> Recorded(st.places, last.url.value)
    ensures var r := InsertBookmark(mid, env, last);
      r.ok ==> Linked(st.bookmarks, r.st.bookmarks, ParentIdOf(st.bookmarks, guid), ItemLinks(init + [last]), r.st.places, placed, s)
  {
    var top := ParentIdOf(st.bookmarks, guid);
    var r := InsertBookmark(mid, env, last);
    if placed && last.url.Some? {
      RecordedKept(st.places, mid.places, last.url.value);
    }
    OneRowLinked(mid, env, last, placed, s);
    if r.ok {
      InsertBookmarkMoves(mid, env, last);
      ParentKept(st.bookmarks, mid.bookmarks, guid);
      LinkedWiden(st.bookmarks, mid.bookmarks, top, ItemLinks(init), mid.places, r.st.places, placed, s, s);
      LinkedChain(st.bookmarks, mid.bookmarks, r.st.bookmarks, top, ItemLinks(init), [Link(None, last.url)],
                  r.st.places, placed, s);
      ItemLinksSnoc(init, last);
    }
  }

  lemma ItemLinksSnoc(init: seq<BookmarkInfo>, last: BookmarkInfo)
    ensures ItemLinks(init) + Shift([Link(None, last.url)], |init|) == ItemLinks(init + [last])
  {
  }

  // ---------------------------------------------------------------------
  // `insert_tree`

  /** The time of a call of `insert_tree`: `date_added` when given and not 0, else the next clock reading. */
  function TreeNow(st: State, env: Env, dateAdded: Option<int>): int
  {
    if dateAdded.Some? && dateAdded.value != 0 then dateAdded.value else env.clock(st.clockReads)
  }

  /** The stamp of a level run from `st`, counting readings from `from` to those `r` has taken. */
  function LevelStamp(rootId: int, position: Option<int>, now: int, env: Env, from: nat, r: State): Stamp
  {
    Stamp(rootId, position, now, env.clock, from, r.clockReads)
  }

  /** The bookmarks' links are all under the given parent. */
  lemma {:induction false} HeldLinksTop(tree: seq<Node>, n: nat)
    requires n <= |tree|
    ensures forall k :: 0 <= k < |HeldLinks(tree, n)| ==> HeldLinks(tree, n)[k].parent.None?
  {
    if n > 0 {
      HeldLinksTop(tree, n - 1);
    }
  }

  /** Shifting links under the given parent changes nothing. */
  lemma ShiftTop(links: seq<Link>, offset: nat)
    requires forall k :: 0 <= k < |links| ==> links[k].parent.None?
    ensures Shift(links, offset) == links
  {
  }

  /** The folder row just appended is the one its GUID finds. */
  lemma FolderFound(rows: seq<BookmarkRow>, b: BookmarkRow)
    requires forall i :: 0 <= i < |rows| ==> rows[i].guid != b.guid
    ensures ParentIdOf(rows + [b], b.guid) == Some(b.id)
  {
    var r := ParentIdOf(rows + [b], b.guid);
    assert (rows + [b])[|rows|] == b;
    var c :| c in rows + [b] && c.guid == b.guid && c.id == r.value;
    assert c !in rows;
  }

  /**
   * `insert_tree`, when it completes: the rows it appends point as
   * `Links(tree)` says.  The top rows go under the row `parentGuid` finds,
   * with the call's time and its position or else the root's count; every
   * other row goes under the folder row written for its folder, with the
   * root's count and a clock reading taken during the call; when the GUIDs
   * still to be drawn are free (`placed`), every bookmark row refers to a
   * place holding its URL.
   */
  lemma {:induction false} InsertTreeLinks(st: State, env: Env, tree: seq<Node>, rootId: int, parentGuid: string,
                                           position: Option<int>, dateAdded: Option<int>, placed: bool)
    requires ParentIdOf(st.bookmarks, parentGuid).Some?
    requires placed ==> Fresh(st, env)
    ensures var r := InsertTree(st, env, tree, rootId, parentGuid, position, dateAdded);
      r.ok ==> Linked(st.bookmarks, r.st.bookmarks, ParentIdOf(st.bookmarks, parentGuid), Links(tree), r.st.places, placed,
                      LevelStamp(rootId, position, TreeNow(st, env, dateAdded), env, st.clockReads, r.st))
    decreases tree, 1
  {
    if |tree| == 0 {
      LinkedNothing(st.bookmarks, ParentIdOf(st.bookmarks, parentGuid), st.places, placed,
                    LevelStamp(rootId, position, TreeNow(st, env, dateAdded), env, st.clockReads, st));
    } else {
      var clocked, now := InsertTreeStart(st, env, tree, rootId, parentGuid, position, dateAdded);
      ClockMoves(st, env);
      InsertLevelLinks(clocked, env, tree, |tree|, rootId, parentGuid, position, now, placed, st.clockReads);
      FlushLinks(clocked, InsertLevel(clocked, env, tree, |tree|, rootId, parentGuid, position, now), env, tree,
                 rootId, parentGuid, position, now, placed, st.clockReads);
    }
  }

  /** The end of a level: the held-back bookmarks go under the given parent after the folders' rows. */
  lemma FlushLinks(st: State, level: Level, env: Env, tree: seq<Node>, rootId: int, parentGuid: string,
                   position: Option<int>, now: int, placed: bool, from: nat)
    requires ParentIdOf(st.bookmarks, parentGuid).Some?
    requires LevelLinked(st, level, env, tree, |tree|, rootId, parentGuid, position, now, placed, from)
    ensures var r := Flush(level, env);
      r.ok ==> Linked(st.bookmarks, r.st.bookmarks, ParentIdOf(st.bookmarks, parentGuid), Links(tree), r.st.places, placed,
                      LevelStamp(rootId, position, now, env, from, r.st))
  {
    var top := ParentIdOf(st.bookmarks, parentGuid);
    var mid := level.out.st;
    var r := Flush(level, env);
    var s := LevelStamp(rootId, position, now, env, from, mid);
    if r.ok {
      HeldLinksTop(tree, |tree|);
      ShiftTop(HeldLinks(tree, |tree|), |LevelLinks(tree, |tree|)|);
      if |level.items| == 0 {
        assert Links(tree) == LevelLinks(tree, |tree|) + [];
      } else {
        ParentKept(st.bookmarks, mid.bookmarks, parentGuid);
        InsertBookmarksLinks(mid, env, level.items, parentGuid, placed, s);
        InsertBookmarksMoves(mid, env, level.items);
        LinkedWiden(st.bookmarks, mid.bookmarks, top, LevelLinks(tree, |tree|), mid.places, r.st.places, placed, s, s);
        LinkedChain(st.bookmarks, mid.bookmarks, r.st.bookmarks, top, LevelLinks(tree, |tree|), HeldLinks(tree, |tree|),
                    r.st.places, placed, s);
      }
    }
  }

  /**
   * Where the loop stands after the first `n` nodes, from `st` to `lv`: its
   * items are stamped for the level and, when nothing raised, they are the
   * level's bookmarks, their URLs are recorded when `placed`, and the
   * folders' rows point as `LevelLinks` says.
   */
  ghost predicate LevelLinked(st: State, lv: Level, env: Env, tree: seq<Node>, n: nat, rootId: int, parentGuid: string,
                              position: Option<int>, now: int, placed: bool, from: nat)
    requires n <= |tree|
  {
    var s := LevelStamp(rootId, position, now, env, from, lv.out.st);
    && (forall i :: 0 <= i < |lv.items| ==> Stamped(lv.items[i], parentGuid, s))
    && (lv.out.ok ==>
          && ItemLinks(lv.items) == HeldLinks(tree, n)
          && (placed ==> forall i :: 0 <= i < |lv.items| && lv.items[i].url.Some? ==> Recorded(lv.out.st.places, lv.items[i].url.value))
          && Linked(st.bookmarks, lv.out.st.bookmarks, ParentIdOf(st.bookmarks, parentGuid), LevelLinks(tree, n),
                    lv.out.st.places, placed, s))
  }

  /** The loop over the first `n` nodes. */
  lemma {:induction false} InsertLevelLinks(st: State, env: Env, tree: seq<Node>, n: nat, rootId: int, parentGuid: string,
                                            position: Option<int>, now: int, placed: bool, from: nat)
    requires n <= |tree|
    requires ParentIdOf(st.bookmarks, parentGuid).Some?
    requires placed ==> Fresh(st, env)
    requires from <= st.clockReads
    ensures LevelLinked(st, InsertLevel(st, env, tree, n, rootId, parentGuid, position, now), env, tree, n, rootId,
                        parentGuid, position, now, placed, from)
    decreases tree, 0, n, 2
  {
    if n == 0 {
      LinkedNothing(st.bookmarks, ParentIdOf(st.bookmarks, parentGuid), st.places, placed,
                    LevelStamp(rootId, position, now, env, from, st));
    } else {
      var prev := InsertLevel(st, env, tree, n - 1, rootId, parentGuid, position, now);
      InsertLevelLinks(st, env, tree, n - 1, rootId, parentGuid, position, now, placed, from);
      InsertLevelMoves(st, env, tree, n - 1, rootId, parentGuid, position, now);
      assert InsertLevel(st, env, tree, n, rootId, parentGuid, position, now) ==
        LevelStep(prev, env, tree[n - 1], rootId, parentGuid, position, now);
      LevelStepLinks(st, prev, env, tree, n, rootId, parentGuid, position, now, placed, from);
    }
  }

  /** One turn of the loop keeps `LevelLinked`. */
  lemma {:induction false} LevelStepLinks(st: State, prev: Level, env: Env, tree: seq<Node>, n: nat, rootId: int,
                                          parentGuid: string, position: Option<int>, now: int, placed: bool, from: nat)
    requires 0 < n <= |tree|
    requires ParentIdOf(st.bookmarks, parentGuid).Some?
    requires from <= st.clockReads
    requires Moves(st, prev.out.st, env) && (placed ==> Fresh(st, env))
    requires LevelLinked(st, prev, env, tree, n - 1, rootId, parentGuid, position, now, placed, from)
    ensures LevelLinked(st, LevelStep(prev, env, tree[n - 1], rootId, parentGuid, position, now), env, tree, n, rootId,
                        parentGuid, position, now, placed, from)
    decreases tree, 0, n, 1
  {
    if !prev.out.ok {
      assert LevelStep(prev, env, tree[n - 1], rootId, parentGuid, position, now) == prev;
    } else {
      match tree[n - 1]
      case Bookmark(name, url) =>
        LevelBookmarkLinks(st, prev, env, tree, n, name, url, rootId, parentGuid, position, now, placed, from);
      case Folder(name, items) =>
        LevelFolderLinks(st, prev, env, tree, n, name, items, rootId, parentGuid, position, now, placed, from);
    }
  }

  /** A bookmark node: its place goes in, and its item is held back under the given parent. */
  lemma LevelBookmarkLinks(st: State, prev: Level, env: Env, tree: seq<Node>, n: nat, name: string, url: string,
                           rootId: int, parentGuid: string, position: Option<int>, now: int, placed: bool, from: nat)
    requires 0 < n <= |tree| && tree[n - 1] == Bookmark(name, url)
    requires prev.out.ok && Moves(st, prev.out.st, env) && (placed ==> Fresh(st, env))
    requires LevelLinked(st, prev, env, tree, n - 1, rootId, parentGuid, position, now, placed, from)
    ensures LevelLinked(st, LevelStep(prev, env, Bookmark(name, url), rootId, parentGuid, position, now), env, tree, n,
                        rootId, parentGuid, position, now, placed, from)
  {
    var info := BookmarkStep(prev, env, Bookmark(name, url), rootId, parentGuid, position, now);
    assert placed ==> Fresh(prev.out.st, env);
    MaybeInsertPlaceMoves(prev.out.st, env, url);
    BookmarkHeld(st, prev, LevelStep(prev, env, Bookmark(name, url), rootId, parentGuid, position, now), env, tree, n, info,
                 rootId, parentGuid, position, now, placed, from);
  }

  /** A bookmark node, spelled out: its place goes in, the rows stay, and its item is held back. */
  lemma BookmarkStep(prev: Level, env: Env, node: Node, rootId: int, parentGuid: string,
                     position: Option<int>, now: int) returns (info: BookmarkInfo)
    requires prev.out.ok && node.Bookmark?
    ensures var next := LevelStep(prev, env, node, rootId, parentGuid, position, now);
      && next.out.ok && next.out.st.bookmarks == prev.out.st.bookmarks && next.out.st.clockReads == prev.out.st.clockReads
      && next.out.st.places == MaybeInsertPlace(prev.out.st, env, node.url).places
      && next.items == prev.items + [info]
    ensures info.url == Some(node.url) && info.parentGuid == parentGuid && info.rootId == rootId
    ensures info.position == position && info.dateAdded == now
  {
    var placed := MaybeInsertPlace(prev.out.st, env, node.url);
    info := Item(node, rootId, parentGuid, position, now, GuidOf(env, placed.draws));
  }

  /** The loop's rows stay, and one more item is held back. */
  lemma BookmarkHeld(st: State, prev: Level, next: Level, env: Env, tree: seq<Node>, n: nat, info: BookmarkInfo,
                     rootId: int, parentGuid: string, position: Option<int>, now: int, placed: bool, from: nat)
    requires 0 < n <= |tree| && tree[n - 1].Bookmark?
    requires prev.out.ok && next.out.ok && next.items == prev.items + [info]
    requires next.out.st.bookmarks == prev.out.st.bookmarks && next.out.st.clockReads == prev.out.st.clockReads
    requires PlacesKept(prev.out.st.places, next.out.st.places)
    requires info.url == Some(tree[n - 1].url) && Stamped(info, parentGuid, LevelStamp(rootId, position, now, env, from, next.out.st))
    requires placed ==> Recorded(next.out.st.places, tree[n - 1].url)
    requires LevelLinked(st, prev, env, tree, n - 1, rootId, parentGuid, position, now, placed, from)
    ensures LevelLinked(st, next, env, tree, n, rootId, parentGuid, position, now, placed, from)
  {
    var s := LevelStamp(rootId, position, now, env, from, prev.out.st);
    assert LevelStamp(rootId, position, now, env, from, next.out.st) == s;
    assert LevelLinks(tree, n) == LevelLinks(tree, n - 1) + [];
    assert ItemLinks(prev.items + [info]) == ItemLinks(prev.items) + [Link(None, info.url)];
    LinkedWiden(st.bookmarks, prev.out.st.bookmarks, ParentIdOf(st.bookmarks, parentGuid), LevelLinks(tree, n - 1),
                prev.out.st.places, next.out.st.places, placed, s, s);
    if placed {
      forall i | 0 <= i < |prev.items| && prev.items[i].url.Some?
        ensures Recorded(next.out.st.places, prev.items[i].url.value)
      {
        RecordedKept(prev.out.st.places, next.out.st.places, prev.items[i].url.value);
      }
    }
  }

  /** A folder node: its row and those of its items go in after the rows so far. */
  lemma LevelFolderLinks(st: State, prev: Level, env: Env, tree: seq<Node>, n: nat, name: string, items: seq<Node>,
                         rootId: int, parentGuid: string, position: Option<int>, now: int, placed: bool, from: nat)
    requires 0 < n <= |tree| && tree[n - 1] == Folder(name, items)
    requires ParentIdOf(st.bookmarks, parentGuid).Some?
    requires from <= st.clockReads
    requires prev.out.ok && Moves(st, prev.out.st, env) && (placed ==> Fresh(st, env))
    requires LevelLinked(st, prev, env, tree, n - 1, rootId, parentGuid, position, now, placed, from)
    ensures LevelLinked(st, LevelStep(prev, env, Folder(name, items), rootId, parentGuid, position, now), env, tree, n,
                        rootId, parentGuid, position, now, placed, from)
    decreases tree, 0, n, 0
  {
    var r := InsertFolder(prev.out.st, env, Folder(name, items), rootId, parentGuid, position, now);
    assert LevelStep(prev, env, Folder(name, items), rootId, parentGuid, position, now) == Level(r, prev.items);
    ParentKept(st.bookmarks, prev.out.st.bookmarks, parentGuid);
    InsertFolderLinks(prev.out.st, env, Folder(name, items), rootId, parentGuid, position, now, placed, from);
    InsertFolderMoves(prev.out.st, env, Folder(name, items), rootId, parentGuid, position, now);
    FolderAdded(st, prev, Level(r, prev.items), env, tree, n, rootId, parentGuid, position, now, placed, from);
  }

  /** The loop's rows so far, then a folder's rows; nothing more is held back. */
  lemma FolderAdded(st: State, prev: Level, next: Level, env: Env, tree: seq<Node>, n: nat,
                    rootId: int, parentGuid: string, position: Option<int>, now: int, placed: bool, from: nat)
    requires 0 < n <= |tree| && tree[n - 1].Folder?
    requires prev.out.ok && next.items == prev.items && Moves(prev.out.st, next.out.st, env)
    requires var top := ParentIdOf(st.bookmarks, parentGuid);
      next.out.ok ==> Linked(prev.out.st.bookmarks, next.out.st.bookmarks, top, [Link(None, None)] + Nest(Links(tree[n - 1].items)),
                             next.out.st.places, placed, LevelStamp(rootId, position, now, env, from, next.out.st))
    requires LevelLinked(st, prev, env, tree, n - 1, rootId, parentGuid, position, now, placed, from)
    ensures LevelLinked(st, next, env, tree, n, rootId, parentGuid, position, now, placed, from)
  {
    var top := ParentIdOf(st.bookmarks, parentGuid);
    var node := tree[n - 1];
    assert HeldLinks(tree, n) == HeldLinks(tree, n - 1) + [];
    if next.out.ok {
      var s := LevelStamp(rootId, position, now, env, from, prev.out.st);
      var s' := LevelStamp(rootId, position, now, env, from, next.out.st);
      LinkedWiden(st.bookmarks, prev.out.st.bookmarks, top, LevelLinks(tree, n - 1), prev.out.st.places, next.out.st.places,
                  placed, s, s');
      LinkedChain(st.bookmarks, prev.out.st.bookmarks, next.out.st.bookmarks, top, LevelLinks(tree, n - 1),
                  [Link(None, None)] + Nest(Links(node.items)), next.out.st.places, placed, s');
      if placed {
        forall i | 0 <= i < |prev.items| && prev.items[i].url.Some?
          ensures Recorded(next.out.st.places, prev.items[i].url.value)
        {
          RecordedKept(prev.out.st.places, next.out.st.places, prev.items[i].url.value);
        }
      }
    }
  }

  /**
   * One folder with its items, when it completes: the folder's row goes
   * under the given parent, and its items' rows under that row.
   */
  lemma {:induction false} InsertFolderLinks(st: State, env: Env, node: Node, rootId: int, parentGuid: string,
                                             position: Option<int>, now: int, placed: bool, from: nat)
    requires node.Folder?
    requires ParentIdOf(st.bookmarks, parentGuid).Some?
    requires placed ==> Fresh(st, env)
    requires from <= st.clockReads
    ensures var r := InsertFolder(st, env, node, rootId, parentGuid, position, now);
      r.ok ==> Linked(st.bookmarks, r.st.bookmarks, ParentIdOf(st.bookmarks, parentGuid), [Link(None, None)] + Nest(Links(node.items)),
                      r.st.places, placed, LevelStamp(rootId, position, now, env, from, r.st))
    decreases node, 2
  {
    InsertFolderUnfold(st, env, node, rootId, parentGuid, position, now);
    var guid := GuidOf(env, st.draws);
    var inserted := FolderRow(st, env, node, rootId, parentGuid, position, now, placed, from);
    if inserted.ok {
      var sub := InsertTree(inserted.st, env, node.items, rootId, guid, None, None);
      InsertTreeLinks(inserted.st, env, node.items, rootId, guid, None, None, placed);
      InsertTreeMoves(inserted.st, env, node.items, rootId, guid, None, None);
      if |node.items| > 0 {
        TreeReads(inserted.st, env, node.items, rootId, guid, None, None);
      }
      if sub.ok {
        ItemsUnderFolder(st.bookmarks, inserted.st.bookmarks, sub.st.bookmarks, node.items, ParentIdOf(st.bookmarks, parentGuid),
                         inserted.st.places, sub.st.places, placed, LevelStamp(rootId, position, now, env, from, st),
                         LevelStamp(rootId, position, now, env, from, sub.st),
                         LevelStamp(rootId, None, TreeNow(inserted.st, env, None), env, inserted.st.clockReads, sub.st));
      }
    }
  }

  /**
   * The folder's own row: drawn GUID, one `insert_bookmarks`, and, when it
   * completes, a folder row under the given parent that its GUID finds.
   */
  lemma FolderRow(st: State, env: Env, node: Node, rootId: int, parentGuid: string,
                  position: Option<int>, now: int, placed: bool, from: nat) returns (inserted: Outcome)
    requires node.Folder?
    requires ParentIdOf(st.bookmarks, parentGuid).Some?
    requires placed ==> Fresh(st, env)
    requires from <= st.clockReads
    ensures var guid := GuidOf(env, st.draws);
      inserted == InsertBookmarks(st.(draws := st.draws + 1), env, [Item(node, rootId, parentGuid, position, now, guid)])
    ensures inserted.ok ==>
      && Moves(st, inserted.st, env) && inserted.st.clockReads == st.clockReads
      && |inserted.st.bookmarks| == |st.bookmarks| + 1
      && inserted.st.bookmarks[|st.bookmarks|].kind == TYPE_FOLDER
      && ParentIdOf(inserted.st.bookmarks, GuidOf(env, st.draws)) == Some(inserted.st.bookmarks[|st.bookmarks|].id)
      && Linked(st.bookmarks, inserted.st.bookmarks, ParentIdOf(st.bookmarks, parentGuid), [Link(None, None)],
                inserted.st.places, placed, LevelStamp(rootId, position, now, env, from, st))
  {
    var guid := GuidOf(env, st.draws);
    var drawn := st.(draws := st.draws + 1);
    var item := Item(node, rootId, parentGuid, position, now, guid);
    inserted := InsertBookmarks(drawn, env, [item]);
    FolderRowAdded(drawn, env, item);
    InsertBookmarksLinks(drawn, env, [item], parentGuid, placed, LevelStamp(rootId, position, now, env, from, st));
    DrawMoves(st, env);
    InsertBookmarksMoves(drawn, env, [item]);
    MovesTrans(st, drawn, inserted.st, env);
    assert ItemLinks([item]) == [Link(None, None)];
  }

  /** A folder's item alone through `insert_bookmarks`: one folder row, which its GUID then finds. */
  lemma FolderRowAdded(st: State, env: Env, item: BookmarkInfo)
    requires item.kind == TYPE_FOLDER
    ensures var r := InsertBookmarks(st, env, [item]);
      r.ok ==>
        && |r.st.bookmarks| == |st.bookmarks| + 1 && r.st.bookmarks[|st.bookmarks|].kind == TYPE_FOLDER
        && ParentIdOf(r.st.bookmarks, item.guid) == Some(r.st.bookmarks[|st.bookmarks|].id)
  {
    InsertBookmarksSnoc(st, env, [], item);
    assert [] + [item] == [item];
    var r := InsertBookmark(st, env, item);
    InsertBookmarkEffect(st, env, item);
    if r.ok {
      var folder := r.st.bookmarks[|st.bookmarks|];
      assert r.st.bookmarks == st.bookmarks + [folder];
      FolderFound(st.bookmarks, folder);
    }
  }

  /** The folder's row, then its items' rows under it, dated by a reading taken after `from`. */
  lemma ItemsUnderFolder(a: seq<BookmarkRow>, b: seq<BookmarkRow>, c: seq<BookmarkRow>, items: seq<Node>, top: Option<int>,
                         places: seq<Place>, places': seq<Place>, placed: bool, s0: Stamp, s: Stamp, s': Stamp)
    requires |b| == |a| + 1 && b[|a|].kind == TYPE_FOLDER
    requires Linked(a, b, top, [Link(None, None)], places, placed, s0)
    requires Linked(b, c, Some(b[|a|].id), Links(items), places', placed, s')
    requires PlacesKept(places, places')
    requires s == s0.(to := s.to) && s0.to <= s.to
    requires s'.rootId == s.rootId && s'.position.None? && s'.clock == s.clock && s.from <= s'.from && s'.to == s.to
    requires |items| > 0 ==> s'.from < s'.to && s'.now == s'.clock(s'.from)
    ensures Linked(a, c, top, [Link(None, None)] + Nest(Links(items)), places', placed, s)
  {
    LinkedWiden(a, b, top, [Link(None, None)], places, places', placed, s0, s);
    if |items| > 0 {
      assert Reading(s.clock, s.from, s.to, s'.now);
    } else {
      assert Links(items) == LevelLinks(items, 0) + HeldLinks(items, 0);
    }
    LinkedNest(a, b, c, top, Links(items), places', placed, s, s');
  }

  /** A call of `insert_tree` on a non-empty tree without a date reads the clock. */
  lemma TreeReads(st: State, env: Env, tree: seq<Node>, rootId: int, parentGuid: string,
                  position: Option<int>, dateAdded: Option<int>)
    requires |tree| > 0 && (dateAdded.None? || dateAdded.value == 0)
    ensures st.clockReads < InsertTree(st, env, tree, rootId, parentGuid, position, dateAdded).st.clockReads
  {
    var clocked, now := InsertTreeStart(st, env, tree, rootId, parentGuid, position, dateAdded);
    InsertLevelMoves(clocked, env, tree, |tree|, rootId, parentGuid, position, now);
    FlushMoves(InsertLevel(clocked, env, tree, |tree|, rootId, parentGuid, position, now), env);
  }
}
