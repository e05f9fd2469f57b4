/**
 * The `moz_bookmarks` side of bookmarks/bookmark.py: its constants, the root
 * name lookup, the rows, and what each of its statements does to the rows:
 * the GUID lookup of `fetch_bookmark`, the recursive CTE of
 * `remove_folder_contents`, the deletions of `remove_tree_if_exists` and the
 * row that `insert_bookmarks` adds for one item.
 */
module Bookmarks {
  import opened Results
  import opened SqlText
  import opened BookmarkTypes

  const TYPE_BOOKMARK := 1
  const TYPE_FOLDER := 2
  const TYPE_SEPARATOR := 3

  const SYNC_STATUS_UNKNOWN := 0
  const SYNC_STATUS_NEW := 1
  const SYNC_STATUS_NORMAL := 2

  const ROOT_GUID := "root________"
  const MENU_GUID := "menu________"
  const TOOLBAR_GUID := "toolbar_____"
  const UNFILED_GUID := "unfiled_____"
  const MOBILE_GUID := "mobile______"
  const TAGS_GUID := "tags________"

  /** The roots that hold the user's own bookmarks. */
  const USER_CONTENT_ROOTS := [MENU_GUID, TOOLBAR_GUID, UNFILED_GUID, MOBILE_GUID]

  const MENU_NAME := "menu"
  const TOOLBAR_NAME := "toolbar"
  const UNFILED_NAME := "unfiled"
  const MOBILE_NAME := "mobile"

  /** The message of the `ValueError` for any other name (the name and the list are not formatted in). */
  const UNKNOWN_ROOT_ERROR := "Unknown root name"

  /** `str.lower` on one character, for the ASCII letters. */
  function LowerChar(c: char): (r: char)
    ensures 'A' <= c <= 'Z' ==> r as int == c as int + 32
    ensures !('A' <= c <= 'Z') ==> r == c
  {
    if 'A' <= c <= 'Z' then (c as int + 32) as char else c
  }

  /** `str.lower` on the ASCII letters. */
  function Lower(s: string): (r: string)
    ensures |r| == |s|
    ensures forall i :: 0 <= i < |s| ==> r[i] == LowerChar(s[i])
  {
    if |s| == 0 then "" else [LowerChar(s[0])] + Lower(s[1..])
  }

  /** Lowering twice is lowering once. */
  lemma LowerIdempotent(s: string)
    ensures Lower(Lower(s)) == Lower(s)
  {
    assert forall i :: 0 <= i < |s| ==> LowerChar(LowerChar(s[i])) == LowerChar(s[i]);
  }

  /** `determine_root_guid`: one of the four names, in any case, or an error. */
  function DetermineRootGuid(name: string): (r: Result<string>)
    ensures r == Ok(MENU_GUID) <==> Lower(name) == MENU_NAME
    ensures r == Ok(TOOLBAR_GUID) <==> Lower(name) == TOOLBAR_NAME
    ensures r == Ok(UNFILED_GUID) <==> Lower(name) == UNFILED_NAME
    ensures r == Ok(MOBILE_GUID) <==> Lower(name) == MOBILE_NAME
    ensures r.Ok? ==> r.value in USER_CONTENT_ROOTS
  {
    var lowered := Lower(name);
    if lowered == MENU_NAME then Ok(MENU_GUID)
    else if lowered == TOOLBAR_NAME then Ok(TOOLBAR_GUID)
    else if lowered == UNFILED_NAME then Ok(UNFILED_GUID)
    else if lowered == MOBILE_NAME then Ok(MOBILE_GUID)
    else Err(UNKNOWN_ROOT_ERROR)
  }

  /** The lookup ignores case: a name and its lowered form give the same answer. */
  lemma RootGuidIgnoresCase(name: string)
    ensures DetermineRootGuid(name) == DetermineRootGuid(Lower(name))
  {
    LowerIdempotent(name);
  }

  /** A row of `moz_bookmarks`; the parts `BookmarkRow` reads, and the two dates. */
  datatype BookmarkRow = BookmarkRow(
    id: int,
    kind: int,
    fk: Option<int>,
    parent: Option<int>,
    position: int,
    title: Option<string>,
    keywordId: Option<int>,
    folderType: Option<string>,
    dateAdded: int,
    lastModified: int,
    guid: string,
    syncStatus: int,
    syncChangeCounter: int)

  /** `WHERE guid = :guid`. */
  function HasGuid(guid: string): BookmarkRow -> bool
  {
    (b: BookmarkRow) => b.guid == guid
  }

  /** `fetch_bookmark`: the first row with the GUID, or None when no row has it. */
  function FindBookmark(rows: seq<BookmarkRow>, guid: string): (r: Option<BookmarkRow>)
    ensures r.None? <==> forall i :: 0 <= i < |rows| ==> rows[i].guid != guid
    ensures r.Some? ==> r.value in rows && r.value.guid == guid
  {
    var k := FirstWhere(rows, HasGuid(guid));
    if k.None? then None else Some(rows[k.value])
  }

  /** The ids of the rows. */
  function RowIds(rows: seq<BookmarkRow>): set<int>
  {
    set b | b in rows :: b.id
  }

  /** The ids of the rows whose parent is one of `parents`: `JOIN ... ON parent = did`. */
  function ChildIds(rows: seq<BookmarkRow>, parents: set<int>): (r: set<int>)
    ensures r <= RowIds(rows)
  {
    set b | b in rows && b.parent.Some? && b.parent.value in parents :: b.id
  }

  /** The ids of the rows with a GUID. */
  function IdsWithGuid(rows: seq<BookmarkRow>, guid: string): set<int>
  {
    set b | b in rows && b.guid == guid :: b.id
  }

  /** Adding ids to a subset of `all` leaves fewer of `all` missing. */
  lemma FewerMissing(all: set<int>, s: set<int>, t: set<int>)
    requires s < t <= all
    ensures |all - t| < |all - s|
  {
    assert all - s == (all - t) + (t - s);
    assert (all - t) * (t - s) == {};
    assert t == s + (t - s);
    assert t - s != {};
  }

  /**
   * The recursive part of the CTE: add the children of what is there until
   * nothing new comes.  It contains its start and is closed under children.
   */
  function Closure(rows: seq<BookmarkRow>, s: set<int>): (r: set<int>)
    requires s <= RowIds(rows)
    ensures s <= r <= RowIds(rows)
    ensures ChildIds(rows, r) <= r
    decreases |RowIds(rows) - s|
  {
    var next := s + ChildIds(rows, s);
    if next == s then s
    else
      FewerMissing(RowIds(rows), s, next);
      Closure(rows, next)
  }

  /** The CTE `descendants`: the children of the rows with the GUID, and all their descendants. */
  function Descendants(rows: seq<BookmarkRow>, guid: string): (r: set<int>)
    ensures ChildIds(rows, IdsWithGuid(rows, guid)) <= r
    ensures ChildIds(rows, r) <= r
  {
    Closure(rows, ChildIds(rows, IdsWithGuid(rows, guid)))
  }

  /** `ChildIds` grows with the set of parents. */
  lemma ChildIdsMonotone(rows: seq<BookmarkRow>, a: set<int>, b: set<int>)
    requires a <= b
    ensures ChildIds(rows, a) <= ChildIds(rows, b)
  {
  }

  /** The closure is the least set that contains the start and is closed under children. */
  lemma {:induction false} ClosureLeast(rows: seq<BookmarkRow>, s: set<int>, bound: set<int>)
    requires s <= RowIds(rows)
    requires s <= bound && ChildIds(rows, bound) <= bound
    ensures Closure(rows, s) <= bound
    decreases |RowIds(rows) - s|
  {
    var next := s + ChildIds(rows, s);
    if next != s {
      ChildIdsMonotone(rows, s, bound);
      FewerMissing(RowIds(rows), s, next);
      ClosureLeast(rows, next, bound);
    }
  }

  /** The descendants are the least closed set holding the children of the rows with the GUID. */
  lemma DescendantsLeast(rows: seq<BookmarkRow>, guid: string, bound: set<int>)
    requires ChildIds(rows, IdsWithGuid(rows, guid)) <= bound && ChildIds(rows, bound) <= bound
    ensures Descendants(rows, guid) <= bound
  {
    ClosureLeast(rows, ChildIds(rows, IdsWithGuid(rows, guid)), bound);
  }

  /**
   * Parent links go down a ranking `depth`: every row is deeper than its
   * parent, so the parent graph has no cycle.
   */
  predicate Ranked(rows: seq<BookmarkRow>, depth: int -> nat)
  {
    forall b :: b in rows && b.parent.Some? ==> depth(b.parent.value) < depth(b.id)
  }

  /** No two rows share a GUID, as the host schema's unique index on `guid` keeps them. */
  predicate GuidsUnique(rows: seq<BookmarkRow>)
  {
    forall i, j :: 0 <= i < j < |rows| ==> rows[i].guid != rows[j].guid
  }

  /** In a table without cycles, a row is never among its own descendants. */
  lemma NotOwnDescendant(rows: seq<BookmarkRow>, depth: int -> nat, k: nat)
    requires Ranked(rows, depth) && GuidsUnique(rows) && k < |rows|
    ensures rows[k].id !in Descendants(rows, rows[k].guid)
  {
    var g := rows[k].guid;
    var below := set b | b in rows && depth(b.id) > depth(rows[k].id) :: b.id;
    assert IdsWithGuid(rows, g) == {rows[k].id} by {
      forall x | x in IdsWithGuid(rows, g) ensures x == rows[k].id {
        var b :| b in rows && b.guid == g && b.id == x;
        var i :| 0 <= i < |rows| && rows[i] == b;
        assert i == k;
      }
    }
    DescendantsLeast(rows, g, below);
  }

  /** The rows whose id is not in `ids`, in table order: `DELETE FROM moz_bookmarks WHERE id IN ...`. */
  function Keep(rows: seq<BookmarkRow>, ids: set<int>): (r: seq<BookmarkRow>)
    ensures |r| <= |rows|
    ensures forall b :: b in r <==> b in rows && b.id !in ids
  {
    if |rows| == 0 then []
    else (if rows[0].id in ids then [] else [rows[0]]) + Keep(rows[1..], ids)
  }

  /** Two deletions by id are one deletion of both sets. */
  lemma {:induction false} KeepKeep(rows: seq<BookmarkRow>, a: set<int>, b: set<int>)
    ensures Keep(Keep(rows, a), b) == Keep(rows, a + b)
    decreases |rows|
  {
    if |rows| > 0 {
      KeepKeep(rows[1..], a, b);
      if rows[0].id !in a {
        assert Keep(rows, a) == [rows[0]] + Keep(rows[1..], a);
        assert Keep(rows, a)[1..] == Keep(rows[1..], a);
      } else {
        assert Keep(rows, a) == Keep(rows[1..], a);
      }
    }
  }

  /** Deletion by two sets that agree on the table's ids is the same deletion. */
  lemma {:induction false} KeepSameIds(rows: seq<BookmarkRow>, a: set<int>, b: set<int>)
    requires forall x :: x in RowIds(rows) ==> (x in a <==> x in b)
    ensures Keep(rows, a) == Keep(rows, b)
    decreases |rows|
  {
    if |rows| > 0 {
      assert rows[0] in rows;
      assert forall x :: x in rows[1..] ==> x in rows;
      KeepSameIds(rows[1..], a, b);
    }
  }

  /** Every row of a deletion is a row of the table: its ids are a subset. */
  lemma KeepIds(rows: seq<BookmarkRow>, ids: set<int>)
    ensures RowIds(Keep(rows, ids)) == RowIds(rows) - ids
  {
    var kept := Keep(rows, ids);
    forall x | x in RowIds(kept) ensures x in RowIds(rows) - ids {
      var i :| 0 <= i < |kept| && kept[i].id == x;
      assert kept[i] in kept;
    }
    forall x | x in RowIds(rows) - ids ensures x in RowIds(kept) {
      var i :| 0 <= i < |rows| && rows[i].id == x;
      assert rows[i] in rows;
      var j :| 0 <= j < |kept| && kept[j] == rows[i];
    }
  }

  /** The rows left by a deletion reach no more than the table did. */
  lemma DescendantsShrink(rows: seq<BookmarkRow>, gone: set<int>, guid: string)
    ensures Descendants(Keep(rows, gone), guid) <= Descendants(rows, guid)
  {
    var left := Keep(rows, gone);
    var before := Descendants(rows, guid);
    assert ChildIds(left, before) <= ChildIds(rows, before);
    assert IdsWithGuid(left, guid) <= IdsWithGuid(rows, guid);
    ChildIdsMonotone(rows, IdsWithGuid(left, guid), IdsWithGuid(rows, guid));
    assert ChildIds(left, IdsWithGuid(left, guid)) <= ChildIds(rows, IdsWithGuid(rows, guid));
    DescendantsLeast(left, guid, before);
  }

  /** After deleting a closed set `gone`, what is left still reaches every old descendant outside `gone`. */
  lemma DescendantsRecover(rows: seq<BookmarkRow>, gone: set<int>, guid: string)
    requires ChildIds(rows, gone) <= gone
    ensures Descendants(rows, guid) <= gone + Descendants(Keep(rows, gone), guid)
  {
    var left := Keep(rows, gone);
    var after := Descendants(left, guid);
    var bound := gone + after;
    forall x | x in ChildIds(rows, IdsWithGuid(rows, guid))
      ensures x in bound
    {
      if x !in gone {
        var b :| b in rows && b.parent.Some? && b.parent.value in IdsWithGuid(rows, guid) && b.id == x;
        var q :| q in rows && q.guid == guid && q.id == b.parent.value;
        assert b.parent.value !in gone by {
          assert b.parent.value in gone ==> x in ChildIds(rows, gone);
        }
        assert q in left && b in left;
        assert x in ChildIds(left, IdsWithGuid(left, guid));
      }
    }
    forall x | x in ChildIds(rows, bound)
      ensures x in bound
    {
      if x !in gone {
        var b :| b in rows && b.parent.Some? && b.parent.value in bound && b.id == x;
        assert b.parent.value !in gone by {
          assert b.parent.value in gone ==> x in ChildIds(rows, gone);
        }
        assert b in left;
        assert x in ChildIds(left, after);
      }
    }
    DescendantsLeast(rows, guid, bound);
  }

  /**
   * After deleting a closed set `gone`, the descendants of a GUID in what is
   * left are its old descendants, up to rows of `gone`.
   */
  lemma DescendantsAfterDelete(rows: seq<BookmarkRow>, gone: set<int>, guid: string)
    requires ChildIds(rows, gone) <= gone
    ensures gone + Descendants(Keep(rows, gone), guid) == gone + Descendants(rows, guid)
  {
    DescendantsShrink(rows, gone, guid);
    DescendantsRecover(rows, gone, guid);
  }

  /** `remove_folder_contents` for the first `n` GUIDs: each statement deletes the descendants of one GUID. */
  function RemoveFolderContents(rows: seq<BookmarkRow>, guids: seq<string>): (r: seq<BookmarkRow>)
    ensures |r| <= |rows|
    ensures forall b :: b in r ==> b in rows
    decreases |guids|
  {
    if |guids| == 0 then rows
    else
      var before := RemoveFolderContents(rows, guids[..|guids| - 1]);
      Keep(before, Descendants(before, guids[|guids| - 1]))
  }

  /** The descendants of any of the GUIDs, in the table as it was. */
  function AllDescendants(rows: seq<BookmarkRow>, guids: seq<string>): (r: set<int>)
    ensures ChildIds(rows, r) <= r
    decreases |guids|
  {
    if |guids| == 0 then {}
    else
      var init := AllDescendants(rows, guids[..|guids| - 1]);
      var last := Descendants(rows, guids[|guids| - 1]);
      assert ChildIds(rows, init + last) <= init + last by {
        forall x | x in ChildIds(rows, init + last) ensures x in init + last {
          var i :| 0 <= i < |rows| && rows[i].parent.Some? && rows[i].parent.value in init + last && rows[i].id == x;
          if rows[i].parent.value in init {
            assert x in ChildIds(rows, init);
          } else {
            assert x in ChildIds(rows, last);
          }
        }
      }
      init + last
  }

  /**
   * The statements one after another delete exactly the rows that were, in
   * the table as it was, a descendant of one of the GUIDs; every other row
   * stays, in order.  An empty list deletes nothing.
   */
  lemma {:induction false} RemoveFolderContentsExact(rows: seq<BookmarkRow>, guids: seq<string>)
    ensures RemoveFolderContents(rows, guids) == Keep(rows, AllDescendants(rows, guids))
    decreases |guids|
  {
    if |guids| == 0 {
      KeepAll(rows);
    } else {
      var init := guids[..|guids| - 1];
      var g := guids[|guids| - 1];
      var gone := AllDescendants(rows, init);
      RemoveFolderContentsExact(rows, init);
      var before := Keep(rows, gone);
      KeepKeep(rows, gone, Descendants(before, g));
      DescendantsAfterDelete(rows, gone, g);
      KeepSameIds(rows, gone + Descendants(before, g), gone + Descendants(rows, g));
      assert AllDescendants(rows, guids) == gone + Descendants(rows, g);
    }
  }

  /** Deleting no id keeps the table. */
  lemma {:induction false} KeepAll(rows: seq<BookmarkRow>)
    ensures Keep(rows, {}) == rows
    decreases |rows|
  {
    if |rows| > 0 {
      KeepAll(rows[1..]);
      assert rows == [rows[0]] + rows[1..];
    }
  }

  /** `remove_folder_contents` with one GUID, on a table without cycles, keeps the folder itself. */
  lemma RemoveFolderContentsKeepsFolder(rows: seq<BookmarkRow>, depth: int -> nat, k: nat)
    requires Ranked(rows, depth) && GuidsUnique(rows) && k < |rows|
    ensures rows[k] in RemoveFolderContents(rows, [rows[k].guid])
  {
    NotOwnDescendant(rows, depth, k);
    assert [rows[k].guid][..0] == [];
    assert rows[k] in rows;
  }

  /** The names of the top level of a parsed tree, `[item.name for item in tree]`. */
  function Names(tree: seq<Node>): (r: seq<string>)
    ensures |r| == |tree| && forall i :: 0 <= i < |tree| ==> r[i] == tree[i].name
  {
    seq(|tree|, i requires 0 <= i < |tree| => tree[i].name)
  }

  /** `WHERE parent = ? AND title IN (...)`: a NULL title is in no list. */
  predicate TopMatch(b: BookmarkRow, rootId: int, names: seq<string>)
  {
    b.parent == Some(rootId) && b.title.Some? && b.title.value in names
  }

  /** The GUIDs that `remove_tree_if_exists` selects, in table order. */
  function MatchGuids(rows: seq<BookmarkRow>, rootId: int, names: seq<string>): (r: seq<string>)
    ensures forall g :: g in r <==> exists b :: b in rows && TopMatch(b, rootId, names) && b.guid == g
  {
    if |rows| == 0 then []
    else
      var rest := MatchGuids(rows[1..], rootId, names);
      assert forall b :: b in rows <==> b == rows[0] || b in rows[1..];
      (if TopMatch(rows[0], rootId, names) then [rows[0].guid] else []) + rest
  }

  /** The rows whose GUID is not in the list, in table order: `DELETE FROM moz_bookmarks WHERE guid IN (...)`. */
  function KeepGuids(rows: seq<BookmarkRow>, guids: seq<string>): (r: seq<BookmarkRow>)
    ensures forall b :: b in r <==> b in rows && b.guid !in guids
  {
    if |rows| == 0 then []
    else (if rows[0].guid in guids then [] else [rows[0]]) + KeepGuids(rows[1..], guids)
  }

  /**
   * `remove_tree_if_exists`: nothing for an empty tree; otherwise the contents
   * of the children of the root named like a top-level item, then those
   * children themselves.
   */
  function RemoveTreeIfExists(rows: seq<BookmarkRow>, tree: seq<Node>, rootId: int): (r: seq<BookmarkRow>)
    ensures forall b :: b in r ==> b in rows
  {
    if |tree| == 0 then rows
    else
      var guids := MatchGuids(rows, rootId, Names(tree));
      if |guids| == 0 then rows
      else KeepGuids(RemoveFolderContents(rows, guids), guids)
  }

  /**
   * What `remove_tree_if_exists` leaves: the rows that are neither a matched
   * child of the root (by GUID) nor a descendant of one, in their order.
   */
  lemma RemoveTreeExact(rows: seq<BookmarkRow>, tree: seq<Node>, rootId: int)
    ensures var guids := MatchGuids(rows, rootId, Names(tree));
      RemoveTreeIfExists(rows, tree, rootId) ==
        if |tree| == 0 then rows else KeepGuids(Keep(rows, AllDescendants(rows, guids)), guids)
  {
    var guids := MatchGuids(rows, rootId, Names(tree));
    RemoveFolderContentsExact(rows, guids);
    if |tree| > 0 && |guids| == 0 {
      KeepAll(rows);
      KeepGuidsNone(rows, guids);
    }
  }

  /** Deleting by an empty list of GUIDs keeps the table. */
  lemma {:induction false} KeepGuidsNone(rows: seq<BookmarkRow>, guids: seq<string>)
    requires |guids| == 0
    ensures KeepGuids(rows, guids) == rows
    decreases |rows|
  {
    if |rows| > 0 {
      KeepGuidsNone(rows[1..], guids);
      assert rows == [rows[0]] + rows[1..];
    }
  }

  /**
   * With unique GUIDs, a row goes exactly when it is a child of the root
   * whose title is one of the top-level names, or a descendant of one; every
   * other row stays.  An empty tree deletes nothing.
   */
  lemma RemoveTreeDeletes(rows: seq<BookmarkRow>, tree: seq<Node>, rootId: int, b: BookmarkRow)
    requires GuidsUnique(rows) && b in rows
    ensures var guids := MatchGuids(rows, rootId, Names(tree));
      b !in RemoveTreeIfExists(rows, tree, rootId) <==>
        |tree| > 0 && (TopMatch(b, rootId, Names(tree)) || b.id in AllDescendants(rows, guids))
  {
    var guids := MatchGuids(rows, rootId, Names(tree));
    RemoveTreeExact(rows, tree, rootId);
    if |tree| > 0 && b.guid in guids {
      var m :| m in rows && TopMatch(m, rootId, Names(tree)) && m.guid == b.guid;
      var i :| 0 <= i < |rows| && rows[i] == b;
      var j :| 0 <= j < |rows| && rows[j] == m;
      assert i == j;
    }
  }

  /** An item that `insert_tree` hands to `insert_bookmarks` (a `BookmarkInfo`). */
  datatype BookmarkInfo = BookmarkInfo(
    url: Option<string>,
    kind: int,
    rootId: int,
    parentGuid: string,
    title: string,
    position: Option<int>,
    dateAdded: int,
    lastModified: int,
    guid: string,
    syncStatus: int,
    syncChangeCounter: int)

  /** `(SELECT id FROM moz_bookmarks WHERE guid = :parent_guid)`. */
  function ParentIdOf(rows: seq<BookmarkRow>, guid: string): (r: Option<int>)
    ensures r.None? <==> forall i :: 0 <= i < |rows| ==> rows[i].guid != guid
    ensures r.Some? ==> exists b :: b in rows && b.guid == guid && b.id == r.value
  {
    var b := FindBookmark(rows, guid);
    if b.None? then None else Some(b.value.id)
  }

  /** `(SELECT COUNT(*) FROM moz_bookmarks WHERE parent = :root_id)`. */
  function CountChildren(rows: seq<BookmarkRow>, rootId: int): (n: nat)
    ensures n == |ChildRows(rows, rootId)|
    ensures n <= |rows|
  {
    if |rows| == 0 then
      assert ChildRows(rows, rootId) == {};
      0
    else
      ChildRowsSnoc(rows, rootId);
      CountChildren(rows[..|rows| - 1], rootId) + (if rows[|rows| - 1].parent == Some(rootId) then 1 else 0)
  }

  /** The positions of the rows whose parent is the root. */
  function ChildRows(rows: seq<BookmarkRow>, rootId: int): set<int>
  {
    set i | 0 <= i < |rows| && rows[i].parent == Some(rootId)
  }

  /** The last row adds its own position to the children, or nothing. */
  lemma ChildRowsSnoc(rows: seq<BookmarkRow>, rootId: int)
    requires |rows| > 0
    ensures var last := |rows| - 1;
      && last !in ChildRows(rows[..last], rootId)
      && ChildRows(rows, rootId) == ChildRows(rows[..last], rootId) + (if rows[last].parent == Some(rootId) then {last} else {})
  {
    var last := |rows| - 1;
    assert forall i :: 0 <= i < last ==> rows[..last][i] == rows[i];
  }

  /** `NULLIF(:title, '')`. */
  function NullIfEmpty(title: string): (r: Option<string>)
    ensures r.None? <==> title == ""
    ensures r.Some? ==> r.value == title
  {
    if title == "" then None else Some(title)
  }

  /**
   * The row `insert_bookmarks` adds for one item, given the place id `fk` that
   * its URL resolved to: a fresh id, the parent looked up by GUID, the given
   * position or else the number of children of the root, and an empty title
   * stored as NULL.
   */
  function NewBookmarkRow(rows: seq<BookmarkRow>, fk: Option<int>, info: BookmarkInfo): (b: BookmarkRow)
    ensures forall i :: 0 <= i < |rows| ==> rows[i].id < b.id
    ensures b.parent == ParentIdOf(rows, info.parentGuid)
    ensures b.position == if info.position.Some? then info.position.value else CountChildren(rows, info.rootId)
    ensures b.title == if info.title == "" then None else Some(info.title)
    ensures b.keywordId.None? && b.folderType.None?
    ensures b.guid == info.guid && b.kind == info.kind && b.fk == fk
    ensures b.dateAdded == info.dateAdded && b.lastModified == info.lastModified
    ensures b.syncStatus == info.syncStatus && b.syncChangeCounter == info.syncChangeCounter
  {
    BookmarkRow(
      NextRowId(rows, (r: BookmarkRow) => r.id), info.kind, fk, ParentIdOf(rows, info.parentGuid),
      if info.position.Some? then info.position.value else CountChildren(rows, info.rootId),
      NullIfEmpty(info.title), None, None, info.dateAdded, info.lastModified, info.guid,
      info.syncStatus, info.syncChangeCounter)
  }
}
