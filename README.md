# Firefox bookmark importer, modelled in Dafny

This project models the core of an importer. The importer reads a Netscape
bookmark file (the HTML that browsers export) and writes its bookmarks and
folders straight into a Firefox profile's `places.sqlite`. It produces the
rows that Firefox itself would have produced. That takes four parts:

- the Places URL hash (`hash_url`, and the SQL function `HASH` with its
  `prefix_lo` / `prefix_hi` range mode);
- the 12-character Places GUID (9 random bytes in URL-safe base64);
- the emulation of Firefox's two temporary triggers, which keep
  `moz_origins`, frecency, `foreign_count` and the hidden and recalculation
  flags up to date;
- the tree-to-rows translation: remove a previous copy of the imported
  top-level folders, then insert the tree depth-first.

The parser that turns the file's lines into the tree is modelled too.

Modules:

- `UrlHash` (hash.dfy) covers the hash. `UrlHashVectors` (vectors.dfy)
  checks the three values the repository's tests expect.
- `Guid` (guid.dfy) generates and validates GUIDs. Base64url encoding
  (RFC 4648, section 5) is proved one-to-one.
- `SqlText` (sqltext.dfy) holds UTF-8 and SQLite's BINARY collation, which
  are needed for `url BETWEEN 'place:' AND 'place:' || X'FFFF'`. It also
  holds the table-order lookup and the rowid rule.
- `Places` (places.dfy) holds the URL helpers and the values of a new
  `moz_places` row.
- `Triggers` (triggers.dfy) holds both triggers as functions on the rows.
- `BookmarkTypes` (tree.dfy) is the parsed tree.
- `Bookmarks` (bookmarks.dfy) holds the bookmark constants, the root-name
  lookup, and the recursive descendant closure of `remove_folder_contents`.
  It also holds what each deletion and insertion does to `moz_bookmarks`.
- `Statements` (statements.dfy) gives each statement, and `insert_tree`
  itself, as a transition of the whole database state.
- `Store` (database.dfy) is a `Database` class whose fields are the three
  tables. Its methods run the statements in place, row by row. Each method
  is proved to reach the state that `Statements` specifies.
- `Parser` (parser.dfy) covers `parse_dl_node` and `parse_html_bookmark`.
  Every line is classified the way one pass of the loop sees it. The
  loops are methods proved equal to a function over those classifications.
- `Headings` (headings.dfy) covers the folder-heading defect listed under
  Findings.
- `TreeLinks` (treelinks.dfy) follows where the rows of `insert_tree` point.
  The top rows go under the row the parent GUID finds. Every other row goes
  under the folder row written for its folder. Every bookmark row refers to
  a place holding its URL, when the GUIDs drawn for new places are free. It
  also proves that no statement changes an existing place's id, URL, hash
  or GUID.

Several things come from outside the importer, so the model takes them as
parameters:

- `urllib.parse.urlparse` is a function `parse`, which gives a URL's scheme
  and netloc.
- `secrets.token_bytes` is `entropy(n)`: the bytes of the n-th call.
- `time.time()` is `clock(n)`: the n-th reading, in microseconds.

The database counts the draws and the readings it has used.

Four behaviours of the source are easy to get wrong. The model follows
the source in each:

- **Host reversal.** `rev_host` is the netloc reversed, plus `"."`, with its
  case kept. It is not lowercased.
- **Default position.** When no position is given, the position is the
  number of rows whose parent is `root_id`, at every depth of the tree. It
  is not the number of siblings under the new row's own parent. Because
  `executemany` runs its rows one at a time, each count does see the rows
  inserted before it.
- **Foreign count on delete.** Nothing decrements `foreign_count` when
  bookmarks are deleted. The importer creates no delete trigger.
- **Expected hashes.** The repository's hash tests compare the integer that
  `hash_url` returns with decimal strings. The model checks that the
  integers are equal.

## Model

| member | source | states |
|---|---|---|
| UrlHash.RotateLeft | utils/hash.py:16-17 | the shift, OR and 32-bit mask are a 5-bit rotation of the 32-bit value |
| UrlHash.HashSimple | utils/hash.py:24-28 | the loop folds `add_to_hash` over the first `l` characters, starting from 0; a non-positive `l` gives 0 |
| UrlHash.FirstIndex | utils/hash.py:32-37 | the index of the first `:`, or -1 exactly when there is none |
| UrlHash.HashUrl | utils/hash.py:31-41 | the loop that finds the first `:`, the two hashes and the masks, shift and sum give `HashOfUrl` |
| UrlHash.MasksArePack | utils/hash.py:39-41 | the source's 64-bit masks and shift, on the values they meet, place the 16-bit scheme hash above the 32-bit hash of the whole URL |
| UrlHash.Hash32Prefix | utils/hash.py:20-28 | the hash of a string one character longer is `add_to_hash` of the shorter string's hash and that character; `Hash32` is `add_to_hash` folded from 0, and bit-vector arithmetic does the `& 0xFFFFFFFF` masks |
| UrlHash.HashOfUrl | utils/hash.py:31-41 | a URL hash is below 2^48; bits 32-47 are the low 16 bits of the scheme's hash; bits 0-31 are the whole URL's hash; no `:` gives 0 on top |
| UrlHash.HashFunction | utils/hash.py:44-58 | an error exactly for 0 or more than 2 arguments; `prefix_lo` and `prefix_hi` give the lowest and highest hash of a URL with the first argument's scheme tag; any other mode gives the URL hash |
| UrlHash.LowBitsOfHash | utils/hash.py:51-56 | the range bounds taken from `hash_url(scheme)` use the low 16 bits of the scheme's own hash |
| UrlHash.BoundsAreTag | utils/hash.py:52-56 | a hash lies between the two bounds exactly when its bits 32 and up equal the tag |
| UrlHash.SchemeUrlInRange | utils/hash.py:44-58 | every URL `s:rest` hashes into `[HASH(s,'prefix_lo'), HASH(s,'prefix_hi')]` |
| UrlHash.InRangeIffTagsMatch | utils/hash.py:44-58 | a URL is in the range of `s` exactly when its scheme's 16-bit tag equals that of `s` (so colliding schemes are admitted) |
| UrlHashVectors.WhatsappHash | test/test_hash.py:6-10 | `hash_url("https://web.whatsapp.com/")` is 47359004657585 |
| UrlHashVectors.RedditHash | test/test_hash.py:12-16 | `hash_url("https://www.reddit.com/")` is 47359719085711 |
| UrlHashVectors.WikipediaHash | test/test_hash.py:18-21 | `hash_url("https://en.wikipedia.org/wiki/Main_Page")` is 47359216927712 |
| Guid.AllGuidChars | utils/guid.py:33-39 | the loop's answer is true exactly when every character is in `[a-zA-Z0-9-_]` |
| Guid.IsValidGuid | utils/guid.py:29-39 | true exactly for 12 characters, all from the alphabet |
| Guid.Digit | utils/guid.py:21 | each 6-bit value has a base64url digit, which is in the GUID alphabet and is not `=` |
| Guid.GuidCharIsDigit | utils/guid.py:21 | the GUID alphabet is exactly the set of base64url digits |
| Guid.EncodeWholeGroups | utils/guid.py:21 | whole 3-byte groups encode to 4 digits each, without padding, all in the GUID alphabet |
| Guid.DecodeEncode | utils/guid.py:21 | decoding undoes the base64url encoding of whole groups |
| Guid.StripNothing | utils/guid.py:21 | `rstrip('=')` leaves text without `=` unchanged |
| Guid.Encode | utils/guid.py:21 | the base64 text comes in whole groups of 4 characters, and is empty exactly for no bytes |
| Guid.GenerateGuid | utils/guid.py:17-26 | 9 random bytes always give a valid 12-character GUID, their encoding, so the length check never raises |
| Guid.GenerateGuidInjective | utils/guid.py:17-26 | different random bytes give different GUIDs |
| SqlText.EncodeChar | utils/places.py:32 | the UTF-8 bytes of a character are 1 to 4 bytes below 0xF5, and one byte equal to the code for ASCII |
| SqlText.BetweenIffPrefix | utils/places.py:32 | on bytes without 0xFF, `x BETWEEN p AND p \|\| X'FFFF'` under BINARY collation holds exactly when `x` starts with `p` |
| SqlText.Utf8AsciiPrefix | utils/places.py:32 | the UTF-8 bytes of a string start with those of an ASCII prefix exactly when the string starts with it |
| SqlText.InPlaceRangeIffPrefix | utils/places.py:32 | the `hidden` range test holds exactly for URLs starting with `place:` |
| SqlText.FirstWhere | utils/places.py:35 | the first row in table order that satisfies the WHERE clause, or none exactly when no row does |
| SqlText.NextRowId | utils/places.py:29 | a new rowid is larger than every id in the table: one more than the largest, or 1 in an empty table |
| Places.GetPrefix | utils/places.py:16-18 | "" exactly when the scheme is empty; otherwise the scheme followed by `://` |
| Places.PrefixDeterminesScheme | utils/places.py:16-18 | two URLs get the same prefix exactly when they have the same scheme |
| Places.RevHost | utils/places.py:42 | the netloc reversed character by character, followed by `.` |
| Places.RevHostInjective | utils/places.py:42 | different hosts give different `rev_host` values |
| Places.InitialFrecency | utils/places.py:43 | 0 exactly for the `place` scheme, -1 for every other scheme |
| Places.Hidden | utils/places.py:32 | 1 exactly for URLs starting with `place:`, otherwise 0 |
| Places.NewPlace | utils/places.py:25-45 | the new place has a fresh id, the URL, its hash, the reversed host, `hidden` 1 for a `place:` URL and 0 otherwise, frecency 0 for the `place` scheme and -1 otherwise, the given GUID, no references and no origin |
| Places.InsertOrIgnore | utils/places.py:29 | a row whose GUID is taken is ignored, otherwise it is appended; unique GUIDs stay unique |
| Places.GuidOfUrl | utils/places.py:34-37 | the GUID of a place with the URL and its hash, or NULL exactly when there is none |
| Places.PlaceIdOf | utils/places.py:48-59 | -1 when no place has the URL, otherwise the id of a place with it |
| Places.PlaceIdByHash | bookmarks/bookmark.py:141 | the id of a place with the URL and its hash, or NULL exactly when there is none |
| Triggers.IsPlaceQuery | utils/triggers.py:12 | true exactly when the hash lies in the `place` scheme's range |
| Triggers.PlaceUrlIsPlaceQuery | utils/triggers.py:12 | every `place:` URL passes the test |
| Triggers.IsPlaceQueryIffTag | utils/triggers.py:12 | a URL passes exactly when its scheme's 16-bit tag is that of `place` |
| Triggers.AfterBookmarkInsert | utils/triggers.py:15-28 | the bookmark trigger adds no place and removes none |
| Triggers.AfterBookmarkInsertEffect | utils/triggers.py:15-28 | the referenced place's frecency goes from -1 to 0 (place query) or 1 and otherwise stays; its `foreign_count` goes up by one; `hidden` and both recalculation flags are set to 1 or 0 (`SqlBool`) from the test; no other place and no other column changes; a folder changes nothing |
| Triggers.ConflictUpdate | utils/triggers.py:43-47 | when the excluded row has both flags set, the existing origin is left as it is |
| Triggers.UpsertOrigin | utils/triggers.py:35-47 | the upsert never changes an origin that is there: the old origins stay as they were, and at most one is appended |
| Triggers.UpsertOriginEffect | utils/triggers.py:35-47 | an existing key leaves the origins unchanged; a new key appends an origin with a fresh id, the place's frecency and both flags set; keys stay unique |
| Triggers.OriginIdOf | utils/triggers.py:48-54 | NULL exactly when no origin has the key |
| Triggers.OriginIdAfterUpsert | utils/triggers.py:35-54 | after the upsert exactly one origin has the key, and the subquery gives its id |
| Triggers.SetOriginId | utils/triggers.py:48-55 | the UPDATE changes no column but `origin_id`: the place with the id gets the origin's id, and every other place is left as it was |
| Triggers.AfterPlaceInsert | utils/triggers.py:31-56 | the place trigger adds no place and removes none |
| Triggers.AfterPlaceInsertEffect | utils/triggers.py:31-56 | after the place trigger, the new place points at the one origin of its prefix and host, keys stay unique, and no other place changes |
| BookmarkTypes.NodeSize | bookmarks/bookmark_types.py:7-16 | every node counts at least one, a folder with all its contents |
| BookmarkTypes.TreeSizeAppend | bookmarks/bookmark_types.py:7-16 | the node and bookmark counts of a concatenation are the sums |
| Bookmarks.Lower | bookmarks/bookmark.py:83 | `str.lower` keeps the length and lowers each ASCII capital |
| Bookmarks.LowerIdempotent | bookmarks/bookmark.py:83 | lowering twice is lowering once |
| Bookmarks.DetermineRootGuid | bookmarks/bookmark.py:82-93 | each of the four names, in any case, gives its root GUID (both directions), any other name is an error, and every result is a user content root |
| Bookmarks.RootGuidIgnoresCase | bookmarks/bookmark.py:82-93 | a name and its lowered form give the same answer |
| Bookmarks.FindBookmark | bookmarks/bookmark.py:96-109 | a row with the GUID, or None exactly when no row has it |
| Bookmarks.Closure | bookmarks/bookmark.py:119-127 | the recursive part of the CTE contains its start, only holds existing ids, and is closed under children |
| Bookmarks.ClosureLeast | bookmarks/bookmark.py:119-127 | the closure is the least such set |
| Bookmarks.Descendants | bookmarks/bookmark.py:119-127 | the CTE holds the children of the rows with the GUID and is closed under children |
| Bookmarks.DescendantsLeast | bookmarks/bookmark.py:119-127 | the CTE is the least closed set holding those children |
| Bookmarks.NotOwnDescendant | bookmarks/bookmark.py:119-128 | in a table without cycles and with unique GUIDs, a folder is never among its own descendants |
| Bookmarks.Keep | bookmarks/bookmark.py:128 | `DELETE ... WHERE id IN` keeps exactly the rows whose id is not in the set |
| Bookmarks.KeepKeep | bookmarks/bookmark.py:128 | two deletions by id are one deletion of both sets |
| Bookmarks.KeepIds | bookmarks/bookmark.py:128 | the ids left are the old ids minus the deleted ones |
| Bookmarks.DescendantsAfterDelete | bookmarks/bookmark.py:116-131 | after deleting a closed set, what each GUID reaches is unchanged outside that set |
| Bookmarks.RemoveFolderContents | bookmarks/bookmark.py:112-131 | the statements only delete: no more rows than before, each of them a row that was there |
| Bookmarks.RemoveFolderContentsExact | bookmarks/bookmark.py:112-131 | the statements in turn delete exactly the rows that were, in the table as it was, descendants of one of the GUIDs; the other rows stay in order; an empty list deletes nothing |
| Bookmarks.RemoveFolderContentsKeepsFolder | bookmarks/bookmark.py:112-131 | emptying a folder keeps the folder itself |
| Bookmarks.MatchGuids | bookmarks/bookmark.py:162-171 | exactly the GUIDs of the root's children whose title is one of the names |
| Bookmarks.KeepGuids | bookmarks/bookmark.py:175-180 | `DELETE ... WHERE guid IN` keeps exactly the rows whose GUID is not listed |
| Bookmarks.RemoveTreeIfExists | bookmarks/bookmark.py:157-180 | the statements only delete: every row left was there before |
| Bookmarks.RemoveTreeExact | bookmarks/bookmark.py:157-180 | what is left is the table without the matched children and their descendants; an empty tree leaves the table |
| Bookmarks.RemoveTreeDeletes | bookmarks/bookmark.py:157-180 | with unique GUIDs, a row goes exactly when it is a child of the root titled with the name of a top-level node (`Names`) or a descendant of one, and only for a non-empty tree |
| Bookmarks.ParentIdOf | bookmarks/bookmark.py:143 | the id of a row with the parent GUID, or NULL exactly when there is none |
| Bookmarks.CountChildren | bookmarks/bookmark.py:144 | the count is the number of rows whose parent is the root |
| Bookmarks.NullIfEmpty | bookmarks/bookmark.py:145 | NULL exactly for "", otherwise the title |
| Bookmarks.NewBookmarkRow | bookmarks/bookmark.py:137-151 | the new row has a fresh id, the parent looked up by GUID, the given position or else the root's child count, the item's title or NULL for "", NULL `keyword_id` and `folder_type`, and the item's GUID, kind, dates and sync fields |
| Statements.GuidOf | utils/guid.py:17-26 | each drawn GUID is valid |
| Statements.MaybeInsertPlace | utils/places.py:25-45 | `maybe_insert_place` leaves `moz_bookmarks` and the clock alone |
| Statements.MaybeInsertPlaceEffect | utils/places.py:25-45 | a recorded URL changes nothing and draws no GUID; otherwise one GUID is drawn; a taken GUID ignores the insert; a free one appends the `NewPlace` row, pointed at the one origin of its prefix and host |
| Statements.MaybeInsertPlaceTwice | utils/places.py:25-45 | afterwards the URL is recorded, and a second call changes nothing |
| Statements.MaybeInsertPlaceOnce | utils/places.py:25-45 | a new URL gets exactly one place, and a recorded URL keeps exactly its places |
| Statements.InsertBookmark | bookmarks/bookmark.py:134-154 | one row of `executemany` draws no GUID, reads no clock and leaves `moz_origins` alone |
| Statements.InsertBookmarks | bookmarks/bookmark.py:134-154 | the whole `executemany` draws no GUID, reads no clock and leaves `moz_origins` alone |
| Statements.InsertBookmarkEffect | bookmarks/bookmark.py:134-154 | a row goes in exactly when no row has its GUID; it carries the values of `NewBookmarkRow` and the place of its URL; then the bookmark trigger runs; a duplicate changes nothing; GUIDs stay unique |
| Statements.InsertBookmarksShape | bookmarks/bookmark.py:134-154 | when `executemany` completes, it has appended one row per item, with the item's kind and title, in order |
| Statements.InsertBookmarksExtends | bookmarks/bookmark.py:134-154 | it only appends, and each row is NEW with counter 1 and equal dates, positioned at the root's child count when no position is given |
| Statements.ParentStable | bookmarks/bookmark.py:143 | appending rows never changes the parent a GUID resolves to, so a row's parent is the one its GUID found when the row went in |
| Statements.LayoutSize | bookmarks/bookmark.py:183-241 | the layout has one entry per node and as many bookmark entries as the tree has bookmarks |
| Statements.InsertTreeExtends | bookmarks/bookmark.py:183-241 | whether or not it completes, `insert_tree` only appends rows, each NEW with counter 1 and equal dates; without a position, each row's position is the number of earlier rows under the root |
| Statements.InsertTreeShape | bookmarks/bookmark.py:183-241 | when it completes, the rows appended have the kinds and titles of `Layout(tree)`: each folder followed by its items' rows, and each level's bookmarks after its folders |
| Statements.InsertLevelShape | bookmarks/bookmark.py:198-238 | after the first n nodes of a level, the folders among them are in and their bookmarks are held back |
| Statements.LevelFails | bookmarks/bookmark.py:198-238 | once a node raises, the loop goes no further |
| Store.Scan | utils/places.py:48-59 | the scan finds the first row in table order that satisfies the WHERE clause |
| Store.LevelStuck | bookmarks/bookmark.py:198-238 | once a turn has raised, the remaining turns change nothing |
| Store.StuckBookmarks | bookmarks/bookmark.py:135-154 | once a row has raised, the rows after it are not tried |
| Store.Database.NextGuid | utils/guid.py:17-26 | the next draw's GUID, which is valid, and one more draw |
| Store.Database.ReadClock | bookmarks/bookmark.py:194 | the next clock reading, and one more reading |
| Store.Database.FetchPlaceId | utils/places.py:48-59 | `PlaceIdOf` on the table, and -1 when no place has the URL |
| Store.Database.FetchBookmark | bookmarks/bookmark.py:96-109 | `FindBookmark` on the table |
| Store.Database.MaybeInsertPlace | utils/places.py:25-45 | the tables end in the state `Statements.MaybeInsertPlace` gives |
| Store.Database.PlaceGuid | utils/places.py:34-37 | the GUID of a place with the URL, or else a new draw |
| Store.Database.InsertOrIgnorePlace | utils/places.py:29 | a taken GUID leaves everything unchanged; otherwise the row and the place trigger |
| Store.Database.PlacesAfterInsert | utils/triggers.py:31-56 | the tables after the place trigger are those of `AfterPlaceInsert` |
| Store.Database.UpdateOriginId | utils/triggers.py:48-55 | only `places` changes, to `SetOriginId` |
| Store.Database.BookmarksAfterInsert | utils/triggers.py:15-28 | only `places` changes, to `AfterBookmarkInsert` |
| Store.Database.UpdateFrecency | utils/triggers.py:19-21 | only `places` changes, to `RaiseFrecency` |
| Store.Database.UpdateForeignCount | utils/triggers.py:22-27 | only `places` changes, to `CountReference` |
| Store.Database.InsertBookmark | bookmarks/bookmark.py:137-151 | the state and the flag are those of `Statements.InsertBookmark` |
| Store.Database.InsertBookmarks | bookmarks/bookmark.py:134-154 | the state and the flag are those of `Statements.InsertBookmarks` |
| Store.Database.RemoveFolderContents | bookmarks/bookmark.py:112-131 | only `bookmarks` changes, to `Bookmarks.RemoveFolderContents` |
| Store.Database.RemoveTreeIfExists | bookmarks/bookmark.py:157-180 | only `bookmarks` changes, to `Bookmarks.RemoveTreeIfExists` |
| Store.Database.InsertTree | bookmarks/bookmark.py:183-241 | the state and the flag are those of `Statements.InsertTree`, so the rows it writes point as `TreeLinks.InsertTreeLinks` states |
| Store.Database.InsertNode | bookmarks/bookmark.py:198-238 | one turn of the loop, on a bookmark or a folder, reaches the state, flag and held-back items of `InsertLevel` over one more node |
| Store.Database.InsertLevelLoop | bookmarks/bookmark.py:196-238 | the state, flag and held-back items are those of `InsertLevel` |
| Store.Database.InsertFolderNode | bookmarks/bookmark.py:216-236 | the state and the flag are those of `InsertFolder`, so the folder's row and its items' rows point as `TreeLinks.InsertFolderLinks` states |
| Parser.StripStart | bookmarks/parser.py:24 | the result is a suffix; it starts with no whitespace; everything removed was whitespace |
| Parser.StripEnd | bookmarks/parser.py:24 | the result is a prefix; it ends with no whitespace; everything removed was whitespace |
| Parser.StripIdempotent | bookmarks/parser.py:24 | stripping twice is stripping once |
| Parser.NextIndex | bookmarks/parser.py:32 | the first index at or after `k` holding the character, or the length |
| Parser.SearchLeftmost | bookmarks/parser.py:32-45 | the search gives the group of the leftmost match, and none when nothing matches |
| Parser.BookmarkName | bookmarks/parser.py:32-33 | the extracted name, or "Unnamed Bookmark", carries no surrounding whitespace |
| Parser.BookmarkUrl | bookmarks/parser.py:36-37 | the extracted URL, or "", carries no surrounding whitespace |
| Parser.FolderName | bookmarks/parser.py:44-45 | the extracted folder name, or "Unnamed Folder", carries no surrounding whitespace |
| Parser.Classify | bookmarks/parser.py:24-50 | the names and URLs the loop reads from a line carry no surrounding whitespace |
| Parser.ParseDl | bookmarks/parser.py:20-52 | the loop never moves backwards; it stops at or after its start, or reports a line at or after its start where it stops advancing |
| Parser.ParseDlNode | bookmarks/parser.py:20-52 | the loop with its pointer, its list and its recursive call gives `ParseDl` over the lines' classes |
| Parser.ParseDlAccumulates | bookmarks/parser.py:20-52 | the items already collected only ride along in front (`Prepend`): a completed result gets them in front, and a hang stays the same hang |
| Parser.ParseHtmlBookmark | bookmarks/parser.py:55-61 | the loop that looks for the first `<dl` line gives `ParseHtml`: the list it opens, read from the next line, or None without one |
| Parser.ParseHtml | bookmarks/parser.py:55-61 | None exactly when no line starts with `<dl`, in any case; a hang is on a line after the first line that does |
| Parser.FirstOpening | bookmarks/parser.py:57-58 | the line the loop stops at is the first that opens a list |
| Parser.BookmarkClassified | bookmarks/parser.py:28-41 | a bookmark line with a clean name and URL is read as that bookmark |
| Parser.FolderClassified | bookmarks/parser.py:42-48 | a folder heading with a clean name is read as the heading of that folder |
| Parser.OpenClassified | bookmarks/parser.py:49-50 | a `<DL>` line inside a list is skipped |
| Parser.CloseClassified | bookmarks/parser.py:25-27 | a `</DL>` line ends the list |
| Parser.RenderedKinds | bookmarks/parser.py:24-50 | each line of a written tree is classified as the item it was written from |
| Parser.ParseRendered | bookmarks/parser.py:20-52 | the loop over a written tree followed by `</DL>` reads back exactly that tree, and stops just after the `</DL>` |
| Parser.FramedRoundTrip | bookmarks/parser.py:55-61 | a well-formed tree written between a `<DL>` line and a `</DL>` line parses back to itself |
| Parser.DocumentRoundTrip | bookmarks/parser.py:55-61 | the file written with `<DL><p>` and `</DL><p>` parses back to the tree |
| Headings.AttributedHeadingUnrecognised | bookmarks/parser.py:28-48 | as written, a heading `<DT><H3 attrs>name</H3>` is a `<dt>` item holding neither `<a ` nor `<h3>` |
| Headings.AttributedHeadingHangs | bookmarks/parser.py:20-61 | as written, a list holding such a heading stops advancing on it: the source never returns |
| Headings.TagEnd | bookmarks/parser.py:42-45 | the `>` that closes the first `<h3` tag |
| Headings.ClassifyFixed | bookmarks/parser.py:24-50 | the intended loop body leaves no line unread |
| Headings.FixedNeverStuck | bookmarks/parser.py:20-61 | the intended parser always returns: it finds no list, or reads one |
| Headings.AttributedHeadingFixed | bookmarks/parser.py:42-45 | the intended parser reads such a heading as the heading of a folder of its name |
| Headings.FixedAgrees | bookmarks/parser.py:24-50 | on every line except a heading or an unread item, the intended loop body classifies like the written one |
| TreeLinks.BookmarkTriggerKeeps | utils/triggers.py:15-28 | the bookmark trigger keeps every place's id, URL, hash and GUID |
| TreeLinks.PlaceTriggerKeeps | utils/triggers.py:31-56 | the place trigger keeps every place's id, URL, hash and GUID |
| TreeLinks.MaybeInsertPlaceMoves | utils/places.py:25-45 | `maybe_insert_place` keeps every place's identifying columns and takes no draw or reading back; when the GUIDs still to be drawn are free, the URL is recorded afterwards and they stay free |
| TreeLinks.InsertBookmarkMoves | bookmarks/bookmark.py:134-154 | one row of `insert_bookmarks` keeps the places and the free GUIDs |
| TreeLinks.InsertBookmarksMoves | bookmarks/bookmark.py:134-154 | `insert_bookmarks` keeps the places and the free GUIDs |
| TreeLinks.InsertTreeMoves | bookmarks/bookmark.py:183-241 | `insert_tree`, whether or not it completes, keeps the places and the free GUIDs, and takes no draw or reading back |
| TreeLinks.InsertLevelMoves | bookmarks/bookmark.py:198-238 | so does the loop over the first n nodes |
| TreeLinks.LevelStepMoves | bookmarks/bookmark.py:199-236 | so does one turn of the loop |
| TreeLinks.InsertFolderMoves | bookmarks/bookmark.py:216-236 | so does one folder with its items |
| TreeLinks.FlushMoves | bookmarks/bookmark.py:240-241 | so does the last `insert_bookmarks` of a level |
| TreeLinks.LinksFit | bookmarks/bookmark.py:183-241 | the links describe the rows of `Layout(tree)`: one link per row, with a URL exactly on the bookmark rows |
| TreeLinks.ParentKept | bookmarks/bookmark.py:143 | a parent GUID that finds a row finds the same row after rows are appended |
| TreeLinks.OneRowLinked | bookmarks/bookmark.py:137-151 | one row goes under the row its parent GUID finds, with the item's date and position; when its URL is recorded, its `fk` is the id of a place with that URL |
| TreeLinks.InsertBookmarksLinks | bookmarks/bookmark.py:134-154 | when `executemany` completes, each item has its row, in order, under the parent its GUID finds, and referring to a place with its URL when that URL is recorded |
| TreeLinks.TreeReads | bookmarks/bookmark.py:194 | a call on a non-empty tree without a date (or with date 0) takes a clock reading |
| TreeLinks.InsertTreeLinks | bookmarks/bookmark.py:183-241 | when it completes, the appended rows point as `Links(tree)` says: top rows under the row the parent GUID finds, with the call's time and its position or else the root's count; deeper rows under the row of their own folder, with the root's count as position and a clock reading taken during the call as date; with free GUIDs, every bookmark row's `fk` is the id of a place with its URL |
| TreeLinks.FlushLinks | bookmarks/bookmark.py:240-241 | the held-back bookmarks of a level go in after the folders' rows, under the level's parent |
| TreeLinks.InsertLevelLinks | bookmarks/bookmark.py:198-238 | after the first n nodes the folders' rows point as their links say, and the held-back items are the level's bookmarks, their URLs recorded when the GUIDs to be drawn are free |
| TreeLinks.LevelStepLinks | bookmarks/bookmark.py:199-236 | one turn of the loop keeps that |
| TreeLinks.FolderRow | bookmarks/bookmark.py:217-235 | a folder's row is one `insert_bookmarks` with a newly drawn GUID; it adds one folder row, under the given parent, that the GUID then finds |
| TreeLinks.InsertFolderLinks | bookmarks/bookmark.py:216-236 | a folder's row goes under the given parent; the nested call, with no position and a new clock reading, puts its items' rows under that folder row |
| TreeLinks.ItemsUnderFolder | bookmarks/bookmark.py:236 | the folder's row followed by the nested call's rows are one block whose inner links are counted from the folder's row |

## Left out

- Reading the file and the command line (main.py), `print_tree`, and `str.splitlines`: the parser starts from the list of lines.
- `urllib.parse.urlparse`: a parameter that gives the scheme and netloc. Its parsing rules are not modelled.
- `secrets.token_bytes` and `time.time()`: parameters indexed by how often they have been called. Nothing is assumed about their values.
- The three regular expressions of the parser are written out as a leftmost search. The search has an opening literal, a run without the stop character, and a closing literal that starts with that character. This is what the three patterns match under `re.IGNORECASE`; the `re` engine itself is not modelled.
- `str.lower` and `str.strip`: `lower` is modelled on ASCII capitals only. `strip` removes the characters `str.isspace` accepts, which are listed by code point. Non-ASCII case mapping is left out.
- UrlHash.HashFunction: returns the integer, not its decimal `str()`. SQLite compares the result with INTEGER columns.
- UrlHash.Ord: characters are taken as code points. Python's `ord` on a `str` of one character is the same value.
- Guid.GenerateGuid: the `ValueError` message is not formatted with the two lengths. The branch is proved unreachable.
- Bookmarks.DetermineRootGuid: the error message does not include the name and the list.
- The `TypeError` branch of `insert_tree` for a node that is neither kind: the tree datatype has only the two kinds.
- SQLite's own limits: rowid overflow, and the CTE on a table with a cycle. The model's closure always ends. The source's `UNION ALL` would not end on a cycle. `NotOwnDescendant` assumes a table without cycles.
- The host schema's indexes other than the unique GUID indexes and the `(prefix, host)` key of `moz_origins`. No unique index on `url` is assumed.
- Concurrency and transactions: the statements run one after another on one connection. Nothing is committed or rolled back.
- The parser's infinite loop is modelled as the result `Hangs(at)` / `Stuck(at)`, which names the line it would loop on.
- Parser.FramedRoundTrip: holds only for well-formed trees. A well-formed tree has names without `<` and URLs without `"` or `>`, with no surrounding whitespace. The tree must also sit between a `<DL>` line and a `</DL>` line.
- TreeLinks.InsertTreeLinks: the places are followed only when the GUIDs still to be drawn are free of the places and of each other. A drawn GUID that a place already has makes `INSERT OR IGNORE` skip the place, and a bookmark's `fk` can then be NULL. The parent GUID must find a row; without one the parent subquery gives NULL, which the lemma does not describe.
- Statements.InsertTree, Statements.InsertLevel, Statements.LevelStep, Statements.InsertFolder: specification functions with no contract of their own. Their rows are those of `InsertTreeShape`, `InsertTreeExtends`, `InsertLevelShape` and the `TreeLinks` lemmas.
- UrlHash.AddToHash, UrlHash.Hash32: specification functions with no contract of their own. `Hash32Prefix`, `HashSimple` and the three test vectors state what they compute.
- Places.GetHostAndPort: no contract of its own. With `urlparse` a parameter, the netloc is already a string, so `or ""` changes nothing. `AfterPlaceInsertEffect` states what the host is used for.
- Triggers.OriginIdOf: states only when the result is NULL. Which origin's id it gives is stated by `OriginIdAfterUpsert`.
- Separators (`TYPE_SEPARATOR`) and the `keyword_id` and `folder_type` columns: the importer never writes them. They are kept only as constants and as columns.

## Findings

| source | as written | input that shows it | evidently intended | confidence | as-written member | corrected member |
|---|---|---|---|---|---|---|
| bookmarks/parser.py:42-50 | a folder is recognised only by `<h3>`, and a `<dt>` line with neither `<a ` nor `<h3>` never advances the pointer | a list line `<DT><H3 ADD_DATE="1">Bar</H3>`, the form browsers export, between `<DL><p>` and `</DL><p>` | a heading is any `<h3` tag, its name follows the `>` that closes the tag, and an item that cannot be read is skipped | not executed | Headings.AttributedHeadingHangs | Headings.FixedNeverStuck, Headings.AttributedHeadingFixed |
