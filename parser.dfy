// bookmarks/parser.py: the line scanner that turns a Netscape bookmark file
// into a bookmark tree.  The lines are given (`splitlines` is not modelled);
// `str.strip`, the ASCII part of `str.lower`, `in` and the three regular
// expressions are written out as functions.

module Parser {
  import opened Results
  import opened SqlText
  import opened BookmarkTypes
  import opened Bookmarks

  const UNNAMED_BOOKMARK := "Unnamed Bookmark"
  const UNNAMED_FOLDER := "Unnamed Folder"

  const END_LIST := "</dl>"
  const ITEM := "<dt>"
  const ANCHOR := "<a "
  const HEADING := "<h3>"
  const START_LIST := "<dl"

  /** The characters `str.isspace` accepts, which `str.strip()` removes. */
  predicate IsSpace(c: char)
  {
    var n := c as int;
    n == 0x20 || 0x09 <= n <= 0x0D || 0x1C <= n <= 0x1F || n == 0x85 || n == 0xA0 || n == 0x1680
    || 0x2000 <= n <= 0x200A || n == 0x2028 || n == 0x2029 || n == 0x202F || n == 0x205F || n == 0x3000
  }

  /** `str.lstrip()`. */
  function StripStart(s: string): (r: string)
    ensures |r| <= |s| && r == s[|s| - |r|..]
    ensures |r| > 0 ==> !IsSpace(r[0])
    ensures forall i :: 0 <= i < |s| - |r| ==> IsSpace(s[i])
  {
    if |s| > 0 && IsSpace(s[0]) then StripStart(s[1..]) else s
  }

  /** `str.rstrip()`. */
  function StripEnd(s: string): (r: string)
    ensures |r| <= |s| && r == s[..|r|]
    ensures |r| > 0 ==> !IsSpace(r[|r| - 1])
    ensures forall i :: |r| <= i < |s| ==> IsSpace(s[i])
  {
    if |s| > 0 && IsSpace(s[|s| - 1]) then StripEnd(s[..|s| - 1]) else s
  }

  /** `str.strip()`: the text between the leading and the trailing whitespace. */
  function Strip(s: string): (r: string)
  {
    StripEnd(StripStart(s))
  }

  /** Text that neither begins nor ends with whitespace. */
  predicate Trimmed(s: string)
  {
    |s| == 0 || (!IsSpace(s[0]) && !IsSpace(s[|s| - 1]))
  }

  /** Trimmed text is its own strip. */
  lemma StripTrimmed(s: string)
    requires Trimmed(s)
    ensures Strip(s) == s
  {
  }

  /** Stripping twice is stripping once. */
  lemma StripIdempotent(s: string)
    ensures Strip(Strip(s)) == Strip(s)
  {
    var t := Strip(s);
    if |t| > 0 {
      var u := StripStart(s);
      assert t == u[..|t|];
      assert t[0] == u[0];
    }
    StripTrimmed(t);
  }

  /** `sub` occurs in `s` at `i`. */
  predicate OccursAt(s: string, sub: string, i: nat)
  {
    i + |sub| <= |s| && s[i..i + |sub|] == sub
  }

  /** `sub in s`. */
  predicate Contains(s: string, sub: string)
  {
    exists i :: 0 <= i <= |s| && OccursAt(s, sub, i)
  }

  /** The first index at or after `k` that holds `c`, or the length. */
  function NextIndex(s: string, c: char, k: nat): (j: nat)
    requires k <= |s|
    ensures k <= j <= |s|
    ensures j < |s| ==> s[j] == c
    ensures forall m :: k <= m < j ==> s[m] != c
    decreases |s| - k
  {
    if k == |s| || s[k] == c then k else NextIndex(s, c, k + 1)
  }

  /**
   * The patterns `>([^<]*)</a>`, `href="([^"]*)"` and `<h3>([^<]*)</h3>`
   * have one shape: an opening literal, a run of characters other than
   * `stop`, and a closing literal that begins with `stop`.  Under
   * IGNORECASE they match at `i` when the opening literal is there and the
   * closing one follows the longest such run (a shorter run would have to be
   * followed by `stop`, which it is not).
   */
  predicate MatchesAt(s: string, open: string, stop: char, close: string, i: nat)
  {
    i + |open| <= |s| && Lower(s[i..i + |open|]) == open
    && var j := NextIndex(s, stop, i + |open|);
    j + |close| <= |s| && Lower(s[j..j + |close|]) == close
  }

  /** The group of a match at `i`. */
  function GroupAt(s: string, open: string, stop: char, i: nat): string
    requires i + |open| <= |s|
  {
    s[i + |open|..NextIndex(s, stop, i + |open|)]
  }

  /** `re.search(...).group(1)` from `i` on: the group of the leftmost match, or None. */
  function Search(s: string, open: string, stop: char, close: string, i: nat): (r: Option<string>)
    decreases |s| - i
  {
    if i + |open| > |s| then None
    else if MatchesAt(s, open, stop, close, i) then Some(GroupAt(s, open, stop, i))
    else Search(s, open, stop, close, i + 1)
  }

  /**
   * `Search` finds the leftmost match, and finds nothing exactly when there
   * is no match.
   */
  lemma {:induction false} SearchLeftmost(s: string, open: string, stop: char, close: string, i: nat, k: nat)
    requires i <= k
    requires forall m :: i <= m < k ==> !MatchesAt(s, open, stop, close, m)
    ensures MatchesAt(s, open, stop, close, k) ==> Search(s, open, stop, close, i) == Some(GroupAt(s, open, stop, k))
    ensures (forall m :: k <= m <= |s| ==> !MatchesAt(s, open, stop, close, m)) ==> Search(s, open, stop, close, i) == None
    decreases k - i
  {
    if i < k {
      SearchLeftmost(s, open, stop, close, i + 1, k);
    } else if i + |open| <= |s| && !MatchesAt(s, open, stop, close, i) {
      if forall m :: k <= m <= |s| ==> !MatchesAt(s, open, stop, close, m) {
        SearchNone(s, open, stop, close, i + 1);
      }
    }
  }

  /** No match from `i` on: `Search` gives None. */
  lemma {:induction false} SearchNone(s: string, open: string, stop: char, close: string, i: nat)
    requires forall m :: i <= m <= |s| ==> !MatchesAt(s, open, stop, close, m)
    ensures Search(s, open, stop, close, i) == None
    decreases |s| - i
  {
    if i + |open| <= |s| {
      SearchNone(s, open, stop, close, i + 1);
    }
  }

  const NAME_OPEN := ">"
  const NAME_CLOSE := "</a>"
  const URL_OPEN := "href=\""
  const URL_CLOSE := "\""
  const HEADING_CLOSE := "</h3>"

  /** The bookmark name: `>([^<]*)</a>`, stripped, or "Unnamed Bookmark"; it carries no surrounding whitespace. */
  function BookmarkName(line: string): (r: string)
    ensures Strip(r) == r
  {
    var m := Search(line, NAME_OPEN, '<', NAME_CLOSE, 0);
    if m.None? then (StripTrimmed(UNNAMED_BOOKMARK); UNNAMED_BOOKMARK)
    else (StripIdempotent(m.value); Strip(m.value))
  }

  /** The URL: `href="([^"]*)"`, stripped, or ""; it carries no surrounding whitespace. */
  function BookmarkUrl(line: string): (r: string)
    ensures Strip(r) == r
  {
    var m := Search(line, URL_OPEN, '"', URL_CLOSE, 0);
    if m.None? then "" else (StripIdempotent(m.value); Strip(m.value))
  }

  /** The folder name: `<h3>([^<]*)</h3>`, stripped, or "Unnamed Folder"; it carries no surrounding whitespace. */
  function FolderName(line: string): (r: string)
    ensures Strip(r) == r
  {
    var m := Search(line, HEADING, '<', HEADING_CLOSE, 0);
    if m.None? then (StripTrimmed(UNNAMED_FOLDER); UNNAMED_FOLDER)
    else (StripIdempotent(m.value); Strip(m.value))
  }

  /**
   * Where `parse_dl_node` stops: the items of the list and the index after
   * it, or the line at which the loop stops advancing (a `<dt>` line with
   * neither `<a ` nor `<h3>`), from which it would run forever.
   */
  datatype Parsed = Done(tree: seq<Node>, next: nat) | Hangs(at: nat)

  /**
   * What one pass of the loop of `parse_dl_node` makes of a line, after
   * stripping and lowering it: the end of the list, a bookmark, a folder
   * heading, an item it recognises as neither (the pointer then does not
   * move), or any other line, which is skipped.
   */
  datatype LineKind = EndOfList | BookmarkItem(name: string, url: string) | FolderHeading(name: string) | Unrecognised | Skipped

  function Classify(raw: string): (k: LineKind)
    ensures k.BookmarkItem? ==> Strip(k.name) == k.name && Strip(k.url) == k.url
    ensures k.FolderHeading? ==> Strip(k.name) == k.name
  {
    var line := Strip(raw);
    var lowered := Lower(line);
    if IsPrefix(END_LIST, lowered) then EndOfList
    else if IsPrefix(ITEM, lowered) then
      if Contains(lowered, ANCHOR) then BookmarkItem(BookmarkName(line), BookmarkUrl(line))
      else if Contains(lowered, HEADING) then FolderHeading(FolderName(line))
      else Unrecognised
    else Skipped
  }

  /** Each line classified as the loop would classify it. */
  function Kinds(lines: seq<string>): (ks: seq<LineKind>)
    ensures |ks| == |lines|
  {
    if |lines| == 0 then [] else [Classify(lines[0])] + Kinds(lines[1..])
  }

  /** The kind of line `i` is what `Classify` makes of it. */
  lemma {:induction false} KindOf(lines: seq<string>, i: nat)
    requires i < |lines|
    ensures Kinds(lines)[i] == Classify(lines[i])
  {
    if i > 0 {
      KindOf(lines[1..], i - 1);
    }
  }

  /**
   * `parse_dl_node(lines, pointer)` with the items `tree` already collected:
   * the loop from `pointer` on, over the lines as `Classify` sees them.
   */
  function ParseDl(kinds: seq<LineKind>, pointer: nat, tree: seq<Node>): (r: Parsed)
    ensures r.Done? ==> pointer <= r.next && (r.next <= |kinds| || r.next == pointer)
    ensures r.Hangs? ==> pointer <= r.at < |kinds|
    decreases |kinds| - pointer
  {
    if pointer >= |kinds| then Done(tree, pointer)
    else
      match kinds[pointer]
      case EndOfList => Done(tree, pointer + 1)
      case BookmarkItem(name, url) => ParseDl(kinds, pointer + 1, tree + [Bookmark(name, url)])
      case FolderHeading(name) =>
        (match ParseDl(kinds, pointer + 1, [])
         case Hangs(at) => Hangs(at)
         case Done(items, next) => ParseDl(kinds, next, tree + [Folder(name, items)]))
      case Unrecognised => Hangs(pointer)
      case Skipped => ParseDl(kinds, pointer + 1, tree)
  }

  /**
   * `parse_dl_node`: a loop that advances `pointer` and appends to `tree`,
   * recursing for each folder; where the source would loop forever on a
   * line, it reports that line.
   */
  method ParseDlNode(lines: seq<string>, pointer: nat) returns (r: Parsed)
    ensures r == ParseDl(Kinds(lines), pointer, [])
    decreases |lines| - pointer
  {
    var tree: seq<Node> := [];
    var p := pointer;
    while p < |lines|
      invariant pointer <= p
      invariant ParseDl(Kinds(lines), p, tree) == ParseDl(Kinds(lines), pointer, [])
      decreases |lines| - p
    {
      KindOf(lines, p);
      var line := Strip(lines[p]);
      var lowered := Lower(line);
      if IsPrefix(END_LIST, lowered) {
        assert Kinds(lines)[p] == EndOfList;
        return Done(tree, p + 1);
      } else if IsPrefix(ITEM, lowered) {
        if Contains(lowered, ANCHOR) {
          var name := BookmarkName(line);
          var url := BookmarkUrl(line);
          assert Kinds(lines)[p] == BookmarkItem(name, url);
          tree := tree + [Bookmark(name, url)];
          p := p + 1;
        } else if Contains(lowered, HEADING) {
          var name := FolderName(line);
          assert Kinds(lines)[p] == FolderHeading(name);
          var folder := ParseDlNode(lines, p + 1);
          FolderStep(Kinds(lines), p, tree, name);
          if folder.Hangs? {
            return folder;
          }
          tree := tree + [Folder(name, folder.tree)];
          p := folder.next;
        } else {
          assert Kinds(lines)[p] == Unrecognised;
          return Hangs(p);
        }
      } else {
        assert Kinds(lines)[p] == Skipped;
        p := p + 1;
      }
    }
    return Done(tree, p);
  }

  /** A folder heading at `p`: the folder's own list, then the rest of this one after it. */
  lemma FolderStep(kinds: seq<LineKind>, p: nat, tree: seq<Node>, name: string)
    requires p < |kinds| && kinds[p] == FolderHeading(name)
    ensures var folder := ParseDl(kinds, p + 1, []);
      && (folder.Hangs? ==> ParseDl(kinds, p, tree) == folder)
      && (folder.Done? ==> ParseDl(kinds, p, tree) == ParseDl(kinds, folder.next, tree + [Folder(name, folder.tree)]))
  {
  }

  /** What `parse_html_bookmark` gives: the tree, None when no line opens a list, or the line it would hang on. */
  datatype Imported = Imported(bookmarks: seq<Node>) | NoList | Stuck(at: nat)

  /** A line whose lowered form begins with `<dl` (it is not stripped). */
  function OpensList(line: string): bool
  {
    IsPrefix(START_LIST, Lower(line))
  }

  /** `parse_html_bookmark` on the lines of the file: the tree of the list opened by its first `<dl` line. */
  function ParseHtml(lines: seq<string>): (r: Imported)
    ensures r.NoList? <==> forall i :: 0 <= i < |lines| ==> !OpensList(lines[i])
    ensures r.Stuck? ==> r.at < |lines| && exists i :: 0 <= i < r.at && OpensList(lines[i])
  {
    var start := FirstWhere(lines, OpensList);
    ParseFile(Kinds(lines), start)
  }

  /** The list opened at line `start` (if any), read from the lines as classified. */
  function ParseFile(kinds: seq<LineKind>, start: Option<nat>): (r: Imported)
  {
    if start.None? then NoList
    else match ParseDl(kinds, start.value + 1, [])
      case Done(tree, _) => Imported(tree)
      case Hangs(at) => Stuck(at)
  }

  /** `parse_html_bookmark`: the loop over the lines that looks for the first `<dl`. */
  method ParseHtmlBookmark(lines: seq<string>) returns (r: Imported)
    ensures r == ParseHtml(lines)
  {
    var i := 0;
    while i < |lines|
      invariant 0 <= i <= |lines|
      invariant forall j :: 0 <= j < i ==> !OpensList(lines[j])
    {
      if OpensList(lines[i]) {
        var parsed := ParseDlNode(lines, i + 1);
        FirstOpening(lines, i);
        return if parsed.Done? then Imported(parsed.tree) else Stuck(parsed.at);
      }
      i := i + 1;
    }
    return NoList;
  }

  /** The first line that opens a list, read off the loop's invariant. */
  lemma FirstOpening(lines: seq<string>, i: nat)
    requires i < |lines| && OpensList(lines[i])
    requires forall j :: 0 <= j < i ==> !OpensList(lines[j])
    ensures FirstWhere(lines, OpensList) == Some(i)
  {
  }

  // ---------------------------------------------------------------------
  // What a Netscape bookmark file written from a tree parses back to

  const LIST_OPEN := "<DL><p>"
  const LIST_CLOSE := "</DL><p>"
  const BOOKMARK_HEAD := "<DT><A HREF=\""
  const BOOKMARK_MIDDLE := "\">"
  const BOOKMARK_TAIL := "</A>"
  const FOLDER_HEAD := "<DT><H3>"
  const FOLDER_TAIL := "</H3>"

  /** The line of a bookmark in a bookmark file. */
  function BookmarkLine(name: string, url: string): string
  {
    BOOKMARK_HEAD + url + BOOKMARK_MIDDLE + name + BOOKMARK_TAIL
  }

  /** The line of a folder heading in a bookmark file. */
  function FolderLine(name: string): string
  {
    FOLDER_HEAD + name + FOLDER_TAIL
  }

  /** The lines of a tree: each bookmark on a line, each folder as its heading and its own list. */
  function Render(tree: seq<Node>): (r: seq<string>)
    decreases tree
  {
    if |tree| == 0 then [] else RenderNode(tree[0]) + Render(tree[1..])
  }

  function RenderNode(node: Node): (r: seq<string>)
    decreases node
  {
    match node
    case Bookmark(name, url) => [BookmarkLine(name, url)]
    case Folder(name, items) => [FolderLine(name), LIST_OPEN] + Render(items) + [LIST_CLOSE]
  }

  /** A name the file can carry: no `<`, and no surrounding whitespace. */
  predicate CleanName(s: string)
  {
    Excludes(s, '<') && Trimmed(s)
  }

  /** A URL the file can carry: no `"` or `>`, and no surrounding whitespace. */
  predicate CleanUrl(s: string)
  {
    Excludes(s, '"') && Excludes(s, '>') && Trimmed(s)
  }

  /** Every name and URL in the tree is clean. */
  predicate WellFormed(tree: seq<Node>)
    decreases tree
  {
    |tree| == 0 || (WellFormedNode(tree[0]) && WellFormed(tree[1..]))
  }

  predicate WellFormedNode(node: Node)
    decreases node
  {
    match node
    case Bookmark(name, url) => CleanName(name) && CleanUrl(url)
    case Folder(name, items) => CleanName(name) && WellFormed(items)
  }

  // ---------------------------------------------------------------------
  // Properties of the loop

  /** The items collected before `pointer`, put in front of what the loop collects from it on. */
  function Prepend(acc: seq<Node>, r: Parsed): (s: Parsed)
    ensures s.Done? <==> r.Done?
    ensures s.Done? ==> s.tree == acc + r.tree && s.next == r.next
    ensures s.Hangs? ==> s == r
  {
    match r
    case Done(tree, next) => Done(acc + tree, next)
    case Hangs(at) => Hangs(at)
  }

  /**
   * The items collected so far only ride along: the loop from `pointer`
   * with `acc + tree` collected is the loop with `tree` collected, `acc`
   * put in front.
   */
  lemma {:induction false} ParseDlAccumulates(kinds: seq<LineKind>, pointer: nat, acc: seq<Node>, tree: seq<Node>)
    ensures ParseDl(kinds, pointer, acc + tree) == Prepend(acc, ParseDl(kinds, pointer, tree))
    decreases |kinds| - pointer
  {
    if pointer < |kinds| {
      match kinds[pointer]
      case EndOfList =>
      case BookmarkItem(name, url) =>
        var b := Bookmark(name, url);
        ParseDlAccumulates(kinds, pointer + 1, acc, tree + [b]);
        assert acc + tree + [b] == acc + (tree + [b]);
      case FolderHeading(name) =>
        var inner := ParseDl(kinds, pointer + 1, []);
        if inner.Done? {
          var f := Folder(name, inner.tree);
          ParseDlAccumulates(kinds, inner.next, acc, tree + [f]);
          assert acc + tree + [f] == acc + (tree + [f]);
        }
      case Unrecognised =>
      case Skipped =>
        ParseDlAccumulates(kinds, pointer + 1, acc, tree);
    }
  }

  /** So `parse_dl_node` from `pointer`, and the loop with `acc` collected, differ only by `acc`. */
  lemma ParseDlFromScratch(kinds: seq<LineKind>, pointer: nat, acc: seq<Node>)
    ensures ParseDl(kinds, pointer, acc) == Prepend(acc, ParseDl(kinds, pointer, []))
  {
    ParseDlAccumulates(kinds, pointer, acc, []);
    assert acc + [] == acc;
  }

  // ---------------------------------------------------------------------
  // The lines of a written file, one by one

  /** `str.lower` maps only `A`..`Z`, onto letters. */
  lemma LowerCharKeeps(c: char)
    ensures LowerChar(c) == c || 'a' <= LowerChar(c) <= 'z'
    ensures 'a' <= LowerChar(c) <= 'z' <==> 'a' <= c <= 'z' || 'A' <= c <= 'Z'
  {
  }

  /** A position whose lowered character is not the first of `open` starts no match. */
  lemma NotOpenedAt(s: string, open: string, stop: char, close: string, m: nat)
    requires |open| > 0 && m < |s| && LowerChar(s[m]) != open[0]
    ensures !MatchesAt(s, open, stop, close, m)
  {
    if m + |open| <= |s| {
      assert Lower(s[m..m + |open|])[0] == LowerChar(s[m]);
    }
  }

  /** Lowering a slice, one character at a time. */
  lemma LowerSlice(s: string, k: nat, t: string)
    requires k + |t| <= |s|
    requires forall q :: 0 <= q < |t| ==> LowerChar(s[k + q]) == t[q]
    ensures Lower(s[k..k + |t|]) == t
  {
  }

  /** The same slice of the lowered text. */
  lemma LowerInside(s: string, k: nat, t: string)
    requires k + |t| <= |s|
    requires forall q :: 0 <= q < |t| ==> LowerChar(s[k + q]) == t[q]
    ensures Lower(s)[k..k + |t|] == t
  {
    var l := Lower(s);
    forall q | 0 <= q < |t| ensures l[k..k + |t|][q] == t[q] {
      assert l[k + q] == LowerChar(s[k + q]);
    }
  }

  /**
   * The pattern finds the group between `open` at `k` and `close` at `e`
   * when no character from `i` up to `k` could begin `open`.
   */
  lemma SearchFinds(s: string, open: string, stop: char, close: string, i: nat, k: nat, e: nat)
    requires i <= k && k + |open| <= e < |s| && e + |close| <= |s| && |open| > 0
    requires forall m :: i <= m < k ==> LowerChar(s[m]) != open[0]
    requires Lower(s[k..k + |open|]) == open
    requires forall m :: k + |open| <= m < e ==> s[m] != stop
    requires s[e] == stop && Lower(s[e..e + |close|]) == close
    ensures Search(s, open, stop, close, i) == Some(s[k + |open|..e])
  {
    forall m | i <= m < k ensures !MatchesAt(s, open, stop, close, m) {
      NotOpenedAt(s, open, stop, close, m);
    }
    NextIndexAt(s, stop, k + |open|, e);
    MatchesAtEnd(s, open, stop, close, k, e);
    SearchLeftmost(s, open, stop, close, i, k);
  }

  /** The first `c` at or after `k` is at `e` when `e` holds one and nothing before it does. */
  lemma {:induction false} NextIndexAt(s: string, c: char, k: nat, e: nat)
    requires k <= e < |s| && s[e] == c
    requires forall m :: k <= m < e ==> s[m] != c
    ensures NextIndex(s, c, k) == e
    decreases e - k
  {
    if k < e {
      NextIndexAt(s, c, k + 1, e);
    }
  }

  /** `open` at `k`, then its run up to the `stop` at `e`, then `close`: a match at `k` whose group ends at `e`. */
  lemma MatchesAtEnd(s: string, open: string, stop: char, close: string, k: nat, e: nat)
    requires k + |open| <= e && e + |close| <= |s|
    requires Lower(s[k..k + |open|]) == open && Lower(s[e..e + |close|]) == close
    requires NextIndex(s, stop, k + |open|) == e
    ensures MatchesAt(s, open, stop, close, k)
    ensures GroupAt(s, open, stop, k) == s[k + |open|..e]
  {
  }

  /** A position where no match starts is passed over. */
  lemma SearchSkips(s: string, open: string, stop: char, close: string, i: nat)
    requires !MatchesAt(s, open, stop, close, i)
    ensures Search(s, open, stop, close, i) == Search(s, open, stop, close, i + 1)
  {
  }

  /** `s` holds no `c`. */
  predicate Excludes(s: string, c: char)
  {
    forall i :: 0 <= i < |s| ==> s[i] != c
  }

  /** The shape of a bookmark line: `<DT><A HREF="`, the URL, `">`, the name, `</A>`. */
  predicate BookmarkShaped(line: string, name: string, url: string)
  {
    var u := |url|; var n := |name|;
    |line| == 19 + u + n
    && (forall m :: 0 <= m < 13 ==> line[m] == BOOKMARK_HEAD[m])
    && (forall i :: 0 <= i < u ==> line[13 + i] == url[i])
    && line[13 + u] == '"' && line[14 + u] == '>'
    && (forall i :: 0 <= i < n ==> line[15 + u + i] == name[i])
    && (forall m :: 0 <= m < 4 ==> line[15 + u + n + m] == BOOKMARK_TAIL[m])
  }

  /** Where each part of a bookmark line sits. */
  lemma BookmarkLineAt(name: string, url: string)
    ensures BookmarkShaped(BookmarkLine(name, url), name, url)
  {
  }

  /** A bookmark line is trimmed, is a `<dt>` item and holds `<a `. */
  lemma ShapedItem(line: string, name: string, url: string)
    requires BookmarkShaped(line, name, url)
    ensures Trimmed(line) && IsPrefix(ITEM, Lower(line)) && !IsPrefix(END_LIST, Lower(line))
      && Contains(Lower(line), ANCHOR)
  {
    assert line[|line| - 1] == BOOKMARK_TAIL[3];
    ItemPrefix(line, line[..4]);
    ShapedAnchor(line, name, url);
  }

  /** A line that begins `<DT>`, in any case, is an item and does not end a list. */
  lemma ItemPrefix(line: string, head: string)
    requires |line| >= 4 && head == line[..4] && Lower(head) == ITEM
    ensures IsPrefix(ITEM, Lower(line)) && !IsPrefix(END_LIST, Lower(line))
  {
    assert Lower(line)[..4] == Lower(head) by {
      forall q | 0 <= q < 4 ensures Lower(line)[q] == Lower(head)[q] {
      }
    }
    assert Lower(line)[1] == 'd';
  }

  /** A bookmark line holds `<a ` just after `<DT>`. */
  lemma ShapedAnchor(line: string, name: string, url: string)
    requires BookmarkShaped(line, name, url)
    ensures Contains(Lower(line), ANCHOR)
  {
    LowerInside(line, 4, ANCHOR);
    assert OccursAt(Lower(line), ANCHOR, 4);
  }

  /** The `>` that closes `<DT>` starts no name match: `<A` follows it, not `</a>`. */
  lemma ShapedNameNotAfterItem(line: string, name: string, url: string)
    requires BookmarkShaped(line, name, url)
    ensures !MatchesAt(line, NAME_OPEN, '<', NAME_CLOSE, 3)
  {
    assert line[4] == '<' && line[5] == 'A';
    assert NextIndex(line, '<', 4) == 4;
    assert Lower(line[4..8])[1] == LowerChar(line[5]);
  }

  /** The name search passes over `<DT>`. */
  lemma ShapedNameSkipsItem(line: string, name: string, url: string)
    requires BookmarkShaped(line, name, url)
    ensures Search(line, NAME_OPEN, '<', NAME_CLOSE, 0) == Search(line, NAME_OPEN, '<', NAME_CLOSE, 4)
  {
    forall m | 0 <= m < 3 ensures !MatchesAt(line, NAME_OPEN, '<', NAME_CLOSE, m) {
      assert line[m] == BOOKMARK_HEAD[m];
      NotOpenedAt(line, NAME_OPEN, '<', NAME_CLOSE, m);
    }
    ShapedNameNotAfterItem(line, name, url);
    SearchSkips(line, NAME_OPEN, '<', NAME_CLOSE, 0);
    SearchSkips(line, NAME_OPEN, '<', NAME_CLOSE, 1);
    SearchSkips(line, NAME_OPEN, '<', NAME_CLOSE, 2);
    SearchSkips(line, NAME_OPEN, '<', NAME_CLOSE, 3);
  }

  /** From `<A` to the URL's closing quote there is no `>`. */
  lemma ShapedNameFirst(line: string, name: string, url: string)
    requires BookmarkShaped(line, name, url) && Excludes(url, '>')
    ensures forall m :: 4 <= m < 14 + |url| ==> LowerChar(line[m]) != '>'
  {
    forall m | 4 <= m < 14 + |url| ensures LowerChar(line[m]) != '>' {
      if m < 13 {
        assert line[m] == BOOKMARK_HEAD[m];
      } else if m < 13 + |url| {
        assert line[13 + (m - 13)] == url[m - 13];
      }
      LowerCharKeeps(line[m]);
    }
  }

  /** The literals around the name of a bookmark line. */
  lemma ShapedNameOpen(line: string, name: string, url: string)
    requires BookmarkShaped(line, name, url)
    ensures var k := 14 + |url|; var e := 15 + |url| + |name|;
      Lower(line[k..k + 1]) == NAME_OPEN && line[e] == '<' && Lower(line[e..e + 4]) == NAME_CLOSE
  {
    var e := 15 + |url| + |name|;
    LowerSlice(line, 14 + |url|, NAME_OPEN);
    forall q | 0 <= q < 4 ensures LowerChar(line[e + q]) == NAME_CLOSE[q] {
      assert line[e + q] == BOOKMARK_TAIL[q];
    }
    LowerSlice(line, e, NAME_CLOSE);
  }

  /** The name sits between them. */
  lemma ShapedNameBody(line: string, name: string, url: string)
    requires BookmarkShaped(line, name, url) && Excludes(name, '<')
    ensures line[15 + |url|..15 + |url| + |name|] == name
    ensures forall m :: 15 + |url| <= m < 15 + |url| + |name| ==> line[m] != '<'
  {
    forall m | 15 + |url| <= m < 15 + |url| + |name| ensures line[m] != '<' {
      assert line[15 + |url| + (m - 15 - |url|)] == name[m - 15 - |url|];
    }
  }

  /** The name pattern of a bookmark line finds the name. */
  lemma ShapedName(line: string, name: string, url: string)
    requires BookmarkShaped(line, name, url) && Excludes(name, '<') && Excludes(url, '>')
    ensures Search(line, NAME_OPEN, '<', NAME_CLOSE, 0) == Some(name)
  {
    ShapedNameSkipsItem(line, name, url);
    ShapedNameFirst(line, name, url);
    ShapedNameOpen(line, name, url);
    ShapedNameBody(line, name, url);
    SearchFinds(line, NAME_OPEN, '<', NAME_CLOSE, 4, 14 + |url|, 15 + |url| + |name|);
  }

  /** The literals around the URL of a bookmark line. */
  lemma ShapedUrlOpen(line: string, name: string, url: string)
    requires BookmarkShaped(line, name, url)
    ensures forall m :: 0 <= m < 7 ==> LowerChar(line[m]) != 'h'
    ensures Lower(line[7..13]) == URL_OPEN && line[13 + |url|] == '"' && Lower(line[13 + |url|..14 + |url|]) == URL_CLOSE
  {
    LowerSlice(line, 7, URL_OPEN);
    LowerSlice(line, 13 + |url|, URL_CLOSE);
  }

  /** The URL sits between them. */
  lemma ShapedUrlBody(line: string, name: string, url: string)
    requires BookmarkShaped(line, name, url) && Excludes(url, '"')
    ensures line[13..13 + |url|] == url
    ensures forall m :: 13 <= m < 13 + |url| ==> line[m] != '"'
  {
    forall m | 13 <= m < 13 + |url| ensures line[m] != '"' {
      assert line[13 + (m - 13)] == url[m - 13];
    }
  }

  /** The URL pattern of a bookmark line finds the URL. */
  lemma ShapedUrl(line: string, name: string, url: string)
    requires BookmarkShaped(line, name, url) && Excludes(url, '"')
    ensures Search(line, URL_OPEN, '"', URL_CLOSE, 0) == Some(url)
  {
    ShapedUrlOpen(line, name, url);
    ShapedUrlBody(line, name, url);
    SearchFinds(line, URL_OPEN, '"', URL_CLOSE, 0, 7, 13 + |url|);
  }

  /** Written as a bookmark line, a clean name and URL are read back. */
  lemma BookmarkLineReadBack(name: string, url: string)
    requires CleanName(name) && CleanUrl(url)
    ensures BookmarkName(BookmarkLine(name, url)) == name && BookmarkUrl(BookmarkLine(name, url)) == url
  {
    BookmarkLineAt(name, url);
    ShapedName(BookmarkLine(name, url), name, url);
    ShapedUrl(BookmarkLine(name, url), name, url);
    StripTrimmed(name);
    StripTrimmed(url);
  }

  /** The shape of a folder heading: `<DT><H3>`, the name, `</H3>`. */
  predicate FolderShaped(line: string, name: string)
  {
    var n := |name|;
    |line| == 13 + n
    && (forall m :: 0 <= m < 8 ==> line[m] == FOLDER_HEAD[m])
    && (forall i :: 0 <= i < n ==> line[8 + i] == name[i])
    && (forall m :: 0 <= m < 5 ==> line[8 + n + m] == FOLDER_TAIL[m])
  }

  /** Where each part of a folder heading sits. */
  lemma FolderLineAt(name: string)
    ensures FolderShaped(FolderLine(name), name)
  {
  }

  /** A folder heading is trimmed, is a `<dt>` item and holds `<h3>`. */
  lemma FolderItem(line: string, name: string)
    requires FolderShaped(line, name)
    ensures Trimmed(line) && IsPrefix(ITEM, Lower(line)) && !IsPrefix(END_LIST, Lower(line))
      && Contains(Lower(line), HEADING)
  {
    assert line[|line| - 1] == FOLDER_TAIL[4];
    ItemPrefix(line, line[..4]);
    LowerInside(line, 4, HEADING);
    assert OccursAt(Lower(line), HEADING, 4);
  }

  /** Each `<` of a folder heading outside its name opens one of its tags, and no `a` follows it. */
  lemma FolderTagAt(line: string, name: string, i: nat)
    requires FolderShaped(line, name)
    requires i + 1 < |line| && line[i] == '<' && (i < 8 || 8 + |name| <= i)
    ensures LowerChar(line[i + 1]) != 'a'
  {
    var n := |name|;
    if i < 8 {
      assert line[i] == FOLDER_HEAD[i];
      assert i == 0 || i == 4;
      assert line[i + 1] == FOLDER_HEAD[i + 1];
    } else {
      assert line[8 + n + (i - 8 - n)] == FOLDER_TAIL[i - 8 - n];
      assert i == 8 + n;
      assert line[8 + n + 1] == FOLDER_TAIL[1];
    }
  }

  /** So a folder heading with a clean name holds no `<a `. */
  lemma FolderNoAnchor(line: string, name: string)
    requires FolderShaped(line, name) && Excludes(name, '<')
    ensures !Contains(Lower(line), ANCHOR)
  {
    var l := Lower(line);
    forall i | 0 <= i <= |l| ensures !OccursAt(l, ANCHOR, i) {
      if i + 3 <= |l| {
        assert l[i..i + 3][0] == l[i] && l[i..i + 3][1] == l[i + 1];
        LowerCharKeeps(line[i]);
        if 8 <= i < 8 + |name| {
          assert line[8 + (i - 8)] == name[i - 8];
        } else if line[i] == '<' {
          FolderTagAt(line, name, i);
        }
      }
    }
  }

  /** The heading pattern passes over `<DT>`, which is not `<h3>`. */
  lemma FolderSkipsItem(line: string, name: string)
    requires FolderShaped(line, name)
    ensures Search(line, HEADING, '<', HEADING_CLOSE, 0) == Search(line, HEADING, '<', HEADING_CLOSE, 1)
  {
    assert Lower(line[0..4])[1] == LowerChar(line[1]) == 'd';
    SearchSkips(line, HEADING, '<', HEADING_CLOSE, 0);
  }

  /** The literals around the name of a folder heading. */
  lemma FolderNameOpen(line: string, name: string)
    requires FolderShaped(line, name)
    ensures forall m :: 1 <= m < 4 ==> LowerChar(line[m]) != '<'
    ensures Lower(line[4..8]) == HEADING && line[8 + |name|] == '<'
    ensures Lower(line[8 + |name|..13 + |name|]) == HEADING_CLOSE
  {
    var e := 8 + |name|;
    LowerSlice(line, 4, HEADING);
    forall q | 0 <= q < 5 ensures LowerChar(line[e + q]) == HEADING_CLOSE[q] {
      assert line[e + q] == FOLDER_TAIL[q];
    }
    LowerSlice(line, e, HEADING_CLOSE);
  }

  /** The name sits between them. */
  lemma FolderNameBody(line: string, name: string)
    requires FolderShaped(line, name) && Excludes(name, '<')
    ensures line[8..8 + |name|] == name
    ensures forall m :: 8 <= m < 8 + |name| ==> line[m] != '<'
  {
    forall m | 8 <= m < 8 + |name| ensures line[m] != '<' {
      assert line[8 + (m - 8)] == name[m - 8];
    }
  }

  /** The heading pattern of a folder heading finds the name. */
  lemma FolderNameFound(line: string, name: string)
    requires FolderShaped(line, name) && Excludes(name, '<')
    ensures Search(line, HEADING, '<', HEADING_CLOSE, 0) == Some(name)
  {
    FolderSkipsItem(line, name);
    FolderNameOpen(line, name);
    FolderNameBody(line, name);
    SearchFinds(line, HEADING, '<', HEADING_CLOSE, 1, 4, 8 + |name|);
  }

  // ---------------------------------------------------------------------
  // How the lines of a written file are classified

  /** A bookmark line is read as the bookmark it was written from. */
  lemma BookmarkClassified(name: string, url: string)
    requires CleanName(name) && CleanUrl(url)
    ensures Classify(BookmarkLine(name, url)) == BookmarkItem(name, url)
  {
    var line := BookmarkLine(name, url);
    BookmarkLineAt(name, url);
    ShapedItem(line, name, url);
    StripTrimmed(line);
    BookmarkLineReadBack(name, url);
  }

  /** A folder line is read as the heading of a folder of that name. */
  lemma FolderClassified(name: string)
    requires CleanName(name)
    ensures Classify(FolderLine(name)) == FolderHeading(name)
  {
    var line := FolderLine(name);
    FolderLineAt(name);
    FolderItem(line, name);
    FolderNoAnchor(line, name);
    StripTrimmed(line);
    FolderNameFound(line, name);
    StripTrimmed(name);
  }

  /** A line that begins `<DL>`, in any case, and ends with `>`. */
  predicate OpenShaped(line: string)
  {
    |line| >= 4 && line[0] == '<' && LowerChar(line[1]) == 'd' && LowerChar(line[2]) == 'l'
    && line[3] == '>' && line[|line| - 1] == '>'
  }

  /** A line that begins `</DL>`, in any case, and ends with `>`. */
  predicate CloseShaped(line: string)
  {
    |line| >= 5 && line[0] == '<' && line[1] == '/' && LowerChar(line[2]) == 'd' && LowerChar(line[3]) == 'l'
    && line[4] == '>' && line[|line| - 1] == '>'
  }

  lemma ListLinesShaped()
    ensures OpenShaped(LIST_OPEN) && CloseShaped(LIST_CLOSE)
  {
  }

  /** Text that differs from `p` at `k` does not begin with `p`. */
  lemma NotPrefixAt(p: string, s: string, k: nat)
    requires k < |p| && k < |s| && s[k] != p[k]
    ensures !IsPrefix(p, s)
  {
    if |p| <= |s| {
      assert s[..|p|][k] == s[k];
    }
  }

  /** A line that opens a list is passed over. */
  lemma OpenClassified(line: string)
    requires OpenShaped(line)
    ensures Classify(line) == Skipped
  {
    assert Trimmed(line);
    StripTrimmed(line);
    OpenLowered(line);
  }

  lemma OpenLowered(line: string)
    requires OpenShaped(line)
    ensures !IsPrefix(END_LIST, Lower(line)) && !IsPrefix(ITEM, Lower(line))
  {
    var lowered := Lower(line);
    assert lowered[1] == 'd' && lowered[2] == 'l';
    NotPrefixAt(END_LIST, lowered, 1);
    NotPrefixAt(ITEM, lowered, 2);
  }

  /** A line that begins `</DL>` ends the list. */
  lemma CloseClassified(line: string)
    requires CloseShaped(line)
    ensures Classify(line) == EndOfList
  {
    assert Trimmed(line);
    StripTrimmed(line);
    CloseLowered(line);
  }

  lemma CloseLowered(line: string)
    requires CloseShaped(line)
    ensures IsPrefix(END_LIST, Lower(line))
  {
    LowerInside(line, 0, END_LIST);
  }

  /** Classifying lines one by one commutes with joining runs of lines. */
  lemma {:induction false} KindsAppend(a: seq<string>, b: seq<string>)
    ensures Kinds(a + b) == Kinds(a) + Kinds(b)
  {
    if |a| > 0 {
      assert (a + b)[1..] == a[1..] + b;
      KindsAppend(a[1..], b);
    } else {
      assert a + b == b;
    }
  }

  /** What the lines of a tree are classified as: one item per bookmark, and per folder its heading, a skipped line, its own list and the end of that list. */
  function RenderKinds(tree: seq<Node>): (r: seq<LineKind>)
    decreases tree
  {
    if |tree| == 0 then [] else RenderNodeKinds(tree[0]) + RenderKinds(tree[1..])
  }

  function RenderNodeKinds(node: Node): (r: seq<LineKind>)
    decreases node
  {
    match node
    case Bookmark(name, url) => [BookmarkItem(name, url)]
    case Folder(name, items) => [FolderHeading(name), Skipped] + RenderKinds(items) + [EndOfList]
  }

  /** The lines written for a well-formed tree are classified as `RenderKinds` says. */
  lemma {:induction false} RenderedKinds(tree: seq<Node>)
    requires WellFormed(tree)
    ensures Kinds(Render(tree)) == RenderKinds(tree)
    decreases tree
  {
    if |tree| > 0 {
      RenderedNodeKinds(tree[0]);
      RenderedKinds(tree[1..]);
      KindsAppend(RenderNode(tree[0]), Render(tree[1..]));
    }
  }

  lemma {:induction false} RenderedNodeKinds(node: Node)
    requires WellFormedNode(node)
    ensures Kinds(RenderNode(node)) == RenderNodeKinds(node)
    decreases node
  {
    match node
    case Bookmark(name, url) =>
      BookmarkClassified(name, url);
    case Folder(name, items) =>
      RenderedKinds(items);
      FolderKindsOf(name, items);
  }

  lemma KindsSingle(a: string)
    ensures Kinds([a]) == [Classify(a)]
  {
    assert [a][1..] == [];
  }

  lemma KindsPair(a: string, b: string)
    ensures Kinds([a, b]) == [Classify(a), Classify(b)]
  {
    assert [a, b] == [a] + [b];
    KindsAppend([a], [b]);
    KindsSingle(a);
    KindsSingle(b);
  }

  /** The kinds of a run of lines of the shape a folder is written in. */
  lemma KindsAround(a: string, b: string, inner: seq<string>, c: string)
    ensures Kinds([a, b] + inner + [c]) == [Classify(a), Classify(b)] + Kinds(inner) + [Classify(c)]
  {
    var front := [a, b] + inner;
    KindsAppend(front, [c]);
    KindsAppend([a, b], inner);
    KindsPair(a, b);
    KindsSingle(c);
  }

  /** The kinds of a run of lines framed by one line on each side. */
  lemma KindsFramed(a: string, inner: seq<string>, c: string)
    ensures Kinds([a] + inner + [c]) == [Classify(a)] + Kinds(inner) + [Classify(c)]
  {
    KindsAppend([a] + inner, [c]);
    KindsAppend([a], inner);
    KindsSingle(a);
    KindsSingle(c);
  }

  /** The lines of a folder whose list is classified as `RenderKinds` says. */
  lemma FolderKindsOf(name: string, items: seq<Node>)
    requires CleanName(name) && Kinds(Render(items)) == RenderKinds(items)
    ensures Kinds(RenderNode(Folder(name, items))) == RenderNodeKinds(Folder(name, items))
  {
    KindsAround(FolderLine(name), LIST_OPEN, Render(items), LIST_CLOSE);
    FolderClassified(name);
    ListLinesShaped();
    OpenClassified(LIST_OPEN);
    CloseClassified(LIST_CLOSE);
  }

  // ---------------------------------------------------------------------
  // Reading a written file back

  /** `r` stands in `kinds` from `p` on. */
  predicate KindsAt(kinds: seq<LineKind>, p: nat, r: seq<LineKind>)
  {
    p + |r| <= |kinds| && forall i :: 0 <= i < |r| ==> kinds[p + i] == r[i]
  }

  /** Two consecutive runs. */
  lemma KindsAtSplit(kinds: seq<LineKind>, p: nat, a: seq<LineKind>, b: seq<LineKind>)
    requires KindsAt(kinds, p, a + b)
    ensures KindsAt(kinds, p, a) && KindsAt(kinds, p + |a|, b)
  {
    forall i | 0 <= i < |a| ensures kinds[p + i] == a[i] {
      assert (a + b)[i] == a[i];
    }
    forall i | 0 <= i < |b| ensures kinds[p + |a| + i] == b[i] {
      assert (a + b)[|a| + i] == b[i];
    }
  }

  /** Where the kinds of a folder's lines sit. */
  lemma FolderKinds(kinds: seq<LineKind>, p: nat, name: string, items: seq<Node>)
    requires KindsAt(kinds, p, RenderNodeKinds(Folder(name, items)))
    ensures var n := |RenderKinds(items)|;
      |RenderNodeKinds(Folder(name, items))| == n + 3
      && kinds[p] == FolderHeading(name) && kinds[p + 1] == Skipped
      && KindsAt(kinds, p + 2, RenderKinds(items)) && kinds[p + 2 + n] == EndOfList
  {
    var inner := RenderKinds(items);
    var opening := [FolderHeading(name), Skipped];
    assert RenderNodeKinds(Folder(name, items)) == opening + (inner + [EndOfList]);
    KindsAtSplit(kinds, p, opening, inner + [EndOfList]);
    KindsAtSplit(kinds, p + 2, inner, [EndOfList]);
    assert kinds[p + 0] == opening[0] && kinds[p + 1] == opening[1];
    assert kinds[p + 2 + |inner| + 0] == [EndOfList][0];
  }

  /**
   * Round trip on classified lines: the kinds of a tree's lines, followed
   * by the end of the list, are read back as that tree, and reading
   * resumes after the end of the list.
   */
  lemma {:induction false} ParseRendered(kinds: seq<LineKind>, p: nat, acc: seq<Node>, tree: seq<Node>)
    requires KindsAt(kinds, p, RenderKinds(tree)) && p + |RenderKinds(tree)| < |kinds|
    requires kinds[p + |RenderKinds(tree)|] == EndOfList
    ensures ParseDl(kinds, p, acc) == Done(acc + tree, p + |RenderKinds(tree)| + 1)
    decreases tree
  {
    if |tree| == 0 {
      assert acc + tree == acc;
    } else {
      var node := tree[0];
      var rest := tree[1..];
      var head := RenderNodeKinds(node);
      var q := p + |head|;
      KindsAtSplit(kinds, p, head, RenderKinds(rest));
      assert tree == [node] + rest;
      assert acc + [node] + rest == acc + tree;
      match node
      case Bookmark(name, url) =>
        assert kinds[p + 0] == head[0];
        ParseRendered(kinds, q, acc + [node], rest);
      case Folder(name, items) =>
        FolderKinds(kinds, p, name, items);
        ParseRendered(kinds, p + 2, [], items);
        var n := |RenderKinds(items)|;
        assert ParseDl(kinds, p + 1, []) == ParseDl(kinds, p + 2, []) == Done(items, p + 3 + n);
        assert q == p + 3 + n;
        assert ParseDl(kinds, p, acc) == ParseDl(kinds, q, acc + [node]);
        ParseRendered(kinds, q, acc + [node], rest);
    }
  }

  /** A line that begins `<DL>` in any case is one `parse_html_bookmark` takes to open the list. */
  lemma OpenShapedOpens(line: string)
    requires OpenShaped(line)
    ensures OpensList(line)
  {
    LowerInside(line, 0, START_LIST);
  }

  /** The first line of a file that opens its list is where the list starts. */
  lemma FramedOpens(lines: seq<string>)
    requires |lines| > 0 && OpenShaped(lines[0])
    ensures FirstWhere(lines, OpensList) == Some(0)
  {
    OpenShapedOpens(lines[0]);
  }

  /** How a well-formed tree's lines, between a line that opens a list and one that closes it, are classified. */
  lemma FramedKinds(open: string, close: string, tree: seq<Node>)
    requires OpenShaped(open) && CloseShaped(close) && WellFormed(tree)
    ensures Kinds([open] + Render(tree) + [close]) == [Skipped] + RenderKinds(tree) + [EndOfList]
  {
    KindsFramed(open, Render(tree), close);
    OpenClassified(open);
    CloseClassified(close);
    RenderedKinds(tree);
  }

  /** The kinds of a tree's lines between a skipped line and the end of the list are read as that tree. */
  lemma ReadsBackKinds(kinds: seq<LineKind>, tree: seq<Node>)
    requires kinds == [Skipped] + RenderKinds(tree) + [EndOfList]
    ensures ParseFile(kinds, Some(0)) == Imported(tree)
  {
    KindsOfDocument(kinds, RenderKinds(tree));
    ParseRendered(kinds, 1, [], tree);
    assert [] + tree == tree;
  }

  /**
   * Round trip: `parse_html_bookmark` reads back a well-formed tree from its
   * lines written between a line that opens a list and one that closes it.
   */
  lemma FramedRoundTrip(open: string, close: string, tree: seq<Node>)
    requires OpenShaped(open) && CloseShaped(close) && WellFormed(tree)
    ensures ParseHtml([open] + Render(tree) + [close]) == Imported(tree)
  {
    var lines := [open] + Render(tree) + [close];
    FramedOpens(lines);
    FramedKinds(open, close, tree);
    ReadsBackKinds(Kinds(lines), tree);
  }

  /** A whole bookmark file: one list holding the tree. */
  function Document(tree: seq<Node>): seq<string>
  {
    [LIST_OPEN] + Render(tree) + [LIST_CLOSE]
  }

  /** `parse_html_bookmark` reads back the tree a well-formed file was written from. */
  lemma DocumentRoundTrip(tree: seq<Node>)
    requires WellFormed(tree)
    ensures ParseHtml(Document(tree)) == Imported(tree)
  {
    ListLinesShaped();
    FramedRoundTrip(LIST_OPEN, LIST_CLOSE, tree);
  }

  /** Where the kinds of a tree's lines sit in the kinds of a whole file. */
  lemma KindsOfDocument(kinds: seq<LineKind>, inner: seq<LineKind>)
    requires kinds == [Skipped] + inner + [EndOfList]
    ensures KindsAt(kinds, 1, inner) && kinds[1 + |inner|] == EndOfList
  {
    forall i | 0 <= i < |inner| ensures kinds[1 + i] == inner[i] {
    }
  }
}
