/**
 * Folder headings with attributes.  Browsers write a folder heading as
 * `<DT><H3 ADD_DATE="..." LAST_MODIFIED="...">Name</H3>`: the tag carries
 * attributes, so the line holds `<h3 ` but not `<h3>`.  `parse_dl_node`
 * recognises a folder only by `<h3>`, so such a line is a `<dt>` item it
 * recognises as neither a bookmark nor a folder, and the loop stops
 * advancing on it.  This module shows that, then gives the reading that
 * was evidently intended (a heading is any `<h3` tag, its name follows the
 * `>` that closes the tag, and an item it cannot read is passed over), and
 * proves that this reading never hangs and reads such a heading by its name.
 */
module Headings {
  import opened Results
  import opened SqlText
  import opened BookmarkTypes
  import opened Bookmarks
  import opened Parser

  const ATTRIBUTED_HEAD := "<DT><H3 "

  /** A folder heading whose `<H3` tag carries the attribute text `attrs`. */
  function AttributedFolderLine(attrs: string, name: string): string
  {
    ATTRIBUTED_HEAD + attrs + ">" + name + FOLDER_TAIL
  }

  /** The shape of such a heading: `<DT><H3 `, the attributes, `>`, the name, `</H3>`. */
  predicate HeadingShaped(line: string, attrs: string, name: string)
  {
    var a := |attrs|; var n := |name|;
    |line| == 14 + a + n
    && (forall m :: 0 <= m < 8 ==> line[m] == ATTRIBUTED_HEAD[m])
    && (forall i :: 0 <= i < a ==> line[8 + i] == attrs[i])
    && line[8 + a] == '>'
    && (forall i :: 0 <= i < n ==> line[9 + a + i] == name[i])
    && (forall m :: 0 <= m < 5 ==> line[9 + a + n + m] == FOLDER_TAIL[m])
  }

  lemma HeadingLineAt(attrs: string, name: string)
    ensures HeadingShaped(AttributedFolderLine(attrs, name), attrs, name)
  {
  }

  /** Such a heading is trimmed and is a `<dt>` item that does not end the list. */
  lemma HeadingItem(line: string, attrs: string, name: string)
    requires HeadingShaped(line, attrs, name)
    ensures Trimmed(line) && IsPrefix(ITEM, Lower(line)) && !IsPrefix(END_LIST, Lower(line))
  {
    assert line[0] == ATTRIBUTED_HEAD[0];
    assert line[9 + |attrs| + |name| + 4] == FOLDER_TAIL[4];
    forall q | 0 <= q < 4 ensures LowerChar(line[0 + q]) == ITEM[q] {
      assert line[q] == ATTRIBUTED_HEAD[q];
    }
    LowerSlice(line, 0, ITEM);
    ItemPrefix(line, line[..4]);
  }

  /**
   * Each `<` of such a heading outside its attributes and name opens one of
   * its tags: `<DT>`, `<H3 ` or `</H3>`.
   */
  lemma HeadingTagAt(line: string, attrs: string, name: string, i: nat)
    requires HeadingShaped(line, attrs, name)
    requires i + 3 < |line| && line[i] == '<'
    requires i < 8 || 9 + |attrs| + |name| <= i
    ensures LowerChar(line[i + 1]) != 'a'
    ensures LowerChar(line[i + 1]) == 'h' ==> i == 4 && line[i + 3] == ' '
  {
    var a, n := |attrs|, |name|;
    if i < 8 {
      assert line[i] == ATTRIBUTED_HEAD[i];
      assert i == 0 || i == 4;
      assert line[i + 1] == ATTRIBUTED_HEAD[i + 1];
      assert line[i + 3] == ATTRIBUTED_HEAD[i + 3];
    } else {
      assert line[9 + a + n + (i - 9 - a - n)] == FOLDER_TAIL[i - 9 - a - n];
      assert i == 9 + a + n;
      assert line[9 + a + n + 1] == FOLDER_TAIL[1];
    }
  }

  /** The attributes and the name of a clean heading hold no `<`. */
  lemma HeadingInsideFree(line: string, attrs: string, name: string, i: nat)
    requires HeadingShaped(line, attrs, name) && Excludes(attrs, '<') && Excludes(name, '<')
    requires 8 <= i < 8 + |attrs| || 9 + |attrs| <= i < 9 + |attrs| + |name|
    ensures line[i] != '<'
  {
    if i < 8 + |attrs| {
      assert line[8 + (i - 8)] == attrs[i - 8];
    } else {
      assert line[9 + |attrs| + (i - 9 - |attrs|)] == name[i - 9 - |attrs|];
    }
  }

  /** Such a heading holds neither `<a ` nor `<h3>`. */
  lemma HeadingNeither(line: string, attrs: string, name: string)
    requires HeadingShaped(line, attrs, name) && Excludes(attrs, '<') && Excludes(name, '<')
    ensures !Contains(Lower(line), ANCHOR) && !Contains(Lower(line), HEADING)
  {
    var l := Lower(line);
    forall i | 0 <= i <= |l| ensures !OccursAt(l, ANCHOR, i) && !OccursAt(l, HEADING, i) {
      if i + 3 < |l| {
        assert l[i..i + 3][0] == l[i] && l[i..i + 3][1] == l[i + 1];
        assert l[i..i + 4][0] == l[i] && l[i..i + 4][1] == l[i + 1] && l[i..i + 4][3] == l[i + 3];
        LowerCharKeeps(line[i]);
        LowerCharKeeps(line[i + 3]);
        if 8 <= i < 8 + |attrs| || 9 + |attrs| <= i < 9 + |attrs| + |name| {
          HeadingInsideFree(line, attrs, name, i);
        } else if i == 8 + |attrs| {
          assert line[i] == '>';
        } else if line[i] == '<' {
          HeadingTagAt(line, attrs, name, i);
        }
      } else if i + 3 == |l| {
        assert l[i..i + 3][0] == l[i] && l[i..i + 3][1] == l[i + 1];
        assert l[i] == LowerChar(line[i]) && line[i] == FOLDER_TAIL[2];
      }
    }
  }

  /** As written, the loop takes such a heading for an item it cannot read. */
  lemma AttributedHeadingUnrecognised(attrs: string, name: string)
    requires Excludes(attrs, '<') && Excludes(name, '<')
    ensures Classify(AttributedFolderLine(attrs, name)) == Unrecognised
  {
    var line := AttributedFolderLine(attrs, name);
    HeadingLineAt(attrs, name);
    HeadingItem(line, attrs, name);
    StripTrimmed(line);
    HeadingNeither(line, attrs, name);
  }

  /**
   * As written, `parse_html_bookmark` on a file whose list holds such a
   * heading stops advancing at the heading: the source loops forever there.
   */
  lemma AttributedHeadingHangs(open: string, attrs: string, name: string, close: string)
    requires OpenShaped(open) && CloseShaped(close) && Excludes(attrs, '<') && Excludes(name, '<')
    ensures ParseHtml([open, AttributedFolderLine(attrs, name), close]) == Stuck(1)
  {
    var heading := AttributedFolderLine(attrs, name);
    var lines := [open] + [heading] + [close];
    assert lines == [open, heading, close];
    FramedOpens(lines);
    KindsFramed(open, [heading], close);
    KindsSingle(heading);
    OpenClassified(open);
    CloseClassified(close);
    AttributedHeadingUnrecognised(attrs, name);
    HangsAtUnrecognised(Kinds(lines));
  }

  /** The loop from line 1 stops at an item it cannot read on that line. */
  lemma HangsAtUnrecognised(kinds: seq<LineKind>)
    requires |kinds| > 1 && kinds[1] == Unrecognised
    ensures ParseFile(kinds, Some(0)) == Stuck(1)
  {
  }

  // ---------------------------------------------------------------------
  // The intended reading

  const HEADING_TAG := "<h3"

  /** An `<h3` tag, in any case, opens at `m`. */
  predicate TagOpensAt(s: string, m: nat)
  {
    m + 3 <= |s| && Lower(s[m..m + 3]) == HEADING_TAG
  }

  /**
   * Where the first `<h3` tag (in any case) at or after `i` is closed by
   * `>`; None when there is no such tag or it is never closed.
   */
  function TagEnd(s: string, i: nat): (r: Option<nat>)
    ensures r.Some? ==> i + 3 <= r.value < |s| && s[r.value] == '>'
    decreases |s| - i
  {
    if i + 3 > |s| then None
    else if TagOpensAt(s, i) then
      var j := NextIndex(s, '>', i + 3);
      if j < |s| then Some(j) else None
    else TagEnd(s, i + 1)
  }

  /** The folder name as intended: `<h3[^>]*>([^<]*)</h3>`, stripped, or "Unnamed Folder". */
  function HeadingName(line: string): string
  {
    var t := TagEnd(line, 0);
    if t.None? then UNNAMED_FOLDER
    else
      var m := Search(line, ">", '<', HEADING_CLOSE, t.value);
      if m.None? then UNNAMED_FOLDER else Strip(m.value)
  }

  /**
   * One pass of the loop as intended: a heading is any line holding `<h3`,
   * and an item it cannot read is passed over instead of read again.
   */
  function ClassifyFixed(raw: string): (k: LineKind)
    ensures k != Unrecognised
  {
    var line := Strip(raw);
    var lowered := Lower(line);
    if IsPrefix(END_LIST, lowered) then EndOfList
    else if IsPrefix(ITEM, lowered) then
      if Contains(lowered, ANCHOR) then BookmarkItem(BookmarkName(line), BookmarkUrl(line))
      else if Contains(lowered, HEADING_TAG) then FolderHeading(HeadingName(line))
      else Skipped
    else Skipped
  }

  /** Each line classified as the intended loop would classify it. */
  function KindsFixed(lines: seq<string>): (ks: seq<LineKind>)
    ensures |ks| == |lines|
    ensures forall i :: 0 <= i < |ks| ==> ks[i] != Unrecognised
  {
    if |lines| == 0 then [] else [ClassifyFixed(lines[0])] + KindsFixed(lines[1..])
  }

  /** `parse_html_bookmark` as intended. */
  function ParseHtmlFixed(lines: seq<string>): (r: Imported)
  {
    ParseFile(KindsFixed(lines), FirstWhere(lines, OpensList))
  }

  /** The loop over lines none of which it fails to read always reaches an end. */
  lemma {:induction false} ParseDlDone(kinds: seq<LineKind>, pointer: nat, tree: seq<Node>)
    requires forall i :: 0 <= i < |kinds| ==> kinds[i] != Unrecognised
    ensures ParseDl(kinds, pointer, tree).Done?
    decreases |kinds| - pointer
  {
    if pointer < |kinds| {
      match kinds[pointer]
      case EndOfList =>
      case BookmarkItem(name, url) =>
        ParseDlDone(kinds, pointer + 1, tree + [Bookmark(name, url)]);
      case FolderHeading(name) =>
        ParseDlDone(kinds, pointer + 1, []);
        var inner := ParseDl(kinds, pointer + 1, []);
        ParseDlDone(kinds, inner.next, tree + [Folder(name, inner.tree)]);
      case Skipped =>
        ParseDlDone(kinds, pointer + 1, tree);
    }
  }

  /** As intended, `parse_html_bookmark` never hangs: it finds no list, or reads one. */
  lemma FixedNeverStuck(lines: seq<string>)
    ensures !ParseHtmlFixed(lines).Stuck?
  {
    FileDone(KindsFixed(lines), FirstWhere(lines, OpensList));
  }

  lemma FileDone(kinds: seq<LineKind>, start: Option<nat>)
    requires forall i :: 0 <= i < |kinds| ==> kinds[i] != Unrecognised
    ensures !ParseFile(kinds, start).Stuck?
  {
    if start.Some? {
      ParseDlDone(kinds, start.value + 1, []);
    }
  }

  /** The first `<h3` tag of such a heading is the one after `<DT>`, closed just after the attributes. */
  lemma HeadingTagEnd(line: string, attrs: string, name: string)
    requires HeadingShaped(line, attrs, name) && Excludes(attrs, '>')
    ensures TagEnd(line, 0) == Some(8 + |attrs|)
  {
    assert line[1..4] == line[1..4];
    forall k | 0 <= k < 4 ensures !TagOpensAt(line, k) {
      assert Lower(line[k..k + 3])[0] == LowerChar(line[k]);
      assert line[k] == ATTRIBUTED_HEAD[k];
      if k == 0 {
        assert Lower(line[k..k + 3])[1] == LowerChar(line[1]) == 'd';
      }
    }
    LowerInside(line, 4, HEADING_TAG);
    assert line[4..7] == line[4..4 + |HEADING_TAG|];
    assert Lower(line[4..7]) == HEADING_TAG by {
      LowerSlice(line, 4, HEADING_TAG);
    }
    forall m | 7 <= m < 8 + |attrs| ensures line[m] != '>' {
      if m == 7 {
        assert line[7] == ATTRIBUTED_HEAD[7];
      } else {
        assert line[8 + (m - 8)] == attrs[m - 8];
      }
    }
    TagEndFrom(line, 0, 4, NextIndex(line, '>', 7));
  }

  /** `TagEnd` passes over the places that hold no `<h3` up to the one at `k`. */
  lemma {:induction false} TagEndFrom(s: string, i: nat, k: nat, j: nat)
    requires i <= k && TagOpensAt(s, k)
    requires forall m :: i <= m < k ==> !TagOpensAt(s, m)
    requires j == NextIndex(s, '>', k + 3) && j < |s|
    ensures TagEnd(s, i) == Some(j)
    decreases k - i
  {
    if i < k {
      TagEndFrom(s, i + 1, k, j);
    }
  }

  /** The name pattern from the `>` that closes the tag finds the name. */
  lemma HeadingNameSearch(line: string, attrs: string, name: string)
    requires HeadingShaped(line, attrs, name) && Excludes(name, '<')
    ensures Search(line, ">", '<', HEADING_CLOSE, 8 + |attrs|) == Some(name)
  {
    var a, n := |attrs|, |name|;
    var e := 9 + a + n;
    forall m | 9 + a <= m < e ensures line[m] != '<' {
      assert line[9 + a + (m - 9 - a)] == name[m - 9 - a];
    }
    forall q | 0 <= q < 5 ensures LowerChar(line[e + q]) == HEADING_CLOSE[q] {
      assert line[e + q] == FOLDER_TAIL[q];
    }
    LowerSlice(line, e, HEADING_CLOSE);
    LowerSlice(line, 8 + a, ">");
    assert line[9 + a..e] == name;
    SearchFinds(line, ">", '<', HEADING_CLOSE, 8 + a, 8 + a, e);
  }

  /** As intended, the name of such a heading is read. */
  lemma HeadingNameFound(line: string, attrs: string, name: string)
    requires HeadingShaped(line, attrs, name) && Excludes(attrs, '>') && Excludes(name, '<') && Trimmed(name)
    ensures HeadingName(line) == name
  {
    HeadingTagEnd(line, attrs, name);
    HeadingNameSearch(line, attrs, name);
    StripTrimmed(name);
  }

  /** As intended, such a heading is read as the heading of a folder of its name. */
  lemma AttributedHeadingFixed(attrs: string, name: string)
    requires Excludes(attrs, '<') && Excludes(attrs, '>') && Excludes(name, '<') && Trimmed(name)
    ensures ClassifyFixed(AttributedFolderLine(attrs, name)) == FolderHeading(name)
  {
    var line := AttributedFolderLine(attrs, name);
    HeadingLineAt(attrs, name);
    HeadingItem(line, attrs, name);
    StripTrimmed(line);
    HeadingNeither(line, attrs, name);
    LowerInside(line, 4, HEADING_TAG);
    assert OccursAt(Lower(line), HEADING_TAG, 4);
    HeadingNameFound(line, attrs, name);
  }

  /** Wherever the loop as written does not stop on a heading, the intended loop classifies the line the same way. */
  lemma FixedAgrees(raw: string)
    requires !Classify(raw).FolderHeading? && !Classify(raw).Unrecognised?
    ensures ClassifyFixed(raw) == Classify(raw)
  {
    var lowered := Lower(Strip(raw));
    if !IsPrefix(END_LIST, lowered) && IsPrefix(ITEM, lowered) && !Contains(lowered, ANCHOR) {
      assert false;
    }
  }
}
