/**
 * The parsed bookmark tree of bookmarks/bookmark_types.py: a list of
 * bookmarks and folders, a folder holding a list of its own.
 */
module BookmarkTypes {
  /** `Bookmark(name, url)` or `BookmarkFolder(name, items)`. */
  datatype Node = Bookmark(name: string, url: string) | Folder(name: string, items: seq<Node>)

  /** The number of nodes of a tree, each folder counted with everything in it. */
  function TreeSize(tree: seq<Node>): nat
    decreases tree, 1
  {
    if |tree| == 0 then 0 else NodeSize(tree[0]) + TreeSize(tree[1..])
  }

  /** One for the node, plus the size of a folder's items. */
  function NodeSize(node: Node): (n: nat)
    ensures n >= 1
    decreases node, 0
  {
    match node
    case Bookmark(_, _) => 1
    case Folder(_, items) => 1 + TreeSize(items)
  }

  /** The number of bookmarks of a tree, at every depth. */
  function BookmarkCount(tree: seq<Node>): nat
    decreases tree, 1
  {
    if |tree| == 0 then 0 else NodeBookmarks(tree[0]) + BookmarkCount(tree[1..])
  }

  function NodeBookmarks(node: Node): nat
    decreases node, 0
  {
    match node
    case Bookmark(_, _) => 1
    case Folder(_, items) => BookmarkCount(items)
  }

  /** The size of a concatenation is the sum of the sizes. */
  lemma {:induction false} TreeSizeAppend(a: seq<Node>, b: seq<Node>)
    ensures TreeSize(a + b) == TreeSize(a) + TreeSize(b)
    ensures BookmarkCount(a + b) == BookmarkCount(a) + BookmarkCount(b)
    decreases |a|
  {
    if |a| > 0 {
      assert (a + b)[0] == a[0] && (a + b)[1..] == a[1..] + b;
      TreeSizeAppend(a[1..], b);
    } else {
      assert a + b == b;
    }
  }

  /** The size of the first `n` nodes, one more node at a time. */
  lemma TreeSizeSnoc(tree: seq<Node>, n: nat)
    requires n < |tree|
    ensures TreeSize(tree[..n + 1]) == TreeSize(tree[..n]) + NodeSize(tree[n])
    ensures BookmarkCount(tree[..n + 1]) == BookmarkCount(tree[..n]) + NodeBookmarks(tree[n])
  {
    assert tree[..n + 1] == tree[..n] + [tree[n]];
    TreeSizeAppend(tree[..n], [tree[n]]);
    assert [tree[n]][1..] == [];
  }
}
