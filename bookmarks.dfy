/** `ChromeCommands` of js/chrome.js: the browser's bookmark tree flattened
    into a list of entries, and `ls`, which lists the entries of the
    current folder on the terminal. */
module Bookmarks {
  import opened Wrappers
  import opened JsString
  import Screen
  import Session
  import Terminal

  /** A node of the tree `chrome.bookmarks.getTree` answers. `title` is
      `None` when it is not a string; `url` is "" when it is missing or
      empty; `children` is empty when it is not an array, which
      `#processBookmarks` treats as it treats an empty one. */
  datatype Node = Node(
    title: Option<string>, id: string, parentId: Option<string>, index: Option<int>,
    dateAdded: Option<int>, dateGroupModified: Option<int>, url: string,
    children: seq<Node>)

  datatype Kind = Dir | Bookmark

  /** One element of `this.bookmarks`. */
  datatype Entry = Entry(
    title: string, id: string, parentId: Option<string>, index: Option<int>,
    dateAdded: Option<int>, dateGroupModified: Option<int>, kind: Kind, url: Option<string>)

  /** The object `#processBookmarks` builds for a node with a title: a
      bookmark when the node has a URL, a folder otherwise. */
  function ToEntry(n: Node): (e: Entry)
    requires n.title.Some?
    ensures e.kind == Bookmark <==> n.url != ""
    ensures e.url.Some? <==> n.url != ""
    ensures e.url.Some? ==> e.url.value == n.url
    ensures e.title == n.title.value && e.id == n.id && e.parentId == n.parentId && e.index == n.index
    ensures e.dateAdded == n.dateAdded && e.dateGroupModified == n.dateGroupModified
  {
    Entry(n.title.value, n.id, n.parentId, n.index, n.dateAdded, n.dateGroupModified,
      if n.url != "" then Bookmark else Dir, if n.url != "" then Some(n.url) else None)
  }

  /** The node's own entry, when its title is a string. */
  function Own(n: Node): seq<Entry>
  {
    if n.title.Some? then [ToEntry(n)] else []
  }

  /** `#processBookmarks(items)`: node after node, the node's descendants
      and then its own entry. */
  function Flatten(items: seq<Node>): seq<Entry>
  {
    if items == [] then [] else Flatten(items[0].children) + Own(items[0]) + Flatten(items[1..])
  }

  /** Flattening a list in two parts flattens each part in turn. */
  lemma {:induction false} FlattenAppend(a: seq<Node>, b: seq<Node>)
    ensures Flatten(a + b) == Flatten(a) + Flatten(b)
    decreases |a|
  {
    if a == [] {
      assert a + b == b;
    } else {
      assert (a + b)[0] == a[0] && (a + b)[1..] == a[1..] + b;
      var head, x, y := Flatten(a[0].children) + Own(a[0]), Flatten(a[1..]), Flatten(b);
      FlattenAppend(a[1..], b);
      assert Flatten(a + b) == head + (x + y);
      assert head + (x + y) == (head + x) + y;
    }
  }

  /** Depth first: a node's descendants come right before its own entry,
      after everything from the nodes before it and before everything from
      the nodes after it. A node whose title is not a string contributes
      its descendants only. */
  lemma DescendantsFirst(items: seq<Node>, k: nat)
    requires k < |items|
    ensures Flatten(items) == Flatten(items[..k]) + Flatten(items[k].children) + Own(items[k]) + Flatten(items[k + 1..])
  {
    Around(items, k);
    FlattenAround(items[..k], items[k], items[k + 1..]);
  }

  /** A list is the items before `k`, item `k` and the items after it. */
  lemma Around(items: seq<Node>, k: nat)
    requires k < |items|
    ensures items == items[..k] + [items[k]] + items[k + 1..]
  {
  }

  /** One more item of the loop of `#processBookmarks`. */
  lemma FlattenStep(items: seq<Node>, k: nat)
    requires k < |items|
    ensures Flatten(items[..k + 1]) == Flatten(items[..k]) + Flatten(items[k].children) + Own(items[k])
  {
    Prefix(items, k);
    FlattenAppend(items[..k], [items[k]]);
    FlattenSingle(items[k]);
  }

  lemma Prefix(items: seq<Node>, k: nat)
    requires k < |items|
    ensures items[..k + 1] == items[..k] + [items[k]]
  {
  }

  lemma FlattenAround(pre: seq<Node>, n: Node, post: seq<Node>)
    ensures Flatten(pre + [n] + post) == Flatten(pre) + Flatten(n.children) + Own(n) + Flatten(post)
  {
    FlattenAppend(pre + [n], post);
    FlattenAppend(pre, [n]);
    FlattenSingle(n);
  }

  lemma FlattenSingle(n: Node)
    ensures Flatten([n]) == Flatten(n.children) + Own(n)
  {
    assert [n][1..] == [];
  }

  /** Every entry comes from a node with a string title somewhere in the
      tree, and every such node has its entry. */
  predicate InTree(n: Node, items: seq<Node>)
    decreases items
  {
    exists k :: 0 <= k < |items| && (items[k] == n || InTree(n, items[k].children))
  }

  lemma {:induction false} FlattenHasTitled(items: seq<Node>, n: Node)
    requires InTree(n, items) && n.title.Some?
    ensures ToEntry(n) in Flatten(items)
    decreases items
  {
    var k :| 0 <= k < |items| && (items[k] == n || InTree(n, items[k].children));
    DescendantsFirst(items, k);
    if items[k] != n {
      FlattenHasTitled(items[k].children, n);
    }
  }

  lemma {:induction false} FlattenFromTitled(items: seq<Node>, e: Entry)
    requires e in Flatten(items)
    ensures exists n :: InTree(n, items) && n.title.Some? && e == ToEntry(n)
    decreases items
  {
    var n, rest := items[0], items[1..];
    if e in Flatten(n.children) {
      FlattenFromTitled(n.children, e);
      var m :| InTree(m, n.children) && m.title.Some? && e == ToEntry(m);
      assert InTree(m, items) by {
        assert items[0] == n;
      }
    } else if e in Own(n) {
      assert InTree(n, items) by {
        assert items[0] == n;
      }
    } else {
      FlattenFromTitled(rest, e);
      var m :| InTree(m, rest) && m.title.Some? && e == ToEntry(m);
      var j :| 0 <= j < |rest| && (rest[j] == m || InTree(m, rest[j].children));
      assert InTree(m, items) by {
        assert items[j + 1] == rest[j];
      }
    }
  }

  /** The entries of the folder whose id is `id`, in order. */
  function ChildrenOf(entries: seq<Entry>, id: string): (r: seq<Entry>)
    ensures forall e :: e in r <==> e in entries && e.parentId == Some(id)
    ensures |r| <= |entries|
  {
    if entries == [] then []
    else (if entries[0].parentId == Some(id) then [entries[0]] else []) + ChildrenOf(entries[1..], id)
  }

  /** The filter keeps the order of the entries: filtering two runs one
      after the other gives the first run's children, then the second's. */
  lemma {:induction false} ChildrenOfAppend(a: seq<Entry>, b: seq<Entry>, id: string)
    ensures ChildrenOf(a + b, id) == ChildrenOf(a, id) + ChildrenOf(b, id)
  {
    if a != [] {
      assert (a + b)[1..] == a[1..] + b;
      ChildrenOfAppend(a[1..], b, id);
    } else {
      assert a + b == b;
    }
  }

  /** Each title followed by a line break. */
  function Lines(dirs: seq<Entry>): string
  {
    if dirs == [] then "" else dirs[0].title + "\n" + Lines(dirs[1..])
  }

  function Titles(dirs: seq<Entry>): (r: seq<string>)
    ensures |r| == |dirs| && forall i :: 0 <= i < |dirs| ==> r[i] == dirs[i].title
  {
    if dirs == [] then [] else [dirs[0].title] + Titles(dirs[1..])
  }

  /** The lines are the titles, with a line break after the last. */
  lemma {:induction false} LinesJoin(dirs: seq<Entry>)
    ensures Lines(dirs) == Join(Titles(dirs) + [""], "\n")
    decreases |dirs|
  {
    if dirs != [] {
      LinesJoin(dirs[1..]);
      var parts := Titles(dirs) + [""];
      assert parts[0] == dirs[0].title && parts[1..] == Titles(dirs[1..]) + [""];
    }
  }

  /** What `ls` prints for the folder `id`: split on line breaks, its
      output gives back the titles of the folder's entries in order, then
      the empty text after the last break. */
  lemma LsLines(entries: seq<Entry>, id: string)
    requires forall e :: e in entries ==> '\n' !in e.title
    ensures Split(Lines(ChildrenOf(entries, id)), '\n') == Titles(ChildrenOf(entries, id)) + [""]
  {
    var dirs := ChildrenOf(entries, id);
    var parts := Titles(dirs) + [""];
    LinesJoin(dirs);
    forall i | 0 <= i < |parts|
      ensures '\n' !in parts[i]
    {
      if i < |dirs| {
        assert dirs[i] in dirs;
      }
    }
    SplitJoin(parts, '\n');
  }

  /** The folder `ls` lists: `path.id`, and the text of the path. */
  datatype Path = Path(text: string, id: string)

  class ChromeCommands {
    const terminal: Terminal.ChromeTerminal
    const bookmarks: seq<Entry>
    const path: Path

    ghost predicate Valid()
      reads this, terminal, terminal.data
    {
      terminal.Valid()
    }

    /** The constructor: the tree is flattened once; the folder defaults
        to the root, whose id is "0". */
    constructor Init(terminal: Terminal.ChromeTerminal, tree: seq<Node>, path: Option<Path>)
      ensures this.terminal == terminal && bookmarks == Flatten(tree)
      ensures this.path == if path.Some? then path.value else Path("/", "0")
    {
      var flat := ChromeCommands.ProcessBookmarks(tree);
      this.terminal := terminal;
      bookmarks := flat;
      this.path := if path.Some? then path.value else Path("/", "0");
    }

    /** `#processBookmarks`: the loop over the items, recursing into the
        children of each before adding its own entry. */
    static method ProcessBookmarks(items: seq<Node>) returns (entries: seq<Entry>)
      ensures entries == Flatten(items)
      decreases items
    {
      entries := [];
      var k := 0;
      while k < |items|
        invariant 0 <= k <= |items|
        invariant entries == Flatten(items[..k])
      {
        var item := items[k];
        var below := ProcessBookmarks(item.children);
        entries := entries + below;
        if item.title.Some? {
          entries := entries + [ToEntry(item)];
        }
        FlattenStep(items, k);
        k := k + 1;
      }
      assert items[..k] == items;
    }

    /** The loop of `ls`: each title and a line break. */
    static method Listing(dirs: seq<Entry>) returns (out: string)
      ensures out == Lines(dirs)
    {
      out := "";
      for i := 0 to |dirs|
        invariant out + Lines(dirs[i..]) == Lines(dirs)
      {
        assert dirs[i..][1..] == dirs[i + 1..];
        out := out + dirs[i].title + "\n";
      }
      assert dirs[|dirs|..] == [];
    }

    /** `ls`: the titles of the current folder's entries, one per line;
        the status becomes 0 and the text is printed. */
    method Ls() returns (out: string)
      requires Valid()
      modifies terminal, terminal.data
      ensures Valid()
      ensures out == Lines(ChildrenOf(bookmarks, path.id))
      ensures terminal.session == Session.Printed(old(terminal.session).(status := 0), out)
      ensures !old(terminal.session).suppress ==>
        terminal.View() == Screen.Paint(old(terminal.View()), out, terminal.columns, terminal.rows)
      ensures old(terminal.session).suppress ==> terminal.View() == old(terminal.View())
    {
      var dirs := ChildrenOf(bookmarks, path.id);
      terminal.session := terminal.session.(status := 0);
      out := Listing(dirs);
      terminal.Print(out);
    }
  }
}
