/** The listing of a directory tree, cut at a depth and at a number of entries. */
module ListTree {
  import opened Common

  const MAX_ENTRIES: nat := 4096

  /** A decoded tree: a directory, the names of its files, and its subdirectories. */
  datatype Tree = Tree(directory: Bytes, files: seq<Bytes>, children: seq<Tree>)

  datatype Entry = Directory(name: Bytes) | File(directory: Bytes, name: Bytes)

  // ---- What a listing should hold ----

  function FilesOf(directory: Bytes, files: seq<Bytes>): seq<Entry> {
    if files == [] then []
    else
      var rest, name := FilesOf(directory, files[..|files| - 1]), files[|files| - 1];
      if name == [] then rest else rest + [File(directory, name)]
  }

  /** A directory before its files, and those before its subdirectories; files at the last depth are not listed. */
  function Listing(t: Tree, named: bool, depth: int, maximum: int): seq<Entry>
    decreases t, 1, 0
  {
    if depth > maximum then []
    else
      (if named && t.directory != [] then [Directory(t.directory)] else [])
      + (if depth < maximum then FilesOf(t.directory, t.files) else [])
      + ListingOf(t.children, depth + 1, maximum)
  }

  function ListingOf(children: seq<Tree>, depth: int, maximum: int): seq<Entry>
    decreases children, 0, 0
  {
    if children == [] then []
    else ListingOf(children[..|children| - 1], depth, maximum) + Listing(children[|children| - 1], true, depth, maximum)
  }

  /** No directory is deeper than the maximum. */
  predicate Within(t: Tree, depth: int, maximum: int)
    decreases t
  {
    depth <= maximum && forall i :: 0 <= i < |t.children| ==> Within(t.children[i], depth + 1, maximum)
  }

  function Cut(entries: seq<Entry>): seq<Entry> { if |entries| <= MAX_ENTRIES then entries else entries[..MAX_ENTRIES] }

  lemma CutAppend(a: seq<Entry>, b: seq<Entry>)
    ensures Cut(Cut(a) + b) == Cut(a + b)
    ensures |Cut(a)| >= MAX_ENTRIES ==> Cut(a + b) == Cut(a)
  {
  }

  /** How many entries a directory has itself, with its first n files. */
  function OwnCount(t: Tree, named: bool, n: nat): nat
    requires n <= |t.files|
  {
    (if named && t.directory != [] then 1 else 0) + |FilesOf(t.directory, t.files[..n])|
  }

  /**
   When the truncation flag is set: there is no room to begin with, a directory is too deep, there is no room when the
   last file is looked at, or the room is used up in a directory that has subdirectories.
   */
  predicate Flagged(t: Tree, named: bool, depth: int, maximum: int, before: nat) {
    || before >= MAX_ENTRIES
    || !Within(t, depth, maximum)
    || (depth < maximum && t.files != [] && before + OwnCount(t, named, |t.files| - 1) >= MAX_ENTRIES)
    || (t.children != [] && before + |Listing(t, named, depth, maximum)| >= MAX_ENTRIES)
  }

  // ---- The traversal ----

  /**
   flattenListTree: it adds what still fits of the listing, in order. Without the flag nothing is missing of the
   listing, and no directory was too deep; FlagWithoutLoss says when the flag is set and nothing is missing either.
   */
  method FlattenListTree(t: Tree, named: bool, depth: int, maximum: int, before: seq<Entry>)
    returns (entries: seq<Entry>, truncated: bool)
    requires |before| <= MAX_ENTRIES
    ensures entries == Cut(before + Listing(t, named, depth, maximum))
    ensures truncated <==> Flagged(t, named, depth, maximum, |before|)
    ensures !truncated ==> entries == before + Listing(t, named, depth, maximum) && Within(t, depth, maximum)
    ensures truncated ==> |entries| == MAX_ENTRIES || !Within(t, depth, maximum)
    decreases t, 0
  {
    hide Cut, FilesOf, ListingOf;
    entries := before;
    CutSmall(before);
    CutAppend(before, Listing(t, named, depth, maximum));
    assert before + [] == before;
    if |entries| >= MAX_ENTRIES || depth > maximum {
      return entries, true;
    }
    if named && t.directory != [] {
      entries := entries + [Directory(t.directory)];
    }
    ghost var own := entries + if depth < maximum then FilesOf(t.directory, t.files) else [];
    ghost var rest := ListingOf(t.children, depth + 1, maximum);
    assert before + Listing(t, named, depth, maximum) == own + rest;
    CutSmall(entries);
    if depth < maximum {
      var full;
      entries, full := AddFiles(t.directory, t.files, entries);
      CutAppend(own, rest);
      if full {
        return entries, true;
      }
    }
    assert entries == own;
    entries, truncated := FlattenChildren(t.children, depth + 1, maximum, entries);
    if !truncated {
      CutSmall(own + rest);
      NoChildrenListed(t.children, depth + 1, maximum);
    }
  }

  lemma NoChildrenListed(children: seq<Tree>, depth: int, maximum: int)
    ensures children == [] ==> ListingOf(children, depth, maximum) == []
  {
  }

  /** The loop over the subdirectories. */
  method FlattenChildren(children: seq<Tree>, depth: int, maximum: int, before: seq<Entry>)
    returns (entries: seq<Entry>, truncated: bool)
    requires |before| <= MAX_ENTRIES
    ensures entries == Cut(before + ListingOf(children, depth, maximum))
    ensures truncated <==>
              || (children != [] && |before + ListingOf(children, depth, maximum)| >= MAX_ENTRIES)
              || exists i :: 0 <= i < |children| && !Within(children[i], depth, maximum)
    ensures truncated ==>
              |entries| == MAX_ENTRIES || exists i :: 0 <= i < |children| && !Within(children[i], depth, maximum)
    decreases children, 1
  {
    hide Cut, Listing, Within, Flagged;
    entries, truncated := before, false;
    CutSmall(before);
    assert before + [] == before;
    for i := 0 to |children|
      invariant |entries| <= MAX_ENTRIES && entries == Cut(before + ListingOf(children[..i], depth, maximum))
      invariant i > 0 ==> |before + ListingOf(children[..i], depth, maximum)| < MAX_ENTRIES
      invariant truncated <==> exists k :: 0 <= k < i && !Within(children[k], depth, maximum)
    {
      ghost var told, next := ListingOf(children[..i], depth, maximum), Listing(children[i], true, depth, maximum);
      assert children[..i + 1][..i] == children[..i];
      CutSmall(before + told);
      assert entries == before + told;
      assert before + told + next == before + (told + next);
      var childTruncated;
      entries, childTruncated := FlattenListTree(children[i], true, depth, maximum, entries);
      FlaggedByDepth(children[i], depth, maximum, |before + told|);
      truncated := truncated || childTruncated;
      CutSize(before + (told + next));
      if |entries| >= MAX_ENTRIES {
        ghost var remainder := ListingPrefix(children, i + 1, depth, maximum);
        CutAppend(before + (told + next), remainder);
        assert before + (told + next) + remainder == before + (told + next + remainder);
        return entries, true;
      }
    }
    assert children[..|children|] == children;
  }

  /** As long as there is room for all of it, a directory is flagged only for its depth. */
  lemma FlaggedByDepth(t: Tree, depth: int, maximum: int, before: nat)
    ensures before + |Listing(t, true, depth, maximum)| < MAX_ENTRIES ==>
              (Flagged(t, true, depth, maximum, before) <==> !Within(t, depth, maximum))
  {
    hide FilesOf, ListingOf;
    if depth < maximum && t.files != [] {
      FilesPrefix(t.directory, t.files, |t.files| - 1);
    }
  }

  lemma CutSize(a: seq<Entry>)
    ensures |Cut(a)| >= MAX_ENTRIES <==> |a| >= MAX_ENTRIES
    ensures |Cut(a)| <= MAX_ENTRIES
  {
  }

  lemma CutSmall(a: seq<Entry>)
    ensures |Cut(a)| <= MAX_ENTRIES && (|a| <= MAX_ENTRIES ==> Cut(a) == a)
  {
  }

  lemma {:induction false} ListingPrefix(children: seq<Tree>, n: nat, depth: int, maximum: int)
    returns (remainder: seq<Entry>)
    requires n <= |children|
    ensures ListingOf(children, depth, maximum) == ListingOf(children[..n], depth, maximum) + remainder
    decreases |children|
  {
    if n == |children| {
      assert children[..n] == children;
      remainder := [];
    } else {
      assert children[..|children| - 1][..n] == children[..n];
      var less := ListingPrefix(children[..|children| - 1], n, depth, maximum);
      remainder := less + Listing(children[|children| - 1], true, depth, maximum);
    }
  }

  /** The files of one directory; full says that the loop stopped because there was no room when it looked at one. */
  method AddFiles(directory: Bytes, files: seq<Bytes>, before: seq<Entry>) returns (entries: seq<Entry>, full: bool)
    requires |before| <= MAX_ENTRIES
    ensures entries == Cut(before + FilesOf(directory, files)) && |entries| <= MAX_ENTRIES
    ensures full <==> files != [] && |before + FilesOf(directory, files[..|files| - 1])| >= MAX_ENTRIES
    ensures full ==> |entries| == MAX_ENTRIES
    ensures !full ==> entries == before + FilesOf(directory, files)
  {
    entries, full := before, false;
    for i := 0 to |files|
      invariant |entries| <= MAX_ENTRIES && entries == before + FilesOf(directory, files[..i])
      invariant i > 0 ==> |before + FilesOf(directory, files[..i - 1])| < MAX_ENTRIES
    {
      if |entries| >= MAX_ENTRIES {
        full := true;
        FilesPrefix(directory, files, i);
        FilesPrefix(directory, files[..|files| - 1], i);
        assert files[..|files| - 1][..i] == files[..i];
        return;
      }
      assert files[..i + 1][..i] == files[..i];
      if files[i] != [] {
        entries := entries + [File(directory, files[i])];
      }
    }
    assert files[..|files|] == files;
  }

  lemma {:induction false} FilesPrefix(directory: Bytes, files: seq<Bytes>, n: nat)
    requires n <= |files|
    ensures FilesOf(directory, files[..n]) <= FilesOf(directory, files)
    decreases |files|
  {
    if n == |files| {
      assert files[..n] == files;
    } else {
      assert files[..|files| - 1][..n] == files[..n];
      FilesPrefix(directory, files[..|files| - 1], n);
    }
  }

  /**
   When a whole listing is flagged although all of it is there: it has exactly as many entries as there may be, and the
   root has a subdirectory, or its last file has no name.
   */
  lemma FlagWithoutLoss(t: Tree, named: bool, depth: int, maximum: int)
    requires Within(t, depth, maximum) && |Listing(t, named, depth, maximum)| <= MAX_ENTRIES
    ensures Flagged(t, named, depth, maximum, 0) <==>
              && |Listing(t, named, depth, maximum)| == MAX_ENTRIES
              && (t.children != [] || (depth < maximum && t.files != [] && t.files[|t.files| - 1] == []))
  {
    hide ListingOf, Within;
    NoChildrenListed(t.children, depth + 1, maximum);
  }

  function SomeFiles(n: nat): seq<Bytes> { seq(n, _ => [97]) }

  lemma {:induction false} NamedFiles(directory: Bytes, n: nat)
    ensures |FilesOf(directory, SomeFiles(n))| == n
  {
    if n > 0 {
      NamedFiles(directory, n - 1);
      assert SomeFiles(n)[..n - 1] == SomeFiles(n - 1);
    }
  }

  /** So a listing of exactly 4096 entries can be flagged. */
  lemma FullListingFlagged() returns (t: Tree)
    ensures Within(t, 0, 1) && Flagged(t, false, 0, 1, 0)
    ensures Cut(Listing(t, false, 0, 1)) == Listing(t, false, 0, 1) == Everything(t, false)
  {
    var child := Tree([98], [], []);
    t := Tree([], SomeFiles(MAX_ENTRIES - 1), [child]);
    NamedFiles([], MAX_ENTRIES - 1);
    OneChild(child, 1, 1);
    hide FilesOf, ListingOf;
    FlagWithoutLoss(t, false, 0, 1);
  }

  lemma OneChild(child: Tree, depth: int, maximum: int)
    ensures ListingOf([child], depth, maximum) == Listing(child, true, depth, maximum)
    ensures EverythingOf([child]) == Everything(child, true)
  {
    var none: seq<Tree> := [];
    assert [child][..0] == none && ListingOf(none, depth, maximum) == [] && EverythingOf(none) == [];
  }

  // ---- What the depth limit hides ----

  /** The listing without limits. */
  function Everything(t: Tree, named: bool): seq<Entry>
    decreases t, 1, 0
  {
    (if named && t.directory != [] then [Directory(t.directory)] else [])
    + FilesOf(t.directory, t.files) + EverythingOf(t.children)
  }

  function EverythingOf(children: seq<Tree>): seq<Entry>
    decreases children, 0, 0
  {
    if children == [] then [] else EverythingOf(children[..|children| - 1]) + Everything(children[|children| - 1], true)
  }

  /** No directory at the last depth has a file with a name. */
  predicate LastEmpty(t: Tree, depth: int, maximum: int)
    decreases t
  {
    && (depth == maximum ==> FilesOf(t.directory, t.files) == [])
    && forall i :: 0 <= i < |t.children| ==> LastEmpty(t.children[i], depth + 1, maximum)
  }

  /**
   So a listing without the flag need not be complete: if no directory is too deep, it is complete exactly when no file
   is in a directory at the last depth. Such files are left out without the flag.
   */
  lemma {:induction false} ListingComplete(t: Tree, named: bool, depth: int, maximum: int)
    requires Within(t, depth, maximum)
    ensures |Listing(t, named, depth, maximum)| <= |Everything(t, named)|
    ensures Listing(t, named, depth, maximum) == Everything(t, named) <==> LastEmpty(t, depth, maximum)
    ensures |Listing(t, named, depth, maximum)| == |Everything(t, named)| <==> LastEmpty(t, depth, maximum)
    decreases t, 1
  {
    hide FilesOf, ListingOf, EverythingOf;
    ChildrenComplete(t.children, depth + 1, maximum);
  }

  lemma {:induction false} ChildrenComplete(children: seq<Tree>, depth: int, maximum: int)
    requires forall i :: 0 <= i < |children| ==> Within(children[i], depth, maximum)
    ensures |ListingOf(children, depth, maximum)| <= |EverythingOf(children)|
    ensures (|ListingOf(children, depth, maximum)| == |EverythingOf(children)|) <==>
            forall i :: 0 <= i < |children| ==> LastEmpty(children[i], depth, maximum)
    ensures (forall i :: 0 <= i < |children| ==> LastEmpty(children[i], depth, maximum)) ==>
            ListingOf(children, depth, maximum) == EverythingOf(children)
    decreases children, 0
  {
    hide Listing, Everything, LastEmpty, Within;
    if children != [] {
      var front, last := children[..|children| - 1], children[|children| - 1];
      ChildrenComplete(front, depth, maximum);
      ListingComplete(last, true, depth, maximum);
      assert forall i :: 0 <= i < |front| ==> front[i] == children[i];
    }
  }

  /** For one, a root at the last depth with a file: nothing is listed, and there is no flag. */
  lemma LastFileLost(name: Bytes)
    requires name != []
    ensures var t := Tree([], [name], []);
            && !Flagged(t, false, 0, 0, 0) && Listing(t, false, 0, 0) == []
            && Everything(t, false) == [File([], name)]
  {
    var none: seq<Bytes> := [];
    assert [name][..0] == none && FilesOf([], none) == [];
  }
}
