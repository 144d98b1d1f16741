/** The filesystem as the finder sees it: a tree of directory entries under each search root, Go's
    `filepath.WalkDir` and `os.ReadDir` over that tree, and the per-path size and `Lstat` answers the
    peek report asks for. */
module FileSystem {
  import opened Wrappers

  /** One directory entry. A directory's `children` are its `os.ReadDir` listing, which Go returns sorted by name. */
  datatype Node =
    | File(name: string)
    | Symlink(name: string)
    | Dir(name: string, children: seq<Node>)
    | UnreadableDir(name: string)   // a directory whose listing fails
    | Special(name: string)         // a device, socket or pipe: neither regular, symlink nor directory

  predicate IsDir(n: Node)
  {
    n.Dir? || n.UnreadableDir?
  }

  /** `filepath.Join(dir, name)` for a clean directory path and a plain entry name. */
  function JoinPath(dir: string, name: string): string
  {
    dir + "/" + name
  }

  /** `os.ReadDir` on the entry found at a path (None when nothing is there): the listing, or None for the error. */
  function ReadDir(entry: Option<Node>): (listing: Option<seq<Node>>)
    ensures listing.Some? <==> entry.Some? && entry.value.Dir?
  {
    if entry.Some? && entry.value.Dir? then Some(entry.value.children) else None
  }

  /** What the machine answers about paths: the tree under each search root, `os.Lstat`'s symlink bit
      (None when `Lstat` fails), and the two size measures. */
  datatype Disk = Disk(
    roots: map<string, Node>,
    lstat: string -> Option<bool>,
    diskUsage: string -> int,
    logicalSize: string -> int)

  function Lookup(disk: Disk, path: string): Option<Node>
  {
    if path in disk.roots then Some(disk.roots[path]) else None
  }

  /** The error a `WalkDirFunc` returns: nil, or `fs.SkipDir`. */
  datatype Action = Continue | SkipDir

  /** One match sent on the matches channel: the entry's name, its path and whether it is a symlink. */
  datatype Emission = Emission(name: string, path: string, symlink: bool)

  /** What one call of the walk callback did: the matches it sent and the error it returned. */
  datatype Visit = Visit(emitted: seq<Emission>, action: Action)

  /** The walk callback, given the entry and its path. */
  type Visitor = (Node, string) -> Visit

  /** Matches sent while walking one entry, and whether `SkipDir` came back from a non-directory, which makes
      `WalkDir` abandon the rest of the parent's listing. */
  datatype Walked = Walked(emitted: seq<Emission>, skipRest: bool)

  /** `walkDir` on one entry: the callback first; a directory it did not skip is then listed and walked in order.
      A listing error is reported to the callback, which returns nil, so the walk goes on after it. */
  function WalkEntry(n: Node, path: string, visit: Visitor): Walked
    decreases n
  {
    var v := visit(n, path);
    if !IsDir(n) then Walked(v.emitted, v.action == SkipDir)
    else if v.action == SkipDir || n.UnreadableDir? then Walked(v.emitted, false)
    else Walked(v.emitted + WalkEntries(n.children, path, visit), false)
  }

  /** The loop over a directory's listing, which stops at the first `SkipDir` from a non-directory. */
  function WalkEntries(entries: seq<Node>, dir: string, visit: Visitor): seq<Emission>
    decreases entries
  {
    if |entries| == 0 then []
    else
      var w := WalkEntry(entries[0], JoinPath(dir, entries[0].name), visit);
      if w.skipRest then w.emitted else w.emitted + WalkEntries(entries[1..], dir, visit)
  }

  /** `filepath.WalkDir(rootPath, fn)`: a missing root is reported to the callback, which returns nil. */
  function WalkDir(rootPath: string, root: Option<Node>, visit: Visitor): seq<Emission>
  {
    if root.None? then [] else WalkEntry(root.value, rootPath, visit).emitted
  }

  /** The callback never answers `SkipDir` for an entry that is not a directory. */
  ghost predicate SkipsOnlyDirs(visit: Visitor)
  {
    forall n: Node, p: string :: !IsDir(n) ==> visit(n, p).action == Continue
  }

  /** No entry of the listing abandons the rest of the listing. */
  ghost predicate NoneSkipRest(entries: seq<Node>, dir: string, visit: Visitor)
  {
    forall i :: 0 <= i < |entries| ==> !WalkEntry(entries[i], JoinPath(dir, entries[i].name), visit).skipRest
  }

  /** A callback that skips only directories never cuts a listing short. */
  lemma NoSkipRestWhenSkipsOnlyDirs(entries: seq<Node>, dir: string, visit: Visitor)
    requires SkipsOnlyDirs(visit)
    ensures NoneSkipRest(entries, dir, visit)
  {
    forall i | 0 <= i < |entries|
      ensures !WalkEntry(entries[i], JoinPath(dir, entries[i].name), visit).skipRest
    {
      var n := entries[i];
      var v := visit(n, JoinPath(dir, n.name));
      if !IsDir(n) {
        assert v.action == Continue;
      }
    }
  }

  /** Walking a listing in two parts gives the two parts' matches in order, when the first part never
      cuts the listing short. */
  lemma {:induction false} WalkEntriesAppend(a: seq<Node>, b: seq<Node>, dir: string, visit: Visitor)
    requires NoneSkipRest(a, dir, visit)
    ensures WalkEntries(a + b, dir, visit) == WalkEntries(a, dir, visit) + WalkEntries(b, dir, visit)
    decreases |a|
  {
    if |a| > 0 {
      assert (a + b)[0] == a[0];
      assert (a + b)[1..] == a[1..] + b;
      assert NoneSkipRest(a[1..], dir, visit) by {
        forall i | 0 <= i < |a[1..]|
          ensures !WalkEntry(a[1..][i], JoinPath(dir, a[1..][i].name), visit).skipRest
        {
          assert a[1..][i] == a[i + 1];
        }
      }
      WalkEntriesAppend(a[1..], b, dir, visit);
    } else {
      assert a + b == b;
    }
  }

  /** An entry that does not cut the listing short contributes its own matches between those of the entries
      before and after it. */
  lemma WalkEntriesAround(a: seq<Node>, x: Node, b: seq<Node>, dir: string, visit: Visitor)
    requires NoneSkipRest(a, dir, visit)
    requires !WalkEntry(x, JoinPath(dir, x.name), visit).skipRest
    ensures WalkEntries(a + [x] + b, dir, visit)
         == WalkEntries(a, dir, visit) + WalkEntry(x, JoinPath(dir, x.name), visit).emitted + WalkEntries(b, dir, visit)
  {
    assert a + [x] + b == a + ([x] + b);
    WalkEntriesAppend(a, [x] + b, dir, visit);
    assert ([x] + b)[0] == x && ([x] + b)[1..] == b;
  }

  /** An entry whose walk abandons the listing hides every entry after it. */
  lemma WalkEntriesCut(a: seq<Node>, x: Node, b: seq<Node>, dir: string, visit: Visitor)
    requires NoneSkipRest(a, dir, visit)
    requires WalkEntry(x, JoinPath(dir, x.name), visit).skipRest
    ensures WalkEntries(a + [x] + b, dir, visit)
         == WalkEntries(a, dir, visit) + WalkEntry(x, JoinPath(dir, x.name), visit).emitted
  {
    assert a + [x] + b == a + ([x] + b);
    WalkEntriesAppend(a, [x] + b, dir, visit);
    assert ([x] + b)[0] == x;
  }

  /** Child positions followed down from `n`, each step going into a readable directory's listing. */
  predicate IsRoute(n: Node, route: seq<int>)
    decreases |route|
  {
    |route| == 0 || (n.Dir? && 0 <= route[0] < |n.children| && IsRoute(n.children[route[0]], route[1..]))
  }

  /** The entry a route leads to. */
  function RouteEnd(n: Node, route: seq<int>): Node
    requires IsRoute(n, route)
    decreases |route|
  {
    if |route| == 0 then n else RouteEnd(n.children[route[0]], route[1..])
  }

  /** The names of the entries a route steps into below `n`, in order. */
  function RouteNames(n: Node, route: seq<int>): seq<string>
    requires IsRoute(n, route)
    decreases |route|
  {
    if |route| == 0 then [] else [n.children[route[0]].name] + RouteNames(n.children[route[0]], route[1..])
  }

  /** Whatever the walk of one entry of a listing sends, the walk of the listing sends too, when no entry
      before it cuts the listing short. */
  lemma EntryEmissionsInListing(entries: seq<Node>, i: int, dir: string, visit: Visitor, e: Emission)
    requires 0 <= i < |entries|
    requires NoneSkipRest(entries[..i], dir, visit)
    requires e in WalkEntry(entries[i], JoinPath(dir, entries[i].name), visit).emitted
    ensures e in WalkEntries(entries, dir, visit)
  {
    assert entries == entries[..i] + [entries[i]] + entries[i + 1..];
    if WalkEntry(entries[i], JoinPath(dir, entries[i].name), visit).skipRest {
      WalkEntriesCut(entries[..i], entries[i], entries[i + 1..], dir, visit);
    } else {
      WalkEntriesAround(entries[..i], entries[i], entries[i + 1..], dir, visit);
    }
  }
}
