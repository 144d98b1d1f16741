/** finder/scanner.go: the walk callback `handleScan` with its pruning rule `shouldSkipDir`, `FindAppFiles`,
    the walk of every root that is not an application root, `FindApp`, the one-level listing of the two
    application roots, and the line `emitMatch` prints for a match. */
module Scanner {
  import opened Wrappers
  import opened GoStrings
  import opened Catalog
  import opened FileSystem
  import opened Matcher
  import opened Formatter

  /** `filepath.Rel(rootPath, subPath)` for a path the walk reached from `rootPath`: "." for the root itself,
      otherwise what follows `rootPath/`. */
  function RelPath(rootPath: string, subPath: string): string
  {
    if subPath == rootPath then "." else TrimPrefix(subPath, rootPath + "/")
  }

  /** The depth `handleScan` gives a directory: the number of `/`-separated segments of its relative path. */
  function Depth(rootPath: string, subPath: string): (depth: nat)
    ensures depth >= 1
  {
    |SplitOn(RelPath(rootPath, subPath), '/')|
  }

  /** The path the walk gives the entry reached from the root through the entry names `segs`. */
  function PathBelow(rootPath: string, segs: seq<string>): string
  {
    if |segs| == 0 then rootPath else rootPath + "/" + Join(segs, "/")
  }

  /** Joining a child's name onto a walked path extends the names by one. */
  lemma PathBelowChild(rootPath: string, segs: seq<string>, name: string)
    ensures JoinPath(PathBelow(rootPath, segs), name) == PathBelow(rootPath, segs + [name])
  {
    if |segs| == 0 {
      assert segs + [name] == [name];
    } else {
      JoinSnoc(segs, "/", name);
    }
  }

  /** The depth computed from the relative path of an entry `k >= 1` names below the root is `k`; the root
      itself has depth 1, the same as its children. */
  lemma DepthBelow(rootPath: string, segs: seq<string>)
    requires forall s | s in segs :: '/' !in s
    ensures Depth(rootPath, PathBelow(rootPath, segs)) == if |segs| == 0 then 1 else |segs|
  {
    if |segs| > 0 {
      var p := PathBelow(rootPath, segs);
      assert |p| > |rootPath|;
      assert HasPrefix(p, rootPath + "/");
      assert p[|rootPath + "/"|..] == Join(segs, "/");
      assert RelPath(rootPath, p) == Join(segs, ['/']);
      SplitOnJoin(segs, '/');
    } else {
      assert RelPath(rootPath, rootPath) == ".";
      SplitOnWithout(".", '/');
    }
  }

  /** `shouldSkipDir`: beyond the search depth, or, at the standard depth, shallower than it with the domain
      hint in the name and no match. */
  predicate ShouldSkipDir(roots: SearchRoots, name: string, depth: int, ctx: ScanContext)
  {
    depth > ctx.searchDepth
    || (ctx.searchDepth == STANDARD_DEPTH && depth < ctx.searchDepth
        && Contains(name, ctx.domainHint) && !Matches(roots, name, ctx))
  }

  /** `handleScan` on one entry: a matching regular file or symlink is sent and the walk goes on; a matching
      directory is sent and not descended; any other directory is skipped when `shouldSkipDir` says so. */
  function HandleScan(roots: SearchRoots, ctx: ScanContext, rootPath: string, n: Node, subPath: string): (v: Visit)
    ensures forall e | e in v.emitted :: e.name == n.name && e.path == subPath && e.symlink == n.Symlink?
    ensures v.emitted != [] <==> (n.File? || n.Symlink? || IsDir(n)) && Matches(roots, n.name, ctx)
    ensures |v.emitted| <= 1
    ensures v.action == SkipDir ==> IsDir(n)
  {
    var name := n.name;
    if n.File? && Matches(roots, name, ctx) then Visit([Emission(name, subPath, false)], Continue)
    else if n.Symlink? && Matches(roots, name, ctx) then Visit([Emission(name, subPath, true)], Continue)
    else if IsDir(n) then
      if Matches(roots, name, ctx) then Visit([Emission(name, subPath, false)], SkipDir)
      else if ShouldSkipDir(roots, name, Depth(rootPath, subPath), ctx) then Visit([], SkipDir)
      else Visit([], Continue)
    else Visit([], Continue)
  }

  /** For a directory the walk reaches through `segs`, the callback prunes exactly when the directory
      matches or lies deeper than the search depth: the domain-hint clause of `shouldSkipDir` never fires,
      because the computed depth is never below 1. */
  lemma HandleScanPrunes(roots: SearchRoots, ctx: ScanContext, rootPath: string, n: Node, segs: seq<string>)
    requires IsDir(n) && forall s | s in segs :: '/' !in s
    ensures var depth := if |segs| == 0 then 1 else |segs|;
      HandleScan(roots, ctx, rootPath, n, PathBelow(rootPath, segs)).action == SkipDir
      <==> Matches(roots, n.name, ctx) || depth > ctx.searchDepth
  {
    DepthBelow(rootPath, segs);
  }

  /** The callback `FindAppFiles` hands to `filepath.WalkDir`. */
  function ScanVisitor(roots: SearchRoots, ctx: ScanContext, rootPath: string): Visitor
  {
    (n: Node, p: string) => HandleScan(roots, ctx, rootPath, n, p)
  }

  /** The callback answers `SkipDir` only for directories, so it never cuts a listing short. */
  lemma ScanSkipsOnlyDirs(roots: SearchRoots, ctx: ScanContext, rootPath: string)
    ensures SkipsOnlyDirs(ScanVisitor(roots, ctx, rootPath))
  {
    var visit := ScanVisitor(roots, ctx, rootPath);
    forall n: Node, p: string | !IsDir(n)
      ensures visit(n, p).action == Continue
    {
      assert visit(n, p) == HandleScan(roots, ctx, rootPath, n, p);
    }
  }

  /** Every match sent while walking an entry has a matching name. */
  lemma {:induction false} WalkEntrySound(roots: SearchRoots, ctx: ScanContext, rootPath: string, n: Node, path: string)
    ensures forall e | e in WalkEntry(n, path, ScanVisitor(roots, ctx, rootPath)).emitted :: Matches(roots, e.name, ctx)
    decreases n
  {
    var visit := ScanVisitor(roots, ctx, rootPath);
    assert visit(n, path) == HandleScan(roots, ctx, rootPath, n, path);
    if n.Dir? {
      WalkEntriesSound(roots, ctx, rootPath, n.children, path);
    }
  }

  /** Every match sent while walking a listing has a matching name. */
  lemma {:induction false} WalkEntriesSound(roots: SearchRoots, ctx: ScanContext, rootPath: string, entries: seq<Node>, dir: string)
    ensures forall e | e in WalkEntries(entries, dir, ScanVisitor(roots, ctx, rootPath)) :: Matches(roots, e.name, ctx)
    decreases entries
  {
    if |entries| > 0 {
      WalkEntrySound(roots, ctx, rootPath, entries[0], JoinPath(dir, entries[0].name));
      WalkEntriesSound(roots, ctx, rootPath, entries[1..], dir);
    }
  }

  /** `FindAppFiles`: the matches `filepath.WalkDir` sends from one root. A missing root sends nothing, and
      every match sent has a name `isMatch` accepts. */
  function FindAppFiles(roots: SearchRoots, rootPath: string, root: Option<Node>, ctx: ScanContext): (sent: seq<Emission>)
    ensures root.None? ==> sent == []
    ensures forall e | e in sent :: Matches(roots, e.name, ctx)
  {
    if root.Some? then WalkEntrySound(roots, ctx, rootPath, root.value, rootPath); WalkDir(rootPath, root, ScanVisitor(roots, ctx, rootPath))
    else []
  }

  /** A matching directory is sent once and nothing inside it is visited. */
  lemma MatchedDirNotDescended(roots: SearchRoots, ctx: ScanContext, rootPath: string, name: string, children: seq<Node>, path: string)
    requires Matches(roots, name, ctx)
    ensures WalkEntry(Dir(name, children), path, ScanVisitor(roots, ctx, rootPath)).emitted == [Emission(name, path, false)]
  {
    assert ScanVisitor(roots, ctx, rootPath)(Dir(name, children), path) == HandleScan(roots, ctx, rootPath, Dir(name, children), path);
  }

  /** A directory whose listing fails sends at most its own match, and the walk of its siblings goes on
      around it. */
  lemma UnreadableIsolated(roots: SearchRoots, ctx: ScanContext, rootPath: string, a: seq<Node>, name: string, b: seq<Node>, dir: string)
    ensures var visit := ScanVisitor(roots, ctx, rootPath);
      WalkEntries(a + [UnreadableDir(name)] + b, dir, visit)
      == WalkEntries(a, dir, visit) + HandleScan(roots, ctx, rootPath, UnreadableDir(name), JoinPath(dir, name)).emitted
         + WalkEntries(b, dir, visit)
  {
    var visit := ScanVisitor(roots, ctx, rootPath);
    var x := UnreadableDir(name);
    ScanSkipsOnlyDirs(roots, ctx, rootPath);
    NoSkipRestWhenSkipsOnlyDirs(a, dir, visit);
    var v := HandleScan(roots, ctx, rootPath, x, JoinPath(dir, name));
    assert visit(x, JoinPath(dir, name)) == v;
    assert WalkEntry(x, JoinPath(dir, name), visit) == Walked(v.emitted, false);
    WalkEntriesAround(a, x, b, dir, visit);
  }

  /** Every entry name in the tree is a single path segment. */
  predicate WellNamed(n: Node)
    decreases n
  {
    '/' !in n.name && (n.Dir? ==> forall i :: 0 <= i < |n.children| ==> WellNamed(n.children[i]))
  }

  /** The tree cut `keep` levels below `n`: deeper directories keep their names and lose their listings. */
  function Prune(n: Node, keep: nat): (p: Node)
    ensures p.name == n.name && p.File? == n.File? && p.Symlink? == n.Symlink? && IsDir(p) == IsDir(n)
    decreases n
  {
    if n.Dir? then Dir(n.name, if keep == 0 then [] else PruneAll(n.children, keep - 1)) else n
  }

  function PruneAll(entries: seq<Node>, keep: nat): (ps: seq<Node>)
    ensures |ps| == |entries|
    ensures forall i :: 0 <= i < |ps| ==> ps[i] == Prune(entries[i], keep)
    decreases entries
  {
    if |entries| == 0 then [] else [Prune(entries[0], keep)] + PruneAll(entries[1..], keep)
  }

  /** An entry the walk reaches through `segs` is walked the same when everything more than `keep` levels
      below it is cut off, provided `|segs| + keep` exceeds the search depth. */
  lemma {:induction false} PruneEntry(roots: SearchRoots, ctx: ScanContext, rootPath: string, n: Node, segs: seq<string>, keep: nat)
    requires WellNamed(n) && forall s | s in segs :: '/' !in s
    requires |segs| + keep > ctx.searchDepth
    ensures var visit := ScanVisitor(roots, ctx, rootPath); var path := PathBelow(rootPath, segs);
      WalkEntry(Prune(n, keep), path, visit) == WalkEntry(n, path, visit)
    decreases n, 1
  {
    if n.Dir? && keep > 0 && HandleScan(roots, ctx, rootPath, n, PathBelow(rootPath, segs)).action != SkipDir {
      PruneDescended(roots, ctx, rootPath, n, segs, keep);
    } else if n.Dir? {
      PruneStopped(roots, ctx, rootPath, n, segs, keep);
    }
  }

  /** A directory the walk descends into is walked the same when its listing is cut one level less deep. */
  lemma {:induction false} PruneDescended(roots: SearchRoots, ctx: ScanContext, rootPath: string, n: Node, segs: seq<string>, keep: nat)
    requires n.Dir? && forall i :: 0 <= i < |n.children| ==> WellNamed(n.children[i])
    requires forall s | s in segs :: '/' !in s
    requires |segs| + keep > ctx.searchDepth && keep > 0
    requires HandleScan(roots, ctx, rootPath, n, PathBelow(rootPath, segs)).action != SkipDir
    ensures var visit := ScanVisitor(roots, ctx, rootPath); var path := PathBelow(rootPath, segs);
      WalkEntry(Prune(n, keep), path, visit) == WalkEntry(n, path, visit)
    decreases n, 0
  {
    var path := PathBelow(rootPath, segs);
    PruneEntries(roots, ctx, rootPath, n.children, segs, keep - 1);
    PrunedDirWalk(roots, ctx, rootPath, n, keep, path);
  }

  /** Both the directory and its cut copy are walked as the same visit followed by their listings. */
  lemma PrunedDirWalk(roots: SearchRoots, ctx: ScanContext, rootPath: string, n: Node, keep: nat, path: string)
    requires n.Dir? && keep > 0 && HandleScan(roots, ctx, rootPath, n, path).action != SkipDir
    ensures var visit := ScanVisitor(roots, ctx, rootPath); var v := visit(n, path);
      && WalkEntry(n, path, visit) == Walked(v.emitted + WalkEntries(n.children, path, visit), false)
      && WalkEntry(Prune(n, keep), path, visit) == Walked(v.emitted + WalkEntries(PruneAll(n.children, keep - 1), path, visit), false)
  {
    var visit := ScanVisitor(roots, ctx, rootPath);
    var pruned := Dir(n.name, PruneAll(n.children, keep - 1));
    assert Prune(n, keep) == pruned;
    PruneSameVisit(roots, ctx, rootPath, n, keep, path);
    assert visit(n, path) == HandleScan(roots, ctx, rootPath, n, path);
    WalkDescends(n, path, visit);
    WalkDescends(pruned, path, visit);
  }

  /** A directory whose callback does not answer `SkipDir` is walked as its own visit followed by its listing. */
  lemma WalkDescends(n: Node, path: string, visit: Visitor)
    requires n.Dir? && visit(n, path).action != SkipDir
    ensures WalkEntry(n, path, visit) == Walked(visit(n, path).emitted + WalkEntries(n.children, path, visit), false)
  {
  }

  /** A directory the walk does not descend into, because it is at the cut or the callback skips it, is
      walked the same whether cut or not. */
  lemma PruneStopped(roots: SearchRoots, ctx: ScanContext, rootPath: string, n: Node, segs: seq<string>, keep: nat)
    requires n.Dir? && forall s | s in segs :: '/' !in s
    requires |segs| + keep > ctx.searchDepth
    requires keep == 0 || HandleScan(roots, ctx, rootPath, n, PathBelow(rootPath, segs)).action == SkipDir
    ensures var visit := ScanVisitor(roots, ctx, rootPath); var path := PathBelow(rootPath, segs);
      WalkEntry(Prune(n, keep), path, visit) == WalkEntry(n, path, visit)
  {
    var visit := ScanVisitor(roots, ctx, rootPath);
    var path := PathBelow(rootPath, segs);
    PruneSameVisit(roots, ctx, rootPath, n, keep, path);
    if keep == 0 {
      HandleScanPrunes(roots, ctx, rootPath, n, segs);
      assert visit(n, path) == HandleScan(roots, ctx, rootPath, n, path);
    }
  }

  /** The callback sees only an entry's name and kind, which cutting keeps. */
  lemma PruneSameVisit(roots: SearchRoots, ctx: ScanContext, rootPath: string, n: Node, keep: nat, path: string)
    ensures var visit := ScanVisitor(roots, ctx, rootPath); visit(Prune(n, keep), path) == visit(n, path)
  {
    var visit := ScanVisitor(roots, ctx, rootPath);
    assert visit(Prune(n, keep), path) == HandleScan(roots, ctx, rootPath, Prune(n, keep), path);
    assert visit(n, path) == HandleScan(roots, ctx, rootPath, n, path);
  }

  /** A listing under a directory reached through `segs` is walked the same with each entry cut `keep` levels down. */
  lemma {:induction false} PruneEntries(roots: SearchRoots, ctx: ScanContext, rootPath: string, entries: seq<Node>, segs: seq<string>, keep: nat)
    requires forall i :: 0 <= i < |entries| ==> WellNamed(entries[i])
    requires forall s | s in segs :: '/' !in s
    requires |segs| + 1 + keep > ctx.searchDepth
    ensures var visit := ScanVisitor(roots, ctx, rootPath); var dir := PathBelow(rootPath, segs);
      WalkEntries(PruneAll(entries, keep), dir, visit) == WalkEntries(entries, dir, visit)
    decreases entries, 2
  {
    if |entries| > 0 {
      var visit := ScanVisitor(roots, ctx, rootPath);
      var dir := PathBelow(rootPath, segs);
      var e := entries[0];
      PathBelowChild(rootPath, segs, e.name);
      assert forall s | s in segs + [e.name] :: '/' !in s;
      PruneEntry(roots, ctx, rootPath, e, segs + [e.name], keep);
      assert PruneAll(entries, keep)[1..] == PruneAll(entries[1..], keep);
      PruneEntries(roots, ctx, rootPath, entries[1..], segs, keep);
    }
  }

  /** Nothing more than `searchDepth + 1` levels below the root is ever visited: with the standard depth the
      walk reaches the root's children and grandchildren and no further. */
  lemma WalkReach(roots: SearchRoots, ctx: ScanContext, rootPath: string, root: Node)
    requires WellNamed(root) && ctx.searchDepth >= 0
    ensures FindAppFiles(roots, rootPath, Some(Prune(root, ctx.searchDepth + 1)), ctx)
         == FindAppFiles(roots, rootPath, Some(root), ctx)
  {
    PruneEntry(roots, ctx, rootPath, root, [], ctx.searchDepth + 1);
  }

  /** With the standard depth a file two levels below the root is still found, inside a directory that
      does not match. */
  lemma GrandchildFound(roots: SearchRoots, ctx: ScanContext, rootPath: string, r: string, d: string, x: string)
    requires ctx.searchDepth == STANDARD_DEPTH && '/' !in d
    requires !Matches(roots, r, ctx) && !Matches(roots, d, ctx) && Matches(roots, x, ctx)
    ensures FindAppFiles(roots, rootPath, Some(Dir(r, [Dir(d, [File(x)])])), ctx)
         == [Emission(x, rootPath + "/" + d + "/" + x, false)]
  {
    var visit := ScanVisitor(roots, ctx, rootPath);
    var inner := Dir(d, [File(x)]);
    var dp := JoinPath(rootPath, d);
    var xp := JoinPath(dp, x);
    HandleScanPrunes(roots, ctx, rootPath, Dir(r, [inner]), []);
    assert visit(Dir(r, [inner]), rootPath) == Visit([], Continue);
    HandleScanPrunes(roots, ctx, rootPath, inner, [d]);
    assert Join([d], "/") == d;
    assert visit(inner, dp) == Visit([], Continue);
    assert visit(File(x), xp) == Visit([Emission(x, xp, false)], Continue);
    assert WalkEntries([File(x)], dp, visit) == [Emission(x, xp, false)];
    assert WalkEntry(inner, dp, visit) == Walked([Emission(x, xp, false)], false);
    assert WalkEntries([inner], rootPath, visit) == [Emission(x, xp, false)];
  }

  /** A matching file directly inside a root that does not match is sent, with its full path, when the
      search depth is at least 1. */
  lemma RootFileFound(roots: SearchRoots, ctx: ScanContext, rootPath: string, r: string, a: seq<Node>, x: string, b: seq<Node>)
    requires ctx.searchDepth >= 1
    requires !Matches(roots, r, ctx) && Matches(roots, x, ctx)
    ensures Emission(x, rootPath + "/" + x, false) in FindAppFiles(roots, rootPath, Some(Dir(r, a + [File(x)] + b)), ctx)
  {
    var visit := ScanVisitor(roots, ctx, rootPath);
    var root := Dir(r, a + [File(x)] + b);
    HandleScanPrunes(roots, ctx, rootPath, root, []);
    var rv := visit(root, rootPath);
    assert rv == HandleScan(roots, ctx, rootPath, root, rootPath);
    assert rv.action == Continue && rv.emitted == [];
    var entries := WalkEntries(root.children, rootPath, visit);
    assert WalkEntry(root, rootPath, visit) == Walked(entries, false);
    ScanSkipsOnlyDirs(roots, ctx, rootPath);
    NoSkipRestWhenSkipsOnlyDirs(a, rootPath, visit);
    var xp := JoinPath(rootPath, x);
    var v := HandleScan(roots, ctx, rootPath, File(x), xp);
    assert visit(File(x), xp) == v;
    assert v.emitted == [Emission(x, xp, false)];
    assert WalkEntry(File(x), xp, visit) == Walked(v.emitted, false);
    WalkEntriesAround(a, File(x), b, rootPath, visit);
  }

  /** Every directory a route passes through, all but the entry it ends at, has a name `isMatch` rejects. */
  predicate PassesUnmatched(roots: SearchRoots, ctx: ScanContext, n: Node, route: seq<int>)
    requires IsRoute(n, route)
    decreases |route|
  {
    |route| == 0 || (!Matches(roots, n.name, ctx) && PassesUnmatched(roots, ctx, n.children[route[0]], route[1..]))
  }

  /** The walk of an entry reached through `segs` sends every matching entry it leads to through readable
      directories that do not match, when the last of those directories lies within the search depth. */
  lemma {:induction false} WalkEntryComplete(roots: SearchRoots, ctx: ScanContext, rootPath: string, n: Node, segs: seq<string>, route: seq<int>)
    requires WellNamed(n) && forall s | s in segs :: '/' !in s
    requires IsRoute(n, route) && PassesUnmatched(roots, ctx, n, route)
    requires |route| == 0 || (1 <= ctx.searchDepth && |segs| + |route| <= ctx.searchDepth + 1)
    requires var t := RouteEnd(n, route); (t.File? || t.Symlink? || IsDir(t)) && Matches(roots, t.name, ctx)
    ensures var t := RouteEnd(n, route);
      Emission(t.name, PathBelow(rootPath, segs + RouteNames(n, route)), t.Symlink?)
        in WalkEntry(n, PathBelow(rootPath, segs), ScanVisitor(roots, ctx, rootPath)).emitted
    decreases |route|
  {
    if |route| == 0 {
      assert segs + RouteNames(n, route) == segs;
      MatchSent(roots, ctx, rootPath, n, PathBelow(rootPath, segs));
    } else {
      var c := n.children[route[0]];
      var rest := route[1..];
      assert RouteEnd(n, route) == RouteEnd(c, rest);
      assert RouteNames(n, route) == [c.name] + RouteNames(c, rest);
      var t := RouteEnd(c, rest);
      var below := segs + [c.name];
      var names := below + RouteNames(c, rest);
      assert segs + RouteNames(n, route) == names;
      var e := Emission(t.name, PathBelow(rootPath, names), t.Symlink?);
      assert e in WalkEntry(c, PathBelow(rootPath, below), ScanVisitor(roots, ctx, rootPath)).emitted by {
        assert forall s | s in below :: '/' !in s;
        WalkEntryComplete(roots, ctx, rootPath, c, below, rest);
      }
      PathBelowChild(rootPath, segs, c.name);
      ChildSent(roots, ctx, rootPath, n, segs, route[0], e);
    }
  }

  /** A matching file, symlink or directory is sent by its own visit. */
  lemma MatchSent(roots: SearchRoots, ctx: ScanContext, rootPath: string, n: Node, path: string)
    requires (n.File? || n.Symlink? || IsDir(n)) && Matches(roots, n.name, ctx)
    ensures Emission(n.name, path, n.Symlink?) in WalkEntry(n, path, ScanVisitor(roots, ctx, rootPath)).emitted
  {
    var v := HandleScan(roots, ctx, rootPath, n, path);
    assert ScanVisitor(roots, ctx, rootPath)(n, path) == v;
    assert v.emitted[0] in v.emitted;
  }

  /** What a child of a directory within the search depth that does not match sends, the directory's walk sends. */
  lemma ChildSent(roots: SearchRoots, ctx: ScanContext, rootPath: string, n: Node, segs: seq<string>, i: int, e: Emission)
    requires n.Dir? && !Matches(roots, n.name, ctx) && forall s | s in segs :: '/' !in s
    requires 1 <= ctx.searchDepth && |segs| <= ctx.searchDepth && 0 <= i < |n.children|
    requires var path := PathBelow(rootPath, segs);
      e in WalkEntry(n.children[i], JoinPath(path, n.children[i].name), ScanVisitor(roots, ctx, rootPath)).emitted
    ensures e in WalkEntry(n, PathBelow(rootPath, segs), ScanVisitor(roots, ctx, rootPath)).emitted
  {
    var visit := ScanVisitor(roots, ctx, rootPath);
    var path := PathBelow(rootPath, segs);
    HandleScanPrunes(roots, ctx, rootPath, n, segs);
    assert visit(n, path) == HandleScan(roots, ctx, rootPath, n, path);
    WalkDescends(n, path, visit);
    ScanSkipsOnlyDirs(roots, ctx, rootPath);
    NoSkipRestWhenSkipsOnlyDirs(n.children[..i], path, visit);
    EntryEmissionsInListing(n.children, i, path, visit, e);
  }

  /** Completeness of `FindAppFiles`: a matching entry reached from the root through readable directories
      that do not match is sent with its path, when it lies at most `searchDepth + 1` levels down. */
  lemma WalkComplete(roots: SearchRoots, ctx: ScanContext, rootPath: string, root: Node, route: seq<int>)
    requires WellNamed(root) && IsRoute(root, route) && PassesUnmatched(roots, ctx, root, route)
    requires |route| == 0 || (1 <= ctx.searchDepth && |route| <= ctx.searchDepth + 1)
    requires var t := RouteEnd(root, route); (t.File? || t.Symlink? || IsDir(t)) && Matches(roots, t.name, ctx)
    ensures var t := RouteEnd(root, route);
      Emission(t.name, PathBelow(rootPath, RouteNames(root, route)), t.Symlink?)
        in FindAppFiles(roots, rootPath, Some(root), ctx)
  {
    WalkEntryComplete(roots, ctx, rootPath, root, [], route);
    assert [] + RouteNames(root, route) == RouteNames(root, route);
  }

  /** The application bundles `FindApp` sends from a listing: the paths of its matching directories, in order. */
  function AppBundles(roots: SearchRoots, rootPath: string, listing: seq<Node>, ctx: ScanContext): (paths: seq<string>)
    ensures forall i :: 0 <= i < |listing| && IsDir(listing[i]) && Matches(roots, listing[i].name, ctx)
              ==> JoinPath(rootPath, listing[i].name) in paths
    ensures forall p | p in paths ::
              (exists i :: 0 <= i < |listing| && IsDir(listing[i])
                 && Matches(roots, listing[i].name, ctx) && p == JoinPath(rootPath, listing[i].name))
    ensures |paths| <= |listing|
  {
    if |listing| == 0 then []
    else
      var prefix := listing[..|listing| - 1];
      var rest := AppBundles(roots, rootPath, prefix, ctx);
      assert forall i :: 0 <= i < |prefix| ==> listing[i] == prefix[i];
      var c := listing[|listing| - 1];
      if IsDir(c) && Matches(roots, c.name, ctx) then rest + [JoinPath(rootPath, c.name)] else rest
  }

  /** What `FindApp` sends for a root: the matching bundles of its listing, nothing when it cannot be listed. */
  function AppsFound(roots: SearchRoots, rootPath: string, root: Option<Node>, ctx: ScanContext): seq<string>
  {
    var listing := ReadDir(root);
    if listing.Some? then AppBundles(roots, rootPath, listing.value, ctx) else []
  }

  /** `FindApp`: reads the root's listing once and sends the path of each matching directory; a root that
      cannot be listed sends nothing. Nothing below the listing is looked at. */
  method FindApp(roots: SearchRoots, rootPath: string, root: Option<Node>, ctx: ScanContext) returns (sent: seq<string>)
    ensures ReadDir(root).None? ==> sent == []
    ensures ReadDir(root).Some? ==> sent == AppBundles(roots, rootPath, ReadDir(root).value, ctx)
  {
    sent := [];
    var listing := ReadDir(root);
    if listing.Some? {
      var apps := listing.value;
      for i := 0 to |apps|
        invariant sent == AppBundles(roots, rootPath, apps[..i], ctx)
      {
        assert apps[..i + 1][..i] == apps[..i];
        var app := apps[i];
        if IsDir(app) {
          var hit := IsMatch(roots, app.name, ctx);
          if hit {
            sent := sent + [JoinPath(rootPath, app.name)];
          }
        }
      }
      assert apps[..|apps|] == apps;
    }
  }

  /** The line `emitMatch` prints before sending a match, present only in verbose mode outside peek mode;
      the name is coloured 2 and the path 3. */
  function MatchAnnouncement(name: string, path: string, verbosity: bool, peek: bool, symlink: bool): (line: Option<string>)
    ensures line.Some? <==> verbosity && !peek
  {
    if verbosity && !peek then
      Some((if symlink then "Symlink match " else "Match ") + ApplyColor(name, "2") + " FOUND at: " + ApplyColor(path, "3"))
    else None
  }

  /** Without its colour codes the announcement reads `Match <name> FOUND at: <path>`. */
  lemma AnnouncementText(name: string, path: string, symlink: bool)
    requires ESC !in name && ESC !in path
    ensures StripColor(MatchAnnouncement(name, path, true, false, symlink).value)
         == (if symlink then "Symlink match " else "Match ") + name + " FOUND at: " + path
  {
    var lead: string := if symlink then "Symlink match " else "Match ";
    assert ESC !in lead && ESC !in " FOUND at: ";
    StripTwoColoured(lead, name, "2", " FOUND at: ", path, "3");
  }
}
