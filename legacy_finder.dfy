/** rmapp/finder.go: the older finder. It matches with three rules instead of five, skips at every symlink,
    walks on below a matching directory, lists `/Library/Application Support` twice among its roots, and
    sizes its matches in `handlePeek`. */
module LegacyFinder {
  import opened Wrappers
  import opened GoStrings
  import opened Options
  import opened FileSystem
  import opened Formatter
  import Catalog
  import Matcher
  import Scanner
  import Finder
  import Report

  /** `ScanContext` of the older package, without its channel: it carries no root path. */
  datatype ScanContext = ScanContext(appName: string, bundleID: string, domainHint: string, searchDepth: int)

  /** The path records of the older `NewFinder` literal, built from `USER` under `/Users`. */
  function NewSearchRoots(user: string): Catalog.SearchRoots
  {
    var home := "/Users/" + user;
    Catalog.SearchRoots(
      Catalog.OSMainPaths("/Applications", home + "/Applications"),
      Catalog.SystemPaths(
        "/Library/Application Support",
        "/Library/Application Support/CrashReporter",
        "/Library/Caches",
        "/Library/Extensions",
        "/Library/Internet Plug-Ins",
        "/Library/LaunchAgents",
        "/Library/LaunchDaemons",
        "/Library/Logs",
        "/Library/PrivilegedHelperTools",
        "/private/var/db/recipts",
        "/usr/local/bin",
        "/usr/local/opt",
        "/usr/local/sbin",
        "/usr/local/share",
        "/usr/local/var"),
      Catalog.UserPaths(
        home + "/Library/Application Support",
        home + "/Library/Preferences",
        home + "/Library/Caches",
        home + "/Library/Containers",
        home + "/Library/Saved Application State",
        home + "/Library/HTTPStorages",
        home + "/Library/Grouped Containers",
        home + "/Library/Internet Plug-Ins",
        home + "/Library/LaunchAgents",
        home + "/Library/Logs",
        home + "/Library/WebKit",
        home + "/Library/Application Scripts"))
  }

  /** `AllSearchPaths` of the older package: the application roots, four system entries (the support-files
      root twice) and the twelve user roots. */
  function AllSearchPaths(r: Catalog.SearchRoots): seq<string>
  {
    [r.osMain.rootApplications, r.osMain.userApplications,
     r.system.supportFiles, r.system.caches, r.system.crashReports, r.system.supportFiles,
     r.user.appSupportFiles, r.user.preferences, r.user.caches, r.user.containers,
     r.user.savedState, r.user.httpStorages, r.user.groupContainers, r.user.internetPlugIns,
     r.user.launchAgents, r.user.logs, r.user.webKit, r.user.applicationScripts]
  }

  /** The system records `AllSearchPaths` of the older package leaves out. */
  function Unscanned(r: Catalog.SearchRoots): seq<string>
  {
    [r.system.extensions, r.system.internetPlugIns, r.system.launchAgents, r.system.launchDaemons,
     r.system.logs, r.system.privilegedHelperTools, r.system.receipts, r.system.localBin,
     r.system.localOpt, r.system.localSbin, r.system.localShare, r.system.localVar]
  }

  /** There are 18 entries; the third and the sixth are both `/Library/Application Support`, and the other
      twelve system records, the receipts root among them, are never scanned. */
  lemma AllSearchPathsLayout(user: string)
    ensures var r := NewSearchRoots(user); var roots := AllSearchPaths(r);
      |roots| == 18 && roots[2] == roots[5] == "/Library/Application Support"
      && forall x | x in Unscanned(r) :: x !in roots
  {
    var r := NewSearchRoots(user);
    var roots := AllSearchPaths(r);
    var un := Unscanned(r);
    UnscannedShape(user);
    ScannedShape(user);
    forall i, j | 0 <= i < |roots| && 0 <= j < |un|
      ensures roots[i] != un[j]
    {
      if roots[i][1] == 'L' {
        assert |roots[i]| in {15, 28, 42};
      }
    }
  }

  /** Every unscanned system record starts `/p` or `/u`, or starts `/L` and has none of the lengths 15, 28, 42. */
  lemma UnscannedShape(user: string)
    ensures var un := Unscanned(NewSearchRoots(user));
      forall j :: 0 <= j < |un| ==> |un[j]| > 1 && (un[j][1] in {'p', 'u'} || (un[j][1] == 'L' && |un[j]| !in {15, 28, 42}))
  {
  }

  /** Every scanned root starts `/A` or `/U`, or starts `/L` and has one of the lengths 15, 28, 42. */
  lemma ScannedShape(user: string)
    ensures var roots := AllSearchPaths(NewSearchRoots(user));
      |roots| == 18 && roots[2] == roots[5] == "/Library/Application Support"
      && forall i :: 0 <= i < |roots| ==> |roots[i]| > 1 && (roots[i][1] in {'A', 'U'} || (roots[i][1] == 'L' && |roots[i]| in {15, 28, 42}))
  {
    var roots := AllSearchPaths(NewSearchRoots(user));
    forall i | 0 <= i < |roots|
      ensures |roots[i]| > 1 && (roots[i][1] in {'A', 'U'} || (roots[i][1] == 'L' && |roots[i]| in {15, 28, 42}))
    {
      if i == 0 || i == 1 || i >= 6 {
        assert roots[i][1] in {'A', 'U'};
      }
    }
  }

  /** `tokenize` of the older package: always split on every one of `. - _ space /`. */
  function Tokenize(name: string): (tokens: seq<string>)
    ensures forall t | t in tokens :: t != "" && NoneIn(t, Matcher.FileDelimiters)
  {
    Fields(name, Matcher.FileDelimiters)
  }

  /** Delimiter-free words joined by any one delimiter tokenize back into the words, spaces included. */
  lemma TokenizeJoined(words: seq<string>, c: char)
    requires c in Matcher.FileDelimiters
    requires forall w | w in words :: w != "" && NoneIn(w, Matcher.FileDelimiters)
    ensures Tokenize(Join(words, [c])) == words
  {
    FieldsJoin(words, c, Matcher.FileDelimiters);
  }

  /** On a name without a space the older and the newer `tokenize` agree. */
  lemma TokenizeAgreesWithoutSpace(name: string)
    requires ' ' !in name
    ensures Tokenize(name) == Matcher.Tokenize(name)
  {
    ContainsChar(name, ' ');
  }

  /** `isMatch` of the older package on the lower-cased inputs: the bundle identifier occurs in the name, or
      the name is a `.app` bundle whose stem starts with the application name, or a token is the whole
      application name. There is no numeric-suffix rule and no receipt window. */
  predicate Matches(filename: string, appName: string, bundleID: string)
  {
    var name := Lower(filename);
    var app := Lower(appName);
    var bundle := Lower(bundleID);
    Matcher.BundleRule(name, bundle) || Matcher.AppBundleRule(name, app) || app in Tokenize(name)
  }

  /** `isMatch`: the rules tried in order, the last by a loop over the tokens. */
  method IsMatch(filename: string, appName: string, bundleID: string) returns (r: bool)
    ensures r == Matches(filename, appName, bundleID)
  {
    var name := Lower(filename);
    var app := Lower(appName);
    var bundle := Lower(bundleID);
    if Contains(name, bundle) {
      return true;
    }
    if HasSuffix(name, ".app") {
      var base := TrimSuffix(name, ".app");
      if base == app || HasPrefix(base, app) {
        return true;
      }
    }
    var tokens := Tokenize(name);
    for i := 0 to |tokens|
      invariant app !in tokens[..i]
    {
      if tokens[i] == app {
        return true;
      }
      assert tokens[..i + 1] == tokens[..i] + [tokens[i]];
    }
    assert tokens[..|tokens|] == tokens;
    return false;
  }

  /** Every name the older rules accept, the newer rules accept as well, when the name holds no space. */
  lemma MatchesImpliesCurrent(roots: Catalog.SearchRoots, filename: string, ctx: Matcher.ScanContext)
    requires ' ' !in Lower(filename)
    requires Matches(filename, ctx.appName, ctx.bundleID)
    ensures Matcher.Matches(roots, filename, ctx)
  {
    TokenizeAgreesWithoutSpace(Lower(filename));
  }

  /** Without the numeric-suffix rule `com.microsoft.teams2` no longer matches `com.microsoft.teams`,
      which the newer rules accept. */
  lemma NoNumericSuffixRule(roots: Catalog.SearchRoots, ctx: Matcher.ScanContext, name: string)
    requires name == "com.microsoft.teams"
    requires ctx.appName == "microsoft teams" && ctx.bundleID == name + "2"
    ensures Matcher.Matches(roots, name, ctx)
    ensures !Matches(name, ctx.appName, ctx.bundleID)
  {
    LowerOfLowerCase(name);
    LowerOfLowerCase(ctx.appName);
    LowerOfLowerCase(ctx.bundleID);
    ContainsPrefix(name, "");
    assert name + "" == name;
    Matcher.NumericSuffixMatches(roots, name, ctx, name, "2");
    NoRuleFires(name, ctx.appName, ctx.bundleID);
  }

  /** None of the three older rules fires for a name shorter than the bundle identifier, without the
      `.app` suffix, against an application name holding a space. */
  lemma NoRuleFires(name: string, app: string, bundle: string)
    requires Lower(name) == name && Lower(app) == app && Lower(bundle) == bundle
    requires |name| < |bundle| && !HasSuffix(name, ".app") && ' ' in app
    ensures !Matches(name, app, bundle)
  {
    if Contains(name, bundle) {
      ContainsFirstChar(name, bundle);
    }
  }

  /** `shouldSkipDir` of the older package. */
  predicate ShouldSkipDir(name: string, depth: int, ctx: ScanContext)
  {
    depth > ctx.searchDepth
    || (ctx.searchDepth == Catalog.STANDARD_DEPTH && depth < ctx.searchDepth
        && Contains(name, ctx.domainHint) && !Matches(name, ctx.appName, ctx.bundleID))
  }

  /** `handleScan` of the older package on one entry: a matching regular file is sent; every symlink answers
      `SkipDir` and is never sent; a matching directory is sent and still descended; any other directory is
      skipped when `shouldSkipDir` says so. */
  function HandleScan(ctx: ScanContext, rootPath: string, n: Node, subPath: string): (v: Visit)
    ensures forall e | e in v.emitted :: e == Emission(n.name, subPath, false)
    ensures v.emitted != [] <==> (n.File? || IsDir(n)) && Matches(n.name, ctx.appName, ctx.bundleID)
    ensures |v.emitted| <= 1
    ensures n.Symlink? ==> v == Visit([], SkipDir)
    ensures v.action == SkipDir ==> n.Symlink? || (IsDir(n) && !Matches(n.name, ctx.appName, ctx.bundleID))
  {
    var name := n.name;
    if n.File? && Matches(name, ctx.appName, ctx.bundleID) then Visit([Emission(name, subPath, false)], Continue)
    else if n.Symlink? then Visit([], SkipDir)
    else if IsDir(n) then
      if Matches(name, ctx.appName, ctx.bundleID) then Visit([Emission(name, subPath, false)], Continue)
      else if ShouldSkipDir(name, Scanner.Depth(rootPath, subPath), ctx) then Visit([], SkipDir)
      else Visit([], Continue)
    else Visit([], Continue)
  }

  /** For a directory the walk reaches through `segs`, the callback prunes exactly when the directory does
      not match and lies deeper than the search depth: here too the domain-hint clause never fires. */
  lemma HandleScanPrunes(ctx: ScanContext, rootPath: string, n: Node, segs: seq<string>)
    requires IsDir(n) && forall s | s in segs :: '/' !in s
    ensures var depth := if |segs| == 0 then 1 else |segs|;
      HandleScan(ctx, rootPath, n, Scanner.PathBelow(rootPath, segs)).action == SkipDir
      <==> !Matches(n.name, ctx.appName, ctx.bundleID) && depth > ctx.searchDepth
  {
    Scanner.DepthBelow(rootPath, segs);
  }

  /** The callback `findMatchesWalk` hands to `filepath.WalkDir`. */
  function ScanVisitor(ctx: ScanContext, rootPath: string): Visitor
  {
    (n: Node, p: string) => HandleScan(ctx, rootPath, n, p)
  }

  /** Every path sent while walking an entry has a matching name. */
  lemma {:induction false} WalkEntrySound(ctx: ScanContext, rootPath: string, n: Node, path: string)
    ensures forall e | e in WalkEntry(n, path, ScanVisitor(ctx, rootPath)).emitted :: Matches(e.name, ctx.appName, ctx.bundleID)
    decreases n
  {
    var visit := ScanVisitor(ctx, rootPath);
    assert visit(n, path) == HandleScan(ctx, rootPath, n, path);
    if n.Dir? {
      WalkEntriesSound(ctx, rootPath, n.children, path);
    }
  }

  /** Every path sent while walking a listing has a matching name. */
  lemma {:induction false} WalkEntriesSound(ctx: ScanContext, rootPath: string, entries: seq<Node>, dir: string)
    ensures forall e | e in WalkEntries(entries, dir, ScanVisitor(ctx, rootPath)) :: Matches(e.name, ctx.appName, ctx.bundleID)
    decreases entries
  {
    if |entries| > 0 {
      WalkEntrySound(ctx, rootPath, entries[0], JoinPath(dir, entries[0].name));
      WalkEntriesSound(ctx, rootPath, entries[1..], dir);
    }
  }

  /** `findMatchesWalk`: what `filepath.WalkDir` sends from one root. A missing root sends nothing, and every
      path sent has a name `isMatch` accepts. */
  function FindMatchesWalk(rootPath: string, root: Option<Node>, ctx: ScanContext): (sent: seq<Emission>)
    ensures root.None? ==> sent == []
    ensures forall e | e in sent :: Matches(e.name, ctx.appName, ctx.bundleID)
  {
    if root.Some? then WalkEntrySound(ctx, rootPath, root.value, rootPath); WalkDir(rootPath, root, ScanVisitor(ctx, rootPath))
    else []
  }

  /** A symlink in a listing hides itself and every entry after it: `SkipDir` from a non-directory makes
      `WalkDir` abandon the rest of the parent's listing. */
  lemma SymlinkCutsListing(ctx: ScanContext, rootPath: string, a: seq<Node>, s: string, b: seq<Node>, dir: string)
    requires forall i :: 0 <= i < |a| ==> !a[i].Symlink?
    ensures var visit := ScanVisitor(ctx, rootPath);
      WalkEntries(a + [Symlink(s)] + b, dir, visit) == WalkEntries(a, dir, visit)
  {
    var visit := ScanVisitor(ctx, rootPath);
    forall i | 0 <= i < |a|
      ensures !WalkEntry(a[i], JoinPath(dir, a[i].name), visit).skipRest
    {
      assert visit(a[i], JoinPath(dir, a[i].name)) == HandleScan(ctx, rootPath, a[i], JoinPath(dir, a[i].name));
    }
    assert visit(Symlink(s), JoinPath(dir, s)) == HandleScan(ctx, rootPath, Symlink(s), JoinPath(dir, s));
    WalkEntriesCut(a, Symlink(s), b, dir, visit);
    assert WalkEntries(a, dir, visit) + [] == WalkEntries(a, dir, visit);
  }

  /** A matching directory is sent and its listing is still walked after it. */
  lemma MatchedDirDescended(ctx: ScanContext, rootPath: string, name: string, children: seq<Node>, path: string)
    requires Matches(name, ctx.appName, ctx.bundleID)
    ensures var visit := ScanVisitor(ctx, rootPath);
      WalkEntry(Dir(name, children), path, visit).emitted
      == [Emission(name, path, false)] + WalkEntries(children, path, visit)
  {
    var visit := ScanVisitor(ctx, rootPath);
    assert visit(Dir(name, children), path) == HandleScan(ctx, rootPath, Dir(name, children), path);
  }

  /** With the standard depth, a matching directory below the root and a matching file inside it are both sent. */
  lemma NestedMatchesSent(ctx: ScanContext, rootPath: string, r: string, d: string, x: string)
    requires ctx.searchDepth == Catalog.STANDARD_DEPTH && '/' !in d
    requires !Matches(r, ctx.appName, ctx.bundleID)
    requires Matches(d, ctx.appName, ctx.bundleID) && Matches(x, ctx.appName, ctx.bundleID)
    ensures FindMatchesWalk(rootPath, Some(Dir(r, [Dir(d, [File(x)])])), ctx)
         == [Emission(d, rootPath + "/" + d, false), Emission(x, rootPath + "/" + d + "/" + x, false)]
  {
    var visit := ScanVisitor(ctx, rootPath);
    var inner := Dir(d, [File(x)]);
    var dp := JoinPath(rootPath, d);
    var xp := JoinPath(dp, x);
    HandleScanPrunes(ctx, rootPath, Dir(r, [inner]), []);
    assert visit(Dir(r, [inner]), rootPath) == Visit([], Continue);
    MatchedDirDescended(ctx, rootPath, d, [File(x)], dp);
    assert visit(File(x), xp) == Visit([Emission(x, xp, false)], Continue);
    assert WalkEntries([File(x)], dp, visit) == [Emission(x, xp, false)];
    assert WalkEntry(inner, dp, visit) == Walked([Emission(d, dp, false), Emission(x, xp, false)], false);
    assert WalkEntries([inner], rootPath, visit) == [Emission(d, dp, false), Emission(x, xp, false)];
  }

  /** The walk opens every directory on the route from `n`, `d` names below the root, and reaches each next
      entry: every directory on the way matches or lies within the search depth, and no symlink comes before
      the next entry in any listing on the way. */
  predicate Reaches(ctx: ScanContext, n: Node, d: nat, route: seq<int>)
    requires IsRoute(n, route)
    decreases |route|
  {
    |route| == 0
    || ((Matches(n.name, ctx.appName, ctx.bundleID) || (1 <= ctx.searchDepth && d <= ctx.searchDepth))
        && (forall j :: 0 <= j < route[0] ==> !n.children[j].Symlink?)
        && Reaches(ctx, n.children[route[0]], d + 1, route[1..]))
  }

  /** The walk of an entry reached through `segs` sends every matching file or directory the route from it
      reaches. */
  lemma {:induction false} WalkEntryComplete(ctx: ScanContext, rootPath: string, n: Node, segs: seq<string>, route: seq<int>)
    requires Scanner.WellNamed(n) && forall s | s in segs :: '/' !in s
    requires IsRoute(n, route) && Reaches(ctx, n, |segs|, route)
    requires var t := RouteEnd(n, route); (t.File? || IsDir(t)) && Matches(t.name, ctx.appName, ctx.bundleID)
    ensures var t := RouteEnd(n, route);
      Emission(t.name, Scanner.PathBelow(rootPath, segs + RouteNames(n, route)), false)
        in WalkEntry(n, Scanner.PathBelow(rootPath, segs), ScanVisitor(ctx, rootPath)).emitted
    decreases |route|
  {
    if |route| == 0 {
      assert segs + RouteNames(n, route) == segs;
      MatchSent(ctx, rootPath, n, Scanner.PathBelow(rootPath, segs));
    } else {
      var c := n.children[route[0]];
      var rest := route[1..];
      assert RouteEnd(n, route) == RouteEnd(c, rest);
      assert RouteNames(n, route) == [c.name] + RouteNames(c, rest);
      var t := RouteEnd(c, rest);
      var below := segs + [c.name];
      var names := below + RouteNames(c, rest);
      assert segs + RouteNames(n, route) == names;
      var e := Emission(t.name, Scanner.PathBelow(rootPath, names), false);
      assert e in WalkEntry(c, Scanner.PathBelow(rootPath, below), ScanVisitor(ctx, rootPath)).emitted by {
        assert forall s | s in below :: '/' !in s;
        WalkEntryComplete(ctx, rootPath, c, below, rest);
      }
      Scanner.PathBelowChild(rootPath, segs, c.name);
      ChildSent(ctx, rootPath, n, segs, route[0], e);
    }
  }

  /** A matching file or directory is sent by its own visit. */
  lemma MatchSent(ctx: ScanContext, rootPath: string, n: Node, path: string)
    requires (n.File? || IsDir(n)) && Matches(n.name, ctx.appName, ctx.bundleID)
    ensures Emission(n.name, path, false) in WalkEntry(n, path, ScanVisitor(ctx, rootPath)).emitted
  {
    var v := HandleScan(ctx, rootPath, n, path);
    assert ScanVisitor(ctx, rootPath)(n, path) == v;
    assert v.emitted[0] in v.emitted;
  }

  /** What a child sends, the walk of an opened directory sends, when no symlink comes before the child. */
  lemma ChildSent(ctx: ScanContext, rootPath: string, n: Node, segs: seq<string>, i: int, e: Emission)
    requires n.Dir? && forall s | s in segs :: '/' !in s
    requires Matches(n.name, ctx.appName, ctx.bundleID) || (1 <= ctx.searchDepth && |segs| <= ctx.searchDepth)
    requires 0 <= i < |n.children| && forall j :: 0 <= j < i ==> !n.children[j].Symlink?
    requires var path := Scanner.PathBelow(rootPath, segs);
      e in WalkEntry(n.children[i], JoinPath(path, n.children[i].name), ScanVisitor(ctx, rootPath)).emitted
    ensures e in WalkEntry(n, Scanner.PathBelow(rootPath, segs), ScanVisitor(ctx, rootPath)).emitted
  {
    var visit := ScanVisitor(ctx, rootPath);
    var path := Scanner.PathBelow(rootPath, segs);
    HandleScanPrunes(ctx, rootPath, n, segs);
    assert visit(n, path) == HandleScan(ctx, rootPath, n, path);
    Scanner.WalkDescends(n, path, visit);
    var a := n.children[..i];
    forall j | 0 <= j < |a|
      ensures !WalkEntry(a[j], JoinPath(path, a[j].name), visit).skipRest
    {
      assert visit(a[j], JoinPath(path, a[j].name)) == HandleScan(ctx, rootPath, a[j], JoinPath(path, a[j].name));
    }
    EntryEmissionsInListing(n.children, i, path, visit, e);
  }

  /** Completeness of `findMatchesWalk`: every matching file or directory the walk reaches from the root is
      sent with its path. */
  lemma WalkComplete(ctx: ScanContext, rootPath: string, root: Node, route: seq<int>)
    requires Scanner.WellNamed(root) && IsRoute(root, route) && Reaches(ctx, root, 0, route)
    requires var t := RouteEnd(root, route); (t.File? || IsDir(t)) && Matches(t.name, ctx.appName, ctx.bundleID)
    ensures var t := RouteEnd(root, route);
      Emission(t.name, Scanner.PathBelow(rootPath, RouteNames(root, route)), false)
        in FindMatchesWalk(rootPath, Some(root), ctx)
  {
    WalkEntryComplete(ctx, rootPath, root, [], route);
    assert [] + RouteNames(root, route) == RouteNames(root, route);
  }

  /** The bundles `findMatchesApp` sends from a listing: the paths of its matching directories, in order. */
  function AppBundles(rootPath: string, listing: seq<Node>, ctx: ScanContext): (paths: seq<string>)
    ensures forall i :: 0 <= i < |listing| && IsDir(listing[i]) && Matches(listing[i].name, ctx.appName, ctx.bundleID)
              ==> JoinPath(rootPath, listing[i].name) in paths
    ensures forall p | p in paths ::
              (exists i :: 0 <= i < |listing| && IsDir(listing[i])
                 && Matches(listing[i].name, ctx.appName, ctx.bundleID) && p == JoinPath(rootPath, listing[i].name))
    ensures |paths| <= |listing|
  {
    if |listing| == 0 then []
    else
      var prefix := listing[..|listing| - 1];
      var rest := AppBundles(rootPath, prefix, ctx);
      assert forall i :: 0 <= i < |prefix| ==> listing[i] == prefix[i];
      var e := listing[|listing| - 1];
      if IsDir(e) && Matches(e.name, ctx.appName, ctx.bundleID) then rest + [JoinPath(rootPath, e.name)] else rest
  }

  /** `findMatchesApp`: one pass over the root's listing, sending each matching directory; a root that
      cannot be listed sends nothing. */
  method FindMatchesApp(rootPath: string, root: Option<Node>, ctx: ScanContext) returns (sent: seq<string>)
    ensures ReadDir(root).None? ==> sent == []
    ensures ReadDir(root).Some? ==> sent == AppBundles(rootPath, ReadDir(root).value, ctx)
  {
    sent := [];
    var entries := ReadDir(root);
    if entries.Some? {
      var es := entries.value;
      for i := 0 to |es|
        invariant sent == AppBundles(rootPath, es[..i], ctx)
      {
        assert es[..i + 1][..i] == es[..i];
        var e := es[i];
        if IsDir(e) {
          var hit := IsMatch(e.name, ctx.appName, ctx.bundleID);
          if hit {
            sent := sent + [JoinPath(rootPath, e.name)];
          }
        }
      }
      assert es[..|es|] == es;
    }
  }

  /** The context the goroutine for one root builds, with its own local depth. */
  function RootContext(r: Catalog.SearchRoots, appName: string, bundleID: string, rootPath: string): ScanContext
  {
    ScanContext(appName, bundleID, Matcher.GetDomainHint(bundleID), Catalog.SearchDepthFor(r, rootPath))
  }

  /** What the goroutine for one root sends. */
  function RootScan(r: Catalog.SearchRoots, disk: Disk, appName: string, bundleID: string, rootPath: string): seq<string>
  {
    var ctx := RootContext(r, appName, bundleID, rootPath);
    var root := Lookup(disk, rootPath);
    if Catalog.IsApplicationsRoot(r, rootPath) then
      (if ReadDir(root).Some? then AppBundles(rootPath, ReadDir(root).value, ctx) else [])
    else Finder.Paths(FindMatchesWalk(rootPath, root, ctx))
  }

  function ScanOf(r: Catalog.SearchRoots, disk: Disk, appName: string, bundleID: string): string -> seq<string>
  {
    rootPath => RootScan(r, disk, appName, bundleID, rootPath)
  }

  /** The body of the goroutine for one root: the depth is a local of the goroutine, so no scan sees another
      root's depth. */
  method ScanRoot(r: Catalog.SearchRoots, disk: Disk, appName: string, bundleID: string, rootPath: string)
    returns (sent: seq<string>)
    ensures sent == RootScan(r, disk, appName, bundleID, rootPath)
  {
    var searchDepth := Catalog.STANDARD_DEPTH;
    if rootPath == r.user.preferences {
      searchDepth := Catalog.PREFERENCES_DEPTH;
    }
    var ctx := ScanContext(appName, bundleID, Matcher.GetDomainHint(bundleID), searchDepth);
    if rootPath == r.osMain.rootApplications || rootPath == r.osMain.userApplications {
      sent := FindMatchesApp(rootPath, Lookup(disk, rootPath), ctx);
      return;
    }
    var emitted := FindMatchesWalk(rootPath, Lookup(disk, rootPath), ctx);
    sent := Finder.Send(emitted);
  }

  /** The preferences root is walked two levels deep and every other root one level. */
  lemma RootDepths(user: string, rootPath: string)
    ensures var r := NewSearchRoots(user);
      RootContext(r, "", "", rootPath).searchDepth
      == if rootPath == "/Users/" + user + "/Library/Preferences" then 2 else 1
  {
  }

  /** A match found under `/Library/Application Support` is collected twice, because the root is scanned twice. */
  lemma SupportFilesCollectedTwice(user: string, disk: Disk, appName: string, bundleID: string, p: string)
    requires p in RootScan(NewSearchRoots(user), disk, appName, bundleID, "/Library/Application Support")
    ensures var r := NewSearchRoots(user);
      multiset(Finder.Gather(ScanOf(r, disk, appName, bundleID), AllSearchPaths(r)))[p] >= 2
  {
    var r := NewSearchRoots(user);
    var scan := ScanOf(r, disk, appName, bundleID);
    AllSearchPathsLayout(user);
    assert scan("/Library/Application Support") == RootScan(r, disk, appName, bundleID, "/Library/Application Support");
    Finder.RepeatedRootCollectedTwice(scan, AllSearchPaths(r), 2, 5, p);
  }

  /** One printed row of the peek listing. */
  datatype PeekLine = PeekLine(path: string, size: int, printLine: string)

  /** What the peek listing prints: the count announced first, one row per match in match order, the column
      width and the total. */
  datatype PeekSummary = PeekSummary(appName: string, numFiles: int, lines: seq<PeekLine>, maxLineWidth: nat, totalSize: int)

  /** Every match can be `os.Stat`ed. */
  predicate AllStat(statSize: string -> Option<int>, matches: seq<string>)
  {
    forall i :: 0 <= i < |matches| ==> statSize(matches[i]).Some?
  }

  /** The sum of the `Stat` sizes of the matches (a failed `Stat` adds nothing). */
  function StatTotal(statSize: string -> Option<int>, matches: seq<string>): int
  {
    if |matches| == 0 then 0
    else
      var s := statSize(matches[|matches| - 1]);
      StatTotal(statSize, matches[..|matches| - 1]) + (if s.Some? then s.value else 0)
  }

  /** The sum of the disk usage of the matches. */
  function UsageTotal(disk: Disk, matches: seq<string>): int
  {
    if |matches| == 0 then 0 else UsageTotal(disk, matches[..|matches| - 1]) + disk.diskUsage(matches[|matches| - 1])
  }

  /** The row of one match: the application's name, not the matched entry's, stands in its line. */
  function LineOf(disk: Disk, appName: string, path: string): PeekLine
  {
    PeekLine(path, disk.diskUsage(path), Report.ColouredLine(appName, path, false))
  }

  function LinesOf(disk: Disk, appName: string, matches: seq<string>): (lines: seq<PeekLine>)
    ensures |lines| == |matches|
  {
    if |matches| == 0 then []
    else LinesOf(disk, appName, matches[..|matches| - 1]) + [LineOf(disk, appName, matches[|matches| - 1])]
  }

  /** The i-th row is the row of the i-th match. */
  lemma {:induction false} LinesOfIndex(disk: Disk, appName: string, matches: seq<string>, i: int)
    requires 0 <= i < |matches|
    ensures LinesOf(disk, appName, matches)[i] == LineOf(disk, appName, matches[i])
    decreases |matches|
  {
    if i < |matches| - 1 {
      var prefix := matches[..|matches| - 1];
      LinesOfIndex(disk, appName, prefix, i);
      assert matches[i] == prefix[i];
    }
  }

  /** The byte width of the uncoloured line of a match. */
  function WidthOf(appName: string, path: string): nat
  {
    Report.ByteLen(Report.PlainLine(appName, path, false))
  }

  /** The widest uncoloured line, 0 for no matches. */
  function MaxWidth(appName: string, matches: seq<string>): nat
  {
    if |matches| == 0 then 0
    else
      var w0 := MaxWidth(appName, matches[..|matches| - 1]);
      var last := WidthOf(appName, matches[|matches| - 1]);
      if last > w0 then last else w0
  }

  /** The width kept is that of the widest plain line: no line is wider, and some line is exactly as wide. */
  lemma {:induction false} MaxWidthBounds(appName: string, matches: seq<string>)
    ensures var w := MaxWidth(appName, matches);
      (forall i :: 0 <= i < |matches| ==> WidthOf(appName, matches[i]) <= w)
      && (|matches| > 0 ==> exists i :: 0 <= i < |matches| && WidthOf(appName, matches[i]) == w)
      && (|matches| == 0 ==> w == 0)
    decreases |matches|
  {
    if |matches| > 0 {
      var prefix := matches[..|matches| - 1];
      MaxWidthBounds(appName, prefix);
      assert forall i :: 0 <= i < |prefix| ==> matches[i] == prefix[i];
      if MaxWidth(appName, matches) != WidthOf(appName, matches[|matches| - 1]) {
        var j :| 0 <= j < |prefix| && WidthOf(appName, prefix[j]) == MaxWidth(appName, prefix);
        assert WidthOf(appName, matches[j]) == MaxWidth(appName, matches);
      }
    }
  }

  /** One more match adds its disk usage to the total, its row to the rows and its width to the maximum. */
  lemma PeekStep(disk: Disk, matches: seq<string>, appName: string, k: int)
    requires 0 <= k < |matches|
    ensures UsageTotal(disk, matches[..k + 1]) == UsageTotal(disk, matches[..k]) + disk.diskUsage(matches[k])
    ensures LinesOf(disk, appName, matches[..k + 1]) == LinesOf(disk, appName, matches[..k]) + [LineOf(disk, appName, matches[k])]
    ensures var w0, w := MaxWidth(appName, matches[..k]), WidthOf(appName, matches[k]);
      MaxWidth(appName, matches[..k + 1]) == if w > w0 then w else w0
  {
    var next := matches[..k + 1];
    assert next[..|next| - 1] == matches[..k] && next[|next| - 1] == matches[k];
  }

  /** The listing `handlePeek` prints as written: the total adds the `Stat` sizes from the first pass to the
      disk usage from the second. */
  function PeekOf(statSize: string -> Option<int>, disk: Disk, matches: seq<string>, appName: string): PeekSummary
  {
    PeekSummary(appName, |matches|, LinesOf(disk, appName, matches), MaxWidth(appName, matches),
                StatTotal(statSize, matches) + UsageTotal(disk, matches))
  }

  /** `handlePeek`: a first pass `Stat`s every match and gives up, printing nothing, at the first failure; in
      peek mode a second pass measures each match's disk usage and builds its row. The answer is always the
      peek flag. */
  method HandlePeek(statSize: string -> Option<int>, disk: Disk, matches: seq<string>, opts: ResolverOptions, appName: string)
    returns (peeked: bool, report: Option<PeekSummary>)
    ensures peeked == opts.peek
    ensures report.Some? <==> opts.peek && AllStat(statSize, matches)
    ensures report.Some? ==> report.value == PeekOf(statSize, disk, matches, appName)
  {
    var totalSize := 0;
    var numFiles := 0;
    for k := 0 to |matches|
      invariant AllStat(statSize, matches[..k])
      invariant totalSize == StatTotal(statSize, matches[..k]) && numFiles == k
    {
      var info := statSize(matches[k]);
      if info.None? {
        assert !AllStat(statSize, matches) by {
          assert !statSize(matches[k]).Some?;
        }
        return opts.peek, None;
      }
      totalSize := totalSize + info.value;
      numFiles := numFiles + 1;
      assert matches[..k + 1][..k] == matches[..k];
    }
    assert matches[..|matches|] == matches;
    if !opts.peek {
      return false, None;
    }
    var found := numFiles;
    var lines: seq<PeekLine> := [];
    var maxLineWidth := 0;
    for k := 0 to |matches|
      invariant totalSize == StatTotal(statSize, matches) + UsageTotal(disk, matches[..k])
      invariant numFiles == |matches| + k
      invariant lines == LinesOf(disk, appName, matches[..k])
      invariant maxLineWidth == MaxWidth(appName, matches[..k])
    {
      var path := matches[k];
      var size := disk.diskUsage(path);
      totalSize := totalSize + size;
      numFiles := numFiles + 1;
      var printLine := Report.ColouredLine(appName, path, false);
      var printLineStripped := Report.PlainLine(appName, path, false);
      if Report.ByteLen(printLineStripped) > maxLineWidth {
        maxLineWidth := Report.ByteLen(printLineStripped);
      }
      lines := lines + [PeekLine(path, size, printLine)];
      PeekStep(disk, matches, appName, k);
    }
    assert matches[..|matches|] == matches;
    return true, Some(PeekSummary(appName, found, lines, maxLineWidth, totalSize));
  }

  /** The spaces printed after a row: the widest line's width less the row's uncoloured width. */
  function Padding(maxLineWidth: nat, line: PeekLine): int
  {
    maxLineWidth - Report.ByteLen(StripColor(line.printLine))
  }

  /** The listing has one row per match in match order and announces as many files as there are matches;
      every row's padding is non-negative and brings it to exactly the widest line's width, and the widest
      row gets no padding, when the name and the paths hold no escape character. */
  lemma PeekShape(statSize: string -> Option<int>, disk: Disk, matches: seq<string>, appName: string)
    requires ESC !in appName && forall i :: 0 <= i < |matches| ==> ESC !in matches[i]
    ensures var s := PeekOf(statSize, disk, matches, appName);
      s.numFiles == |s.lines| == |matches|
      && (forall i :: 0 <= i < |matches| ==> s.lines[i].path == matches[i])
      && (forall i :: 0 <= i < |matches| ==>
            0 <= Padding(s.maxLineWidth, s.lines[i])
            && Report.ByteLen(StripColor(s.lines[i].printLine)) + Padding(s.maxLineWidth, s.lines[i]) == s.maxLineWidth)
      && (|matches| > 0 ==> exists i :: 0 <= i < |matches| && Padding(s.maxLineWidth, s.lines[i]) == 0)
  {
    var s := PeekOf(statSize, disk, matches, appName);
    MaxWidthBounds(appName, matches);
    forall i | 0 <= i < |matches|
      ensures s.lines[i].path == matches[i]
      ensures Padding(s.maxLineWidth, s.lines[i]) == s.maxLineWidth - WidthOf(appName, matches[i])
    {
      LinesOfIndex(disk, appName, matches, i);
      Report.StripColouredLine(appName, matches[i], false);
    }
    if |matches| > 0 {
      var j :| 0 <= j < |matches| && WidthOf(appName, matches[j]) == s.maxLineWidth;
      assert Padding(s.maxLineWidth, s.lines[j]) == 0;
    }
  }

  /** The total counts each match twice over: one match with a `Stat` size of `s` and a disk usage of `u`
      is reported as `s + u` bytes, not `u`. */
  lemma TotalCountsStatAndUsage(statSize: string -> Option<int>, disk: Disk, m: string, appName: string)
    requires statSize(m).Some?
    ensures PeekOf(statSize, disk, [m], appName).totalSize == statSize(m).value + disk.diskUsage(m)
    ensures statSize(m).value != 0 ==> PeekOf(statSize, disk, [m], appName).totalSize != UsageTotal(disk, [m])
  {
    assert [m][..0] == [];
    assert StatTotal(statSize, [m]) == statSize(m).value;
    assert UsageTotal(disk, [m]) == disk.diskUsage(m);
  }

  /** `FindMatches` of the older package: every root scanned once, each sent path appended, then `handlePeek`. */
  method FindMatches(r: Catalog.SearchRoots, disk: Disk, statSize: string -> Option<int>, appName: string, bundleID: string, opts: ResolverOptions)
    returns (matches: seq<string>, peeked: bool, report: Option<PeekSummary>)
    ensures matches == Finder.Gather(ScanOf(r, disk, appName, bundleID), AllSearchPaths(r))
    ensures peeked == opts.peek
    ensures report.Some? <==> opts.peek && AllStat(statSize, matches)
    ensures report.Some? ==> report.value == PeekOf(statSize, disk, matches, appName)
  {
    matches := [];
    var scan := ScanOf(r, disk, appName, bundleID);
    var rootPaths := AllSearchPaths(r);
    for k := 0 to |rootPaths|
      invariant matches == Finder.Gather(scan, rootPaths[..k])
    {
      var sent := ScanRoot(r, disk, appName, bundleID, rootPaths[k]);
      assert sent == scan(rootPaths[k]);
      matches := matches + sent;
      assert rootPaths[..k + 1][..k] == rootPaths[..k];
    }
    assert rootPaths[..|rootPaths|] == rootPaths;
    peeked, report := HandlePeek(statSize, disk, matches, opts, appName);
  }

  /** `NewFinder` of the older package: the path records for `USER`, and exactly the matches `FindMatches` returned. */
  method NewFinder(user: string, disk: Disk, statSize: string -> Option<int>, appName: string, bundleID: string, opts: ResolverOptions)
    returns (f: Finder.Finder, peeked: bool)
    ensures f.roots == NewSearchRoots(user) && f.verbosity == opts.verbosity
    ensures f.matchedPaths == Finder.Gather(ScanOf(f.roots, disk, appName, bundleID), AllSearchPaths(f.roots))
    ensures peeked == opts.peek
  {
    var roots := NewSearchRoots(user);
    var matches, report;
    matches, peeked, report := FindMatches(roots, disk, statSize, appName, bundleID, opts);
    f := Finder.Finder(roots, matches, opts.verbosity);
  }
}
