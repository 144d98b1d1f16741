/** finder/finder.go: `FindMatches`, which scans every root with its own context and collects what the
    scans send, and `NewFinder`, which keeps the result. The goroutines and the channel become a loop
    over the roots; the order in which the scans' sends arrive is left open, so what the model promises
    about the collected matches is stated on their multiset. */
module Finder {
  import opened Wrappers
  import opened Options
  import opened Catalog
  import opened FileSystem
  import opened Matcher
  import opened Scanner
  import opened Report

  /** `Finder` with its path records, the collected matches and the verbosity flag. */
  datatype Finder = Finder(roots: SearchRoots, matchedPaths: seq<string>, verbosity: bool)

  /** The `ScanContext` built for one root: the domain hint of the bundle identifier and the root's depth. */
  function RootContext(r: SearchRoots, appName: string, bundleID: string, rootPath: string): ScanContext
  {
    ScanContext(appName, bundleID, GetDomainHint(bundleID), SearchDepthFor(r, rootPath), rootPath)
  }

  /** The paths of the walk's matches, in the order they were sent. */
  function Paths(sent: seq<Emission>): (paths: seq<string>)
    ensures |paths| == |sent|
    ensures forall i :: 0 <= i < |sent| ==> paths[i] == sent[i].path
  {
    seq(|sent|, i requires 0 <= i < |sent| => sent[i].path)
  }

  /** What the goroutine for one root sends: `FindApp` on an application root, `FindAppFiles` on any other. */
  function RootScan(r: SearchRoots, disk: Disk, appName: string, bundleID: string, rootPath: string): seq<string>
  {
    var ctx := RootContext(r, appName, bundleID, rootPath);
    if IsApplicationsRoot(r, rootPath) then AppsFound(r, rootPath, Lookup(disk, rootPath), ctx)
    else Paths(FindAppFiles(r, rootPath, Lookup(disk, rootPath), ctx))
  }

  /** Everything the scans of the given roots send, root after root, for a scan given as a function of the root. */
  function Gather(scan: string -> seq<string>, rootPaths: seq<string>): seq<string>
  {
    if |rootPaths| == 0 then [] else Gather(scan, rootPaths[..|rootPaths| - 1]) + scan(rootPaths[|rootPaths| - 1])
  }

  /** The scan of each root, as `FindMatches` runs it. */
  function ScanOf(r: SearchRoots, disk: Disk, appName: string, bundleID: string): string -> seq<string>
  {
    rootPath => RootScan(r, disk, appName, bundleID, rootPath)
  }

  /** The body of the goroutine for one root. */
  method ScanRoot(r: SearchRoots, disk: Disk, appName: string, bundleID: string, rootPath: string) returns (sent: seq<string>)
    ensures sent == RootScan(r, disk, appName, bundleID, rootPath)
  {
    var searchDepth := if rootPath == r.user.preferences then PREFERENCES_DEPTH else STANDARD_DEPTH;
    var ctx := ScanContext(appName, bundleID, GetDomainHint(bundleID), searchDepth, rootPath);
    if rootPath == r.osMain.rootApplications || rootPath == r.osMain.userApplications {
      sent := FindApp(r, rootPath, Lookup(disk, rootPath), ctx);
    } else {
      var emitted := FindAppFiles(r, rootPath, Lookup(disk, rootPath), ctx);
      sent := Send(emitted);
    }
  }

  /** The walk's matches sent on the channel one by one, as the callback finds them: their paths in order. */
  method Send(emitted: seq<Emission>) returns (sent: seq<string>)
    ensures sent == Paths(emitted)
  {
    sent := [];
    for j := 0 to |emitted|
      invariant sent == Paths(emitted[..j])
    {
      sent := sent + [emitted[j].path];
    }
    assert emitted[..|emitted|] == emitted;
  }

  /** `FindMatches`: every root scanned once, each sent path appended as it is received, then the peek
      report when `--peek` is set. The error `FindMatches` returns is always nil and is not modelled. */
  method FindMatches(r: SearchRoots, disk: Disk, appName: string, bundleID: string, opts: Options)
    returns (matches: seq<string>, report: Option<PeekReport>)
    ensures matches == Gather(ScanOf(r, disk, appName, bundleID), AllSearchPaths(r))
    ensures report.Some? <==> opts.peek
    ensures report.Some? ==> report.value == PeekReportOf(disk, matches, appName, opts)
  {
    matches := CollectMatches(r, disk, appName, bundleID, AllSearchPaths(r));
    if opts.peek {
      var rep := GeneratePeekReport(disk, matches, appName, opts);
      report := Some(rep);
    } else {
      report := None;
    }
  }

  /** The goroutines started for the given roots and the receiving loop: each root's sends appended in turn. */
  method CollectMatches(r: SearchRoots, disk: Disk, appName: string, bundleID: string, rootPaths: seq<string>)
    returns (matches: seq<string>)
    ensures matches == Gather(ScanOf(r, disk, appName, bundleID), rootPaths)
  {
    matches := [];
    ghost var scan := ScanOf(r, disk, appName, bundleID);
    for k := 0 to |rootPaths|
      invariant matches == Gather(scan, rootPaths[..k])
    {
      var sent := ScanRoot(r, disk, appName, bundleID, rootPaths[k]);
      assert sent == scan(rootPaths[k]);
      assert rootPaths[..k + 1][..k] == rootPaths[..k];
      matches := matches + sent;
    }
    assert rootPaths[..|rootPaths|] == rootPaths;
  }

  /** `NewFinder`: the path records for `HOME`, the verbosity flag, and exactly the matches `FindMatches` returned. */
  method NewFinder(home: string, disk: Disk, appName: string, bundleID: string, opts: Options)
    returns (f: Finder, report: Option<PeekReport>)
    ensures f.roots == NewSearchRoots(home) && f.verbosity == opts.verbosity
    ensures f.matchedPaths == Gather(ScanOf(f.roots, disk, appName, bundleID), AllSearchPaths(f.roots))
    ensures report.Some? <==> opts.peek
  {
    var roots := NewSearchRoots(home);
    var matches;
    matches, report := FindMatches(roots, disk, appName, bundleID, opts);
    f := Finder(roots, matches, opts.verbosity);
  }

  /** The sum of the multisets of what each root's scan sends. */
  function SentByEach(scan: string -> seq<string>, rootPaths: seq<string>): multiset<string>
  {
    if |rootPaths| == 0 then multiset{} else SentByEach(scan, rootPaths[..|rootPaths| - 1]) + multiset(scan(rootPaths[|rootPaths| - 1]))
  }

  /** Nothing is dropped or merged: every path sent is collected as often as it is sent, so the collected
      multiset is the sum of the scans' multisets, whatever order their sends arrive in, and there are as
      many matches as sends. */
  lemma {:induction false} GatherIsEverySend(scan: string -> seq<string>, rootPaths: seq<string>)
    ensures multiset(Gather(scan, rootPaths)) == SentByEach(scan, rootPaths)
    ensures |Gather(scan, rootPaths)| == |SentByEach(scan, rootPaths)|
    decreases |rootPaths|
  {
    if |rootPaths| > 0 {
      GatherIsEverySend(scan, rootPaths[..|rootPaths| - 1]);
    }
  }

  /** Collecting from two runs of roots collects the first run's matches, then the second's. */
  lemma {:induction false} GatherAppend(scan: string -> seq<string>, a: seq<string>, b: seq<string>)
    ensures Gather(scan, a + b) == Gather(scan, a) + Gather(scan, b)
    decreases |b|
  {
    if |b| == 0 {
      assert a + b == a;
    } else {
      assert (a + b)[..|a + b| - 1] == a + b[..|b| - 1];
      GatherAppend(scan, a, b[..|b| - 1]);
    }
  }

  /** Taking one root out of a run removes exactly what that root's scan sends. */
  lemma GatherRemove(scan: string -> seq<string>, pre: seq<string>, x: string, post: seq<string>)
    ensures multiset(Gather(scan, pre + [x] + post)) == multiset(Gather(scan, pre + post)) + multiset(scan(x))
  {
    GatherAppend(scan, pre + [x], post);
    GatherAppend(scan, pre, post);
    assert (pre + [x])[..|pre + [x]| - 1] == pre;
    assert Gather(scan, pre + [x]) == Gather(scan, pre) + scan(x);
  }

  /** Taking the last root off one list and the same root off another with the same roots leaves two lists
      with the same roots. */
  lemma RemoveMatching(a: seq<string>, b: seq<string>, i: int)
    requires |a| > 0 && 0 <= i < |b| && b[i] == a[|a| - 1] && multiset(a) == multiset(b)
    ensures multiset(a[..|a| - 1]) == multiset(b[..i] + b[i + 1..])
  {
    var x := b[i];
    assert a == a[..|a| - 1] + [x];
    assert b == b[..i] + [x] + b[i + 1..];
    assert multiset(a[..|a| - 1]) == multiset(a) - multiset{x};
    assert multiset(b[..i] + b[i + 1..]) == multiset(b) - multiset{x};
  }

  /** Scanning the roots in any other order collects the same multiset of paths. */
  lemma {:induction false} GatherOrderFree(scan: string -> seq<string>, a: seq<string>, b: seq<string>)
    requires multiset(a) == multiset(b)
    ensures multiset(Gather(scan, a)) == multiset(Gather(scan, b))
    decreases |a|
  {
    if |a| > 0 {
      var x, a' := a[|a| - 1], a[..|a| - 1];
      assert a == a' + [x];
      assert Gather(scan, a) == Gather(scan, a') + scan(x);
      assert x in multiset(b);
      var i :| 0 <= i < |b| && b[i] == x;
      var pre, post := b[..i], b[i + 1..];
      assert b == pre + [x] + post;
      RemoveMatching(a, b, i);
      GatherOrderFree(scan, a', pre + post);
      GatherRemove(scan, pre, x, post);
    } else {
      assert b == [];
    }
  }

  /** A path one root's scan sends is among the collected matches. */
  lemma {:induction false} GatherContains(scan: string -> seq<string>, rootPaths: seq<string>, i: int, p: string)
    requires 0 <= i < |rootPaths| && p in scan(rootPaths[i])
    ensures p in Gather(scan, rootPaths)
    decreases |rootPaths|
  {
    if i < |rootPaths| - 1 {
      GatherContains(scan, rootPaths[..|rootPaths| - 1], i, p);
    }
  }

  /** A root listed twice is scanned twice, and what it sends is collected twice. */
  lemma RepeatedRootCollectedTwice(scan: string -> seq<string>, rootPaths: seq<string>, i: int, j: int, p: string)
    requires 0 <= i < j < |rootPaths| && rootPaths[i] == rootPaths[j] && p in scan(rootPaths[i])
    ensures multiset(Gather(scan, rootPaths))[p] >= 2
  {
    assert rootPaths == rootPaths[..j] + rootPaths[j..];
    GatherAppend(scan, rootPaths[..j], rootPaths[j..]);
    GatherContains(scan, rootPaths[..j], i, p);
    GatherContains(scan, rootPaths[j..], 0, p);
  }

  /** With `HOME` empty both application roots are `/Applications`, so each matching bundle there is
      scanned and collected twice. */
  lemma EmptyHomeCollectsBundlesTwice(disk: Disk, appName: string, bundleID: string, p: string)
    requires p in RootScan(NewSearchRoots(""), disk, appName, bundleID, "/Applications")
    ensures var r := NewSearchRoots(""); multiset(Gather(ScanOf(r, disk, appName, bundleID), AllSearchPaths(r)))[p] >= 2
  {
    var r := NewSearchRoots("");
    var scan := ScanOf(r, disk, appName, bundleID);
    EmptyHomeRepeatsApplications();
    assert scan("/Applications") == RootScan(r, disk, appName, bundleID, "/Applications");
    RepeatedRootCollectedTwice(scan, AllSearchPaths(r), 0, 1, p);
  }

  /** A path's depth as written: every scan goroutine assigns the one `searchDepth` variable shared by all
      of them and then reads it, so a scan reads whatever the goroutine that wrote last assigned. */
  function RacyDepth(r: SearchRoots, lastWriter: string): int
  {
    if lastWriter == r.user.preferences then PREFERENCES_DEPTH else STANDARD_DEPTH
  }

  /** If another root's goroutine writes between the preferences goroutine's write and its read, the
      preferences root is walked with the standard depth; the per-root depth is 2 there. Conversely, if the
      preferences goroutine writes last, any other root is walked two levels deep; its own depth is 1. */
  lemma PreferencesDepthRace(home: string)
    ensures var r := NewSearchRoots(home);
      RacyDepth(r, r.user.caches) == STANDARD_DEPTH
      && SearchDepthFor(r, r.user.preferences) == PREFERENCES_DEPTH
    ensures var r := NewSearchRoots(home);
      RacyDepth(r, r.user.preferences) == PREFERENCES_DEPTH
      && forall reader | reader != r.user.preferences :: SearchDepthFor(r, reader) == STANDARD_DEPTH
  {
    var r := NewSearchRoots(home);
    assert r.user.caches[|home|..] != r.user.preferences[|home|..];
  }
}
