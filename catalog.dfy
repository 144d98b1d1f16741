/** The search roots of finder/finder.go: the path records the `NewFinder` literal fills from `HOME`, and
    `AllSearchPaths`, the fixed order in which they are scanned. */
module Catalog {

  const STANDARD_DEPTH: int := 1
  const PREFERENCES_DEPTH: int := 2

  /** Where `.app` bundles live. */
  datatype OSMainPaths = OSMainPaths(rootApplications: string, userApplications: string)

  /** Machine-wide support locations. */
  datatype SystemPaths = SystemPaths(
    supportFiles: string,
    crashReports: string,
    caches: string,
    extensions: string,
    internetPlugIns: string,
    launchAgents: string,
    launchDaemons: string,
    logs: string,
    privilegedHelperTools: string,
    receipts: string,
    localBin: string,
    localOpt: string,
    localSbin: string,
    localShare: string,
    localVar: string)

  /** Per-user support locations under `HOME/Library`. */
  datatype UserPaths = UserPaths(
    appSupportFiles: string,
    preferences: string,
    caches: string,
    containers: string,
    savedState: string,
    httpStorages: string,
    groupContainers: string,
    internetPlugIns: string,
    launchAgents: string,
    logs: string,
    webKit: string,
    applicationScripts: string)

  /** The three path records of a `Finder`. */
  datatype SearchRoots = SearchRoots(osMain: OSMainPaths, system: SystemPaths, user: UserPaths)

  const SystemRoots: seq<string> := [
    "/Library/Application Support",
    "/Library/Application Support/CrashReporter",
    "/Library/Caches",
    "/Library/Extensions",
    "/Library/Internet Plug-Ins",
    "/Library/LaunchAgents",
    "/Library/LaunchDaemons",
    "/Library/Logs",
    "/Library/PrivilegedHelperTools",
    "/var/db/receipts",
    "/usr/local/bin",
    "/usr/local/opt",
    "/usr/local/sbin",
    "/usr/local/share",
    "/usr/local/var"]

  const UserSuffixes: seq<string> := [
    "/Library/Application Support",
    "/Library/Preferences",
    "/Library/Caches",
    "/Library/Containers",
    "/Library/Saved Application State",
    "/Library/HTTPStorages",
    "/Library/Group Containers",
    "/Library/Internet Plug-Ins",
    "/Library/LaunchAgents",
    "/Library/Logs",
    "/Library/WebKit",
    "/Library/Application Scripts"]

  /** The path records of the `NewFinder` literal, for the given value of `HOME`. */
  function NewSearchRoots(home: string): SearchRoots
  {
    SearchRoots(
      OSMainPaths("/Applications", home + "/Applications"),
      SystemPaths(
        SystemRoots[0], SystemRoots[1], SystemRoots[2], SystemRoots[3], SystemRoots[4], SystemRoots[5],
        SystemRoots[6], SystemRoots[7], SystemRoots[8], SystemRoots[9], SystemRoots[10], SystemRoots[11],
        SystemRoots[12], SystemRoots[13], SystemRoots[14]),
      UserPaths(
        home + UserSuffixes[0], home + UserSuffixes[1], home + UserSuffixes[2], home + UserSuffixes[3],
        home + UserSuffixes[4], home + UserSuffixes[5], home + UserSuffixes[6], home + UserSuffixes[7],
        home + UserSuffixes[8], home + UserSuffixes[9], home + UserSuffixes[10], home + UserSuffixes[11]))
  }

  /** `AllSearchPaths`: the application roots, then the system roots, then the user roots. */
  function AllSearchPaths(r: SearchRoots): seq<string>
  {
    [r.osMain.rootApplications, r.osMain.userApplications,
     r.system.supportFiles, r.system.crashReports, r.system.caches, r.system.extensions,
     r.system.internetPlugIns, r.system.launchAgents, r.system.launchDaemons, r.system.logs,
     r.system.privilegedHelperTools, r.system.receipts, r.system.localBin, r.system.localOpt,
     r.system.localSbin, r.system.localShare, r.system.localVar,
     r.user.appSupportFiles, r.user.preferences, r.user.caches, r.user.containers,
     r.user.savedState, r.user.httpStorages, r.user.groupContainers, r.user.internetPlugIns,
     r.user.launchAgents, r.user.logs, r.user.webKit, r.user.applicationScripts]
  }

  /** Each user root is `HOME` followed by a fixed suffix. */
  function UserRoots(home: string): (roots: seq<string>)
    ensures |roots| == |UserSuffixes|
    ensures forall i :: 0 <= i < |roots| ==> roots[i] == home + UserSuffixes[i]
  {
    seq(|UserSuffixes|, i requires 0 <= i < |UserSuffixes| => home + UserSuffixes[i])
  }

  /** For every `HOME`, the 29 roots are the two application roots, the 15 constant system roots and the
      12 `HOME`-relative user roots, in that order. */
  lemma AllSearchPathsLayout(home: string)
    ensures AllSearchPaths(NewSearchRoots(home)) == ["/Applications", home + "/Applications"] + SystemRoots + UserRoots(home)
    ensures |AllSearchPaths(NewSearchRoots(home))| == 29
  {
    var all := AllSearchPaths(NewSearchRoots(home));
    assert all == all[..2] + all[2..17] + all[17..];
    SystemRootsLayout(home);
    UserRootsLayout(home);
  }

  /** The third to the seventeenth roots are the constant system roots. */
  lemma SystemRootsLayout(home: string)
    ensures |AllSearchPaths(NewSearchRoots(home))| == 29
    ensures AllSearchPaths(NewSearchRoots(home))[2..17] == SystemRoots
  {
    var all := AllSearchPaths(NewSearchRoots(home));
    forall k | 0 <= k < 15
      ensures all[2 + k] == SystemRoots[k]
    {
      if k < 5 {
        assert k == 0 || k == 1 || k == 2 || k == 3 || k == 4;
      } else if k < 10 {
        assert k == 5 || k == 6 || k == 7 || k == 8 || k == 9;
      } else {
        assert k == 10 || k == 11 || k == 12 || k == 13 || k == 14;
      }
    }
    assert all[2..17] == SystemRoots;
  }

  /** The last twelve roots are the `HOME`-relative user roots. */
  lemma UserRootsLayout(home: string)
    ensures AllSearchPaths(NewSearchRoots(home))[17..] == UserRoots(home)
  {
    var u := UserRoots(home);
    assert u == [u[0], u[1], u[2], u[3], u[4], u[5], u[6], u[7], u[8], u[9], u[10], u[11]];
  }

  /** The depth a root is scanned with: 2 for the user preferences root, 1 for every other root. */
  function SearchDepthFor(r: SearchRoots, rootPath: string): (depth: int)
    ensures depth == PREFERENCES_DEPTH <==> rootPath == r.user.preferences
    ensures depth == STANDARD_DEPTH <==> rootPath != r.user.preferences
  {
    if rootPath == r.user.preferences then PREFERENCES_DEPTH else STANDARD_DEPTH
  }

  /** The two roots that are listed one level deep for `.app` bundles rather than walked. */
  predicate IsApplicationsRoot(r: SearchRoots, rootPath: string)
  {
    rootPath == r.osMain.rootApplications || rootPath == r.osMain.userApplications
  }

  /** Exactly the first two of the 29 roots are application roots when `HOME` is a real home directory
      (any non-empty value). With `HOME` empty the user application root is `/Applications` again. */
  lemma ApplicationsRootsAreFirstTwo(home: string)
    requires home != ""
    ensures var r := NewSearchRoots(home); var roots := AllSearchPaths(r);
      forall i :: 0 <= i < |roots| ==> (IsApplicationsRoot(r, roots[i]) <==> i < 2)
  {
    var r := NewSearchRoots(home);
    var roots := AllSearchPaths(r);
    forall i | 2 <= i < |roots|
      ensures !IsApplicationsRoot(r, roots[i])
    {
      if i < 17 {
        SystemRootNotHomeApplications(roots[i], home);
      } else {
        assert roots[i] == home + UserSuffixes[i - 17];
        UserRootNotApplications(home, UserSuffixes[i - 17]);
      }
    }
  }

  /** No constant system root has the shape `HOME/Applications`. */
  lemma SystemRootNotHomeApplications(root: string, home: string)
    requires root in SystemRoots
    ensures root != home + "/Applications" && root != "/Applications"
  {
    var t := home + "/Applications";
    assert EndsLikeApplications(t) by {
      assert t[|t| - 13..] == "/Applications";
    }
    assert EndsLikeApplications("/Applications");
    SystemRootsEndOtherwise();
    assert !EndsLikeApplications(root);
  }

  /** The slash, the `A` and the final `s` of a tail `/Applications`. */
  predicate EndsLikeApplications(s: string)
  {
    |s| >= 13 && s[|s| - 13] == '/' && s[|s| - 12] == 'A' && s[|s| - 1] == 's'
  }

  /** No system root ends like `/Applications`. */
  lemma SystemRootsEndOtherwise()
    ensures forall r | r in SystemRoots :: !EndsLikeApplications(r)
  {
    forall i | 0 <= i < |SystemRoots|
      ensures !EndsLikeApplications(SystemRoots[i])
    {
    }
  }

  /** A user root is neither `/Applications` nor `HOME/Applications`. */
  lemma UserRootNotApplications(home: string, suffix: string)
    requires home != "" && suffix in UserSuffixes
    ensures home + suffix != home + "/Applications" && home + suffix != "/Applications"
  {
    assert (home + suffix)[|home|..] == suffix;
    assert (home + "/Applications")[|home|..] == "/Applications";
    assert |suffix| >= 13;
  }

  /** With `HOME` unset the two application roots coincide, so `/Applications` is listed twice. */
  lemma EmptyHomeRepeatsApplications()
    ensures var roots := AllSearchPaths(NewSearchRoots("")); roots[0] == roots[1] == "/Applications"
  {
  }
}
