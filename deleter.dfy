/** deleter/deleter.go: `Delete`, which measures every match, then trashes or removes each one that still
    exists and batches the ones that need elevated rights into a single `osascript` call, and the two
    builders of that call. The per-path goroutines become one loop over the matches in order; the file
    system and the command runner are the `Host` oracles. */
module Deleter {
  import opened Wrappers
  import opened Options
  import opened GoStrings

  /** What `os.Stat` reports for a path. */
  datatype StatResult = Found | NotFound | StatFailed

  /** What `os.RemoveAll` reports: success, an `os.ErrPermission` error, or any other error. */
  datatype RemoveResult = Removed | PermissionDenied | RemoveFailed

  /** The machine the deleter acts on: `os.Stat`, the disk usage, `MoveFileToTrash`, `os.RemoveAll`, and
      whether running a command line succeeds. */
  datatype Host = Host(
    stat: string -> StatResult,
    diskUsage: string -> int,
    moveToTrash: string -> bool,
    removeAll: string -> RemoveResult,
    runOk: seq<string> -> bool)

  /** `Deleter`: the matched paths and the options. */
  datatype Deleter = Deleter(matches: seq<string>, opts: Options)

  /** An action on the machine. */
  datatype Call = MoveToTrash(path: string) | RemoveAll(path: string) | Run(argv: seq<string>)

  /** A message about one path. */
  datatype Line =
    | DoesNotExist(path: string)     // "File … does not exist. Skipping..."
    | StatError(path: string)        // "[rmapp] Error: …"
    | MovedToTrash(path: string)     // "Successfully moved … to Trash"
    | Deleted(path: string)          // "Successfully deleted …"
    | NotDeleted(path: string)       // "[rmapp] ERROR: … could not be deleted"

  /** `exists`: nil when `os.Stat` succeeds, otherwise the message it prints before returning the error. */
  function Exists(host: Host, path: string): (err: Option<Line>)
    ensures err.None? <==> host.stat(path) == Found
  {
    match host.stat(path)
    case Found => None
    case NotFound => Some(DoesNotExist(path))
    case StatFailed => Some(StatError(path))
  }

  /** What the goroutine for one path does: its calls, its messages and whether it queues the path for escalation. */
  datatype Step = Step(calls: seq<Call>, lines: seq<Line>, escalate: bool)

  /** Trash mode: a missing path is skipped; under sudo every existing path is queued untried; otherwise the
      path is moved to the Trash, and queued when that fails. */
  function TrashStep(host: Host, isSudo: bool, path: string): Step
  {
    var err := Exists(host, path);
    if err.Some? then Step([], [err.value], false)
    else if isSudo then Step([], [], true)
    else if host.moveToTrash(path) then Step([MoveToTrash(path)], [MovedToTrash(path)], false)
    else Step([MoveToTrash(path)], [], true)
  }

  /** Force mode: a missing path is skipped; otherwise it is removed, queued on a permission error, and
      reported as not deleted on any other error. */
  function ForceStep(host: Host, path: string): (step: Step)
    ensures Deleted(path) in step.lines <==> host.stat(path) == Found && host.removeAll(path) == Removed
    ensures NotDeleted(path) in step.lines <==> host.stat(path) == Found && host.removeAll(path) == RemoveFailed
    ensures step.escalate <==> host.stat(path) == Found && host.removeAll(path) == PermissionDenied
  {
    var err := Exists(host, path);
    if err.Some? then Step([], [err.value], false)
    else match host.removeAll(path)
      case Removed => Step([RemoveAll(path)], [Deleted(path)], false)
      case PermissionDenied => Step([RemoveAll(path)], [], true)
      case RemoveFailed => Step([RemoveAll(path)], [NotDeleted(path)], false)
  }

  /** Force mode as written: after the "could not be deleted" message the goroutine falls through to the
      success message. */
  function ForceStepAsWritten(host: Host, path: string): Step
  {
    var err := Exists(host, path);
    if err.Some? then Step([], [err.value], false)
    else match host.removeAll(path)
      case Removed => Step([RemoveAll(path)], [Deleted(path)], false)
      case PermissionDenied => Step([RemoveAll(path)], [], true)
      case RemoveFailed => Step([RemoveAll(path)], [NotDeleted(path), Deleted(path)], false)
  }

  /** As written, a path whose removal failed for a reason other than permission is reported both as not
      deleted and as deleted. */
  lemma ForceReportsFailureAsDeleted(host: Host, path: string)
    ensures host.stat(path) == Found && host.removeAll(path) == RemoveFailed
            ==> NotDeleted(path) in ForceStepAsWritten(host, path).lines && Deleted(path) in ForceStepAsWritten(host, path).lines
  {
  }

  function PathStep(host: Host, mode: bool, isSudo: bool, path: string): Step
  {
    if mode then ForceStep(host, path) else TrashStep(host, isSudo, path)
  }

  /** The per-path work over all matches: every call and message, and the paths queued for escalation. */
  datatype Pass = Pass(calls: seq<Call>, lines: seq<Line>, escalated: seq<string>)

  function PassOver(host: Host, mode: bool, isSudo: bool, paths: seq<string>): Pass
  {
    if |paths| == 0 then Pass([], [], [])
    else
      var before := PassOver(host, mode, isSudo, paths[..|paths| - 1]);
      var path := paths[|paths| - 1];
      var step := PathStep(host, mode, isSudo, path);
      Pass(before.calls + step.calls, before.lines + step.lines,
           before.escalated + if step.escalate then [path] else [])
  }

  /** The escalation rule: a path is queued exactly when it is a match that exists and, in force mode, its
      removal was refused for permission, or, in trash mode, the user is under sudo or the unprivileged
      move failed. A path that does not exist is neither trashed, removed nor queued, and the per-path work
      never runs a command. */
  lemma {:induction false} PassProperties(host: Host, mode: bool, isSudo: bool, paths: seq<string>, p: string)
    ensures var pass := PassOver(host, mode, isSudo, paths);
      (p in pass.escalated <==>
         (p in paths && host.stat(p) == Found
          && (if mode then host.removeAll(p) == PermissionDenied else isSudo || !host.moveToTrash(p))))
      && (host.stat(p) != Found ==> MoveToTrash(p) !in pass.calls && RemoveAll(p) !in pass.calls)
      && (forall c | c in pass.calls :: !c.Run?)
      && (!mode && isSudo ==> pass.calls == [])
    decreases |paths|
  {
    if |paths| > 0 {
      var prefix, last := paths[..|paths| - 1], paths[|paths| - 1];
      PassProperties(host, mode, isSudo, prefix, p);
      assert paths == prefix + [last];
      var before, step := PassOver(host, mode, isSudo, prefix), PathStep(host, mode, isSudo, last);
      var pass := PassOver(host, mode, isSudo, paths);
      assert pass.calls == before.calls + step.calls;
      assert pass.escalated == before.escalated + if step.escalate then [last] else [];
      StepProperties(host, mode, isSudo, last);
      assert p in paths <==> p in prefix || p == last;
    }
  }

  /** One path's share of `PassProperties`. */
  lemma StepProperties(host: Host, mode: bool, isSudo: bool, path: string)
    ensures var step := PathStep(host, mode, isSudo, path);
      (step.escalate <==>
         host.stat(path) == Found
         && (if mode then host.removeAll(path) == PermissionDenied else isSudo || !host.moveToTrash(path)))
      && (forall c | c in step.calls :: c == MoveToTrash(path) || c == RemoveAll(path))
      && (host.stat(path) != Found || (!mode && isSudo) ==> step.calls == [])
  {
  }

  /** An AppleScript `POSIX file` reference. */
  function PosixFile(path: string): string
  {
    "POSIX file \"" + path + "\""
  }

  function PosixFiles(paths: seq<string>): (files: seq<string>)
    ensures |files| == |paths| && forall i :: 0 <= i < |paths| ==> files[i] == PosixFile(paths[i])
  {
    seq(|paths|, i requires 0 <= i < |paths| => PosixFile(paths[i]))
  }

  /** The script that has the Finder delete the listed files. */
  function TrashScript(paths: seq<string>): string
  {
    "tell application \"Finder\" to delete {" + Join(PosixFiles(paths), ", ") + "}"
  }

  /** The command line of the privileged trash: run as the invoking user under sudo. */
  function TrashArgv(paths: seq<string>, sudoUser: string): seq<string>
  {
    (if sudoUser != "" then ["sudo", "-u", sudoUser] else []) + ["osascript", "-e", TrashScript(paths)]
  }

  /** A path in single quotes for the shell. */
  function ShellQuoted(path: string): string
  {
    "'" + path + "'"
  }

  function ShellQuotedAll(paths: seq<string>): (quoted: seq<string>)
    ensures |quoted| == |paths| && forall i :: 0 <= i < |paths| ==> quoted[i] == ShellQuoted(paths[i])
  {
    seq(|paths|, i requires 0 <= i < |paths| => ShellQuoted(paths[i]))
  }

  /** The text before the first `q` in `s`; None when `q` does not occur. */
  function TextBefore(s: string, q: char): (r: Option<string>)
    ensures r.Some? ==> |r.value| < |s| && q !in r.value && s[|r.value|] == q && s[..|r.value|] == r.value
    ensures r.None? <==> q !in s
  {
    if |s| == 0 then None
    else if s[0] == q then Some("")
    else
      var r := TextBefore(s[1..], q);
      if r.Some? then Some([s[0]] + r.value) else None
  }

  /** The quoted word at the front of `s` as a reader that stops at the first closing `q` takes it: the text
      between the opening `q` and the next one. */
  function QuotedWord(s: string, q: char): Option<string>
  {
    if |s| > 0 && s[0] == q then TextBefore(s[1..], q) else None
  }

  /** The text before the first `q` of `p + [q] + rest` is `p` exactly when `p` holds no `q`. */
  lemma {:induction false} TextBeforeClosing(p: string, q: char, rest: string)
    ensures TextBefore(p + [q] + rest, q) == Some(p) <==> q !in p
    decreases |p|
  {
    var s := p + [q] + rest;
    if q !in p && |p| > 0 {
      assert s[1..] == p[1..] + [q] + rest;
      TextBeforeClosing(p[1..], q, rest);
      assert [p[0]] + p[1..] == p;
    } else if q !in p {
      assert s[0] == q;
    }
  }

  /** A shell reading the single-quoted word at the front of the quoted path (and whatever follows it) reads
      the path back exactly when the path holds no single quote: a `'` in the path ends the word early. */
  lemma ShellQuotedReadBack(path: string, rest: string)
    ensures QuotedWord(ShellQuoted(path) + rest, '\'') == Some(path) <==> '\'' !in path
  {
    var s := ShellQuoted(path) + rest;
    assert s[1..] == path + ['\''] + rest;
    TextBeforeClosing(path, '\'', rest);
  }

  /** AppleScript reading the string after `POSIX file ` reads the path back when the path holds no double
      quote, and stops early when it does. */
  lemma PosixFileReadBack(path: string, rest: string)
    ensures var s := PosixFile(path) + rest;
      |s| > 11 && s[..11] == "POSIX file " && (QuotedWord(s[11..], '"') == Some(path) <==> '"' !in path)
  {
    var s := PosixFile(path) + rest;
    assert s[..11] == "POSIX file ";
    assert s[11..][1..] == path + ['"'] + rest;
    TextBeforeClosing(path, '"', rest);
  }

  /** The script that removes the listed paths with administrator rights. */
  function DeleteScript(paths: seq<string>): string
  {
    "do shell script \"rm -rf " + Join(ShellQuotedAll(paths), " ") + "\" with administrator privileges"
  }

  function DeleteArgv(paths: seq<string>): seq<string>
  {
    ["osascript", "-e", DeleteScript(paths)]
  }

  /** The privileged call: the command it runs (none for an empty list), its messages, and whether it succeeded. */
  datatype Privileged = Privileged(calls: seq<Call>, lines: seq<Line>, ok: bool)

  /** The messages `Successfully moved … to Trash`, one per path. */
  function TrashedLines(paths: seq<string>): (lines: seq<Line>)
    ensures |lines| == |paths| && forall i :: 0 <= i < |paths| ==> lines[i] == MovedToTrash(paths[i])
  {
    seq(|paths|, i requires 0 <= i < |paths| => MovedToTrash(paths[i]))
  }

  /** The messages `Successfully deleted …`, one per path. */
  function DeletedLines(paths: seq<string>): (lines: seq<Line>)
    ensures |lines| == |paths| && forall i :: 0 <= i < |paths| ==> lines[i] == Deleted(paths[i])
  {
    seq(|paths|, i requires 0 <= i < |paths| => Deleted(paths[i]))
  }

  function PrivilegedTrashOf(host: Host, paths: seq<string>, verbose: bool, sudoUser: string): Privileged
  {
    if |paths| == 0 then Privileged([], [], true)
    else
      var argv := TrashArgv(paths, sudoUser);
      var ok := host.runOk(argv);
      Privileged([Run(argv)], if ok && verbose then TrashedLines(paths) else [], ok)
  }

  function PrivilegedDeleteOf(host: Host, paths: seq<string>, verbose: bool): Privileged
  {
    if |paths| == 0 then Privileged([], [], true)
    else
      var argv := DeleteArgv(paths);
      var ok := host.runOk(argv);
      Privileged([Run(argv)], if ok && verbose then DeletedLines(paths) else [], ok)
  }

  /** `RunPrivilegedTrash`: nothing for an empty list; otherwise the `POSIX file` list built in a loop, one
      `osascript` run, under `sudo -u` when a sudo user is given, and the success messages when verbose. */
  method RunPrivilegedTrash(host: Host, paths: seq<string>, verbose: bool, sudoUser: string) returns (r: Privileged)
    ensures r == PrivilegedTrashOf(host, paths, verbose, sudoUser)
  {
    if |paths| == 0 {
      return Privileged([], [], true);
    }
    var posixFiles: seq<string> := [];
    for i := 0 to |paths|
      invariant posixFiles == PosixFiles(paths[..i])
    {
      posixFiles := posixFiles + [PosixFile(paths[i])];
    }
    assert paths[..|paths|] == paths;
    var appleScript := "tell application \"Finder\" to delete {" + Join(posixFiles, ", ") + "}";
    assert appleScript == TrashScript(paths);
    var argv: seq<string>;
    if sudoUser != "" {
      argv := ["sudo", "-u", sudoUser, "osascript", "-e", appleScript];
      assert argv == ["sudo", "-u", sudoUser] + ["osascript", "-e", appleScript];
    } else {
      argv := ["osascript", "-e", appleScript];
      assert argv == [] + ["osascript", "-e", appleScript];
    }
    assert argv == TrashArgv(paths, sudoUser);
    var ok := host.runOk(argv);
    var lines: seq<Line> := [];
    if ok && verbose {
      for i := 0 to |paths|
        invariant lines == TrashedLines(paths[..i])
      {
        lines := lines + [MovedToTrash(paths[i])];
      }
      assert paths[..|paths|] == paths;
    }
    r := Privileged([Run(argv)], lines, ok);
  }

  /** `RunPrivilegedDelete`: nothing for an empty list; otherwise the quoted paths built in a loop, one
      `osascript` run with administrator privileges, and the success messages when verbose. */
  method RunPrivilegedDelete(host: Host, paths: seq<string>, verbose: bool) returns (r: Privileged)
    ensures r == PrivilegedDeleteOf(host, paths, verbose)
  {
    if |paths| == 0 {
      return Privileged([], [], true);
    }
    var quoted: seq<string> := [];
    for i := 0 to |paths|
      invariant quoted == ShellQuotedAll(paths[..i])
    {
      quoted := quoted + [ShellQuoted(paths[i])];
    }
    assert paths[..|paths|] == paths;
    var joined := Join(quoted, " ");
    var argv := ["osascript", "-e", "do shell script \"rm -rf " + joined + "\" with administrator privileges"];
    var ok := host.runOk(argv);
    var lines: seq<Line> := [];
    if ok && verbose {
      for i := 0 to |paths|
        invariant lines == DeletedLines(paths[..i])
      {
        lines := lines + [Deleted(paths[i])];
      }
      assert paths[..|paths|] == paths;
    }
    r := Privileged([Run(argv)], lines, ok);
  }

  /** The trash script names every queued path as a `POSIX file`, and the command runs under `sudo -u` exactly
      when a sudo user is given. */
  lemma TrashArgvNamesEveryPath(paths: seq<string>, sudoUser: string, i: int)
    requires 0 <= i < |paths|
    ensures var argv := TrashArgv(paths, sudoUser);
      Contains(argv[|argv| - 1], PosixFile(paths[i]))
      && (sudoUser != "" <==> |argv| == 6) && (sudoUser != "" ==> argv[..3] == ["sudo", "-u", sudoUser])
      && argv[|argv| - 3..|argv| - 1] == ["osascript", "-e"]
  {
    var files := PosixFiles(paths);
    JoinContains(files, ", ", i);
    ContainsExtend("tell application \"Finder\" to delete {", Join(files, ", "), "}", PosixFile(paths[i]));
  }

  /** The delete script names every queued path in single quotes after `rm -rf`. */
  lemma DeleteArgvNamesEveryPath(paths: seq<string>, i: int)
    requires 0 <= i < |paths|
    ensures Contains(DeleteArgv(paths)[2], ShellQuoted(paths[i]))
  {
    var quoted := ShellQuotedAll(paths);
    JoinContains(quoted, " ", i);
    ContainsExtend("do shell script \"rm -rf ", Join(quoted, " "), "\" with administrator privileges", ShellQuoted(paths[i]));
  }

  /** The sum of the disk usage of the paths. */
  function TotalUsage(host: Host, paths: seq<string>): int
  {
    if |paths| == 0 then 0 else TotalUsage(host, paths[..|paths| - 1]) + host.diskUsage(paths[|paths| - 1])
  }

  /** Everything `Delete` does: its calls and messages in order, the paths it escalated, and the freed total
      it prints, absent when the privileged call failed and `Delete` returned its error. */
  datatype DeleteRun = DeleteRun(calls: seq<Call>, lines: seq<Line>, escalated: seq<string>, freed: Option<int>)

  function DeleteOf(host: Host, d: Deleter, sudoUser: string): DeleteRun
  {
    var pass := PassOver(host, d.opts.mode, sudoUser != "", d.matches);
    var priv := if d.opts.mode then PrivilegedDeleteOf(host, pass.escalated, d.opts.verbosity)
                else PrivilegedTrashOf(host, pass.escalated, d.opts.verbosity, sudoUser);
    DeleteRun(pass.calls + priv.calls, pass.lines + priv.lines, pass.escalated,
              if priv.ok then Some(TotalUsage(host, d.matches)) else None)
  }

  /** `Delete`: the disk usage of every match summed first, then the per-path work, then the privileged
      call for the queued paths, if any. */
  method Delete(host: Host, d: Deleter, sudoUser: string) returns (run: DeleteRun)
    ensures run == DeleteOf(host, d, sudoUser)
  {
    var totalSize := 0;
    var isSudo := sudoUser != "";
    for i := 0 to |d.matches|
      invariant totalSize == TotalUsage(host, d.matches[..i])
    {
      assert d.matches[..i + 1][..i] == d.matches[..i];
      totalSize := totalSize + host.diskUsage(d.matches[i]);
    }
    assert d.matches[..|d.matches|] == d.matches;
    var calls: seq<Call> := [];
    var lines: seq<Line> := [];
    var queued: seq<string> := [];
    for i := 0 to |d.matches|
      invariant Pass(calls, lines, queued) == PassOver(host, d.opts.mode, isSudo, d.matches[..i])
    {
      assert d.matches[..i + 1][..i] == d.matches[..i];
      var step := PathStep(host, d.opts.mode, isSudo, d.matches[i]);
      calls := calls + step.calls;
      lines := lines + step.lines;
      if step.escalate {
        queued := queued + [d.matches[i]];
      }
    }
    assert d.matches[..|d.matches|] == d.matches;
    var priv: Privileged;
    if !d.opts.mode {
      priv := RunPrivilegedTrash(host, queued, d.opts.verbosity, sudoUser);
    } else {
      priv := RunPrivilegedDelete(host, queued, d.opts.verbosity);
    }
    if !priv.ok {
      return DeleteRun(calls + priv.calls, lines + priv.lines, queued, None);
    }
    run := DeleteRun(calls + priv.calls, lines + priv.lines, queued, Some(totalSize));
  }

  /** At most one command runs, after all per-path work, exactly when some path was queued. The freed total
      is the disk usage of every match, missing ones included, and is printed unless that command failed. */
  lemma DeleteOutcome(host: Host, d: Deleter, sudoUser: string)
    ensures var run := DeleteOf(host, d, sudoUser);
      var pass := PassOver(host, d.opts.mode, sudoUser != "", d.matches);
      var argv := if d.opts.mode then DeleteArgv(run.escalated) else TrashArgv(run.escalated, sudoUser);
      run.calls == pass.calls + (if run.escalated == [] then [] else [Run(argv)])
      && (forall c | c in pass.calls :: !c.Run?)
      && (run.freed.None? <==> run.escalated != [] && !host.runOk(argv))
      && (run.freed.Some? ==> run.freed.value == TotalUsage(host, d.matches))
  {
    var p: string :| true;
    PassProperties(host, d.opts.mode, sudoUser != "", d.matches, p);
  }
}
