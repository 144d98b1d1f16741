/** cmd/root.go: the command line. The flags cobra parses, the check that rejects incompatible flags, the
    suggestion printed when an application name with spaces was not quoted, and the options handed to the
    resolver. Flag registration, the banner and the version flag are not modelled. */
module Cli {
  import opened Wrappers
  import opened GoStrings
  import opened Options

  /** The flag variables cobra fills in. */
  datatype Flags = Flags(verbose: bool, force: bool, peek: bool, logical: bool, size: bool)

  /** The flag combinations `checkArgs` rejects, in the order it tests them. */
  datatype ArgsError = PeekWithForce | LogicalWithForce | LogicalOutsidePeek | PeekWithSize

  /** `checkArgs`: the first incompatible combination found, or None when the flags are accepted. */
  function CheckArgs(f: Flags): (err: Option<ArgsError>)
    ensures err == Some(PeekWithForce) <==> f.peek && f.force
    ensures err == Some(LogicalWithForce) <==> f.logical && f.force && !f.peek
    ensures err == Some(LogicalOutsidePeek) <==> f.logical && !f.peek && !f.size && !f.force
    ensures err == Some(PeekWithSize) <==> f.peek && f.size && !f.force
    ensures err.None? <==> !(f.peek && f.force) && !(f.logical && f.force) && !(f.logical && !f.peek && !f.size)
                           && !(f.peek && f.size)
  {
    if f.peek && f.force then Some(PeekWithForce)
    else if f.logical && f.force then Some(LogicalWithForce)
    else if !(f.peek || f.size) && f.logical then Some(LogicalOutsidePeek)
    else if f.peek && f.size then Some(PeekWithSize)
    else None
  }

  /** The options the `switch` builds: with `--peek` the logical flag is kept and the size flag dropped, with
      `--size` both are kept, and otherwise both are false. */
  function BuildOptions(f: Flags): (opts: Options)
    ensures opts.verbosity == f.verbose && opts.mode == f.force && opts.peek == f.peek
    ensures opts.size <==> f.size && !f.peek
    ensures opts.logical <==> f.logical && (f.peek || f.size)
  {
    if f.peek then Options(f.verbose, f.force, f.peek, f.logical, false)
    else if f.size then Options(f.verbose, f.force, f.peek, f.logical, f.size)
    else Options(f.verbose, f.force, f.peek, false, false)
  }

  /** Flags that pass `checkArgs` build options in which deletion is never combined with peeking or the
      logical size, the logical size comes only with peek or size, and peek and size exclude each other. */
  lemma AcceptedOptionsConsistent(f: Flags)
    requires CheckArgs(f).None?
    ensures var opts := BuildOptions(f);
      !(opts.mode && (opts.peek || opts.logical)) && (opts.logical ==> opts.peek || opts.size)
      && !(opts.peek && opts.size) && opts.logical == f.logical && opts.size == f.size
  {
  }

  /** `joinWithSpaces`: each part appended, with a space after every part but the last. */
  method JoinWithSpaces(parts: seq<string>) returns (result: string)
    ensures result == Join(parts, " ")
  {
    result := "";
    for i := 0 to |parts|
      invariant i == 0 ==> result == ""
      invariant 0 < i ==> result == Join(parts[..i], " ") + (if i < |parts| then " " else "")
    {
      if i > 0 {
        JoinSnoc(parts[..i], " ", parts[i]);
      }
      assert parts[..i + 1] == parts[..i] + [parts[i]];
      result := result + parts[i];
      if i < |parts| - 1 {
        result := result + " ";
      }
    }
    assert parts[..|parts|] == parts;
  }

  /** Splitting the joined parts on spaces gives them back, when no part holds a space. */
  lemma JoinWithSpacesSplits(parts: seq<string>)
    requires |parts| >= 1 && forall p | p in parts :: ' ' !in p
    ensures SplitOn(Join(parts, " "), ' ') == parts
  {
    SplitOnJoin(parts, ' ');
  }

  /** An argument is taken for a flag when its first character is `-`. */
  predicate IsFlag(arg: string)
  {
    |arg| > 0 && arg[0] == '-'
  }

  /** The flag arguments, in order. */
  function FlagArgs(args: seq<string>): (flags: seq<string>)
  {
    if |args| == 0 then []
    else FlagArgs(args[..|args| - 1]) + (if IsFlag(args[|args| - 1]) then [args[|args| - 1]] else [])
  }

  /** The other arguments, the parts of the application name, in order. */
  function NameArgs(args: seq<string>): (names: seq<string>)
  {
    if |args| == 0 then []
    else NameArgs(args[..|args| - 1]) + (if IsFlag(args[|args| - 1]) then [] else [args[|args| - 1]])
  }

  /** Every argument taken for a flag starts with `-`, and no name part does. */
  lemma {:induction false} PartitionSorts(args: seq<string>)
    ensures forall a | a in FlagArgs(args) :: IsFlag(a)
    ensures forall a | a in NameArgs(args) :: !IsFlag(a)
    decreases |args|
  {
    if |args| > 0 {
      PartitionSorts(args[..|args| - 1]);
    }
  }

  /** One more argument joins the flags or the name parts, by its first character. */
  lemma PartitionSnoc(args: seq<string>, x: string)
    ensures FlagArgs(args + [x]) == FlagArgs(args) + (if IsFlag(x) then [x] else [])
    ensures NameArgs(args + [x]) == NameArgs(args) + (if IsFlag(x) then [] else [x])
  {
    var longer := args + [x];
    assert longer[..|longer| - 1] == args && longer[|longer| - 1] == x;
  }

  /** The multiset of a sequence with one more element. */
  lemma MultisetSnoc(s: seq<string>, x: string)
    ensures multiset(s + [x]) == multiset(s) + multiset{x}
  {
  }

  /** The partition loses and invents nothing: the two lists hold exactly the arguments between them. */
  lemma {:induction false} PartitionIsComplete(args: seq<string>)
    ensures multiset(FlagArgs(args)) + multiset(NameArgs(args)) == multiset(args)
    decreases |args|
  {
    if |args| > 0 {
      var prefix, last := args[..|args| - 1], args[|args| - 1];
      assert args == prefix + [last];
      PartitionIsComplete(prefix);
      PartitionSnoc(prefix, last);
      MultisetSnoc(prefix, last);
      if IsFlag(last) {
        MultisetSnoc(FlagArgs(prefix), last);
      } else {
        MultisetSnoc(NameArgs(prefix), last);
      }
    }
  }

  /** So the lengths of the two lists add up to the number of arguments. */
  lemma PartitionLengths(args: seq<string>)
    ensures |FlagArgs(args)| + |NameArgs(args)| == |args|
  {
    PartitionIsComplete(args);
    assert |multiset(FlagArgs(args)) + multiset(NameArgs(args))| == |multiset(args)|;
  }

  /** The loop that sorts the arguments into flags and name parts. */
  method Partition(args: seq<string>) returns (flags: seq<string>, appNameParts: seq<string>)
    ensures flags == FlagArgs(args) && appNameParts == NameArgs(args)
  {
    flags := [];
    appNameParts := [];
    for i := 0 to |args|
      invariant flags == FlagArgs(args[..i]) && appNameParts == NameArgs(args[..i])
    {
      assert args[..i + 1][..i] == args[..i];
      var arg := args[i];
      if |arg| > 0 && arg[0] == '-' {
        flags := flags + [arg];
      } else {
        appNameParts := appNameParts + [arg];
      }
    }
    assert args[..|args|] == args;
  }

  /** Each flag printed after the suggested command, preceded by a space. */
  function FlagSuffix(flags: seq<string>): string
  {
    if |flags| == 0 then "" else FlagSuffix(flags[..|flags| - 1]) + " " + flags[|flags| - 1]
  }

  /** The suggestion line: the name parts joined by spaces inside quotes, then the flags. */
  function Suggestion(appNameParts: seq<string>, flags: seq<string>): string
  {
    "           Try: rmapp \"" + Join(appNameParts, " ") + "\"" + FlagSuffix(flags)
  }

  /** What the command does with its arguments: suggest quoting and stop, or resolve the first argument with
      the built options and then delete, unless in peek mode. */
  datatype Outcome =
    | Suggest(line: string)
    | Resolve(appName: string, opts: Options, delete: bool)

  /** The decision of the command's `Run` for arguments cobra has checked to be at least one. */
  function RunOf(args: seq<string>, f: Flags): (o: Outcome)
    requires |args| >= 1
    ensures o.Suggest? <==> |NameArgs(args)| > 1
    ensures o.Resolve? ==> o.appName == args[0] && o.opts == BuildOptions(f) && (o.delete <==> !f.peek)
  {
    PartitionLengths(args);
    if |args| > 1 && |NameArgs(args)| > 1 then Suggest(Suggestion(NameArgs(args), FlagArgs(args)))
    else Resolve(args[0], BuildOptions(f), !BuildOptions(f).peek)
  }

  /** The command's `Run`: the partition only when there are several arguments, the suggestion when more than
      one of them is a name part, else the options switch. */
  method Run(args: seq<string>, f: Flags) returns (o: Outcome)
    requires |args| >= 1
    ensures o == RunOf(args, f)
  {
    if |args| > 1 {
      var flags, appNameParts := Partition(args);
      if |appNameParts| > 1 {
        var joined := JoinWithSpaces(appNameParts);
        return Suggest("           Try: rmapp \"" + joined + "\"" + FlagSuffix(flags));
      }
    }
    var opts := BuildOptions(f);
    return Resolve(args[0], opts, !opts.peek);
  }

  /** `Google Chrome -v` splits into the name parts `Google`, `Chrome` and the flag `-v`. */
  lemma PartitionExample(args: seq<string>)
    requires args == ["Google", "Chrome", "-v"]
    ensures NameArgs(args) == ["Google", "Chrome"] && FlagArgs(args) == ["-v"]
  {
    var two := args[..2];
    assert two[..1] == ["Google"] && two[..1][..0] == [];
    assert !IsFlag("Google") && !IsFlag("Chrome") && IsFlag("-v");
    assert NameArgs(two[..1]) == ["Google"] && FlagArgs(two[..1]) == [];
    assert NameArgs(two) == ["Google", "Chrome"] && FlagArgs(two) == [];
  }

  /** The suggestion for the name parts `Google`, `Chrome` and the flag `-v`. */
  lemma SuggestionExample(line: string)
    requires line == "           Try: rmapp \"Google Chrome\" -v"
    ensures Suggestion(["Google", "Chrome"], ["-v"]) == line
  {
    var names, flags := ["Google", "Chrome"], ["-v"];
    assert Join(names, " ") == "Google Chrome";
    assert FlagSuffix(flags) == " -v" by {
      assert flags[..0] == [];
    }
    var pre, q := "           Try: rmapp \"", "\"";
    assert pre + "Google Chrome" + q + " -v" == line;
  }

  /** An argument list `Google`, `Chrome`, `-v` as `Run` receives it (e.g. after `--`) is answered with the
      quoted suggestion, the flag kept after it. */
  lemma UnquotedNameSuggested(args: seq<string>, f: Flags, line: string)
    requires args == ["Google", "Chrome", "-v"]
    requires line == "           Try: rmapp \"Google Chrome\" -v"
    ensures RunOf(args, f) == Suggest(line)
  {
    PartitionExample(args);
    SuggestionExample(line);
  }
}
