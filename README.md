# rmapp, modelled in Dafny

rmapp removes a macOS application together with the files it leaves behind. It resolves the name typed on
the command line to an `.app` bundle and asks `mdls` for the bundle identifier. It then walks a fixed
catalogue of system and per-user library folders for entries whose names match the application. Finally it
either lists them with their sizes (`--peek`) or deletes them: to the Trash, or with `--force` by removal,
escalating through `osascript` when permission is denied.

This project models that core in Dafny and proves what it promises:

- the name matcher (`finder/matcher.go`) and its tokenizer, domain hint and contiguous-window search;
- the directory walk and the pruning decisions of the scanner (`finder/scanner.go`), including the depth
  rule and Go's `filepath.WalkDir` semantics for `SkipDir` and for unreadable directories;
- the catalogue of search roots and the per-root search depth (`finder/finder.go`);
- the collection of matches over the roots (goroutines and a channel, modelled as a sequential loop whose
  result is compared as a multiset);
- the peek report (`finder/report.go`) and the colour stripping it relies on (`finder/formater.go`);
- the deleter's decisions and the privileged shell commands it builds (`deleter/deleter.go`);
- the resolver (`resolver/resolver.go`);
- the command line (`cmd/root.go`);
- the older copies of the finder and resolver in `rmapp/finder.go` and `rmapp/resolver.go`, which are
  modelled where they differ and related to the newer code by lemmas.

The file system, `mdls`, the Trash, `os.RemoveAll` and `osascript` cannot be seen from the code. They are
parameters: a `FileSystem.Disk` holds a tree per search root plus `Lstat`, disk-usage and logical-size
functions, and a `Deleter.Host` holds the `Stat`, disk-usage, move-to-Trash, `RemoveAll` and
command-success answers. `HOME`, `SUDO_USER` and `USER` are passed in as strings.

One module per source file: `GoStrings` (the parts of Go's `strings` package the code uses, over ASCII),
`FileSystem` (trees and the walk), `Options`, `Catalog`, `Matcher`, `Scanner`, `Finder`, `Report`,
`Formatter`, `Deleter`, `Resolver`, `Cli`, `LegacyFinder`, `LegacyResolver`, and `Wrappers` (`Option`,
`Result`).

## Model

| member | source | states |
|---|---|---|
| Matcher.Tokenize | finder/matcher.go:73-84 | no token is empty or holds a space |
| Matcher.TokenizeDotted | finder/matcher.go:79-83 | words free of the file delimiters, joined by dots, tokenize back to the same words |
| Matcher.TokenizeSpaced | finder/matcher.go:75-78 | two or more words without spaces, joined by spaces, tokenize back to the words |
| Matcher.GetDomainHint | finder/matcher.go:62-68 | the hint holds no dot |
| Matcher.DomainHintIsSecondLabel | finder/matcher.go:62-66 | for two or more dot-free labels joined by dots the hint is the second label |
| Matcher.DomainHintWithoutDot | finder/matcher.go:64-67 | an identifier without a dot has the empty hint |
| Matcher.ContainsNameAsWritten | finder/matcher.go:86-121 | false when the file has fewer tokens than the app; an index-out-of-range panic when the app has no token and the file has some; otherwise true iff some window of the app's width starts with the app's first token and ends with its last |
| Matcher.ContainsName | finder/matcher.go:86-121 | true iff some window of the app's width starts with the app's first token and ends with its last |
| Matcher.ContainsNamePanicsOnEmptyApp | finder/matcher.go:87-107 | the empty app name against the tokens `receipt`, `plist` ends in an index-out-of-range panic |
| Matcher.IsMatch | finder/matcher.go:11-59 | the answer is the rule set: bundle id contained, bundle id without trailing digits contained, `.app` stem starting with the app name, the receipts window, or a token equal to the app name |
| Matcher.MatchesIgnoresCase | finder/matcher.go:12-14 | lower-casing the file name, app name and bundle id first does not change the answer |
| Matcher.EmptyBundleMatchesEverything | finder/matcher.go:22-24 | with an empty bundle id every name matches |
| Matcher.NumericSuffixMatches | finder/matcher.go:28-31 | a name containing the bundle id without its trailing digits matches |
| Matcher.TeamsExample | finder/matcher.go:26-31 | `com.microsoft.teams.plist` matches the bundle id `com.microsoft.teams2` |
| Matcher.AppBundlePrefixMatches | finder/matcher.go:34-39 | an `.app` name whose stem starts with the app name matches, case ignored |
| Matcher.AppHelperExample | finder/matcher.go:34-39 | `apphelperxyz.app` matches the app `app`, whatever the bundle id |
| Matcher.TokenFallback | finder/matcher.go:53-58 | when none of the first four rules holds, a name matches iff one of its tokens is the app name |
| Matcher.WindowOnlyUnderReceipts | finder/matcher.go:43-51 | away from the receipts root a name matches iff the bundle, numeric-suffix, `.app` or token rule holds |
| Matcher.ContiguousRunIsWindow | finder/matcher.go:98-109 | file tokens holding the app's tokens contiguously contain a window |
| Matcher.WindowIgnoresInterior | finder/matcher.go:107 | the window for `a b c` is found in `a x c`, although `b` is absent |
| Matcher.ReceiptWindowIgnoresInterior | finder/matcher.go:42-50 | a receipt named `prefix.first.other.last` holds a window for the app `first middle last` |
| Scanner.Depth | finder/scanner.go:46-51 | a depth is never below 1 |
| Scanner.DepthBelow | finder/scanner.go:46-51 | an entry reached through k names lies at depth k, the root at depth 1 |
| Scanner.HandleScan | finder/scanner.go:18-66 | at most one emission, with the entry's own name, path and symlink flag; one iff the entry is a file, symlink or directory whose name matches; SkipDir only for a directory |
| Scanner.HandleScanPrunes | finder/scanner.go:128-134 | a reached directory is pruned iff it matches or lies deeper than the search depth; the domain-hint clause never fires |
| Scanner.ScanSkipsOnlyDirs | finder/scanner.go:23-65 | the callback answers SkipDir only for directories, so no listing is cut short |
| Scanner.WalkEntrySound | finder/scanner.go:91-102 | every emission of an entry's walk names a matching entry |
| Scanner.WalkEntriesSound | finder/scanner.go:91-102 | every emission of a listing's walk names a matching entry |
| Scanner.FindAppFiles | finder/scanner.go:90-107 | nothing is sent for a missing root, and every emission names a matching entry |
| Scanner.WalkEntryComplete | finder/scanner.go:18-66 | from an entry reached through given names, every matching file, symlink or directory reached through readable non-matching directories within the search depth is sent, with its path |
| Scanner.WalkComplete | finder/scanner.go:90-107 | completeness of the walk: every matching entry reached from the root through readable non-matching directories, at most `searchDepth + 1` levels down, is sent with its path |
| Scanner.MatchedDirNotDescended | finder/scanner.go:53-59 | a matched directory is sent and nothing below it is |
| Scanner.UnreadableIsolated | finder/scanner.go:92-101 | an unreadable directory contributes only its own emission, and its siblings are walked as if it were absent |
| Scanner.PruneEntry | finder/scanner.go:128-131 | walking a well-named entry equals walking it cut below the depth limit |
| Scanner.WalkReach | finder/scanner.go:128-131 | the walk of a root equals the walk of the root cut `searchDepth + 1` levels down: nothing deeper is visited |
| Scanner.GrandchildFound | finder/scanner.go:46-63 | with the standard depth 1, a matching file two levels below the root is exactly what is sent |
| Scanner.RootFileFound | finder/scanner.go:23-30 | a matching file directly in the root's listing is sent |
| Scanner.AppBundles | finder/scanner.go:77-85 | every matching directory of the listing is sent as its path, and nothing else is |
| Scanner.FindApp | finder/scanner.go:73-87 | nothing on a listing error, else the listing's matching bundles |
| Scanner.MatchAnnouncement | finder/scanner.go:139-144 | a line is printed iff verbose and not peeking |
| Scanner.AnnouncementText | finder/scanner.go:140-144 | without its colour codes the line reads `Match <name> FOUND at: <path>`, or `Symlink match ...` for a symlink |
| FileSystem.ReadDir | finder/scanner.go:74-75 | a listing iff the entry exists and is a readable directory |
| FileSystem.WalkEntriesAround | finder/scanner.go:91-102 | when nothing before an entry, nor the entry, cuts the listing, its walk is the walk before it, the entry's, then the walk after it |
| FileSystem.WalkEntriesCut | rmapp/finder.go:312-315 | an entry answering SkipDir as a non-directory drops the rest of its parent's listing |
| Catalog.UserRoots | finder/finder.go:104-117 | each per-user root is the home directory followed by its fixed suffix, in order |
| Catalog.AllSearchPathsLayout | finder/finder.go:130-162 | the two Applications roots, the fifteen system roots, then the per-user roots, 29 in all |
| Catalog.SystemRootsLayout | finder/finder.go:134-148 | positions 2 to 16 hold the system roots in order |
| Catalog.UserRootsLayout | finder/finder.go:149-160 | positions 17 on hold the per-user roots in order |
| Catalog.SearchDepthFor | finder/finder.go:183-187 | depth 2 for the user preferences root, depth 1 for every other root |
| Catalog.ApplicationsRootsAreFirstTwo | finder/finder.go:199-204 | with a non-empty HOME a root is an Applications root iff it is one of the first two |
| Catalog.EmptyHomeRepeatsApplications | finder/finder.go:84-85 | with an empty HOME both Applications roots are `/Applications` |
| Finder.Paths | finder/scanner.go:146 | one path per emission, in order |
| Finder.Send | finder/scanner.go:139-147 | the paths sent on the channel are those of the emissions, in order |
| Finder.ScanRoot | finder/finder.go:181-205 | one goroutine's sends: the app lookup for an Applications root, the depth-limited walk otherwise |
| Finder.CollectMatches | finder/finder.go:178-217 | the collected matches are every root's sends, root after root |
| Finder.FindMatches | finder/finder.go:169-224 | the collected matches over all roots, and a peek report iff peeking, built from those matches |
| Finder.NewFinder | finder/finder.go:78-127 | the finder holds the roots built from HOME, the verbosity and the collected matches; a report iff peeking |
| Finder.GatherIsEverySend | finder/finder.go:215-217 | as a multiset, the collected matches are the sum of every root's sends |
| Finder.GatherOrderFree | finder/finder.go:178-217 | permuting the roots leaves the multiset of matches unchanged, so goroutine order does not matter |
| Finder.GatherContains | finder/finder.go:215-217 | a path any root's scan sends is collected |
| Finder.RepeatedRootCollectedTwice | finder/finder.go:215-217 | a root listed twice contributes each of its matches twice |
| Finder.EmptyHomeCollectsBundlesTwice | finder/finder.go:199-217 | with an empty HOME each matching bundle in `/Applications` is collected twice |
| Finder.PreferencesDepthRace | finder/finder.go:173-187 | when the caches root's goroutine writes the shared depth last, the depth read is 1, where the preferences root should get 2; when the preferences goroutine writes last, the depth read is 2, where every other root should get 1 |
| Report.SymlinkBit | finder/report.go:49-61 | a symlink iff Lstat succeeds and reports the link bit |
| Report.SymlinkBitAsWritten | finder/report.go:49-57 | the nil dereference happens iff Lstat failed |
| Report.LstatFailurePanics | finder/report.go:49-61 | a failed Lstat panics as written; wherever the code as written succeeds the corrected one agrees; the corrected one treats a failed Lstat as no symlink |
| Report.StripColouredLine | finder/report.go:64-73 | stripping the coloured report line gives the plain line |
| Report.MetasOf | finder/report.go:79-85 | one record per match |
| Report.MetasOfIndex | finder/report.go:79-85 | record i describes match i |
| Report.MaxWidthIsMax | finder/report.go:75-77 | the width is at least every line's width and equals one of them; 0 without matches |
| Report.SortBySizeProperties | finder/report.go:88-91 | sorted largest first, a permutation, and records of equal size keep their order |
| Report.AccumulateMatches | finder/report.go:40-86 | the loop yields the count, the total size, the widest line and the records of all matches |
| Report.GeneratePeekReport | finder/report.go:23-91 | the report is the one specified for the matches |
| Report.PeekReportShape | finder/report.go:93-100 | with matches: a summary whose count is the number of records and of matches, whose total is the sum of their sizes, and whose every line with its padding fills the width exactly |
| Report.LabelsDiffer | finder/report.go:67-73 | the symlink label differs from the plain one |
| Formatter.CodeRun | finder/formater.go:12 | the length of the leading run of digits and semicolons |
| Formatter.StripColor | finder/formater.go:11-14 | stripping never lengthens a text |
| Formatter.StripColorPlain | finder/formater.go:11-14 | a text without ESC is unchanged |
| Formatter.StripColorPlainPrefix | finder/formater.go:12-13 | text without ESC in front is kept and the rest stripped |
| Formatter.StripColorSgrPrefix | finder/formater.go:12-13 | a complete code in front is removed |
| Formatter.StripApplyColor | finder/formater.go:12-13 | stripping a coloured text gives back the text |
| Formatter.StripTwoColoured | finder/formater.go:12-13 | stripping a line with two coloured parts gives back the plain line |
| Formatter.StripColorKeepsIncomplete | finder/formater.go:12-13 | an escape followed by `[` and code characters but no `m` is kept with them, and stripping goes on after them |
| Formatter.StripColorNotIdempotent | finder/formater.go:12-13 | `ESC ESC [m [m` strips to `ESC [m`, which strips to nothing: one pass can leave a code |
| Deleter.Exists | deleter/deleter.go:139-152 | no error line iff Stat finds the path |
| Deleter.ForceStep | deleter/deleter.go:110-120 | a path is reported deleted iff it existed and was removed, reported not deleted iff removal failed for a reason other than permission, and queued iff permission was denied |
| Deleter.ForceReportsFailureAsDeleted | deleter/deleter.go:110-120 | as written, a failed removal is reported both as not deleted and as deleted |
| Deleter.PassProperties | deleter/deleter.go:61-118 | a path is queued iff it is listed, exists, and its removal hit a permission error (force) or the run is under sudo or its move to the Trash failed; a missing path is never acted on; the pass runs no command; under sudo the trash pass makes no call |
| Deleter.StepProperties | deleter/deleter.go:63-122 | one path's step escalates under the same condition, acts only on that path, and does nothing for a missing path or under sudo in trash mode |
| Deleter.PosixFiles | deleter/deleter.go:162-165 | one AppleScript `POSIX file` per path, in order |
| Deleter.ShellQuotedAll | deleter/deleter.go:204-207 | one single-quoted word per path, in order |
| Deleter.ShellQuotedReadBack | deleter/deleter.go:204-207 | the single-quoted word reads back as the path exactly when the path holds no `'` |
| Deleter.PosixFileReadBack | deleter/deleter.go:162-165 | the `POSIX file` string reads back as the path exactly when the path holds no `"` |
| Deleter.TextBeforeClosing | deleter/deleter.go:204-207 | the text before the first quote of path, quote, rest is the path exactly when the path holds no quote |
| Deleter.TrashedLines | deleter/deleter.go:187-191 | one moved-to-Trash line per path, in order |
| Deleter.DeletedLines | deleter/deleter.go:218-222 | one deleted line per path, in order |
| Deleter.RunPrivilegedTrash | deleter/deleter.go:155-193 | the loop builds the `osascript` command and its outcome lines as specified |
| Deleter.RunPrivilegedDelete | deleter/deleter.go:197-225 | the loop builds the `rm -rf` command and its outcome lines as specified |
| Deleter.TrashArgvNamesEveryPath | deleter/deleter.go:162-180 | the script names every path as a POSIX file; under sudo it runs as `sudo -u <user>`; `osascript -e` precedes the script |
| Deleter.DeleteArgvNamesEveryPath | deleter/deleter.go:204-211 | the `rm -rf` script names every path quoted |
| Deleter.Delete | deleter/deleter.go:35-136 | the method's calls, queue, privileged run and freed space are those specified |
| Deleter.DeleteOutcome | deleter/deleter.go:49-135 | the calls are the pass's calls, then one privileged run iff some path was queued; freed space is reported unless that run failed, and is then the matches' total disk usage |
| GoStrings.Lower | finder/matcher.go:12-14 | the same length, each character lowered |
| GoStrings.LowerIdempotent | finder/matcher.go:12-14 | lowering twice is lowering once |
| GoStrings.TrimRightDigits | finder/matcher.go:28 | a prefix of the text, not ending in a digit, followed in the text only by digits |
| GoStrings.TrimRightDigitsOf | finder/matcher.go:28-29 | a text not ending in a digit, followed by digits, trims back to the text |
| GoStrings.SplitOn | resolver/resolver.go:89 | at least one field, none holding the separator |
| GoStrings.SplitOnCount | resolver/resolver.go:89-90 | at least two fields iff the separator occurs |
| GoStrings.JoinSplitOn | resolver/resolver.go:89 | joining the fields by the separator gives back the text |
| GoStrings.Fields | finder/matcher.go:76-82 | every field is non-empty and holds no separator |
| GoStrings.FieldsJoin | finder/matcher.go:80-82 | non-empty separator-free words joined by a separator give back the words |
| LegacyFinder.AllSearchPathsLayout | rmapp/finder.go:140-161 | 18 roots, `/Library/Application Support` at positions 2 and 5, and none of the twelve other system paths the literal defines is among them |
| LegacyFinder.ScannedShape | rmapp/finder.go:140-161 | 18 roots, each an Applications root, a `/Users/...` root or one of the three `/Library` roots, Application Support twice |
| LegacyFinder.Tokenize | rmapp/finder.go:268-272 | no token is empty or holds a delimiter |
| LegacyFinder.TokenizeJoined | rmapp/finder.go:268-272 | delimiter-free words joined by any delimiter tokenize back to the words |
| LegacyFinder.TokenizeAgreesWithoutSpace | rmapp/finder.go:268-272 | on a name without a space the older and newer tokenizers agree |
| LegacyFinder.IsMatch | rmapp/finder.go:238-263 | the answer is the older rule set: bundle id contained, `.app` stem starting with the app name, or a token equal to the app name |
| LegacyFinder.MatchesImpliesCurrent | rmapp/finder.go:238-263 | on a name without spaces, whatever the older matcher accepts the newer one accepts |
| LegacyFinder.NoNumericSuffixRule | rmapp/finder.go:238-263 | `com.microsoft.teams` matches the bundle id `com.microsoft.teams2` in the newer matcher and not in the older |
| LegacyFinder.NoRuleFires | rmapp/finder.go:238-263 | a lower-case name shorter than the bundle id, not ending in `.app`, never matches an app name with a space |
| LegacyFinder.HandleScan | rmapp/finder.go:299-339 | a matching file or directory is sent; every symlink answers SkipDir and is not sent; otherwise SkipDir only for a directory that does not match |
| LegacyFinder.HandleScanPrunes | rmapp/finder.go:275-285 | a reached directory is pruned iff it does not match and lies deeper than the search depth; the domain-hint clause never fires |
| LegacyFinder.WalkEntrySound | rmapp/finder.go:406-422 | every emission of an entry's walk names a matching entry |
| LegacyFinder.WalkEntriesSound | rmapp/finder.go:406-422 | every emission of a listing's walk names a matching entry |
| LegacyFinder.FindMatchesWalk | rmapp/finder.go:406-422 | nothing is sent for a missing root, and every emission names a matching entry |
| LegacyFinder.WalkEntryComplete | rmapp/finder.go:299-339 | from an entry reached through given names, every matching file or directory on a route whose directories match or lie within the depth, with no symlink before the route in any listing, is sent with its path |
| LegacyFinder.WalkComplete | rmapp/finder.go:406-422 | completeness of the older walk: every matching file or directory the walk reaches from the root, as above, is sent with its path |
| LegacyFinder.SymlinkCutsListing | rmapp/finder.go:312-315 | a symlink ends its parent's listing: later siblings are never walked |
| LegacyFinder.MatchedDirDescended | rmapp/finder.go:326-332 | a matched directory is sent and then walked into |
| LegacyFinder.NestedMatchesSent | rmapp/finder.go:326-332 | with depth 1 a matching directory and a matching file inside it are both sent, in that order |
| LegacyFinder.AppBundles | rmapp/finder.go:391-404 | every matching directory of the listing is sent as its path, and nothing else is |
| LegacyFinder.FindMatchesApp | rmapp/finder.go:391-404 | nothing on a listing error, else the listing's matching bundles |
| LegacyFinder.ScanRoot | rmapp/finder.go:183-206 | one older goroutine's sends: app lookup or walk, by root |
| LegacyFinder.RootDepths | rmapp/finder.go:185-188 | depth 2 for the user preferences root, depth 1 for every other root |
| LegacyFinder.SupportFilesCollectedTwice | rmapp/finder.go:144-147 | every match under `/Library/Application Support` is collected at least twice |
| LegacyFinder.LinesOf | rmapp/finder.go:468-489 | one report line per match |
| LegacyFinder.LinesOfIndex | rmapp/finder.go:468-489 | line i describes match i |
| LegacyFinder.MaxWidthBounds | rmapp/finder.go:480-482 | the width is at least every line's width and equals one of them; 0 without matches |
| LegacyFinder.HandlePeek | rmapp/finder.go:425-508 | peeked iff peek mode; a report iff peeking and every match can be stat'ed, and then the one specified |
| LegacyFinder.PeekShape | rmapp/finder.go:456-498 | one line per match, in order, the count equal to the number of matches; every line with its padding fills the width exactly, and the widest line gets no padding |
| LegacyFinder.TotalCountsStatAndUsage | rmapp/finder.go:445-470 | the total of one match is its Stat size plus its disk usage, so differs from the disk usage when the Stat size is not 0 |
| LegacyFinder.FindMatches | rmapp/finder.go:168-226 | the older collection over its roots, then the peek outcome |
| LegacyFinder.NewFinder | rmapp/finder.go:91-137 | the older finder holds the roots built from the user name, the verbosity and the collected matches |
| LegacyResolver.ExtractQuotedSubstring | rmapp/resolver.go:86-93 | the result holds no quote, and is empty when the text holds none |
| LegacyResolver.AgreesWithResolver | rmapp/resolver.go:86-93 | the older result is the newer one's value, or empty where the newer one reports an error |
| LegacyResolver.WiresharkIdentifier | rmapp/resolver_test.go:5-10 | the Wireshark `mdls` line yields `org.wireshark.Wireshark` |
| LegacyResolver.MissingLooksEmpty | rmapp/resolver.go:86-93 | text without a quote and two empty quotes give the same empty identifier |
| Resolver.ExtractQuotedSubstring | resolver/resolver.go:88-95 | an error iff the text holds no quote; else a value without a quote |
| Resolver.ExtractQuoted | resolver/resolver.go:89-92 | the value is what lies between the first quote and the next quote or the end |
| Resolver.SafariIdentifier | resolver/rmapp_test.go:121 | the Safari `mdls` line yields `com.apple.Safari` |
| Resolver.IncompleteQuoteAccepted | resolver/resolver.go:89-92 | an unclosed quote is no error: the rest of the text is returned |
| Resolver.EmptyQuotes | resolver/rmapp_test.go:125 | two quotes give the empty identifier without error |
| Resolver.GetDotApp | resolver/resolver.go:99-106 | the result holds `.app` and starts with the name, and equals it iff the name already holds `.app` |
| Resolver.GetDotAppIdempotent | resolver/resolver.go:99-106 | applying it twice is applying it once |
| Resolver.GetDotAppExamples | resolver/resolver.go:99-106 | `Blender` gives `Blender.app`, `Blender.app` stays, the empty name gives `.app` |
| Resolver.MdlsTarget | resolver/resolver.go:55-58 | a path starting with `/` is kept, any other name is put under `/Applications/` |
| Resolver.MdlsArgv | resolver/resolver.go:60 | four words: `mdls`, the target path, then the attribute asked for |
| Resolver.NotFoundNameRoundTrip | resolver/resolver.go:60-64 | for a plain name without `.app`, the name reported when `mdls` fails is the name typed |
| Resolver.GetBundleID | resolver/resolver.go:74-83 | no identifier iff the `mdls` output holds no quote |
| Cli.CheckArgs | cmd/root.go:176-198 | each rejected flag combination, in the order `checkArgs` tries them, and acceptance iff none applies |
| Cli.BuildOptions | cmd/root.go:80-105 | verbosity, force and peek kept; size only without peek; logical only with peek or size |
| Cli.AcceptedOptionsConsistent | cmd/root.go:80-105 | accepted flags never combine force with peek or logical, give logical only with peek or size, never peek with size, and keep logical and size as given |
| Cli.JoinWithSpaces | cmd/root.go:133-142 | the parts joined by single spaces |
| Cli.JoinWithSpacesSplits | cmd/root.go:133-142 | space-free parts, joined and split on spaces, come back |
| Cli.PartitionSorts | cmd/root.go:55-61 | flags start with `-`, name parts do not |
| Cli.PartitionSnoc | cmd/root.go:55-61 | one more argument joins the flags when it starts with `-`, the name parts otherwise |
| Cli.PartitionIsComplete | cmd/root.go:55-61 | flags and name parts together are the arguments, as a multiset |
| Cli.PartitionLengths | cmd/root.go:52-61 | their lengths add up to the number of arguments |
| Cli.Partition | cmd/root.go:52-61 | the loop yields the flags and the name parts, each in order |
| Cli.RunOf | cmd/root.go:48-119 | a suggestion iff more than one name part; else resolve the first argument with the built options, deleting iff not peeking |
| Cli.Run | cmd/root.go:48-119 | the command's steps give that outcome |
| Cli.PartitionExample | cmd/root.go:55-61 | `Google Chrome -v` splits into the name parts `Google`, `Chrome` and the flag `-v` |
| Cli.SuggestionExample | cmd/root.go:64-72 | the suggestion text for that split |
| Cli.UnquotedNameSuggested | cmd/root.go:64-74 | an argument list `Google`, `Chrome`, `-v` as Run receives it (e.g. after `--`) is answered with `rmapp "Google Chrome" -v` |

## Where the code and its tests differ

- The test table for `extractQuotedSubstring` expects `"incomplete quote` to be an error
  (resolver/rmapp_test.go:124). The code returns `incomplete quote` (resolver/resolver.go:89-92). The model
  follows the code: `Resolver.IncompleteQuoteAccepted`.
- The finder test expects a file under `HOME/Documents` to be found (resolver/rmapp_test.go:64). No search
  root covers `Documents`, so the model does not find it.
- finder/matcher.go:43 reads `ctx.RootPath`, but the `ScanContext` of finder/finder.go:17-24 has no such
  field. The model gives the context the root path the walk was started from.
- cmd/root.go:115 reads `instance.Reported`, but the `Resolver` of resolver/resolver.go:22-30 has no such
  field; its only flag is `Peeked`, set from the peek option. The model reads the missing field as `Peeked`,
  so the command deletes unless peeking (`Cli.RunOf`), `--size` alone included.
- Per the code, `AppHelperXYZ.app` matches the app `App` when the bundle identifier is empty, because an
  empty bundle identifier is contained in every name (`Matcher.AppHelperExample`).
- When HOME is empty, both Applications roots are `/Applications`, and every matching bundle is collected
  twice (`Finder.EmptyHomeCollectsBundlesTwice`).
- The older `getDotApp` and the `/Applications/` prefixing (rmapp/resolver.go:97-104 and 59-61) are the
  same code as in resolver/resolver.go. They are modelled once, by `Resolver.GetDotApp` and
  `Resolver.MdlsTarget`.
- The older `getMdlsIdentifier` exits with status 0 after a failed `mdls`; the newer one exits with 1. Exit
  codes are not modelled.

## Left out

- Printing, logging and `os.Exit`: messages are modelled as line values where the code's decision depends on
  them, and exit codes not at all.
- Goroutine scheduling, the channel's order and the mutex: the gathered matches are compared as multisets.
  The deleter model fixes one schedule, match order: the per-path calls and lines, the escalation list, and
  so the order of the paths in the `osascript` and `rm -rf` commands follow the matches, while the code's
  goroutines append under the mutex in any order; only `Deleter.PassProperties`' membership statements are
  free of that order.
- The shared `searchDepth` variable is modelled only in `Finder.PreferencesDepthRace`; the rest of the model
  uses the per-root depth of `Catalog.SearchDepthFor`.
- `pfmt.ApplyColor` is not part of this model; it is taken to wrap a text in `ESC[38;5;<n>m` and `ESC[0m`.
- `FormatSize`, `formatSize` and the older report's `maxLen`, `fileSizes` and size strings: they format
  floating-point values.
- Case folding covers ASCII only; Unicode case mapping is not modelled.
- Sizes are unbounded integers; int64 overflow of the totals is not modelled.
- `filepath.Join` and `filepath.Rel` are modelled for plain names only; path cleaning is not.
- `getLogicalSize`, `darwin.GetDiskSize`, `MoveFileToTrash`, `mdls` and `osascript` are oracles in
  `FileSystem.Disk` and `Deleter.Host`; their own behaviour is not modelled.
- cobra, `Execute`, `getVersion` and flag registration.
- The error `FindMatches` returns is always nil and is not modelled.
- `sort.SliceStable` is modelled on values, by a stable insertion sort; its in-place behaviour is not.
- The older `ScanContext` has no root path; the older matcher has no receipts rule, and the model gives it
  none.
- `NewResolver` and the wiring between resolver, finder and deleter, beyond the decision to delete.
- Cli.RunOf and Cli.Run: with `--size` and without `--peek` the model deletes after resolving, because it reads the
  missing `Reported` field as `Peeked`; the code does not say what `--size` alone does, and its help text
  ("Show the total size of the application's data") suggests it only reports.
- The text of the "Total" line.
- Search roots that overlap (CrashReporter lies inside Application Support) are modelled as independent trees.
- The older `handlePeek` doubles `numFiles` after printing it; only the printed count is modelled.
- The "Found 0 files" line is modelled as an empty result, not as its text.
- Matcher.IsMatch: the model uses the corrected `Matcher.ContainsName`; as written, finder/matcher.go:106 indexes
  `tokenizedFilename[-1]` for an app without tokens and panics (`Matcher.ContainsNamePanicsOnEmptyApp`).
- Report.GeneratePeekReport: the model uses the corrected `Report.SymlinkBit`; as written, `.Mode()` is called on
  the nil `FileInfo` of a failed `Lstat` at finder/report.go:57 and panics (`Report.LstatFailurePanics`).
- Deleter.Delete: the model uses the corrected `Deleter.ForceStep`; as written, "Successfully deleted" is logged
  at deleter/deleter.go:120 after a failed `RemoveAll` (`Deleter.ForceReportsFailureAsDeleted`).
- Deleter.Delete: the host is stateless, so a path listed twice among the matches is removed and reported
  twice; the code's second `os.Stat` would see it gone, and duplicates are not de-duplicated here.
- FileSystem.ReadDir, Scanner.FindApp and LegacyFinder.FindMatchesApp: a symlink to a directory gives no
  listing, while `os.ReadDir` follows the link; link resolution is not modelled.
- cobra/pflag flag parsing before `Run`: the model starts from the argument list `Run` receives, so
  `Cli.UnquotedNameSuggested` is about a list such as the one left after `--`.
- Deleter.RunPrivilegedDelete and Deleter.RunPrivilegedTrash: paths are quoted textually, without escaping;
  `Deleter.ShellQuotedReadBack` and `Deleter.PosixFileReadBack` show the quoting holds exactly for paths without
  `'` (shell) or `"` (AppleScript). AppleScript backslash escapes, and a `"` or `\` inside the `rm -rf`
  script's own AppleScript string, are not modelled.

## Findings

| source | as written | input that shows it | evidently intended | confidence | as-written member | corrected member |
|---|---|---|---|---|---|---|
| finder/matcher.go:87-107 | an app name with no tokens leaves the right pointer at -1, which is then used as an index | `containsName` with app `""` and file tokens `receipt`, `plist`, reached under the receipts root | no match for an app without tokens | not executed | Matcher.ContainsNamePanicsOnEmptyApp | Matcher.ContainsName |
| finder/report.go:49-57 | the Lstat result is dereferenced even when Lstat failed | a match removed between the walk and the report | a failed Lstat is treated as no symlink | not executed | Report.LstatFailurePanics | Report.SymlinkBit |
| deleter/deleter.go:117-120 | after "could not be deleted" the goroutine goes on to log "Successfully deleted" | an existing path whose `RemoveAll` fails for a reason other than permission | only the failure is reported | not executed | Deleter.ForceReportsFailureAsDeleted | Deleter.ForceStep |
| finder/finder.go:173-187 | one depth variable shared by all goroutines is set per root | a preferences root scanned while another root's goroutine reads the depth | each root scanned with its own depth | not executed | Finder.PreferencesDepthRace | Catalog.SearchDepthFor |
| rmapp/finder.go:445-470 | the total adds the Stat size of each match to its disk usage | one file with Stat size 10 and disk usage 4096 gives a total of 4106 | the total is the sum of the reported sizes | not executed | LegacyFinder.TotalCountsStatAndUsage | Report.PeekReportShape |
