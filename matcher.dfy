/** finder/matcher.go: deciding whether a file or directory name belongs to the application, by the
    application's display name and its bundle identifier. */
module Matcher {
  import opened GoStrings
  import opened Catalog

  /** `ScanContext` without its channel. `rootPath` is the root being scanned, which `isMatch` reads as
      `ctx.RootPath` although the Go record declares no such field. */
  datatype ScanContext = ScanContext(
    appName: string,
    bundleID: string,
    domainHint: string,
    searchDepth: int,
    rootPath: string)

  /** The characters file names are tokenized on when they contain no space. */
  const FileDelimiters: set<char> := {'.', '-', '_', ' ', '/'}

  /** `tokenize`: a name holding a space is split on spaces only, any other name on `. - _ space /`. */
  function Tokenize(name: string): (tokens: seq<string>)
    ensures forall t | t in tokens :: t != "" && ' ' !in t
  {
    if Contains(name, " ") then Fields(name, {' '}) else Fields(name, FileDelimiters)
  }

  /** A name without spaces, built from delimiter-free words joined by dots, tokenizes back into the words. */
  lemma TokenizeDotted(words: seq<string>)
    requires forall w | w in words :: w != "" && NoneIn(w, FileDelimiters)
    ensures Tokenize(Join(words, ".")) == words
  {
    JoinWithout(words, ".", ' ');
    ContainsChar(Join(words, "."), ' ');
    FieldsJoin(words, '.', FileDelimiters);
  }

  /** A name of two or more space-separated words tokenizes into those words, dots and dashes included. */
  lemma TokenizeSpaced(words: seq<string>)
    requires |words| >= 2
    requires forall w | w in words :: w != "" && ' ' !in w
    ensures Tokenize(Join(words, " ")) == words
  {
    var s := Join(words, " ");
    assert s == words[0] + " " + Join(words[1..], " ");
    assert s[|words[0]|] == ' ';
    ContainsChar(s, ' ');
    assert forall w | w in words :: NoneIn(w, {' '});
    FieldsJoin(words, ' ', {' '});
  }

  /** `GetDomainHint`: the second `.`-separated field of the bundle identifier, or "" when there is none. */
  function GetDomainHint(bundleID: string): (hint: string)
    ensures '.' !in hint
  {
    var parts := SplitOn(bundleID, '.');
    if |parts| >= 2 then parts[1] else ""
  }

  /** The hint of a dotted identifier is its second label. */
  lemma DomainHintIsSecondLabel(labels: seq<string>)
    requires |labels| >= 2
    requires forall l | l in labels :: '.' !in l
    ensures GetDomainHint(Join(labels, ".")) == labels[1]
  {
    SplitOnJoin(labels, '.');
  }

  /** An identifier without a dot has no hint. */
  lemma DomainHintWithoutDot(bundleID: string)
    requires '.' !in bundleID
    ensures GetDomainHint(bundleID) == ""
  {
    SplitOnCount(bundleID, '.');
  }

  /** The window starting at token `i` has the application's first token at its left end and its last token
      at its right end; the tokens in between are not looked at. */
  predicate WindowAt(app: seq<string>, tokens: seq<string>, i: int)
  {
    |app| > 0 && 0 <= i && i + |app| <= |tokens|
    && tokens[i] == app[0] && tokens[i + |app| - 1] == app[|app| - 1]
  }

  /** What `containsName` decides when it returns normally: some window of the application's width matches
      at both ends. */
  predicate NameWindow(app: seq<string>, tokens: seq<string>)
  {
    exists i | 0 <= i <= |tokens| - |app| :: WindowAt(app, tokens, i)
  }

  /** How `containsName` ends: true, false, or a run-time panic from indexing with -1. */
  datatype Probe = Hit | Miss | IndexOutOfRange

  /** `containsName` as written: two pointers `width - 1` apart slide over the file name's tokens. When the
      application name has no tokens the right pointer starts at -1 and the first step indexes with it. */
  method ContainsNameAsWritten(appName: string, tokens: seq<string>) returns (r: Probe)
    ensures var app := Tokenize(appName);
      r == if |tokens| < |app| then Miss
           else if |app| == 0 && |tokens| > 0 then IndexOutOfRange
           else if NameWindow(app, tokens) then Hit
           else Miss
  {
    var app := Tokenize(appName);
    var width := |app|;
    var left := 0;
    var right := width - 1;
    if |tokens| < width {
      return Miss;
    }
    var i := 0;
    while i < |tokens|
      invariant 0 <= i <= |tokens|
      invariant left == i && right == i + width - 1
      invariant width == 0 ==> i == 0
      invariant forall j :: 0 <= j < i ==> !WindowAt(app, tokens, j)
    {
      if right >= |tokens| {
        return Miss;
      }
      if right < 0 {
        return IndexOutOfRange;
      }
      if tokens[left] == app[0] && tokens[right] == app[width - 1] {
        assert WindowAt(app, tokens, i);
        return Hit;
      }
      left := left + 1;
      right := right + 1;
      i := i + 1;
    }
    return Miss;
  }

  /** `containsName` as intended: an application name without tokens has no window to find. */
  method ContainsName(appName: string, tokens: seq<string>) returns (r: bool)
    ensures r == NameWindow(Tokenize(appName), tokens)
  {
    if |Tokenize(appName)| == 0 {
      return false;
    }
    var probe := ContainsNameAsWritten(appName, tokens);
    r := probe == Hit;
  }

  /** An application name with no tokens makes `containsName` index with -1 on any file name that has a
      token: here the empty name against the receipt `receipt.plist`. */
  method ContainsNamePanicsOnEmptyApp() returns (r: Probe)
    ensures r == IndexOutOfRange
  {
    assert !Contains("", " ");
    assert Tokenize("") == [];
    r := ContainsNameAsWritten("", ["receipt", "plist"]);
  }

  /** Rule 1: the bundle identifier occurs in the name. */
  predicate BundleRule(name: string, bundle: string)
  {
    Contains(name, bundle)
  }

  /** Rule 2: the bundle identifier ends in digits, and without them it occurs in the name. */
  predicate NumericSuffixRule(name: string, bundle: string)
  {
    var base := TrimRightDigits(bundle);
    base != bundle && Contains(name, base)
  }

  /** Rule 3: the name is a `.app` bundle whose stem starts with the application name. */
  predicate AppBundleRule(name: string, app: string)
  {
    HasSuffix(name, ".app")
    && (TrimSuffix(name, ".app") == app || HasPrefix(TrimSuffix(name, ".app"), app))
  }

  /** Rule 4: under the receipts root, the application's tokens frame a window of the name's tokens. */
  predicate ReceiptWindowRule(roots: SearchRoots, name: string, app: string, rootPath: string)
  {
    rootPath == roots.system.receipts && NameWindow(Tokenize(app), Tokenize(name))
  }

  /** Rule 5: some token of the name is the whole application name. */
  predicate TokenRule(name: string, app: string)
  {
    app in Tokenize(name)
  }

  /** `isMatch` on the lower-cased name, application name and bundle identifier. */
  predicate Matches(roots: SearchRoots, filename: string, ctx: ScanContext)
  {
    var name := Lower(filename);
    var app := Lower(ctx.appName);
    var bundle := Lower(ctx.bundleID);
    BundleRule(name, bundle) || NumericSuffixRule(name, bundle) || AppBundleRule(name, app)
    || ReceiptWindowRule(roots, name, app, ctx.rootPath) || TokenRule(name, app)
  }

  /** `isMatch`: the rules tried in order, each returning as soon as it holds, the last by a loop over the tokens. */
  method IsMatch(roots: SearchRoots, filename: string, ctx: ScanContext) returns (r: bool)
    ensures r == Matches(roots, filename, ctx)
  {
    var name := Lower(filename);
    var app := Lower(ctx.appName);
    var bundle := Lower(ctx.bundleID);
    if Contains(name, bundle) {
      return true;
    }
    var base := TrimRightDigits(bundle);
    if base != bundle && Contains(name, base) {
      return true;
    }
    if HasSuffix(name, ".app") {
      var stem := TrimSuffix(name, ".app");
      if stem == app || HasPrefix(stem, app) {
        return true;
      }
    }
    var tokens := Tokenize(name);
    if ctx.rootPath == roots.system.receipts {
      var inWindow := ContainsName(app, tokens);
      if inWindow {
        return true;
      }
    }
    var i := 0;
    while i < |tokens|
      invariant 0 <= i <= |tokens|
      invariant app !in tokens[..i]
    {
      if tokens[i] == app {
        return true;
      }
      assert tokens[..i + 1] == tokens[..i] + [tokens[i]];
      i := i + 1;
    }
    assert tokens[..i] == tokens;
    return false;
  }

  /** Lower-casing any of the three inputs first does not change the answer. */
  lemma MatchesIgnoresCase(roots: SearchRoots, filename: string, ctx: ScanContext)
    ensures Matches(roots, filename, ctx)
         == Matches(roots, Lower(filename), ctx.(appName := Lower(ctx.appName), bundleID := Lower(ctx.bundleID)))
  {
    LowerIdempotent(filename);
    LowerIdempotent(ctx.appName);
    LowerIdempotent(ctx.bundleID);
  }

  /** With an empty bundle identifier every name matches. */
  lemma EmptyBundleMatchesEverything(roots: SearchRoots, filename: string, ctx: ScanContext)
    requires ctx.bundleID == ""
    ensures Matches(roots, filename, ctx)
  {
    assert Lower(ctx.bundleID) == "";
    assert HasPrefix(Lower(filename), "");
  }

  /** An identifier with a numeric suffix also matches names holding the identifier without the digits. */
  lemma NumericSuffixMatches(roots: SearchRoots, filename: string, ctx: ScanContext, base: string, digits: string)
    requires Lower(ctx.bundleID) == base + digits
    requires digits != "" && forall i :: 0 <= i < |digits| ==> IsDigit(digits[i])
    requires base == "" || !IsDigit(base[|base| - 1])
    requires Contains(Lower(filename), base)
    ensures Matches(roots, filename, ctx)
  {
    TrimRightDigitsOf(base, digits);
    assert |base + digits| > |base|;
  }

  /** `com.microsoft.teams2` matches `com.microsoft.teams.plist`. */
  lemma TeamsExample(roots: SearchRoots, ctx: ScanContext)
    requires ctx.bundleID == "com.microsoft.teams2"
    ensures Matches(roots, "com.microsoft.teams.plist", ctx)
  {
    LowerOfLowerCase("com.microsoft.teams2");
    LowerOfLowerCase("com.microsoft.teams.plist");
    assert "com.microsoft.teams2" == "com.microsoft.teams" + "2";
    assert "com.microsoft.teams.plist" == "com.microsoft.teams" + ".plist";
    ContainsPrefix("com.microsoft.teams", ".plist");
    NumericSuffixMatches(roots, "com.microsoft.teams.plist", ctx, "com.microsoft.teams", "2");
  }

  /** A `.app` name matches whenever its stem starts with the application name, on no token boundary. */
  lemma AppBundlePrefixMatches(roots: SearchRoots, filename: string, ctx: ScanContext, rest: string)
    requires Lower(filename) == Lower(ctx.appName) + rest + ".app"
    ensures Matches(roots, filename, ctx)
  {
    var name := Lower(filename);
    var app := Lower(ctx.appName);
    assert name[|name| - 4..] == ".app";
    assert TrimSuffix(name, ".app") == app + rest;
    assert (app + rest)[..|app|] == app;
  }

  /** So `AppHelperXYZ.app` belongs to an application called `App`, whatever its bundle identifier. */
  lemma AppHelperExample(roots: SearchRoots, ctx: ScanContext)
    requires ctx.appName == "app"
    ensures Matches(roots, "apphelperxyz.app", ctx)
  {
    LowerOfLowerCase("app");
    LowerOfLowerCase("apphelperxyz.app");
    AppBundlePrefixMatches(roots, "apphelperxyz.app", ctx, "helperxyz");
  }

  /** When none of the first four rules holds, the answer is whether some token is the application name. */
  lemma TokenFallback(roots: SearchRoots, filename: string, ctx: ScanContext)
    requires var name := Lower(filename); var app := Lower(ctx.appName); var bundle := Lower(ctx.bundleID);
      !BundleRule(name, bundle) && !NumericSuffixRule(name, bundle) && !AppBundleRule(name, app)
      && !ReceiptWindowRule(roots, name, app, ctx.rootPath)
    ensures Matches(roots, filename, ctx) <==> Lower(ctx.appName) in Tokenize(Lower(filename))
  {
  }

  /** Away from the receipts root the window rule never applies. */
  lemma WindowOnlyUnderReceipts(roots: SearchRoots, filename: string, ctx: ScanContext)
    requires ctx.rootPath != roots.system.receipts
    ensures Matches(roots, filename, ctx)
        <==> var name := Lower(filename); var app := Lower(ctx.appName); var bundle := Lower(ctx.bundleID);
             BundleRule(name, bundle) || NumericSuffixRule(name, bundle) || AppBundleRule(name, app) || TokenRule(name, app)
  {
  }

  /** When the application's tokens occur as a contiguous run, the window test finds them. */
  lemma ContiguousRunIsWindow(app: seq<string>, tokens: seq<string>, i: int)
    requires |app| > 0 && 0 <= i && i + |app| <= |tokens|
    requires tokens[i..i + |app|] == app
    ensures NameWindow(app, tokens)
  {
    assert tokens[i..i + |app|][0] == tokens[i];
    assert tokens[i..i + |app|][|app| - 1] == tokens[i + |app| - 1];
    assert WindowAt(app, tokens, i);
  }

  /** The interior of the window is never compared: `a b c` is found in `a.x.c` although `b` is absent. */
  lemma WindowIgnoresInterior()
    ensures NameWindow(["a", "b", "c"], ["a", "x", "c"])
    ensures "b" !in ["a", "x", "c"]
  {
    assert WindowAt(["a", "b", "c"], ["a", "x", "c"], 0);
  }

  /** A receipt named `prefix.first.other.last` is framed by the three-word application name
      `first middle last`, whatever `other` is: only the window's two ends are compared. */
  lemma ReceiptWindowIgnoresInterior(prefix: string, first: string, middle: string, other: string, last: string)
    requires forall w | w in [prefix, first, middle, other, last] :: w != "" && NoneIn(w, FileDelimiters)
    ensures NameWindow(Tokenize(first + " " + middle + " " + last),
                       Tokenize(prefix + "." + first + "." + other + "." + last))
  {
    var app := [first, middle, last];
    forall w | w in app
      ensures w != "" && ' ' !in w
    {
      NoneInExcludes(w, FileDelimiters, ' ');
    }
    assert Join(app, " ") == first + " " + middle + " " + last by {
      assert app[1..][1..] == [last];
      assert Join(app[1..], " ") == middle + " " + last;
      assert Join(app, " ") == first + " " + (middle + " " + last);
    }
    TokenizeSpaced(app);
    var words := [prefix, first, other, last];
    assert Join(words, ".") == prefix + "." + first + "." + other + "." + last by {
      assert words[1..][1..][1..] == [last];
      assert Join(words[1..][1..], ".") == other + "." + last;
      assert Join(words[1..], ".") == first + "." + (other + "." + last);
      assert Join(words, ".") == prefix + "." + (first + "." + (other + "." + last));
    }
    assert forall w | w in words :: w in [prefix, first, middle, other, last];
    TokenizeDotted(words);
    assert WindowAt(app, words, 1);
  }
}
