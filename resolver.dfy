/** resolver/resolver.go: turning the name typed on the command line into the `.app` bundle `mdls` is asked
    about, and reading the bundle identifier out of `mdls`'s answer. Running `mdls` is not modelled: its
    output is an input here. */
module Resolver {
  import opened Wrappers
  import opened GoStrings

  const Quote: char := '"'

  /** `extractQuotedSubstring`: the second `"`-separated field of the text, which is everything after the
      first quote up to the next quote or the end; an error when the text holds no quote at all. */
  function ExtractQuotedSubstring(str: string): (r: Result<string, string>)
    ensures r.Err? <==> Quote !in str
    ensures r.Ok? ==> Quote !in r.value
  {
    SplitOnCount(str, Quote);
    var strs := SplitOn(str, Quote);
    if |strs| >= 2 then Ok(strs[1]) else Err("bundleid value is empty")
  }

  /** Text without a quote, a quote, a quote-free value, then either the end or another quote: the value is
      what is extracted. Every text holding a quote has exactly one such shape. */
  lemma ExtractQuoted(pre: string, v: string, rest: string)
    requires Quote !in pre && Quote !in v
    requires rest == [] || rest[0] == Quote
    ensures ExtractQuotedSubstring(pre + [Quote] + v + rest) == Ok(v)
  {
    assert pre + [Quote] + v + rest == pre + [Quote] + (v + rest);
    SplitOnFirst(pre, Quote, v + rest);
    if rest == [] {
      assert v + rest == v;
      SplitOnWithout(v, Quote);
    } else {
      assert v + rest == v + [Quote] + rest[1..];
      SplitOnFirst(v, Quote, rest[1..]);
    }
  }

  /** The `mdls` line of Safari, `kMDItemCFBundleIdentifier = "com.apple.Safari"`, yields its bundle
      identifier. */
  lemma SafariIdentifier(key: string, id: string)
    requires key == "kMDItemCFBundleIdentifier = " && id == "com.apple.Safari"
    ensures ExtractQuotedSubstring(key + [Quote] + id + [Quote]) == Ok(id)
  {
    assert Quote !in key && Quote !in id;
    ExtractQuoted(key, id, [Quote]);
  }

  /** A quote that is never closed, as in `"incomplete quote`, is no error: the rest of the text is returned. */
  lemma IncompleteQuoteAccepted(rest: string)
    requires rest == "incomplete quote"
    ensures ExtractQuotedSubstring([Quote] + rest) == Ok(rest)
  {
    assert Quote !in rest;
    ExtractQuoted("", rest, "");
    assert "" + [Quote] + rest + "" == [Quote] + rest;
  }

  /** Two quotes with nothing between give the empty identifier, without an error. */
  lemma EmptyQuotes()
    ensures ExtractQuotedSubstring("\"\"") == Ok("")
  {
    ExtractQuoted("", "", "\"");
    assert "" + [Quote] + "" + "\"" == "\"\"";
  }

  /** `getDotApp`: the name unchanged when `.app` occurs anywhere in it (case-sensitively), else the name with
      `.app` appended. */
  function GetDotApp(name: string): (r: string)
    ensures Contains(r, ".app")
    ensures HasPrefix(r, name)
    ensures Contains(name, ".app") <==> r == name
  {
    if Contains(name, ".app") then name
    else
      ContainsSuffix(name, ".app");
      assert (name + ".app")[..|name|] == name;
      name + ".app"
  }

  /** Applying `getDotApp` twice is applying it once. */
  lemma GetDotAppIdempotent(name: string)
    ensures GetDotApp(GetDotApp(name)) == GetDotApp(name)
  {
  }

  /** `Blender` becomes `Blender.app`, `Blender.app` stays, and the empty name becomes `.app`. */
  lemma GetDotAppExamples()
    ensures GetDotApp("Blender") == "Blender.app"
    ensures GetDotApp("Blender.app") == "Blender.app"
    ensures GetDotApp("") == ".app"
  {
    if Contains("Blender", ".app") {
      ContainsFirstChar("Blender", ".app");
    }
    assert "Blender.app" == "Blender" + ".app";
    ContainsSuffix("Blender", ".app");
    if Contains("", ".app") {
      ContainsFirstChar("", ".app");
    }
  }

  /** The path `getMdlsIdentifier` hands to `mdls`: a name not starting with `/` is taken to be under
      `/Applications`. */
  function MdlsTarget(appName: string): (path: string)
    ensures HasPrefix(path, "/") && HasSuffix(path, appName)
    ensures path == appName <==> HasPrefix(appName, "/")
  {
    if HasPrefix(appName, "/") then appName
    else
      assert ("/Applications/" + appName)[|"/Applications/" + appName| - |appName|..] == appName;
      "/Applications/" + appName
  }

  /** The command `getMdlsIdentifier` runs. */
  function MdlsArgv(appName: string): (argv: seq<string>)
    ensures |argv| == 4 && argv[0] == "mdls" && argv[1] == MdlsTarget(appName)
  {
    ["mdls", MdlsTarget(appName), "-name", "kMDItemCFBundleIdentifier"]
  }

  /** The name `getMdlsIdentifier` reports when `mdls` fails: the path without the `/Applications/` prefix
      and the `.app` suffix. */
  function NotFoundName(path: string): string
  {
    TrimSuffix(TrimPrefix(path, "/Applications/"), ".app")
  }

  /** For a plain name without `.app` that does not start with `/`, the name reported when `mdls` fails is
      the name typed. */
  lemma NotFoundNameRoundTrip(name: string)
    requires !HasPrefix(name, "/") && !Contains(name, ".app")
    ensures NotFoundName(MdlsTarget(GetDotApp(name))) == name
  {
    var dotted := name + ".app";
    assert !HasPrefix(dotted, "/") by {
      if |name| > 0 {
        assert dotted[..1] == name[..1];
      } else {
        assert dotted[0] == '.';
      }
    }
    var path := "/Applications/" + dotted;
    assert HasPrefix(path, "/Applications/");
    assert TrimPrefix(path, "/Applications/") == dotted;
    assert dotted[|dotted| - 4..] == ".app";
    assert dotted[..|dotted| - 4] == name;
  }

  /** `getBundleID`: the identifier, or None where the program reports an empty identifier and exits. */
  function GetBundleID(mdlsOutput: string): (id: Option<string>)
    ensures id.None? <==> Quote !in mdlsOutput
  {
    var r := ExtractQuotedSubstring(mdlsOutput);
    if r.Ok? then Some(r.value) else None
  }
}
