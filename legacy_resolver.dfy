/** rmapp/resolver.go: the older resolver. Its `getDotApp` and the `/Applications/` prefixing in
    `getMdlsIdentifier` are the same as the newer ones (`Resolver.GetDotApp`, `Resolver.MdlsTarget`); its
    `extractQuotedSubstring` returns "" instead of an error when the text holds no quote. */
module LegacyResolver {
  import opened GoStrings
  import Resolver

  /** `extractQuotedSubstring` of the older package: the second `"`-separated field, or "" when there is none. */
  function ExtractQuotedSubstring(str: string): (r: string)
    ensures Resolver.Quote !in r
    ensures Resolver.Quote !in str ==> r == ""
  {
    SplitOnCount(str, Resolver.Quote);
    var strs := SplitOn(str, Resolver.Quote);
    if |strs| >= 2 then strs[1] else ""
  }

  /** The older extraction is the newer one with the error read as the empty identifier. */
  lemma AgreesWithResolver(str: string)
    ensures var r := Resolver.ExtractQuotedSubstring(str);
      ExtractQuotedSubstring(str) == if r.Ok? then r.value else ""
  {
  }

  /** The `mdls` line of Wireshark, `kMDItemCFBundleIdentifier = "org.wireshark.Wireshark"`, yields its
      bundle identifier. */
  lemma WiresharkIdentifier(key: string, id: string)
    requires key == "kMDItemCFBundleIdentifier = " && id == "org.wireshark.Wireshark"
    ensures ExtractQuotedSubstring(key + "\"" + id + "\"") == id
  {
    assert Resolver.Quote !in key && Resolver.Quote !in id;
    assert [Resolver.Quote] == "\"";
    Resolver.ExtractQuoted(key, id, "\"");
    AgreesWithResolver(key + "\"" + id + "\"");
  }

  /** Text without quotes and an empty quoted value give the same answer, so a missing identifier cannot be
      told from an empty one. */
  lemma MissingLooksEmpty()
    ensures ExtractQuotedSubstring("no quotes here") == ExtractQuotedSubstring("\"\"") == ""
  {
    Resolver.EmptyQuotes();
    assert Resolver.Quote !in "no quotes here";
  }
}
