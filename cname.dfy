/**
 * The CNAME shape check and the suggested fix (dns/lint.py lines 41-57).
 *
 * A CNAME holding a `/` looks like a URL, not a domain name: the entry is reported, and a
 * cleaned value is suggested when the clean-up removes every `/`.
 */
module Cname {
  import opened Wrappers

  /** `s.removeprefix(p)`. */
  function RemovePrefix(s: string, p: string): (r: string)
    ensures p <= s ==> p + r == s
    ensures !(p <= s) ==> r == s
  {
    if p <= s then s[|p|..] else s
  }

  /** `s.index(c)`, which Python only reaches here once `c in s` holds. */
  function FirstIndex(s: string, c: char): (i: nat)
    requires c in s
    ensures i < |s| && s[i] == c
    ensures c !in s[..i]
  {
    if s[0] == c then 0 else 1 + FirstIndex(s[1..], c)
  }

  /** `cname.removeprefix("https://").removeprefix("http://")`: both calls, one after the other. */
  function StripScheme(cname: string): (r: string)
    ensures "https://" <= cname && "http://" <= cname[8..] ==> r == cname[15..]
    ensures "https://" <= cname && !("http://" <= cname[8..]) ==> r == cname[8..]
    ensures !("https://" <= cname) && "http://" <= cname ==> r == cname[7..]
    ensures !("https://" <= cname) && !("http://" <= cname) ==> r == cname
  {
    RemovePrefix(RemovePrefix(cname, "https://"), "http://")
  }

  /**
   * Lines 53-54: cut at the first `/` when it is at an index greater than 0. Python's condition
   * `(idx := cname.index("/")) and idx > 0` tests the truth of `idx` (non-zero) and then `idx > 0`.
   */
  function TruncateAtSlash(s: string): (r: string)
    ensures r <= s
    ensures '/' in s && s[0] != '/' ==> '/' !in r && s[|r|] == '/'
    ensures !('/' in s && s[0] != '/') ==> r == s
  {
    if '/' in s && FirstIndex(s, '/') != 0 && FirstIndex(s, '/') > 0 then s[..FirstIndex(s, '/')] else s
  }

  /** Lines 52-57: the value proposed in "Maybe try '...' instead?", if one is shown. */
  function Suggest(cname: string): (r: Option<string>)
    ensures r.Some? <==> !(StripScheme(cname) != [] && StripScheme(cname)[0] == '/')
    ensures r.Some? ==> '/' !in r.value && r.value <= StripScheme(cname)
    ensures r.Some? ==> r.value == StripScheme(cname) || StripScheme(cname)[|r.value|] == '/'
  {
    var s := TruncateAtSlash(StripScheme(cname));
    if '/' in s then None else Some(s)
  }

  /** What the linter reports about one CNAME that looks like a URL. */
  datatype Finding = Finding(domain: string, cname: string, suggestion: Option<string>)

  /** The check of one registry entry (lines 42-57): `None` when it passes. */
  function CheckEntry(domain: string, cname: string): (r: Option<Finding>)
    ensures r.None? <==> '/' !in cname
    ensures r.Some? ==> r.value.domain == domain && r.value.cname == cname
    ensures r.Some? ==> r.value.suggestion == Suggest(cname)
  {
    if '/' in cname then Some(Finding(domain, cname, Suggest(cname))) else None
  }

  /** When the stripped CNAME has its first `/` at index `i > 0`, the suggestion is what precedes it. */
  lemma SuggestCutsAtFirstSlash(cname: string, i: nat)
    requires i < |StripScheme(cname)| && 0 < i
    requires StripScheme(cname)[i] == '/' && '/' !in StripScheme(cname)[..i]
    ensures Suggest(cname) == Some(StripScheme(cname)[..i])
  {
  }

  /** A stripped CNAME without any `/` is suggested unchanged. */
  lemma SuggestWholeWithoutSlash(cname: string)
    requires '/' !in StripScheme(cname)
    ensures Suggest(cname) == Some(StripScheme(cname))
  {
  }

  lemma ExampleHttpsWithPath()
    ensures Suggest("https://example.com/path") == Some("example.com")
  {
    var s := "https://example.com/path";
    assert "https://" <= s && s[8..][0] == 'e';
    assert StripScheme(s) == "example.com/path";
    assert StripScheme(s)[..11] == "example.com";
    SuggestCutsAtFirstSlash(s, 11);
  }

  lemma ExampleHttpsWithoutPath()
    ensures Suggest("https://example.com") == Some("example.com")
  {
    var s := "https://example.com";
    assert "https://" <= s && s[8..][0] == 'e';
    assert StripScheme(s) == "example.com";
    SuggestWholeWithoutSlash(s);
  }

  lemma ExampleNoScheme()
    ensures Suggest("example.com/path") == Some("example.com")
  {
    var s := "example.com/path";
    assert s[0] == 'e';
    assert StripScheme(s) == s;
    assert s[..11] == "example.com";
    SuggestCutsAtFirstSlash(s, 11);
  }

  /** Both prefixes are removed in turn: `https://http://a/b` is stripped to `a/b`, then cut to `a`. */
  lemma ExampleBothSchemes()
    ensures StripScheme("https://http://a/b") == "a/b"
    ensures Suggest("https://http://a/b") == Some("a")
  {
    var s := "https://http://a/b";
    assert "https://" <= s && "http://" <= s[8..];
    assert StripScheme(s) == "a/b";
    assert StripScheme(s)[..1] == "a";
    SuggestCutsAtFirstSlash(s, 1);
  }

  /** A leading `/` that survives the stripping gets no suggestion. */
  lemma ExampleNoSuggestion()
    ensures Suggest("/foo") == None
    ensures Suggest("https:///x") == None
  {
    assert "/foo"[0] == '/';
    assert StripScheme("https:///x") == "/x";
  }
}
