/** Where the server-side proxy sends a request once the mock API is switched off. */
module ServerProxy {
  import opened Wrappers
  import opened Text

  /** `s.replace(/\/$/, "")`: one trailing slash removed, when there is one. */
  function StripTrailingSlash(s: string): (r: string)
    ensures EndsWith(s, "/") ==> s == r + "/"
    ensures !EndsWith(s, "/") ==> r == s
  {
    if |s| > 0 && s[|s| - 1] == '/' then s[..|s| - 1] else s
  }

  /** A path that starts with "/" is kept; any other gets one in front. */
  function EnsureLeadingSlash(path: string): (r: string)
    ensures StartsWith(r, "/")
    ensures StartsWith(path, "/") ==> r == path
    ensures !StartsWith(path, "/") ==> r == "/" + path
  {
    if |path| > 0 && path[0] == '/' then path else "/" + path
  }

  /**
   * `resolveTarget`: no target without a configured base URL; otherwise the base
   * without its trailing slash, followed by the path with a leading slash.
   */
  function ResolveTarget(apiBaseUrl: Option<string>, path: string): (r: Option<string>)
    ensures r.None? <==> apiBaseUrl == None || apiBaseUrl == Some("")
    ensures r.Some? ==> r.value == StripTrailingSlash(apiBaseUrl.value) + EnsureLeadingSlash(path)
  {
    if apiBaseUrl == None || apiBaseUrl == Some("") then None
    else Some(StripTrailingSlash(apiBaseUrl.value) + EnsureLeadingSlash(path))
  }

  /** The target begins with the trimmed base, has a slash right after it, and ends with the path. */
  lemma TargetShape(base: string, path: string)
    requires base != ""
    ensures var t := ResolveTarget(Some(base), path).value;
      && StartsWith(t, StripTrailingSlash(base))
      && t[|StripTrailingSlash(base)|] == '/'
      && EndsWith(t, path)
  {
    var b := StripTrailingSlash(base);
    var p := EnsureLeadingSlash(path);
    var t := b + p;
    assert t[..|b|] == b;
    assert t[|b|] == p[0];
    assert t[|t| - |path|..] == path by {
      if !StartsWith(path, "/") {
        assert p == "/" + path;
        assert t == (b + "/") + path;
      }
    }
  }

  /** A base configured with or without its trailing slash leads to the same target. */
  lemma TrailingSlashOnBaseIsIgnored(base: string, path: string)
    requires base != "" && !EndsWith(base, "/")
    ensures ResolveTarget(Some(base + "/"), path) == ResolveTarget(Some(base), path)
  {
    assert (base + "/")[..|base|] == base;
  }

  /** A path written with or without its leading slash leads to the same target. */
  lemma LeadingSlashOnPathIsIgnored(base: Option<string>, path: string)
    requires !StartsWith(path, "/")
    ensures ResolveTarget(base, "/" + path) == ResolveTarget(base, path)
  {
    assert StartsWith("/" + path, "/");
  }
}
