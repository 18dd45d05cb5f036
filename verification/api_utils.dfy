/**
 * The request URL builder of src/lib/apiUtils.ts. In development the Jira path is requested
 * as it is, through the development server's proxy; in production it is handed to the
 * serverless proxy as the single query parameter `path`, percent-encoded.
 *
 * The build mode (`import.meta.env.DEV`) is a parameter.
 */
module ApiUtils {
  import opened Wrappers
  import Uri

  /** The production base URL: the serverless proxy with an open `path` parameter. */
  const ProxyPrefix: string := "/api/proxy?path="

  /** `getApiBaseUrl`. */
  function ApiBaseUrl(dev: bool): (r: string)
    ensures dev <==> r == ""
    ensures !dev ==> r == ProxyPrefix
  {
    if dev then "" else ProxyPrefix
  }

  /** `buildApiUrl`: the base URL followed by the path, encoded outside development. */
  function BuildApiUrl(dev: bool, path: string): (r: string)
    ensures dev ==> r == path
    ensures !dev ==> |r| >= |ProxyPrefix| && r[..|ProxyPrefix|] == ProxyPrefix
    ensures !dev ==> r[|ProxyPrefix|..] == Uri.EncodeURIComponent(path)
  {
    var base := ApiBaseUrl(dev);
    if dev then base + path
    else
      var r := base + Uri.EncodeURIComponent(path);
      assert r[..|base|] == base && r[|base|..] == Uri.EncodeURIComponent(path);
      r
  }

  /** The value of the `path` parameter as the proxy reads it from a production URL: the text
      after the prefix up to the first `&` or `#`, percent-decoded. */
  function PathParameter(url: string): (r: Option<string>)
    ensures r.Some? ==> |url| >= |ProxyPrefix| && url[..|ProxyPrefix|] == ProxyPrefix
  {
    if |url| < |ProxyPrefix| || url[..|ProxyPrefix|] != ProxyPrefix then None
    else Uri.DecodeURIComponent(UpToDelimiter(url[|ProxyPrefix|..]))
  }

  /** The longest prefix of `s` with no `&` and no `#`. */
  function UpToDelimiter(s: string): (r: string)
    ensures |r| <= |s| && r == s[..|r|]
    ensures forall i :: 0 <= i < |r| ==> r[i] != '&' && r[i] != '#'
    ensures |r| < |s| ==> s[|r|] == '&' || s[|r|] == '#'
  {
    if s == [] || s[0] == '&' || s[0] == '#' then []
    else [s[0]] + UpToDelimiter(s[1..])
  }

  lemma {:induction false} UpToDelimiterAll(s: string)
    requires forall i :: 0 <= i < |s| ==> s[i] != '&' && s[i] != '#'
    ensures UpToDelimiter(s) == s
  {
    if s != [] {
      UpToDelimiterAll(s[1..]);
      assert [s[0]] + s[1..] == s;
    }
  }

  /** In production the path is followed by nothing that delimits a query parameter: its
      encoding holds no `&`, `#`, `/`, `?` or `=`. */
  lemma ProductionNoDelimiters(path: string)
    ensures var url := BuildApiUrl(false, path);
      forall i :: |ProxyPrefix| <= i < |url| ==> url[i] !in "/?&#="
  {
    var url := BuildApiUrl(false, path);
    var enc := Uri.EncodeURIComponent(path);
    Uri.NoQueryDelimiters(path);
    assert url[|ProxyPrefix|..] == enc;
    SuffixAvoids(url, |ProxyPrefix|, "/?&#=");
  }

  /** A suffix that avoids some characters avoids them at every position of the whole. */
  lemma SuffixAvoids(url: string, k: nat, cs: string)
    requires k <= |url|
    requires forall j :: 0 <= j < |url[k..]| ==> url[k..][j] !in cs
    ensures forall i :: k <= i < |url| ==> url[i] !in cs
  {
    forall i | k <= i < |url| ensures url[i] !in cs {
      assert url[i] == url[k..][i - k];
    }
  }

  /** So the whole path travels in the one parameter, and the proxy reads back exactly the
      path that was given. */
  lemma ProductionRoundTrip(path: string)
    ensures PathParameter(BuildApiUrl(false, path)) == Some(path)
  {
    var url := BuildApiUrl(false, path);
    var enc := Uri.EncodeURIComponent(path);
    assert url[..|ProxyPrefix|] == ProxyPrefix && url[|ProxyPrefix|..] == enc;
    assert UpToDelimiter(enc) == enc by {
      Uri.NoQueryDelimiters(path);
      UpToDelimiterAll(enc);
    }
    Uri.DecodeEncode(path);
  }
}
