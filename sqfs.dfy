/**
 * The squashfs-image syncer's URI handling (src/pkgcore/sync/sqfs.py): it
 * advertises the `sqfs+http://` and `sqfs+https://` schemes and strips the
 * `sqfs+` marker to obtain the URI the file syncer downloads.
 */
module Sqfs {
  import opened Wrappers
  import opened Text

  /** `base.UriError(raw_uri, "unsupported URI")`. */
  datatype UriError = UriError(uri: string, msg: string)

  /** A scheme prefix the syncer claims, with its priority. */
  datatype SupportedUri = SupportedUri(prefix: string, priority: int)

  /** `sqfs_syncer.supported_uris`. */
  const SupportedUris: seq<SupportedUri> := [SupportedUri("sqfs+http://", 5), SupportedUri("sqfs+https://", 5)]

  const Marker: string := "sqfs+"

  /** `sqfs_syncer.parse_uri`. */
  function ParseUri(raw: string): (r: Result<string, UriError>)
    ensures r.Ok? <==> StartsWith(raw, "sqfs+http://") || StartsWith(raw, "sqfs+https://")
    ensures r.Ok? ==> |r.value| == |raw| - 5 && raw == Marker + r.value
    ensures r.Ok? ==> StartsWith(r.value, "http://") || StartsWith(r.value, "https://")
    ensures r.Err? ==> r.error == UriError(raw, "unsupported URI")
  {
    if StartsWith(raw, "sqfs+http://") || StartsWith(raw, "sqfs+https://") then
      var p := if StartsWith(raw, "sqfs+http://") then "sqfs+http://" else "sqfs+https://";
      assert raw[..|p|] == p;
      assert raw[..5] == p[..5] == Marker;
      assert raw == raw[..5] + raw[5..];
      assert raw[5..][..|p| - 5] == raw[5..|p|] == p[5..];
      Ok(raw[5..])
    else Err(UriError(raw, "unsupported URI"))
  }

  /** `sqfs+http://…` gives `http://…`. */
  lemma ParseHttp(rest: string)
    ensures ParseUri("sqfs+http://" + rest) == Ok("http://" + rest)
  {
    var raw := "sqfs+http://" + rest;
    assert raw[..12] == "sqfs+http://";
    assert raw[5..] == "http://" + rest;
  }

  /** `sqfs+https://…` gives `https://…`. */
  lemma ParseHttps(rest: string)
    ensures ParseUri("sqfs+https://" + rest) == Ok("https://" + rest)
  {
    var raw := "sqfs+https://" + rest;
    assert raw[..13] == "sqfs+https://";
    assert raw[5..] == "https://" + rest;
  }

  /**
   * Marking a URI and parsing it back is the identity exactly for `http`
   * and `https` URIs; any other URI is refused.
   */
  lemma MarkThenParse(uri: string)
    ensures ParseUri(Marker + uri) == Ok(uri) <==> StartsWith(uri, "http://") || StartsWith(uri, "https://")
    ensures !(StartsWith(uri, "http://") || StartsWith(uri, "https://")) ==> ParseUri(Marker + uri).Err?
  {
    var raw := Marker + uri;
    assert raw[5..] == uri;
    if StartsWith(uri, "http://") {
      assert raw[..12] == Marker + uri[..7];
    }
    if StartsWith(uri, "https://") {
      assert raw[..13] == Marker + uri[..8];
    }
    if StartsWith(raw, "sqfs+http://") {
      assert uri[..7] == raw[5..12];
    }
    if StartsWith(raw, "sqfs+https://") {
      assert uri[..8] == raw[5..13];
    }
  }

  /** Exactly two schemes are advertised, each with priority 5, and parsing accepts every URI under either. */
  lemma SupportedUrisParse(i: nat, rest: string)
    requires i < |SupportedUris|
    ensures |SupportedUris| == 2 && SupportedUris[i].priority == 5
    ensures ParseUri(SupportedUris[i].prefix + rest).Ok?
  {
    if i == 0 {
      ParseHttp(rest);
    } else {
      ParseHttps(rest);
    }
  }
}
