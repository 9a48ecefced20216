/** The configured sheets list `urlConfig` of main.js and the two handlers
    that reassign it: `POST /api/config` appends an entry and
    `DELETE /api/config` filters entries out by url. */
module UrlConfig {
  import opened Wrappers

  /** One configured sheet, `{ url, name, key }` as taken from a request
      body; a field the body leaves out is `None` (`undefined`). */
  datatype ConfigEntry = ConfigEntry(url: Option<string>, name: Option<string>, key: Option<string>)

  /** `entries.filter(entry => entry.url !== url)`. Strict inequality on a
      string or `undefined` is inequality of the `Option`s. */
  function WithoutUrl(entries: seq<ConfigEntry>, url: Option<string>): (r: seq<ConfigEntry>)
    ensures |r| <= |entries|
    ensures forall k :: 0 <= k < |r| ==> r[k].url != url && r[k] in entries
  {
    if entries == [] then []
    else (if entries[0].url != url then [entries[0]] else []) + WithoutUrl(entries[1..], url)
  }

  /** The number of entries whose url is `url`. */
  function CountUrl(entries: seq<ConfigEntry>, url: Option<string>): nat {
    if entries == [] then 0
    else (if entries[0].url == url then 1 else 0) + CountUrl(entries[1..], url)
  }

  /** Filtering keeps the order: filtering a concatenation is concatenating
      the filtered parts. */
  lemma {:induction false} WithoutUrlConcat(a: seq<ConfigEntry>, b: seq<ConfigEntry>, url: Option<string>)
    ensures WithoutUrl(a + b, url) == WithoutUrl(a, url) + WithoutUrl(b, url)
  {
    if a == [] {
      assert a + b == b;
    } else {
      assert (a + b)[0] == a[0];
      assert (a + b)[1..] == a[1..] + b;
      WithoutUrlConcat(a[1..], b, url);
    }
  }

  /** Every entry with another url survives the filter. */
  lemma {:induction false} WithoutUrlKeepsOthers(entries: seq<ConfigEntry>, url: Option<string>, e: ConfigEntry)
    requires e in entries && e.url != url
    ensures e in WithoutUrl(entries, url)
  {
    if entries[0] != e {
      assert e in entries[1..];
      WithoutUrlKeepsOthers(entries[1..], url, e);
    }
  }

  /** Exactly the entries with that url go: the length drops by their number. */
  lemma {:induction false} WithoutUrlLength(entries: seq<ConfigEntry>, url: Option<string>)
    ensures |WithoutUrl(entries, url)| == |entries| - CountUrl(entries, url)
  {
    if entries != [] {
      WithoutUrlLength(entries[1..], url);
    }
  }

  /** Deleting a url no entry has leaves the list as it was. */
  lemma {:induction false} WithoutAbsentUrl(entries: seq<ConfigEntry>, url: Option<string>)
    requires forall k :: 0 <= k < |entries| ==> entries[k].url != url
    ensures WithoutUrl(entries, url) == entries
  {
    if entries != [] {
      WithoutAbsentUrl(entries[1..], url);
    }
  }

  /** Deleting by url twice is deleting once. */
  lemma WithoutUrlIdempotent(entries: seq<ConfigEntry>, url: Option<string>)
    ensures WithoutUrl(WithoutUrl(entries, url), url) == WithoutUrl(entries, url)
  {
    WithoutAbsentUrl(WithoutUrl(entries, url), url);
  }

  /** Adding an entry and then deleting its url leaves what deleting the url
      from the old list leaves. */
  lemma DeleteUndoesAdd(entries: seq<ConfigEntry>, url: Option<string>, name: Option<string>, key: Option<string>)
    ensures WithoutUrl(entries + [ConfigEntry(url, name, key)], url) == WithoutUrl(entries, url)
  {
    WithoutUrlConcat(entries, [ConfigEntry(url, name, key)], url);
    assert WithoutUrl([ConfigEntry(url, name, key)], url) == [];
  }

  /** The server's configuration state: the list the handlers reassign. */
  class ConfigServer {
    var urlConfig: seq<ConfigEntry>

    /** `store.get('urlConfig', [])`: start from the persisted list. */
    constructor (persisted: seq<ConfigEntry>)
      ensures urlConfig == persisted
    {
      urlConfig := persisted;
    }

    /** `urlConfig = [...urlConfig, { url, name, key }]`: exactly one entry
        more, at the end; the earlier entries are unchanged. */
    method AddConfig(url: Option<string>, name: Option<string>, key: Option<string>)
      modifies this
      ensures urlConfig == old(urlConfig) + [ConfigEntry(url, name, key)]
      ensures |urlConfig| == |old(urlConfig)| + 1 && urlConfig[..|old(urlConfig)|] == old(urlConfig)
    {
      urlConfig := urlConfig + [ConfigEntry(url, name, key)];
    }

    /** `urlConfig = urlConfig.filter(entry => entry.url !== url)`: no entry
        with that url is left, the others stay in their order. */
    method DeleteConfig(url: Option<string>)
      modifies this
      ensures urlConfig == WithoutUrl(old(urlConfig), url)
      ensures forall k :: 0 <= k < |urlConfig| ==> urlConfig[k].url != url
      ensures |urlConfig| == |old(urlConfig)| - CountUrl(old(urlConfig), url)
    {
      WithoutUrlLength(urlConfig, url);
      urlConfig := WithoutUrl(urlConfig, url);
    }
  }
}
