/** `getWebhookUrl` of loggerLookup.js: the diagnostics webhook URL for a
    logging id and an event type. The table `HASH_TO_URLS` and the SHA-256
    hex digest `hashId` are parameters. */
module LoggerLookup {
  import opened Wrappers

  /** One table entry: event type to URL template. */
  type Entry = map<string, string>

  /** `HASH_TO_URLS`: entries keyed by the hashed id (or by the raw id). */
  type HashToUrls = map<string, Entry>

  /** The placeholder a template may hold for the id. */
  const Placeholder := "{id}"

  /** `entry[key]` read with JavaScript truthiness: an absent key and an
      empty template are both missing. */
  function TemplateFor(entry: Entry, key: string): (r: Option<string>)
    ensures r.Some? <==> key in entry && entry[key] != ""
    ensures r.Some? ==> r.value == entry[key]
  {
    if key in entry && entry[key] != "" then Some(entry[key]) else None
  }

  /** `a || b`: the first operand when it is present, else the second. */
  function Or(a: Option<string>, b: Option<string>): Option<string> {
    if a.Some? then a else b
  }

  /** `dataError` and `imagesError` are older names of `error`. */
  function NormalizeType(eventType: string): (r: string)
    ensures r == "error" <==> eventType in ["error", "dataError", "imagesError"]
    ensures r != "error" ==> r == eventType
  {
    if eventType == "dataError" || eventType == "imagesError" then "error" else eventType
  }

  /** The `template` the `if` chain picks for a normalised type. */
  function ResolveTemplate(entry: Entry, normalizedType: string): Option<string> {
    if normalizedType == "error" then
      Or(Or(TemplateFor(entry, "error"), TemplateFor(entry, "dataError")), TemplateFor(entry, "imagesError"))
    else if normalizedType == "warning" then
      Or(Or(Or(TemplateFor(entry, "warning"), TemplateFor(entry, "error")),
            TemplateFor(entry, "dataError")), TemplateFor(entry, "imagesError"))
    else
      TemplateFor(entry, normalizedType)
  }

  /** The keys tried, in order, for a normalised type. */
  function FallbackChain(normalizedType: string): seq<string> {
    if normalizedType == "error" then ["error", "dataError", "imagesError"]
    else if normalizedType == "warning" then ["warning", "error", "dataError", "imagesError"]
    else [normalizedType]
  }

  /** A reference reading of a fallback chain: the template of the first key
      that has one. */
  function FirstTemplate(entry: Entry, keys: seq<string>): Option<string> {
    if keys == [] then None else Or(TemplateFor(entry, keys[0]), FirstTemplate(entry, keys[1..]))
  }

  /** The reference finds a template exactly when some key of the chain
      has one, and it is the template of the first such key. */
  lemma {:induction false} FirstTemplateIsFirstPresent(entry: Entry, keys: seq<string>)
    ensures FirstTemplate(entry, keys).Some? <==> exists k :: 0 <= k < |keys| && TemplateFor(entry, keys[k]).Some?
    ensures FirstTemplate(entry, keys).Some? ==> exists k :: (0 <= k < |keys|
      && TemplateFor(entry, keys[k]) == FirstTemplate(entry, keys)
      && forall j :: 0 <= j < k ==> TemplateFor(entry, keys[j]).None?)
  {
    if keys != [] {
      FirstTemplateIsFirstPresent(entry, keys[1..]);
      assert forall k :: 1 <= k < |keys| ==> keys[k] == keys[1..][k - 1];
      var r := FirstTemplate(entry, keys);
      if TemplateFor(entry, keys[0]).None? && r.Some? {
        var k' :| 0 <= k' < |keys[1..]| && TemplateFor(entry, keys[1..][k']) == r
          && forall j :: 0 <= j < k' ==> TemplateFor(entry, keys[1..][j]).None?;
        assert TemplateFor(entry, keys[k' + 1]) == r;
      }
    }
  }

  /** Trying a chain is trying its head, then the rest. */
  lemma FirstTemplateCons(entry: Entry, key: string, rest: seq<string>)
    ensures FirstTemplate(entry, [key] + rest) == Or(TemplateFor(entry, key), FirstTemplate(entry, rest))
  {
  }

  /** The `||` chains of the source are exactly the first-present reading
      of the fallback chains. */
  lemma ResolveTemplateFollowsChain(entry: Entry, normalizedType: string)
    ensures ResolveTemplate(entry, normalizedType) == FirstTemplate(entry, FallbackChain(normalizedType))
  {
    var chain := FallbackChain(normalizedType);
    FirstTemplateCons(entry, "imagesError", []);
    FirstTemplateCons(entry, "dataError", ["imagesError"]);
    assert ["dataError"] + ["imagesError"] == ["dataError", "imagesError"];
    FirstTemplateCons(entry, "error", ["dataError", "imagesError"]);
    assert ["error"] + ["dataError", "imagesError"] == ["error", "dataError", "imagesError"];
    if normalizedType == "warning" {
      FirstTemplateCons(entry, "warning", ["error", "dataError", "imagesError"]);
      assert ["warning"] + ["error", "dataError", "imagesError"] == chain;
    } else if normalizedType != "error" {
      FirstTemplateCons(entry, normalizedType, []);
      assert [normalizedType] + [] == chain;
    }
  }

  /** `s` holds `pattern` at index `q`. */
  predicate OccursAt(s: string, pattern: string, q: int) {
    0 <= q && q + |pattern| <= |s| && s[q..q + |pattern|] == pattern
  }

  /** The first index at or after `from` where `pattern` occurs. */
  function IndexOf(s: string, pattern: string, from: nat): (r: Option<nat>)
    decreases |s| - from
    ensures r.Some? ==> from <= r.value && OccursAt(s, pattern, r.value)
    ensures r.Some? ==> forall q :: from <= q < r.value ==> !OccursAt(s, pattern, q)
    ensures r.None? ==> forall q :: from <= q ==> !OccursAt(s, pattern, q)
  {
    if from + |pattern| > |s| then None
    else if OccursAt(s, pattern, from) then Some(from)
    else IndexOf(s, pattern, from + 1)
  }

  /** The replacement string of `String.prototype.replace` with a string
      pattern and no captures: `$$` is `$`, `$&` the matched text, `` $` ``
      the text before the match and `$'` the text after it; any other `$`
      stands for itself. */
  function ExpandReplacement(replacement: string, matched: string, before: string, after: string): string
    decreases |replacement|
  {
    if replacement == [] then []
    else if replacement[0] == '$' && |replacement| >= 2 && replacement[1] in "$&`'" then
      var expansion :=
        if replacement[1] == '$' then "$"
        else if replacement[1] == '&' then matched
        else if replacement[1] == '`' then before
        else after;
      expansion + ExpandReplacement(replacement[2..], matched, before, after)
    else [replacement[0]] + ExpandReplacement(replacement[1..], matched, before, after)
  }

  /** A replacement without `$` is inserted literally. */
  lemma {:induction false} ExpandWithoutDollar(replacement: string, matched: string, before: string, after: string)
    requires '$' !in replacement
    ensures ExpandReplacement(replacement, matched, before, after) == replacement
  {
    if replacement != [] {
      assert replacement[0] in replacement;
      assert forall c :: c in replacement[1..] ==> c in replacement;
      ExpandWithoutDollar(replacement[1..], matched, before, after);
    }
  }

  /** `template.includes('{id}') ? template.replace('{id}', id) : template`. */
  function Substitute(template: string, id: string): string {
    match IndexOf(template, Placeholder, 0)
    case None => template
    case Some(p) =>
      var before, after := template[..p], template[p + |Placeholder|..];
      before + ExpandReplacement(id, Placeholder, before, after) + after
  }

  /** Only the FIRST placeholder is replaced, by the id itself when the id
      holds no `$`; later placeholders stay as they are. */
  lemma SubstituteFirstPlaceholder(template: string, id: string, p: nat)
    requires '$' !in id
    requires OccursAt(template, Placeholder, p)
    requires forall q :: 0 <= q < p ==> !OccursAt(template, Placeholder, q)
    ensures Substitute(template, id) == template[..p] + id + template[p + 4..]
  {
    var first := IndexOf(template, Placeholder, 0);
    assert first == Some(p);
    ExpandWithoutDollar(id, Placeholder, template[..p], template[p + 4..]);
  }

  /** A template without the placeholder is returned unchanged. */
  lemma SubstituteWithoutPlaceholder(template: string, id: string)
    requires forall q :: !OccursAt(template, Placeholder, q)
    ensures Substitute(template, id) == template
  {
  }

  /** `replace` reads `$&` in the id as "the matched text": the id "$&"
      puts the placeholder back instead of itself. */
  lemma DollarPatternInId()
    ensures Substitute("{id}", "$&") == "{id}"
  {
  }

  /** The steps after an entry has been found. */
  function UrlForEntry(entry: Entry, id: string, eventType: string): Option<string> {
    var normalizedType := NormalizeType(eventType);
    var template := ResolveTemplate(entry, normalizedType);
    if template.None? then None else Some(Substitute(template.value, id))
  }

  /** `HASH_TO_URLS[hash] || HASH_TO_URLS[id]`: an entry (an object, so
      truthy even when empty) under the hashed id wins; the raw id is
      tried only when the hashed key is absent. */
  function LookupEntry(table: HashToUrls, hashId: string -> string, id: string): (r: Option<Entry>)
    ensures r.Some? <==> hashId(id) in table || id in table
    ensures hashId(id) in table ==> r == Some(table[hashId(id)])
    ensures hashId(id) !in table && id in table ==> r == Some(table[id])
  {
    if hashId(id) in table then Some(table[hashId(id)])
    else if id in table then Some(table[id])
    else None
  }

  /** `getWebhookUrl(id, eventType)`. `id` is `None` when it is missing or
      not a string. */
  function GetWebhookUrl(table: HashToUrls, hashId: string -> string, id: Option<string>, eventType: string)
    : (r: Option<string>)
    ensures id.None? || id == Some("") ==> r.None?
    ensures r.Some? ==> LookupEntry(table, hashId, id.value).Some?
    ensures id.Some? && id.value != "" && LookupEntry(table, hashId, id.value).Some? ==>
      (r.Some? <==> exists key :: (key in FallbackChain(NormalizeType(eventType))
        && TemplateFor(LookupEntry(table, hashId, id.value).value, key).Some?))
    ensures r.Some? ==>
      var entry, chain := LookupEntry(table, hashId, id.value).value, FallbackChain(NormalizeType(eventType));
      exists k :: (0 <= k < |chain| && chain[k] in entry
        && (forall j :: 0 <= j < k ==> TemplateFor(entry, chain[j]).None?)
        && r.value == Substitute(entry[chain[k]], id.value))
  {
    if id.None? || id.value == "" then None
    else
      var entry := LookupEntry(table, hashId, id.value);
      if entry.None? then None
      else
        var r := UrlForEntry(entry.value, id.value, eventType);
        ResolveTemplateFollowsChain(entry.value, NormalizeType(eventType));
        FirstTemplateIsFirstPresent(entry.value, FallbackChain(NormalizeType(eventType)));
        r
  }

  /** With an entry under the hashed id, whatever the table holds under the
      raw id makes no difference, even when the hashed entry has no
      template for the type. */
  lemma HashedEntryShadowsRawId(table: HashToUrls, hashId: string -> string, id: string, other: Entry, eventType: string)
    requires hashId(id) in table && hashId(id) != id
    ensures GetWebhookUrl(table, hashId, Some(id), eventType)
         == GetWebhookUrl(table[id := other], hashId, Some(id), eventType)
  {
  }

  /** The legacy types resolve exactly as `error` does. */
  lemma LegacyTypesResolveAsError(table: HashToUrls, hashId: string -> string, id: Option<string>)
    ensures GetWebhookUrl(table, hashId, id, "dataError") == GetWebhookUrl(table, hashId, id, "error")
    ensures GetWebhookUrl(table, hashId, id, "imagesError") == GetWebhookUrl(table, hashId, id, "error")
  {
  }

  /** `error` finds a URL exactly when one of `error`, `dataError`,
      `imagesError` has a template, and the first of them that has one is
      used. */
  lemma ErrorUsesFirstErrorTemplate(entry: Entry, id: string, k: nat)
    requires k < 3 && TemplateFor(entry, FallbackChain("error")[k]).Some?
    requires forall j :: 0 <= j < k ==> TemplateFor(entry, FallbackChain("error")[j]).None?
    ensures UrlForEntry(entry, id, "error") == Some(Substitute(entry[FallbackChain("error")[k]], id))
  {
    var chain := FallbackChain("error");
    if k == 0 {
      assert TemplateFor(entry, "error").Some?;
    } else if k == 1 {
      assert TemplateFor(entry, chain[0]).None? && TemplateFor(entry, "dataError").Some?;
    } else {
      assert TemplateFor(entry, chain[0]).None? && TemplateFor(entry, chain[1]).None?;
    }
  }

  /** With no `warning` template, a warning goes where an error goes. */
  lemma WarningFallsBackToError(entry: Entry, id: string)
    requires TemplateFor(entry, "warning").None?
    ensures UrlForEntry(entry, id, "warning") == UrlForEntry(entry, id, "error")
  {
  }

  /** With a `warning` template, a warning uses it whatever else is there. */
  lemma WarningPrefersWarning(entry: Entry, id: string)
    requires TemplateFor(entry, "warning").Some?
    ensures UrlForEntry(entry, id, "warning") == Some(Substitute(entry["warning"], id))
  {
  }

  /** Every other type (`dataSuccess`, `imagesSuccess`, ...) uses only its
      own template: with none, there is no URL even if error templates
      exist. */
  lemma OtherTypesHaveNoFallback(entry: Entry, id: string, eventType: string)
    requires eventType !in {"error", "warning", "dataError", "imagesError"}
    ensures UrlForEntry(entry, id, eventType).Some? <==> TemplateFor(entry, eventType).Some?
    ensures TemplateFor(entry, eventType).Some? ==>
      UrlForEntry(entry, id, eventType) == Some(Substitute(entry[eventType], id))
  {
  }
}
