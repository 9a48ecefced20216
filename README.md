# NWS XML: a Dafny model of the sheet-to-XML poller and the webhook lookup

nws-xml is an Electron desktop app. It keeps a list of configured Google
Sheets (`urlConfig`) and edits that list through a small Express API. It
polls every configured sheet and writes one XML file per contest row into
the user's documents folder. A separate module, `loggerLookup.js`, maps a
logging id and an event type to a diagnostics webhook URL.

This project models the logic of that core and proves properties of it:

- `SpreadsheetId`: `extractSpreadsheetId`, the leftmost `/d/<id>` match of a
  Sheets link, with its error case.
- `ContestRows`: the row mapper of `fetchAndParseData`, covering the tag
  sanitiser, the tag/value loop and its overwrite-last dictionary. It also
  covers `fetchAndParseData` itself once the API has answered.
- `FileNames`: `removeSpecialChars` and the contest file name.
- `UrlConfig`: the `urlConfig` list and the two handlers that reassign it,
  POST (append) and DELETE (filter by url).
- `Polling`: `poll`, meaning the outer loop over the entries and the inner
  loop over the contests. The model records what it writes, in order, and
  whether it reschedules itself.
- `LoggerLookup`: `getWebhookUrl`. It covers the hashed-then-raw lookup, the
  legacy type names, the fallback chains and the `{id}` substitution. The
  substitution follows `String.prototype.replace`, including its `$`
  patterns.

JavaScript `undefined` is `None` of an `Option` throughout. That covers a
cell past the end of a row, a missing request field and a missing name. A
caught exception is `None` of the operation that threw.

## Model

| member | source | states |
|---|---|---|
| SpreadsheetId.ExtractSpreadsheetId | main.js:98-106 | Fails with "Invalid Google Sheets URL" exactly when no `/d/` is followed by an id character. Otherwise it returns a non-empty run of letters, digits, `-` and `_`. That run is the greedy group of the leftmost match. |
| SpreadsheetId.ExtractFromLink | main.js:98-106 | Round trip: an id placed after `/d/` in a link is extracted back unchanged. This needs that no match (a `/d/` followed by an id character) starts earlier in the link, and that no id character follows the id. |
| SpreadsheetId.RunAfterMarker | main.js:99 | The greedy `+` stops exactly at the first character outside the id class. |
| ContestRows.SanitizeTag | main.js:129 | `tag.replace(/[^\w]/gi, '')`: the result holds only `\w` characters and is never longer than the tag. Its partner lemmas pin down exactly which characters are kept and in what order. |
| ContestRows.SanitizeTagConcat | main.js:129 | The tag sanitiser works character by character: sanitising a concatenation concatenates the sanitised parts. |
| ContestRows.SanitizeTagLength | main.js:129 | Exactly the `\w` characters survive, so the length is their count. |
| ContestRows.SanitizeTagKeepsWords | main.js:129 | A tag made only of `\w` characters is unchanged. |
| ContestRows.SanitizeTagIdempotent | main.js:129 | Sanitising twice is sanitising once. |
| ContestRows.Assign | main.js:131 | `data[adjustedTag] = value` on `{}`: the key is added or overwritten with the value and every other key is unchanged. The key `__proto__` is never created, because its setter ignores strings and `undefined`. |
| ContestRows.DataOfPairs | main.js:127-132 | The dictionary after p passes of the loop. `DataOfPairsKeys`, `DataOfPairsLastWins` and `DataOfPairsSize` state its keys, its values and its size. |
| ContestRows.DataOfPairsKeys | main.js:127-132 | After p passes of the loop, a key is in `data` exactly when some visited tag sanitises to it and the key is not `__proto__`. |
| ContestRows.DataOfPairsLastWins | main.js:127-132 | A key holds the cell after the last visited tag that sanitises to it. |
| ContestRows.DataOfPairsSize | main.js:127-132 | Each pass adds at most one key. |
| ContestRows.DataKeysAreWords | main.js:129-131 | Every key of a record consists of `\w` characters only. |
| ContestRows.RowToContest | main.js:123-138 | `FileName` is the first cell, or undefined for an empty row. The keys of `Data` are exactly the sanitised tags at odd indices, except `__proto__`. There are at most half as many keys as cells. |
| ContestRows.RowToContestLastWins | main.js:127-132 | Overwrite-last for a whole row. A tag in the last cell pairs with `undefined`. |
| ContestRows.MapRow | main.js:123-138 | The loop over `i = 1, 3, 5, ...` builds the record `RowToContest` describes. |
| ContestRows.FetchAndParseData | main.js:108-143 | Gives null exactly when the link is missing or invalid, the API call threw, or it returned no rows. Otherwise it returns one record per row, in row order. |
| FileNames.ReplaceAllChar | main.js:149 | One `replaceAll` pass with a one-character pattern: the result holds only characters of the input other than that one, plus those of the replacement. `ReplaceAllCharConcat` shows the pass works character by character. |
| FileNames.RemoveSpecialChars | main.js:148-150 | The result contains no `/`, `\`, `,` or `.`. |
| FileNames.RemoveSpecialCharsIsSafeString | main.js:148-150 | The four chained `replaceAll` passes equal a one-pass map per character: `/`, `\` and `,` become `-`, `.` is deleted, and every other character is kept. |
| FileNames.RemoveSpecialCharsConcat | main.js:148-150 | `removeSpecialChars` applied to a concatenation gives the concatenation of the cleaned parts. |
| FileNames.RemoveSpecialCharsLength | main.js:148-150 | The length drops by exactly the number of dots. |
| FileNames.RemoveSpecialCharsIdempotent | main.js:148-150 | Removing special characters twice is removing them once. |
| FileNames.ContestFileName | main.js:166 | A name exists exactly when both the entry name and `FileName` are defined; otherwise `replaceAll` on undefined throws. The name ends in `.xml` and has no `/`, `\`, `,` or `.` before that. Its stem is the cleaned entry name, `-`, then the cleaned `FileName`. |
| FileNames.ContestFileNamesCanCollide | main.js:166 | The distinct `FileName`s "A.B" and "AB" map to the same file under one entry name. |
| UrlConfig.WithoutUrl | main.js:90 | The filter keeps only entries whose url differs, and all of them come from the old list. |
| UrlConfig.WithoutUrlKeepsOthers | main.js:90 | Every entry with another url survives the filter. |
| UrlConfig.WithoutUrlConcat | main.js:90 | The filter keeps the order of the list. |
| UrlConfig.WithoutUrlLength | main.js:90 | The length drops by exactly the number of entries with that url. |
| UrlConfig.WithoutAbsentUrl | main.js:90 | Deleting a url that no entry has changes nothing. |
| UrlConfig.WithoutUrlIdempotent | main.js:88-96 | Deleting the same url twice is deleting it once. |
| UrlConfig.DeleteUndoesAdd | main.js:71-96 | Adding an entry and then deleting its url gives the same list as deleting the url from the old list. |
| UrlConfig.ConfigServer.constructor | main.js:25 | The list starts as the persisted one. |
| UrlConfig.ConfigServer.AddConfig | main.js:71-86 | Appends exactly one `{ url, name, key }` at the end and leaves the earlier entries unchanged. |
| UrlConfig.ConfigServer.DeleteConfig | main.js:88-96 | The new list is the filtered old list. No entry with the url remains, and the length drops by the number removed. |
| Polling.ContestWrites | main.js:162-172 | The writes of the inner loop for one entry. `ContestWritesPrefix` states which contests are written, under which names, and where the loop stops. |
| Polling.EntryWrites | main.js:153-176 | The writes for one entry: none when `fetchAndParseData` gives null, otherwise the inner loop's. `EntryWritesRows` and `EntryWritesEveryRow` state which rows they come from. |
| Polling.PollWrites | main.js:152-177 | The writes of one whole `poll`, entry after entry. `PollWritesConcat`, `PollWritesStep` and `PollWritesSafeNames` state their order, their independence across entries and that their names are safe. |
| Polling.ContestWritesPrefix | main.js:162-172 | An entry's writes are those of a prefix of its contests, in order, each under its contest file name. They stop exactly at the first contest whose name throws, and there are none when the entry has no name. |
| Polling.EntryWritesRows | main.js:152-176 | An entry writes nothing unless its sheet was parsed and it has a name. Its writes are the records of its first rows, in row order. |
| Polling.EntryWritesEveryRow | main.js:152-176 | With a parsed sheet, a name and a `FileName` in every row, an entry writes one file per row. |
| Polling.PollWritesConcat | main.js:152-177 | Entries are independent. The writes for a list are the writes for its first part followed by those for the rest. A failing entry removes nothing from the others. |
| Polling.PollWritesStep | main.js:152-177 | Each pass of the outer loop appends that entry's writes. |
| Polling.PollWritesSafeNames | main.js:160-169 | Every file `poll` writes has a safe `.xml` name. |
| Polling.FlattenConcat | main.js:152-177 | The list of all writes splits at any entry boundary. |
| Polling.WriteContests | main.js:162-172 | The inner loop writes what `ContestWrites` specifies, and a throwing file name ends the loop. |
| Polling.PollEntry | main.js:153-176 | The `try` block for one entry writes what `EntryWrites` specifies. |
| Polling.Poll | main.js:145-179 | With an empty list, `poll` returns without rescheduling. Otherwise it visits every entry in order, writes what `PollWrites` specifies, and reschedules. |
| LoggerLookup.TemplateFor | loggerLookup.js:49-54 | `entry[key]` read for truthiness: a template exists exactly when the key is present with a non-empty string, and it is that string. |
| LoggerLookup.NormalizeType | loggerLookup.js:40-44 | The type becomes `error` exactly when it is `error`, `dataError` or `imagesError`. Any other type is left as it is. |
| LoggerLookup.ResolveTemplate | loggerLookup.js:46-55 | The `template` picked by the `if` chain. `ResolveTemplateFollowsChain` equates it with the first-present reading of the type's fallback chain. |
| LoggerLookup.FirstTemplateIsFirstPresent | loggerLookup.js:47-55 | A fallback chain finds a template exactly when some key in it has one. The template is that of the first such key. |
| LoggerLookup.ResolveTemplateFollowsChain | loggerLookup.js:47-55 | The chains of `or`s in the three branches equal the first-present reading of the chains `error, dataError, imagesError`, `warning, error, dataError, imagesError` and the type alone. |
| LoggerLookup.IndexOf | loggerLookup.js:63 | Finds the first occurrence of the placeholder, or reports that there is none. |
| LoggerLookup.ExpandReplacement | loggerLookup.js:63 | The replacement string of `replace`, with `$$`, `$&`, `` $` `` and `$'` expanded. `ExpandWithoutDollar` and `DollarPatternInId` state when the id is inserted literally and when it is not. |
| LoggerLookup.Substitute | loggerLookup.js:63 | `template.includes('{id}') ? template.replace('{id}', id) : template`. `SubstituteFirstPlaceholder` and `SubstituteWithoutPlaceholder` state the result. |
| LoggerLookup.ExpandWithoutDollar | loggerLookup.js:63 | A replacement without `$` is inserted literally. |
| LoggerLookup.SubstituteFirstPlaceholder | loggerLookup.js:63 | Only the first `{id}` is replaced, and by the id itself when the id holds no `$`. |
| LoggerLookup.SubstituteWithoutPlaceholder | loggerLookup.js:63 | A template without `{id}` is returned as it is. |
| LoggerLookup.DollarPatternInId | loggerLookup.js:63 | The id `$&` puts `{id}` back instead of itself. |
| LoggerLookup.UrlForEntry | loggerLookup.js:40-63 | The steps after an entry is found: normalise the type, resolve the template, substitute the id. The lemmas `ErrorUsesFirstErrorTemplate`, `WarningFallsBackToError`, `WarningPrefersWarning` and `OtherTypesHaveNoFallback` state its result for each kind of type. |
| LoggerLookup.LookupEntry | loggerLookup.js:31-33 | The entry under the hashed id wins, even an empty one. The raw id is tried only when no hashed entry exists. |
| LoggerLookup.GetWebhookUrl | loggerLookup.js:28-63 | A missing or empty id gives null. A URL requires an entry. With an entry, there is a URL exactly when some key of the type's fallback chain has a template. The URL is then the id substituted into the template of the first such key. |
| LoggerLookup.HashedEntryShadowsRawId | loggerLookup.js:31-38 | With a hashed entry, what the table holds under the raw id makes no difference. |
| LoggerLookup.LegacyTypesResolveAsError | loggerLookup.js:40-44 | `dataError` and `imagesError` resolve exactly as `error` does. |
| LoggerLookup.ErrorUsesFirstErrorTemplate | loggerLookup.js:48-49 | `error` uses the first of `error`, `dataError` and `imagesError` that has a template. |
| LoggerLookup.WarningFallsBackToError | loggerLookup.js:50-51 | With no `warning` template, a warning resolves as an error does. |
| LoggerLookup.WarningPrefersWarning | loggerLookup.js:50-51 | With a `warning` template, a warning uses it. |
| LoggerLookup.OtherTypesHaveNoFallback | loggerLookup.js:52-55 | Any other type uses only its own template and has no fallback to the error templates. |

## Left out

- Electron, the window, Express routing and the HTTP responses: transport only. The handlers' effect on `urlConfig` is modelled.
- The Google Sheets API call: its answer is a parameter. `None` means the call threw, `Some([])` means it returned no values, and the API key is not used.
- xml2js and the XML text: a write records the contest record, not the serialised XML, and the builder is assumed not to throw.
- `fs.mkdir` and `fs.writeFile`: assumed to succeed. A failure would be caught for the whole entry, like a missing name.
- `setTimeout`, `startPolling`, `/api/refresh` and `/api/setRefresh`: timers and the interval are not modelled, only whether `poll` reschedules itself.
- electron-store persistence (`store.set`, `store.get`): the persisted list is the constructor's parameter.
- `GET /api/config`: it only reads the state.
- `hashId` (SHA-256 hex) and the dynamic loading of `HASH_TO_URLS`: both are parameters of `GetWebhookUrl`.
- Console output and diagnostics messages.
- Prototype-inherited keys: table and entry lookups such as `entry["toString"]` see only a map's own keys.
- LoggerLookup.GetWebhookUrl: non-string ids and non-string template values are not modelled. Ids are `Option<string>`, and templates are strings.
- UrlConfig.ConfigServer.AddConfig: request-body fields that are not strings (numbers, objects) are not modelled. Fields are `Option<string>`.
- Key order of JavaScript objects: `Data` is a map, so its insertion order (which xml2js would follow) is not kept.
- The React UI in `react-ui/src/App.js` is not part of this model.
