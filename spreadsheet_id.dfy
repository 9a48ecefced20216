/** `extractSpreadsheetId` of main.js: the id segment of a Google Sheets
    link, found with the regular expression `\/d\/([a-zA-Z0-9-_]+)`. */
module SpreadsheetId {
  import opened Wrappers

  /** The message of the `Error` thrown when the link has no id segment. */
  const InvalidUrlMessage := "Invalid Google Sheets URL"

  /** The literal part of the regular expression in front of the group. */
  const Marker := "/d/"

  /** The marker `/d/` occurs at index `i` of `s`. */
  predicate MarkerAt(s: string, i: int) {
    0 <= i && i + 3 <= |s| && s[i] == '/' && s[i + 1] == 'd' && s[i + 2] == '/'
  }

  /** A member of the character class `[a-zA-Z0-9-_]` (the `-` after the
      range `0-9` is a literal hyphen). */
  predicate IsIdChar(c: char) {
    ('a' <= c <= 'z') || ('A' <= c <= 'Z') || ('0' <= c <= '9') || c == '-' || c == '_'
  }

  /** The regular expression has a match starting at index `i`: the marker
      followed by at least one id character. */
  predicate MatchStartsAt(s: string, i: int) {
    MarkerAt(s, i) && i + 3 < |s| && IsIdChar(s[i + 3])
  }

  /** `id` is what the group captures for a match starting at `i`: the
      longest run of id characters right after the marker. */
  ghost predicate CapturedAt(s: string, i: int, id: string) {
    && MatchStartsAt(s, i)
    && i + 3 + |id| <= |s|
    && s[i + 3 .. i + 3 + |id|] == id
    && (forall k :: 0 <= k < |id| ==> IsIdChar(id[k]))
    && (i + 3 + |id| == |s| || !IsIdChar(s[i + 3 + |id|]))
  }

  /** The end of the longest run of id characters that starts at `j`
      (the greedy `+`). */
  function RunEnd(s: string, j: nat): (e: nat)
    requires j <= |s|
    decreases |s| - j
    ensures j <= e <= |s|
    ensures forall k :: j <= k < e ==> IsIdChar(s[k])
    ensures e == |s| || !IsIdChar(s[e])
  {
    if j == |s| || !IsIdChar(s[j]) then j else RunEnd(s, j + 1)
  }

  /** The leftmost match start at or after `i`, as `String.prototype.match`
      without the `g` flag finds it. */
  function FirstMatchFrom(s: string, i: nat): (r: Option<nat>)
    decreases |s| - i
    ensures r.Some? ==> i <= r.value && MatchStartsAt(s, r.value)
    ensures r.Some? ==> forall j :: i <= j < r.value ==> !MatchStartsAt(s, j)
    ensures r.None? ==> forall j :: i <= j ==> !MatchStartsAt(s, j)
  {
    if i + 3 >= |s| then None
    else if MatchStartsAt(s, i) then Some(i)
    else FirstMatchFrom(s, i + 1)
  }

  /** The id segment of a Google Sheets link: the group of the leftmost
      match, or the "Invalid Google Sheets URL" error when there is none. */
  function ExtractSpreadsheetId(url: string): (r: Result<string, string>)
    ensures r.Failure? <==> forall i :: !MatchStartsAt(url, i)
    ensures r.Failure? ==> r.error == InvalidUrlMessage
    ensures r.Success? ==> r.value != [] && forall k :: 0 <= k < |r.value| ==> IsIdChar(r.value[k])
    ensures r.Success? ==>
      exists i :: CapturedAt(url, i, r.value) && forall j :: 0 <= j < i ==> !MatchStartsAt(url, j)
  {
    match FirstMatchFrom(url, 0)
    case None => Failure(InvalidUrlMessage)
    case Some(i) =>
      var id := url[i + 3 .. RunEnd(url, i + 3)];
      assert CapturedAt(url, i, id);
      Success(id)
  }

  /** The inverse direction: an id written into a link after the marker is
      extracted back unchanged, provided no match starts earlier in the link
      and the id is not followed by another id character. */
  lemma ExtractFromLink(prefix: string, id: string, suffix: string)
    requires id != [] && forall k :: 0 <= k < |id| ==> IsIdChar(id[k])
    requires forall j :: 0 <= j < |prefix| ==> !MatchStartsAt(prefix + Marker + id + suffix, j)
    requires suffix == [] || !IsIdChar(suffix[0])
    ensures ExtractSpreadsheetId(prefix + Marker + id + suffix) == Success(id)
  {
    var s := prefix + Marker + id + suffix;
    var p := |prefix|;
    assert MatchStartsAt(s, p) by {
      assert s[p] == '/' && s[p + 1] == 'd' && s[p + 2] == '/' && s[p + 3] == id[0];
    }
    assert FirstMatchFrom(s, 0) == Some(p);
    RunAfterMarker(s, p + 3, id, suffix);
  }

  /** The greedy run starting at `j` is exactly `id` when `id` sits at `j`
      and is not followed by another id character. */
  lemma RunAfterMarker(s: string, j: nat, id: string, suffix: string)
    requires j + |id| + |suffix| == |s|
    requires s[j..] == id + suffix
    requires forall k :: 0 <= k < |id| ==> IsIdChar(id[k])
    requires suffix == [] || !IsIdChar(suffix[0])
    ensures RunEnd(s, j) == j + |id| && s[j .. j + |id|] == id
  {
    var e := RunEnd(s, j);
    forall k | j <= k < j + |id|
      ensures IsIdChar(s[k])
    {
      assert s[k] == s[j..][k - j] == id[k - j];
    }
    if j + |id| < |s| {
      assert s[j + |id|] == s[j..][|id|] == suffix[0];
    }
    assert s[j .. j + |id|] == s[j..][..|id|];
  }
}
