/** The sheet side of `fetchAndParseData` in main.js: every row of the
    `Display` sheet, read as `[fileName, tag1, value1, tag2, value2, ...]`,
    becomes a contest record `{ FileName, Data }`. */
module ContestRows {
  import opened Wrappers
  import SpreadsheetId

  /** One row of cells as the Sheets API returns it (formatted values are
      strings; trailing empty cells are omitted, so rows differ in length). */
  type Row = seq<string>

  /** A cell read by index: `None` is JavaScript's `undefined`, what
      `row[i]` gives past the end of the row. */
  type Cell = Option<string>

  /** A contest record: `FileName` is the first cell of the row and `Data`
      the dictionary built from the tag/value pairs after it. */
  datatype Contest = Contest(fileName: Cell, data: map<string, Cell>)

  /** The one key an assignment on a plain object `{}` cannot create: the
      inherited `__proto__` setter ignores strings and `undefined`. */
  const ProtoKey := "__proto__"

  /** A member of `\w`, that is `[A-Za-z0-9_]` (the `i` flag adds nothing
      without the `u` flag). */
  predicate IsWordChar(c: char) {
    ('a' <= c <= 'z') || ('A' <= c <= 'Z') || ('0' <= c <= '9') || c == '_'
  }

  /** `tag.replace(/[^\w]/gi, '')`: every non-word character deleted. */
  function SanitizeTag(tag: string): (r: string)
    ensures |r| <= |tag|
    ensures forall k :: 0 <= k < |r| ==> IsWordChar(r[k])
  {
    if tag == [] then []
    else (if IsWordChar(tag[0]) then [tag[0]] else []) + SanitizeTag(tag[1..])
  }

  /** The number of word characters in `s`. */
  function WordCount(s: string): nat {
    if s == [] then 0 else (if IsWordChar(s[0]) then 1 else 0) + WordCount(s[1..])
  }

  /** Sanitising works character by character, so it keeps the order of
      what it keeps: the sanitised concatenation is the concatenation of the
      sanitised parts. */
  lemma {:induction false} SanitizeTagConcat(a: string, b: string)
    ensures SanitizeTag(a + b) == SanitizeTag(a) + SanitizeTag(b)
  {
    if a == [] {
      assert a + b == b;
    } else {
      assert (a + b)[0] == a[0];
      assert (a + b)[1..] == a[1..] + b;
      SanitizeTagConcat(a[1..], b);
    }
  }

  /** Exactly the word characters survive: the length of the result is
      their count. */
  lemma {:induction false} SanitizeTagLength(tag: string)
    ensures |SanitizeTag(tag)| == WordCount(tag)
  {
    if tag != [] {
      SanitizeTagLength(tag[1..]);
    }
  }

  /** A tag made only of word characters is left as it is. */
  lemma {:induction false} SanitizeTagKeepsWords(tag: string)
    requires forall k :: 0 <= k < |tag| ==> IsWordChar(tag[k])
    ensures SanitizeTag(tag) == tag
  {
    if tag != [] {
      SanitizeTagKeepsWords(tag[1..]);
    }
  }

  /** Sanitising twice is sanitising once. */
  lemma SanitizeTagIdempotent(tag: string)
    ensures SanitizeTag(SanitizeTag(tag)) == SanitizeTag(tag)
  {
    SanitizeTagKeepsWords(SanitizeTag(tag));
  }

  /** `row[i]`. */
  function CellAt(row: Row, i: nat): Cell {
    if i < |row| then Some(row[i]) else None
  }

  /** `data[key] = value` on an object created as `{}`. */
  function Assign(data: map<string, Cell>, key: string, value: Cell): (r: map<string, Cell>)
    ensures forall k :: k in r <==> k in data || (k == key && key != ProtoKey)
    ensures key != ProtoKey ==> r[key] == value
    ensures forall k :: k in data && k != key ==> r[k] == data[k]
  {
    if key == ProtoKey then data else data[key := value]
  }

  /** Index `i` of the row holds a tag: the loop visits `i = 1, 3, 5, ...`
      while `i < row.length`. */
  ghost predicate IsTagIndex(row: Row, i: int) {
    1 <= i < |row| && i % 2 == 1
  }

  /** The dictionary after the first `p` passes of the loop, that is after
      the tags at indices `1, 3, ..., 2p - 1`. */
  function DataOfPairs(row: Row, p: nat): map<string, Cell>
    requires 2 * p <= |row|
  {
    if p == 0 then map[]
    else Assign(DataOfPairs(row, p - 1), SanitizeTag(row[2 * p - 1]), CellAt(row, 2 * p))
  }

  /** A key is present exactly when some visited tag sanitises to it (and it
      is not `__proto__`). */
  lemma {:induction false} DataOfPairsKeys(row: Row, p: nat, key: string)
    requires 2 * p <= |row|
    ensures key in DataOfPairs(row, p) <==>
      key != ProtoKey && exists i :: IsTagIndex(row, i) && i < 2 * p && SanitizeTag(row[i]) == key
  {
    if p > 0 {
      DataOfPairsKeys(row, p - 1, key);
      var i := 2 * p - 1;
      assert IsTagIndex(row, i);
      if key in DataOfPairs(row, p) && SanitizeTag(row[i]) != key {
        assert key in DataOfPairs(row, p - 1);
      }
      if exists j :: IsTagIndex(row, j) && j < 2 * p && SanitizeTag(row[j]) == key {
        var j :| IsTagIndex(row, j) && j < 2 * p && SanitizeTag(row[j]) == key;
        if j != i {
          assert j < 2 * (p - 1);
        }
      }
    }
  }

  /** Overwrite-last: the value stored under a key is the cell after the
      LAST visited tag that sanitises to that key. */
  lemma {:induction false} DataOfPairsLastWins(row: Row, p: nat, i: nat)
    requires 2 * p <= |row|
    requires IsTagIndex(row, i) && i < 2 * p
    requires SanitizeTag(row[i]) != ProtoKey
    requires forall j :: IsTagIndex(row, j) && i < j < 2 * p ==> SanitizeTag(row[j]) != SanitizeTag(row[i])
    ensures SanitizeTag(row[i]) in DataOfPairs(row, p)
    ensures DataOfPairs(row, p)[SanitizeTag(row[i])] == CellAt(row, i + 1)
  {
    if i != 2 * p - 1 {
      assert IsTagIndex(row, 2 * p - 1);
      DataOfPairsLastWins(row, p - 1, i);
    }
  }

  /** Each pass adds at most one key. */
  lemma {:induction false} DataOfPairsSize(row: Row, p: nat)
    requires 2 * p <= |row|
    ensures |DataOfPairs(row, p)| <= p
  {
    if p > 0 {
      DataOfPairsSize(row, p - 1);
    }
  }

  /** Every key is a sanitised tag, so it holds word characters only. */
  lemma DataKeysAreWords(row: Row, key: string)
    requires key in DataOfPairs(row, |row| / 2)
    ensures forall k :: 0 <= k < |key| ==> IsWordChar(key[k])
  {
    DataOfPairsKeys(row, |row| / 2, key);
  }

  /** The record the `rows.map` callback returns for one row. */
  function RowToContest(row: Row): (c: Contest)
    ensures c.fileName == (if row == [] then None else Some(row[0]))
    ensures |c.data| <= |row| / 2
    ensures forall key :: key in c.data <==>
      key != ProtoKey && exists i :: IsTagIndex(row, i) && SanitizeTag(row[i]) == key
  {
    var p := |row| / 2;
    DataOfPairsSize(row, p);
    assert forall key :: key in DataOfPairs(row, p) <==>
      key != ProtoKey && exists i :: IsTagIndex(row, i) && SanitizeTag(row[i]) == key
    by {
      forall key ensures key in DataOfPairs(row, p) <==>
        key != ProtoKey && exists i :: IsTagIndex(row, i) && SanitizeTag(row[i]) == key
      {
        DataOfPairsKeys(row, p, key);
      }
    }
    Contest(CellAt(row, 0), DataOfPairs(row, p))
  }

  /** Overwrite-last for a whole row: when two tags sanitise to the same key
      the later one's value is kept; a tag in the last cell pairs with
      `undefined`. */
  lemma RowToContestLastWins(row: Row, i: nat)
    requires IsTagIndex(row, i) && SanitizeTag(row[i]) != ProtoKey
    requires forall j :: IsTagIndex(row, j) && i < j ==> SanitizeTag(row[j]) != SanitizeTag(row[i])
    ensures RowToContest(row).data[SanitizeTag(row[i])] == CellAt(row, i + 1)
  {
    DataOfPairsLastWins(row, |row| / 2, i);
  }

  /** The loop of the `rows.map` callback, which builds `data` in place. */
  method MapRow(row: Row) returns (contest: Contest)
    ensures contest == RowToContest(row)
  {
    var fileName := if |row| > 0 then Some(row[0]) else None;
    var data: map<string, Cell> := map[];
    var i := 1;
    ghost var passes := 0;
    while i < |row|
      invariant i == 2 * passes + 1 && 2 * passes <= |row|
      invariant data == DataOfPairs(row, passes)
    {
      var tag := row[i];
      var adjustedTag := SanitizeTag(tag);
      var value := if i + 1 < |row| then Some(row[i + 1]) else None;
      if adjustedTag != ProtoKey {
        data := data[adjustedTag := value];
      }
      i := i + 2;
      passes := passes + 1;
    }
    assert passes == |row| / 2;
    contest := Contest(fileName, data);
  }

  /** `fetchAndParseData` once the Sheets API has answered. `url` is the
      configured link (`None` when the entry has none); `response` is the
      rows the API returned, `None` when the call threw and `Some([])` when
      it returned no values. Every failure is caught and becomes `null`
      (`None`); otherwise there is one record per row, in row order. */
  function FetchAndParseData(url: Option<string>, response: Option<seq<Row>>): (r: Option<seq<Contest>>)
    ensures r.Some? <==>
      && url.Some? && SpreadsheetId.ExtractSpreadsheetId(url.value).Success?
      && response.Some? && response.value != []
    ensures r.Some? ==> |r.value| == |response.value| > 0
    ensures r.Some? ==> forall k :: 0 <= k < |r.value| ==> r.value[k] == RowToContest(response.value[k])
  {
    if url.None? then None
    else if SpreadsheetId.ExtractSpreadsheetId(url.value).Failure? then None
    else if response.None? || response.value == [] then None
    else
      var rows := response.value;
      Some(seq(|rows|, k requires 0 <= k < |rows| => RowToContest(rows[k])))
  }
}
