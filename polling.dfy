/** `poll` of main.js: for every configured sheet, fetch and parse its rows
    and write one XML file per contest. The Sheets API answers are
    parameters (one per entry, in order) and the files written are the
    result, as a list of (file name, contest) writes in the order `poll`
    issues them. */
module Polling {
  import opened Wrappers
  import opened ContestRows
  import opened UrlConfig
  import FileNames

  /** `fs.writeFile(path.join(dir, fileName), <Contest>...</Contest>)`. */
  datatype ContestWrite = ContestWrite(fileName: string, contest: Contest)

  /** The inner `for (const contest of contests)` loop of one entry: a write
      per contest, in order, until building a file name throws (the entry's
      name or the contest's `FileName` is `undefined`); the throw leaves the
      loop and is caught for the whole entry, so the later contests of that
      entry are not written. */
  function ContestWrites(name: Option<string>, contests: seq<Contest>): seq<ContestWrite> {
    if contests == [] then []
    else match FileNames.ContestFileName(name, contests[0].fileName)
      case None => []
      case Some(f) => [ContestWrite(f, contests[0])] + ContestWrites(name, contests[1..])
  }

  /** The writes of an entry are those of a prefix of its contests, in
      order, each under its contest file name; they stop exactly at the
      first contest whose file name cannot be built, and there are none at
      all when the entry has no name. */
  lemma {:induction false} ContestWritesPrefix(name: Option<string>, contests: seq<Contest>)
    ensures |ContestWrites(name, contests)| <= |contests|
    ensures forall k :: 0 <= k < |ContestWrites(name, contests)| ==>
      && ContestWrites(name, contests)[k].contest == contests[k]
      && FileNames.ContestFileName(name, contests[k].fileName) == Some(ContestWrites(name, contests)[k].fileName)
    ensures |ContestWrites(name, contests)| < |contests| ==>
      name.None? || contests[|ContestWrites(name, contests)|].fileName.None?
    ensures name.None? ==> ContestWrites(name, contests) == []
  {
    if contests != [] && FileNames.ContestFileName(name, contests[0].fileName).Some? {
      ContestWritesPrefix(name, contests[1..]);
    }
  }

  /** The writes for one entry: none when `fetchAndParseData` gives `null`,
      otherwise those of its contests. */
  function EntryWrites(entry: ConfigEntry, response: Option<seq<Row>>): seq<ContestWrite> {
    match FetchAndParseData(entry.url, response)
    case None => []
    case Some(contests) => ContestWrites(entry.name, contests)
  }

  /** An entry writes nothing unless its sheet was fetched and parsed and
      it has a name; what it writes are its first rows' records, in row
      order. */
  lemma EntryWritesRows(entry: ConfigEntry, response: Option<seq<Row>>)
    ensures EntryWrites(entry, response) != [] ==>
      FetchAndParseData(entry.url, response).Some? && entry.name.Some?
    ensures EntryWrites(entry, response) != [] ==>
      && |EntryWrites(entry, response)| <= |response.value|
      && forall k :: 0 <= k < |EntryWrites(entry, response)| ==>
           EntryWrites(entry, response)[k].contest == RowToContest(response.value[k])
  {
    var parsed := FetchAndParseData(entry.url, response);
    if parsed.Some? {
      ContestWritesPrefix(entry.name, parsed.value);
    }
  }

  /** Lists of writes, one after the other. */
  function Flatten(parts: seq<seq<ContestWrite>>): seq<ContestWrite> {
    if parts == [] then [] else parts[0] + Flatten(parts[1..])
  }

  lemma {:induction false} FlattenConcat(p: seq<seq<ContestWrite>>, q: seq<seq<ContestWrite>>)
    ensures Flatten(p + q) == Flatten(p) + Flatten(q)
  {
    if p == [] {
      assert p + q == q;
    } else {
      assert (p + q)[0] == p[0] && (p + q)[1..] == p[1..] + q;
      FlattenConcat(p[1..], q);
    }
  }

  /** Every write of a flattened list comes from one of its parts. */
  lemma {:induction false} FlattenMember(parts: seq<seq<ContestWrite>>, w: ContestWrite)
    requires w in Flatten(parts)
    ensures exists k :: 0 <= k < |parts| && w in parts[k]
  {
    if w !in parts[0] {
      FlattenMember(parts[1..], w);
      var k :| 0 <= k < |parts[1..]| && w in parts[1..][k];
      assert parts[k + 1] == parts[1..][k];
    }
  }

  /** The writes of each entry, entry by entry. */
  function WritesPerEntry(urlConfig: seq<ConfigEntry>, responses: seq<Option<seq<Row>>>): (r: seq<seq<ContestWrite>>)
    requires |responses| == |urlConfig|
    ensures |r| == |urlConfig|
    ensures forall k :: 0 <= k < |r| ==> r[k] == EntryWrites(urlConfig[k], responses[k])
  {
    seq(|urlConfig|, k requires 0 <= k < |urlConfig| => EntryWrites(urlConfig[k], responses[k]))
  }

  /** The writes of one whole `poll` over the list, entry after entry. */
  function PollWrites(urlConfig: seq<ConfigEntry>, responses: seq<Option<seq<Row>>>): seq<ContestWrite>
    requires |responses| == |urlConfig|
  {
    Flatten(WritesPerEntry(urlConfig, responses))
  }

  /** Entries are independent: a failure in one (a bad link, a failed
      fetch, an empty sheet, a missing name) takes nothing away from the
      writes of the others, which keep the order of the list. */
  lemma PollWritesConcat(a: seq<ConfigEntry>, ra: seq<Option<seq<Row>>>,
                         b: seq<ConfigEntry>, rb: seq<Option<seq<Row>>>)
    requires |ra| == |a| && |rb| == |b|
    ensures PollWrites(a + b, ra + rb) == PollWrites(a, ra) + PollWrites(b, rb)
  {
    var whole, left, right := WritesPerEntry(a + b, ra + rb), WritesPerEntry(a, ra), WritesPerEntry(b, rb);
    assert whole == left + right by {
      forall k | 0 <= k < |whole|
        ensures whole[k] == (left + right)[k]
      {
        if k < |a| {
          assert (a + b)[k] == a[k] && (ra + rb)[k] == ra[k];
        } else {
          assert (a + b)[k] == b[k - |a|] && (ra + rb)[k] == rb[k - |a|];
        }
      }
    }
    FlattenConcat(left, right);
  }

  /** One more entry visited adds that entry's writes at the end. */
  lemma PollWritesStep(urlConfig: seq<ConfigEntry>, responses: seq<Option<seq<Row>>>, n: nat)
    requires |responses| == |urlConfig| && n < |urlConfig|
    ensures PollWrites(urlConfig[..n + 1], responses[..n + 1])
         == PollWrites(urlConfig[..n], responses[..n]) + EntryWrites(urlConfig[n], responses[n])
  {
    assert urlConfig[..n + 1] == urlConfig[..n] + [urlConfig[n]];
    assert responses[..n + 1] == responses[..n] + [responses[n]];
    PollWritesConcat(urlConfig[..n], responses[..n], [urlConfig[n]], [responses[n]]);
    var single := WritesPerEntry([urlConfig[n]], [responses[n]]);
    assert single == [EntryWrites(urlConfig[n], responses[n])];
    assert Flatten(single) == single[0] + Flatten([]);
  }

  /** Every file `poll` writes has a safe name: `.xml` at the end and no
      `/`, `\`, `,` or `.` before it. */
  lemma PollWritesSafeNames(urlConfig: seq<ConfigEntry>, responses: seq<Option<seq<Row>>>)
    requires |responses| == |urlConfig|
    ensures forall w :: w in PollWrites(urlConfig, responses) ==> FileNames.IsSafeContestFileName(w.fileName)
  {
    var parts := WritesPerEntry(urlConfig, responses);
    forall w | w in Flatten(parts)
      ensures FileNames.IsSafeContestFileName(w.fileName)
    {
      FlattenMember(parts, w);
      var n :| 0 <= n < |parts| && w in parts[n];
      var own := EntryWrites(urlConfig[n], responses[n]);
      var k :| 0 <= k < |own| && own[k] == w;
      var contests := FetchAndParseData(urlConfig[n].url, responses[n]).value;
      ContestWritesPrefix(urlConfig[n].name, contests);
      assert FileNames.ContestFileName(urlConfig[n].name, contests[k].fileName) == Some(w.fileName);
    }
  }

  /** An entry whose sheet is fetched and whose name and row file names are
      all present gets one write per row, in row order. */
  lemma EntryWritesEveryRow(entry: ConfigEntry, response: Option<seq<Row>>)
    requires FetchAndParseData(entry.url, response).Some? && entry.name.Some?
    requires forall k :: 0 <= k < |response.value| ==> response.value[k] != []
    ensures |EntryWrites(entry, response)| == |response.value|
  {
    var contests := FetchAndParseData(entry.url, response).value;
    assert forall k :: 0 <= k < |contests| ==> contests[k].fileName.Some?;
    ContestWritesPrefix(entry.name, contests);
  }

  /** The inner `for (const contest of contests)` loop of one entry. A
      file name that cannot be built throws; the throw leaves the loop. */
  method WriteContests(name: Option<string>, contests: seq<Contest>) returns (writes: seq<ContestWrite>)
    ensures writes == ContestWrites(name, contests)
  {
    writes := [];
    var j := 0;
    while j < |contests|
      invariant 0 <= j <= |contests|
      invariant ContestWrites(name, contests) == writes + ContestWrites(name, contests[j..])
    {
      var contestFileName := FileNames.ContestFileName(name, contests[j].fileName);
      assert contests[j..][0] == contests[j] && contests[j..][1..] == contests[j + 1..];
      if contestFileName.None? {
        return;
      }
      writes := writes + [ContestWrite(contestFileName.value, contests[j])];
      j := j + 1;
    }
  }

  /** The body of the outer loop for one entry: its `try` block, whose
      failures are caught so that the loop goes on with the next entry. */
  method PollEntry(entry: ConfigEntry, response: Option<seq<Row>>) returns (writes: seq<ContestWrite>)
    ensures writes == EntryWrites(entry, response)
  {
    var contests := FetchAndParseData(entry.url, response);
    writes := [];
    if contests.Some? {
      writes := WriteContests(entry.name, contests.value);
    }
  }

  /** One run of `poll`. With an empty list it returns at once and does not
      reschedule itself; otherwise it visits every entry in order, catching
      each entry's failure, and then reschedules. */
  method Poll(urlConfig: seq<ConfigEntry>, responses: seq<Option<seq<Row>>>)
    returns (writes: seq<ContestWrite>, rescheduled: bool)
    requires |responses| == |urlConfig|
    ensures rescheduled <==> urlConfig != []
    ensures writes == PollWrites(urlConfig, responses)
  {
    writes := [];
    if |urlConfig| == 0 {
      rescheduled := false;
      return;
    }
    var n := 0;
    while n < |urlConfig|
      invariant 0 <= n <= |urlConfig|
      invariant writes == PollWrites(urlConfig[..n], responses[..n])
    {
      var entryWrites := PollEntry(urlConfig[n], responses[n]);
      PollWritesStep(urlConfig, responses, n);
      writes := writes + entryWrites;
      n := n + 1;
    }
    assert urlConfig[..n] == urlConfig && responses[..n] == responses;
    rescheduled := true;
  }
}
