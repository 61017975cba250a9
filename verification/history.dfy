/** The upload history panel (src/gui/list.rs): records loaded from the
    history file, newest first, filtered by the search box, optionally
    shown oldest first, with shortened hashes and status badges. */
module History {
  import opened Options
  import opened Text
  import Seqs

  /** One history record. The timestamp is kept only for its order. */
  datatype Record = Record(
    localPath: string, remotePath: string, status: string, message: string,
    hash: string, fileSize: nat, timestamp: int)

  /** A history line is read when it is not blank. */
  predicate IsEntryLine(line: string)
  {
    Trim(line) != ""
  }

  /** What one line of the history file yields: nothing when it is blank
      or the decoder (the `parse` parameter) rejects it. */
  function LineRecord(parse: string -> Option<Record>, line: string): Option<Record>
  {
    if IsEntryLine(line) then parse(line) else None
  }

  /** The records of the history file's lines, in file order. */
  function ParseLines(lines: seq<string>, parse: string -> Option<Record>): (r: seq<Record>)
    ensures |r| <= |lines|
  {
    Seqs.FilterMap((line: string) => LineRecord(parse, line), lines)
  }

  /** A record is read exactly when some non-blank line decodes to it. */
  lemma ParseLinesMembers(lines: seq<string>, parse: string -> Option<Record>, rec: Record)
    ensures rec in ParseLines(lines, parse) <==>
      exists i :: 0 <= i < |lines| && IsEntryLine(lines[i]) && parse(lines[i]) == Some(rec)
  {
    var f := (line: string) => LineRecord(parse, line);
    Seqs.FilterMapMembers(f, lines, rec);
    assert forall i :: 0 <= i < |lines| ==> f(lines[i]) == LineRecord(parse, lines[i]);
  }

  /** Newest first: timestamps never increase along the list. */
  predicate NewestFirst(s: seq<Record>)
  {
    forall i, j :: 0 <= i < j < |s| ==> s[i].timestamp >= s[j].timestamp
  }

  /** `x` placed in a newest-first list before the first record that is
      strictly older, so that it stays ahead of records with its own
      timestamp that came after it in the file. */
  function InsertNewest(x: Record, ys: seq<Record>): (r: seq<Record>)
    requires NewestFirst(ys)
    ensures NewestFirst(r)
    ensures multiset(r) == multiset(ys) + multiset{x}
    ensures |r| == |ys| + 1 && (r[0] == x || (|ys| > 0 && r[0] == ys[0]))
    decreases |ys|
  {
    if |ys| == 0 || x.timestamp >= ys[0].timestamp then [x] + ys
    else
      var rest := InsertNewest(x, ys[1..]);
      assert ys == [ys[0]] + ys[1..];
      [ys[0]] + rest
  }

  /** `sort_by` newest first: a stable insertion sort on timestamps. */
  function SortNewest(s: seq<Record>): (r: seq<Record>)
    ensures NewestFirst(r)
    ensures multiset(r) == multiset(s)
    decreases |s|
  {
    if |s| == 0 then []
    else
      assert s == [s[0]] + s[1..];
      InsertNewest(s[0], SortNewest(s[1..]))
  }

  /** The records the panel holds after reading the history file: none
      when the file is missing or unreadable, otherwise the parsed
      records newest first. */
  function LoadRecords(file: Option<string>, parse: string -> Option<Record>): (r: seq<Record>)
    ensures NewestFirst(r)
    ensures file.None? ==> r == []
    ensures file.Some? ==> multiset(r) == multiset(ParseLines(Lines(file.value), parse))
  {
    match file
    case None => []
    case Some(content) => SortNewest(ParseLines(Lines(content), parse))
  }

  /** The search box: an empty search keeps every record; otherwise the
      record is kept when its paths, status or message contain the search
      ignoring case, or its hash contains it exactly. */
  predicate MatchesSearch(rec: Record, search: string)
  {
    search == ""
    || ContainsIgnoreCase(rec.localPath, search)
    || ContainsIgnoreCase(rec.remotePath, search)
    || ContainsIgnoreCase(rec.status, search)
    || ContainsIgnoreCase(rec.message, search)
    || Contains(rec.hash, search)
  }

  /** The indices of the records shown, in display order: the matching
      ones in list order, reversed when the order selector is 1
      (oldest first). */
  function Shown(records: seq<Record>, search: string, order: nat): (r: seq<nat>)
    ensures forall i :: 0 <= i < |r| ==> r[i] < |records| && MatchesSearch(records[r[i]], search)
  {
    var ps := Seqs.Positions((rec: Record) => MatchesSearch(rec, search), records);
    if order == 1 then Seqs.Reverse(ps) else ps
  }

  /** Every matching record is shown. */
  lemma ShownComplete(records: seq<Record>, search: string, order: nat, n: nat)
    requires n < |records| && MatchesSearch(records[n], search)
    ensures n in Shown(records, search, order)
  {
    var keep := (rec: Record) => MatchesSearch(rec, search);
    var ps := Seqs.Positions(keep, records);
    Seqs.PositionsComplete(keep, records, n);
    if order == 1 {
      var i :| 0 <= i < |ps| && ps[i] == n;
      assert Shown(records, search, order)[|ps| - 1 - i] == n;
    }
  }

  /** An empty search shows every record, in list order. */
  lemma {:induction false} EmptySearchShowsAll(records: seq<Record>)
    ensures Shown(records, "", 0) == seq(|records|, i => i)
  {
    var ps := Shown(records, "", 0);
    forall n | 0 <= n < |records|
      ensures n in ps
    {
      ShownComplete(records, "", 0, n);
    }

    AllIndices(ps, |records|);
  }

  /** An increasing list of indices below `n` that contains them all is
      `0, 1, …, n - 1`. */
  lemma {:induction false} AllIndices(ps: seq<nat>, n: nat)
    requires forall i :: 0 <= i < |ps| ==> ps[i] < n
    requires forall i, j :: 0 <= i < j < |ps| ==> ps[i] < ps[j]
    requires forall k :: 0 <= k < n ==> k in ps
    ensures ps == seq(n, i => i)
    decreases n
  {
    assert |ps| > 0 ==> ps[0] < n;
    if n > 0 {
      assert n - 1 in ps;
      var i :| 0 <= i < |ps| && ps[i] == n - 1;
      assert ps[|ps| - 1] == n - 1;
      var init := ps[..|ps| - 1];
      forall k | 0 <= k < n - 1
        ensures k in init
      {
        assert k in ps;
        var j :| 0 <= j < |ps| && ps[j] == k;
        assert j != |ps| - 1;
        assert init[j] == k;
      }
      AllIndices(init, n - 1);
      assert |ps| == n;
      forall k | 0 <= k < n
        ensures ps[k] == k
      {
        if k < n - 1 {
          assert ps[k] == init[k];
        }
      }
    }
  }

  /** Oldest first shows exactly the reverse of newest first. */
  lemma ShownReversed(records: seq<Record>, search: string)
    ensures Shown(records, search, 1) == Seqs.Reverse(Shown(records, search, 0))
  {
  }

  /** Shown newest first, timestamps never increase; shown oldest first,
      they never decrease. */
  lemma ShownInTimeOrder(records: seq<Record>, search: string, order: nat)
    requires NewestFirst(records)
    ensures var r := Shown(records, search, order);
      forall i, j :: 0 <= i < j < |r| ==>
        if order == 1 then records[r[i]].timestamp <= records[r[j]].timestamp
        else records[r[i]].timestamp >= records[r[j]].timestamp
  {

  }

  /** What the history list area shows. */
  datatype HistoryView = Loading | NoUploads | NoMatches | Entries(indices: seq<nat>)

  function View(loading: bool, records: seq<Record>, search: string, order: nat): (r: HistoryView)
    ensures r.Loading? <==> loading
    ensures r.NoUploads? <==> !loading && records == []
    ensures r.Entries? ==> r.indices == Shown(records, search, order) && |r.indices| > 0
    ensures r.NoMatches? ==> records != [] && Shown(records, search, order) == []
  {
    if loading then Loading
    else if records == [] then NoUploads
    else
      var shown := Shown(records, search, order);
      if shown == [] then NoMatches else Entries(shown)
  }

  /** The panel state that matters here: whether a load is pending, the
      seconds since the last load started, and the records. */
  datatype ListState = ListState(loading: bool, elapsedSecs: nat, records: seq<Record>)

  /** A load starts when more than ten seconds have passed or one is
      pending. */
  predicate RefreshNeeded(st: ListState)
  {
    st.elapsedSecs > 10 || st.loading
  }

  /** The refresh button: the last load is moved eleven seconds into the
      past and a load is marked pending. */
  function ForceRefresh(st: ListState): (r: ListState)
    ensures r.loading && RefreshNeeded(r) && r.records == st.records
  {
    st.(elapsedSecs := 11, loading := true)
  }

  /** A finished load replaces the records and clears the pending flag. */
  function Reload(st: ListState, file: Option<string>, parse: string -> Option<Record>): (r: ListState)
    ensures !r.loading && NewestFirst(r.records)
  {
    st.(records := LoadRecords(file, parse), loading := false)
  }

  /** After the refresh button the list shows the loading message until
      the load finishes, whatever it held. */
  lemma RefreshShowsLoading(st: ListState, search: string, order: nat)
    ensures View(ForceRefresh(st).loading, ForceRefresh(st).records, search, order) == Loading
  {
  }

  /** Long hashes are shown as their first eight characters, `...` and
      their last eight. */
  function ShortHash(h: string): (r: string)
    ensures |h| > 16 ==> |r| == 19 && r[..8] == h[..8] && r[8..11] == "..." && r[11..] == h[|h| - 8..]
    ensures |h| <= 16 ==> r == h
  {
    if |h| > 16 then h[..8] + "..." + h[|h| - 8..] else h
  }

  /** Shortening a shortened hash changes nothing. */
  lemma ShortHashIdempotent(h: string)
    ensures ShortHash(ShortHash(h)) == ShortHash(h)
  {
    if |h| > 16 {
      var r := ShortHash(h);
      assert r == r[..8] + r[8..11] + r[11..];
    }
  }

  /** The badge of a history record's status. Unlike the upload list, only
      "success" marks a record done. */
  datatype Badge = Done | Broken | Waiting

  function StatusBadge(status: string): (r: Badge)
    ensures r == Done <==> ContainsIgnoreCase(status, "success")
    ensures r == Broken <==>
      !ContainsIgnoreCase(status, "success") &&
      (ContainsIgnoreCase(status, "failed") || ContainsIgnoreCase(status, "error"))
  {
    if ContainsIgnoreCase(status, "success") then Done
    else if ContainsIgnoreCase(status, "failed") || ContainsIgnoreCase(status, "error") then Broken
    else Waiting
  }

  /** The shortened hash is highlighted when the full hash contains the
      search exactly, even where the shortened form hides the match. */
  predicate HashHighlighted(search: string, fullHash: string)
  {
    search != "" && Contains(fullHash, search)
  }

  /** A search for the hidden middle of a long hash highlights its
      shortened form although that form does not show it. */
  lemma HiddenMiddleHighlights(h: string, search: string)
    requires |h| > 16 && search == h[8..|h| - 8] && search != ""
    ensures HashHighlighted(search, h)
  {
    assert OccursAt(h, search, 8);
  }
}
