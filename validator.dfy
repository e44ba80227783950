/**
 * ResultValidator: the post-pass over a result file. It finds the error rows,
 * re-crawls their URLs in slices, merges the successful results back by
 * ORIGINAL_INDEX and reports how many rows were fixed.
 *
 * The result file is given as the table pandas reads from it (its rows
 * carry the labels 0, 1, ... of a fresh RangeIndex); the browser outcome of
 * the k-th re-crawled URL is the k-th scripted Visit.
 */
module Validator {
  import opened Common
  import opened Config
  import opened Extract
  import opened Session

  // ---------------------------------------------------------------------
  // Error rows
  // ---------------------------------------------------------------------

  /**
   * _identify_error_records: ERROR present and not NaN, or one of the
   * critical fields present and equal to the string "NA".
   */
  predicate IsErrorRow(cols: set<Column>, row: Row) {
    || (Error in cols && Cell(row, Error) != Null)
    || (Price in cols && Cell(row, Price) == NA)
    || (OriginPrice in cols && Cell(row, OriginPrice) == NA)
    || (ProdName in cols && Cell(row, ProdName) == NA)
  }

  /** A row of a filtered DataFrame with the label it had in the file. */
  datatype Entry = Entry(rowLabel: nat, row: Row)

  /** `df[error_mask]`: the error rows in file order, with their labels. */
  function ErrorEntries(cols: set<Column>, rows: seq<Row>): (errs: seq<Entry>)
    ensures |errs| <= |rows|
  {
    if rows == [] then []
    else
      var n := |rows| - 1;
      ErrorEntries(cols, rows[..n]) + (if IsErrorRow(cols, rows[n]) then [Entry(n, rows[n])] else [])
  }

  /** Each selected entry is an error row of the file under its own label, and the labels increase. */
  lemma {:induction false} ErrorEntriesSound(cols: set<Column>, rows: seq<Row>)
    ensures forall k :: 0 <= k < |ErrorEntries(cols, rows)| ==>
      && ErrorEntries(cols, rows)[k].rowLabel < |rows|
      && ErrorEntries(cols, rows)[k].row == rows[ErrorEntries(cols, rows)[k].rowLabel]
      && IsErrorRow(cols, ErrorEntries(cols, rows)[k].row)
    ensures forall j, k :: 0 <= j < k < |ErrorEntries(cols, rows)| ==>
      ErrorEntries(cols, rows)[j].rowLabel < ErrorEntries(cols, rows)[k].rowLabel
    decreases |rows|
  {
    if rows != [] {
      var n := |rows| - 1;
      ErrorEntriesSound(cols, rows[..n]);
      var prefix := ErrorEntries(cols, rows[..n]);
      var errs := ErrorEntries(cols, rows);
      assert errs == prefix + (if IsErrorRow(cols, rows[n]) then [Entry(n, rows[n])] else []);
      forall k | 0 <= k < |prefix| ensures errs[k] == prefix[k] && prefix[k].rowLabel < n {
        assert prefix[k].rowLabel < |rows[..n]|;
      }
    }
  }

  /** Every error row of the file is selected. */
  lemma {:induction false} ErrorEntriesComplete(cols: set<Column>, rows: seq<Row>, i: nat)
    requires i < |rows| && IsErrorRow(cols, rows[i])
    ensures exists k :: 0 <= k < |ErrorEntries(cols, rows)| && ErrorEntries(cols, rows)[k].rowLabel == i
  {
    var n := |rows| - 1;
    var prefix := ErrorEntries(cols, rows[..n]);
    if i == n {
      assert ErrorEntries(cols, rows)[|prefix|].rowLabel == i;
    } else {
      ErrorEntriesComplete(cols, rows[..n], i);
      var k :| 0 <= k < |prefix| && prefix[k].rowLabel == i;
      assert ErrorEntries(cols, rows)[k] == prefix[k];
    }
  }

  /** No error entry at all exactly when no row of the file is an error row. */
  lemma NoErrorEntriesIff(cols: set<Column>, rows: seq<Row>)
    ensures ErrorEntries(cols, rows) == [] <==> forall i :: 0 <= i < |rows| ==> !IsErrorRow(cols, rows[i])
  {
    if exists i :: 0 <= i < |rows| && IsErrorRow(cols, rows[i]) {
      var i :| 0 <= i < |rows| && IsErrorRow(cols, rows[i]);
      ErrorEntriesComplete(cols, rows, i);
    }
  }

  // ---------------------------------------------------------------------
  // Re-crawl
  // ---------------------------------------------------------------------

  /**
   * `error_df.loc[error_df["ORIGINAL_INDEX"] == idx].iloc[0]`: the first error
   * row with that ORIGINAL_INDEX; None where `.iloc[0]` raises.
   */
  function Lookup(errs: seq<Entry>, idx: Value): (r: Option<Row>)
    ensures r.Some? ==> OriginalIndex in r.value && r.value[OriginalIndex] == idx
  {
    if errs == [] then None
    else if CellEquals(Cell(errs[0].row, OriginalIndex), idx) then Some(errs[0].row)
    else Lookup(errs[1..], idx)
  }

  /** The lookup finds a row exactly when some error row has that ORIGINAL_INDEX. */
  lemma {:induction false} LookupFinds(errs: seq<Entry>, idx: Value)
    ensures Lookup(errs, idx).Some? <==> exists k :: 0 <= k < |errs| && CellEquals(Cell(errs[k].row, OriginalIndex), idx)
  {
    if errs != [] && !CellEquals(Cell(errs[0].row, OriginalIndex), idx) {
      LookupFinds(errs[1..], idx);
      assert forall k :: 1 <= k < |errs| ==> errs[k] == errs[1..][k - 1];
    }
  }

  /** The lookup fails only for a row whose ORIGINAL_INDEX is NaN. */
  lemma LookupFailsOnlyOnNull(errs: seq<Entry>, k: nat)
    requires k < |errs|
    requires Lookup(errs, Cell(errs[k].row, OriginalIndex)).None?
    ensures Cell(errs[k].row, OriginalIndex) == Null
  {
    LookupFinds(errs, Cell(errs[k].row, OriginalIndex));
  }

  datatype Recrawl = Recrawl(records: seq<Row>, pauses: seq<Pause>) | RecrawlAborted

  /** The re-crawled entry's PROD_ID: `row.get("PROD_ID")` when the column exists. */
  function EntryProdId(hasProdId: bool, e: Entry): Option<Value> {
    if hasProdId then Some(Cell(e.row, ProdId)) else None
  }

  /**
   * How the loop body treats one error row, given the row's position k in
   * the error list, the row, the error row the handler would look up and
   * whether the URL wait follows a success.
   */
  type EntryCrawl = (nat, Entry, Option<Row>, bool) -> Recrawled

  /** The loop body of _recrawl_error_urls for the configured selectors and the scripted visits. */
  function EntryCrawler(cfg: Selectors, hasProdId: bool, visit: nat -> Visit): EntryCrawl {
    (k: nat, e: Entry, errorRow: Option<Row>, waitAfter: bool) =>
      RecrawlOutcome(cfg, Cell(e.row, Url), Cell(e.row, OriginalIndex), EntryProdId(hasProdId, e), visit(k),
                     errorRow, waitAfter)
  }

  /**
   * What the batch-level lemmas need of the loop body: only a failed lookup
   * makes it raise, and a record keeps the ORIGINAL_INDEX of its row.
   */
  ghost predicate Faithful(crawl: EntryCrawl) {
    forall k, e, errorRow, w ::
      && (crawl(k, e, errorRow, w).LookupFailed? ==> errorRow.None?)
      && (crawl(k, e, errorRow, w).Recrawled? &&
          (errorRow.Some? ==> OriginalIndex in errorRow.value && errorRow.value[OriginalIndex] == Cell(e.row, OriginalIndex))
          ==> Cell(crawl(k, e, errorRow, w).record, OriginalIndex) == Cell(e.row, OriginalIndex))
  }

  lemma EntryCrawlerFaithful(cfg: Selectors, hasProdId: bool, visit: nat -> Visit)
    ensures Faithful(EntryCrawler(cfg, hasProdId, visit))
  {
    var crawl := EntryCrawler(cfg, hasProdId, visit);
    forall k, e, errorRow, w
      ensures crawl(k, e, errorRow, w).LookupFailed? ==> errorRow.None?
      ensures crawl(k, e, errorRow, w).Recrawled? &&
          (errorRow.Some? ==> OriginalIndex in errorRow.value && errorRow.value[OriginalIndex] == Cell(e.row, OriginalIndex))
          ==> Cell(crawl(k, e, errorRow, w).record, OriginalIndex) == Cell(e.row, OriginalIndex)
    {
      RecrawledRecordIndex(cfg, Cell(e.row, Url), Cell(e.row, OriginalIndex), EntryProdId(hasProdId, e), visit(k),
                           errorRow, w);
      assert crawl(k, e, errorRow, w) ==
        RecrawlOutcome(cfg, Cell(e.row, Url), Cell(e.row, OriginalIndex), EntryProdId(hasProdId, e), visit(k),
                       errorRow, w);
    }
  }

  /** The loop body for either shape of the file: with or without a PROD_ID column. */
  function Crawlers(cfg: Selectors, visit: nat -> Visit): bool -> EntryCrawl {
    (hasProdId: bool) => EntryCrawler(cfg, hasProdId, visit)
  }

  lemma CrawlersFaithful(cfg: Selectors, visit: nat -> Visit)
    ensures forall hasProdId :: Faithful(Crawlers(cfg, visit)(hasProdId))
  {
    forall hasProdId ensures Faithful(Crawlers(cfg, visit)(hasProdId)) {
      EntryCrawlerFaithful(cfg, hasProdId, visit);
    }
  }

  /**
   * The inner loop over one slice errs[lo..hi], from position k on. The URL
   * wait follows a success when the row's LABEL is below the slice length
   * minus one: the source compares the label, not the position.
   */
  function RecrawlSlice(crawl: EntryCrawl, errs: seq<Entry>, lo: nat, k: nat, hi: nat): (r: Recrawl)
    requires lo <= k <= hi <= |errs|
    ensures r.Recrawl? ==> |r.records| == hi - k
    decreases hi - k
  {
    if k == hi then Recrawl([], [])
    else
      var e := errs[k];
      match crawl(k, e, Lookup(errs, Cell(e.row, OriginalIndex)), e.rowLabel < hi - lo - 1)
      case LookupFailed => RecrawlAborted
      case Recrawled(record, ps) =>
        match RecrawlSlice(crawl, errs, lo, k + 1, hi)
        case RecrawlAborted => RecrawlAborted
        case Recrawl(records, ps') => Recrawl([record] + records, ps + ps')
  }

  /**
   * _recrawl_error_urls from slice start i on: slices of `size` entries, each
   * in a freshly launched browser, with the batch wait between slices.
   */
  function RecrawlFrom(crawl: EntryCrawl, launchable: bool, errs: seq<Entry>, size: nat, waitBetween: bool,
                       i: nat): (r: Recrawl)
    requires size >= 1
    ensures r.Recrawl? ==> |r.records| == if i < |errs| then |errs| - i else 0
    decreases |errs| - i
  {
    if i >= |errs| then Recrawl([], [])
    else if !launchable then RecrawlAborted
    else
      var hi := if i + size < |errs| then i + size else |errs|;
      match RecrawlSlice(crawl, errs, i, i, hi)
      case RecrawlAborted => RecrawlAborted
      case Recrawl(records, ps) =>
        var wait := if waitBetween && i + size < |errs| then [BatchWait] else [];
        match RecrawlFrom(crawl, launchable, errs, size, waitBetween, i + size)
        case RecrawlAborted => RecrawlAborted
        case Recrawl(records', ps') => Recrawl(records + records', ps + wait + ps')
  }

  /** The records carry, in order, the ORIGINAL_INDEX of the error rows from position i on. */
  ghost predicate RecordsMatch(records: seq<Row>, errs: seq<Entry>, i: nat) {
    && i + |records| <= |errs|
    && forall j :: 0 <= j < |records| ==> Cell(records[j], OriginalIndex) == Cell(errs[i + j].row, OriginalIndex)
  }

  /** Records matching the rows from i on, then more matching the rows right after them, match together. */
  lemma RecordsMatchAppend(first: seq<Row>, second: seq<Row>, errs: seq<Entry>, i: nat)
    requires RecordsMatch(first, errs, i) && RecordsMatch(second, errs, i + |first|)
    ensures RecordsMatch(first + second, errs, i)
  {
    forall j | |first| <= j < |first + second|
      ensures Cell((first + second)[j], OriginalIndex) == Cell(errs[i + j].row, OriginalIndex)
    {
      assert (first + second)[j] == second[j - |first|];
    }
  }

  /** Each record of a slice carries the ORIGINAL_INDEX of the error row it re-crawls. */
  lemma {:induction false} RecrawlSliceIndexed(crawl: EntryCrawl, errs: seq<Entry>, lo: nat, k: nat, hi: nat)
    requires Faithful(crawl)
    requires lo <= k <= hi <= |errs|
    requires RecrawlSlice(crawl, errs, lo, k, hi).Recrawl?
    ensures RecordsMatch(RecrawlSlice(crawl, errs, lo, k, hi).records, errs, k)
    decreases hi - k
  {
    if k < hi {
      var e := errs[k];
      var o := crawl(k, e, Lookup(errs, Cell(e.row, OriginalIndex)), e.rowLabel < hi - lo - 1);
      var rest := RecrawlSlice(crawl, errs, lo, k + 1, hi);
      RecrawlSliceIndexed(crawl, errs, lo, k + 1, hi);
      assert RecordsMatch([o.record], errs, k);
      RecordsMatchAppend([o.record], rest.records, errs, k);
    }
  }

  /** A re-crawl that does not abort is its first slice's records followed by the rest's. */
  lemma RecrawlFromStep(crawl: EntryCrawl, launchable: bool, errs: seq<Entry>, size: nat, waitBetween: bool, i: nat)
    requires size >= 1 && i < |errs|
    requires RecrawlFrom(crawl, launchable, errs, size, waitBetween, i).Recrawl?
    ensures var hi := if i + size < |errs| then i + size else |errs|;
      && RecrawlSlice(crawl, errs, i, i, hi).Recrawl?
      && RecrawlFrom(crawl, launchable, errs, size, waitBetween, i + size).Recrawl?
      && RecrawlFrom(crawl, launchable, errs, size, waitBetween, i).records
         == RecrawlSlice(crawl, errs, i, i, hi).records
            + RecrawlFrom(crawl, launchable, errs, size, waitBetween, i + size).records
  {
  }

  /**
   * The re-crawl yields exactly one record per error row, in order, each
   * carrying that row's ORIGINAL_INDEX.
   */
  lemma {:induction false} RecrawlOneRecordPerError(crawl: EntryCrawl, launchable: bool, errs: seq<Entry>,
                                                    size: nat, waitBetween: bool, i: nat)
    requires Faithful(crawl)
    requires size >= 1 && i <= |errs|
    requires RecrawlFrom(crawl, launchable, errs, size, waitBetween, i).Recrawl?
    ensures |RecrawlFrom(crawl, launchable, errs, size, waitBetween, i).records| == |errs| - i
    ensures RecordsMatch(RecrawlFrom(crawl, launchable, errs, size, waitBetween, i).records, errs, i)
    decreases |errs| - i
  {
    if i < |errs| {
      var hi := if i + size < |errs| then i + size else |errs|;
      RecrawlFromStep(crawl, launchable, errs, size, waitBetween, i);
      RecrawlSliceIndexed(crawl, errs, i, i, hi);
      if i + size < |errs| {
        RecrawlOneRecordPerError(crawl, launchable, errs, size, waitBetween, i + size);
      }
      RecordsMatchAppend(RecrawlSlice(crawl, errs, i, i, hi).records,
                         RecrawlFrom(crawl, launchable, errs, size, waitBetween, i + size).records, errs, i);
    }
  }

  /** A slice aborts only on an error row whose ORIGINAL_INDEX is NaN. */
  lemma {:induction false} SliceAbortNeedsNullIndex(crawl: EntryCrawl, errs: seq<Entry>, lo: nat, k: nat, hi: nat)
    requires Faithful(crawl)
    requires lo <= k <= hi <= |errs|
    requires RecrawlSlice(crawl, errs, lo, k, hi).RecrawlAborted?
    ensures exists j :: k <= j < hi && Cell(errs[j].row, OriginalIndex) == Null
    decreases hi - k
  {
    var e := errs[k];
    var idx := Cell(e.row, OriginalIndex);
    if crawl(k, e, Lookup(errs, idx), e.rowLabel < hi - lo - 1).LookupFailed? {
      LookupFailsOnlyOnNull(errs, k);
    } else {
      SliceAbortNeedsNullIndex(crawl, errs, lo, k + 1, hi);
    }
  }

  /**
   * The re-crawl aborts only when the browser cannot be launched or an error
   * row has a NaN ORIGINAL_INDEX.
   */
  lemma {:induction false} RecrawlAbortCauses(crawl: EntryCrawl, launchable: bool, errs: seq<Entry>,
                                              size: nat, waitBetween: bool, i: nat)
    requires Faithful(crawl)
    requires size >= 1
    requires RecrawlFrom(crawl, launchable, errs, size, waitBetween, i).RecrawlAborted?
    ensures !launchable || exists j :: i <= j < |errs| && Cell(errs[j].row, OriginalIndex) == Null
    decreases |errs| - i
  {
    if launchable {
      var hi := if i + size < |errs| then i + size else |errs|;
      if RecrawlSlice(crawl, errs, i, i, hi).RecrawlAborted? {
        SliceAbortNeedsNullIndex(crawl, errs, i, i, hi);
      } else {
        RecrawlAbortCauses(crawl, launchable, errs, size, waitBetween, i + size);
      }
    }
  }

  /**
   * _recrawl_error_urls: the outer loop over slices and the inner loop over
   * the rows of a slice; an exception the handler cannot absorb ends the
   * whole re-crawl.
   */
  method RecrawlErrorUrls(crawl: EntryCrawl, launchable: bool, errs: seq<Entry>, size: nat, waitBetween: bool)
    returns (r: Recrawl)
    requires size >= 1
    ensures r == RecrawlFrom(crawl, launchable, errs, size, waitBetween, 0)
  {
    var whole := RecrawlFrom(crawl, launchable, errs, size, waitBetween, 0);
    var records: seq<Row> := [];
    var pauses: seq<Pause> := [];
    var i := 0;
    while i < |errs|
      invariant whole == Joined(records, pauses, RecrawlFrom(crawl, launchable, errs, size, waitBetween, i))
      decreases |errs| - i
    {
      if !launchable {
        return RecrawlAborted;
      }
      var hi := if i + size < |errs| then i + size else |errs|;
      var slice := RecrawlSliceLoop(crawl, errs, i, hi);
      if slice.RecrawlAborted? {
        return RecrawlAborted;
      }
      var wait := if waitBetween && i + size < |errs| then [BatchWait] else [];
      JoinedJoined(records, pauses, slice.records, slice.pauses + wait,
                   RecrawlFrom(crawl, launchable, errs, size, waitBetween, i + size));
      records := records + slice.records;
      pauses := pauses + (slice.pauses + wait);
      i := i + size;
    }
    r := Recrawl(records, pauses);
  }

  /** What has been collected so far, followed by the rest of the re-crawl. */
  function Joined(records: seq<Row>, pauses: seq<Pause>, rest: Recrawl): Recrawl {
    match rest
    case RecrawlAborted => RecrawlAborted
    case Recrawl(records', pauses') => Recrawl(records + records', pauses + pauses')
  }

  /** Joining twice is joining the concatenations. */
  lemma JoinedJoined(records: seq<Row>, pauses: seq<Pause>, records': seq<Row>, pauses': seq<Pause>, rest: Recrawl)
    ensures Joined(records, pauses, Joined(records', pauses', rest)) == Joined(records + records', pauses + pauses', rest)
  {
    if rest.Recrawl? {
      assert records + (records' + rest.records) == records + records' + rest.records;
      assert pauses + (pauses' + rest.pauses) == pauses + pauses' + rest.pauses;
    }
  }

  /** One row of a slice: it aborts the slice, or its record comes before the rest's. */
  lemma RecrawlSliceStep(crawl: EntryCrawl, errs: seq<Entry>, lo: nat, k: nat, hi: nat)
    requires lo <= k < hi <= |errs|
    ensures var e := errs[k];
      var one := crawl(k, e, Lookup(errs, Cell(e.row, OriginalIndex)), e.rowLabel < hi - lo - 1);
      RecrawlSlice(crawl, errs, lo, k, hi)
        == if one.LookupFailed? then RecrawlAborted
           else Joined([one.record], one.pauses, RecrawlSlice(crawl, errs, lo, k + 1, hi))
  {
  }

  /** The inner loop over errs[lo..hi]. */
  method RecrawlSliceLoop(crawl: EntryCrawl, errs: seq<Entry>, lo: nat, hi: nat) returns (r: Recrawl)
    requires lo <= hi <= |errs|
    ensures r == RecrawlSlice(crawl, errs, lo, lo, hi)
  {
    var whole := RecrawlSlice(crawl, errs, lo, lo, hi);
    var records: seq<Row> := [];
    var pauses: seq<Pause> := [];
    for k := lo to hi
      invariant whole == Joined(records, pauses, RecrawlSlice(crawl, errs, lo, k, hi))
    {
      var e := errs[k];
      var one := crawl(k, e, Lookup(errs, Cell(e.row, OriginalIndex)), e.rowLabel < hi - lo - 1);
      RecrawlSliceStep(crawl, errs, lo, k, hi);
      if one.LookupFailed? {
        return RecrawlAborted;
      }
      JoinedJoined(records, pauses, [one.record], one.pauses, RecrawlSlice(crawl, errs, lo, k + 1, hi));
      records := records + [one.record];
      pauses := pauses + one.pauses;
    }
    r := Recrawl(records, pauses);
  }

  // ---------------------------------------------------------------------
  // Merge
  // ---------------------------------------------------------------------

  /** `"ERROR" not in record or record["ERROR"] is None`: the re-crawl succeeded. */
  predicate Succeeded(rec: Row) {
    Error !in rec || rec[Error] == Null
  }

  /** The record updates this row: it succeeded and its ORIGINAL_INDEX equals the row's. */
  predicate Targets(rec: Row, row: Row) {
    Succeeded(rec) && OriginalIndex in rec && CellEquals(Cell(row, OriginalIndex), rec[OriginalIndex])
  }

  /** The row after `loc[mask, col] = value` for every column of the file, then ERROR cleared. */
  function Overwrite(row: Row, rec: Row): (r: Row)
    ensures r.Keys == row.Keys
  {
    map c | c in row :: if c == Error then Null else if c in rec then rec[c] else row[c]
  }

  /** One fixed record applied to every row it targets. */
  function MergeRecord(rows: seq<Row>, rec: Row): (rs: seq<Row>)
    ensures |rs| == |rows|
    ensures forall i :: 0 <= i < |rows| ==> rs[i].Keys == rows[i].Keys
    ensures forall i :: 0 <= i < |rows| && !Targets(rec, rows[i]) ==> rs[i] == rows[i]
    ensures forall i, c :: 0 <= i < |rows| && Targets(rec, rows[i]) && c in rows[i] ==>
      rs[i][c] == if c == Error then Null else if c in rec then rec[c] else rows[i][c]
  {
    seq(|rows|, i requires 0 <= i < |rows| => if Targets(rec, rows[i]) then Overwrite(rows[i], rec) else rows[i])
  }

  /** _update_dataframe: the fixed records applied in order. */
  function MergeAll(rows: seq<Row>, recs: seq<Row>): seq<Row> {
    if recs == [] then rows
    else MergeRecord(MergeAll(rows, recs[..|recs| - 1]), recs[|recs| - 1])
  }

  /** The merge keeps the number of rows and each row's columns. */
  lemma {:induction false} MergeKeepsShape(rows: seq<Row>, recs: seq<Row>)
    ensures |MergeAll(rows, recs)| == |rows|
    ensures forall i :: 0 <= i < |rows| ==> MergeAll(rows, recs)[i].Keys == rows[i].Keys
  {
    if recs != [] {
      MergeKeepsShape(rows, recs[..|recs| - 1]);
    }
  }

  /** An overwrite keeps the ORIGINAL_INDEX cell of the row it targets. */
  lemma OverwriteKeepsIndex(rec: Row, row: Row)
    requires Targets(rec, row)
    ensures Cell(Overwrite(row, rec), OriginalIndex) == Cell(row, OriginalIndex)
  {
  }

  /** A row that no successful record names by its ORIGINAL_INDEX stays as it was. */
  lemma {:induction false} MergeLeavesUntargetedRow(rows: seq<Row>, recs: seq<Row>, i: nat)
    requires i < |rows|
    requires forall k :: 0 <= k < |recs| ==> !Targets(recs[k], rows[i])
    ensures |MergeAll(rows, recs)| == |rows| && MergeAll(rows, recs)[i] == rows[i]
  {
    MergeKeepsShape(rows, recs);
    if recs != [] {
      var prefix := recs[..|recs| - 1];
      MergeLeavesUntargetedRow(rows, prefix, i);
      assert recs[|recs| - 1] == recs[|recs| - 1];
    }
  }

  /** Records whose re-crawl failed change nothing. */
  lemma {:induction false} FailedRecordsChangeNothing(rows: seq<Row>, recs: seq<Row>)
    requires forall k :: 0 <= k < |recs| ==> !Succeeded(recs[k])
    ensures MergeAll(rows, recs) == rows
  {
    if recs != [] {
      FailedRecordsChangeNothing(rows, recs[..|recs| - 1]);
      MergeKeepsShape(rows, recs[..|recs| - 1]);
    }
  }

  /** The merge keeps every row's ORIGINAL_INDEX. */
  lemma {:induction false} MergeKeepsIndex(rows: seq<Row>, recs: seq<Row>, i: nat)
    requires i < |rows|
    ensures |MergeAll(rows, recs)| == |rows|
    ensures Cell(MergeAll(rows, recs)[i], OriginalIndex) == Cell(rows[i], OriginalIndex)
  {
    MergeKeepsShape(rows, recs);
    if recs != [] {
      var prev := MergeAll(rows, recs[..|recs| - 1]);
      MergeKeepsIndex(rows, recs[..|recs| - 1], i);
      var rec := recs[|recs| - 1];
      if Targets(rec, prev[i]) {
        OverwriteKeepsIndex(rec, prev[i]);
      }
    }
  }

  /** A row that some successful record targets ends the merge without an ERROR. */
  lemma {:induction false} MergeClearsError(rows: seq<Row>, recs: seq<Row>, j: nat, i: nat)
    requires j < |recs| && i < |rows| && Targets(recs[j], rows[i])
    ensures |MergeAll(rows, recs)| == |rows|
    ensures Cell(MergeAll(rows, recs)[i], Error) == Null
  {
    MergeKeepsShape(rows, recs);
    var n := |recs| - 1;
    var prev := MergeAll(rows, recs[..n]);
    MergeKeepsShape(rows, recs[..n]);
    if j == n {
      MergeKeepsIndex(rows, recs[..n], i);
      assert Targets(recs[n], prev[i]);
    } else {
      assert recs[..n][j] == recs[j];
      MergeClearsError(rows, recs[..n], j, i);
    }
  }

  /** The table the merge produces: the same columns, every row still padded to them. */
  lemma MergedTableValid(t: Table, recs: seq<Row>)
    requires t.Valid()
    ensures Table(t.columns, MergeAll(t.rows, recs)).Valid()
    ensures |MergeAll(t.rows, recs)| == |t.rows|
  {
    MergeKeepsShape(t.rows, recs);
  }

  /**
   * _update_dataframe on a copy of the table: for each fixed record, the rows
   * whose ORIGINAL_INDEX equals the record's take its cells and lose their
   * ERROR. (A record that matches no row changes nothing; the source's
   * `mask.any()` test only chooses the log message.)
   */
  method UpdateDataframe(t: Table, fixed: seq<Row>) returns (u: Table)
    ensures u == Table(t.columns, MergeAll(t.rows, fixed))
  {
    var rows := t.rows;
    for j := 0 to |fixed|
      invariant rows == MergeAll(t.rows, fixed[..j])
    {
      var rec := fixed[j];
      assert fixed[..j + 1][..j] == fixed[..j];
      if OriginalIndex in rec && rec[OriginalIndex] != Null && Succeeded(rec) {
        var before := rows;
        for i := 0 to |rows|
          invariant |rows| == |before|
          invariant forall k :: 0 <= k < i ==>
            rows[k] == if Targets(rec, before[k]) then Overwrite(before[k], rec) else before[k]
          invariant forall k :: i <= k < |rows| ==> rows[k] == before[k]
        {
          if CellEquals(Cell(rows[i], OriginalIndex), rec[OriginalIndex]) {
            rows := rows[i := Overwrite(rows[i], rec)];
          }
        }
        assert rows == MergeRecord(before, rec);
      } else {
        assert MergeRecord(rows, rec) == rows;
      }
    }
    assert fixed[..|fixed|] == fixed;
    u := Table(t.columns, rows);
  }

  // ---------------------------------------------------------------------
  // validate_and_recrawl
  // ---------------------------------------------------------------------

  /** The statistics the validator keeps. */
  datatype Stats = Stats(total: nat, errors: nat, recrawled: nat, fixed: nat, remaining: int)

  /** `sum(1 for r in fixed_records if "ERROR" not in r or r.get("ERROR") is None)`. */
  function CountFixed(recs: seq<Row>): (n: nat)
    ensures n <= |recs|
  {
    if recs == [] then 0
    else CountFixed(recs[..|recs| - 1]) + (if Succeeded(recs[|recs| - 1]) then 1 else 0)
  }

  /**
   * What validate_and_recrawl returns and writes. Whenever the file exists
   * its content is first copied unchanged to the `_original` backup.
   * NoErrors writes the table unchanged as `_validated`; Validated writes
   * the merged table as `_validated_{today}`: the two names differ.
   */
  datatype Validation =
    | NoFile                                              // returns False
    | Failed                                              // an exception: returns False
    | NoErrors(validated: Table)                          // returns True
    | Validated(validated: Table, pauses: seq<Pause>)     // returns True

  datatype ValidationRun = ValidationRun(result: Validation, stats: Stats)

  /**
   * The result of validate_and_recrawl and the statistics it leaves, from
   * the statistics `prior` it starts with (a fresh validator's are zero).
   * `crawlFor(hasProdId)` is the loop body of the re-crawl for a file with
   * or without a PROD_ID column; `launchable` says whether a browser starts.
   */
  function ValidateWith(crawlFor: bool -> EntryCrawl, launchable: bool, prior: Stats, file: Option<Table>,
                        size: nat, waitBetween: bool): (v: ValidationRun)
    requires file.Some? ==> file.value.Valid()
    ensures file.None? <==> v.result.NoFile?
    ensures v.result.NoFile? ==> v.stats == prior
    ensures v.result.NoErrors? ==> v.result.validated == file.value
    ensures v.result.NoErrors? <==> file.Some? && ErrorEntries(file.value.columns, file.value.rows) == []
  {
    if file.None? then ValidationRun(NoFile, prior)
    else
      var t := file.value;
      var errs := ErrorEntries(t.columns, t.rows);
      if errs == [] then ValidationRun(NoErrors(t), prior.(total := |t.rows|, errors := 0))
      else
        var found := prior.(total := |t.rows|, errors := |errs|);
        // recrawl_df needs URL and ORIGINAL_INDEX; range() refuses a zero step.
        if Url !in t.columns || OriginalIndex !in t.columns || size == 0 then ValidationRun(Failed, found)
        else
          match RecrawlFrom(crawlFor(ProdId in t.columns), launchable, errs, size, waitBetween, 0)
          case RecrawlAborted => ValidationRun(Failed, found)
          case Recrawl(recs, ps) =>
            var fixed := CountFixed(recs);
            ValidationRun(Validated(Table(t.columns, MergeAll(t.rows, recs)), ps),
                          found.(recrawled := |recs|, fixed := fixed, remaining := |recs| - fixed))
  }

  /** The records a validation that got as far as the merge applied. */
  function RecrawledRecords(crawlFor: bool -> EntryCrawl, launchable: bool, t: Table, size: nat, waitBetween: bool)
    : (r: Recrawl)
    requires size >= 1
    ensures r.Recrawl? ==> |r.records| == |ErrorEntries(t.columns, t.rows)|
  {
    RecrawlFrom(crawlFor(ProdId in t.columns), launchable, ErrorEntries(t.columns, t.rows), size, waitBetween, 0)
  }

  /**
   * A validated file has the input's columns and row count; every error row
   * was re-crawled exactly once, and fixed plus remaining is the number
   * re-crawled.
   */
  lemma ValidatedShape(crawlFor: bool -> EntryCrawl, launchable: bool, prior: Stats, t: Table, size: nat,
                       waitBetween: bool)
    requires t.Valid()
    requires ValidateWith(crawlFor, launchable, prior, Some(t), size, waitBetween).result.Validated?
    ensures var v := ValidateWith(crawlFor, launchable, prior, Some(t), size, waitBetween);
      && v.result.validated.columns == t.columns
      && v.result.validated.Valid()
      && |v.result.validated.rows| == |t.rows|
      && v.stats.total == |t.rows|
      && v.stats.recrawled == v.stats.errors == |ErrorEntries(t.columns, t.rows)| > 0
      && v.stats.fixed <= v.stats.recrawled
      && v.stats.fixed + v.stats.remaining == v.stats.recrawled
  {
    MergedTableValid(t, RecrawledRecords(crawlFor, launchable, t, size, waitBetween).records);
  }

  /**
   * In a validated file, a row that no successful re-crawl names by its
   * ORIGINAL_INDEX is the input row unchanged.
   */
  lemma ValidatedKeepsUntouchedRows(crawlFor: bool -> EntryCrawl, launchable: bool, prior: Stats, t: Table, size: nat,
                                    waitBetween: bool, i: nat)
    requires t.Valid() && i < |t.rows|
    requires ValidateWith(crawlFor, launchable, prior, Some(t), size, waitBetween).result.Validated?
    requires var recs := RecrawledRecords(crawlFor, launchable, t, size, waitBetween).records;
      forall k :: 0 <= k < |recs| ==> !Targets(recs[k], t.rows[i])
    ensures var u := ValidateWith(crawlFor, launchable, prior, Some(t), size, waitBetween).result.validated;
      |u.rows| == |t.rows| && u.rows[i] == t.rows[i]
  {
    MergeLeavesUntargetedRow(t.rows, RecrawledRecords(crawlFor, launchable, t, size, waitBetween).records, i);
  }

  /**
   * In a validated file, an error row whose re-crawl succeeded no longer
   * carries an ERROR (for a faithful loop body, and a row whose
   * ORIGINAL_INDEX is not NaN).
   */
  lemma ValidatedClearsFixedErrors(crawlFor: bool -> EntryCrawl, launchable: bool, prior: Stats, t: Table,
                                   size: nat, waitBetween: bool, j: nat)
    requires forall hasProdId :: Faithful(crawlFor(hasProdId))
    requires t.Valid()
    requires ValidateWith(crawlFor, launchable, prior, Some(t), size, waitBetween).result.Validated?
    requires j < |ErrorEntries(t.columns, t.rows)|
    requires Cell(ErrorEntries(t.columns, t.rows)[j].row, OriginalIndex) != Null
    requires Succeeded(RecrawledRecords(crawlFor, launchable, t, size, waitBetween).records[j])
    ensures var u := ValidateWith(crawlFor, launchable, prior, Some(t), size, waitBetween).result.validated;
      var l := ErrorEntries(t.columns, t.rows)[j].rowLabel;
      l < |u.rows| && Cell(u.rows[l], Error) == Null
  {
    var errs := ErrorEntries(t.columns, t.rows);
    ErrorEntriesSound(t.columns, t.rows);
    var recs := RecrawledRecords(crawlFor, launchable, t, size, waitBetween).records;
    RecrawlOneRecordPerError(crawlFor(ProdId in t.columns), launchable, errs, size, waitBetween, 0);
    var l := errs[j].rowLabel;
    assert Cell(recs[j], OriginalIndex) == Cell(errs[j].row, OriginalIndex);
    assert Targets(recs[j], t.rows[l]);
    MergeClearsError(t.rows, recs, j, l);
    MergeKeepsShape(t.rows, recs);
  }

  /** The validator's one piece of state: its statistics. */
  class ResultValidator {
    const settings: Settings
    const selectors: Selectors
    var stats: Stats

    constructor (settings: Settings, selectors: Selectors)
      ensures this.settings == settings && this.selectors == selectors
      ensures stats == Stats(0, 0, 0, 0, 0)
    {
      this.settings := settings;
      this.selectors := selectors;
      stats := Stats(0, 0, 0, 0, 0);
    }

    /**
     * validate_and_recrawl on the content of the result file (None when it
     * does not exist). Each statistic is set as its stage is reached.
     */
    method ValidateAndRecrawl(file: Option<Table>, size: nat, waitBetween: bool, visit: nat -> Visit)
      returns (v: Validation)
      requires file.Some? ==> file.value.Valid()
      modifies this`stats
      ensures var spec := ValidateWith(Crawlers(selectors, visit), Launchable(settings), old(stats), file, size,
                                       waitBetween);
        v == spec.result && stats == spec.stats
    {
      if file.None? {
        return NoFile;
      }
      var t := file.value;
      stats := stats.(total := |t.rows|);
      var errs := ErrorEntries(t.columns, t.rows);
      stats := stats.(errors := |errs|);
      if |errs| == 0 {
        return NoErrors(t);
      }
      if Url !in t.columns || OriginalIndex !in t.columns || size == 0 {
        return Failed;
      }
      var r := RecrawlErrorUrls(Crawlers(selectors, visit)(ProdId in t.columns), Launchable(settings), errs, size,
                                waitBetween);
      if r.RecrawlAborted? {
        return Failed;
      }
      var fixed := CountFixed(r.records);
      stats := stats.(recrawled := |r.records|, fixed := fixed, remaining := |r.records| - fixed);
      var u := UpdateDataframe(t, r.records);
      v := Validated(u, r.pauses);
    }
  }
}
