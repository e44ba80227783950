/**
 * CoupangCrawler: process_urls, _process_batch and
 * _save_results_to_single_file. The input file's rows from the resolved start
 * index to the end index are crawled in batches; every visited URL appends
 * one record to the day's result file unless the page is blocked, which ends
 * the run. The checkpoint is saved before each batch, after each finished
 * batch and on a block, and the next run resumes from it.
 *
 * The browser outcome of the URL at original index i is the scripted visit(i).
 */
module Crawler {
  import opened Common
  import opened Config
  import opened Extract
  import opened Session
  import opened Validator

  /**
   * How the loop body of _process_batch treats one URL, given its original
   * index, its input row and whether it is not the last of its batch.
   */
  type UrlCrawl = (nat, Row, bool) -> Outcome

  /** `row['PROD_ID']` when the input has that column, else None. */
  function RowProdId(hasProdId: bool, row: Row): Option<Value> {
    if hasProdId then Some(Cell(row, ProdId)) else None
  }

  /** The loop body for either shape of the input: with or without a PROD_ID column. */
  function UrlCrawlers(cfg: Selectors, visit: nat -> Visit): bool -> UrlCrawl {
    (hasProdId: bool) =>
      (oi: nat, row: Row, waitAfter: bool) =>
        VisitOutcome(cfg, Cell(row, Url), Int(oi), RowProdId(hasProdId, row), visit(oi), waitAfter)
  }

  /** What the run-level lemmas need of the loop body: a record carries the index it was crawled under. */
  ghost predicate Indexed(crawl: UrlCrawl) {
    forall oi: nat, row, w :: crawl(oi, row, w).Appended? ==>
      Cell(crawl(oi, row, w).record, OriginalIndex) == Int(oi)
  }

  lemma UrlCrawlersIndexed(cfg: Selectors, visit: nat -> Visit)
    ensures forall hasProdId :: Indexed(UrlCrawlers(cfg, visit)(hasProdId))
  {
    forall hasProdId, oi: nat, row, w
      ensures UrlCrawlers(cfg, visit)(hasProdId)(oi, row, w).Appended? ==>
        Cell(UrlCrawlers(cfg, visit)(hasProdId)(oi, row, w).record, OriginalIndex) == Int(oi)
    {
      var o := VisitOutcome(cfg, Cell(row, Url), Int(oi), RowProdId(hasProdId, row), visit(oi), w);
      assert UrlCrawlers(cfg, visit)(hasProdId)(oi, row, w) == o;
      if o.Appended? {
        AppendedRecordShape(cfg, Cell(row, Url), Int(oi), RowProdId(hasProdId, row), visit(oi), w);
      }
    }
  }

  // ---------------------------------------------------------------------
  // One batch
  // ---------------------------------------------------------------------

  /** The records a batch appends, its sleeps, and the batch-relative index of a blocked URL. */
  datatype BatchResult = BatchResult(records: seq<Row>, pauses: seq<Pause>, blocked: Option<nat>)

  /**
   * _process_batch's loop from row idx on, over rows[bstart..bend] of the
   * window that starts at original index `start`.
   */
  function BatchFrom(crawl: UrlCrawl, start: nat, rows: seq<Row>, bstart: nat, idx: nat, bend: nat): (r: BatchResult)
    requires bstart <= idx <= bend <= |rows|
    ensures r.blocked.None? ==> |r.records| == bend - idx
    ensures r.blocked.Some? ==> r.blocked.value == idx - bstart + |r.records| && idx + |r.records| < bend
    decreases bend - idx
  {
    if idx == bend then BatchResult([], [], None)
    else
      match crawl(start + idx, rows[idx], idx < bend - 1)
      case Blocked(ps) => BatchResult([], ps, Some(idx - bstart))
      case Appended(record, ps) =>
        var rest := BatchFrom(crawl, start, rows, bstart, idx + 1, bend);
        BatchResult([record] + rest.records, ps + rest.pauses, rest.blocked)
  }

  /** Each record of a batch carries the original index of the row it was crawled for. */
  lemma {:induction false} BatchRecordsIndexed(crawl: UrlCrawl, start: nat, rows: seq<Row>, bstart: nat, idx: nat,
                                               bend: nat)
    requires Indexed(crawl)
    requires bstart <= idx <= bend <= |rows|
    ensures forall j :: 0 <= j < |BatchFrom(crawl, start, rows, bstart, idx, bend).records| ==>
      Cell(BatchFrom(crawl, start, rows, bstart, idx, bend).records[j], OriginalIndex) == Int(start + idx + j)
    decreases bend - idx
  {
    if idx < bend {
      var o := crawl(start + idx, rows[idx], idx < bend - 1);
      if o.Appended? {
        BatchRecordsIndexed(crawl, start, rows, bstart, idx + 1, bend);
        var rest := BatchFrom(crawl, start, rows, bstart, idx + 1, bend);
        var r := BatchFrom(crawl, start, rows, bstart, idx, bend);
        assert r.records == [o.record] + rest.records;
        forall j | 0 <= j < |r.records|
          ensures Cell(r.records[j], OriginalIndex) == Int(start + idx + j)
        {
          if j > 0 {
            assert r.records[j] == rest.records[j - 1];
          }
        }
      }
    }
  }

  /** The batch so far, followed by the rest of the batch. */
  function ThenBatch(records: seq<Row>, pauses: seq<Pause>, rest: BatchResult): BatchResult {
    BatchResult(records + rest.records, pauses + rest.pauses, rest.blocked)
  }

  /** A crawled URL adds its record and sleeps to the batch so far. */
  lemma BatchGoesOn(crawl: UrlCrawl, start: nat, rows: seq<Row>, bstart: nat, idx: nat, bend: nat,
                    records: seq<Row>, pauses: seq<Pause>)
    requires bstart <= idx < bend <= |rows|
    requires crawl(start + idx, rows[idx], idx < bend - 1).Appended?
    ensures var o := crawl(start + idx, rows[idx], idx < bend - 1);
      ThenBatch(records, pauses, BatchFrom(crawl, start, rows, bstart, idx, bend))
        == ThenBatch(records + [o.record], pauses + o.pauses, BatchFrom(crawl, start, rows, bstart, idx + 1, bend))
  {
    var o := crawl(start + idx, rows[idx], idx < bend - 1);
    var rest := BatchFrom(crawl, start, rows, bstart, idx + 1, bend);
    assert records + ([o.record] + rest.records) == records + [o.record] + rest.records;
    assert pauses + (o.pauses + rest.pauses) == pauses + o.pauses + rest.pauses;
  }

  /** A blocked URL ends the batch with what it had so far. */
  lemma BatchStops(crawl: UrlCrawl, start: nat, rows: seq<Row>, bstart: nat, idx: nat, bend: nat,
                   records: seq<Row>, pauses: seq<Pause>)
    requires bstart <= idx < bend <= |rows|
    requires crawl(start + idx, rows[idx], idx < bend - 1).Blocked?
    ensures ThenBatch(records, pauses, BatchFrom(crawl, start, rows, bstart, idx, bend))
         == BatchResult(records, pauses + crawl(start + idx, rows[idx], idx < bend - 1).pauses, Some(idx - bstart))
  {
    assert records + [] == records;
  }

  /** At the end of the batch nothing is left to add. */
  lemma BatchEnds(crawl: UrlCrawl, start: nat, rows: seq<Row>, bstart: nat, bend: nat,
                  records: seq<Row>, pauses: seq<Pause>)
    requires bstart <= bend <= |rows|
    ensures ThenBatch(records, pauses, BatchFrom(crawl, start, rows, bstart, bend, bend))
         == BatchResult(records, pauses, None)
  {
    assert records + [] == records && pauses + [] == pauses;
  }

  /** Nothing crawled yet: the batch so far is empty. */
  lemma BatchBegins(crawl: UrlCrawl, start: nat, rows: seq<Row>, bstart: nat, bend: nat)
    requires bstart <= bend <= |rows|
    ensures var r := BatchFrom(crawl, start, rows, bstart, bstart, bend);
      ThenBatch([], [], r) == r
  {
    var r := BatchFrom(crawl, start, rows, bstart, bstart, bend);
    assert [] + r.records == r.records && [] + r.pauses == r.pauses;
  }

  // ---------------------------------------------------------------------
  // The result file
  // ---------------------------------------------------------------------

  /**
   * _save_results_to_single_file: nothing for no records; otherwise the
   * records as a table, appended below the existing file's rows.
   */
  function Saved(output: Option<Table>, recs: seq<Row>): (o: Option<Table>)
    ensures recs == [] ==> o == output
    ensures recs != [] ==> o.Some?
  {
    if recs == [] then output
    else if output.None? then Some(FromRecords(recs))
    else Some(Concat(output.value, FromRecords(recs)))
  }

  /** The rows a file holds; an absent file holds none. */
  function RowCount(output: Option<Table>): nat {
    if output.Some? then |output.value.rows| else 0
  }

  /**
   * From row `from` on, the file holds the records `recs` in order, each
   * padded to the file's columns (which cover every record's keys).
   */
  ghost predicate HoldsFrom(o: Option<Table>, from: nat, recs: seq<Row>) {
    recs == [] || (
      && o.Some? && from + |recs| <= |o.value.rows|
      && forall k :: 0 <= k < |recs| ==>
           recs[k].Keys <= o.value.columns && o.value.rows[from + k] == Pad(recs[k], o.value.columns))
  }

  /**
   * Going from `before` to `after` only appends `recs`: both files are well
   * formed, the old rows keep their cells (widened to the new columns), the
   * records follow them in order, each padded to the file's columns, and
   * nothing else is added.
   */
  ghost predicate Appends(before: Option<Table>, after: Option<Table>, recs: seq<Row>) {
    && (before.Some? ==> before.value.Valid())
    && (after.Some? ==> after.value.Valid())
    && (before.Some? ==>
          && after.Some? && Extends(before.value, after.value)
          && forall i :: 0 <= i < |before.value.rows| ==>
               after.value.rows[i] == Pad(before.value.rows[i], after.value.columns))
    && HoldsFrom(after, RowCount(before), recs)
    && RowCount(after) == RowCount(before) + |recs|
  }

  /** _save_results_to_single_file only appends the records it is given. */
  lemma SavedAppends(output: Option<Table>, recs: seq<Row>)
    requires output.Some? ==> output.value.Valid()
    ensures Appends(output, Saved(output, recs), recs)
  {
    if recs != [] {
      FromRecordsHolds(recs);
      if output.Some? {
        ConcatAppends(output.value, FromRecords(recs), recs);
      }
    }
  }

  /** Appending twice is appending both lists of records, one after the other. */
  lemma AppendsTransitive(a: Option<Table>, b: Option<Table>, c: Option<Table>, first: seq<Row>, second: seq<Row>)
    requires Appends(a, b, first) && Appends(b, c, second)
    ensures Appends(a, c, first + second)
  {
    AppendsKeepsOldRows(a, b, c, first, second);
    AppendsHoldsBoth(a, b, c, first, second);
  }

  /** The rows before the first append survive the second, widened once more. */
  lemma AppendsKeepsOldRows(a: Option<Table>, b: Option<Table>, c: Option<Table>, first: seq<Row>, second: seq<Row>)
    requires Appends(a, b, first) && Appends(b, c, second)
    ensures a.Some? ==>
      && c.Some? && Extends(a.value, c.value)
      && forall i :: 0 <= i < |a.value.rows| ==> c.value.rows[i] == Pad(a.value.rows[i], c.value.columns)
  {
    if a.Some? {
      ExtendsTransitive(a.value, b.value, c.value);
      PadRowsTransitive(a.value, b.value, c.value);
    }
  }

  /** The records of both appends follow the old rows, one list after the other. */
  lemma AppendsHoldsBoth(a: Option<Table>, b: Option<Table>, c: Option<Table>, first: seq<Row>, second: seq<Row>)
    requires Appends(a, b, first) && Appends(b, c, second)
    ensures HoldsFrom(c, RowCount(a), first + second)
  {
    if first != [] {
      HoldsFromKept(b.value, c.value, RowCount(a), first);
    }
    HoldsFromAppend(c, RowCount(a), first, second);
  }

  /** Rows widened twice are the first rows widened once to the last columns. */
  lemma PadRowsTransitive(a: Table, b: Table, c: Table)
    requires a.Valid() && a.columns <= b.columns <= c.columns && |a.rows| <= |b.rows|
    requires forall i :: 0 <= i < |a.rows| ==> b.rows[i] == Pad(a.rows[i], b.columns)
    requires |b.rows| <= |c.rows| && forall i :: 0 <= i < |b.rows| ==> c.rows[i] == Pad(b.rows[i], c.columns)
    ensures forall i :: 0 <= i < |a.rows| ==> c.rows[i] == Pad(a.rows[i], c.columns)
  {
    forall i | 0 <= i < |a.rows| ensures c.rows[i] == Pad(a.rows[i], c.columns) {
      PadPad(a.rows[i], b.columns, c.columns);
    }
  }

  /** pd.DataFrame(records) is well formed and holds the records from its first row. */
  lemma FromRecordsHolds(recs: seq<Row>)
    ensures FromRecords(recs).Valid() && HoldsFrom(Some(FromRecords(recs)), 0, recs)
  {
    FromRecordsRows(recs);
    KeysOfCovers(recs);
    var t := FromRecords(recs);
    forall k | 0 <= k < |recs| ensures recs[k].Keys <= t.columns && t.rows[k] == Pad(recs[k], t.columns) {
    }
  }

  /** Appending a table that holds some records: the old rows stay, widened, and the records follow them. */
  lemma ConcatAppends(a: Table, b: Table, recs: seq<Row>)
    requires a.Valid() && b.Valid() && HoldsFrom(Some(b), 0, recs)
    ensures var t := Concat(a, b);
      && t.Valid() && Extends(a, t)
      && (forall i :: 0 <= i < |a.rows| ==> t.rows[i] == Pad(a.rows[i], t.columns))
      && HoldsFrom(Some(t), |a.rows|, recs)
  {
    ConcatRows(a, b);
    var t := Concat(a, b);
    forall i, c | 0 <= i < |a.rows| && c in a.rows[i] ensures c in t.rows[i] && t.rows[i][c] == a.rows[i][c] {
      assert t.rows[i] == Pad(a.rows[i], t.columns);
    }
    HoldsFromWiden(b, t, 0, recs, |a.rows|);
  }

  /**
   * Records a file holds stay in place, shifted by `shift` rows, when the
   * file's rows are widened to more columns and moved down by `shift`.
   */
  lemma HoldsFromWiden(mid: Table, o: Table, from: nat, recs: seq<Row>, shift: nat)
    requires HoldsFrom(Some(mid), from, recs)
    requires mid.columns <= o.columns && shift + |mid.rows| <= |o.rows|
    requires forall i :: 0 <= i < |mid.rows| ==> o.rows[shift + i] == Pad(mid.rows[i], o.columns)
    ensures HoldsFrom(Some(o), shift + from, recs)
  {
    forall k | 0 <= k < |recs| ensures o.rows[shift + from + k] == Pad(recs[k], o.columns) {
      assert o.rows[shift + (from + k)] == Pad(mid.rows[from + k], o.columns);
      PadPad(recs[k], mid.columns, o.columns);
    }
  }

  /** Widening a file's columns in place keeps the records it holds. */
  lemma HoldsFromKept(mid: Table, o: Table, from: nat, recs: seq<Row>)
    requires HoldsFrom(Some(mid), from, recs)
    requires mid.columns <= o.columns && |mid.rows| <= |o.rows|
    requires forall i :: 0 <= i < |mid.rows| ==> o.rows[i] == Pad(mid.rows[i], o.columns)
    ensures HoldsFrom(Some(o), from, recs)
  {
    forall k | 0 <= k < |recs| ensures o.rows[from + k] == Pad(recs[k], o.columns) {
      PadPad(recs[k], mid.columns, o.columns);
    }
  }

  /** Records held from row `from`, then more right after them, are held together. */
  lemma HoldsFromAppend(o: Option<Table>, from: nat, first: seq<Row>, second: seq<Row>)
    requires HoldsFrom(o, from, first) && HoldsFrom(o, from + |first|, second)
    ensures HoldsFrom(o, from, first + second)
  {
    if first == [] {
      assert first + second == second;
    } else if second != [] {
      forall k | |first| <= k < |first + second|
        ensures (first + second)[k].Keys <= o.value.columns
        ensures o.value.rows[from + k] == Pad((first + second)[k], o.value.columns)
      {
        assert (first + second)[k] == second[k - |first|];
      }
    }
  }

  /** The records of a list of batches, one batch after the other. */
  function Flatten(batches: seq<seq<Row>>): (recs: seq<Row>)
    ensures batches == [] ==> recs == []
  {
    if batches == [] then [] else batches[0] + Flatten(batches[1..])
  }

  /** The result file after saving each batch's records in turn. */
  function SaveAll(output: Option<Table>, batches: seq<seq<Row>>): (o: Option<Table>)
    ensures batches == [] ==> o == output
    decreases |batches|
  {
    if batches == [] then output
    else Saved(SaveAll(output, batches[..|batches| - 1]), batches[|batches| - 1])
  }

  /** Saving batch after batch only appends the records of all batches, in order. */
  lemma {:induction false} SaveAllAppends(output: Option<Table>, batches: seq<seq<Row>>)
    requires output.Some? ==> output.value.Valid()
    ensures Appends(output, SaveAll(output, batches), Flatten(batches))
    decreases |batches|
  {
    if batches == [] {
      assert Appends(output, output, []);
    } else {
      var init := batches[..|batches| - 1];
      var last := batches[|batches| - 1];
      var mid := SaveAll(output, init);
      SaveAllAppends(output, init);
      SavedAppends(mid, last);
      AppendsTransitive(output, mid, SaveAll(output, batches), Flatten(init), last);
      FlattenSnoc(batches);
    }
  }

  /** Saving two lists of batches one after the other is saving them all. */
  lemma {:induction false} SaveAllAppend(output: Option<Table>, first: seq<seq<Row>>, second: seq<seq<Row>>)
    ensures SaveAll(output, first + second) == SaveAll(SaveAll(output, first), second)
    decreases |second|
  {
    if second == [] {
      assert first + second == first;
    } else {
      SaveAllAppend(output, first, second[..|second| - 1]);
      assert (first + second)[..|first + second| - 1] == first + second[..|second| - 1];
    }
  }

  /** Flattening a list of batches is flattening all but the last, then adding the last. */
  lemma {:induction false} FlattenSnoc(batches: seq<seq<Row>>)
    requires batches != []
    ensures Flatten(batches) == Flatten(batches[..|batches| - 1]) + batches[|batches| - 1]
    decreases |batches|
  {
    if |batches| > 1 {
      FlattenSnoc(batches[1..]);
      assert batches[1..][..|batches| - 2] == batches[..|batches| - 1][1..];
    } else {
      assert batches[..0] == [];
    }
  }

  lemma ExtendsTransitive(a: Table, b: Table, c: Table)
    requires Extends(a, b) && Extends(b, c)
    ensures Extends(a, c)
  {
  }

  // ---------------------------------------------------------------------
  // The run
  // ---------------------------------------------------------------------

  /** How process_urls ends. */
  datatype Ending =
    | NoInput            // the input file is missing or has no URL column
    | Finished           // every batch ran
    | BlockedAt(index: nat)  // a block at this original index stopped the run
    | LaunchFailed       // the browser could not be launched: the exception ends the run

  /**
   * What the batch loop does from a batch on: the checkpoints it writes, the
   * records each batch saves to the result file and all of them in order,
   * its sleeps, and how it ends.
   */
  datatype Progress = Progress(saves: seq<Status>, batches: seq<seq<Row>>, records: seq<Row>, pauses: seq<Pause>,
                               ending: Ending)

  /**
   * One pass of the batch loop over rows[bstart..bend] of the window: the
   * checkpoint before the batch, the batch's records and sleeps, and either
   * the checkpoint of the next batch (ending Finished: the loop goes on) or
   * how the loop stops.
   */
  function BatchStep(crawl: UrlCrawl, launchable: bool, file: string, start: nat, rows: seq<Row>, size: nat,
                     b: nat, bstart: nat): (p: Progress)
    requires size >= 1 && bstart < |rows|
    ensures p.ending != NoInput
  {
    var bend := if bstart + size < |rows| then bstart + size else |rows|;
    var first := Status(file, b, start + bstart, None);
    if !launchable then Progress([first], [], [], [], LaunchFailed)
    else
      var br := BatchFrom(crawl, start, rows, bstart, bstart, bend);
      if br.blocked.Some? then
        var blockedIdx := start + bstart + br.blocked.value;
        Progress([first, Status(file, b, start + bstart, Some(blockedIdx))], [br.records], br.records, br.pauses,
                 BlockedAt(blockedIdx))
      else
        var wait := if bstart + size < |rows| then [BatchWait] else [];
        Progress([first, Status(file, b + 1, start + bend, None)], [br.records], br.records, br.pauses + wait,
                 Finished)
  }

  /** The three ways one pass of the batch loop goes, spelled out. */
  lemma BatchStepCases(crawl: UrlCrawl, launchable: bool, file: string, start: nat, rows: seq<Row>, size: nat,
                       b: nat, bstart: nat)
    requires size >= 1 && bstart < |rows|
    ensures var p := BatchStep(crawl, launchable, file, start, rows, size, b, bstart);
      var bend := if bstart + size < |rows| then bstart + size else |rows|;
      var first := Status(file, b, start + bstart, None);
      var br := BatchFrom(crawl, start, rows, bstart, bstart, bend);
      && (!launchable ==> p == Progress([first], [], [], [], LaunchFailed))
      && (launchable && br.blocked.Some? ==>
            var blockedIdx := start + bstart + br.blocked.value;
            p == Progress([first] + [Status(file, b, start + bstart, Some(blockedIdx))], [br.records], br.records,
                          br.pauses, BlockedAt(blockedIdx)))
      && (launchable && br.blocked.None? ==>
            p == Progress([first] + [Status(file, b + 1, start + bend, None)], [br.records], br.records,
                          br.pauses + (if bstart + size < |rows| then [BatchWait] else []), Finished))
  {
    var first := Status(file, b, start + bstart, None);
    assert forall st :: [first] + [st] == [first, st];
  }

  /** The batch loop of process_urls from batch b, which starts at row bstart of the window. */
  function BatchesFrom(crawl: UrlCrawl, launchable: bool, file: string, start: nat, rows: seq<Row>, size: nat,
                       b: nat, bstart: nat): (p: Progress)
    requires size >= 1
    ensures p.ending != NoInput
    decreases |rows| - bstart
  {
    if bstart >= |rows| then Progress([], [], [], [], Finished)
    else
      var step := BatchStep(crawl, launchable, file, start, rows, size, b, bstart);
      if step.ending != Finished then step
      else
        Prepend(step.saves, step.batches, step.records, step.pauses,
                BatchesFrom(crawl, launchable, file, start, rows, size, b + 1, bstart + size))
  }

  /** The loop's progress so far, followed by the rest of the loop. */
  function Prepend(saves: seq<Status>, batches: seq<seq<Row>>, records: seq<Row>, pauses: seq<Pause>, rest: Progress)
    : Progress
  {
    rest.(saves := saves + rest.saves, batches := batches + rest.batches, records := records + rest.records,
          pauses := pauses + rest.pauses)
  }

  lemma AppendAssoc<T>(a: seq<T>, b: seq<T>, c: seq<T>)
    ensures a + b + c == a + (b + c)
  {
  }

  /** Progress made in two stretches is progress made in one. */
  lemma PrependPrepend(saves: seq<Status>, batches: seq<seq<Row>>, records: seq<Row>, pauses: seq<Pause>,
                       saves': seq<Status>, batches': seq<seq<Row>>, records': seq<Row>, pauses': seq<Pause>,
                       rest: Progress)
    ensures Prepend(saves, batches, records, pauses, Prepend(saves', batches', records', pauses', rest))
         == Prepend(saves + saves', batches + batches', records + records', pauses + pauses', rest)
  {
    assert saves + (saves' + rest.saves) == (saves + saves') + rest.saves;
    assert batches + (batches' + rest.batches) == (batches + batches') + rest.batches;
    assert records + (records' + rest.records) == (records + records') + rest.records;
    assert pauses + (pauses' + rest.pauses) == (pauses + pauses') + rest.pauses;
  }

  /** Where batch b starts in the window: after b batches of `size` rows each. */
  function Offset(size: nat, b: nat): nat
  {
    if b == 0 then 0 else Offset(size, b - 1) + size
  }

  /** The progress made so far, followed by one more pass of the loop. */
  function Then(done: Progress, step: Progress): Progress
  {
    Progress(done.saves + step.saves, done.batches + step.batches, done.records + step.records,
             done.pauses + step.pauses, step.ending)
  }

  /**
   * The batch loop as it stands after its first n passes, counted from the
   * front: everything it did, if it stopped earlier or ran out of rows.
   */
  function BatchesThrough(crawl: UrlCrawl, launchable: bool, file: string, start: nat, rows: seq<Row>, size: nat, n: nat): Progress
    requires size >= 1
    decreases n
  {
    if n == 0 then Progress([], [], [], [], Finished)
    else
      var p := BatchesThrough(crawl, launchable, file, start, rows, size, n - 1);
      if p.ending != Finished || Offset(size, n - 1) >= |rows| then p
      else Then(p, BatchStep(crawl, launchable, file, start, rows, size, n - 1, Offset(size, n - 1)))
  }

  /**
   * The passes made, and then (if they went on to the next batch) the loop
   * from there on.
   */
  function Resume(made: Progress, rest: Progress): Progress
  {
    if made.ending == Finished then Prepend(made.saves, made.batches, made.records, made.pauses, rest) else made
  }

  /** The loop seen from batch n: the first n passes, then (if they went on) the loop from batch n. */
  function Split(crawl: UrlCrawl, launchable: bool, file: string, start: nat, rows: seq<Row>, size: nat, n: nat): Progress
    requires size >= 1
  {
    Resume(BatchesThrough(crawl, launchable, file, start, rows, size, n), BatchesFrom(crawl, launchable, file, start, rows, size, n, Offset(size, n)))
  }

  /** One more pass moves the split between passes made and the rest of the loop by one batch. */
  lemma ThroughStep(crawl: UrlCrawl, launchable: bool, file: string, start: nat, rows: seq<Row>, size: nat, n: nat)
    requires size >= 1
    ensures Split(crawl, launchable, file, start, rows, size, n) == Split(crawl, launchable, file, start, rows, size, n + 1)
  {
    var p := BatchesThrough(crawl, launchable, file, start, rows, size, n);
    var o := Offset(size, n);
    if p.ending == Finished {
      if o >= |rows| {
        BatchesStop(crawl, launchable, file, start, rows, size, n, o);
        BatchesStop(crawl, launchable, file, start, rows, size, n + 1, o + size);
      } else {
        var step := BatchStep(crawl, launchable, file, start, rows, size, n, o);
        if step.ending == Finished {
          PrependPrepend(p.saves, p.batches, p.records, p.pauses, step.saves, step.batches, step.records,
                         step.pauses, BatchesFrom(crawl, launchable, file, start, rows, size, n + 1, o + size));
        }
      }
    }
  }

  /** The first n passes followed by the loop from batch n are the loop from its first batch. */
  lemma {:induction false} ThroughThenFrom(crawl: UrlCrawl, launchable: bool, file: string, start: nat, rows: seq<Row>, size: nat, n: nat)
    requires size >= 1
    ensures Split(crawl, launchable, file, start, rows, size, 0) == Split(crawl, launchable, file, start, rows, size, n)
    decreases n
  {
    if n > 0 {
      ThroughThenFrom(crawl, launchable, file, start, rows, size, n - 1);
      ThroughStep(crawl, launchable, file, start, rows, size, n - 1);
    }
  }

  /** No progress made before the rest of the loop leaves it as it is. */
  lemma PrependNothing(rest: Progress)
    ensures Prepend([], [], [], [], rest) == rest
  {
    assert [] + rest.saves == rest.saves && [] + rest.batches == rest.batches;
    assert [] + rest.records == rest.records && [] + rest.pauses == rest.pauses;
  }

  /** Once its first n passes have stopped the loop or covered the window, they are the whole loop. */
  lemma ThroughIsWhole(crawl: UrlCrawl, launchable: bool, file: string, start: nat, rows: seq<Row>, size: nat, n: nat)
    requires size >= 1
    requires BatchesThrough(crawl, launchable, file, start, rows, size, n).ending != Finished || Offset(size, n) >= |rows|
    ensures BatchesFrom(crawl, launchable, file, start, rows, size, 0, 0) == BatchesThrough(crawl, launchable, file, start, rows, size, n)
  {
    ThroughThenFrom(crawl, launchable, file, start, rows, size, n);
    PrependNothing(BatchesFrom(crawl, launchable, file, start, rows, size, 0, 0));
    var p := BatchesThrough(crawl, launchable, file, start, rows, size, n);
    if p.ending == Finished {
      BatchesStop(crawl, launchable, file, start, rows, size, n, Offset(size, n));
      assert p.saves + [] == p.saves && p.batches + [] == p.batches;
      assert p.records + [] == p.records && p.pauses + [] == p.pauses;
    }
  }


  /** The loop does nothing once its start lies beyond the window. */
  lemma BatchesStop(crawl: UrlCrawl, launchable: bool, file: string, start: nat, rows: seq<Row>, size: nat,
                    b: nat, bstart: nat)
    requires size >= 1 && bstart >= |rows|
    ensures BatchesFrom(crawl, launchable, file, start, rows, size, b, bstart) == Progress([], [], [], [], Finished)
  {
  }

  /** The records of the run are those its batches saved, in order. */
  lemma {:induction false} RecordsAreBatches(crawl: UrlCrawl, launchable: bool, file: string, start: nat,
                                             rows: seq<Row>, size: nat, b: nat, bstart: nat)
    requires size >= 1
    ensures var p := BatchesFrom(crawl, launchable, file, start, rows, size, b, bstart);
      p.records == Flatten(p.batches)
    decreases |rows| - bstart
  {
    if bstart < |rows| && launchable {
      var bend := if bstart + size < |rows| then bstart + size else |rows|;
      var br := BatchFrom(crawl, start, rows, bstart, bstart, bend);
      if br.blocked.None? {
        var rest := BatchesFrom(crawl, launchable, file, start, rows, size, b + 1, bstart + size);
        RecordsAreBatches(crawl, launchable, file, start, rows, size, b + 1, bstart + size);
        assert ([br.records] + rest.batches)[1..] == rest.batches;
      } else {
        assert Flatten([br.records]) == br.records + Flatten([]);
      }
    }
  }

  /** The checkpoint file after a sequence of saves: the last one written, if any. */
  function LastSaved(before: Option<Status>, saves: seq<Status>): (st: Option<Status>)
    ensures saves == [] ==> st == before
    ensures saves != [] ==> st == Some(saves[|saves| - 1])
  {
    if saves == [] then before else Some(saves[|saves| - 1])
  }

  /** Saving one list of checkpoints, then another, leaves the last checkpoint of both. */
  lemma LastSavedAppend(before: Option<Status>, first: seq<Status>, second: seq<Status>)
    ensures LastSaved(LastSaved(before, first), second) == LastSaved(before, first + second)
  {
    if second != [] {
      assert (first + second)[|first + second| - 1] == second[|second| - 1];
    } else {
      assert first + second == first;
    }
  }

  /** The batch loop appends one record per visited row, in order and each under its original index. */
  lemma {:induction false} BatchesRecordsIndexed(crawl: UrlCrawl, launchable: bool, file: string, start: nat,
                                                 rows: seq<Row>, size: nat, b: nat, bstart: nat)
    requires Indexed(crawl)
    requires size >= 1
    ensures forall j :: 0 <= j < |BatchesFrom(crawl, launchable, file, start, rows, size, b, bstart).records| ==>
      Cell(BatchesFrom(crawl, launchable, file, start, rows, size, b, bstart).records[j], OriginalIndex)
        == Int(start + bstart + j)
    decreases |rows| - bstart
  {
    if bstart < |rows| && launchable {
      var bend := if bstart + size < |rows| then bstart + size else |rows|;
      var br := BatchFrom(crawl, start, rows, bstart, bstart, bend);
      BatchRecordsIndexed(crawl, start, rows, bstart, bstart, bend);
      if br.blocked.None? {
        var rest := BatchesFrom(crawl, launchable, file, start, rows, size, b + 1, bstart + size);
        BatchesRecordsIndexed(crawl, launchable, file, start, rows, size, b + 1, bstart + size);
        var p := BatchesFrom(crawl, launchable, file, start, rows, size, b, bstart);
        assert p.records == br.records + rest.records;
        forall j | 0 <= j < |p.records|
          ensures Cell(p.records[j], OriginalIndex) == Int(start + bstart + j)
        {
          if j >= |br.records| {
            assert p.records[j] == rest.records[j - |br.records|];
          }
        }
      }
    }
  }

  /**
   * The batch loop stops at a blocked row exactly where its records stop,
   * stops short of the window's end when the browser cannot start, and
   * otherwise covers the whole window.
   */
  lemma {:induction false} BatchesEnding(crawl: UrlCrawl, launchable: bool, file: string, start: nat,
                                         rows: seq<Row>, size: nat, b: nat, bstart: nat)
    requires size >= 1
    ensures var p := BatchesFrom(crawl, launchable, file, start, rows, size, b, bstart);
      && (p.ending == Finished ==> bstart + |p.records| == |rows| || (bstart >= |rows| && p.records == []))
      && (p.ending.BlockedAt? ==> p.ending.index == start + bstart + |p.records| && bstart + |p.records| < |rows|)
      && (p.ending == LaunchFailed ==> bstart + |p.records| < |rows|)
    decreases |rows| - bstart
  {
    if bstart < |rows| && launchable {
      var bend := if bstart + size < |rows| then bstart + size else |rows|;
      var br := BatchFrom(crawl, start, rows, bstart, bstart, bend);
      if br.blocked.None? {
        BatchesEnding(crawl, launchable, file, start, rows, size, b + 1, bstart + size);
      }
    }
  }

  /** Checkpoints that all name the file, none before index `from`, whose last_index never goes backwards. */
  ghost predicate Checkpoints(saves: seq<Status>, file: string, from: nat) {
    && (forall k :: 0 <= k < |saves| ==> saves[k].filePath == file && saves[k].lastIndex >= from)
    && (forall k :: 0 <= k < |saves| - 1 ==> saves[k].lastIndex <= saves[k + 1].lastIndex)
  }

  /** Two runs of checkpoints, the second starting where the first left off, make one. */
  lemma CheckpointsJoin(xs: seq<Status>, ys: seq<Status>, file: string, from: nat, mid: nat)
    requires Checkpoints(xs, file, from) && Checkpoints(ys, file, mid) && from <= mid
    requires xs != [] ==> xs[|xs| - 1].lastIndex <= mid
    ensures Checkpoints(xs + ys, file, from)
  {
    var zs := xs + ys;
    forall k | 0 <= k < |zs| - 1 ensures zs[k].lastIndex <= zs[k + 1].lastIndex {
      if k + 1 < |xs| {
        assert zs[k] == xs[k] && zs[k + 1] == xs[k + 1];
      } else if k + 1 == |xs| {
        assert zs[k] == xs[k] && zs[k + 1] == ys[0];
      } else {
        assert zs[k] == ys[k - |xs|] && zs[k + 1] == ys[k - |xs| + 1];
      }
    }
  }

  /**
   * One pass saves the checkpoint of its own batch first and, when the loop
   * goes on, the checkpoint of the next batch last.
   */
  lemma StepCheckpoints(crawl: UrlCrawl, launchable: bool, file: string, start: nat, rows: seq<Row>, size: nat, b: nat, bstart: nat)
    requires size >= 1 && bstart < |rows|
    ensures var s := BatchStep(crawl, launchable, file, start, rows, size, b, bstart);
      && Checkpoints(s.saves, file, start + bstart)
      && s.saves != [] && s.saves[0] == Status(file, b, start + bstart, None)
      && (s.ending == Finished ==>
            s.saves[|s.saves| - 1] == Status(file, b + 1, start + (if bstart + size < |rows| then bstart + size else |rows|), None))
  {
  }

  /**
   * Every checkpoint names the input file, and their last_index never goes
   * backwards: the first save of a batch repeats the index its predecessor
   * saved, and the batch's own saves move it forward or keep it.
   */
  lemma {:induction false} CheckpointsMonotone(crawl: UrlCrawl, launchable: bool, file: string, start: nat, rows: seq<Row>, size: nat, b: nat, bstart: nat)
    requires size >= 1
    ensures var p := BatchesFrom(crawl, launchable, file, start, rows, size, b, bstart);
      && Checkpoints(p.saves, file, start + bstart)
      && (p.saves != [] ==> p.saves[0] == Status(file, b, start + bstart, None))
    decreases |rows| - bstart
  {
    if bstart < |rows| {
      var step := BatchStep(crawl, launchable, file, start, rows, size, b, bstart);
      StepCheckpoints(crawl, launchable, file, start, rows, size, b, bstart);
      if step.ending == Finished {
        var rest := BatchesFrom(crawl, launchable, file, start, rows, size, b + 1, bstart + size);
        CheckpointsMonotone(crawl, launchable, file, start, rows, size, b + 1, bstart + size);
        CheckpointsJoin(step.saves, rest.saves, file, start + bstart, start + bstart + size);
      }
    }
  }

  /**
   * The last checkpoint of a run resumes it exactly where it stopped: at the
   * blocked URL after a block, and after the last record written otherwise
   * (for a requested start that does not lie beyond that point).
   */
  lemma {:induction false} ResumeContinuesWhereRunStopped(crawl: UrlCrawl, launchable: bool, file: string,
                                                          start: nat, rows: seq<Row>, size: nat, b: nat,
                                                          bstart: nat, requested: nat)
    requires size >= 1 && bstart < |rows|
    requires var p := BatchesFrom(crawl, launchable, file, start, rows, size, b, bstart);
      p.ending.BlockedAt? || requested <= start + bstart + |p.records|
    ensures var p := BatchesFrom(crawl, launchable, file, start, rows, size, b, bstart);
      && p.saves != []
      && ResolveStart(Some(p.saves[|p.saves| - 1]), file, requested, true) == start + bstart + |p.records|
    decreases |rows| - bstart
  {
    BatchesEnding(crawl, launchable, file, start, rows, size, b, bstart);
    if launchable {
      var bend := if bstart + size < |rows| then bstart + size else |rows|;
      var br := BatchFrom(crawl, start, rows, bstart, bstart, bend);
      if br.blocked.None? {
        var rest := BatchesFrom(crawl, launchable, file, start, rows, size, b + 1, bstart + size);
        var p := BatchesFrom(crawl, launchable, file, start, rows, size, b, bstart);
        assert p.records == br.records + rest.records;
        if bstart + size < |rows| {
          ResumeContinuesWhereRunStopped(crawl, launchable, file, start, rows, size, b + 1, bstart + size, requested);
          assert p.saves[|p.saves| - 1] == rest.saves[|rest.saves| - 1];
        } else {
          assert rest.saves == [] && rest.records == [];
        }
      }
    }
  }

  // ---------------------------------------------------------------------
  // process_urls
  // ---------------------------------------------------------------------

  /** `df.iloc[start:end]`: empty when the start lies at or beyond the end. */
  function Window(rows: seq<Row>, start: nat, end: nat): (w: seq<Row>)
    requires end <= |rows|
    ensures start <= end ==> w == rows[start..end]
    ensures end <= start ==> w == []
  {
    if start <= end then rows[start..end] else []
  }

  /** `end_index`, clipped to the file's length. */
  function EndIndex(endArg: Option<nat>, len: nat): (e: nat)
    ensures e <= len
    ensures endArg.None? ==> e == len
    ensures endArg.Some? ==> e == if endArg.value < len then endArg.value else len
  {
    if endArg.None? || endArg.value >= len then len else endArg.value
  }

  /**
   * The crawl part of process_urls on an input with a URL column: where it
   * starts, how many rows its window holds, the batch loop's progress and the
   * result file afterwards.
   */
  datatype Crawl = Crawl(start: nat, total: nat, progress: Progress, output: Option<Table>)

  /**
   * The window of the input from the resolved start index to the end index,
   * crawled batch by batch. `crawlFor` is the loop body for an input with or
   * without PROD_ID; `saved` is the checkpoint file, `output` today's result
   * file.
   */
  function CrawlSpec(crawlFor: bool -> UrlCrawl, launchable: bool, saved: Option<Status>, output: Option<Table>,
                     t: Table, file: string, size: nat, startArg: nat, endArg: Option<nat>, autoRestart: bool)
    : (c: Crawl)
    requires size >= 1
    ensures c.progress.ending != NoInput
  {
    var start := ResolveStart(saved, file, startArg, autoRestart);
    var rows := Window(t.rows, start, EndIndex(endArg, |t.rows|));
    var p := BatchesFrom(crawlFor(ProdId in t.columns), launchable, file, start, rows, size, 0, 0);
    Crawl(start, |rows|, p, SaveAll(output, p.batches))
  }

  /**
   * A crawl covers its window in order: the k-th record carries original
   * index start + k; a finished crawl wrote one record per row of the window;
   * a block stops it at the original index right after the last record. The
   * result file only gains the crawl's records, in order, below its old rows.
   */
  lemma RunCoversWindow(crawlFor: bool -> UrlCrawl, launchable: bool, saved: Option<Status>, output: Option<Table>,
                        t: Table, file: string, size: nat, startArg: nat, endArg: Option<nat>, autoRestart: bool)
    requires forall hasProdId :: Indexed(crawlFor(hasProdId))
    requires size >= 1
    requires output.Some? ==> output.value.Valid()
    ensures var c := CrawlSpec(crawlFor, launchable, saved, output, t, file, size, startArg, endArg, autoRestart);
      var p := c.progress;
      && (forall k :: 0 <= k < |p.records| ==> Cell(p.records[k], OriginalIndex) == Int(c.start + k))
      && (p.ending == Finished ==> |p.records| == c.total)
      && (p.ending.BlockedAt? ==> p.ending.index == c.start + |p.records| && |p.records| < c.total)
      && Appends(output, c.output, p.records)
  {
    var start := ResolveStart(saved, file, startArg, autoRestart);
    var rows := Window(t.rows, start, EndIndex(endArg, |t.rows|));
    var crawl := crawlFor(ProdId in t.columns);
    BatchesRecordsIndexed(crawl, launchable, file, start, rows, size, 0, 0);
    CrawlEnding(crawlFor, launchable, saved, output, t, file, size, startArg, endArg, autoRestart);
  }

  /**
   * How a crawl ends, and what it leaves in the result file: a finished
   * crawl wrote one record per row of its window, a block stops it short of
   * the window's end, and the file only gains the crawl's records.
   */
  lemma CrawlEnding(crawlFor: bool -> UrlCrawl, launchable: bool, saved: Option<Status>, output: Option<Table>,
                    t: Table, file: string, size: nat, startArg: nat, endArg: Option<nat>, autoRestart: bool)
    requires size >= 1
    requires output.Some? ==> output.value.Valid()
    ensures var c := CrawlSpec(crawlFor, launchable, saved, output, t, file, size, startArg, endArg, autoRestart);
      var p := c.progress;
      && (p.ending == Finished ==> |p.records| == c.total)
      && (p.ending.BlockedAt? ==> p.ending.index == c.start + |p.records| && |p.records| < c.total)
      && (p.ending == LaunchFailed ==> |p.records| < c.total)
      && Appends(output, c.output, p.records)
  {
    var start := ResolveStart(saved, file, startArg, autoRestart);
    var rows := Window(t.rows, start, EndIndex(endArg, |t.rows|));
    var crawl := crawlFor(ProdId in t.columns);
    BatchesEnding(crawl, launchable, file, start, rows, size, 0, 0);
    RecordsAreBatches(crawl, launchable, file, start, rows, size, 0, 0);
    SaveAllAppends(output, BatchesFrom(crawl, launchable, file, start, rows, size, 0, 0).batches);
  }

  /**
   * Restarting with the checkpoint a crawl leaves behind continues where it
   * stopped: at the blocked URL, at the batch whose browser failed to start,
   * or right after the window once it is complete; with auto_restart on, the
   * next run's start is the original index after the last record written.
   */
  lemma ResumeAfterRun(crawlFor: bool -> UrlCrawl, launchable: bool, saved: Option<Status>, output: Option<Table>,
                       t: Table, file: string, size: nat, startArg: nat, endArg: Option<nat>, autoRestart: bool,
                       nextStart: nat)
    requires size >= 1
    requires var c := CrawlSpec(crawlFor, launchable, saved, output, t, file, size, startArg, endArg, autoRestart);
      && c.total > 0
      && (c.progress.ending.BlockedAt? || nextStart <= c.start + |c.progress.records|)
    ensures var c := CrawlSpec(crawlFor, launchable, saved, output, t, file, size, startArg, endArg, autoRestart);
      && c.progress.saves != []
      && ResolveStart(LastSaved(saved, c.progress.saves), file, nextStart, true) == c.start + |c.progress.records|
  {
    var start := ResolveStart(saved, file, startArg, autoRestart);
    var rows := Window(t.rows, start, EndIndex(endArg, |t.rows|));
    ResumeContinuesWhereRunStopped(crawlFor(ProdId in t.columns), launchable, file, start, rows, size, 0, 0, nextStart);
  }

  /**
   * Everything one call of process_urls does: the crawl, the status file in
   * the working directory (reset when the run completes, if it exists), and
   * the validation that follows a completed run.
   */
  datatype Run = Run(start: nat, total: nat, progress: Progress, output: Option<Table>, cwdStatus: Option<Status>,
                     validation: Option<ValidationRun>)

  /**
   * process_urls. `recrawlFor` is the re-crawl's loop body for a result file
   * with or without PROD_ID; `cwdStatus` is the status file the completion
   * step looks for in the working directory; `input` is the input file's
   * content, None when it does not exist.
   */
  function ProcessSpec(crawlFor: bool -> UrlCrawl, recrawlFor: bool -> EntryCrawl, launchable: bool,
                       saved: Option<Status>, cwdStatus: Option<Status>, output: Option<Table>,
                       input: Option<Table>, file: string, size: nat, startArg: nat, endArg: Option<nat>,
                       autoRestart: bool, autoValidate: bool): (r: Run)
    requires size >= 1
    requires output.Some? ==> output.value.Valid()
    ensures r.progress.ending == NoInput <==> input.None? || Url !in input.value.columns
  {
    if input.None? || Url !in input.value.columns then
      Run(startArg, 0, Progress([], [], [], [], NoInput), output, cwdStatus, None)
    else
      CrawlEnding(crawlFor, launchable, saved, output, input.value, file, size, startArg, endArg, autoRestart);
      Completion(CrawlSpec(crawlFor, launchable, saved, output, input.value, file, size, startArg, endArg, autoRestart),
                 recrawlFor, launchable, cwdStatus, autoValidate)
  }

  /**
   * What follows the batch loop: a crawl that finished a non-empty window
   * resets the working-directory status file, if there is one, and is
   * validated when auto_validate is on and the result file exists.
   */
  function Completion(c: Crawl, recrawlFor: bool -> EntryCrawl, launchable: bool, cwdStatus: Option<Status>,
                      autoValidate: bool): (r: Run)
    requires c.output.Some? ==> c.output.value.Valid()
  {
    var done := c.progress.ending == Finished && c.total > 0;
    var cwd := if done && cwdStatus.Some? then Some(InitialStatus) else cwdStatus;
    var validation :=
      if done && autoValidate && c.output.Some? then
        Some(ValidateWith(recrawlFor, launchable, Stats(0, 0, 0, 0, 0), c.output, 5, true))
      else None;
    Run(c.start, c.total, c.progress, c.output, cwd, validation)
  }

  /**
   * Running again on the same file and range after a completed run finds
   * nothing left to do: its window is empty, so it writes no checkpoint and
   * no record, leaves the result file alone and does not validate again.
   */
  lemma RerunAfterCompletionIsEmpty(crawlFor: bool -> UrlCrawl, recrawlFor: bool -> EntryCrawl, launchable: bool,
                                    saved: Option<Status>, cwdStatus: Option<Status>, output: Option<Table>,
                                    t: Table, file: string, size: nat, startArg: nat, endArg: Option<nat>,
                                    autoValidate: bool, cwdStatus': Option<Status>)
    requires size >= 1 && Url in t.columns
    requires output.Some? ==> output.value.Valid()
    requires var r := ProcessSpec(crawlFor, recrawlFor, launchable, saved, cwdStatus, output, Some(t), file, size,
                                  startArg, endArg, true, autoValidate);
      r.progress.ending == Finished && r.total > 0
    ensures var r := ProcessSpec(crawlFor, recrawlFor, launchable, saved, cwdStatus, output, Some(t), file, size,
                                 startArg, endArg, true, autoValidate);
      && r.output.Some? && r.output.value.Valid()
      && var r' := ProcessSpec(crawlFor, recrawlFor, launchable, LastSaved(saved, r.progress.saves), cwdStatus',
                               r.output, Some(t), file, size, startArg, endArg, true, autoValidate);
      && r'.total == 0
      && r'.progress == Progress([], [], [], [], Finished) && r'.output == r.output
      && r'.cwdStatus == cwdStatus' && r'.validation.None?
  {
    var c := CrawlSpec(crawlFor, launchable, saved, output, t, file, size, startArg, endArg, true);
    CrawlEnding(crawlFor, launchable, saved, output, t, file, size, startArg, endArg, true);
    ResumeAfterRun(crawlFor, launchable, saved, output, t, file, size, startArg, endArg, true, 0);
    var end := EndIndex(endArg, |t.rows|);
    assert c.start + c.total == end;
    var c' := CrawlSpec(crawlFor, launchable, LastSaved(saved, c.progress.saves), c.output, t, file, size, startArg,
                        endArg, true);
    assert c'.total == 0;
    BatchesStop(crawlFor(ProdId in t.columns), launchable, file, c'.start, [], size, 0, 0);
  }

  /**
   * An empty window (total 0) is not a completion: the working-directory
   * status file is left as it was and no validation runs.
   */
  lemma EmptyWindowNeitherResetsNorValidates(crawlFor: bool -> UrlCrawl, recrawlFor: bool -> EntryCrawl,
                                             launchable: bool, saved: Option<Status>, cwdStatus: Option<Status>,
                                             output: Option<Table>, input: Option<Table>, file: string, size: nat,
                                             startArg: nat, endArg: Option<nat>, autoRestart: bool,
                                             autoValidate: bool)
    requires size >= 1
    requires output.Some? ==> output.value.Valid()
    requires ProcessSpec(crawlFor, recrawlFor, launchable, saved, cwdStatus, output, input, file, size, startArg,
                         endArg, autoRestart, autoValidate).total == 0
    ensures var r := ProcessSpec(crawlFor, recrawlFor, launchable, saved, cwdStatus, output, input, file, size,
                                 startArg, endArg, autoRestart, autoValidate);
      && r.cwdStatus == cwdStatus && r.validation.None?
      && r.progress.saves == [] && r.progress.records == [] && r.output == output
  {
    if input.Some? && Url in input.value.columns {
      var t := input.value;
      var start := ResolveStart(saved, file, startArg, autoRestart);
      BatchesStop(crawlFor(ProdId in t.columns), launchable, file, start, Window(t.rows, start, EndIndex(endArg, |t.rows|)),
                  size, 0, 0);
    }
  }

  /**
   * A completed run with records resets an existing working-directory status
   * file to the initial checkpoint, and validates the result file when asked.
   */
  lemma CompletionResetsAndValidates(crawlFor: bool -> UrlCrawl, recrawlFor: bool -> EntryCrawl, launchable: bool,
                                     saved: Option<Status>, cwdStatus: Option<Status>, output: Option<Table>,
                                     input: Option<Table>, file: string, size: nat, startArg: nat,
                                     endArg: Option<nat>, autoRestart: bool, autoValidate: bool)
    requires size >= 1
    requires output.Some? ==> output.value.Valid()
    requires var r := ProcessSpec(crawlFor, recrawlFor, launchable, saved, cwdStatus, output, input, file, size,
                                  startArg, endArg, autoRestart, autoValidate);
      r.progress.ending == Finished && r.total > 0
    ensures var r := ProcessSpec(crawlFor, recrawlFor, launchable, saved, cwdStatus, output, input, file, size,
                                 startArg, endArg, autoRestart, autoValidate);
      && r.cwdStatus == (if cwdStatus.Some? then Some(InitialStatus) else None)
      && r.output.Some?
      && (r.validation.Some? <==> autoValidate)
  {
    CrawlEnding(crawlFor, launchable, saved, output, input.value, file, size, startArg, endArg, autoRestart);
  }

  // ---------------------------------------------------------------------
  // The crawler object
  // ---------------------------------------------------------------------

  class CoupangCrawler {
    const config: ConfigManager
    /** crawler_status.json in the working directory, which the completion step resets. */
    var cwdStatus: Option<Status>
    /** Today's result file, RAW/{today}_{output_basename}.xlsx. */
    var output: Option<Table>
    /** Every sleep taken so far. */
    var sleeps: seq<Pause>

    constructor (config: ConfigManager, cwdStatus: Option<Status>, output: Option<Table>)
      ensures this.config == config && this.cwdStatus == cwdStatus && this.output == output && sleeps == []
    {
      this.config := config;
      this.cwdStatus := cwdStatus;
      this.output := output;
      sleeps := [];
    }

    /**
     * process_urls on the input file's content (None when it does not
     * exist). `visit(i)` scripts the browser for the URL at original index
     * i, `recrawlVisit(k)` for the k-th URL the validation re-crawls.
     */
    method ProcessUrls(input: Option<Table>, file: string, batchArg: Option<int>, startArg: nat, endArg: Option<nat>,
                       autoRestart: bool, autoValidate: bool, visit: nat -> Visit, recrawlVisit: nat -> Visit)
      returns (ending: Ending, validation: Option<ValidationRun>)
      requires EffectiveBatchSize(batchArg, config.settings) >= 1
      requires output.Some? ==> output.value.Valid()
      modifies this`output, this`sleeps, this`cwdStatus, config`statusFile, config`saves
      ensures var r := ProcessSpec(UrlCrawlers(config.selectors, visit), Crawlers(config.selectors, recrawlVisit),
                                   Launchable(config.settings), old(config.statusFile), old(cwdStatus), old(output),
                                   input, file, EffectiveBatchSize(batchArg, config.settings) as nat, startArg, endArg,
                                   autoRestart, autoValidate);
        && ending == r.progress.ending && validation == r.validation
        && output == r.output && cwdStatus == r.cwdStatus
        && sleeps == old(sleeps) + r.progress.pauses
        && config.saves == old(config.saves) + r.progress.saves
        && config.statusFile == LastSaved(old(config.statusFile), r.progress.saves)
    {
      var size := EffectiveBatchSize(batchArg, config.settings) as nat;
      if input.None? || Url !in input.value.columns {
        return NoInput, None;
      }
      var total;
      ending, total := CrawlInput(input.value, file, size, startArg, endArg, autoRestart, visit);
      CrawlEnding(UrlCrawlers(config.selectors, visit), Launchable(config.settings), old(config.statusFile), old(output),
                  input.value, file, size, startArg, endArg, autoRestart);
      ghost var c := CrawlSpec(UrlCrawlers(config.selectors, visit), Launchable(config.settings), old(config.statusFile),
                               old(output), input.value, file, size, startArg, endArg, autoRestart);
      validation := Complete(ending, total, autoValidate, recrawlVisit, c);
    }

    /** The completion step of process_urls, after the batch loop ended with `ending` on `total` rows. */
    method Complete(ending: Ending, total: nat, autoValidate: bool, recrawlVisit: nat -> Visit, ghost c: Crawl)
      returns (validation: Option<ValidationRun>)
      requires ending == c.progress.ending && total == c.total && output == c.output
      requires output.Some? ==> output.value.Valid()
      modifies this`cwdStatus
      ensures var r := Completion(c, Crawlers(config.selectors, recrawlVisit), Launchable(config.settings),
                                  old(cwdStatus), autoValidate);
        validation == r.validation && cwdStatus == r.cwdStatus
    {
      validation := None;
      if ending == Finished && total > 0 {
        if cwdStatus.Some? {
          cwdStatus := Some(InitialStatus);
        }
        if autoValidate && output.Some? {
          var validator := new ResultValidator(config.settings, config.selectors);
          var v := validator.ValidateAndRecrawl(output, 5, true, recrawlVisit);
          validation := Some(ValidationRun(v, validator.stats));
        }
      }
    }

    /**
     * The crawl part of process_urls on an input with a URL column: load the
     * checkpoint, resolve the start index, run the batch loop over the window.
     */
    method CrawlInput(t: Table, file: string, size: nat, startArg: nat, endArg: Option<nat>, autoRestart: bool,
                      visit: nat -> Visit)
      returns (ending: Ending, total: nat)
      requires size >= 1
      modifies this`output, this`sleeps, config`statusFile, config`saves
      ensures var c := CrawlSpec(UrlCrawlers(config.selectors, visit), Launchable(config.settings),
                                 old(config.statusFile), old(output), t, file, size, startArg, endArg, autoRestart);
        && ending == c.progress.ending && total == c.total && output == c.output
        && sleeps == old(sleeps) + c.progress.pauses
        && config.saves == old(config.saves) + c.progress.saves
        && config.statusFile == LastSaved(old(config.statusFile), c.progress.saves)
    {
      var end := EndIndex(endArg, |t.rows|);
      var saved := config.LoadStatus();
      var start := ResolveStart(saved, file, startArg, autoRestart);
      var rows := Window(t.rows, start, end);
      var crawl := UrlCrawlers(config.selectors, visit)(ProdId in t.columns);
      ghost var records;
      ending, records := RunBatches(crawl, Launchable(config.settings), file, start, rows, size);
      total := |rows|;
    }

    /** _save_results_to_single_file. */
    method SaveResults(recs: seq<Row>)
      modifies this`output
      ensures output == Saved(old(output), recs)
    {
      if recs == [] {
        return;
      }
      var added := FromRecords(recs);
      if output.Some? {
        output := Some(Concat(output.value, added));
      } else {
        output := Some(added);
      }
    }

    /** Saving one batch's records is the one-batch case of saving batch after batch. */
    method SaveBatch(recs: seq<Row>)
      modifies this`output
      ensures output == SaveAll(old(output), [recs])
    {
      SaveResults(recs);
      assert [recs][..0] == [];
    }

    /** _process_batch over rows[bstart..bend] of the window starting at original index `start`. */
    method ProcessBatch(crawl: UrlCrawl, start: nat, rows: seq<Row>, bstart: nat, bend: nat) returns (r: BatchResult)
      requires bstart <= bend <= |rows|
      ensures r == BatchFrom(crawl, start, rows, bstart, bstart, bend)
    {
      ghost var whole := BatchFrom(crawl, start, rows, bstart, bstart, bend);
      BatchBegins(crawl, start, rows, bstart, bend);
      var records: seq<Row> := [];
      var pauses: seq<Pause> := [];
      for idx := bstart to bend
        invariant whole == ThenBatch(records, pauses, BatchFrom(crawl, start, rows, bstart, idx, bend))
      {
        var o := crawl(start + idx, rows[idx], idx < bend - 1);
        if o.Blocked? {
          BatchStops(crawl, start, rows, bstart, idx, bend, records, pauses);
          return BatchResult(records, pauses + o.pauses, Some(idx - bstart));
        }
        BatchGoesOn(crawl, start, rows, bstart, idx, bend, records, pauses);
        records := records + [o.record];
        pauses := pauses + o.pauses;
      }
      BatchEnds(crawl, start, rows, bstart, bend, records, pauses);
      r := BatchResult(records, pauses, None);
    }

    /**
     * One pass of process_urls' batch loop: checkpoint, crawl the batch,
     * append its records to the result file, checkpoint again. The pass
     * ends Finished when the loop goes on to the next batch.
     */
    method RunBatch(crawl: UrlCrawl, launchable: bool, file: string, start: nat, rows: seq<Row>, size: nat,
                    b: nat, bstart: nat)
      returns (ending: Ending, ghost step: Progress)
      requires size >= 1 && bstart < |rows|
      modifies this`output, this`sleeps, config`statusFile, config`saves
      ensures step == BatchStep(crawl, launchable, file, start, rows, size, b, bstart) && ending == step.ending
      ensures output == SaveAll(old(output), step.batches)
      ensures sleeps == old(sleeps) + step.pauses
      ensures config.saves == old(config.saves) + step.saves
      ensures config.statusFile == LastSaved(old(config.statusFile), step.saves)
    {
      step := BatchStep(crawl, launchable, file, start, rows, size, b, bstart);
      BatchStepCases(crawl, launchable, file, start, rows, size, b, bstart);
      var bend := if bstart + size < |rows| then bstart + size else |rows|;
      config.SaveStatus(file, b, start + bstart, None);
      if !launchable {
        return LaunchFailed, step;
      }
      var br := ProcessBatch(crawl, start, rows, bstart, bend);
      SaveBatch(br.records);
      if br.blocked.Some? {
        var blockedIdx := start + bstart + br.blocked.value;
        config.SaveStatus(file, b, start + bstart, Some(blockedIdx));
        sleeps := sleeps + br.pauses;
        ending := BlockedAt(blockedIdx);
        return;
      }
      config.SaveStatus(file, b + 1, start + bend, None);
      var wait := if bstart + size < |rows| then [BatchWait] else [];
      sleeps := sleeps + (br.pauses + wait);
      ending := Finished;
    }

    /** One pass of the batch loop, after the passes before it went on to the next batch. */
    method AdvanceBatch(crawl: UrlCrawl, launchable: bool, file: string, start: nat, rows: seq<Row>, size: nat,
                        b: nat, bstart: nat, ghost done: Progress,
                        ghost output0: Option<Table>, ghost saves0: seq<Status>, ghost status0: Option<Status>,
                        ghost sleeps0: seq<Pause>)
      returns (ending: Ending, ghost now: Progress)
      requires size >= 1 && bstart < |rows| && bstart == Offset(size, b)
      requires done == BatchesThrough(crawl, launchable, file, start, rows, size, b) && done.ending == Finished
      requires output == SaveAll(output0, done.batches)
      requires config.saves == saves0 + done.saves
      requires config.statusFile == LastSaved(status0, done.saves)
      requires sleeps == sleeps0 + done.pauses
      modifies this`output, this`sleeps, config`statusFile, config`saves
      ensures now == BatchesThrough(crawl, launchable, file, start, rows, size, b + 1) && ending == now.ending
      ensures output == SaveAll(output0, now.batches)
      ensures config.saves == saves0 + now.saves
      ensures config.statusFile == LastSaved(status0, now.saves)
      ensures sleeps == sleeps0 + now.pauses
    {
      ghost var step;
      ending, step := RunBatch(crawl, launchable, file, start, rows, size, b, bstart);
      SaveAllAppend(output0, done.batches, step.batches);
      AppendAssoc(saves0, done.saves, step.saves);
      AppendAssoc(sleeps0, done.pauses, step.pauses);
      LastSavedAppend(status0, done.saves, step.saves);
      now := Then(done, step);
    }

    /** The batch loop of process_urls over the window `rows`, which starts at original index `start`. */
    method RunBatches(crawl: UrlCrawl, launchable: bool, file: string, start: nat, rows: seq<Row>, size: nat)
      returns (ending: Ending, ghost records: seq<Row>)
      requires size >= 1
      modifies this`output, this`sleeps, config`statusFile, config`saves
      ensures var p := BatchesFrom(crawl, launchable, file, start, rows, size, 0, 0);
        && ending == p.ending && records == p.records && output == SaveAll(old(output), p.batches)
        && sleeps == old(sleeps) + p.pauses
        && config.saves == old(config.saves) + p.saves
        && config.statusFile == LastSaved(old(config.statusFile), p.saves)
    {
      ghost var done := Progress([], [], [], [], Finished);
      ending := Finished;
      var b := 0;
      var bstart := 0;
      while bstart < |rows|
        invariant bstart == Offset(size, b)
        invariant done == BatchesThrough(crawl, launchable, file, start, rows, size, b) && done.ending == Finished && ending == Finished
        invariant output == SaveAll(old(output), done.batches)
        invariant config.saves == old(config.saves) + done.saves
        invariant config.statusFile == LastSaved(old(config.statusFile), done.saves)
        invariant sleeps == old(sleeps) + done.pauses
        decreases |rows| - bstart
      {
        ending, done := AdvanceBatch(crawl, launchable, file, start, rows, size, b, bstart, done, old(output),
                                     old(config.saves), old(config.statusFile), old(sleeps));
        if ending != Finished {
          break;
        }
        b := b + 1;
        bstart := bstart + size;
      }
      if ending != Finished {
        ThroughIsWhole(crawl, launchable, file, start, rows, size, b + 1);
      } else {
        ThroughIsWhole(crawl, launchable, file, start, rows, size, b);
      }
      records := done.records;
    }
  }
}
