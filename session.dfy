/**
 * One URL visited in its own browser context: context set-up, the navigation
 * retry loop, block detection and extraction, as the crawl (_process_batch)
 * and the re-crawl (_recrawl_error_urls) both do it.
 *
 * Everything the browser and the network decide is scripted in a Visit: the
 * set-up error (if creating the context or page raises), the outcome of each
 * of the three page.goto attempts, the loaded page, the outcome of each of the
 * three extraction attempts and the clock's readings.
 */
module Session {
  import opened Common
  import opened Text
  import opened Extract

  /** What one page.goto gives: a response with its status, no response, or an exception. */
  datatype NavAttempt = Answered(status: int) | NoResponse | GotoRaised(error: string)

  /** Playwright's response.ok: a 2xx status. */
  predicate Ok(status: int) {
    200 <= status <= 299
  }

  predicate Loads(a: NavAttempt) {
    a.Answered? && Ok(a.status)
  }

  const LoadFailurePrefix: string := "페이지 로드 실패: 상태 코드 "

  /** The message of the exception a failed attempt raises. */
  function NavError(a: NavAttempt): (e: string)
    requires !Loads(a)
    ensures a.Answered? ==> e == LoadFailurePrefix + IntToString(a.status)
    ensures a.NoResponse? ==> e == LoadFailurePrefix + "No response"
    ensures a.GotoRaised? ==> e == a.error
  {
    match a
    case Answered(status) => LoadFailurePrefix + IntToString(status)
    case NoResponse => LoadFailurePrefix + "No response"
    case GotoRaised(e) => e
  }

  datatype Navigation = Loaded(status: int, pauses: seq<Pause>) | GaveUp(error: string, pauses: seq<Pause>)

  /** The navigation retry loop: the first attempt that loads wins; after three failures the last error is raised. */
  function NavOutcome(attempts: Three<NavAttempt>): (n: Navigation)
    ensures n.Loaded? <==> Loads(attempts.first) || Loads(attempts.second) || Loads(attempts.third)
    ensures n.Loaded? ==> Ok(n.status)
    ensures |n.pauses| <= 2 && n.pauses == Backoffs(|n.pauses|)
    ensures Loads(attempts.first) ==> n == Loaded(attempts.first.status, [])
    ensures !Loads(attempts.first) && Loads(attempts.second) ==> n == Loaded(attempts.second.status, Backoffs(1))
    ensures !Loads(attempts.first) && !Loads(attempts.second) && Loads(attempts.third) ==>
      n == Loaded(attempts.third.status, Backoffs(2))
    ensures !Loads(attempts.first) && !Loads(attempts.second) && !Loads(attempts.third) ==>
      n == GaveUp(NavError(attempts.third), Backoffs(2))
  {
    if Loads(attempts.first) then Loaded(attempts.first.status, [])
    else if Loads(attempts.second) then Loaded(attempts.second.status, Backoffs(1))
    else if Loads(attempts.third) then Loaded(attempts.third.status, Backoffs(2))
    else GaveUp(NavError(attempts.third), Backoffs(2))
  }

  /**
   * The goto loop: up to three attempts, sleeping 5 * k seconds after the k-th
   * failure when another attempt follows (the reload tried after a sleep is
   * not modelled: the next goto replaces it).
   */
  method Navigate(attempts: Three<NavAttempt>) returns (n: Navigation)
    ensures n == NavOutcome(attempts)
  {
    var retryCount := 0;
    var pauses: seq<Pause> := [];
    var lastError := "";
    while retryCount < 3
      invariant 0 <= retryCount <= 3
      invariant forall j :: 0 <= j < retryCount ==> !Loads(attempts.At(j))
      invariant pauses == Backoffs(if retryCount < 3 then retryCount else 2)
      invariant retryCount == 3 ==> !Loads(attempts.third) && lastError == NavError(attempts.third)
    {
      var attempt := attempts.At(retryCount);
      if Loads(attempt) {
        n := Loaded(attempt.status, pauses);
        assert retryCount > 0 ==> !Loads(attempts.At(0));
        assert retryCount > 1 ==> !Loads(attempts.At(1));
        return;
      }
      lastError := NavError(attempt);
      retryCount := retryCount + 1;
      if retryCount < 3 {
        pauses := pauses + [Backoff(5 * retryCount)];
      }
    }
    assert !Loads(attempts.At(0)) && !Loads(attempts.At(1));
    n := GaveUp(lastError, pauses);
  }

  /** A page the navigation loaded has a 2xx status, so the status rule of block detection never fires. */
  lemma LoadedPageStatusRuleDead(attempts: Three<NavAttempt>, page: Page, indicators: seq<string>)
    requires NavOutcome(attempts).Loaded?
    ensures NavOutcome(attempts).status !in BlockStatuses
    ensures DetectBlock(NavOutcome(attempts).status, page, indicators) == DetectBlock(200, page, indicators)
  {
  }

  datatype Visit = Visit(
    setup: Option<string>,
    goto: Three<NavAttempt>,
    page: Page,
    extraction: Three<ExtractAttempt>,
    time: string,
    date: string)

  /** The record the crawl's exception handler appends. */
  function ErrorRecord(url: Value, originalIndex: Value, prodId: Option<Value>, error: string, time: string): (r: Row)
    ensures r.Keys == BaseRecord(url, originalIndex, prodId).Keys + FieldColumns + {ExtractionTime, Error}
    ensures r[Url] == url && r[OriginalIndex] == originalIndex && r[Error] == Str(error)
    ensures r[ProdName] == NA && r[Price] == NA && r[OriginPrice] == NA
    ensures r[Coupon] == Int(0) && r[CouponPrice] == NA && r[AcPrice] == NA
    ensures r[ExtractionTime] == Str(time)
    ensures prodId.Some? ==> r[ProdId] == prodId.value
  {
    BaseRecord(url, originalIndex, prodId) +
      map[ProdName := NA, Price := NA, OriginPrice := NA, Coupon := Int(0), CouponPrice := NA,
          AcPrice := NA, ExtractionTime := Str(time), Error := Str(error)]
  }

  /**
   * How a visit of one URL goes, the part the crawl's and the re-crawl's loop
   * bodies share: an exception (the set-up raised, or the goto loop gave up),
   * a block detected on the loaded page, or the extracted record.
   */
  datatype Visited = Raised(error: string, pauses: seq<Pause>) | SawBlock(pauses: seq<Pause>)
                   | Got(record: Row, pauses: seq<Pause>)

  /**
   * One URL visited: set-up, the goto loop, block detection, extraction and
   * the URL wait. `waitAfter` says whether the URL wait follows a success.
   */
  function VisitAttempt(cfg: Selectors, url: Value, originalIndex: Value, prodId: Option<Value>,
                        v: Visit, waitAfter: bool): (a: Visited)
  {
    if v.setup.Some? then Raised(v.setup.value, [])
    else
      match NavOutcome(v.goto)
      case GaveUp(e, ps) => Raised(e, ps)
      case Loaded(status, ps) => LoadedOutcome(cfg, url, originalIndex, prodId, v, status, ps, waitAfter)
  }

  /** The rest of the visit once page.goto has loaded the page with `status`. */
  function LoadedOutcome(cfg: Selectors, url: Value, originalIndex: Value, prodId: Option<Value>,
                         v: Visit, status: int, ps: seq<Pause>, waitAfter: bool): (a: Visited)
    ensures !a.Raised?
  {
    if DetectBlock(status, v.page, SelectorList(cfg, "block_indicators", DefaultBlockIndicators)) then SawBlock(ps)
    else
      var x := Extracted(cfg, url, originalIndex, prodId, v);
      Got(x.record, ps + x.pauses + (if waitAfter then [UrlWait] else []))
  }

  /** The extraction retry loop run on a visit's loaded page. */
  function Extracted(cfg: Selectors, url: Value, originalIndex: Value, prodId: Option<Value>, v: Visit): Extraction {
    ExtractOutcome(ExtractedFields(v.page, cfg), BaseRecord(url, originalIndex, prodId), v.extraction, v.time, v.date)
  }

  /** What the crawl does with one URL: a record is appended, or the batch stops on a block. */
  datatype Outcome = Appended(record: Row, pauses: seq<Pause>) | Blocked(pauses: seq<Pause>)

  /** The body of _process_batch's loop for one URL: its exception handler appends an error record. */
  function VisitOutcome(cfg: Selectors, url: Value, originalIndex: Value, prodId: Option<Value>,
                        v: Visit, waitAfter: bool): (o: Outcome)
  {
    match VisitAttempt(cfg, url, originalIndex, prodId, v, waitAfter)
    case Raised(e, ps) => Appended(ErrorRecord(url, originalIndex, prodId, e, v.time), ps)
    case SawBlock(ps) => Blocked(ps)
    case Got(record, ps) => Appended(record, ps)
  }

  /**
   * An extracted record holds URL, ORIGINAL_INDEX, the six fields and the
   * extraction time, and carries an ERROR, a string, exactly when all three
   * extraction attempts failed.
   */
  lemma ExtractedShape(cfg: Selectors, url: Value, originalIndex: Value, prodId: Option<Value>, v: Visit)
    ensures var r := Extracted(cfg, url, originalIndex, prodId, v).record;
      && {Url, OriginalIndex} + FieldColumns + {ExtractionTime} <= r.Keys
      && r[Url] == url && r[OriginalIndex] == originalIndex
      && (Error in r <==>
            !v.extraction.first.Completes? && !v.extraction.second.Completes? && !v.extraction.third.Completes?)
      && (Error in r ==> r[Error].Str?)
  {
    ExtractOutcomeShape(ExtractedFields(v.page, cfg), BaseRecord(url, originalIndex, prodId),
                        v.extraction, v.time, v.date);
    ExhaustedErrorIsString(ExtractedFields(v.page, cfg), BaseRecord(url, originalIndex, prodId),
                           v.extraction, v.time, v.date);
  }

  lemma ExhaustedErrorIsString(fields: Row, base: Row, attempts: Three<ExtractAttempt>, time: string, date: string)
    requires fields.Keys == FieldColumns && base.Keys !! FieldColumns + {ExtractionTime, Date, Error}
    ensures var r := ExtractOutcome(fields, base, attempts, time, date).record;
      Error in r ==> r[Error].Str?
  {
  }

  /**
   * The two ways a loaded page ends: a block, or the extracted record with
   * the goto backoffs, the extraction backoffs and the URL wait, in order.
   */
  lemma LoadedOutcomeCases(cfg: Selectors, url: Value, originalIndex: Value, prodId: Option<Value>,
                           v: Visit, status: int, ps: seq<Pause>, waitAfter: bool)
    ensures var blocked := DetectBlock(status, v.page, SelectorList(cfg, "block_indicators", DefaultBlockIndicators));
      var x := Extracted(cfg, url, originalIndex, prodId, v);
      && (blocked ==> LoadedOutcome(cfg, url, originalIndex, prodId, v, status, ps, waitAfter) == SawBlock(ps))
      && (!blocked && waitAfter ==>
            LoadedOutcome(cfg, url, originalIndex, prodId, v, status, ps, waitAfter)
              == Got(x.record, ps + x.pauses + [UrlWait]))
      && (!blocked && !waitAfter ==>
            LoadedOutcome(cfg, url, originalIndex, prodId, v, status, ps, waitAfter)
              == Got(x.record, ps + x.pauses))
  {
    var x := Extracted(cfg, url, originalIndex, prodId, v);
    assert ps + x.pauses + [] == ps + x.pauses;
  }

  /**
   * A visit that got a record got the extracted one, with the goto backoffs,
   * the extraction backoffs and the URL wait as its sleeps.
   */
  lemma GotExtracted(cfg: Selectors, url: Value, originalIndex: Value, prodId: Option<Value>, v: Visit, waitAfter: bool)
    requires VisitAttempt(cfg, url, originalIndex, prodId, v, waitAfter).Got?
    ensures v.setup.None? && NavOutcome(v.goto).Loaded?
    ensures var a := VisitAttempt(cfg, url, originalIndex, prodId, v, waitAfter);
      var x := Extracted(cfg, url, originalIndex, prodId, v);
      && a.record == x.record
      && a.pauses == NavOutcome(v.goto).pauses + x.pauses + (if waitAfter then [UrlWait] else [])
  {
    var nav := NavOutcome(v.goto);
    LoadedOutcomeCases(cfg, url, originalIndex, prodId, v, nav.status, nav.pauses, waitAfter);
    var x := Extracted(cfg, url, originalIndex, prodId, v);
    assert nav.pauses + x.pauses + [] == nav.pauses + x.pauses;
  }

  /**
   * Every appended record holds URL, ORIGINAL_INDEX, the six fields and the
   * extraction time, and carries an ERROR exactly when the set-up raised, the
   * navigation gave up or all three extraction attempts failed.
   */
  lemma AppendedRecordShape(cfg: Selectors, url: Value, originalIndex: Value, prodId: Option<Value>,
                            v: Visit, waitAfter: bool)
    requires VisitOutcome(cfg, url, originalIndex, prodId, v, waitAfter).Appended?
    ensures var r := VisitOutcome(cfg, url, originalIndex, prodId, v, waitAfter).record;
      && {Url, OriginalIndex} + FieldColumns + {ExtractionTime} <= r.Keys
      && r[Url] == url && r[OriginalIndex] == originalIndex
      && (Error in r <==>
            || v.setup.Some?
            || NavOutcome(v.goto).GaveUp?
            || (!v.extraction.first.Completes? && !v.extraction.second.Completes? && !v.extraction.third.Completes?))
      && (Error in r ==> r[Error].Str?)
  {
    var a := VisitAttempt(cfg, url, originalIndex, prodId, v, waitAfter);
    if a.Got? {
      GotExtracted(cfg, url, originalIndex, prodId, v, waitAfter);
      ExtractedShape(cfg, url, originalIndex, prodId, v);
    }
  }

  /** The sleeps around one URL: the goto backoffs, then the extraction backoffs, then the URL wait. */
  lemma VisitPauses(cfg: Selectors, url: Value, originalIndex: Value, prodId: Option<Value>, v: Visit, waitAfter: bool)
    requires v.setup.None? && NavOutcome(v.goto).Loaded?
    requires VisitOutcome(cfg, url, originalIndex, prodId, v, waitAfter).Appended?
    ensures var ps := VisitOutcome(cfg, url, originalIndex, prodId, v, waitAfter).pauses;
      && |ps| <= 5
      && (waitAfter <==> ps != [] && ps[|ps| - 1] == UrlWait)
  {
    GotExtracted(cfg, url, originalIndex, prodId, v, waitAfter);
  }

  /** One URL visited, as both loop bodies run it. */
  method VisitPage(cfg: Selectors, url: Value, originalIndex: Value, prodId: Option<Value>, v: Visit, waitAfter: bool)
    returns (a: Visited)
    ensures a == VisitAttempt(cfg, url, originalIndex, prodId, v, waitAfter)
  {
    if v.setup.Some? {
      return Raised(v.setup.value, []);
    }
    var nav := Navigate(v.goto);
    if nav.GaveUp? {
      return Raised(nav.error, nav.pauses);
    }
    a := VisitLoaded(cfg, url, originalIndex, prodId, v, nav.status, nav.pauses, waitAfter);
  }

  /** Block detection, extraction and the URL wait on a loaded page. */
  method VisitLoaded(cfg: Selectors, url: Value, originalIndex: Value, prodId: Option<Value>,
                     v: Visit, status: int, ps: seq<Pause>, waitAfter: bool)
    returns (a: Visited)
    ensures a == LoadedOutcome(cfg, url, originalIndex, prodId, v, status, ps, waitAfter)
  {
    LoadedOutcomeCases(cfg, url, originalIndex, prodId, v, status, ps, waitAfter);
    var blocked := DetectBlock(status, v.page, SelectorList(cfg, "block_indicators", DefaultBlockIndicators));
    if blocked {
      return SawBlock(ps);
    }
    var x := ExtractVisit(cfg, url, originalIndex, prodId, v);
    var pauses := ps + x.pauses;
    if waitAfter {
      pauses := pauses + [UrlWait];
    }
    a := Got(x.record, pauses);
  }

  /** extract_product_info run on a visit's loaded page. */
  method ExtractVisit(cfg: Selectors, url: Value, originalIndex: Value, prodId: Option<Value>, v: Visit)
    returns (x: Extraction)
    ensures x == Extracted(cfg, url, originalIndex, prodId, v)
  {
    var record, pauses := ExtractProductInfo(v.page, cfg, url, originalIndex, prodId, v.extraction, v.time, v.date);
    x := Extraction(record, pauses);
  }

  /** One URL of the crawl, as _process_batch's loop body runs it. */
  method VisitRecord(cfg: Selectors, url: Value, originalIndex: Value, prodId: Option<Value>, v: Visit, waitAfter: bool)
    returns (o: Outcome)
    ensures o == VisitOutcome(cfg, url, originalIndex, prodId, v, waitAfter)
  {
    var a := VisitPage(cfg, url, originalIndex, prodId, v, waitAfter);
    match a
    case Raised(e, ps) => o := Appended(ErrorRecord(url, originalIndex, prodId, e, v.time), ps);
    case SawBlock(ps) => o := Blocked(ps);
    case Got(record, ps) => o := Appended(record, ps);
  }

  const RecrawlFailurePrefix: string := "재수집 실패: "
  const BlockedMessage: string := "차단 감지됨"

  /**
   * What the re-crawl does with one URL. `errorRow` is the first row of the
   * error records with the same ORIGINAL_INDEX (None when the lookup finds
   * none, which makes the handler itself raise and abort the re-crawl).
   */
  datatype Recrawled = Recrawled(record: Row, pauses: seq<Pause>) | LookupFailed

  function RecrawlFailure(errorRow: Option<Row>, error: string, pauses: seq<Pause>): (r: Recrawled)
    ensures errorRow.None? <==> r.LookupFailed?
    ensures r.Recrawled? ==> r.record == errorRow.value[Error := Str(RecrawlFailurePrefix + error)]
  {
    if errorRow.Some? then Recrawled(errorRow.value[Error := Str(RecrawlFailurePrefix + error)], pauses)
    else LookupFailed
  }

  /** The body of _recrawl_error_urls' loop for one URL; a block is an error like any other. */
  function RecrawlOutcome(cfg: Selectors, url: Value, originalIndex: Value, prodId: Option<Value>,
                          v: Visit, errorRow: Option<Row>, waitAfter: bool): (r: Recrawled)
  {
    match VisitAttempt(cfg, url, originalIndex, prodId, v, waitAfter)
    case Raised(e, ps) => RecrawlFailure(errorRow, e, ps)
    case SawBlock(ps) => RecrawlFailure(errorRow, BlockedMessage, ps)
    case Got(record, ps) => Recrawled(record, ps)
  }

  /**
   * Where the crawl appends a record, the re-crawl of the same visit yields
   * the same record; where the crawl stops on a block, the re-crawl keeps the
   * old row with a "재수집 실패: 차단 감지됨" error.
   */
  lemma RecrawlAgreesWithCrawl(cfg: Selectors, url: Value, originalIndex: Value, prodId: Option<Value>,
                               v: Visit, errorRow: Row, waitAfter: bool)
    ensures var o := VisitOutcome(cfg, url, originalIndex, prodId, v, waitAfter);
      var r := RecrawlOutcome(cfg, url, originalIndex, prodId, v, Some(errorRow), waitAfter);
      && r.Recrawled?
      && (o.Appended? && Error !in o.record ==> r.record == o.record)
      && (o.Blocked? ==> r.record == errorRow[Error := Str(RecrawlFailurePrefix + BlockedMessage)])
  {
  }

  /**
   * Only a failed lookup of the error row makes the handler raise, and a
   * re-crawled record keeps the ORIGINAL_INDEX it was re-crawled under,
   * whether it comes from the extraction or from the looked-up error row.
   */
  lemma RecrawledRecordIndex(cfg: Selectors, url: Value, originalIndex: Value, prodId: Option<Value>,
                             v: Visit, errorRow: Option<Row>, waitAfter: bool)
    ensures var r := RecrawlOutcome(cfg, url, originalIndex, prodId, v, errorRow, waitAfter);
      && (r.LookupFailed? ==> errorRow.None?)
      && (r.Recrawled? && (errorRow.Some? ==> OriginalIndex in errorRow.value && errorRow.value[OriginalIndex] == originalIndex)
          ==> OriginalIndex in r.record && r.record[OriginalIndex] == originalIndex)
  {
    if VisitAttempt(cfg, url, originalIndex, prodId, v, waitAfter).Got? {
      GotExtracted(cfg, url, originalIndex, prodId, v, waitAfter);
      ExtractedShape(cfg, url, originalIndex, prodId, v);
    }
  }

  /** One URL of the re-crawl, as _recrawl_error_urls' loop body runs it. */
  method RecrawlRecord(cfg: Selectors, url: Value, originalIndex: Value, prodId: Option<Value>,
                       v: Visit, errorRow: Option<Row>, waitAfter: bool)
    returns (r: Recrawled)
    ensures r == RecrawlOutcome(cfg, url, originalIndex, prodId, v, errorRow, waitAfter)
  {
    var a := VisitPage(cfg, url, originalIndex, prodId, v, waitAfter);
    match a
    case Raised(e, ps) => r := RecrawlFailure(errorRow, e, ps);
    case SawBlock(ps) => r := RecrawlFailure(errorRow, BlockedMessage, ps);
    case Got(record, ps) => r := Recrawled(record, ps);
  }
}
