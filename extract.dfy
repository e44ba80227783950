/**
 * DataExtractor: block detection on a loaded page and the extraction of the
 * product record (name, prices, coupon, AppleCare price) with its retry loop.
 *
 * A page is observed through what the extractor asks of it: the page source
 * (None when page.content() raises), the text content of the elements each
 * CSS selector matches (in document order; a selector absent from the map
 * matches nothing) and the title (None when page.title() raises).
 */
module Extract {
  import opened Common
  import opened Text

  datatype Page = Page(content: Option<string>, matches: map<string, seq<string>>, title: Option<string>)

  /** The text contents of the elements a selector matches. */
  function Matches(page: Page, sel: string): seq<string> {
    if sel in page.matches then page.matches[sel] else []
  }

  /** selectors.json: a selector list per key. */
  type Selectors = map<string, seq<string>>

  /** `selectors.get(key, default)`. */
  function SelectorList(cfg: Selectors, key: string, default: seq<string>): (sels: seq<string>)
    ensures key !in cfg ==> sels == default
  {
    if key in cfg then cfg[key] else default
  }

  const DefaultBlockIndicators: seq<string> := ["#contents", ".prod-buy-header", ".prod-price", ".prod-sale-price"]
  const DefaultNameSelectors: seq<string> :=
    ["#contents .prod-buy-header h1", "h2.prod-buy-header__title", ".prod-buy-header h1"]
  const GenericNameSelector: string := "h2"
  const DefaultPriceSelectors: seq<string> := [
    "#contents > div.prod-atf > div.prod-atf-main .prod-sale-price.price-align span.total-price strong",
    "#contents > div.prod-atf > div.prod-atf-main .total-price:not(.price-strike) strong",
    "#contents > div.prod-atf > div.prod-atf-main .prod-price span.total-price"]
  const DefaultOriginPriceSelectors: seq<string> := [
    "#contents > div.prod-atf > div.prod-atf-main .prod-origin-price span.origin-price",
    "#contents > div.prod-atf > div.prod-atf-main .origin-price",
    "#contents > div.prod-atf > div.prod-atf-main .price-strike"]
  const DefaultCouponIndicators: seq<string> := [
    ".price-txt-info.font-medium:text('쿠폰할인')",
    "span.price-txt-info:text('쿠폰할인')",
    ".coupon-price:not(:empty)"]
  const DefaultCouponPriceSelectors: seq<string> := [
    "#contents > div.prod-atf > div.prod-atf-main .prod-coupon-price span.total-price strong",
    "#contents > div.prod-atf > div.prod-atf-main .major-price-coupon .total-price strong"]
  const DefaultAcPriceSelectors: seq<string> := [".insurance-content__header__price", ".apple-care-price"]

  /** The literal markup of a coupon badge searched in the page source. */
  const CouponMarkup: string := "class=\"price-txt-info font-medium\">쿠폰할인<"

  // ---------------------------------------------------------------------
  // Block detection
  // ---------------------------------------------------------------------

  const BlockStatuses: set<int> := {403, 429, 503}

  const BlockPatterns: seq<string> := [
    "access denied", "액세스가 차단되었습니다", "비정상적인 접근", "차단되었습니다",
    "권한이 없습니다", "서비스 이용에 불편을 드려", "비정상적인 트래픽"]

  /** Some block pattern occurs in the page source, compared lower-cased. */
  predicate HasBlockPattern(html: string) {
    exists k :: 0 <= k < |BlockPatterns| && Contains(Lower(html), Lower(BlockPatterns[k]))
  }

  predicate SuspiciousTitle(title: string) {
    Contains(title, "로봇") || Contains(title, "차단") || Contains(title, "접근 제한")
  }

  /** The number of indicator selectors that match nothing (the source's counting loop). */
  function MissingCount(page: Page, sels: seq<string>): (n: nat)
    ensures n <= |sels|
  {
    if sels == [] then 0
    else MissingCount(page, sels[..|sels| - 1]) + (if Matches(page, sels[|sels| - 1]) == [] then 1 else 0)
  }

  /** The positions of the indicator selectors that match nothing. */
  ghost function MissingPositions(page: Page, sels: seq<string>): set<nat> {
    set k: nat | k < |sels| && Matches(page, sels[k]) == []
  }

  /** The counting loop counts exactly the indicators that are absent. */
  lemma {:induction false} MissingCountIsCardinality(page: Page, sels: seq<string>)
    ensures MissingCount(page, sels) == |MissingPositions(page, sels)|
  {
    if sels != [] {
      var n := |sels| - 1;
      var init := sels[..n];
      MissingCountIsCardinality(page, init);
      assert forall k :: 0 <= k < n ==> init[k] == sels[k];
      if Matches(page, sels[n]) == [] {
        assert MissingPositions(page, sels) == MissingPositions(page, init) + {n};
      } else {
        assert MissingPositions(page, sels) == MissingPositions(page, init);
      }
    }
  }

  /**
   * detect_block, called with the response of the navigation. A readable page
   * is blocked on a block pattern, on at least half of the indicators being
   * absent (`missing >= len / 2`, true division) or on a suspicious title; an
   * unreadable page source ends detection with "not blocked".
   */
  function DetectBlock(status: int, page: Page, indicators: seq<string>): (blocked: bool) {
    if status in BlockStatuses then true
    else if page.content.None? then false
    else if HasBlockPattern(page.content.value) then true
    else if 2 * MissingCount(page, indicators) >= |indicators| then true
    else page.title.Some? && SuspiciousTitle(page.title.value)
  }

  /** The block decision, stated on the set of absent indicators. */
  lemma DetectBlockIff(status: int, page: Page, indicators: seq<string>)
    ensures DetectBlock(status, page, indicators) <==>
      || status in BlockStatuses
      || (&& page.content.Some?
          && (|| HasBlockPattern(page.content.value)
              || 2 * |MissingPositions(page, indicators)| >= |indicators|
              || (page.title.Some? && SuspiciousTitle(page.title.value))))
  {
    MissingCountIsCardinality(page, indicators);
  }

  /** An empty indicator list makes every readable page look blocked: 0 >= 0 / 2. */
  lemma EmptyIndicatorsAlwaysBlock(status: int, page: Page)
    requires page.content.Some?
    ensures DetectBlock(status, page, [])
  {
  }

  // ---------------------------------------------------------------------
  // Price parsing and the selector scan
  // ---------------------------------------------------------------------

  predicate NoDigits(s: string) {
    forall k :: 0 <= k < |s| ==> !IsDigit(s[k])
  }

  /**
   * The number in a price text: strip, drop every "원" and ",", strip again
   * and read the first run of digits.
   */
  function ParsePrice(text: string): (v: Option<nat>) {
    FirstNumber(Strip(Remove(Remove(Strip(text), '원'), ',')))
  }

  lemma {:induction false} RemoveAppend(a: string, b: string, c: char)
    ensures Remove(a + b, c) == Remove(a, c) + Remove(b, c)
  {
    if a == [] {
      assert a + b == b;
    } else {
      assert (a + b)[0] == a[0];
      assert (a + b)[1..] == a[1..] + b;
      RemoveAppend(a[1..], b, c);
    }
  }

  /** Leading characters without digits do not change the first number. */
  lemma {:induction false} FirstNumberSkip(p: string, x: string)
    requires NoDigits(p)
    ensures FirstNumber(p + x) == FirstNumber(x)
  {
    if p == [] {
      assert p + x == x;
    } else {
      assert (p + x)[0] == p[0];
      assert (p + x)[1..] == p[1..] + x;
      FirstNumberSkip(p[1..], x);
    }
  }

  lemma {:induction false} LeadingDigitsAppend(x: string, q: string)
    requires q == [] || !IsDigit(q[0])
    ensures LeadingDigits(x + q) == LeadingDigits(x)
  {
    if x == [] {
      assert x + q == q;
    } else {
      assert (x + q)[0] == x[0];
      assert (x + q)[1..] == x[1..] + q;
      LeadingDigitsAppend(x[1..], q);
    }
  }

  /** Trailing characters without digits do not change the first number. */
  lemma {:induction false} FirstNumberAppend(x: string, q: string)
    requires NoDigits(q)
    ensures FirstNumber(x + q) == FirstNumber(x)
  {
    if x == [] {
      assert x + q == q;
    } else if IsDigit(x[0]) {
      assert (x + q)[0] == x[0];
      LeadingDigitsAppend(x, q);
    } else {
      assert (x + q)[0] == x[0];
      assert (x + q)[1..] == x[1..] + q;
      FirstNumberAppend(x[1..], q);
    }
  }

  /** The digits of a text with every "원" and "," removed, read as by ParsePrice. */
  function CleanNumber(t: string): Option<nat> {
    FirstNumber(Remove(Remove(t, '원'), ','))
  }

  /** Leading whitespace does not change the cleaned number. */
  lemma {:induction false} CleanNumberStripLeft(t: string)
    ensures CleanNumber(StripLeft(t)) == CleanNumber(t)
  {
    if t != [] && IsSpace(t[0]) {
      CleanNumberStripLeft(t[1..]);
      assert Remove(Remove(t, '원'), ',') == [t[0]] + Remove(Remove(t[1..], '원'), ',');
    }
  }

  /** Whitespace is neither a digit nor a character the price cleaner removes. */
  lemma SpaceIsNoPriceChar(c: char)
    requires IsSpace(c)
    ensures !IsDigit(c) && c != '원' && c != ','
  {
  }

  /** Trailing whitespace does not change the cleaned number. */
  lemma {:induction false} CleanNumberStripRight(t: string)
    ensures CleanNumber(StripRight(t)) == CleanNumber(t)
  {
    if t != [] && IsSpace(t[|t| - 1]) {
      var init, last := t[..|t| - 1], t[|t| - 1];
      CleanNumberStripRight(init);
      assert t == init + [last];
      assert StripRight(t) == StripRight(init);
      SpaceIsNoPriceChar(last);
      RemoveAppend(init, [last], '원');
      RemoveAppend(Remove(init, '원'), [last], ',');
      assert Remove(Remove(t, '원'), ',') == Remove(Remove(init, '원'), ',') + [last];
      FirstNumberAppend(Remove(Remove(init, '원'), ','), [last]);
    }
  }

  /** Leading whitespace does not change the first number. */
  lemma {:induction false} FirstNumberStripLeft(t: string)
    ensures FirstNumber(StripLeft(t)) == FirstNumber(t)
  {
    if t != [] && IsSpace(t[0]) {
      FirstNumberStripLeft(t[1..]);
    }
  }

  /** Trailing whitespace does not change the first number. */
  lemma {:induction false} FirstNumberStripRight(t: string)
    ensures FirstNumber(StripRight(t)) == FirstNumber(t)
  {
    if t != [] && IsSpace(t[|t| - 1]) {
      var init, last := t[..|t| - 1], t[|t| - 1];
      FirstNumberStripRight(init);
      assert t == init + [last];
      FirstNumberAppend(init, [last]);
    }
  }

  /**
   * The parsed price is the value of the first maximal run of digits of the
   * text once every "원" and "," is removed; both strips are irrelevant.
   */
  lemma ParsePriceReadsFirstRun(text: string)
    ensures ParsePrice(text) == CleanNumber(text)
  {
    var m := Remove(Remove(Strip(text), '원'), ',');
    FirstNumberStripLeft(m);
    FirstNumberStripRight(StripLeft(m));
    CleanNumberStripLeft(text);
    CleanNumberStripRight(StripLeft(text));
  }

  /** Removing a non-digit character neither creates nor destroys digits. */
  lemma {:induction false} RemoveNoDigits(s: string, c: char)
    requires !IsDigit(c)
    ensures NoDigits(Remove(s, c)) <==> NoDigits(s)
  {
    if s != [] {
      RemoveNoDigits(s[1..], c);
      assert s == [s[0]] + s[1..];
      NoDigitsCons(s[0], s[1..]);
      if s[0] != c {
        NoDigitsCons(s[0], Remove(s[1..], c));
      }
    }
  }

  lemma NoDigitsCons(x: char, t: string)
    ensures NoDigits([x] + t) <==> !IsDigit(x) && NoDigits(t)
  {
    var xt := [x] + t;
    assert xt[0] == x;
    assert forall k :: 0 <= k < |t| ==> xt[k + 1] == t[k];
    if !IsDigit(x) && NoDigits(t) {
      forall k | 0 <= k < |xt| ensures !IsDigit(xt[k]) {
        if k > 0 { assert xt[k] == t[k - 1]; }
      }
    }
  }

  /** A price text yields a number exactly when it holds a digit. */
  lemma ParsePriceSomeIffDigit(text: string)
    ensures ParsePrice(text).Some? <==> !NoDigits(text)
  {
    ParsePriceReadsFirstRun(text);
    RemoveNoDigits(text, '원');
    RemoveNoDigits(Remove(text, '원'), ',');
  }

  /** A selector yields a price: it matches, and its first match holds a number. */
  predicate PriceHit(page: Page, sel: string) {
    Matches(page, sel) != [] && ParsePrice(Matches(page, sel)[0]).Some?
  }

  /** extract_price_safely: the price read through the first selector that yields one. */
  function ScanPrice(page: Page, sels: seq<string>): (v: Option<nat>)
    ensures sels == [] ==> v.None?
  {
    if sels == [] then None
    else if PriceHit(page, sels[0]) then ParsePrice(Matches(page, sels[0])[0])
    else ScanPrice(page, sels[1..])
  }

  /** The scan finds a price exactly when some selector yields one. */
  lemma {:induction false} ScanPriceSomeIff(page: Page, sels: seq<string>)
    ensures ScanPrice(page, sels).Some? <==> exists k :: 0 <= k < |sels| && PriceHit(page, sels[k])
  {
    if sels != [] && !PriceHit(page, sels[0]) {
      ScanPriceSomeIff(page, sels[1..]);
      assert forall k :: 1 <= k < |sels| ==> sels[k] == sels[1..][k - 1];
    }
  }

  /** The scan reads the first selector, in list order, that yields a price. */
  lemma {:induction false} ScanPriceFirstHit(page: Page, sels: seq<string>) returns (k: nat)
    requires ScanPrice(page, sels).Some?
    ensures k < |sels| && PriceHit(page, sels[k])
    ensures forall j :: 0 <= j < k ==> !PriceHit(page, sels[j])
    ensures ScanPrice(page, sels) == ParsePrice(Matches(page, sels[k])[0])
  {
    if PriceHit(page, sels[0]) {
      k := 0;
    } else {
      var k' := ScanPriceFirstHit(page, sels[1..]);
      k := k' + 1;
      assert sels[k] == sels[1..][k'];
      forall j | 0 <= j < k ensures !PriceHit(page, sels[j]) {
        if j > 0 { assert sels[j] == sels[1..][j - 1]; }
      }
    }
  }

  // ---------------------------------------------------------------------
  // Product name
  // ---------------------------------------------------------------------

  /**
   * A name selector yields a name when it matches exactly one element: the
   * locator's text_content() is strict and raises on several matches.
   */
  predicate NameHit(page: Page, sel: string) {
    |Matches(page, sel)| == 1
  }

  function NameBySelectors(page: Page, sels: seq<string>): (n: Option<string>)
    ensures sels == [] ==> n.None?
  {
    if sels == [] then None
    else if NameHit(page, sels[0]) then Some(Strip(Matches(page, sels[0])[0]))
    else NameBySelectors(page, sels[1..])
  }

  /** The selectors yield a name exactly when one of them has exactly one match. */
  lemma {:induction false} NameBySelectorsSomeIff(page: Page, sels: seq<string>)
    ensures NameBySelectors(page, sels).Some? <==> exists k :: 0 <= k < |sels| && NameHit(page, sels[k])
  {
    if sels != [] && !NameHit(page, sels[0]) {
      NameBySelectorsSomeIff(page, sels[1..]);
      assert forall k :: 1 <= k < |sels| ==> sels[k] == sels[1..][k - 1];
    }
  }

  /** The name comes from the first selector, in list order, with exactly one match. */
  lemma {:induction false} NameBySelectorsFirstHit(page: Page, sels: seq<string>) returns (k: nat)
    requires NameBySelectors(page, sels).Some?
    ensures k < |sels| && NameHit(page, sels[k])
    ensures forall j :: 0 <= j < k ==> !NameHit(page, sels[j])
    ensures NameBySelectors(page, sels) == Some(Strip(Matches(page, sels[k])[0]))
  {
    if NameHit(page, sels[0]) {
      k := 0;
    } else {
      var k' := NameBySelectorsFirstHit(page, sels[1..]);
      k := k' + 1;
      assert sels[k] == sels[1..][k'];
      forall j | 0 <= j < k ensures !NameHit(page, sels[j]) {
        if j > 0 { assert sels[j] == sels[1..][j - 1]; }
      }
    }
  }

  /** The longest stripped text, the earliest among equally long ones; "" for none. */
  function LongestText(texts: seq<string>): (r: string)
    ensures r == "" || exists k :: 0 <= k < |texts| && r == Strip(texts[k])
    ensures forall k :: 0 <= k < |texts| ==> |Strip(texts[k])| <= |r|
  {
    if texts == [] then ""
    else
      var init := texts[..|texts| - 1];
      var rest := LongestText(init);
      var t := Strip(texts[|texts| - 1]);
      assert forall k :: 0 <= k < |texts| - 1 ==> texts[k] == init[k];
      if |t| > |rest| then t else rest
  }

  /** Among equally long texts the first one wins: the update needs a strictly longer text. */
  lemma {:induction false} LongestTextIsFirst(texts: seq<string>) returns (k: nat)
    requires LongestText(texts) != ""
    ensures k < |texts| && LongestText(texts) == Strip(texts[k])
    ensures forall j :: 0 <= j < k ==> |Strip(texts[j])| < |LongestText(texts)|
  {
    var n := |texts| - 1;
    var init := texts[..n];
    var rest := LongestText(init);
    var t := Strip(texts[n]);
    assert forall j :: 0 <= j < n ==> texts[j] == init[j];
    if |t| > |rest| {
      k := n;
    } else {
      var k' := LongestTextIsFirst(init);
      k := k';
    }
  }

  /** The loop over the h2 elements that keeps the longest stripped text. */
  method LongestH2(texts: seq<string>) returns (longest: string)
    ensures longest == LongestText(texts)
  {
    longest := "";
    for i := 0 to |texts|
      invariant longest == LongestText(texts[..i])
    {
      var text := Strip(texts[i]);
      assert texts[..i + 1][..i] == texts[..i];
      if |text| > |longest| {
        longest := text;
      }
    }
    assert texts[..|texts|] == texts;
  }

  /**
   * _extract_product_name: the first selector with exactly one match, else the
   * longest non-empty h2 text, else "NA".
   */
  function ProductName(page: Page, sels: seq<string>): (v: Value)
    ensures v.Str?
    ensures (exists k :: 0 <= k < |sels| && NameHit(page, sels[k])) ==>
      NameBySelectors(page, sels).Some? && v == Str(NameBySelectors(page, sels).value)
    ensures (forall k :: 0 <= k < |sels| ==> !NameHit(page, sels[k])) ==>
      (v == NA <==> LongestText(Matches(page, GenericNameSelector)) in {"", "NA"})
    ensures (forall k :: 0 <= k < |sels| ==> !NameHit(page, sels[k])) ==>
      v == (if LongestText(Matches(page, GenericNameSelector)) != "" then Str(LongestText(Matches(page, GenericNameSelector)))
            else NA)
  {
    NameBySelectorsSomeIff(page, sels);
    match NameBySelectors(page, sels)
    case Some(n) => Str(n)
    case None =>
      var longest := LongestText(Matches(page, GenericNameSelector));
      if longest != "" then Str(longest) else NA
  }

  // ---------------------------------------------------------------------
  // Coupon and AppleCare price
  // ---------------------------------------------------------------------

  /** check_coupon_exists; None when it raises because the page source cannot be read. */
  function CouponShown(page: Page, sels: seq<string>): (r: Option<bool>)
    ensures r.None? <==> page.content.None? && forall k :: 0 <= k < |sels| ==> Matches(page, sels[k]) == []
    ensures r == Some(true) <==>
      || (exists k :: 0 <= k < |sels| && Matches(page, sels[k]) != [])
      || (page.content.Some? && Contains(page.content.value, CouponMarkup))
  {
    if exists k :: 0 <= k < |sels| && Matches(page, sels[k]) != [] then Some(true)
    else if page.content.None? then None
    else Some(Contains(page.content.value, CouponMarkup))
  }

  /** "AppleCare" at position p, compared case-insensitively. */
  predicate AppleCareAt(s: string, p: nat) {
    p + 9 <= |s| && Lower(s[p..p + 9]) == "applecare"
  }

  /**
   * `(?:,\d{3})+원` read greedily from position p, with `acc` the value read so
   * far and `groups` the number of groups read so far.
   */
  function Groups(s: string, p: nat, acc: nat, groups: nat): (v: Option<nat>)
    requires p <= |s|
    decreases |s| - p
  {
    if p + 4 <= |s| && s[p] == ',' && AllDigits(s[p + 1..p + 4]) then
      Groups(s, p + 4, acc * 1000 + DigitsValue(s[p + 1..p + 4]), groups + 1)
    else if groups >= 1 && p < |s| && s[p] == '원' then Some(acc)
    else None
  }

  /**
   * `\d{1,3}(?:,\d{3})+원` matched at q, and the number it denotes once the
   * commas and "원" are dropped. A digit run longer than three cannot start a
   * match: no shorter prefix of it is followed by a comma.
   */
  function GroupedAmountAt(s: string, q: nat): (v: Option<nat>)
    requires q <= |s|
  {
    var d := LeadingDigits(s[q..]);
    if 1 <= |d| <= 3 then Groups(s, q + |d|, DigitsValue(d), 0) else None
  }

  /** The lazy `[^<>]*?`: the first q from which an amount matches, never crossing '<' or '>'. */
  function LazyAmount(s: string, q: nat): (v: Option<nat>)
    requires q <= |s|
    decreases |s| - q
  {
    if GroupedAmountAt(s, q).Some? then GroupedAmountAt(s, q)
    else if q < |s| && s[q] != '<' && s[q] != '>' then LazyAmount(s, q + 1)
    else None
  }

  /** The pattern matches from p: "AppleCare" there, then the lazy gap and an amount. */
  predicate MatchAt(s: string, p: nat) {
    AppleCareAt(s, p) && LazyAmount(s, p + 9).Some?
  }

  /** `re.search(r'AppleCare[^<>]*?(\d{1,3}(?:,\d{3})+원)', s, re.IGNORECASE)`, from position p on. */
  function AppleCareSearch(s: string, p: nat): (v: Option<nat>)
    requires p <= |s|
    decreases |s| - p
  {
    if MatchAt(s, p) then LazyAmount(s, p + 9)
    else if p < |s| then AppleCareSearch(s, p + 1)
    else None
  }

  /** An amount found by the lazy gap lies after a stretch free of '<' and '>'. */
  lemma {:induction false} LazyAmountSound(s: string, q: nat) returns (q': nat)
    requires q <= |s| && LazyAmount(s, q).Some?
    ensures q <= q' <= |s|
    ensures forall k :: q <= k < q' ==> s[k] != '<' && s[k] != '>'
    ensures GroupedAmountAt(s, q') == LazyAmount(s, q)
    decreases |s| - q
  {
    if GroupedAmountAt(s, q).Some? {
      q' := q;
    } else {
      q' := LazyAmountSound(s, q + 1);
    }
  }

  /**
   * What the search reports is a match of the pattern: "AppleCare" at p, a gap
   * without '<' or '>', and a grouped amount ending in "원" at q; no earlier
   * position starts a match.
   */
  lemma {:induction false} AppleCareSearchSound(s: string, p: nat) returns (at: nat, q: nat)
    requires p <= |s| && AppleCareSearch(s, p).Some?
    ensures p <= at && AppleCareAt(s, at) && at + 9 <= q <= |s|
    ensures forall k :: at + 9 <= k < q ==> s[k] != '<' && s[k] != '>'
    ensures GroupedAmountAt(s, q) == AppleCareSearch(s, p)
    ensures forall j :: p <= j < at ==> !MatchAt(s, j)
    decreases |s| - p
  {
    if MatchAt(s, p) {
      at := p;
      q := LazyAmountSound(s, p + 9);
    } else {
      at, q := AppleCareSearchSound(s, p + 1);
      forall j | p <= j < at ensures !MatchAt(s, j) {
        if j > p {
          assert p + 1 <= j;
        }
      }
    }
  }

  /** An amount after a stretch free of '<' and '>' is found by the lazy gap. */
  lemma {:induction false} LazyAmountComplete(s: string, q: nat, q': nat)
    requires q <= q' <= |s| && GroupedAmountAt(s, q').Some?
    requires forall k :: q <= k < q' ==> s[k] != '<' && s[k] != '>'
    ensures LazyAmount(s, q).Some?
    decreases q' - q
  {
    if q < q' && GroupedAmountAt(s, q).None? {
      LazyAmountComplete(s, q + 1, q');
    }
  }

  /**
   * The search misses no match: "AppleCare" at some position at or after p,
   * a gap without '<' or '>' and a grouped amount make it report a price.
   */
  lemma {:induction false} AppleCareSearchComplete(s: string, p: nat, at: nat, q: nat)
    requires p <= at && AppleCareAt(s, at) && at + 9 <= q <= |s| && GroupedAmountAt(s, q).Some?
    requires forall k :: at + 9 <= k < q ==> s[k] != '<' && s[k] != '>'
    ensures AppleCareSearch(s, p).Some?
    decreases at - p
  {
    LazyAmountComplete(s, at + 9, q);
    if p < at && !MatchAt(s, p) {
      AppleCareSearchComplete(s, p + 1, at, q);
    }
  }

  // ---------------------------------------------------------------------
  // Price fields
  // ---------------------------------------------------------------------

  function PriceValue(v: Option<nat>): Value {
    if v.Some? then Int(v.value) else NA
  }

  /** The AppleCare price: the selectors first, then the pattern over the page source. */
  function AcPriceValue(page: Page, cfg: Selectors): (v: Value)
    ensures v == NA || v.Int?
  {
    var bySelector := ScanPrice(page, SelectorList(cfg, "ac_price", DefaultAcPriceSelectors));
    if bySelector.Some? then Int(bySelector.value)
    else if page.content.None? then NA
    else PriceValue(AppleCareSearch(page.content.value, 0))
  }

  const PriceColumns: set<Column> := {Price, OriginPrice, Coupon, CouponPrice, AcPrice}

  /**
   * _extract_price_info. If the coupon check raises, the outer handler
   * overwrites every price field with "NA" and COUPON with 0.
   */
  function PriceInfo(page: Page, cfg: Selectors): (r: Row)
    ensures r.Keys == PriceColumns
    ensures r[Coupon] == Int(1) || r[Coupon] == Int(0)
    ensures r[Coupon] == Int(1) <==> r[CouponPrice].Int?
    ensures r[Price] == NA || r[Price].Int?
    ensures r[Price].Int? ==> r[OriginPrice].Int?
    ensures r[AcPrice] == NA || r[AcPrice].Int?
  {
    var price := ScanPrice(page, SelectorList(cfg, "price", DefaultPriceSelectors));
    var origin := ScanPrice(page, SelectorList(cfg, "origin_price", DefaultOriginPriceSelectors));
    match CouponShown(page, SelectorList(cfg, "coupon_indicators", DefaultCouponIndicators))
    case None =>
      map[Price := NA, OriginPrice := NA, Coupon := Int(0), CouponPrice := NA, AcPrice := NA]
    case Some(hasCoupon) =>
      var couponPrice :=
        if hasCoupon then ScanPrice(page, SelectorList(cfg, "coupon_price", DefaultCouponPriceSelectors)) else None;
      map[Price := PriceValue(price),
          OriginPrice := PriceValue(if origin.Some? then origin else price),
          Coupon := Int(if couponPrice.Some? then 1 else 0),
          CouponPrice := if couponPrice.Some? then Int(couponPrice.value) else Null,
          AcPrice := AcPriceValue(page, cfg)]
  }

  /**
   * Whenever the coupon check answers, PRICE and ORIGIN_PRICE are the scans,
   * ORIGIN_PRICE falling back to PRICE.
   */
  lemma PriceInfoFallbacks(page: Page, cfg: Selectors)
    requires CouponShown(page, SelectorList(cfg, "coupon_indicators", DefaultCouponIndicators)).Some?
    ensures var price := ScanPrice(page, SelectorList(cfg, "price", DefaultPriceSelectors));
      var origin := ScanPrice(page, SelectorList(cfg, "origin_price", DefaultOriginPriceSelectors));
      && PriceInfo(page, cfg)[Price] == PriceValue(price)
      && (origin.Some? ==> PriceInfo(page, cfg)[OriginPrice] == Int(origin.value))
      && (origin.None? ==> PriceInfo(page, cfg)[OriginPrice] == PriceInfo(page, cfg)[Price])
  {
  }

  /**
   * The coupon rule: COUPON is 1 exactly when the badge check finds a coupon
   * and a coupon price is read, and COUPON_PRICE is then that price; no badge
   * gives COUPON 0 and no coupon price; a badge check that raises leaves every
   * price field "NA" and COUPON 0.
   */
  lemma PriceInfoCoupon(page: Page, cfg: Selectors)
    ensures var shown := CouponShown(page, SelectorList(cfg, "coupon_indicators", DefaultCouponIndicators));
      var coupon := ScanPrice(page, SelectorList(cfg, "coupon_price", DefaultCouponPriceSelectors));
      var r := PriceInfo(page, cfg);
      && (r[Coupon] == Int(1) <==> shown == Some(true) && coupon.Some?)
      && (shown == Some(true) && coupon.Some? ==> r[CouponPrice] == Int(coupon.value))
      && (shown == Some(false) ==> r[Coupon] == Int(0) && r[CouponPrice] == Null)
      && (shown.None? ==>
            && r[Price] == NA && r[OriginPrice] == NA && r[Coupon] == Int(0)
            && r[CouponPrice] == NA && r[AcPrice] == NA)
      && (shown.Some? ==> r[AcPrice] == AcPriceValue(page, cfg))
  {
  }

  /** A coupon badge without a readable coupon price is reported as no coupon. */
  lemma CouponDemotedWithoutPrice(page: Page, cfg: Selectors)
    requires CouponShown(page, SelectorList(cfg, "coupon_indicators", DefaultCouponIndicators)) == Some(true)
    requires ScanPrice(page, SelectorList(cfg, "coupon_price", DefaultCouponPriceSelectors)).None?
    ensures PriceInfo(page, cfg)[Coupon] == Int(0) && PriceInfo(page, cfg)[CouponPrice] == Null
  {
  }

  const FieldColumns: set<Column> := {ProdName, Price, OriginPrice, Coupon, CouponPrice, AcPrice}

  /** The fields one successful extraction pass writes. */
  function ExtractedFields(page: Page, cfg: Selectors): (r: Row)
    ensures r.Keys == FieldColumns
  {
    PriceInfo(page, cfg)[ProdName := ProductName(page, SelectorList(cfg, "product_name", DefaultNameSelectors))]
  }

  // ---------------------------------------------------------------------
  // extract_product_info and its retry loop
  // ---------------------------------------------------------------------

  /**
   * How one extraction attempt ends. The name and price extractors catch their
   * own errors, so an attempt fails only around them: before any field is
   * written (FailsEarly) or after all of them are (FailsLate).
   */
  datatype ExtractAttempt = Completes | FailsEarly(error: string) | FailsLate(error: string)

  /** URL and ORIGINAL_INDEX, and PROD_ID when the input has that column (even if the cell is NaN). */
  function BaseRecord(url: Value, originalIndex: Value, prodId: Option<Value>): (r: Row)
    ensures r.Keys == {Url, OriginalIndex} + (if prodId.Some? then {ProdId} else {})
    ensures r.Keys !! FieldColumns + {ExtractionTime, Date, Error}
    ensures r[Url] == url && r[OriginalIndex] == originalIndex
    ensures prodId.Some? ==> r[ProdId] == prodId.value
  {
    var r := map[Url := url, OriginalIndex := originalIndex];
    if prodId.Some? then r[ProdId := prodId.value] else r
  }

  /** `setdefault` of the six field columns after the last failed attempt. */
  function WithDefaults(data: Row): (r: Row)
    ensures r.Keys == data.Keys + FieldColumns
    ensures forall c :: c in data ==> r[c] == data[c]
  {
    map c | c in data.Keys + FieldColumns ::
      if c in data then data[c] else if c == Coupon then Int(0) else Null
  }

  /** The backoff sleeps of the retry loop after n failed attempts: 5, 10, ... seconds. */
  function Backoffs(n: nat): (ps: seq<Pause>)
    ensures |ps| == n
    ensures forall j :: 0 <= j < n ==> ps[j] == Backoff(5 * (j + 1))
  {
    if n == 0 then [] else Backoffs(n - 1) + [Backoff(5 * n)]
  }

  /** Some attempt among the first n failed after writing the fields. */
  predicate LateFailureBefore(attempts: Three<ExtractAttempt>, n: nat) {
    || (n > 0 && attempts.first.FailsLate?)
    || (n > 1 && attempts.second.FailsLate?)
    || (n > 2 && attempts.third.FailsLate?)
  }

  datatype Extraction = Extraction(record: Row, pauses: seq<Pause>)

  /**
   * The record extract_product_info returns and the sleeps it takes, for the
   * scripted attempts. `fields` is what one extraction pass over the page
   * writes (the page does not change between attempts); `time` and `date` are
   * the clock's readings.
   */
  function ExtractOutcome(fields: Row, base: Row, attempts: Three<ExtractAttempt>,
                          time: string, date: string): (x: Extraction)
    requires fields.Keys == FieldColumns && base.Keys !! FieldColumns + {ExtractionTime, Date, Error}
    ensures base.Keys + FieldColumns + {ExtractionTime} <= x.record.Keys
    ensures |x.pauses| <= 2 && x.pauses == Backoffs(|x.pauses|)
  {
    var done := (base + fields)[ExtractionTime := Str(time)][Date := Str(date)];
    if attempts.first.Completes? then Extraction(done, [])
    else if attempts.second.Completes? then Extraction(done, Backoffs(1))
    else if attempts.third.Completes? then Extraction(done, Backoffs(2))
    else
      var data := if LateFailureBefore(attempts, 3) then base + fields else base;
      Extraction(WithDefaults(data)[ExtractionTime := Str(time)][Error := Str(attempts.third.error)], Backoffs(2))
  }

  /**
   * Every record keeps its base cells and has its extraction time; it carries
   * ERROR exactly when all three attempts failed, and DATE exactly otherwise.
   */
  lemma ExtractOutcomeShape(fields: Row, base: Row, attempts: Three<ExtractAttempt>, time: string, date: string)
    requires fields.Keys == FieldColumns && base.Keys !! FieldColumns + {ExtractionTime, Date, Error}
    ensures var x := ExtractOutcome(fields, base, attempts, time, date);
      && (forall c :: c in base ==> x.record[c] == base[c])
      && x.record[ExtractionTime] == Str(time)
      && (Error in x.record <==> Date !in x.record)
      && (Error in x.record <==>
            !attempts.first.Completes? && !attempts.second.Completes? && !attempts.third.Completes?)
  {
    if attempts.first.Completes? || attempts.second.Completes? || attempts.third.Completes? {
      CompletedRecordShape(fields, base, time, date);
    } else {
      var data := if LateFailureBefore(attempts, 3) then base + fields else base;
      FailedRecordShape(data, base, time, attempts.third.error);
    }
  }

  /** The record of a completed attempt: the base cells, the fields, the time and the date, no ERROR. */
  lemma CompletedRecordShape(fields: Row, base: Row, time: string, date: string)
    requires fields.Keys == FieldColumns && base.Keys !! FieldColumns + {ExtractionTime, Date, Error}
    ensures var r := (base + fields)[ExtractionTime := Str(time)][Date := Str(date)];
      && (forall c :: c in base ==> r[c] == base[c])
      && r[ExtractionTime] == Str(time) && Date in r && Error !in r
  {
    assert Error !in FieldColumns;
  }

  /** The record after the last failed attempt: the cells written so far, the time and ERROR, no DATE. */
  lemma FailedRecordShape(data: Row, base: Row, time: string, error: string)
    requires Date !in data && base.Keys <= data.Keys && ExtractionTime !in base && Error !in base
    requires forall c :: c in base ==> data[c] == base[c]
    ensures var r := WithDefaults(data)[ExtractionTime := Str(time)][Error := Str(error)];
      && (forall c :: c in base ==> r[c] == base[c])
      && r[ExtractionTime] == Str(time) && Date !in r && Error in r
  {
    assert Date !in FieldColumns;
  }

  /** A successful attempt yields the extracted fields themselves. */
  lemma CompletedExtraction(fields: Row, base: Row, attempts: Three<ExtractAttempt>, time: string, date: string)
    requires fields.Keys == FieldColumns && base.Keys !! FieldColumns + {ExtractionTime, Date, Error}
    requires attempts.first.Completes? || attempts.second.Completes? || attempts.third.Completes?
    ensures var x := ExtractOutcome(fields, base, attempts, time, date);
      && (forall c :: c in FieldColumns ==> x.record[c] == fields[c])
      && x.record[Date] == Str(date)
      && (attempts.first.Completes? ==> x.pauses == [])
      && (!attempts.first.Completes? && attempts.second.Completes? ==> x.pauses == Backoffs(1))
      && (!attempts.first.Completes? && !attempts.second.Completes? ==> x.pauses == Backoffs(2))
  {
  }

  /** A failed run keeps the fields an earlier attempt wrote; otherwise it has the defaults. */
  lemma ExhaustedExtraction(fields: Row, base: Row, attempts: Three<ExtractAttempt>, time: string, date: string)
    requires fields.Keys == FieldColumns && base.Keys !! FieldColumns + {ExtractionTime, Date, Error}
    requires !attempts.first.Completes? && !attempts.second.Completes? && !attempts.third.Completes?
    ensures var x := ExtractOutcome(fields, base, attempts, time, date);
      && x.record[Error] == Str(attempts.third.error)
      && x.pauses == [Backoff(5), Backoff(10)]
      && (LateFailureBefore(attempts, 3) ==> forall c :: c in FieldColumns ==> x.record[c] == fields[c])
      && (!LateFailureBefore(attempts, 3) ==>
            x.record[Coupon] == Int(0) && forall c :: c in FieldColumns - {Coupon} ==> x.record[c] == Null)
  {
  }

  /**
   * extract_product_info: the record starts with the base cells, then the
   * retry loop runs the name and price extractors over the page.
   */
  method ExtractProductInfo(page: Page, cfg: Selectors, url: Value, originalIndex: Value, prodId: Option<Value>,
                            attempts: Three<ExtractAttempt>, time: string, date: string)
    returns (record: Row, pauses: seq<Pause>)
    ensures Extraction(record, pauses) ==
      ExtractOutcome(ExtractedFields(page, cfg), BaseRecord(url, originalIndex, prodId), attempts, time, date)
  {
    var base := BaseRecord(url, originalIndex, prodId);
    // What one pass of the extractors writes; the page is the same on every attempt.
    var fields := ExtractedFields(page, cfg);
    record, pauses := RetryExtraction(base, fields, attempts, time, date);
  }

  /**
   * The retry loop of extract_product_info: up to three attempts, each of
   * which writes `fields` when it gets that far, sleeping 5 * k seconds after
   * the k-th failure when another attempt follows.
   */
  method RetryExtraction(base: Row, fields: Row, attempts: Three<ExtractAttempt>, time: string, date: string)
    returns (record: Row, pauses: seq<Pause>)
    requires fields.Keys == FieldColumns && base.Keys !! FieldColumns + {ExtractionTime, Date, Error}
    ensures Extraction(record, pauses) == ExtractOutcome(fields, base, attempts, time, date)
  {
    var data := base;
    var retryCount := 0;
    var lastError := "";
    pauses := [];
    while retryCount < 3
      invariant 0 <= retryCount <= 3
      invariant forall j :: 0 <= j < retryCount ==> !attempts.At(j).Completes?
      invariant data == if LateFailureBefore(attempts, retryCount) then base + fields else base
      invariant pauses == Backoffs(if retryCount < 3 then retryCount else 2)
      invariant retryCount == 3 ==> !attempts.third.Completes? && lastError == attempts.third.error
    {
      var attempt := attempts.At(retryCount);
      if attempt.Completes? {
        UnionAgain(base, fields);
        data := data + fields;
        data := data[ExtractionTime := Str(time)][Date := Str(date)];
        record := data;
        assert retryCount > 0 ==> !attempts.At(0).Completes?;
        assert retryCount > 1 ==> !attempts.At(1).Completes?;
        return;
      }
      if attempt.FailsLate? {
        UnionAgain(base, fields);
        data := data + fields;
      }
      lastError := attempt.error;
      retryCount := retryCount + 1;
      if retryCount < 3 {
        pauses := pauses + [Backoff(5 * retryCount)];
      }
    }
    assert !attempts.At(0).Completes? && !attempts.At(1).Completes?;
    record := WithDefaults(data)[ExtractionTime := Str(time)][Error := Str(lastError)];
  }

  /** Writing the same fields twice is writing them once. */
  lemma UnionAgain(base: Row, fields: Row)
    ensures base + fields + fields == base + fields
  {
  }
}
