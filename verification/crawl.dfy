/**
  The crawl loop of `main` (selenium_scraper.py:80-171): for each property
  id of the configured range, load the listing page, skip it when the
  browser raised, the title reports a CAPTCHA or the property-id cell is
  empty, and otherwise append its record; the browser is quit exactly once,
  after the loop, however the loop ends.
*/
module Crawl {
  import opened Wrappers
  import opened Strings
  import opened Dom
  import opened Record

  /** The id range of the crawl (selenium_scraper.py:18-19). */
  const START_ID: int := 9941202
  const END_ID: int := 9941227

  // ---------------------------------------------------------------------
  // Listing urls
  // ---------------------------------------------------------------------

  function DigitChar(d: nat): (c: char)
    requires d < 10
    ensures IsDigit(c)
  {
    ('0' as int + d) as char
  }

  /** The decimal digits of `n`, most significant first, as Python's `str(n)`. */
  function NatDigits(n: nat): (s: string)
    ensures IsDigitString(s)
    decreases n
  {
    if n < 10 then [DigitChar(n)] else NatDigits(n / 10) + [DigitChar(n % 10)]
  }

  /** The number a string of digits denotes. */
  function ParseNat(s: string): nat
    requires DigitsOnly(s)
  {
    if s == [] then 0 else ParseNat(s[..|s| - 1]) * 10 + (s[|s| - 1] as int - '0' as int)
  }

  /** `str(i)` for an integer of either sign. */
  function Decimal(i: int): string {
    if i < 0 then "-" + NatDigits(-i) else NatDigits(i)
  }

  /** Python's `int(s)` on an optional '-' followed by digits; `None` on anything else. */
  function ParseInt(s: string): Option<int> {
    if |s| > 0 && s[0] == '-' && IsDigitString(s[1..]) then Some(-(ParseNat(s[1..]) as int))
    else if IsDigitString(s) then Some(ParseNat(s))
    else None
  }

  lemma {:induction false} ParseNatDigits(n: nat)
    ensures ParseNat(NatDigits(n)) == n
    decreases n
  {
    if n >= 10 {
      ParseNatDigits(n / 10);
      var s := NatDigits(n);
      assert s[..|s| - 1] == NatDigits(n / 10);
    }
  }

  /** Reading back the decimal form of an id gives the id. */
  lemma DecimalRoundTrip(i: int)
    ensures ParseInt(Decimal(i)) == Some(i)
  {
    if i < 0 {
      ParseNatDigits(-i);
      assert Decimal(i)[1..] == NatDigits(-i);
    } else {
      ParseNatDigits(i);
    }
  }

  const UrlPrefix: string := "https://www.bayut.com/property/details-"
  const UrlSuffix: string := ".html"

  /** `f"https://www.bayut.com/property/details-{property_id}.html"`. */
  function Url(id: int): string {
    UrlPrefix + Decimal(id) + UrlSuffix
  }

  /** The id's decimal form sits between the fixed prefix and suffix of its url. */
  lemma UrlParts(id: int)
    ensures |Url(id)| == |UrlPrefix| + |Decimal(id)| + |UrlSuffix|
    ensures Url(id)[..|UrlPrefix|] == UrlPrefix
    ensures Url(id)[|UrlPrefix|..|Url(id)| - |UrlSuffix|] == Decimal(id)
  {
  }

  /** Distinct ids have distinct urls, so each url names exactly one id. */
  lemma UrlInjective(a: int, b: int)
    requires Url(a) == Url(b)
    ensures a == b
  {
    UrlParts(a);
    UrlParts(b);
    DecimalRoundTrip(a);
    DecimalRoundTrip(b);
  }

  // ---------------------------------------------------------------------
  // One iteration
  // ---------------------------------------------------------------------

  /**
    What loading one listing yields, seen from the loop: an `Exception`
    raised anywhere in the iteration (caught by its `except Exception`), an
    exception outside that class (it escapes the loop), or the loaded page
    with its title and element lookups.
  */
  datatype Visit = Raises | Aborts | Loaded(title: string, doc: Doc)

  /** How the loop disposes of one id. */
  datatype Outcome = FetchFailed | Blocked | MissingId | Recorded(item: Item) | Aborted

  /** The CAPTCHA test on the page title: `"captcha" in driver.title.lower()`. */
  predicate IsBlocked(title: string) {
    Contains(Lower(title), "captcha")
  }

  /**
    The decision for one id: a record exactly when the page loaded, its
    title does not mention a CAPTCHA in any letter case, and its
    property-id cell has text; the record is then built from the page, at
    the id's url.
  */
  function Classify(url: string, v: Visit): (o: Outcome)
    ensures o.Recorded? <==> v.Loaded? && !IsBlocked(v.title) && TextAt(v.doc, PropertyIdCell) != ""
    ensures o.Aborted? <==> v.Aborts?
  {
    match v
    case Raises => FetchFailed
    case Aborts => Aborted
    case Loaded(title, doc) =>
      if IsBlocked(title) then Blocked
      else if TextAt(doc, PropertyIdCell) == "" then MissingId
      else Recorded(BuildItem(url, doc))
  }

  /** A record is the one built from the page, at the visited url, with a non-empty property id. */
  lemma RecordedItem(url: string, v: Visit)
    requires Classify(url, v).Recorded?
    ensures Classify(url, v).item == BuildItem(url, v.doc)
    ensures Classify(url, v).item.propertyUrl == url
    ensures Classify(url, v).item.propertyId != ""
    ensures WellFormed(Classify(url, v).item)
  {
    BuildItemShape(url, v.doc);
  }

  /**
    A title that mentions the word in any letter case ("Captcha", "CAPTCHA",
    "cAPTCHA", ...) is caught: the test lowers the title first.
  */
  lemma BlockedAnyCase(url: string, title: string, doc: Doc, w: string, i: nat)
    requires OccursAt(title, w, i) && Lower(w) == "captcha"
    ensures IsBlocked(title)
    ensures Classify(url, Loaded(title, doc)) == Blocked
  {
    LowerSlice(title, i, i + |w|);
    assert OccursAt(Lower(title), "captcha", i);
  }

  /** The all-capitals spelling, as one instance. */
  lemma BlockedCapitals(url: string, title: string, doc: Doc, i: nat)
    requires OccursAt(title, "CAPTCHA", i)
    ensures IsBlocked(title)
    ensures Classify(url, Loaded(title, doc)) == Blocked
  {
    assert Lower("CAPTCHA") == "captcha";
    BlockedAnyCase(url, title, doc, "CAPTCHA", i);
  }

  // ---------------------------------------------------------------------
  // The whole loop, as a specification
  // ---------------------------------------------------------------------

  /**
    The ids the loop visits, the records it appends, and whether an
    exception escaped it.
  */
  datatype CrawlResult = CrawlResult(records: seq<Item>, visited: seq<int>, aborted: bool)

  /** The decision the loop takes for each id, given what the browser yields for each url. */
  function Decide(respond: string -> Visit): int -> Outcome {
    id => Classify(Url(id), respond(Url(id)))
  }

  /** The contribution of one id that did not abort: the id, and its record if it has one. */
  function One(id: int, o: Outcome): CrawlResult {
    CrawlResult(if o.Recorded? then [o.item] else [], [id], false)
  }

  /** A run that visited `a` and then went on as `b`. */
  function Then(a: CrawlResult, b: CrawlResult): CrawlResult {
    CrawlResult(a.records + b.records, a.visited + b.visited, b.aborted)
  }

  /**
    The loop from `id` to `end` when `d` decides each id: each id is
    visited in turn, until one aborts.
  */
  function CrawlFrom(d: int -> Outcome, id: int, end: int): CrawlResult
    decreases end - id
  {
    if id >= end then CrawlResult([], [], false)
    else if d(id).Aborted? then CrawlResult([], [id], true)
    else Then(One(id, d(id)), CrawlFrom(d, id + 1, end))
  }

  lemma ThenAssociative(a: CrawlResult, b: CrawlResult, c: CrawlResult)
    ensures Then(Then(a, b), c) == Then(a, Then(b, c))
  {
    assert (a.records + b.records) + c.records == a.records + (b.records + c.records);
    assert (a.visited + b.visited) + c.visited == a.visited + (b.visited + c.visited);
  }

  /** The urls of a sequence of ids, one for one and in the same order. */
  function Urls(ids: seq<int>): (us: seq<string>)
    ensures |us| == |ids|
    ensures forall k :: 0 <= k < |ids| ==> us[k] == Url(ids[k])
  {
    seq(|ids|, k requires 0 <= k < |ids| => Url(ids[k]))
  }

  /** Requesting one more id adds its url at the end. */
  lemma UrlsAppend(prefix: seq<string>, ids: seq<int>, id: int)
    ensures prefix + Urls(ids + [id]) == (prefix + Urls(ids)) + [Url(id)]
  {
    var a, b := prefix + Urls(ids + [id]), (prefix + Urls(ids)) + [Url(id)];
    assert |a| == |b|;
    forall k | 0 <= k < |a|
      ensures a[k] == b[k]
    {
      if k >= |prefix| {
        assert a[k] == Urls(ids + [id])[k - |prefix|];
      }
    }
  }

  /**
    The loop visits consecutive ids from `id`, in ascending order; it visits
    the whole range unless an id aborts, and then that id is the last it
    visits, and no earlier one aborted.
  */
  lemma {:induction false} VisitsInOrder(d: int -> Outcome, id: int, end: int)
    ensures forall k :: 0 <= k < |CrawlFrom(d, id, end).visited| ==> CrawlFrom(d, id, end).visited[k] == id + k
    ensures id < end ==> |CrawlFrom(d, id, end).visited| <= end - id
    ensures id >= end ==> CrawlFrom(d, id, end).visited == []
    ensures !CrawlFrom(d, id, end).aborted ==>
              |CrawlFrom(d, id, end).visited| == if id < end then end - id else 0
    ensures CrawlFrom(d, id, end).aborted ==>
              |CrawlFrom(d, id, end).visited| > 0
              && d(id + |CrawlFrom(d, id, end).visited| - 1).Aborted?
    ensures forall y :: id <= y < id + |CrawlFrom(d, id, end).visited| - 1 ==> !d(y).Aborted?
    ensures !CrawlFrom(d, id, end).aborted ==> forall y :: id <= y < end ==> !d(y).Aborted?
    decreases end - id
  {
    if id < end && !d(id).Aborted? {
      VisitsInOrder(d, id + 1, end);
    }
  }

  /** The ids whose visit appends a record, in the order visited. */
  function RecordedIds(d: int -> Outcome, id: int, end: int): seq<int>
    decreases end - id
  {
    if id >= end || d(id).Aborted? then []
    else (if d(id).Recorded? then [id] else []) + RecordedIds(d, id + 1, end)
  }

  /**
    The records are those of the recorded ids, one each and in the same
    order: each is the record its id's decision carries.
  */
  lemma {:induction false} RecordsFollowIds(d: int -> Outcome, id: int, end: int)
    ensures |CrawlFrom(d, id, end).records| == |RecordedIds(d, id, end)|
    ensures forall k :: 0 <= k < |RecordedIds(d, id, end)| ==>
              d(RecordedIds(d, id, end)[k]) == Recorded(CrawlFrom(d, id, end).records[k])
    decreases end - id
  {
    if id < end && !d(id).Aborted? {
      RecordsFollowIds(d, id + 1, end);
      var c, rest := CrawlFrom(d, id, end), CrawlFrom(d, id + 1, end);
      var ids, restIds := RecordedIds(d, id, end), RecordedIds(d, id + 1, end);
      if d(id).Recorded? {
        assert c.records == [d(id).item] + rest.records;
        assert ids == [id] + restIds;
        forall k | 1 <= k < |ids|
          ensures ids[k] == restIds[k - 1] && c.records[k] == rest.records[k - 1]
        {
        }
      } else {
        assert c.records == rest.records;
        assert ids == restIds;
      }
    }
  }

  /** The recorded ids lie in the range and strictly ascend. */
  lemma {:induction false} RecordedIdsAscending(d: int -> Outcome, id: int, end: int)
    ensures forall k :: 0 <= k < |RecordedIds(d, id, end)| ==> id <= RecordedIds(d, id, end)[k] < end
    ensures forall k, l :: 0 <= k < l < |RecordedIds(d, id, end)| ==>
              RecordedIds(d, id, end)[k] < RecordedIds(d, id, end)[l]
    decreases end - id
  {
    if id < end && !d(id).Aborted? {
      RecordedIdsAscending(d, id + 1, end);
      var ids, rest := RecordedIds(d, id, end), RecordedIds(d, id + 1, end);
      var head := if d(id).Recorded? then [id] else [];
      assert ids == head + rest;
      forall k, l | 0 <= k < l < |ids|
        ensures ids[k] < ids[l]
      {
        if k >= |head| {
          assert ids[k] == rest[k - |head|] && ids[l] == rest[l - |head|];
        } else {
          assert ids[l] == rest[l - 1];
        }
      }
    }
  }

  /**
    An id in the range that the loop reaches (no earlier id aborted) is
    recorded exactly when its decision is `Recorded`.
  */
  lemma {:induction false} RecordedExactly(d: int -> Outcome, id: int, end: int, x: int)
    requires id <= x < end
    requires forall y :: id <= y < x ==> !d(y).Aborted?
    ensures x in RecordedIds(d, id, end) <==> d(x).Recorded?
    decreases x - id
  {
    RecordedIdsAscending(d, id + 1, end);
    if x > id {
      RecordedExactly(d, id + 1, end, x);
    }
  }

  lemma {:induction false} RecordsAtMostVisited(d: int -> Outcome, id: int, end: int)
    ensures |CrawlFrom(d, id, end).records| <= |CrawlFrom(d, id, end).visited|
    decreases end - id
  {
    if id < end && !d(id).Aborted? {
      RecordsAtMostVisited(d, id + 1, end);
    }
  }

  /** There are at most as many records as ids visited, hence as ids in the range. */
  lemma RecordsBounded(d: int -> Outcome, start: int, end: int)
    ensures |CrawlFrom(d, start, end).records| <= |CrawlFrom(d, start, end).visited|
    ensures start < end ==> |CrawlFrom(d, start, end).records| <= end - start
    ensures start >= end ==> CrawlFrom(d, start, end).records == []
  {
    RecordsAtMostVisited(d, start, end);
    VisitsInOrder(d, start, end);
  }

  /** The configured range holds 25 ids: at most 25 records, and all 25 ids visited unless one aborts. */
  lemma ConfiguredRange(d: int -> Outcome)
    ensures |CrawlFrom(d, START_ID, END_ID).records| <= 25
    ensures !CrawlFrom(d, START_ID, END_ID).aborted ==> |CrawlFrom(d, START_ID, END_ID).visited| == 25
  {
    RecordsBounded(d, START_ID, END_ID);
    VisitsInOrder(d, START_ID, END_ID);
  }

  /** When no id is recorded or aborts, the whole range is visited and nothing is recorded. */
  lemma {:induction false} NothingRecorded(d: int -> Outcome, id: int, end: int)
    requires forall y :: id <= y < end ==> !d(y).Recorded? && !d(y).Aborted?
    ensures CrawlFrom(d, id, end).records == []
    ensures !CrawlFrom(d, id, end).aborted
    decreases end - id
  {
    if id < end {
      NothingRecorded(d, id + 1, end);
    }
  }

  /**
    For the browser's responses: each record sits at its id's url, carries
    a non-empty property id, is well formed, and comes from a page that
    loaded without a CAPTCHA.
  */
  lemma RecordsFromPages(respond: string -> Visit, start: int, end: int)
    ensures var ids := RecordedIds(Decide(respond), start, end);
            var c := CrawlFrom(Decide(respond), start, end);
            |c.records| == |ids|
            && forall k :: 0 <= k < |ids| ==>
                 respond(Url(ids[k])).Loaded? && !IsBlocked(respond(Url(ids[k])).title)
                 && c.records[k] == BuildItem(Url(ids[k]), respond(Url(ids[k])).doc)
                 && c.records[k].propertyUrl == Url(ids[k])
                 && c.records[k].propertyId != ""
                 && WellFormed(c.records[k])
  {
    var d := Decide(respond);
    RecordsFollowIds(d, start, end);
    var ids := RecordedIds(d, start, end);
    forall k | 0 <= k < |ids|
      ensures Classify(Url(ids[k]), respond(Url(ids[k]))).Recorded?
    {
      assert d(ids[k]).Recorded?;
    }
    forall k | 0 <= k < |ids| {
      RecordedItem(Url(ids[k]), respond(Url(ids[k])));
    }
  }

  /** When every page reports a CAPTCHA, every id is visited and nothing is recorded. */
  lemma AllBlockedRecordsNothing(respond: string -> Visit, start: int, end: int)
    requires forall u :: respond(u).Loaded? && IsBlocked(respond(u).title)
    ensures CrawlFrom(Decide(respond), start, end).records == []
    ensures !CrawlFrom(Decide(respond), start, end).aborted
  {
    var d := Decide(respond);
    forall y | start <= y < end
      ensures !d(y).Recorded? && !d(y).Aborted?
    {
      assert d(y) == Classify(Url(y), respond(Url(y)));
    }
    NothingRecorded(d, start, end);
  }

  /** An exception escapes the loop only from a visit that raised one outside `Exception`. */
  lemma EscapeOnlyOnAbort(respond: string -> Visit, start: int, end: int)
    ensures var c := CrawlFrom(Decide(respond), start, end);
            c.aborted <==> exists y :: start <= y < end && respond(Url(y)).Aborts?
                                       && forall z :: start <= z < y ==> !respond(Url(z)).Aborts?
  {
    var d := Decide(respond);
    VisitsInOrder(d, start, end);
    var c := CrawlFrom(d, start, end);
    if c.aborted {
      var y := start + |c.visited| - 1;
      assert d(y).Aborted?;
      forall z | start <= z < y
        ensures !respond(Url(z)).Aborts?
      {
        assert !d(z).Aborted?;
      }
    } else {
      forall y | start <= y < end
        ensures !respond(Url(y)).Aborts?
      {
        assert !d(y).Aborted?;
      }
    }
  }

  /**
    A failed fetch in the middle of a range is skipped: over ids 100, 101
    and 102, with records for 100 and 102 and a failure for 101, the loop
    visits all three and keeps the two records in id order.
  */
  lemma FailedFetchSkipped(d: int -> Outcome, a: Item, b: Item)
    requires d(100) == Recorded(a) && d(101) == FetchFailed && d(102) == Recorded(b)
    ensures CrawlFrom(d, 100, 103) == CrawlResult([a, b], [100, 101, 102], false)
  {
    assert CrawlFrom(d, 102, 103) == CrawlResult([b], [102], false);
    assert CrawlFrom(d, 101, 103) == CrawlResult([b], [101, 102], false);
  }

  /** The same scenario for the browser: two valid pages around a fetch that raises. */
  lemma FailedFetchBetweenPages(respond: string -> Visit)
    requires respond(Url(101)) == Raises
    requires respond(Url(100)).Loaded? && !IsBlocked(respond(Url(100)).title)
    requires TextAt(respond(Url(100)).doc, PropertyIdCell) != ""
    requires respond(Url(102)).Loaded? && !IsBlocked(respond(Url(102)).title)
    requires TextAt(respond(Url(102)).doc, PropertyIdCell) != ""
    ensures CrawlFrom(Decide(respond), 100, 103)
         == CrawlResult([BuildItem(Url(100), respond(Url(100)).doc),
                         BuildItem(Url(102), respond(Url(102)).doc)],
                        [100, 101, 102], false)
  {
    var d := Decide(respond);
    assert d(100) == Recorded(BuildItem(Url(100), respond(Url(100)).doc));
    assert d(101) == FetchFailed;
    assert d(102) == Recorded(BuildItem(Url(102), respond(Url(102)).doc));
    FailedFetchSkipped(d, BuildItem(Url(100), respond(Url(100)).doc),
                       BuildItem(Url(102), respond(Url(102)).doc));
  }

  // ---------------------------------------------------------------------
  // The browser and the loop
  // ---------------------------------------------------------------------

  /**
    The browser session. What loading a url yields comes from outside and
    is the fixed function `respond`; the session remembers, as ghost state,
    the urls it was asked for and how often it was quit.
  */
  class Driver {
    const respond: string -> Visit
    ghost var requested: seq<string>
    ghost var quits: nat

    constructor (respond: string -> Visit)
      ensures this.respond == respond
      ensures requested == [] && quits == 0
    {
      this.respond := respond;
      requested := [];
      quits := 0;
    }

    /** `driver.get(url)` and the reads of the loaded page; a session that was quit takes no request. */
    method Get(url: string) returns (v: Visit)
      requires quits == 0
      modifies this
      ensures v == respond(url)
      ensures requested == old(requested) + [url]
      ensures quits == old(quits)
    {
      requested := requested + [url];
      v := respond(url);
    }

    /** `driver.quit()`. */
    method Quit()
      modifies this
      ensures quits == old(quits) + 1
      ensures requested == old(requested)
    {
      quits := quits + 1;
    }
  }

  /** The ids `start .. end - 1`, in order. */
  function Range(start: int, end: int): seq<int>
    decreases end - start
  {
    if start >= end then [] else Range(start, end - 1) + [end - 1]
  }

  /** The records the loop has appended once it has handled the ids `start .. end - 1`. */
  function RecordsUpTo(d: int -> Outcome, start: int, end: int): seq<Item>
    decreases end - start
  {
    if start >= end then []
    else RecordsUpTo(d, start, end - 1) + (if d(end - 1).Recorded? then [d(end - 1).item] else [])
  }

  /** No id of `start .. end - 1` aborts. */
  ghost predicate NoAbortUpTo(d: int -> Outcome, start: int, end: int)
    decreases end - start
  {
    start >= end || (NoAbortUpTo(d, start, end - 1) && !d(end - 1).Aborted?)
  }

  /**
    The loop splits at any id `m` that it reaches: the ids before `m`, with
    their records, and then the loop from `m`.
  */
  lemma {:induction false} CrawlSplit(d: int -> Outcome, start: int, m: int, end: int)
    requires start <= m <= end
    requires NoAbortUpTo(d, start, m)
    ensures CrawlFrom(d, start, end)
         == Then(CrawlResult(RecordsUpTo(d, start, m), Range(start, m), false), CrawlFrom(d, m, end))
    decreases m - start
  {
    if m > start {
      CrawlSplit(d, start, m - 1, end);
      ThenAssociative(CrawlResult(RecordsUpTo(d, start, m - 1), Range(start, m - 1), false),
                      One(m - 1, d(m - 1)), CrawlFrom(d, m, end));
    }
  }

  /** An id that aborts ends the loop: it is the last id visited, and the records are those before it. */
  lemma AbortStep(d: int -> Outcome, start: int, id: int, end: int)
    requires start <= id < end
    requires NoAbortUpTo(d, start, id)
    requires d(id).Aborted?
    ensures CrawlFrom(d, start, end) == CrawlResult(RecordsUpTo(d, start, id), Range(start, id + 1), true)
  {
    CrawlSplit(d, start, id, end);
    assert Range(start, id + 1) == Range(start, id) + [id];
    assert CrawlFrom(d, id, end) == CrawlResult([], [id], true);
    assert RecordsUpTo(d, start, id) + [] == RecordsUpTo(d, start, id);
  }

  /** Handling one more id appends it to the visited ids, and its record, if any, to the records. */
  lemma NextStep(d: int -> Outcome, start: int, id: int, item: Option<Item>)
    requires start <= id && NoAbortUpTo(d, start, id) && !d(id).Aborted?
    requires item == if d(id).Recorded? then Some(d(id).item) else None
    ensures NoAbortUpTo(d, start, id + 1)
    ensures RecordsUpTo(d, start, id + 1) == RecordsUpTo(d, start, id) + (if item.Some? then [item.value] else [])
  {
  }

  /** The session's request log once the loop has requested the ids `start .. end - 1` after `before`. */
  function RequestLog(before: seq<string>, start: int, end: int): seq<string>
    decreases end - start
  {
    if start >= end then before else RequestLog(before, start, end - 1) + [Url(end - 1)]
  }

  /** The log holds the urls of those ids, in order, after what was requested before. */
  lemma {:induction false} RequestLogUrls(before: seq<string>, start: int, end: int)
    ensures RequestLog(before, start, end) == before + Urls(Range(start, end))
    decreases end - start
  {
    if start < end {
      RequestLogUrls(before, start, end - 1);
      UrlsAppend(before, Range(start, end - 1), end - 1);
    }
  }

  /** When no id of the range aborts, the loop handles them all. */
  lemma FinishStep(d: int -> Outcome, start: int, id: int, end: int)
    requires id == if start < end then end else start
    requires NoAbortUpTo(d, start, id)
    ensures CrawlFrom(d, start, end) == CrawlResult(RecordsUpTo(d, start, id), Range(start, id), false)
  {
    if start < end {
      CrawlSplit(d, start, id, end);
      assert CrawlFrom(d, id, end) == CrawlResult([], [], false);
      assert RecordsUpTo(d, start, id) + [] == RecordsUpTo(d, start, id);
      assert Range(start, id) + [] == Range(start, id);
    }
  }

  /**
    One iteration of the loop, for one id: request its page, then skip it
    (an `Exception`, a CAPTCHA title, an empty property-id cell) or build
    its record. `escapes` reports an exception outside `Exception`, which
    ends the loop.
  */
  method ScrapeOne(driver: Driver, id: int) returns (escapes: bool, item: Option<Item>)
    requires driver.quits == 0
    modifies driver
    ensures driver.quits == 0
    ensures driver.requested == old(driver.requested) + [Url(id)]
    ensures escapes <==> Decide(driver.respond)(id).Aborted?
    ensures item == if Decide(driver.respond)(id).Recorded? then Some(Decide(driver.respond)(id).item) else None
  {
    var url := Url(id);
    var v := driver.Get(url);
    assert Decide(driver.respond)(id) == Classify(url, v);
    escapes, item := false, None;
    if v.Aborts? {
      escapes := true;
    } else if v.Raises? {
      // caught by `except Exception`: on to the next id
    } else if IsBlocked(v.title) {
      // CAPTCHA page: skipped
    } else {
      var propertyIdText := TextAt(v.doc, PropertyIdCell);
      if propertyIdText != "" {
        item := Some(BuildItem(url, v.doc));
      }
    }
  }

  /**
    The `try` block of `main`: the loop over `range(start, end)`. The urls
    requested are those of the visited ids, in order; `escaped` reports an
    exception that left the loop, and otherwise `results` holds exactly the
    records of the specification.
  */
  method CrawlLoop(driver: Driver, start: int, end: int) returns (results: seq<Item>, escaped: bool)
    requires driver.quits == 0
    modifies driver
    ensures driver.quits == 0
    ensures driver.requested == old(driver.requested) + Urls(CrawlFrom(Decide(driver.respond), start, end).visited)
    ensures escaped == CrawlFrom(Decide(driver.respond), start, end).aborted
    ensures !escaped ==> results == CrawlFrom(Decide(driver.respond), start, end).records
  {
    ghost var d := Decide(driver.respond);
    ghost var before := driver.requested;
    results, escaped := [], false;
    var id := start;
    while id < end
      invariant start <= id && (id <= end || id == start)
      invariant driver.quits == 0
      invariant driver.requested == RequestLog(before, start, id)
      invariant NoAbortUpTo(d, start, id)
      invariant results == RecordsUpTo(d, start, id)
      decreases end - id
    {
      var escapes, item := ScrapeOne(driver, id);
      assert escapes <==> d(id).Aborted?;
      if escapes {
        AbortStep(d, start, id, end);
        RequestLogUrls(before, start, id + 1);
        escaped := true;
        return;
      }
      NextStep(d, start, id, item);
      if item.Some? {
        results := results + [item.value];
      }
      id := id + 1;
    }
    FinishStep(d, start, id, end);
    RequestLogUrls(before, start, id);
  }

  /**
    `main` without its I/O: the loop, then the `finally` that quits the
    session exactly once however the loop ended; the records reach the
    output file (`Some`) exactly when no exception escaped.
  */
  method Scrape(driver: Driver, start: int, end: int) returns (saved: Option<seq<Item>>)
    requires driver.quits == 0
    modifies driver
    ensures driver.quits == 1
    ensures driver.requested == old(driver.requested) + Urls(CrawlFrom(Decide(driver.respond), start, end).visited)
    ensures saved == if CrawlFrom(Decide(driver.respond), start, end).aborted then None
                     else Some(CrawlFrom(Decide(driver.respond), start, end).records)
  {
    var results, escaped := CrawlLoop(driver, start, end);
    driver.Quit();
    if escaped {
      saved := None;
    } else {
      saved := Some(results);
    }
  }
}
