# Bayut listing scraper, modelled in Dafny

`selenium_scraper.py` walks a fixed range of Bayut property ids. For each id it:
- loads the listing page in a headless browser;
- skips the page when the browser raised an exception, when the title reports a CAPTCHA, or when the property-id cell is empty;
- otherwise builds a sixteen-field record from the page's elements.

It quits the browser once after the loop, in a `finally`. Then it writes the records as JSON. The record's text fields go through three accessors (`get_text`, `get_image_url`, `get_image_urls`). The price goes through a regular-expression parser (`extract_price`). The bed/bath/size line goes through an inline positional parse. A second, keyword-driven parser (`extract_bed_bath_size`) is defined but never called.

The project models these in seven modules:

- `Wrappers`: `Option`.
- `Strings`: the Python `str` operations the scraper uses: `strip`, `split`, `lower`, `isdigit`, `in`, `replace(x, '')`, and filtering to digits. Character classes are restricted to ASCII (see "Left out").
- `Dom`: the parsed document reduced to tags with a name, attributes and ordered children, plus the three element accessors.
- `PriceParse`: `extract_price`. `re.search` for `([£$€¥AED]+)\s*([\d,]+)` becomes a leftmost scan that takes the greedy match at each start. The lemmas prove that this is exactly the regular-expression match: the three character classes do not overlap, so backtracking never finds anything else.
- `BedBath`: two things.
  - `extract_bed_bath_size` as a method with its loop over the tokens, proved equal to a specification function. Lemmas about that function state what each field holds.
  - The positional parse as a function.
- `Record`: the element lookups, the record with its sixteen keys in order, and its round trip through the key/value form in which it is written.
- `Crawl`: the whole loop, in two forms.
  - Methods over a browser session `Driver`, whose ghost state records the urls requested and the number of quits. `ScrapeOne` is one iteration, `CrawlLoop` the `while` loop over the range, and `Scrape` the loop followed by the `finally` that quits.
  - A specification function `CrawlFrom`. The loop is proved equal to it, and the ordering, bounds and record properties are proved about it.

What the browser yields for a url is a parameter, `respond: string -> Visit`:
- `Raises`: an `Exception` raised during the iteration, which the loop catches;
- `Aborts`: an exception outside `Exception`, which escapes the loop;
- `Loaded(title, doc)`: the page, with the element each selector finds.

Behaviour of the code that is easy to misread, and that the model keeps:
- In `extract_bed_bath_size` the last qualifying token wins, not the first. A token with a comma, such as `1,200`, is never numeric, so on the tokens of "3 Beds 2 Baths 1,200 sqft" the area stays empty (`KeywordScanOnSpaced`).
- The price pattern's `\s*` also matches no whitespace: "AED1,000" has a price (`ExtractPriceUnspaced`).
- An exception that escapes the loop quits the browser in the `finally`. It then propagates past the JSON dump, so no records are saved. `Scrape` returns `None` in that case.
- Each field has exactly one selector; there are no fallback chains. The permit-number selector uses `nth-child` where the others use `nth-of-type`, so it is a lookup of its own.

## Model

| member | source | states |
|---|---|---|
| Strings.IsDigitString | selenium_scraper.py:46 | `str.isdigit()` on ASCII: non-empty and all digits, so false on `''`; `IsNumeric` and `Positional` are stated through it |
| Strings.Contains | selenium_scraper.py:48-52 | `sub in s`: `sub` occurs at some position of `s`; `TargetPriority` and `BlockedAnyCase` are stated through it |
| Strings.RemoveChar | selenium_scraper.py:46 | `s.replace(x, '')` is no longer than `s` and holds no `x` |
| Strings.RemoveCharLeavesDigits | selenium_scraper.py:62 | removing `x` from a string of digits and `x`s leaves digits only |
| Strings.RemoveCharKeeps | selenium_scraper.py:46 | removing `x` keeps every other character of the string |
| Strings.RemoveCharAppend | selenium_scraper.py:46 | removal works on each part of a concatenation: the result of `a + b` is that of `a` followed by that of `b` |
| Strings.RemoveCharSingle | selenium_scraper.py:46 | a single character is dropped if it is `x` and kept otherwise; with the append lemma this pins the result character by character, order and counts included |
| Strings.RemoveCharIsDigitFilter | selenium_scraper.py:62 | on a string of digits and `x`s, with `x` not a digit, removing `x` is the same as keeping the digits, so the result holds exactly the digits of the input, in order |
| Strings.DigitFilter | selenium_scraper.py:133-134 | `''.join(filter(str.isdigit, s))` is made of digits and is no longer than `s` |
| Strings.DigitFilterKeepsDigits | selenium_scraper.py:133-134 | a character is in the filtered string iff it is a digit of `s` |
| Strings.DigitFilterOfDigits | selenium_scraper.py:133-134 | a string of digits passes the filter unchanged |
| Strings.DigitFilterAppend | selenium_scraper.py:133-134 | the digits of `a + b` are the digits of `a` followed by those of `b` |
| Strings.DigitFilterSingle | selenium_scraper.py:133-134 | a single character passes iff it is a digit |
| Strings.DigitFilterPlaces | selenium_scraper.py:133-134 | a digit at index `i` of `s` appears in the result at the index given by the number of digits before it |
| Strings.DigitFilterExact | selenium_scraper.py:133-134 | the result holds exactly the digits of `s`, each at the place fixed by the digits before it, so in their order in `s`; a string of digits is returned whole |
| Strings.SkipSpace | selenium_scraper.py:26 | the scan from a position passes only whitespace and stops at the end or at a non-whitespace character |
| Strings.SkipSpaceBack | selenium_scraper.py:26 | the backward scan to a position passes only whitespace and stops at the start or after a non-whitespace character |
| Strings.Strip | selenium_scraper.py:26 | `strip()` is a slice of its input with only whitespace around it, and has no whitespace at either end |
| Strings.StripIdempotent | selenium_scraper.py:26 | stripping twice is stripping once |
| Strings.SkipWord | selenium_scraper.py:43 | the scan over a token passes only non-whitespace and stops at the end or at whitespace |
| Strings.Split | selenium_scraper.py:43 | `str.split()` with no argument, defined as the scan from the start; `SplitWords`, `SplitKeepsNonSpace`, `SplitTokenBounds` and `SplitTokensInOrder` state what its tokens are and in what order |
| Strings.SplitWords | selenium_scraper.py:43 | every token of `split()` is non-empty and holds no whitespace |
| Strings.SplitKeepsNonSpace | selenium_scraper.py:43 | the concatenated tokens are exactly the non-whitespace characters of the input, in order |
| Strings.SplitTokenBounds | selenium_scraper.py:43 | each token is a slice `s[j..e]` of the input that is preceded by whitespace or the start and followed by whitespace or the end, so a maximal run of non-whitespace |
| Strings.SplitTokensInOrder | selenium_scraper.py:43 | all the tokens at once: token `k` is the maximal non-whitespace slice `s[js[k]..es[k]]`, and each token ends before the next one starts, so the list follows the text |
| Strings.Lower | selenium_scraper.py:48 | `str.lower()` on ASCII, character by character; `LowerSlice` states how it meets slicing |
| Strings.LowerSlice | selenium_scraper.py:99 | lowering commutes with slicing |
| Dom.TextOf | selenium_scraper.py:26 | `element.get_text()`: the text nodes below the element, concatenated in document order; `GetText` states what `get_text` makes of it |
| Dom.Named | selenium_scraper.py:36 | filtering by tag name keeps only tags with that name, and every such tag |
| Dom.NamedAppend | selenium_scraper.py:36 | filtering by name works on each part of a concatenation, so it keeps the tags' order |
| Dom.Src | selenium_scraper.py:31 | `img.get('src', '')` is the `src` attribute when there is one, and is non-empty only when there is one |
| Dom.Sources | selenium_scraper.py:37 | the comprehension lists no more urls than images, and no empty url |
| Dom.SourcesAppend | selenium_scraper.py:37 | the urls of a concatenation of images are those of its parts, one after the other, so the filter keeps document order |
| Dom.SourcesSound | selenium_scraper.py:37 | every listed url is the non-empty `src` of one of the images |
| Dom.SourcesComplete | selenium_scraper.py:37 | every image with a non-empty `src` has it listed |
| Dom.GetText | selenium_scraper.py:24-27 | `''` for a missing element; otherwise the element's text with only whitespace cut from both ends, and trimmed |
| Dom.GetImageUrl | selenium_scraper.py:29-32 | non-empty only for an `img` element with a `src`, and then that `src`; `''` for a missing element, a non-`img` element or a missing `src` |
| Dom.GetImageUrls | selenium_scraper.py:34-38 | `[]` for a missing element, and never an empty url |
| Dom.FindAll | selenium_scraper.py:36 | `find_all('img')`: the descendants with that name, in document order; `ImageUrlsOfImages` and `ImageUrlsInDocumentOrder` state what `get_image_urls` makes of it |
| Dom.ImageUrlsOfImages | selenium_scraper.py:34-38 | `[]` for a missing element; otherwise every url is the non-empty `src` of an `img` below the element, and every such `src` is listed |
| Dom.SourcesInOrder | selenium_scraper.py:37 | when every image has a `src`, the urls are those `src` values one for one, in order |
| Dom.ImageUrlsOnePerImage | selenium_scraper.py:34-38 | when every `img` below the element has a `src`, the urls follow the images in document order, one each |
| Dom.ImagesOfAppend | selenium_scraper.py:36-37 | the image urls of a concatenation of tags are those of its parts, one after the other |
| Dom.ImagesOfSingle | selenium_scraper.py:36-37 | a single `img` with a `src` contributes exactly its url |
| Dom.ImageUrlsInDocumentOrder | selenium_scraper.py:34-38 | for any element, whatever images without a `src` it holds: of two `img` tags with a `src`, the one earlier in the document has its url listed earlier |
| PriceParse.Run | selenium_scraper.py:59 | the run of one character class at a position is maximal: it stops at the end or at a character outside the class |
| PriceParse.RunBounds | selenium_scraper.py:59 | any run of a class at a position is no longer than the maximal run, and equals it when the next character is outside the class |
| PriceParse.MatchAt | selenium_scraper.py:59 | the greedy attempt at a start, when it succeeds, is a match of the pattern whose amount run cannot be extended |
| PriceParse.CurrencyRunForced | selenium_scraper.py:59 | every match at a start has the whole currency run there as its currency part |
| PriceParse.SpaceRunForced | selenium_scraper.py:59 | every match at a start has the whole whitespace run after its currency as its whitespace part |
| PriceParse.GreedyIsForced | selenium_scraper.py:59 | every match at a start has the greedy currency and whitespace parts and an amount no longer than the greedy one |
| PriceParse.GreedyFailsOnlyWithoutMatch | selenium_scraper.py:59 | when the greedy attempt fails, the pattern matches at no length at that start |
| PriceParse.FirstFromFound | selenium_scraper.py:59 | the scan's hit, when there is one, is a successful attempt at a start within the scanned range |
| PriceParse.FirstFromSkips | selenium_scraper.py:59 | every start the scan passes over, before its hit or up to the end when there is none, fails |
| PriceParse.Search | selenium_scraper.py:59-60 | `re.search`: `None` iff the pattern matches nowhere; otherwise the greedy match at the leftmost matching start |
| PriceParse.PriceOf | selenium_scraper.py:61-62 | a match yields its currency group, which is non-empty and made of currency characters, and an amount of digits only |
| PriceParse.AmountIsGroupDigits | selenium_scraper.py:59-62 | the amount of a match is its amount group with every comma removed, which is exactly the digits of that group, in order |
| PriceParse.ExtractPrice | selenium_scraper.py:56-63 | the currency is empty iff the pattern matches nowhere, the empty text included; an empty currency has an empty amount; the currency uses only `£$€¥AED`; the amount is digits only |
| PriceParse.ExtractPriceFromSearch | selenium_scraper.py:59-62 | a non-empty price comes from the leftmost match, the one `Search` finds |
| PriceParse.SearchGroupsMaximal | selenium_scraper.py:59-61 | the currency group of the match found cannot be extended to either side, and its amount group cannot be extended to the right |
| PriceParse.LeftmostMatchIsMaximal | selenium_scraper.py:59 | a match at the leftmost start takes a whole run of currency characters |
| PriceParse.ExtendLeft | selenium_scraper.py:59 | a match preceded by a currency character is also a match one position earlier |
| PriceParse.MatchFromRuns | selenium_scraper.py:59 | the greedy attempt takes the three runs it finds when the currency and amount runs are non-empty |
| PriceParse.PriceAtStart | selenium_scraper.py:59-62 | when the greedy attempt succeeds at the first position, the price is its currency group and its amount group without commas |
| PriceParse.SpacedHeaderMatch | selenium_scraper.py:59 | on "AED 1,250,000" the pattern matches at the start with currency "AED", one space and a nine-character amount |
| PriceParse.ExtractPriceSpaced | selenium_scraper.py:56-63 | "AED 1,250,000" gives currency AED, amount 1250000 |
| PriceParse.ExtractPriceUnspaced | selenium_scraper.py:59-62 | "AED1,000" gives currency AED, amount 1000: the whitespace is optional |
| PriceParse.NoAmountNoPrice | selenium_scraper.py:59-63 | a text without digits and commas gives the empty price |
| PriceParse.ExtractPriceCommaOnly | selenium_scraper.py:59-62 | "AED," gives currency AED with an empty amount: an all-comma amount strips to nothing |
| BedBath.Set | selenium_scraper.py:49-53 | assigning one key changes that key and leaves the other two alone |
| BedBath.IsNumeric | selenium_scraper.py:46 | `part.isdigit() or part.replace('.', '').isdigit()`; `NumericHasNoComma` and `GroupedAreaNotNumeric` state its consequences |
| BedBath.NumericHasNoComma | selenium_scraper.py:46 | a token that passes the numeric test holds no comma |
| BedBath.Target | selenium_scraper.py:45-53 | the decision for one token: a field only for a numeric token with a successor, the first of bed, bath, sqft that the lowered successor contains; `TargetPriority` states it |
| BedBath.TargetPriority | selenium_scraper.py:46-53 | keywords are tested in the order bed, bath, sqft: a token goes to the first keyword its successor contains, to no field when it contains none; a token assigned to a field is numeric, comma-free, not the last token, and followed by that field's keyword |
| BedBath.KeywordParse | selenium_scraper.py:40-54 | `extract_bed_bath_size` as a specification function: empty fields for empty text, otherwise the scan of all tokens; `KeywordField` and `KeywordParseEmpty` state what it yields |
| BedBath.ExtractBedBathSize | selenium_scraper.py:40-54 | the loop's result is the scan of all tokens of the text, or the all-empty record for empty text |
| BedBath.KeywordScan | selenium_scraper.py:44-54 | the record after the first `n` tokens, each assigned token overwriting its field; `ScanStep` and `LastMatchWins` state what it holds |
| BedBath.LastIndex | selenium_scraper.py:45-53 | the last token assigned to a field, with no later token assigned to it |
| BedBath.ScanStep | selenium_scraper.py:45-53 | after one more token a field holds that token if it is assigned to the field, and is unchanged otherwise; the last index assigned to the field moves the same way |
| BedBath.LastMatchWins | selenium_scraper.py:45-54 | after the scan each field holds the last token assigned to it, or `''` if there is none |
| BedBath.ScanField | selenium_scraper.py:45-54 | over non-empty tokens, a field is non-empty iff some token was assigned to it, and it then holds the last such token |
| BedBath.KeywordField | selenium_scraper.py:40-54 | a field of `extract_bed_bath_size` is non-empty iff some token qualifies for it; the field then holds the last token assigned to that field, which is numeric, comma-free, not the last token, and followed by the keyword |
| BedBath.KeywordParseEmpty | selenium_scraper.py:41-42 | empty text gives three empty fields |
| BedBath.KeywordScanNoComma | selenium_scraper.py:45-53 | no field of the scan ever holds a comma |
| BedBath.Positional | selenium_scraper.py:131-135 | `beds` is non-empty iff the first token is all digits, and is then that token; all three fields are digits only; `baths` is empty with fewer than 2 tokens, `sqft` with fewer than 4 |
| BedBath.PositionalDigits | selenium_scraper.py:133-134 | `baths` holds exactly the digits of the second token and `sqft` exactly those of the second-to-last, each digit at the place fixed by the digits before it, so in order; a token of digits only is taken whole |
| BedBath.PositionalParse | selenium_scraper.py:128-135 | the inline parse: the positional fields of the tokens, with no tokens for empty text; `Positional` and `PositionalDigits` state the fields |
| BedBath.PositionalParseOfSplit | selenium_scraper.py:129 | the `if bed_bath_size_text else []` guard changes nothing, since splitting empty text gives no tokens |
| BedBath.PositionalOnHeader | selenium_scraper.py:129-135 | on the token list "3", "Beds2", "Baths1,200", "sqft", written out by hand, the positional parse gives 3 beds, 2 baths, 1200 sqft |
| BedBath.NotNumericUnassigned | selenium_scraper.py:46 | a token that fails the numeric test is assigned to no field |
| BedBath.LetterFirstUnassigned | selenium_scraper.py:46 | a token that starts with a character other than a digit or '.' is not numeric and is assigned to no field |
| BedBath.KeywordScanOnHeader | selenium_scraper.py:45-53 | on those tokens the keyword scan finds only the beds |
| BedBath.GroupedAreaNotNumeric | selenium_scraper.py:46 | "1,200" is not numeric: removing the dots leaves its comma |
| BedBath.KeywordScanOnSpaced | selenium_scraper.py:45-53 | on the tokens of "3 Beds 2 Baths 1,200 sqft", written out as the list "3", "Beds", "2", "Baths", "1,200", "sqft", the keyword scan gives 3 beds, 2 baths and no area, since "1,200" is not numeric |
| BedBath.PositionalOnSpaced | selenium_scraper.py:131-135 | on the same tokens the positional parse gives 3 beds, no baths (from "Beds"), 1200 sqft |
| Record.SelectOne | selenium_scraper.py:106 | a lookup finds an element iff the page has one for that selector, and then that element |
| Record.BuildItem | selenium_scraper.py:115-162 | the sixteen fields, each from the lookup of its own selector; `BuildItemShape` states its contract |
| Record.BuildItemShape | selenium_scraper.py:115-162 | the record is well formed, keeps the url, takes the property id from its cell and repeats the amenities as description; for each of the fifteen element-backed fields, a missing element gives an empty string, an empty list, or a price or bed/bath/size record with all parts empty |
| Record.Entries | selenium_scraper.py:145-162 | the record has sixteen entries with the keys in their fixed order |
| Record.FromEntries | selenium_scraper.py:145-162 | a key/value form reads back as a record iff it has the record's keys in order and the right shape of value for each |
| Record.EntriesRoundTrip | selenium_scraper.py:145-162 | writing a record as its key/value form and reading it back gives the record |
| Record.FromEntriesRoundTrip | selenium_scraper.py:145-162 | every well-shaped key/value form is the form of the record it reads back as |
| Record.ItemKeysDistinct | selenium_scraper.py:145-162 | no key appears twice |
| Crawl.DigitChar | selenium_scraper.py:86 | a digit value maps to a digit character |
| Crawl.NatDigits | selenium_scraper.py:86 | the decimal form of a natural number is a non-empty string of digits |
| Crawl.ParseNatDigits | selenium_scraper.py:86 | reading back the decimal form of a natural number gives the number |
| Crawl.DecimalRoundTrip | selenium_scraper.py:86 | reading back the decimal form of an id of either sign gives the id |
| Crawl.Url | selenium_scraper.py:86 | the f-string url of an id; `UrlParts` and `UrlInjective` state its properties |
| Crawl.Decimal | selenium_scraper.py:86 | `str(property_id)` inside the url; `NatDigits` and `DecimalRoundTrip` state that it is a digit string, with a '-' for a negative id, that reads back as the id |
| Crawl.UrlParts | selenium_scraper.py:86 | the url is the fixed prefix, the id's decimal form and the fixed suffix |
| Crawl.UrlInjective | selenium_scraper.py:86 | distinct ids have distinct urls |
| Crawl.Classify | selenium_scraper.py:89-168 | an id is recorded iff its page loaded, the lowered title lacks "captcha" and the property-id cell has text; the loop aborts iff an exception outside `Exception` was raised |
| Crawl.RecordedItem | selenium_scraper.py:106-164 | a recorded item is the one built from the page at its url, with that url and a non-empty property id, and is well formed |
| Crawl.IsBlocked | selenium_scraper.py:99 | "captcha" occurs in the lowered title; `BlockedAnyCase` states that every letter case of the word is caught |
| Crawl.BlockedAnyCase | selenium_scraper.py:99-103 | a title containing the word in any letter case ("Captcha", "CAPTCHA", ...) is blocked, and its page is skipped |
| Crawl.BlockedCapitals | selenium_scraper.py:99-103 | the all-capitals "CAPTCHA", as one instance of that |
| Crawl.CrawlFrom | selenium_scraper.py:85-168 | the loop from an id as a specification function of the decisions per id; `VisitsInOrder`, `RecordsFollowIds`, `RecordedExactly` and the lemmas after them state its properties |
| Crawl.ThenAssociative | selenium_scraper.py:85-164 | running one stretch of the loop after another is associative |
| Crawl.Urls | selenium_scraper.py:85-86 | the urls of a sequence of ids, one for one and in order |
| Crawl.UrlsAppend | selenium_scraper.py:85-90 | requesting one more id adds its url at the end of the requested urls |
| Crawl.VisitsInOrder | selenium_scraper.py:85-168 | the loop visits consecutive ascending ids from the start; it visits the whole range unless an id aborts, and then that id is the last visited and no earlier one aborted |
| Crawl.RecordsFollowIds | selenium_scraper.py:85-164 | the records are those of the recorded ids, one each, in the same order |
| Crawl.RecordedIdsAscending | selenium_scraper.py:85-164 | the recorded ids lie in the range and strictly ascend |
| Crawl.RecordedExactly | selenium_scraper.py:85-164 | an id the loop reaches is recorded iff its decision is `Recorded` |
| Crawl.RecordsAtMostVisited | selenium_scraper.py:85-164 | there are no more records than visited ids |
| Crawl.RecordsBounded | selenium_scraper.py:85-164 | there are at most `end - start` records |
| Crawl.ConfiguredRange | selenium_scraper.py:18-19 | the configured range gives at most 25 records, and all 25 ids are visited unless one aborts |
| Crawl.NothingRecorded | selenium_scraper.py:85-168 | when no id is recorded or aborts, the whole range is visited and nothing is recorded |
| Crawl.RecordsFromPages | selenium_scraper.py:85-164 | each record comes from a page that loaded without a CAPTCHA, is built at its id's url, has a non-empty property id and is well formed |
| Crawl.AllBlockedRecordsNothing | selenium_scraper.py:99-103 | when every page reports a CAPTCHA, nothing is recorded and the loop runs to the end |
| Crawl.EscapeOnlyOnAbort | selenium_scraper.py:89-171 | an exception escapes the loop iff some id raised one outside `Exception` and no earlier id did |
| Crawl.FailedFetchSkipped | selenium_scraper.py:85-168 | over ids 100..102, a failure for 101 between records for 100 and 102 gives both records in id order, with all three ids visited |
| Crawl.FailedFetchBetweenPages | selenium_scraper.py:85-168 | the same, for a browser that raises on 101 and serves valid pages for 100 and 102 |
| Crawl.Driver.Get | selenium_scraper.py:90 | loading a url yields what the browser gives for it, and adds it to the requested urls |
| Crawl.Driver.Quit | selenium_scraper.py:171 | quitting adds one to the quit count |
| Crawl.ScrapeOne | selenium_scraper.py:86-168 | one iteration requests its id's url, escapes iff the id aborts, and yields a record iff the id is recorded, then exactly that record |
| Crawl.CrawlSplit | selenium_scraper.py:85-164 | the loop splits at any id it reaches without an abort: the ids before it with their records, then the loop from that id |
| Crawl.NextStep | selenium_scraper.py:85-164 | handling one more id without an abort appends its record, if it has one, to the records so far |
| Crawl.AbortStep | selenium_scraper.py:85-168 | an id that aborts is the last visited; the records are those of the ids before it |
| Crawl.FinishStep | selenium_scraper.py:85-164 | when no id of the range aborts, the loop visits the whole range and keeps the records of all of it |
| Crawl.RequestLogUrls | selenium_scraper.py:85-90 | the session's requests after the loop has handled some ids are the urls of those ids, in order, after what came before |
| Crawl.CrawlLoop | selenium_scraper.py:83-168 | the loop over the range requests the urls of the visited ids in order, leaves the session open, escapes iff the specification aborts, and otherwise returns exactly the specification's records |
| Crawl.Scrape | selenium_scraper.py:83-177 | the loop, then the `finally` at lines 170-171: the browser is quit exactly once; the urls requested are those of the visited ids, in order; the records are saved iff no exception escaped, and are then exactly the specification's records |

## Left out

- `pages.py`: directory listing, file reads and CSV writing only.
- Browser setup, options and driver download (selenium_scraper.py:67-79): foreign calls. The browser is `respond`, a fixed function from url to `Visit`.
- HTML parsing and CSS-selector evaluation (selenium_scraper.py:95, 106-143): library behaviour. Each `select_one` is a lookup in a map from `Selector` to the first matching element. The selector strings themselves are not modelled.
- `time.sleep(2)` (selenium_scraper.py:92): timing only. It runs only after a successful `driver.get`, so a fetch that raises skips it.
- The JSON file, `ensure_ascii` and every `print` (selenium_scraper.py:87, 100, 112, 165, 168, 173-177): I/O. The saved list is `Scrape`'s result.
- Unicode: `\s`, `\d`, `isdigit`, `split`, `strip` and `lower` are restricted to ASCII.
  - Whitespace is space, tab, line feed, vertical tab, form feed, carriage return and U+001C..U+001F.
  - Digits are '0'..'9'.
  - Lowering maps only 'A'..'Z'.
  - Non-ASCII digits and spaces are not recognised.
- Where inside an iteration an `Exception` is raised (the fetch, the parse, a lookup) is not modelled. Every `Raises` outcome stands for an exception raised between lines 90 and 164, before the record is appended, and skips the id.
- A failing `print` is not modelled. One raised by the print at line 165 comes after the append at line 164, so the record is kept although the handler runs. One raised by the print at line 87 (outside the inner `try`) or at line 168 (inside the handler) escapes the loop.
- The page the browser serves is a fixed function of the url. A browser whose answer for the same url changes over time is not modelled.
- Element truthiness: `if element:` is always true for a found element, so a found element is never treated as missing.
