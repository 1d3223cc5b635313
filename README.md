# scrapePR crawl core in Dafny

This project models the crawl and deduplication core of `scrapePR.py`, a crawler for press-release listings:

- `scrape_page` walks one index page, reads the link of each news card, and keeps the links that are not yet in `processed_links`.
- `fetch_article_details` fetches one article and takes the content region of the inline-gallery template, or else of the static-gallery template. It counts matches of the keyword pattern `venture|VC|series|round|valuation|unicorn` (case-insensitive) with `findall`. When there are at least two, it writes the text to a file named after the link's last path segment, with unsafe characters replaced by `_`. It returns the link only when that file was written.
- `main` repeats the following until a page yields no new link or an exception leaves the loop:
  - scrape the page at the cursor;
  - hand its links to `executor.map(fetch_article_details, …)`;
  - append the truthy results to `processed_links`;
  - save `progress.json` when the page number is a multiple of ten;
  - move the cursor on.
- At start-up the cursor comes from `current_page_count.txt` (default 1), and `processed_links` from `progress.json` (default empty).

Modules:

- `Wrappers`: `Option`.
- `Findall`: the left-to-right, non-overlapping scan behind `re.findall`, generic over a matcher, with its contract and its uniqueness.
- `Keywords`: the keyword pattern, as the list `Alternatives`, and the `>= 2` rule. The rule is shown equivalent to "two non-overlapping keyword occurrences".
- `Slug`: the output file name.
- `Article`: `fetch_article_details`, as a function from a link, the reachable articles and the output folder to a result and a new folder.
- `Crawl`:
  - `scrape_page`, a method with a loop proved equal to `NewLinks`;
  - `executor.map`, as a fold in link order;
  - one iteration of `main`, `PageStep`, and the whole run, `CrawlFrom`;
  - the class `Crawler`, whose fields are the globals, the progress file and the output folder. Its `MainLoop` method is proved to end in the state `CrawlFrom` describes.

### Behaviour of scrapePR.py worth knowing

- An article below the keyword threshold is not marked processed. Only links whose file was written enter `processed_links`, so a rejected article is fetched again on every later visit of its page. `StepRecordsSavedLinks` and `ThreeLinkPage` state this.
- Errors are printed and the link is dropped; nothing is logged to a file.
- The listing query has a fixed date, and the cursor file is read but never written.
- The loop ends when `scrape_page` returns an empty list. That list comes from a listing whose cards are all malformed or carry processed links, including a listing with no cards (`StopsExactlyWhenNothingNew`). A listing that never appears makes the wait raise, and `main`'s handler ends the loop without saving (`Crashed`).
- The five workers of `executor.map` share the one browser `driver`. A worker's `driver.get` can replace the page that another worker is about to read, so the text read for a link, and the file saved under its name, can belong to a different article.
- `processed_links` is a list, not a set. A link carried twice by one new page is fetched twice and, when its article is saved, recorded twice (`InPageDuplicateRecordedTwice`).

## Model

| member | source | states |
|---|---|---|
| Findall.Scan | scrapePR.py:65 | as no match is empty, `findall` returns at most as many matches as characters remain |
| Findall.ScanIsScan | scrapePR.py:65 | the scan `findall` performs returns leftmost, non-overlapping matches, each resuming at the previous match's end, and nothing after the last |
| Findall.ScanUnique | scrapePR.py:65 | any list of hits meeting that contract is exactly the scan's result, so the contract determines `findall` |
| Findall.ScanSkipsGap | scrapePR.py:65 | positions where nothing matches do not change what the scan finds |
| Findall.IsScanSound | scrapePR.py:65 | every hit is a real match of the pattern inside the text, at or after the start |
| Findall.IsScanOrdered | scrapePR.py:65 | hits come left to right and never overlap |
| Findall.ScanCovers | scrapePR.py:65 | every position where the pattern matches lies inside some hit |
| Findall.ScanSeesOnlyMatches | scrapePR.py:65 | two texts on which the pattern matches alike get the same hits |
| Findall.HitIsMatch | scrapePR.py:65 | each hit is a match of the pattern at its start, of its length |
| Findall.TwoMatchesApart | scrapePR.py:65-67 | two matching positions that no single match spans give at least two hits |
| Keywords.FirstMatch | scrapePR.py:44-45 | the alternation picks the first keyword, in pattern order, that matches at a position, and none when no keyword matches |
| Keywords.KeywordAt | scrapePR.py:44-45 | a match of the pattern is non-empty and inside the text |
| Keywords.OccursMatches | scrapePR.py:44-45 | wherever a keyword occurs, ignoring case, the pattern matches |
| Keywords.MatchOccurs | scrapePR.py:44-45 | every match of the pattern is an occurrence of one keyword, of that keyword's length |
| Keywords.NotNested | scrapePR.py:44 | no keyword occurs strictly inside another, ignoring case |
| Keywords.OccurrenceNotInside | scrapePR.py:44-45 | a keyword occurrence that starts within another one reaches at least to that one's end |
| Keywords.FindKeywords | scrapePR.py:65 | the matches of the keyword pattern form a leftmost, non-overlapping scan of the whole text |
| Keywords.CountKeywords | scrapePR.py:65-67 | the number of matches is zero exactly when no keyword occurs anywhere in the text |
| Keywords.Accepted | scrapePR.py:64-67 | `len(findall(text)) >= 2` holds exactly when the text has two non-overlapping keyword occurrences |
| Keywords.AcceptedTwoApart | scrapePR.py:64-67 | an accepted text holds two non-overlapping keyword occurrences |
| Keywords.TwoApartAccepted | scrapePR.py:64-67 | a text with two non-overlapping keyword occurrences is accepted |
| Keywords.FirstMatchIgnoresCase | scrapePR.py:45 | texts equal up to ASCII case pick the same alternative at every position |
| Keywords.CountIgnoresCase | scrapePR.py:45-67 | texts equal up to ASCII case get the same matches, the same count and the same decision |
| Slug.LastSegment | scrapePR.py:68 | `link.split('/')[-1]` holds no `/` and is no longer than the link |
| Slug.Sanitize | scrapePR.py:69 | the title keeps its length and no unsafe character is left |
| Slug.FileName | scrapePR.py:68-70 | the file name is as long as the last segment plus four, ends in `.txt` and holds no unsafe character |
| Slug.LastSegmentIsLastPart | scrapePR.py:68 | `link.split('/')[-1]` is a suffix of the link, and the longest one without `/`: it is the whole link or follows a `/` |
| Slug.SanitizeReplaces | scrapePR.py:69 | every unsafe character becomes `_` and every other character is kept |
| Slug.SanitizeIdempotent | scrapePR.py:69 | sanitising a sanitised title changes nothing |
| Slug.SanitizeKeepsSafe | scrapePR.py:69 | a title without unsafe characters is kept verbatim |
| Slug.FileNameBySegment | scrapePR.py:68-70 | links with equal last segments share a file; with safe segments, links share a file exactly when their segments are equal |
| Slug.LastSegmentAfterSlash | scrapePR.py:68 | a link ending in `/` and a slash-free segment has that segment as its last one |
| Slug.CollidingPaths | scrapePR.py:68-70 | distinct links with the same last segment under different paths write the same file |
| Slug.SanitizeUnsafeAlike | scrapePR.py:69 | titles that differ only where both hold an unsafe character sanitise to the same name |
| Slug.CollidingUnsafe | scrapePR.py:68-70 | distinct links whose last segments differ only in unsafe characters write the same file |
| Article.Classify | scrapePR.py:47-88 | a fetch error (no link or unreachable article), a missing content region, too few matches, a failed write and a written file each occur exactly in their case; the file name comes from the link, and the saved text is the content |
| Article.FetchArticleDetails | scrapePR.py:47-88 | returns the link or None; returns the link exactly when the content exists, is accepted and its file is written; the folder then maps the file name to the content, otherwise it is unchanged |
| Article.ResultIgnoresFolder | scrapePR.py:67-82 | whether a link is saved does not depend on the folder's prior contents |
| Article.InlineGalleryFirst | scrapePR.py:55-58 | when the inline-gallery template is present, the static-gallery one plays no part |
| Article.NoTemplateNoFile | scrapePR.py:55-60 | with neither template, nothing is written and None is returned |
| Crawl.NewLinks | scrapePR.py:103-114 | no more links than cards, and none of them already processed |
| Crawl.ScrapePage | scrapePR.py:90-114 | a listing that never appears raises; otherwise the appending loop yields exactly `NewLinks` of the cards |
| Crawl.NewLinksCounts | scrapePR.py:103-114 | each unprocessed link appears as often as cards carry it, processed links never appear, and each card without `href` gives one None |
| Crawl.NewLinksConcat | scrapePR.py:103-114 | links keep document order: the cards of two runs give their links one after the other |
| Crawl.NewLinksEmpty | scrapePR.py:103-114 | a page gives no link exactly when every card is malformed or carries a processed link |
| Crawl.FetchAll | scrapePR.py:134 | `executor.map` gives one result per link |
| Crawl.FetchFromIgnoresFiles | scrapePR.py:67-82 | whether `fetch_article_details` returns the link does not depend on the files already in the folder |
| Crawl.FetchAllResults | scrapePR.py:134 | for any fetch function whose result ignores the folder, `fetch_article_details` included, the i-th result is what one call on the i-th link returns |
| Crawl.FetchAllKeeps | scrapePR.py:134 | for any fetch function, a batch whose every call leaves a file name alone leaves it alone: present exactly when it was, with the same text |
| Crawl.FetchAllWrites | scrapePR.py:134 | for any fetch function, a file name holds what a call wrote into it when every later call of the batch leaves it alone |
| Crawl.CallKeeps | scrapePR.py:67-82 | a call of `fetch_article_details` that does not save into a file name leaves that file as it was, whatever the folder holds |
| Crawl.CallWrites | scrapePR.py:67-82 | a call of `fetch_article_details` that saves leaves its content under its file name, whatever the folder holds |
| Crawl.FetchAllLastWriteWins | scrapePR.py:70-75 | a saved link's file holds its content unless a later saved link of the batch writes the same file |
| Crawl.FetchAllFrame | scrapePR.py:134 | a file name that no saved link of the batch writes is present after `executor.map` exactly when it was before, with the same text, so rejected and contentless articles, and articles whose write raises, write nothing |
| Crawl.Truthy | scrapePR.py:137 | the comprehension keeps no more values than there are results |
| Crawl.TruthyKeeps | scrapePR.py:137 | the comprehension keeps exactly the results that are present and non-empty |
| Crawl.SavedLinks | scrapePR.py:67-82 | a link is among the saved links exactly when it is non-empty, is on the page, and one call of `fetch_article_details` on it saves its article |
| Crawl.TruthyFetchAll | scrapePR.py:134-137 | filtering the batch's results gives the saved links, in link order and with repetitions |
| Crawl.StepAppendsSavedLinks | scrapePR.py:134-137 | a completed page extends `processed_links` by exactly its saved new links, in order |
| Crawl.StepRecordsSavedLinks | scrapePR.py:134-137 | the links a page adds are exactly its non-empty new links that `fetch_article_details` saved |
| Crawl.PageStep | scrapePR.py:126-143 | a listing that never appears crashes the loop; an empty link list ends it; otherwise `processed_links` grows, the cursor moves by one, and the progress file is overwritten exactly on a multiple of ten |
| Crawl.CrawlFrom | scrapePR.py:121-147 | over a whole run `processed_links` only grows, the cursor moves once per completed page, a run completing no page changes nothing, and when the last completed page is numbered by a multiple of ten, the file equals `processed_links` |
| Crawl.NeverRefetched | scrapePR.py:109-110 | no link that was processed when a run began is handed to `fetch_article_details` during it |
| Crawl.Crawler.constructor | scrapePR.py:29-42 | the cursor is the cursor file's value or 1; `processed_links` is the progress file's list or empty |
| Crawl.Crawler.SaveProgress | scrapePR.py:116-119 | the progress file holds the current `processed_links` |
| Crawl.Crawler.VisitPage | scrapePR.py:127-143 | one loop iteration leaves the state unchanged when it stops, and otherwise changes it exactly as `PageStep` says |
| Crawl.Crawler.MainLoop | scrapePR.py:121-147 | the loop ends in the state and for the reason `CrawlFrom` gives, and `processed_links` only grows |
| Crawl.SaveCadence | scrapePR.py:139-143 | the progress file is untouched for the first `(-c) % 10` pages from cursor `c`; after more pages, it holds a snapshot between the start and the final `processed_links` |
| Crawl.PagesToNextSave | scrapePR.py:140-143 | `(-c) % 10` pages separate cursor `c` from the next save page, and each page that is not a save page brings it one closer |
| Crawl.StopsExactlyWhenNothingNew | scrapePR.py:127-131 | the loop stops on a listing exactly when every card is malformed or carries a processed link; a page of cards without `href` does not stop it |
| Crawl.ThreeLinkPage | scrapePR.py:127-143 | links `a`, `b`, `c` with no content, three matches and one match: only `b` is saved and recorded, and `c` is not marked processed |
| Crawl.InPageDuplicateRecordedTwice | scrapePR.py:109-110 | a saved link on two cards of one new page is recorded twice |

## Left out

- The browser and the HTML parser are not modelled: Selenium waits, `driver.get`, and BeautifulSoup lookups, `decompose` and `get_text`. An index page is given as its list of cards, or as unavailable. An article is given as the text under each template plus whether writing its file succeeds. A link missing from the corpus stands for every exception raised while fetching it.
- The articles are a snapshot fixed for the whole run: each link has one outcome on every call. Transient failures of `driver.get` or of the 20-second wait, network errors, and pages that change between two fetches are not modelled. `InPageDuplicateRecordedTwice`, `FetchAllResults` and every statement about refetching a link rely on this.
- File and JSON I/O are modelled as state:
  - the cursor file as an `Option<int>`;
  - the progress file as an `Option<seq<string>>` holding the list under `'links'`;
  - the output folder as a map from file name to text.
- A malformed cursor file, a progress file without `'links'`, an exception raised by `save_progress`, and the truncated file left when `write` raises after `open` succeeds are not modelled.
- Article.FetchArticleDetails: a `print` that raises is not modelled. If the `print` after a successful write raises, the source returns None with the file already written; `FetchArticleDetails` instead leaves the folder unchanged whenever it returns None. If the handler's own `print` raises as well, the exception leaves `fetch_article_details` and `executor.map`, and `main` ends the loop in the middle of the page without extending `processed_links`; the model has no such outcome.
- The five-worker thread pool is modelled sequentially, in link order. Its threads share the single browser driver, so one worker's `driver.get` can replace the page another worker is about to read through `page_source`. In the source, a link's result, and the text saved under its name, can therefore come from another article. `FetchAllResults`, `FetchAllLastWriteWins`, `FetchAllFrame` and everything built on `FetchAll` hold only for the sequential schedule.
- Case-insensitive matching folds ASCII letters only. Python's Unicode case folding is not modelled.
- `print` output, the URL template with its fixed date, and `driver.quit` are not modelled.
- The index of pages is a finite map. A page number outside it is a listing that never appears. This bounds the run, which the source leaves to the site.
- Crawl.FetchAll: its contract states only the number of results, because it holds for any fetch function. Its per-link results, for `fetch_article_details`, are stated by `FetchAllResults`.
- Crawl.Crawler.MainLoop: it is generic over the fetch function. `FetchFrom(corpus)` instantiates it with `fetch_article_details`.
