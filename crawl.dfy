/**
 * The crawl loop of scrapePR.py: `scrape_page`, which lists the links of one
 * index page that are not yet processed, and `main`, which for each page
 * fetches those links, appends the saved ones to `processed_links`, writes
 * the progress file every tenth page and moves the page cursor on, until a
 * page yields no new link or an exception ends the loop.
 *
 * Index pages are given as a finite map from page number to what the browser
 * and parser would produce; a page outside the map is one whose listing never
 * appears, so that the wait in `scrape_page` raises.
 */
module Crawl {
  import opened Wrappers
  import opened Article
  import opened Slug
  import Keywords

  /** One news card of an index page, as the extraction loop of `scrape_page` sees it. */
  datatype Card =
    | Malformed          // the card `div` or its anchor is missing: the lookup raises, the card is skipped
    | NoHref             // the anchor has no `href`: `.get('href')` yields None, which is kept as a link
    | Href(url: string)

  /** What the browser yields for one index page. */
  datatype IndexPage =
    | Unavailable              // the listing never appears: the wait raises out of `scrape_page`
    | Listing(cards: seq<Card>)

  /** The index pages, by page number. */
  type Index = map<int, IndexPage>

  /** `main` saves the progress file on the iteration for page `cursor` when its number is a multiple of ten. */
  predicate IsSavePage(cursor: int) {
    cursor % 10 == 0
  }

  /**
   * The `article_links` of `scrape_page`: the links of the cards in document
   * order, skipping malformed cards and links already in `processed`.
   */
  function NewLinks(cards: seq<Card>, processed: seq<string>): (links: seq<Option<string>>)
    ensures |links| <= |cards|
    ensures forall i :: 0 <= i < |links| && links[i].Some? ==> links[i].value !in processed
  {
    if cards == [] then []
    else
      var init := NewLinks(cards[..|cards| - 1], processed);
      match cards[|cards| - 1]
      case Malformed => init
      case NoHref => init + [None]
      case Href(u) => if u in processed then init else init + [Some(u)]
  }

  /** The page number `main` asks for, as the browser serves it. */
  function PageAt(index: Index, cursor: int): IndexPage {
    if cursor in index then index[cursor] else Unavailable
  }

  /**
   * `scrape_page(current_count)`: None when the page raises, otherwise the
   * new links of its cards, collected by appending in a loop.
   */
  method ScrapePage(page: IndexPage, processed: seq<string>) returns (articleLinks: Option<seq<Option<string>>>)
    ensures page.Unavailable? ==> articleLinks == None
    ensures page.Listing? ==> articleLinks == Some(NewLinks(page.cards, processed))
  {
    if page.Unavailable? {
      return None;
    }
    var cards := page.cards;
    var links: seq<Option<string>> := [];
    for i := 0 to |cards|
      invariant links == NewLinks(cards[..i], processed)
    {
      assert cards[..i + 1][..i] == cards[..i];
      match cards[i]
      case Malformed =>
      case NoHref =>
        links := links + [None];
      case Href(u) =>
        if u !in processed {
          links := links + [Some(u)];
        }
    }
    assert cards[..|cards|] == cards;
    return Some(links);
  }

  /** A function with the signature of `fetch_article_details`, against an output folder. */
  type Fetcher = (Option<string>, map<string, string>) -> Fetched

  /** `fetch_article_details` over the given articles, as the function `executor.map` is handed. */
  function FetchFrom(corpus: Corpus): Fetcher {
    (link, files) => FetchArticleDetails(link, corpus, files)
  }

  /** The results of `executor.map(fetch_article_details, article_links)` and the output folder afterwards. */
  datatype Batch = Batch(results: seq<Option<string>>, files: map<string, string>)

  /**
   * `executor.map(fetch, links)`: one result per link, in the links' order.
   * The files are written one link after the other.
   */
  function FetchAll(links: seq<Option<string>>, fetch: Fetcher, files: map<string, string>): (b: Batch)
    ensures |b.results| == |links|
  {
    if links == [] then Batch([], files)
    else
      var init := FetchAll(links[..|links| - 1], fetch, files);
      var last := fetch(links[|links| - 1], init.files);
      Batch(init.results + [last.result], last.files)
  }

  /** Whether `fetch` returns a link depends only on the link, not on what the folder holds. */
  ghost predicate ResultIgnoresFiles(fetch: Fetcher) {
    forall link, files, other :: fetch(link, files).result == fetch(link, other).result
  }

  /** `fetch_article_details` decides its result whatever the folder holds. */
  lemma FetchFromIgnoresFiles(corpus: Corpus)
    ensures ResultIgnoresFiles(FetchFrom(corpus))
  {
    forall link, files, other
      ensures FetchFrom(corpus)(link, files).result == FetchFrom(corpus)(link, other).result
    {
      ResultIgnoresFolder(link, corpus, files, other);
    }
  }

  /**
   * Each result of `executor.map(fetch, links)` is what one call on that
   * link returns, whatever the calls before it wrote, when the fetch
   * function decides its result from the link alone, as
   * `fetch_article_details` does.
   */
  lemma {:induction false} FetchAllResults(links: seq<Option<string>>, fetch: Fetcher, files: map<string, string>)
    requires ResultIgnoresFiles(fetch)
    ensures forall i :: 0 <= i < |links| ==>
      FetchAll(links, fetch, files).results[i] == fetch(links[i], files).result
  {
    if links != [] {
      var init := links[..|links| - 1];
      var b := FetchAll(init, fetch, files);
      var last := fetch(links[|links| - 1], b.files);
      assert FetchAll(links, fetch, files).results == b.results + [last.result];
      assert last.result == fetch(links[|links| - 1], files).result;
      FetchAllResults(init, fetch, files);
      forall i | 0 <= i < |links|
        ensures FetchAll(links, fetch, files).results[i] == fetch(links[i], files).result
      {
        if i < |init| {
          assert init[i] == links[i];
          assert (b.results + [last.result])[i] == b.results[i];
        }
      }
    }
  }

  /** `[link for link in results if link]`: the results that are neither None nor empty. */
  function Truthy(results: seq<Option<string>>): (kept: seq<string>)
    ensures |kept| <= |results|
  {
    if results == [] then []
    else
      var init := Truthy(results[..|results| - 1]);
      var last := results[|results| - 1];
      if last.Some? && last.value != "" then init + [last.value] else init
  }

  /** The comprehension keeps exactly the links that are present and non-empty. */
  lemma {:induction false} TruthyKeeps(results: seq<Option<string>>)
    ensures forall u :: u in Truthy(results) <==> u != "" && Some(u) in results
  {
    if results != [] {
      var init, last := results[..|results| - 1], results[|results| - 1];
      TruthyKeeps(init);
      assert results == init + [last];
    }
  }

  /** The state `main` works on: the two globals, the progress file and the output folder. */
  datatype CrawlState = CrawlState(
    processed: seq<string>,           // `processed_links`
    cursor: int,                      // `current_count`
    stored: Option<seq<string>>,      // the links in `progress.json`, None while it does not exist
    files: map<string, string>)       // the output folder, by file name

  /** Why `main`'s loop ended. */
  datatype StopReason =
    | Exhausted   // `scrape_page` returned an empty list: "No more articles found."
    | Crashed     // an exception left the loop; caught by `main`, which only quits the driver

  /** One iteration of `main`'s loop. */
  datatype Step = Stop(reason: StopReason) | Next(state: CrawlState)

  /** One iteration of `main`'s loop on the given index page. */
  function PageStep(st: CrawlState, page: IndexPage, fetch: Fetcher): (step: Step)
    ensures page.Unavailable? ==> step == Stop(Crashed)
    ensures page.Listing? ==> (step == Stop(Exhausted) <==> NewLinks(page.cards, st.processed) == [])
    ensures step.Next? ==> page.Listing? && st.processed <= step.state.processed && step.state.cursor == st.cursor + 1
    ensures step.Next? ==>
      step.state.stored == if IsSavePage(st.cursor) then Some(step.state.processed) else st.stored
  {
    match page
    case Unavailable => Stop(Crashed)
    case Listing(cards) =>
      var links := NewLinks(cards, st.processed);
      if links == [] then Stop(Exhausted)
      else
        var batch := FetchAll(links, fetch, st.files);
        var processed := st.processed + Truthy(batch.results);
        var stored := if IsSavePage(st.cursor) then Some(processed) else st.stored;
        Next(CrawlState(processed, st.cursor + 1, stored, batch.files))
  }

  /**
   * In-page duplicates are kept: each link not yet processed appears as many
   * times as cards carry it, processed links not at all, and every card
   * without an `href` contributes one None.
   */
  lemma {:induction false} NewLinksCounts(cards: seq<Card>, processed: seq<string>, u: string)
    ensures multiset(NewLinks(cards, processed))[Some(u)] == if u in processed then 0 else multiset(cards)[Href(u)]
    ensures multiset(NewLinks(cards, processed))[None] == multiset(cards)[NoHref]
  {
    if cards != [] {
      var init, last := cards[..|cards| - 1], cards[|cards| - 1];
      NewLinksCounts(init, processed, u);
      assert cards == init + [last];
      assert multiset(cards) == multiset(init) + multiset{last};
      var links := NewLinks(init, processed);
      match last
      case Malformed =>
        assert NewLinks(cards, processed) == links;
      case NoHref =>
        assert NewLinks(cards, processed) == links + [None];
        assert multiset(links + [None]) == multiset(links) + multiset{None};
      case Href(v) =>
        if v in processed {
          assert NewLinks(cards, processed) == links;
        } else {
          assert NewLinks(cards, processed) == links + [Some(v)];
          assert multiset(links + [Some(v)]) == multiset(links) + multiset{Some(v)};
        }
    }
  }

  /** The links keep document order: the new links of two runs of cards are those of each, one after the other. */
  lemma {:induction false} NewLinksConcat(a: seq<Card>, b: seq<Card>, processed: seq<string>)
    ensures NewLinks(a + b, processed) == NewLinks(a, processed) + NewLinks(b, processed)
  {
    if b == [] {
      assert a + b == a;
    } else {
      var init, last := b[..|b| - 1], b[|b| - 1];
      NewLinksConcat(a, init, processed);
      assert (a + b)[..|a + b| - 1] == a + init;
      assert (a + b)[|a + b| - 1] == last;
    }
  }

  /** A page yields no new link exactly when each of its cards is malformed or carries a processed link. */
  lemma {:induction false} NewLinksEmpty(cards: seq<Card>, processed: seq<string>)
    ensures NewLinks(cards, processed) == [] <==>
      forall i :: 0 <= i < |cards| ==> cards[i].Malformed? || (cards[i].Href? && cards[i].url in processed)
  {
    if cards != [] {
      var init := cards[..|cards| - 1];
      NewLinksEmpty(init, processed);
      assert forall i :: 0 <= i < |init| ==> init[i] == cards[i];
    }
  }

  /** A call on `link` leaves the file `name` as it found it, present or absent, whatever the folder holds. */
  ghost predicate Keeps(fetch: Fetcher, link: Option<string>, name: string) {
    forall f: map<string, string> ::
      (name in fetch(link, f).files <==> name in f) && (name in f ==> fetch(link, f).files[name] == f[name])
  }

  /** A call on `link` leaves `text` in the file `name`, whatever the folder holds. */
  ghost predicate Writes(fetch: Fetcher, link: Option<string>, name: string, text: string) {
    forall f: map<string, string> :: name in fetch(link, f).files && fetch(link, f).files[name] == text
  }

  /** A batch whose every call keeps the file `name` keeps it too. */
  lemma {:induction false} FetchAllKeeps(links: seq<Option<string>>, fetch: Fetcher, files: map<string, string>, name: string)
    requires forall j :: 0 <= j < |links| ==> Keeps(fetch, links[j], name)
    ensures var after := FetchAll(links, fetch, files).files;
      (name in after <==> name in files) && (name in files ==> after[name] == files[name])
  {
    if links != [] {
      var init := links[..|links| - 1];
      assert Keeps(fetch, links[|links| - 1], name);
      forall j | 0 <= j < |init| ensures Keeps(fetch, init[j], name) {
        assert init[j] == links[j];
      }
      FetchAllKeeps(init, fetch, files, name);
    }
  }

  /** After a batch, the file `name` holds what the last call writing it wrote, when every later call keeps it. */
  lemma {:induction false} FetchAllWrites(links: seq<Option<string>>, fetch: Fetcher, files: map<string, string>, i: nat, name: string, text: string)
    requires i < |links| && Writes(fetch, links[i], name, text)
    requires forall j :: i < j < |links| ==> Keeps(fetch, links[j], name)
    ensures name in FetchAll(links, fetch, files).files && FetchAll(links, fetch, files).files[name] == text
  {
    var init := links[..|links| - 1];
    if i == |links| - 1 {
      assert Writes(fetch, links[|links| - 1], name, text);
    } else {
      assert init[i] == links[i];
      assert Keeps(fetch, links[|links| - 1], name);
      forall j | i < j < |init| ensures Keeps(fetch, init[j], name) {
        assert init[j] == links[j];
      }
      FetchAllWrites(init, fetch, files, i, name, text);
    }
  }

  /** A call of `fetch_article_details` that does not save into the file `name` keeps it. */
  lemma CallKeeps(link: Option<string>, corpus: Corpus, files: map<string, string>, name: string)
    requires FetchArticleDetails(link, corpus, files).result.Some? ==> FileName(link.value) != name
    ensures Keeps(FetchFrom(corpus), link, name)
  {
    forall f: map<string, string>
      ensures var after := FetchFrom(corpus)(link, f).files;
        (name in after <==> name in f) && (name in f ==> after[name] == f[name])
    {
      ResultIgnoresFolder(link, corpus, f, files);
      assert FetchFrom(corpus)(link, f) == FetchArticleDetails(link, corpus, f);
    }
  }

  /** A call of `fetch_article_details` that saves writes its content under its file name. */
  lemma CallWrites(link: Option<string>, corpus: Corpus, files: map<string, string>)
    requires FetchArticleDetails(link, corpus, files).result.Some?
    ensures Writes(FetchFrom(corpus), link, FileName(link.value), MainContent(corpus[link.value]).value)
  {
    forall f: map<string, string>
      ensures var after := FetchFrom(corpus)(link, f).files;
        FileName(link.value) in after && after[FileName(link.value)] == MainContent(corpus[link.value]).value
    {
      ResultIgnoresFolder(link, corpus, f, files);
      assert FetchFrom(corpus)(link, f) == FetchArticleDetails(link, corpus, f);
    }
  }

  /**
   * `executor.map` writes files in link order, so for each file name the
   * text of the last saved link with that name is what the folder holds.
   */
  lemma {:induction false} FetchAllLastWriteWins(links: seq<Option<string>>, corpus: Corpus, files: map<string, string>, i: nat)
    requires i < |links| && FetchArticleDetails(links[i], corpus, files).result.Some?
    requires forall j :: i < j < |links| && FetchArticleDetails(links[j], corpus, files).result.Some? ==>
      FileName(links[j].value) != FileName(links[i].value)
    ensures FileName(links[i].value) in FetchAll(links, FetchFrom(corpus), files).files
    ensures FetchAll(links, FetchFrom(corpus), files).files[FileName(links[i].value)] == MainContent(corpus[links[i].value]).value
  {
    var name := FileName(links[i].value);
    CallWrites(links[i], corpus, files);
    forall j | i < j < |links| ensures Keeps(FetchFrom(corpus), links[j], name) {
      CallKeeps(links[j], corpus, files, name);
    }
    FetchAllWrites(links, FetchFrom(corpus), files, i, name, MainContent(corpus[links[i].value]).value);
  }

  /**
   * `executor.map` touches no other file: a name that no saved link of the
   * batch writes is present afterwards exactly when it was before, with the
   * same text.
   */
  lemma {:induction false} FetchAllFrame(links: seq<Option<string>>, corpus: Corpus, files: map<string, string>, n: string)
    requires forall i :: 0 <= i < |links| && FetchArticleDetails(links[i], corpus, files).result.Some? ==>
      FileName(links[i].value) != n
    ensures var after := FetchAll(links, FetchFrom(corpus), files).files;
      (n in after <==> n in files) && (n in files ==> after[n] == files[n])
  {
    forall j | 0 <= j < |links| ensures Keeps(FetchFrom(corpus), links[j], n) {
      CallKeeps(links[j], corpus, files, n);
    }
    FetchAllKeeps(links, FetchFrom(corpus), files, n);
  }

  /**
   * The links of `links`, in order and with repetitions, that one call of
   * `fetch_article_details` against `files` saves, leaving out the empty link.
   */
  function SavedLinks(links: seq<Option<string>>, corpus: Corpus, files: map<string, string>): (saved: seq<string>)
    ensures forall u :: u in saved <==>
      u != "" && Some(u) in links && FetchArticleDetails(Some(u), corpus, files).result.Some?
  {
    if links == [] then []
    else
      var init, last := links[..|links| - 1], links[|links| - 1];
      assert links == init + [last];
      var ok := last.Some? && last.value != "" && FetchArticleDetails(last, corpus, files).result.Some?;
      SavedLinks(init, corpus, files) + if ok then [last.value] else []
  }

  /** Filtering the results of `executor.map` keeps the saved links, in link order. */
  lemma {:induction false} TruthyFetchAll(links: seq<Option<string>>, corpus: Corpus, files: map<string, string>)
    ensures Truthy(FetchAll(links, FetchFrom(corpus), files).results) == SavedLinks(links, corpus, files)
  {
    if links != [] {
      var init, last := links[..|links| - 1], links[|links| - 1];
      var b := FetchAll(init, FetchFrom(corpus), files);
      var r := FetchArticleDetails(last, corpus, b.files);
      assert FetchFrom(corpus)(last, b.files) == r;
      assert FetchAll(links, FetchFrom(corpus), files).results == b.results + [r.result];
      TruthyFetchAll(init, corpus, files);
      TruthySnoc(b.results, r.result);
      ResultIgnoresFolder(last, corpus, b.files, files);
    }
  }

  /**
   * A completed page extends `processed_links` by exactly the page's new links
   * that were saved, in the order of `article_links` and with repetitions.
   */
  lemma StepAppendsSavedLinks(st: CrawlState, page: IndexPage, corpus: Corpus)
    requires PageStep(st, page, FetchFrom(corpus)).Next?
    ensures PageStep(st, page, FetchFrom(corpus)).state.processed ==
      st.processed + SavedLinks(NewLinks(page.cards, st.processed), corpus, st.files)
  {
    TruthyFetchAll(NewLinks(page.cards, st.processed), corpus, st.files);
  }

  /**
   * A completed page adds to `processed_links` exactly the links of the page
   * that `fetch_article_details` saved (other than the empty link): never a
   * link that was below the threshold, had no content or failed to save.
   */
  lemma StepRecordsSavedLinks(st: CrawlState, page: IndexPage, corpus: Corpus)
    requires PageStep(st, page, FetchFrom(corpus)).Next?
    ensures var next := PageStep(st, page, FetchFrom(corpus)).state;
      forall u :: u in next.processed[|st.processed|..] <==>
        u != "" && Some(u) in NewLinks(page.cards, st.processed) &&
        FetchArticleDetails(Some(u), corpus, st.files).result.Some?
  {
    var next := PageStep(st, page, FetchFrom(corpus)).state;
    StepAppendsSavedLinks(st, page, corpus);
    assert next.processed[|st.processed|..] == SavedLinks(NewLinks(page.cards, st.processed), corpus, st.files);
  }

  /** The pages of the index from `cursor` on: the ones the loop may still visit. */
  function Ahead(index: Index, cursor: int): set<int> {
    set k | k in index && k >= cursor
  }

  /** Visiting a page of the index leaves one page fewer ahead of the cursor. */
  lemma AheadShrinks(index: Index, cursor: int)
    requires cursor in index
    ensures |Ahead(index, cursor + 1)| < |Ahead(index, cursor)|
  {
    var later, now := Ahead(index, cursor + 1), Ahead(index, cursor);
    assert now == later + {cursor};
    assert cursor !in later;
  }

  /** How a run of `main`'s loop ends. */
  datatype Run = Run(
    final: CrawlState,                  // the state when the loop ends
    reason: StopReason,                 // why it ends
    pages: nat,                         // how many iterations went through to the cursor increment
    dispatched: seq<Option<string>>)    // every link handed to `fetch_article_details`, in order

  /**
   * `main`'s loop from the given state. `processed_links` only grows, the
   * cursor moves by one per completed page, a run that completes no page
   * changes nothing, a run whose last completed page is numbered by a
   * multiple of ten leaves the progress file holding exactly the final
   * `processed_links`.
   */
  function CrawlFrom(st: CrawlState, index: Index, fetch: Fetcher): (run: Run)
    decreases |Ahead(index, st.cursor)|
    ensures st.processed <= run.final.processed
    ensures run.final.cursor == st.cursor + run.pages
    ensures run.pages == 0 ==> run.final == st
    ensures run.pages > 0 && IsSavePage(run.final.cursor - 1) ==> run.final.stored == Some(run.final.processed)
  {
    var page := PageAt(index, st.cursor);
    match PageStep(st, page, fetch)
    case Stop(reason) => Run(st, reason, 0, [])
    case Next(next) =>
      AheadShrinks(index, st.cursor);
      var rest := CrawlFrom(next, index, fetch);
      Run(rest.final, rest.reason, rest.pages + 1, NewLinks(page.cards, st.processed) + rest.dispatched)
  }

  /** None of `links` is already in `processed`. */
  predicate Unprocessed(links: seq<Option<string>>, processed: seq<string>) {
    forall i :: 0 <= i < |links| && links[i].Some? ==> links[i].value !in processed
  }

  /** Links new against `p`, followed by links new against a longer list `q`, are all new against `p`. */
  lemma UnprocessedJoin(a: seq<Option<string>>, b: seq<Option<string>>, p: seq<string>, q: seq<string>)
    requires Unprocessed(a, p) && Unprocessed(b, q) && p <= q
    ensures Unprocessed(a + b, p)
  {
    forall i | 0 <= i < |a + b| && (a + b)[i].Some?
      ensures (a + b)[i].value !in p
    {
      if i < |a| {
        assert (a + b)[i] == a[i];
      } else {
        assert (a + b)[i] == b[i - |a|];
      }
    }
  }

  /** No link that was processed when a run began is handed to `fetch_article_details` during it. */
  lemma {:induction false} NeverRefetched(st: CrawlState, index: Index, fetch: Fetcher)
    decreases |Ahead(index, st.cursor)|
    ensures Unprocessed(CrawlFrom(st, index, fetch).dispatched, st.processed)
  {
    var page := PageAt(index, st.cursor);
    match PageStep(st, page, fetch)
    case Stop(_) =>
    case Next(next) =>
      AheadShrinks(index, st.cursor);
      NeverRefetched(next, index, fetch);
      var rest := CrawlFrom(next, index, fetch);
      var links := NewLinks(page.cards, st.processed);
      assert CrawlFrom(st, index, fetch).dispatched == links + rest.dispatched;
      UnprocessedJoin(links, rest.dispatched, st.processed, next.processed);
  }

  /**
   * A run that stops on its first page ends where it began; otherwise it ends
   * where the run from the next state ends, and fewer pages lie ahead.
   */
  lemma CrawlFromStep(st: CrawlState, index: Index, fetch: Fetcher)
    ensures var step := PageStep(st, PageAt(index, st.cursor), fetch);
      step.Stop? ==> CrawlFrom(st, index, fetch) == Run(st, step.reason, 0, [])
    ensures var page := PageAt(index, st.cursor);
      var step := PageStep(st, page, fetch);
      step.Next? ==>
        var rest := CrawlFrom(step.state, index, fetch);
        && CrawlFrom(st, index, fetch) ==
             Run(rest.final, rest.reason, rest.pages + 1, NewLinks(page.cards, st.processed) + rest.dispatched)
        && |Ahead(index, step.state.cursor)| < |Ahead(index, st.cursor)|
  {
    var page := PageAt(index, st.cursor);
    match PageStep(st, page, fetch)
    case Stop(r) =>
      assert CrawlFrom(st, index, fetch) == Run(st, r, 0, []);
    case Next(next) =>
      AheadShrinks(index, st.cursor);
      assert next.cursor == st.cursor + 1;
      assert |Ahead(index, next.cursor)| < |Ahead(index, st.cursor)|;
      var rest := CrawlFrom(next, index, fetch);
      assert CrawlFrom(st, index, fetch) ==
        Run(rest.final, rest.reason, rest.pages + 1, NewLinks(page.cards, st.processed) + rest.dispatched);
  }

  /**
   * The state `main` mutates: the globals `processed_links` and
   * `current_count`, the progress file and the output folder.
   */
  class Crawler {
    var processed: seq<string>
    var cursor: int
    var stored: Option<seq<string>>
    var files: map<string, string>

    function State(): CrawlState
      reads this
    {
      CrawlState(processed, cursor, stored, files)
    }

    /**
     * Module start-up: the cursor comes from the cursor file, or is 1 when
     * there is none; `processed_links` comes from the progress file, or is
     * empty when there is none.
     */
    constructor (cursorFile: Option<int>, progressFile: Option<seq<string>>, folder: map<string, string>)
      ensures cursor == if cursorFile.Some? then cursorFile.value else 1
      ensures processed == if progressFile.Some? then progressFile.value else []
      ensures stored == progressFile && files == folder
    {
      cursor := if cursorFile.Some? then cursorFile.value else 1;
      processed := if progressFile.Some? then progressFile.value else [];
      stored := progressFile;
      files := folder;
    }

    /** `save_progress`: overwrite the progress file with the current `processed_links`. */
    method SaveProgress()
      modifies this`stored
      ensures stored == Some(processed)
    {
      stored := Some(processed);
    }

    /**
     * One iteration of `main`'s loop on the page at the cursor: scrape it,
     * stop when it raises or yields nothing new, otherwise hand its links to
     * `executor.map`, record the saved ones, save progress on a multiple of
     * ten and move the cursor on.
     */
    method VisitPage(page: IndexPage, fetch: Fetcher) returns (stop: Option<StopReason>)
      modifies this
      ensures stop.Some? ==> PageStep(old(State()), page, fetch) == Stop(stop.value) && State() == old(State())
      ensures stop.None? ==> PageStep(old(State()), page, fetch) == Next(State())
    {
      var scraped := ScrapePage(page, processed);
      match scraped
      case None =>
        return Some(Crashed);
      case Some(articleLinks) =>
        if articleLinks == [] {
          return Some(Exhausted);
        }
        var batch := FetchAll(articleLinks, fetch, files);
        files := batch.files;
        processed := processed + Truthy(batch.results);
        if IsSavePage(cursor) {
          SaveProgress();
        }
        cursor := cursor + 1;
        return None;
    }

    /**
     * `main`: visit pages from the cursor on until a page yields no new link
     * or raises, handing each page's links to `fetch` (`FetchFrom(corpus)`
     * for `fetch_article_details`). The state it leaves is the one CrawlFrom
     * describes.
     */
    method MainLoop(index: Index, fetch: Fetcher) returns (reason: StopReason)
      modifies this
      ensures State() == CrawlFrom(old(State()), index, fetch).final
      ensures reason == CrawlFrom(old(State()), index, fetch).reason
      ensures old(processed) <= processed
    {
      ghost var goal := CrawlFrom(State(), index, fetch);
      reason := Exhausted;
      var running := true;
      while running
        invariant running ==> CrawlFrom(State(), index, fetch).final == goal.final
        invariant running ==> CrawlFrom(State(), index, fetch).reason == goal.reason
        invariant !running ==> State() == goal.final && reason == goal.reason
        invariant old(processed) <= processed
        decreases if running then |Ahead(index, cursor)| + 1 else 0
      {
        ghost var before := State();
        var stop := VisitPage(PageAt(index, cursor), fetch);
        CrawlFromStep(before, index, fetch);
        if stop.Some? {
          reason := stop.value;
          running := false;
        }
      }
    }
  }

  /** How many pages from cursor `c` come before the next page numbered by a multiple of ten. */
  function PagesBeforeSave(c: int): int {
    (-c) % 10
  }

  /**
   * The save cadence over a run from cursor `c`: the progress file is left
   * alone while the run completes no page numbered by a multiple of ten,
   * that is at most `(-c) % 10` pages; once it completes more, the file holds
   * a snapshot of `processed_links` taken during the run.
   */
  lemma {:induction false} SaveCadence(st: CrawlState, index: Index, fetch: Fetcher)
    decreases |Ahead(index, st.cursor)|
    ensures var run := CrawlFrom(st, index, fetch);
      && (run.pages <= PagesBeforeSave(st.cursor) ==> run.final.stored == st.stored)
      && (run.pages > PagesBeforeSave(st.cursor) ==>
            run.final.stored.Some? && st.processed <= run.final.stored.value <= run.final.processed)
  {
    CrawlFromStep(st, index, fetch);
    match PageStep(st, PageAt(index, st.cursor), fetch)
    case Stop(_) =>
    case Next(next) =>
      SaveCadence(next, index, fetch);
      PagesToNextSave(st.cursor, next.cursor);
  }

  /**
   * `PagesBeforeSave(c)` pages from cursor `c` come before the next page
   * numbered by a multiple of ten; each page off a multiple brings it one
   * page closer. The next cursor is passed as `d` so that the caller's own
   * term for it, not `c + 1`, appears in the conclusion, which keeps that
   * caller's proof cheap.
   */
  lemma PagesToNextSave(c: int, d: int)
    requires d == c + 1
    ensures PagesBeforeSave(c) == 0 <==> IsSavePage(c)
    ensures !IsSavePage(c) ==> PagesBeforeSave(d) == PagesBeforeSave(c) - 1
  {
    var q, r := c / 10, c % 10;
    if r == 0 {
      RemainderOfTen(-c, -q, 0);
    } else {
      RemainderOfTen(-c, -q - 1, 10 - r);
      RemainderOfTen(-d, -q - 1, 9 - r);
    }
  }

  /** The remainder by ten of `10 * q + r`, for `r` a digit, is `r`. */
  lemma RemainderOfTen(x: int, q: int, r: int)
    requires x == 10 * q + r && 0 <= r < 10
    ensures x % 10 == r
  {
  }

  /**
   * The loop ends on a page exactly when `scrape_page` finds nothing new:
   * every card is malformed or carries a link already processed. A page of
   * cards without `href` does not end it.
   */
  lemma StopsExactlyWhenNothingNew(st: CrawlState, cards: seq<Card>, fetch: Fetcher)
    ensures PageStep(st, Listing(cards), fetch) == Stop(Exhausted) <==>
      forall i :: 0 <= i < |cards| ==> cards[i].Malformed? || (cards[i].Href? && cards[i].url in st.processed)
    ensures PageStep(st, Listing(cards), fetch).Stop? ==> PageStep(st, Listing(cards), fetch) == Stop(Exhausted)
  {
    NewLinksEmpty(cards, st.processed);
  }

  /** `executor.map` over one more link: the earlier results, then the new link fetched against the folder they left. */
  lemma FetchAllSnoc(links: seq<Option<string>>, link: Option<string>, fetch: Fetcher, files: map<string, string>)
    ensures var init := FetchAll(links, fetch, files);
      var last := fetch(link, init.files);
      FetchAll(links + [link], fetch, files) == Batch(init.results + [last.result], last.files)
  {
    assert (links + [link])[..|links|] == links;
  }

  /** An iteration on a listing with new links fetches them, records the truthy results and moves on. */
  lemma PageStepNext(st: CrawlState, cards: seq<Card>, fetch: Fetcher)
    requires NewLinks(cards, st.processed) != []
    ensures var batch := FetchAll(NewLinks(cards, st.processed), fetch, st.files);
      var processed := st.processed + Truthy(batch.results);
      PageStep(st, Listing(cards), fetch) ==
      Next(CrawlState(processed, st.cursor + 1, if IsSavePage(st.cursor) then Some(processed) else st.stored, batch.files))
  {
  }

  /** `scrape_page` on one more card: the earlier links, then the new card's. */
  lemma NewLinksSnoc(cards: seq<Card>, card: Card, processed: seq<string>)
    ensures NewLinks(cards + [card], processed) == NewLinks(cards, processed) + NewLinks([card], processed)
  {
    assert (cards + [card])[..|cards|] == cards;
    assert [card][..0] == [];
  }

  /** The list comprehension over one more result. */
  lemma TruthySnoc(results: seq<Option<string>>, r: Option<string>)
    ensures Truthy(results + [r]) == Truthy(results) + (if r.Some? && r.value != "" then [r.value] else [])
  {
    assert (results + [r])[..|results|] == results;
  }

  /** `scrape_page` on three cards with unprocessed links lists the three links in order. */
  lemma ThreeLinks(a: string, b: string, c: string, P: seq<string>)
    requires a !in P && b !in P && c !in P
    ensures NewLinks([Href(a), Href(b), Href(c)], P) == [Some(a), Some(b), Some(c)]
  {
    NewLinksSnoc([], Href(a), P);
    NewLinksSnoc([Href(a)], Href(b), P);
    NewLinksSnoc([Href(a), Href(b)], Href(c), P);
    assert [Href(a), Href(b), Href(c)] == [] + [Href(a)] + [Href(b)] + [Href(c)];
  }

  /**
   * `executor.map` over `[a, b, c]` where only `b` is saved: the results are
   * `[None, b, None]` and the folder gains `b`'s file.
   */
  lemma ThreeFetches(a: string, b: string, c: string, tb: string, corpus: Corpus, files: map<string, string>)
    requires FetchArticleDetails(Some(a), corpus, files).result.None?
    requires b in corpus && MainContent(corpus[b]) == Some(tb) && Keywords.Accepted(tb) && corpus[b].writeSucceeds
    requires FetchArticleDetails(Some(c), corpus, files).result.None?
    ensures FetchAll([Some(a), Some(b), Some(c)], FetchFrom(corpus), files) == Batch([None, Some(b), None], files[FileName(b) := tb])
  {
    var files2 := files[FileName(b) := tb];
    FetchAllSnoc([], Some(a), FetchFrom(corpus), files);
    assert [] + [Some(a)] == [Some(a)];
    assert FetchAll([Some(a)], FetchFrom(corpus), files) == Batch([None], files);
    FetchAllSnoc([Some(a)], Some(b), FetchFrom(corpus), files);
    assert [Some(a)] + [Some(b)] == [Some(a), Some(b)];
    assert FetchArticleDetails(Some(b), corpus, files) == Fetched(Some(b), files2);
    assert FetchAll([Some(a), Some(b)], FetchFrom(corpus), files) == Batch([None, Some(b)], files2);
    FetchAllSnoc([Some(a), Some(b)], Some(c), FetchFrom(corpus), files);
    assert [Some(a), Some(b)] + [Some(c)] == [Some(a), Some(b), Some(c)];
    assert FetchArticleDetails(Some(c), corpus, files2) == Fetched(None, files2);
  }

  /** The same, with `a` lacking a content region, `b` holding three keyword matches and `c` only one. */
  lemma ThreeFetchesCounted(a: string, b: string, c: string, tb: string, tc: string, corpus: Corpus, files: map<string, string>)
    requires a in corpus ==> MainContent(corpus[a]).None?
    requires b in corpus && MainContent(corpus[b]) == Some(tb) && Keywords.CountKeywords(tb) == 3 && corpus[b].writeSucceeds
    requires c in corpus && MainContent(corpus[c]) == Some(tc) && Keywords.CountKeywords(tc) == 1
    ensures FetchAll([Some(a), Some(b), Some(c)], FetchFrom(corpus), files) == Batch([None, Some(b), None], files[FileName(b) := tb])
  {
    ThreeFetches(a, b, c, tb, corpus, files);
  }

  /**
   * A page with links `[a, b, c]` where `a` has no content region, `b` has
   * three keyword matches and `c` only one: only `b` is saved and recorded;
   * `c`, though fetched, is not marked processed.
   */
  lemma ThreeLinkPage(st: CrawlState, a: string, b: string, c: string, tb: string, tc: string, corpus: Corpus)
    requires a !in st.processed && b !in st.processed && c !in st.processed && b != ""
    requires a in corpus ==> MainContent(corpus[a]).None?
    requires b in corpus && MainContent(corpus[b]) == Some(tb) && Keywords.CountKeywords(tb) == 3 && corpus[b].writeSucceeds
    requires c in corpus && MainContent(corpus[c]) == Some(tc) && Keywords.CountKeywords(tc) == 1
    ensures var processed := st.processed + [b];
      PageStep(st, Listing([Href(a), Href(b), Href(c)]), FetchFrom(corpus)) ==
      Next(CrawlState(processed, st.cursor + 1,
                      if IsSavePage(st.cursor) then Some(processed) else st.stored,
                      st.files[FileName(b) := tb]))
  {
    var cards := [Href(a), Href(b), Href(c)];
    ThreeLinks(a, b, c, st.processed);
    ThreeFetchesCounted(a, b, c, tb, tc, corpus, st.files);
    TruthyOneOfThree(b);
    PageStepNext(st, cards, FetchFrom(corpus));
  }

  /** The comprehension over `[None, b, None]` keeps `b` alone. */
  lemma TruthyOneOfThree(b: string)
    requires b != ""
    ensures Truthy([None, Some(b), None]) == [b]
  {
    var none: Option<string> := None;
    TruthySnoc([], none);
    TruthySnoc([none], Some(b));
    TruthySnoc([none, Some(b)], none);
    assert [] + [none] == [none] && [none] + [Some(b)] == [none, Some(b)];
    assert [none, Some(b)] + [none] == [none, Some(b), none];
  }

  /** `scrape_page` on two cards with the same unprocessed link lists it twice. */
  lemma TwoSameLinks(u: string, P: seq<string>)
    requires u !in P
    ensures NewLinks([Href(u), Href(u)], P) == [Some(u), Some(u)]
  {
    NewLinksSnoc([], Href(u), P);
    NewLinksSnoc([Href(u)], Href(u), P);
    assert [Href(u), Href(u)] == [] + [Href(u)] + [Href(u)];
  }

  /** `executor.map` over a saved link given twice returns it twice. */
  lemma TwoSavedFetches(u: string, corpus: Corpus, files: map<string, string>)
    requires FetchArticleDetails(Some(u), corpus, files).result.Some?
    ensures FetchAll([Some(u), Some(u)], FetchFrom(corpus), files).results == [Some(u), Some(u)]
  {
    var r := FetchAll([Some(u), Some(u)], FetchFrom(corpus), files).results;
    FetchFromIgnoresFiles(corpus);
    FetchAllResults([Some(u), Some(u)], FetchFrom(corpus), files);
    assert |r| == 2 && r[0] == Some(u) && r[1] == Some(u);
  }

  /** A link carried by two cards of one new page is fetched twice and, when saved, recorded twice. */
  lemma InPageDuplicateRecordedTwice(st: CrawlState, u: string, corpus: Corpus)
    requires u !in st.processed && u != ""
    requires FetchArticleDetails(Some(u), corpus, st.files).result.Some?
    ensures PageStep(st, Listing([Href(u), Href(u)]), FetchFrom(corpus)).Next?
    ensures PageStep(st, Listing([Href(u), Href(u)]), FetchFrom(corpus)).state.processed == st.processed + [u, u]
  {
    TwoSameLinks(u, st.processed);
    TwoSavedFetches(u, corpus, st.files);
    TruthyTwice(u);
    PageStepNext(st, [Href(u), Href(u)], FetchFrom(corpus));
  }

  /** The comprehension keeps a saved link returned twice, twice. */
  lemma TruthyTwice(u: string)
    requires u != ""
    ensures Truthy([Some(u), Some(u)]) == [u, u]
  {
    TruthySnoc([], Some(u));
    TruthySnoc([Some(u)], Some(u));
    assert [] + [Some(u)] == [Some(u)] && [Some(u)] + [Some(u)] == [Some(u), Some(u)];
  }
}
