/**
 * `fetch_article_details`: fetch one article, find its content under the
 * inline-gallery template or else the static-gallery template, count keyword
 * matches in its text, and save the text when there are at least two. The
 * function returns the link when the article was saved and `None` otherwise.
 *
 * The browser and the HTML parser are not modelled: an article page is given
 * by what they would produce, namely the text under each template, and by
 * whether writing the output file succeeds.
 */
module Article {
  import opened Wrappers
  import opened Keywords
  import opened Slug

  /** What the browser and parser yield for one article link. */
  datatype ArticlePage = ArticlePage(
    inlineGallery: Option<string>,   // text of `article.news-release.inline-gallery-template`, if present
    staticGallery: Option<string>,   // text of `article.news-release.static-gallery-template`, if present
    writeSucceeds: bool)             // whether `open(file_path, "w")` and `write` succeed

  /**
   * The articles the crawl can reach, by link. A link outside the map stands
   * for every way fetching raises: `driver.get`, the wait for the page
   * wrapper, or a missing `page-wrap` or `main` element.
   */
  type Corpus = map<string, ArticlePage>

  /** How one call of `fetch_article_details` ends. */
  datatype Outcome =
    | FetchError                      // an exception before the content lookup; returns None
    | ContentNotFound                 // neither template is present; returns None
    | BelowThreshold                  // fewer than two matches; falls through and returns None
    | SaveFailed(name: string)        // writing the file raised; returns None
    | Saved(name: string, text: string)  // the file was written; returns the link

  /** The content region: the inline-gallery template, consulted first, else the static-gallery one. */
  function MainContent(page: ArticlePage): (text: Option<string>)
    ensures page.inlineGallery.Some? ==> text == page.inlineGallery
    ensures page.inlineGallery.None? ==> text == page.staticGallery
  {
    if page.inlineGallery.Some? then page.inlineGallery else page.staticGallery
  }

  /** The outcome of fetching `link` (`None` for a news card whose anchor had no `href`). */
  function Classify(link: Option<string>, corpus: Corpus): (o: Outcome)
    ensures o == FetchError <==> link.None? || link.value !in corpus
    ensures o == ContentNotFound <==> link.Some? && link.value in corpus && MainContent(corpus[link.value]).None?
    ensures (o.SaveFailed? || o.Saved?) <==>
      link.Some? && link.value in corpus && MainContent(corpus[link.value]).Some? &&
      Accepted(MainContent(corpus[link.value]).value)
    ensures o.SaveFailed? || o.Saved? ==> o.name == FileName(link.value)
    ensures o.Saved? ==> corpus[link.value].writeSucceeds && o.text == MainContent(corpus[link.value]).value
    ensures o.SaveFailed? ==> !corpus[link.value].writeSucceeds
  {
    match link
    case None => FetchError
    case Some(url) =>
      if url !in corpus then FetchError
      else
        var page := corpus[url];
        match MainContent(page)
        case None => ContentNotFound
        case Some(text) =>
          if !Accepted(text) then BelowThreshold
          else if page.writeSucceeds then Saved(FileName(url), text)
          else SaveFailed(FileName(url))
  }

  /** The result of one call: the returned value and the output folder afterwards. */
  datatype Fetched = Fetched(result: Option<string>, files: map<string, string>)

  /**
   * `fetch_article_details(link)` against the given articles and output
   * folder. It returns the link it was given or `None`; it returns the link
   * exactly when the content was found, holds at least two keyword matches
   * and its file was written; the file then holds that text verbatim, and
   * otherwise the folder is left as it was.
   */
  function FetchArticleDetails(link: Option<string>, corpus: Corpus, files: map<string, string>): (f: Fetched)
    ensures f.result == None || f.result == link
    ensures f.result.Some? <==>
      link.Some? && link.value in corpus && MainContent(corpus[link.value]).Some? &&
      Accepted(MainContent(corpus[link.value]).value) && corpus[link.value].writeSucceeds
    ensures f.result.Some? ==> f.files == files[FileName(link.value) := MainContent(corpus[link.value]).value]
    ensures f.result.None? ==> f.files == files
  {
    match Classify(link, corpus)
    case Saved(name, text) => Fetched(link, files[name := text])
    case _ => Fetched(None, files)
  }

  /** Whether a link is saved does not depend on what the output folder already holds. */
  lemma ResultIgnoresFolder(link: Option<string>, corpus: Corpus, files: map<string, string>, other: map<string, string>)
    ensures FetchArticleDetails(link, corpus, files).result == FetchArticleDetails(link, corpus, other).result
  {
  }

  /** The static-gallery template is consulted only when the inline-gallery one is absent. */
  lemma InlineGalleryFirst(url: string, corpus: Corpus, other: Option<string>)
    requires url in corpus && corpus[url].inlineGallery.Some?
    ensures Classify(Some(url), corpus[url := corpus[url].(staticGallery := other)]) == Classify(Some(url), corpus)
  {
  }

  /** Without either template the call writes nothing and returns `None`. */
  lemma NoTemplateNoFile(url: string, corpus: Corpus, files: map<string, string>)
    requires url in corpus && corpus[url].inlineGallery.None? && corpus[url].staticGallery.None?
    ensures FetchArticleDetails(Some(url), corpus, files) == Fetched(None, files)
  {
  }
}
