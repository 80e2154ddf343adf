/** `Crawler#fetch_articles`: upsert the publisher, fetch the feed, detect
    its format and hand every item or entry to `process_article`. The HTTP
    response, the parsed document, date parsing and URI joining arrive as
    inputs, so one run is a function of the database and those inputs. */
module Crawler {
  import opened Wrappers
  import opened Text
  import opened Store
  import opened Feeds

  datatype Format = Rss | Atom

  /** A feed document once parsed and stripped of namespaces: whether it has a
      root element, whether `doc.at("rss")` and `doc.at("feed")` find an
      element, and the `//item` and `//entry` elements it holds. */
  datatype Document = Document(
    hasRoot: bool,
    hasRss: bool,
    hasFeed: bool,
    items: seq<RssItem>,
    entries: seq<AtomEntry>)

  /** What `HTTParty.get` produced: a response with its status code and
      parsed body, or a raised connection error. */
  datatype Response = Received(code: int, body: Document) | ConnectionError

  /** How a run ended. */
  datatype Status =
    | FetchFailed(code: int)     // non-success response, logged
    | UnknownFormat              // neither `rss` nor `feed`, logged
    | Processed(format: Format)  // every item or entry handed on
    | Raised(error: CrawlError)  // an exception left `fetch_articles`

  datatype Run = Run(db: Db, status: Status)

  /** `response.success?`: a 2xx status. */
  predicate IsSuccess(code: int) {
    200 <= code < 300
  }

  /** The entries a run reads from a successful response, in the format
      the dispatch picks. */
  function EntryCount(doc: Document): (count: nat) {
    if !doc.hasRoot then 0
    else if doc.hasRss then |doc.items|
    else if doc.hasFeed then |doc.entries|
    else 0
  }

  /** `fetch_articles` with line 18 reading `response.success?` and line 53
      assigning `items`, as evidently intended. */
  function FetchArticles(db: Db, feedUrl: string, publisherName: string, response: Response,
                         parse: DateParser, join: UriJoin): (r: Run)
    requires !BlankText(publisherName)
    ensures r.db.publishers == UpsertPublisher(db.publishers, publisherName)
    ensures publisherName in db.publishers && !IsBlank(db.publishers[publisherName].language) ==>
              r.db.publishers == db.publishers
    ensures r.status.FetchFailed? <==> response.Received? && !IsSuccess(response.code)
    ensures (response.ConnectionError? || !IsSuccess(response.code)) ==> r.db.articles == db.articles
    ensures response.Received? && IsSuccess(response.code) && response.body.hasRoot && response.body.hasRss ==>
              && r.status == Processed(Rss)
              && r.db.articles == ProcessRss(db.articles, publisherName, response.body.items, parse)
    ensures response.ConnectionError? ==> r.status == Raised(ConnectionFailed)
    ensures response.Received? && IsSuccess(response.code) && !response.body.hasRoot ==>
              r.status == Raised(MissingRoot)
    ensures response.Received? && IsSuccess(response.code) && response.body.hasRoot
            && !response.body.hasRss && response.body.hasFeed ==>
              var atom := ProcessAtom(db.articles, feedUrl, publisherName, response.body.entries, parse, join);
              && r.db.articles == atom.0
              && r.status == (if atom.1.Some? then Raised(atom.1.value) else Processed(Atom))
    ensures response.Received? && IsSuccess(response.code) && response.body.hasRoot
            && !response.body.hasRss && !response.body.hasFeed ==>
              r.status == UnknownFormat && r.db.articles == db.articles
    ensures forall l | l in db.articles :: l in r.db.articles && r.db.articles[l] == db.articles[l]
  {
    var db1 := db.(publishers := UpsertPublisher(db.publishers, publisherName));
    match response
    case ConnectionError => Run(db1, Raised(ConnectionFailed))
    case Received(code, doc) =>
      if !IsSuccess(code) then
        Run(db1, FetchFailed(code))
      else if !doc.hasRoot then
        Run(db1, Raised(MissingRoot))
      else if doc.hasRss then
        Run(db1.(articles := ProcessRss(db.articles, publisherName, doc.items, parse)), Processed(Rss))
      else if doc.hasFeed then
        var (articles, err) := ProcessAtom(db.articles, feedUrl, publisherName, doc.entries, parse, join);
        Run(db1.(articles := articles), if err.Some? then Raised(err.value) else Processed(Atom))
      else
        Run(db1, UnknownFormat)
  }

  /** The entries a successful run hands to `process_article`, in the format
      the dispatch picks. */
  function DispatchedEntries(feedUrl: string, doc: Document, join: UriJoin): (es: seq<RawEntry>) {
    if doc.hasRss then RssEntries(doc.items)
    else if doc.hasFeed then ExtractAtom(feedUrl, doc.entries, join).0
    else []
  }

  /** Every run's article table is the old one with the dispatched entries
      processed in order (none at all when the run stopped before parsing). */
  lemma {:induction false} FetchArticlesProcessesDispatched(db: Db, feedUrl: string, publisherName: string,
                                                            response: Response, parse: DateParser, join: UriJoin)
    requires !BlankText(publisherName)
    ensures var r := FetchArticles(db, feedUrl, publisherName, response, parse, join);
            r.db.articles == ProcessEntries(db.articles, publisherName,
                               if response.Received? && IsSuccess(response.code) && response.body.hasRoot
                               then DispatchedEntries(feedUrl, response.body, join) else [], parse)
  {
    var r := FetchArticles(db, feedUrl, publisherName, response, parse, join);
    if !(response.Received? && IsSuccess(response.code) && response.body.hasRoot) {
      assert r.db.articles == db.articles;
    } else if !response.body.hasRss && !response.body.hasFeed {
      assert r.db.articles == db.articles;
    }
  }

  /** A run adds at most one article per item or entry it reads. */
  lemma FetchArticlesGrowth(db: Db, feedUrl: string, publisherName: string,
                            response: Response, parse: DateParser, join: UriJoin)
    requires !BlankText(publisherName)
    ensures response.Received? ==>
              |FetchArticles(db, feedUrl, publisherName, response, parse, join).db.articles|
                <= |db.articles| + EntryCount(response.body)
  {
    var run := response.Received? && IsSuccess(response.code) && response.body.hasRoot;
    var es := if run then DispatchedEntries(feedUrl, response.body, join) else [];
    FetchArticlesProcessesDispatched(db, feedUrl, publisherName, response, parse, join);
    ProcessEntriesGrowth(db.articles, publisherName, es, parse);
    assert response.Received? ==> |es| <= EntryCount(response.body);
  }

  /** Running the crawler again on the same response changes nothing: the
      publisher is already upserted and every admissible link is stored. */
  lemma {:induction false} FetchArticlesIdempotent(db: Db, feedUrl: string, publisherName: string,
                                                   response: Response, parse: DateParser, join: UriJoin)
    requires !BlankText(publisherName)
    ensures var r := FetchArticles(db, feedUrl, publisherName, response, parse, join);
            FetchArticles(r.db, feedUrl, publisherName, response, parse, join) == r
  {
    var r := FetchArticles(db, feedUrl, publisherName, response, parse, join);
    var again := FetchArticles(r.db, feedUrl, publisherName, response, parse, join);
    UpsertPublisherIdempotent(db.publishers, publisherName);
    var run := response.Received? && IsSuccess(response.code) && response.body.hasRoot;
    var es := if run then DispatchedEntries(feedUrl, response.body, join) else [];
    FetchArticlesProcessesDispatched(db, feedUrl, publisherName, response, parse, join);
    FetchArticlesProcessesDispatched(r.db, feedUrl, publisherName, response, parse, join);
    ProcessEntriesIdempotent(db.articles, publisherName, es, parse);
    assert again.db == r.db;
  }

  /** A run keeps the database well formed: one row per link, every
      publisher with a language, every article's publisher present; and
      every article it adds belongs to the run's publisher. */
  lemma {:induction false} FetchArticlesPreservesWf(db: Db, feedUrl: string, publisherName: string,
                                                    response: Response, parse: DateParser, join: UriJoin)
    requires !BlankText(publisherName)
    requires DbWf(db)
    ensures DbWf(FetchArticles(db, feedUrl, publisherName, response, parse, join).db)
    ensures var r := FetchArticles(db, feedUrl, publisherName, response, parse, join);
            forall l | l in r.db.articles && l !in db.articles :: r.db.articles[l].publisher == publisherName
  {
    var r := FetchArticles(db, feedUrl, publisherName, response, parse, join);
    var run := response.Received? && IsSuccess(response.code) && response.body.hasRoot;
    var es := if run then DispatchedEntries(feedUrl, response.body, join) else [];
    FetchArticlesProcessesDispatched(db, feedUrl, publisherName, response, parse, join);
    assert r.db.articles == ProcessEntries(db.articles, publisherName, es, parse);
    UpsertPublisherPreservesWf(db.publishers, publisherName);
    ProcessEntriesPreservesWf(db.articles, publisherName, es, parse);
    forall l | l in r.db.articles && l !in db.articles
      ensures r.db.articles[l].publisher == publisherName
    {
      ProcessEntriesOrigin(db.articles, publisherName, es, parse, l);
    }
    forall l | l in r.db.articles
      ensures r.db.articles[l].publisher in r.db.publishers
    {
      if l in db.articles {
        assert r.db.articles[l] == db.articles[l];
      }
    }
  }

  /** `fetch_articles` as written: line 18 reads the undefined `resnpose`,
      so every run that gets a response raises right after the publisher
      upsert, before the body is parsed. */
  function FetchArticlesAsWritten(db: Db, feedUrl: string, publisherName: string, response: Response,
                                  parse: DateParser, join: UriJoin): (r: Run)
    requires !BlankText(publisherName)
    ensures r.db.publishers == UpsertPublisher(db.publishers, publisherName)
    ensures r.db.articles == db.articles
    ensures r.status.Raised?
  {
    var db1 := db.(publishers := UpsertPublisher(db.publishers, publisherName));
    match response
    case ConnectionError => Run(db1, Raised(ConnectionFailed))
    case Received(_, _) => Run(db1, Raised(UndefinedName("resnpose")))
  }

  /** The feed of the single-item RSS scenario: "Flood Alert" at
      http://x.test/a with a pubDate and no media elements. */
  function FloodAlertFeed(): Response {
    Received(200, Document(true, true, false,
      [RssItem(Some("Flood Alert"), Some("http://x.test/a"), Some("Mon, 01 Jan 2024 00:00:00 GMT"), None, None)],
      []))
  }

  /** On the single-item RSS feed the intended crawler stores exactly one
      article, with the placeholder image and category "News". */
  lemma FloodAlertScenario(feedUrl: string, publisherName: string, parse: DateParser, join: UriJoin)
    requires !BlankText(publisherName) && publisherName != Classifier.FoodPublisher
    ensures FetchArticles(Db(map[], map[]), feedUrl, publisherName, FloodAlertFeed(), parse, join).db.articles
         == map["http://x.test/a" := Article("Flood Alert", "http://x.test/a",
                  parse("Mon, 01 Jan 2024 00:00:00 GMT"), Placeholder, Classifier.News, publisherName)]
  {
    var item := FloodAlertFeed().body.items[0];
    var e := RssEntry(item);
    assert !IsSpace("Flood Alert"[0]) && !IsSpace("http://x.test/a"[0]);
    assert !IsSpace("Mon, 01 Jan 2024 00:00:00 GMT"[0]);
    assert Admissible(e);
    Classifier.FloodAlertIsNews(publisherName);
    var stored := ProcessArticle(map[], publisherName, e, parse);
    assert stored == map["http://x.test/a" := NewArticle(e, publisherName, parse)];
    assert RssEntries(FloodAlertFeed().body.items) == [e];
    assert ProcessEntries(map[], publisherName, [e], parse) == ProcessEntries(stored, publisherName, [], parse);
  }

  /** Line 18 as written loses that article: the same run stores nothing. */
  lemma Line18LosesArticles(feedUrl: string, publisherName: string, parse: DateParser, join: UriJoin)
    requires !BlankText(publisherName) && publisherName != Classifier.FoodPublisher
    ensures "http://x.test/a" in FetchArticles(Db(map[], map[]), feedUrl, publisherName, FloodAlertFeed(), parse, join).db.articles
    ensures FetchArticlesAsWritten(Db(map[], map[]), feedUrl, publisherName, FloodAlertFeed(), parse, join).db.articles == map[]
  {
    FloodAlertScenario(feedUrl, publisherName, parse, join);
  }
}
