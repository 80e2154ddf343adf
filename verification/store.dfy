/** The persistence side of the crawler: publishers found or created by
    name, and articles found or created by link (`Crawler#process_article`).
    The two tables are maps keyed by their natural identifiers. */
module Store {
  import opened Wrappers
  import opened Text
  import Classifier

  /** A parsed publication time. Its representation does not matter: the
      model only stores what the date parser returns. */
  datatype Instant = Instant(epochSeconds: int)

  /** `DateTime.parse` with its exceptions rescued: `None` when it raises. */
  type DateParser = string -> Option<Instant>

  datatype Publisher = Publisher(name: string, language: Option<string>)

  datatype Article = Article(
    title: string,
    link: string,
    publishedDate: Option<Instant>,
    mainImage: string,
    categories: string,
    publisher: string)

  /** The articles table, keyed by link. */
  type Articles = map<string, Article>

  datatype Db = Db(publishers: map<string, Publisher>, articles: Articles)

  /** The keyword arguments of `process_article`, as extracted from a feed. */
  datatype RawEntry = RawEntry(
    title: Option<string>,
    link: Option<string>,
    publishedDate: Option<string>,
    mainImage: Option<string>)

  const DefaultLanguage: string := "EN"
  const Placeholder: string := "placeholder.jpg"

  /** Publisher table invariant: each row is stored under its own name and has
      a language, as the model's presence validation demands. */
  ghost predicate PublishersWf(publishers: map<string, Publisher>) {
    forall n | n in publishers :: publishers[n].name == n && !IsBlank(publishers[n].language)
  }

  /** Article table invariant: one row per link, stored under that link, with
      a non-blank title and link and a known category. */
  ghost predicate ArticlesWf(articles: Articles) {
    forall l | l in articles ::
      && articles[l].link == l
      && !BlankText(l)
      && !BlankText(articles[l].title)
      && articles[l].categories in Classifier.Categories
  }

  /** Both tables are well formed and every article's publisher exists. */
  ghost predicate DbWf(db: Db) {
    && PublishersWf(db.publishers)
    && ArticlesWf(db.articles)
    && forall l | l in db.articles :: db.articles[l].publisher in db.publishers
  }

  /** `Publisher.find_or_create_by(name:)` followed by
      `update(language: "EN") if language.blank?`. */
  function UpsertPublisher(publishers: map<string, Publisher>, name: string): (r: map<string, Publisher>)
    ensures r.Keys == publishers.Keys + {name}
    ensures !IsBlank(r[name].language)
    ensures name !in publishers ==> r[name] == Publisher(name, Some(DefaultLanguage))
    ensures name in publishers && IsBlank(publishers[name].language) ==>
              r[name] == publishers[name].(language := Some(DefaultLanguage))
    ensures name in publishers && !IsBlank(publishers[name].language) ==> r == publishers
    ensures forall n | n in publishers && n != name :: r[n] == publishers[n]
  {
    var found := if name in publishers then publishers[name] else Publisher(name, None);
    assert !IsSpace(DefaultLanguage[0]);
    if IsBlank(found.language) then
      publishers[name := found.(language := Some(DefaultLanguage))]
    else
      publishers[name := found]
  }

  /** Upserting a publisher twice is upserting it once. */
  lemma UpsertPublisherIdempotent(publishers: map<string, Publisher>, name: string)
    ensures UpsertPublisher(UpsertPublisher(publishers, name), name) == UpsertPublisher(publishers, name)
  {
  }

  /** Upserting keeps every publisher stored under its own name with a language. */
  lemma UpsertPublisherPreservesWf(publishers: map<string, Publisher>, name: string)
    requires PublishersWf(publishers)
    ensures PublishersWf(UpsertPublisher(publishers, name))
  {
  }

  /** The guard of `process_article`: title, link and published date all present. */
  predicate Admissible(e: RawEntry) {
    !IsBlank(e.title) && !IsBlank(e.link) && !IsBlank(e.publishedDate)
  }

  /** The row `find_or_create_by(link:)` creates for an admissible entry. */
  function NewArticle(e: RawEntry, publisher: string, parse: DateParser): (a: Article)
    requires Admissible(e)
    ensures a.link == e.link.value && a.title == e.title.value
    ensures a.publishedDate == parse(e.publishedDate.value)
    ensures e.mainImage.Some? ==> a.mainImage == e.mainImage.value
    ensures e.mainImage.None? ==> a.mainImage == Placeholder
    ensures a.categories == Classifier.Categorize(e.title.value, publisher)
    ensures a.publisher == publisher
  {
    Article(
      e.title.value,
      e.link.value,
      parse(e.publishedDate.value),
      e.mainImage.GetOr(Placeholder),
      Classifier.Categorize(e.title.value, publisher),
      publisher)
  }

  /** `Crawler#process_article` on the articles table. */
  function ProcessArticle(articles: Articles, publisher: string, e: RawEntry, parse: DateParser): (r: Articles)
    ensures !Admissible(e) ==> r == articles
    ensures Admissible(e) && e.link.value in articles ==> r == articles
    ensures Admissible(e) && e.link.value !in articles ==>
              && r.Keys == articles.Keys + {e.link.value}
              && r[e.link.value] == NewArticle(e, publisher, parse)
    ensures forall l | l in articles :: l in r && r[l] == articles[l]
    ensures forall l | l in r && l !in articles :: r[l].publisher == publisher
  {
    if IsBlank(e.title) || IsBlank(e.link) || IsBlank(e.publishedDate) then
      articles
    else if e.link.value in articles then
      articles
    else
      articles[e.link.value := NewArticle(e, publisher, parse)]
  }

  /** Processing one entry keeps one well-formed row per link. */
  lemma ProcessArticlePreservesWf(articles: Articles, publisher: string, e: RawEntry, parse: DateParser)
    requires ArticlesWf(articles)
    ensures ArticlesWf(ProcessArticle(articles, publisher, e, parse))
  {
  }

  /** Processing the same entry twice leaves the table as processing it once. */
  lemma ProcessArticleIdempotent(articles: Articles, publisher: string, e: RawEntry, parse: DateParser)
    ensures ProcessArticle(ProcessArticle(articles, publisher, e, parse), publisher, e, parse)
         == ProcessArticle(articles, publisher, e, parse)
  {
  }

  /** The links of the entries that pass the guard. */
  function AdmissibleLinks(es: seq<RawEntry>): (links: set<string>) {
    set i | 0 <= i < |es| && Admissible(es[i]) :: es[i].link.value
  }

  lemma AdmissibleLinksCons(es: seq<RawEntry>)
    requires |es| > 0
    ensures AdmissibleLinks(es)
         == (if Admissible(es[0]) then {es[0].link.value} else {}) + AdmissibleLinks(es[1..])
  {
    var tail := es[1..];
    forall l | l in AdmissibleLinks(es)
      ensures l in (if Admissible(es[0]) then {es[0].link.value} else {}) + AdmissibleLinks(tail)
    {
      var i :| 0 <= i < |es| && Admissible(es[i]) && es[i].link.value == l;
      if i > 0 {
        assert tail[i - 1] == es[i];
      }
    }
    forall l | l in AdmissibleLinks(tail)
      ensures l in AdmissibleLinks(es)
    {
      var i :| 0 <= i < |tail| && Admissible(tail[i]) && tail[i].link.value == l;
      assert es[i + 1] == tail[i];
    }
  }

  /** At most one link per entry passes the guard. */
  lemma {:induction false} AdmissibleLinksBound(es: seq<RawEntry>)
    ensures |AdmissibleLinks(es)| <= |es|
    decreases |es|
  {
    if |es| > 0 {
      AdmissibleLinksCons(es);
      AdmissibleLinksBound(es[1..]);
    }
  }

  /** The entries of one feed processed in document order. */
  function ProcessEntries(articles: Articles, publisher: string, es: seq<RawEntry>, parse: DateParser): (r: Articles)
    ensures r.Keys == articles.Keys + AdmissibleLinks(es)
    ensures forall l | l in articles :: r[l] == articles[l]
    decreases |es|
  {
    if |es| == 0 then
      articles
    else
      var next := ProcessArticle(articles, publisher, es[0], parse);
      AdmissibleLinksCons(es);
      ProcessEntries(next, publisher, es[1..], parse)
  }

  /** A feed adds at most one article per entry. */
  lemma ProcessEntriesGrowth(articles: Articles, publisher: string, es: seq<RawEntry>, parse: DateParser)
    ensures |ProcessEntries(articles, publisher, es, parse)| <= |articles| + |es|
  {
    var r := ProcessEntries(articles, publisher, es, parse);
    AdmissibleLinksBound(es);
    assert |r| == |r.Keys| && |articles| == |articles.Keys|;
  }

  /** Ingesting a feed keeps one well-formed row per link. */
  lemma {:induction false} ProcessEntriesPreservesWf(articles: Articles, publisher: string, es: seq<RawEntry>, parse: DateParser)
    requires ArticlesWf(articles)
    ensures ArticlesWf(ProcessEntries(articles, publisher, es, parse))
    decreases |es|
  {
    if |es| > 0 {
      var next := ProcessArticle(articles, publisher, es[0], parse);
      ProcessArticlePreservesWf(articles, publisher, es[0], parse);
      ProcessEntriesPreservesWf(next, publisher, es[1..], parse);
    }
  }

  /** Article `a`, stored under link `l`, is the row built from one of the
      admissible entries `es` carrying that link. */
  ghost predicate BuiltFromSome(l: string, a: Article, es: seq<RawEntry>, publisher: string, parse: DateParser) {
    exists i | 0 <= i < |es| :: Admissible(es[i]) && es[i].link == Some(l) && a == NewArticle(es[i], publisher, parse)
  }

  /** Every article a feed adds is the row built from one of its admissible
      entries, for the feed's publisher. */
  lemma {:induction false} ProcessEntriesOrigin(articles: Articles, publisher: string, es: seq<RawEntry>, parse: DateParser, l: string)
    requires l in ProcessEntries(articles, publisher, es, parse) && l !in articles
    ensures BuiltFromSome(l, ProcessEntries(articles, publisher, es, parse)[l], es, publisher, parse)
    decreases |es|
  {
    var r := ProcessEntries(articles, publisher, es, parse);
    assert |es| > 0;
    var next := ProcessArticle(articles, publisher, es[0], parse);
    assert r == ProcessEntries(next, publisher, es[1..], parse);
    if l in next {
      assert Admissible(es[0]) && l == es[0].link.value;
      assert r[l] == NewArticle(es[0], publisher, parse);
      assert BuiltFromSome(l, r[l], es, publisher, parse);
    } else {
      ProcessEntriesOrigin(next, publisher, es[1..], parse, l);
      var i :| 0 <= i < |es[1..]| && Admissible(es[1..][i]) && es[1..][i].link == Some(l)
               && r[l] == NewArticle(es[1..][i], publisher, parse);
      assert es[i + 1] == es[1..][i];
      assert Admissible(es[i + 1]) && es[i + 1].link == Some(l) && r[l] == NewArticle(es[i + 1], publisher, parse);
    }
  }

  /** Entries whose links are all stored already change nothing. */
  lemma {:induction false} ProcessEntriesNoOp(articles: Articles, publisher: string, es: seq<RawEntry>, parse: DateParser)
    requires AdmissibleLinks(es) <= articles.Keys
    ensures ProcessEntries(articles, publisher, es, parse) == articles
    decreases |es|
  {
    if |es| > 0 {
      AdmissibleLinksCons(es);
      assert ProcessArticle(articles, publisher, es[0], parse) == articles;
      ProcessEntriesNoOp(articles, publisher, es[1..], parse);
    }
  }

  /** Re-ingesting a feed's entries is a no-op: ingesting twice equals ingesting once. */
  lemma ProcessEntriesIdempotent(articles: Articles, publisher: string, es: seq<RawEntry>, parse: DateParser)
    ensures ProcessEntries(ProcessEntries(articles, publisher, es, parse), publisher, es, parse)
         == ProcessEntries(articles, publisher, es, parse)
  {
    ProcessEntriesNoOp(ProcessEntries(articles, publisher, es, parse), publisher, es, parse);
  }

  /** First write wins: the stored article for a new link is built from the
      first admissible entry carrying that link; later ones are ignored. */
  lemma {:induction false} FirstWriteWins(articles: Articles, publisher: string, es: seq<RawEntry>, parse: DateParser, i: nat)
    requires i < |es| && Admissible(es[i]) && es[i].link.value !in articles
    requires forall j | 0 <= j < i :: Admissible(es[j]) ==> es[j].link != es[i].link
    ensures ProcessEntries(articles, publisher, es, parse)[es[i].link.value] == NewArticle(es[i], publisher, parse)
    decreases i
  {
    var next := ProcessArticle(articles, publisher, es[0], parse);
    if i == 0 {
      assert next[es[0].link.value] == NewArticle(es[0], publisher, parse);
    } else {
      assert es[1..][i - 1] == es[i];
      FirstWriteWins(next, publisher, es[1..], parse, i - 1);
    }
  }
}
