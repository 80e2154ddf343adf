/** Field selection for the two feed formats (`Crawler#process_rss` and
    `Crawler#process_atom`). XML parsing is abstracted away: a feed arrives
    as a sequence of items or entries whose lookups have already been made,
    each one `None` when the element or attribute is missing. */
module Feeds {
  import opened Wrappers
  import opened Text
  import opened Store

  /** What can make a crawl raise part-way. The type is shared by the whole
      crawl: `ConnectionFailed` and `MissingRoot` are raised by
      `fetch_articles` itself, the other two inside the feed processing. */
  datatype CrawlError =
    | ConnectionFailed                             // `HTTParty.get` raised
    | MissingRoot                                  // the parsed document has no root element
    | InvalidUri(base: string, reference: string)  // `URI.join` raised
    | UndefinedName(name: string)                  // `NameError` / `NoMethodError`

  /** `URI.join(base, reference).to_s`, `None` when it raises. */
  type UriJoin = (string, string) -> Option<string>

  /** One RSS `item`: the text of `title`, `link`, `pubDate`, and the `url`
      attribute of `media:thumbnail` and of `media:content`. */
  datatype RssItem = RssItem(
    title: Option<string>,
    link: Option<string>,
    pubDate: Option<string>,
    thumbnailUrl: Option<string>,
    contentUrl: Option<string>)

  /** One Atom `link` element: its `rel` and `href` attributes. */
  datatype AtomLink = AtomLink(rel: Option<string>, href: Option<string>)

  /** One Atom `entry`: the text of `title`, `published`, `updated` and
      `content`, its `link` elements in document order, and the `src` of the
      first `img` element in the content once parsed as HTML. */
  datatype AtomEntry = AtomEntry(
    title: Option<string>,
    links: seq<AtomLink>,
    published: Option<string>,
    updated: Option<string>,
    content: Option<string>,
    contentImage: Option<string>)

  /** The arguments `process_rss` passes for one item; the thumbnail wins
      over the content element. */
  function RssEntry(item: RssItem): (e: RawEntry)
    ensures e.title == item.title && e.link == item.link && e.publishedDate == item.pubDate
    ensures item.thumbnailUrl.Some? ==> e.mainImage == item.thumbnailUrl
    ensures item.thumbnailUrl.None? ==> e.mainImage == item.contentUrl
  {
    RawEntry(
      item.title,
      item.link,
      item.pubDate,
      if item.thumbnailUrl.Some? then item.thumbnailUrl else item.contentUrl)
  }

  function RssEntries(items: seq<RssItem>): (es: seq<RawEntry>)
    ensures |es| == |items|
    ensures forall i | 0 <= i < |items| :: es[i] == RssEntry(items[i])
  {
    seq(|items|, i requires 0 <= i < |items| => RssEntry(items[i]))
  }

  /** `process_rss` as intended: every item handed to `process_article`. */
  function ProcessRss(articles: Articles, publisher: string, items: seq<RssItem>, parse: DateParser): (r: Articles)
    ensures r.Keys == articles.Keys + AdmissibleLinks(RssEntries(items))
    ensures forall l | l in articles :: r[l] == articles[l]
  {
    ProcessEntries(articles, publisher, RssEntries(items), parse)
  }

  /** `process_rss` as written: `items doc.xpath("//item")` calls an
      undefined method `items`, which raises before any item is read. */
  function ProcessRssAsWritten(articles: Articles, publisher: string, items: seq<RssItem>, parse: DateParser)
    : (r: (Articles, CrawlError))
    ensures r.0 == articles
    ensures r.1 == UndefinedName("items")
  {
    (articles, UndefinedName("items"))
  }

  /** Whether `link[rel='alternate']` selects this element. */
  predicate IsAlternate(link: AtomLink) {
    link.rel == Some("alternate")
  }

  /** `entry.at("link[rel='alternate']")&.[]("href")`: the `href` of the first
      link whose `rel` is exactly "alternate", or `None` if there is none. */
  function AlternateHref(links: seq<AtomLink>): (href: Option<string>)
    ensures forall i | 0 <= i < |links| ::
              IsAlternate(links[i]) && (forall j | 0 <= j < i :: !IsAlternate(links[j])) ==> href == links[i].href
    ensures (forall i | 0 <= i < |links| :: !IsAlternate(links[i])) ==> href == None
  {
    if |links| == 0 then
      None
    else if IsAlternate(links[0]) then
      links[0].href
    else
      var rest := AlternateHref(links[1..]);
      assert forall i | 1 <= i < |links| :: links[i] == links[1..][i - 1];
      rest
  }

  /** Line 81: a link that starts with the literal "http" is kept, any other
      is joined onto the feed URL, and a missing one stays missing. */
  function ResolveLink(feedUrl: string, href: Option<string>, join: UriJoin): (r: Result<Option<string>, CrawlError>)
    ensures href.None? ==> r == Ok(None)
    ensures href.Some? && StartsWith(href.value, "http") ==> r == Ok(href)
    ensures href.Some? && !StartsWith(href.value, "http") && join(feedUrl, href.value).Some? ==>
              r == Ok(join(feedUrl, href.value))
    ensures href.Some? && !StartsWith(href.value, "http") && join(feedUrl, href.value).None? ==>
              r == Err(InvalidUri(feedUrl, href.value))
  {
    match href
    case None => Ok(None)
    case Some(h) =>
      if StartsWith(h, "http") then
        Ok(href)
      else
        match join(feedUrl, h)
        case Some(u) => Ok(Some(u))
        case None => Err(InvalidUri(feedUrl, h))
  }

  /** `published || updated`: the `published` text whenever the element is
      present, even when it is empty. */
  function AtomDate(e: AtomEntry): (date: Option<string>)
    ensures e.published.Some? ==> date == e.published
    ensures e.published.None? ==> date == e.updated
  {
    if e.published.Some? then e.published else e.updated
  }

  /** `extract_first_image` as evidently intended: the first image of the
      entry's content, and none when the entry has no content. */
  function FirstImage(e: AtomEntry): (image: Option<string>)
    ensures e.content.None? ==> image == None
    ensures e.content.Some? ==> image == e.contentImage
  {
    if e.content.Some? then e.contentImage else None
  }

  /** `extract_first_image` as written. The test at line 130 is inverted, so
      an entry with content gets nil; an entry without content falls through
      to line 138, which reads the undefined `image_src` and raises. */
  function FirstImageAsWritten(e: AtomEntry): (r: Result<Option<string>, CrawlError>)
    ensures r.Ok? <==> e.content.Some?
    ensures r.Ok? ==> r.value == None
    ensures r.Err? ==> r.error == UndefinedName("image_src")
  {
    if e.content.Some? then Ok(None) else Err(UndefinedName("image_src"))
  }

  /** The arguments `process_atom` passes for one entry, or the error that
      resolving its link raised. */
  function AtomFields(feedUrl: string, e: AtomEntry, join: UriJoin): (r: Result<RawEntry, CrawlError>)
    ensures r.Ok? ==>
              && r.value.title == e.title
              && r.value.publishedDate == AtomDate(e)
              && r.value.mainImage == FirstImage(e)
              && ResolveLink(feedUrl, AlternateHref(e.links), join) == Ok(r.value.link)
    ensures r.Err? <==> ResolveLink(feedUrl, AlternateHref(e.links), join).Err?
  {
    match ResolveLink(feedUrl, AlternateHref(e.links), join)
    case Err(err) => Err(err)
    case Ok(link) => Ok(RawEntry(e.title, link, AtomDate(e), FirstImage(e)))
  }

  /** Lines 79-84 as written: the link is resolved first (line 81), then the
      image is extracted with the helper as written (line 84). */
  function AtomFieldsAsWritten(feedUrl: string, e: AtomEntry, join: UriJoin): (r: Result<RawEntry, CrawlError>)
    ensures r.Ok? <==> AtomFields(feedUrl, e, join).Ok? && e.content.Some?
    ensures r.Ok? ==> r.value == AtomFields(feedUrl, e, join).value.(mainImage := None)
    ensures AtomFields(feedUrl, e, join).Err? ==> r == AtomFields(feedUrl, e, join)
    ensures AtomFields(feedUrl, e, join).Ok? && e.content.None? ==> r == Err(UndefinedName("image_src"))
  {
    match ResolveLink(feedUrl, AlternateHref(e.links), join)
    case Err(err) => Err(err)
    case Ok(link) =>
      match FirstImageAsWritten(e)
      case Err(err) => Err(err)
      case Ok(image) => Ok(RawEntry(e.title, link, AtomDate(e), image))
  }

  /** Lines 130 and 138 as written: an entry whose link resolves still raises
      when it has no content, which ends the Atom loop as a failing join
      does, and an entry with content loses its image; the intended helper
      does neither. */
  lemma ExtractFirstImageAsWrittenDiffers(feedUrl: string, e: AtomEntry, join: UriJoin)
    requires ResolveLink(feedUrl, AlternateHref(e.links), join).Ok?
    ensures AtomFields(feedUrl, e, join).Ok?
    ensures e.content.None? ==> AtomFieldsAsWritten(feedUrl, e, join) == Err(UndefinedName("image_src"))
    ensures e.content.Some? ==>
              && AtomFields(feedUrl, e, join).value.mainImage == e.contentImage
              && AtomFieldsAsWritten(feedUrl, e, join) == Ok(AtomFields(feedUrl, e, join).value.(mainImage := None))
  {
    var link := ResolveLink(feedUrl, AlternateHref(e.links), join).value;
    assert AtomFields(feedUrl, e, join) == Ok(RawEntry(e.title, link, AtomDate(e), FirstImage(e)));
  }

  /** The entries read before the first one whose link cannot be resolved,
      with the error that stopped the loop. Extraction does not read the
      store, so reading all of them first and then processing them is the
      same as interleaving the two as `process_atom` does. */
  function ExtractAtom(feedUrl: string, entries: seq<AtomEntry>, join: UriJoin)
    : (r: (seq<RawEntry>, Option<CrawlError>))
    ensures |r.0| <= |entries|
    ensures forall i | 0 <= i < |r.0| :: AtomFields(feedUrl, entries[i], join) == Ok(r.0[i])
    ensures r.1.None? ==> |r.0| == |entries|
    ensures r.1.Some? ==> |r.0| < |entries| && AtomFields(feedUrl, entries[|r.0|], join) == Err(r.1.value)
  {
    if |entries| == 0 then
      ([], None)
    else
      match AtomFields(feedUrl, entries[0], join)
      case Err(err) => ([], Some(err))
      case Ok(raw) =>
        var rest := ExtractAtom(feedUrl, entries[1..], join);
        assert forall i | 1 <= i < |entries| :: entries[i] == entries[1..][i - 1];
        ([raw] + rest.0, rest.1)
  }

  /** `process_atom`: the store after the entries read, and the error that
      ended the loop early, if any. */
  function ProcessAtom(articles: Articles, feedUrl: string, publisher: string, entries: seq<AtomEntry>,
                       parse: DateParser, join: UriJoin): (r: (Articles, Option<CrawlError>))
    ensures r.0.Keys == articles.Keys + AdmissibleLinks(ExtractAtom(feedUrl, entries, join).0)
    ensures forall l | l in articles :: r.0[l] == articles[l]
    ensures r.1 == ExtractAtom(feedUrl, entries, join).1
  {
    var (raws, err) := ExtractAtom(feedUrl, entries, join);
    (ProcessEntries(articles, publisher, raws, parse), err)
  }

  /** Link `l` is what line 81 makes of entry `e`'s alternate `href`: the
      `href` itself when it starts with "http", otherwise its join onto the
      feed URL. */
  predicate LinkFrom(feedUrl: string, e: AtomEntry, join: UriJoin, l: string) {
    match AlternateHref(e.links)
    case None => false
    case Some(h) => if StartsWith(h, "http") then l == h else join(feedUrl, h) == Some(l)
  }

  /** A link that line 81 resolves successfully is what `LinkFrom` describes. */
  lemma ResolvedLinkFrom(feedUrl: string, e: AtomEntry, join: UriJoin, l: string)
    requires ResolveLink(feedUrl, AlternateHref(e.links), join) == Ok(Some(l))
    ensures LinkFrom(feedUrl, e, join, l)
  {
  }

  /** Every article an RSS feed adds comes from one of its items: it is
      stored under the item's link, carries the item's title, and its image
      is the thumbnail URL, else the media content URL, else the
      placeholder. */
  lemma ProcessRssOrigin(articles: Articles, publisher: string, items: seq<RssItem>, parse: DateParser, l: string)
    requires l in ProcessRss(articles, publisher, items, parse) && l !in articles
    ensures var a := ProcessRss(articles, publisher, items, parse)[l];
            exists i | 0 <= i < |items| ::
              && items[i].link == Some(l)
              && items[i].title == Some(a.title)
              && a.mainImage == items[i].thumbnailUrl.GetOr(items[i].contentUrl.GetOr(Placeholder))
              && a.publisher == publisher
  {
    var es := RssEntries(items);
    var r := ProcessRss(articles, publisher, items, parse);
    assert r == ProcessEntries(articles, publisher, es, parse);
    ProcessEntriesOrigin(articles, publisher, es, parse, l);
    var i :| 0 <= i < |es| && Admissible(es[i]) && es[i].link == Some(l) && r[l] == NewArticle(es[i], publisher, parse);
    var item := items[i];
    assert es[i] == RssEntry(item);
    assert es[i].mainImage.GetOr(Placeholder) == item.thumbnailUrl.GetOr(item.contentUrl.GetOr(Placeholder));
  }

  /** Every article an Atom feed adds comes from one of its entries: it is
      stored under the entry's alternate link, resolved against the feed URL
      when it does not start with "http", carries the entry's title, and its
      image is the content's first image, else the placeholder. */
  lemma ProcessAtomOrigin(articles: Articles, feedUrl: string, publisher: string, entries: seq<AtomEntry>,
                          parse: DateParser, join: UriJoin, l: string)
    requires l in ProcessAtom(articles, feedUrl, publisher, entries, parse, join).0 && l !in articles
    ensures var a := ProcessAtom(articles, feedUrl, publisher, entries, parse, join).0[l];
            exists i | 0 <= i < |entries| ::
              && LinkFrom(feedUrl, entries[i], join, l)
              && entries[i].title == Some(a.title)
              && a.mainImage == FirstImage(entries[i]).GetOr(Placeholder)
              && a.publisher == publisher
  {
    var raws := ExtractAtom(feedUrl, entries, join).0;
    var r := ProcessAtom(articles, feedUrl, publisher, entries, parse, join).0;
    assert r == ProcessEntries(articles, publisher, raws, parse);
    ProcessEntriesOrigin(articles, publisher, raws, parse, l);
    var i :| 0 <= i < |raws| && Admissible(raws[i]) && raws[i].link == Some(l) && r[l] == NewArticle(raws[i], publisher, parse);
    var e := entries[i];
    assert AtomFields(feedUrl, e, join) == Ok(raws[i]);
    ResolvedLinkFrom(feedUrl, e, join, l);
  }

  /** An Atom entry whose `published` element is present but empty is skipped,
      even when its `updated` element carries a date. */
  lemma EmptyPublishedShadowsUpdated(feedUrl: string, e: AtomEntry, join: UriJoin)
    requires e.published == Some("")
    requires AtomFields(feedUrl, e, join).Ok?
    ensures !Admissible(AtomFields(feedUrl, e, join).value)
  {
  }

  /** The "http" test is a literal prefix test, not a scheme test: a relative
      path that begins with those letters is stored without being resolved. */
  lemma HttpPrefixIsLiteral(feedUrl: string, join: UriJoin)
    ensures ResolveLink(feedUrl, Some("httpdocs/page.html"), join) == Ok(Some("httpdocs/page.html"))
  {
    assert "httpdocs/page.html"[..4] == "http";
  }

  /** Only a `rel` of exactly "alternate" selects a link: a link without
      `rel` is ignored, and the first alternate link decides even when it has
      no `href`. */
  lemma AlternateNeedsExplicitRel(h: string, g: string)
    ensures AlternateHref([AtomLink(None, Some(h))]) == None
    ensures AlternateHref([AtomLink(Some("alternate"), None), AtomLink(Some("alternate"), Some(g))]) == None
  {
  }

  /** Line 53 as written loses every item: a feed with one complete item
      gains an article through `ProcessRss` and none through the code as
      written. */
  lemma Line53LosesItems(publisher: string, parse: DateParser)
    ensures var items := [RssItem(Some("Flood Alert"), Some("http://x.test/a"),
                                  Some("Mon, 01 Jan 2024 00:00:00 GMT"), None, None)];
            && "http://x.test/a" in ProcessRss(map[], publisher, items, parse)
            && ProcessRssAsWritten(map[], publisher, items, parse).0 == map[]
  {
    var items := [RssItem(Some("Flood Alert"), Some("http://x.test/a"),
                          Some("Mon, 01 Jan 2024 00:00:00 GMT"), None, None)];
    assert !IsSpace("Flood Alert"[0]) && !IsSpace("http://x.test/a"[0]);
    assert !IsSpace("Mon, 01 Jan 2024 00:00:00 GMT"[0]);
    assert Admissible(RssEntries(items)[0]);
    assert "http://x.test/a" in AdmissibleLinks(RssEntries(items));
  }
}
