# News aggregator crawler, modelled in Dafny

This project models the feed-ingestion service `Crawler` of a Rails news
aggregator (`app/services/crawler.rb`). Given a feed URL and a publisher name,
one crawl does the following:

1. It upserts the publisher by name. The language defaults to "EN" when it is blank.
2. It fetches the feed and gives up on a non-success response.
3. It detects RSS or Atom and reads every item or entry.
4. It hands each one to `process_article`. That step skips an entry whose
   title, link or date is blank. Otherwise it finds or creates the article
   keyed by link. The category comes from a keyword classifier.

The model makes HTTP, XML, date parsing and URI joining into inputs. With
those fixed, one crawl is a pure function from the database to the database.

Files and modules:

- `wrappers.dfy` (`Wrappers`): `Option` (Ruby's `nil`) and `Result` (an operation that may raise).
- `text.dfy` (`Text`): Ruby's `blank?`, `downcase` and `start_with?`, and the word characters of the regex anchor `\b`.
- `classifier.dfy` (`Classifier`): `categorize`. It is stated against a reference predicate: "some keyword occurs as a whole word".
- `store.dfy` (`Store`): the publishers and articles tables as maps keyed by name and by link. It holds the publisher upsert, `process_article`, and the fold over a feed's entries.
- `feeds.dfy` (`Feeds`): field selection for RSS items and Atom entries. This covers the `rel='alternate'` link, the "http" prefix test with URI joining, and `published` before `updated`.
- `crawler.dfy` (`Crawler`): `fetch_articles`, its branch structure, and the version of lines 18 and 53 as written.

Some of the code's behaviour is easy to misread. The model follows the code:

- `categorize` has one keyword rule: a whole-word world/international/global/overseas/abroad makes "World". Everything else is "News", and "Eat Drink KL" is always "Food".
- Line 15 only ever sets the language "EN", and only when it is blank.
- The relative-link test is the literal prefix "http", not a scheme test. A relative path such as `httpdocs/a` is stored unresolved, and a `mailto:` link is joined.
- Only a `rel` of exactly `alternate` selects an Atom link. A link without `rel` is ignored. The first alternate link decides even when it has no `href`.
- `published || updated` keeps a present but empty `published`. Such an entry is skipped even when `updated` holds a date.
- A `URI.join` that raises aborts the rest of the feed. The entries before it stay stored.
- A parsed document without a root element raises at line 29.

## Model

| member | source | states |
|---|---|---|
| Classifier.ScanFrom | app/services/crawler.rb:153 | the left-to-right regex scan from an offset finds a match exactly when some keyword occurs there or later with a word boundary on both sides |
| Classifier.Categorize | app/services/crawler.rb:142-168 | "Food" for "Eat Drink KL"; for any other publisher "World" exactly when the lower-cased title contains a whole-word keyword, "News" exactly when it does not; the result is always one of the three labels |
| Classifier.NamedNewsBranchIsDefault | app/services/crawler.rb:151-166 | "SAYS" and "Harian Metro" are classified exactly as any other non-food publisher |
| Classifier.CategorizeIgnoresCase | app/services/crawler.rb:144 | titles equal up to letter case get the same category |
| Classifier.InternationalIsWorld | app/services/crawler.rb:161-162 | "International Basketball Tournament" is "World" for every non-food publisher |
| Classifier.WorldsHasNoWholeKeyword | app/services/crawler.rb:153 | the pattern does not match "worlds": "world" is followed by a word character, and no other keyword occurs |
| Classifier.KeywordInsideWordIsNews | app/services/crawler.rb:153-166 | a keyword that is only part of a longer word ("Worlds") does not match, so the title is "News" for every non-food publisher |
| Classifier.NoKeywordLetters | app/services/crawler.rb:153-157 | a lower-cased title lacking each of the letters w, i, g, v and b matches no keyword |
| Classifier.FloodAlertIsNews | app/services/crawler.rb:159-166 | "Flood Alert" is "News" for every non-food publisher |
| Text.SameIgnoringCaseIffSameDowncase | app/services/crawler.rb:144 | two titles have the same `downcase` exactly when they agree character by character up to case |
| Store.UpsertPublisher | app/services/crawler.rb:13-15 | afterwards the publisher exists with a non-blank language; a new one gets "EN"; an existing one with a blank language gets "EN"; an existing language is never overwritten; other publishers are untouched |
| Store.UpsertPublisherIdempotent | app/services/crawler.rb:13-15 | upserting the same publisher twice equals upserting it once |
| Store.UpsertPublisherPreservesWf | app/services/crawler.rb:13-15 | every publisher stays stored under its own name with a language |
| Store.NewArticle | app/services/crawler.rb:109-120 | a created article carries the entry's title and link; its date is the parser's result, which is `None` on failure; its image is the given one or "placeholder.jpg"; it also carries the computed category and the publisher |
| Store.ProcessArticle | app/services/crawler.rb:98-127 | a blank title, link or date leaves the table unchanged; an existing link leaves it unchanged (first write wins); otherwise exactly that link is added, holding the new article; no existing row changes |
| Store.ProcessArticlePreservesWf | app/services/crawler.rb:109-120 | one entry keeps every row stored under its own link with non-blank title and link and a known category |
| Store.ProcessArticleIdempotent | app/services/crawler.rb:109-120 | processing the same entry twice equals processing it once |
| Store.ProcessEntries | app/services/crawler.rb:56-70 | after a feed's entries the stored links are the old ones plus the links of the entries that pass the guard; old rows are unchanged |
| Store.ProcessEntriesGrowth | app/services/crawler.rb:56-70 | a feed adds at most one article per entry |
| Store.ProcessEntriesPreservesWf | app/services/crawler.rb:109-120 | ingestion keeps one row per link, stored under that link, with non-blank title and link and a known category |
| Store.ProcessEntriesOrigin | app/services/crawler.rb:109-120 | every added article is the row built from one of the feed's admissible entries for the feed's publisher |
| Store.ProcessEntriesNoOp | app/services/crawler.rb:116 | entries whose links are all stored already change nothing |
| Store.ProcessEntriesIdempotent | app/services/crawler.rb:109-120 | ingesting the same entries twice equals ingesting them once |
| Store.FirstWriteWins | app/services/crawler.rb:116-120 | the row stored for a new link is the one built from the first admissible entry with that link; later entries with the same link are ignored |
| Feeds.RssEntry | app/services/crawler.rb:57-60 | an RSS item passes its title, link and pubDate unchanged; the image is the thumbnail URL when present, else the media content URL |
| Feeds.ProcessRss | app/services/crawler.rb:52-71 | every RSS item is processed: the stored links grow by exactly the admissible items' links and old rows are kept |
| Feeds.ProcessRssAsWritten | app/services/crawler.rb:53 | as written, the RSS path raises on the undefined method `items` and leaves the table unchanged |
| Feeds.Line53LosesItems | app/services/crawler.rb:53 | a feed with one complete item gains its article through the intended code and gains nothing as written |
| Feeds.AlternateHref | app/services/crawler.rb:80 | the link is the `href` of the first link element whose `rel` is exactly "alternate", and `None` when there is none |
| Feeds.ResolveLink | app/services/crawler.rb:81 | a missing link stays missing; a link starting with "http" is kept; any other link becomes the join with the feed URL, or an invalid-URI error when the join raises |
| Feeds.AtomDate | app/services/crawler.rb:82 | the date is `published` whenever that element is present, otherwise `updated` |
| Feeds.FirstImage | app/services/crawler.rb:129-140 | as intended, an entry without `content` has no image, and otherwise its image is the `src` of the first `img` in the content |
| Feeds.FirstImageAsWritten | app/services/crawler.rb:129-140 | as written, an entry with content gets no image and an entry without content raises on the undefined `image_src` |
| Feeds.AtomFields | app/services/crawler.rb:79-84 | an Atom entry yields its title, its resolved alternate link, its published-or-updated date and the first image of its content, or the join error; it fails exactly when the join fails |
| Feeds.AtomFieldsAsWritten | app/services/crawler.rb:79-84 | as written, an entry yields the intended fields with no image when it has content; it raises the join error when the join fails, and otherwise raises on `image_src` when it has no content |
| Feeds.ExtractFirstImageAsWrittenDiffers | app/services/crawler.rb:84 | for an entry whose link resolves, the intended fields always exist, while the code as written raises when the entry has no content and drops the image when it has content |
| Feeds.ExtractAtom | app/services/crawler.rb:78-95 | the entries read are exactly the prefix before the first entry whose link cannot be resolved, each with its fields; the error is that entry's error |
| Feeds.ProcessAtom | app/services/crawler.rb:74-96 | the Atom path adds exactly the admissible links of the entries read before any join error, keeps old rows, and reports that error |
| Feeds.ProcessRssOrigin | app/services/crawler.rb:56-69 | every article an RSS feed adds is stored under some item's link and carries that item's title, the run's publisher, and as image the thumbnail URL, else the media content URL, else "placeholder.jpg" |
| Feeds.ResolvedLinkFrom | app/services/crawler.rb:81 | a successfully resolved link is the alternate `href` itself when it starts with "http", and otherwise that `href` joined onto the feed URL |
| Feeds.ProcessAtomOrigin | app/services/crawler.rb:78-94 | every article an Atom feed adds is stored under some entry's alternate `href`, resolved against the feed URL unless it starts with "http", and carries that entry's title, the run's publisher, and its content's first image or "placeholder.jpg" |
| Feeds.EmptyPublishedShadowsUpdated | app/services/crawler.rb:82 | an entry with an empty `published` element is skipped even when `updated` is present |
| Feeds.HttpPrefixIsLiteral | app/services/crawler.rb:81 | a relative path beginning with the letters "http" is stored unresolved |
| Feeds.AlternateNeedsExplicitRel | app/services/crawler.rb:80 | a link without `rel` is not selected; a first alternate link without `href` hides a later one |
| Crawler.FetchArticles | app/services/crawler.rb:10-47 | the publisher is upserted first; a connection error or non-success status leaves the articles untouched and only the latter reports a failed fetch; RSS is processed whenever an `rss` element exists, even with a `feed` element; otherwise Atom is processed when a `feed` element exists, and its table and status follow the Atom path, raising on a join error; neither means no articles and an unknown-format status; a connection error and a document without a root element raise; old rows are kept |
| Crawler.FetchArticlesGrowth | app/services/crawler.rb:32-40 | a run that receives a response adds at most one article per item or entry of the dispatched format |
| Crawler.FetchArticlesProcessesDispatched | app/services/crawler.rb:32-40 | every run's article table is the old one with the dispatched format's entries processed in order, or with none when the run stopped before parsing |
| Crawler.FetchArticlesIdempotent | app/services/crawler.rb:10-47 | running the crawler again on the same response leaves the database and the status as one run does |
| Crawler.FetchArticlesPreservesWf | app/services/crawler.rb:13-40 | a run keeps the database well formed: one row per link, publishers with languages, and every article's publisher present; every added article belongs to the run's publisher |
| Crawler.FetchArticlesAsWritten | app/services/crawler.rb:17-18 | as written, every run upserts the publisher and then raises, with no article created |
| Crawler.FloodAlertScenario | app/services/crawler.rb:56-70 | an RSS feed with the single item "Flood Alert" and no image, crawled into an empty database, stores exactly one article: placeholder image, category "News", the parsed date |
| Crawler.Line18LosesArticles | app/services/crawler.rb:18 | on that feed the intended code stores the article and the code as written stores nothing |

## Findings

| source | as written | input that shows it | evidently intended | confidence | as-written member | corrected member |
|---|---|---|---|---|---|---|
| app/services/crawler.rb:18 | `if resnpose.success?` reads an undefined name and raises `NameError` | any received response, e.g. status 200 with one complete RSS item | `if response.success?` | not executed; high | Crawler.FetchArticlesAsWritten (Crawler.Line18LosesArticles) | Crawler.FetchArticles |
| app/services/crawler.rb:53 | `items doc.xpath("//item")` calls an undefined method `items` and raises `NoMethodError` | any RSS feed, e.g. one complete item | `items = doc.xpath("//item")` | not executed; high | Feeds.ProcessRssAsWritten (Feeds.Line53LosesItems) | Feeds.ProcessRss |
| app/services/crawler.rb:130-139 | `if html_content` returns nil when content is present; without content the method reaches `image_src`, an undefined name, and raises `NameError`, which ends the Atom loop | an Atom entry with a resolvable link and no `content` element (raises); one whose content holds `<img src="a.jpg">` (image lost) | `unless html_content` at line 130 and `image_src = img&.[]("src")` at line 137 | not executed; high | Feeds.FirstImageAsWritten (Feeds.ExtractFirstImageAsWrittenDiffers) | Feeds.FirstImage (Feeds.AtomFields, Feeds.ProcessAtomOrigin) |

The rest of the model, `Crawler.FetchArticles` included, uses the corrected definitions. For an entry without content, line 135 passes nil to `Nokogiri::HTML`. If that call raises before line 138 is reached, the exception differs from the `NameError` the model names, but the Atom loop still ends at that entry.

## Left out

- HTTP fetching (`HTTParty.get`) is an input `Response`. Redirects, timeouts and the body text are not modelled, and a raised connection error is one variant.
- XML parsing, `remove_namespaces!` and XPath/CSS lookups are also left out. A parsed feed is a `Document`: root presence, `rss`/`feed` presence, and items and entries whose lookups have already been made. Nokogiri's recovery from malformed XML is part of that abstraction.
- HTML parsing inside `extract_first_image` (app/services/crawler.rb:135-137) is left out. An Atom entry carries its `content` text and the `src` of the first `img` in it as inputs. The helper's control flow is modelled both as written and as intended (see Findings).
- Feeds.RssEntry: assumes that the `media|thumbnail` and `media|content` lookups at app/services/crawler.rb:60 return an element or nil. Line 28's `remove_namespaces!` has already removed the `media` namespace, so Nokogiri plausibly raises an undefined-namespace-prefix `XPath::SyntaxError` there on every item. That would stop even the corrected RSS path at its first item. This was not executed, and the model does not represent that raise. After `remove_namespaces!` the elements are plain `thumbnail` and `content`, which the model's `thumbnailUrl` and `contentUrl` stand for.
- `DateTime.parse` and `URI.join` are function parameters (`DateParser`, `UriJoin`). Their internals are foreign library code. A raising parse is `None`, which the code rescues; a raising join is `None`, which the code does not rescue.
- Logging is not modelled. That includes the "no articles" check at app/services/crawler.rb:42-46, which only logs.
- The failed-save branch at app/services/crawler.rb:122-126 is not modelled. The model's creation always succeeds, because `Article` validates only its publisher, and the run has just saved that publisher.
- Crawler.FetchArticles: requires a non-blank publisher name. `Publisher` validates name presence, so with a blank name the publisher is never saved, and article creation then fails inside ActiveRecord. That path is not modelled.
- Classifier.Categorize: `downcase` and the word characters of `\b` are modelled for ASCII and Latin-1 only. Ruby uses full Unicode for both. Beyond Latin-1, two lower-case mappings reach a keyword letter. The Kelvin sign U+212A becomes "k", which no keyword contains. "İ" (U+0130) becomes "i" followed by the combining dot U+0307; that "i" cannot complete a keyword, because the next character of every keyword after an "i" is a letter, not U+0307. A non-Latin-1 letter next to a keyword, however, counts as a word boundary in the model but not in Ruby.
- `app/workers/article_fetcher_worker.rb` is not modelled. It is scheduling glue with a fixed table of feeds, and its per-feed rescue only isolates failures.
- The controllers, the `by_language` scope and the migrations are not modelled. They are read-side queries and schema.
- Overlapping concurrent crawls are not modelled. The articles table has no unique index on `link`, so one row per link holds only for sequential crawls, which is what the model states.
