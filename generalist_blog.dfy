/**
 * The Generalist AI blog generator (`feed_generators/generalist_blog.py`):
 * reading the date printed under each post, turning the post links of the
 * blog page into articles, and listing them newest first in the feed.
 *
 * The page is given as the sequence of its `a.blog-menu-article-link`
 * elements, each with its `href` and the texts of its first `h1`, `h2` and
 * `p`; fetching the page and the HTML parsing are not part of this model.
 */
module GeneralistBlog {
  import opened Options
  import opened Strings
  import opened Dates
  import opened Sorting
  import opened Feeds

  // ---------------------------------------------------------------------
  // parse_date

  /**
   * `datetime.strptime(text, fmt)` for "<month> %d, %Y" where the month is
   * written with one of `names`, case-insensitively: the whole text must be
   * one such date, and a real one.
   */
  function StrptimeAs(text: string, names: seq<string>): (r: Option<Date>)
    ensures r.Some? ==> ValidDate(r.value)
  {
    var scan := MonthDayYearAt(text, 0, names, true);
    if scan.Some? && scan.value.end == |text| && ValidDate(scan.value.date) then Some(scan.value.date)
    else None
  }

  /**
   * `parse_date`: the stripped text read as "Nov 04, 2025", else as
   * "September 24, 2025", else nothing. A date is read only when the whole
   * stripped text, from its first to its last character, is one real date
   * with an abbreviated or a full month name; the abbreviated form is tried first.
   */
  function ParseDate(text: string): (r: Option<Date>)
    ensures r.Some? ==> ValidDate(r.value)
    ensures r.Some? ==>
              MonthDayYearAt(Strip(text), 0, MonthAbbrevs, true) == Some(Scan(r.value, |Strip(text)|))
              || MonthDayYearAt(Strip(text), 0, MonthNames, true) == Some(Scan(r.value, |Strip(text)|))
    ensures StrptimeAs(Strip(text), MonthAbbrevs).Some? ==> r == StrptimeAs(Strip(text), MonthAbbrevs)
    ensures StrptimeAs(Strip(text), MonthAbbrevs).None? ==> r == StrptimeAs(Strip(text), MonthNames)
  {
    var t := Strip(text);
    var short := StrptimeAs(t, MonthAbbrevs);
    if short.Some? then short else StrptimeAs(t, MonthNames)
  }

  /** When neither format matches the stripped text, there is no date. */
  lemma ParseDateNoMatch(text: string)
    ensures (forall names :: names in [MonthAbbrevs, MonthNames] ==>
               MonthDayYearAt(Strip(text), 0, names, true).None?) ==> ParseDate(text).None?
  {
    assert MonthAbbrevs in [MonthAbbrevs, MonthNames] && MonthNames in [MonthAbbrevs, MonthNames];
  }

  /** Surrounding whitespace does not change what is read. */
  lemma ParseDateIgnoresSpace(text: string)
    ensures ParseDate(Strip(text)) == ParseDate(text)
  {
    StripIdempotent(text);
  }

  /** A text that scans as one valid date from its first to its last character is read as that date. */
  lemma StrptimeWhole(t: string, names: seq<string>, d: Date)
    requires ValidDate(d) && MonthDayYearAt(t, 0, names, true) == Some(Scan(d, |t|))
    ensures StrptimeAs(t, names) == Some(d)
  {
  }

  /** A printed form has no whitespace at either end. */
  lemma FormStripped(s: string, name: string, year: nat, rest: string)
    requires name != [] && !IsSpace(name[0]) && s == name + (rest + Digits(year, 4))
    ensures Strip(s) == s
  {
    var yt := Digits(year, 4);
    assert s[0] == name[0];
    assert s[|s| - 1] == yt[3];
    assert IsDigit(yt[3]);
    TrimUnchanged(s, IsSpace);
  }

  /** A date the blog prints as "Nov 04, 2025" is read back as that date. */
  lemma ParseShortForm(d: Date)
    requires ValidDate(d)
    ensures ParseDate(ShortForm(d)) == Some(d)
  {
    var s := ShortForm(d);
    var name := MonthAbbrevs[d.month - 1];
    MonthShapes();
    assert s == name + ((" " + Digits(d.day, 2) + ", ") + Digits(d.year, 4));
    FormStripped(s, name, d.year, " " + Digits(d.day, 2) + ", ");
    ShortFormScan(d, true);
    StrptimeWhole(s, MonthAbbrevs, d);
  }

  /** A date the blog prints as "September 24, 2025" is read back as that date. */
  lemma ParseLongForm(d: Date)
    requires ValidDate(d)
    ensures ParseDate(LongForm(d)) == Some(d)
  {
    var s := LongForm(d);
    var name := MonthNames[d.month - 1];
    MonthShapes();
    assert s == name + ((" " + DayText(d.day) + ", ") + Digits(d.year, 4));
    FormStripped(s, name, d.year, " " + DayText(d.day) + ", ");
    LongFormScan(d, true);
    StrptimeWhole(s, MonthNames, d);
    LongFormAsShort(d);
  }

  /**
   * The long form is tried as "%b %d, %Y" first: that reads it only in May,
   * whose name is its own abbreviation, and then as the same date.
   */
  lemma LongFormAsShort(d: Date)
    requires ValidDate(d)
    ensures d.month == 5 ==> StrptimeAs(LongForm(d), MonthAbbrevs) == Some(d)
    ensures d.month != 5 ==> StrptimeAs(LongForm(d), MonthAbbrevs).None?
  {
    var s := LongForm(d);
    MonthShapes();
    if d.month == 5 {
      assert s == MonthAbbrevs[4] + (" " + DayText(d.day) + ", " + Digits(d.year, 4));
      FormScan(s, MonthAbbrevs, true, 4, d.day, DayText(d.day), d.year);
      StrptimeWhole(s, MonthAbbrevs, d);
    } else {
      var name := MonthNames[d.month - 1];
      assert s[3] == name[3];
      NoAbbreviatedMonth(s);
    }
  }

  /**
   * "%b %d, %Y" does not accept a text whose fourth character is not
   * whitespace, such as a full month name other than "May".
   */
  lemma NoAbbreviatedMonth(s: string)
    requires |s| > 3 && !IsSpace(s[3])
    ensures MonthDayYearAt(s, 0, MonthAbbrevs, true).None?
  {
    MonthCodesFacts();
    assert DayYearAt(s, 3).None? by { NoSpaceNoDay(s, 3); }
  }

  /** Without whitespace at `p` the day and year cannot be read from there. */
  lemma NoSpaceNoDay(s: string, p: nat)
    requires p < |s| && !IsSpace(s[p])
    ensures DayYearAt(s, p).None?
  {
  }

  // ---------------------------------------------------------------------
  // extract_articles

  /** One `a.blog-menu-article-link`: its `href` and the stripped texts of its first `h1`, `h2` and `p`, when present. */
  datatype PostLink = PostLink(href: Option<string>, h1: Option<string>, h2: Option<string>, p: Option<string>)

  /** One article dictionary; its date is always set. */
  datatype Article = Article(title: string, link: string, description: string, date: Instant, category: string)

  const SiteRoot: string := "https://generalistai.com"

  const GeneralistCategory: string := "Generalist AI"

  /** Hrefs starting with "http" are kept; any other is taken as relative to the site. */
  function AbsoluteLink(href: string): string {
    if StartsWith(href, "http") then href else SiteRoot + href
  }

  /**
   * The article a post link yields, if any: none without an href or without
   * a title; otherwise the title, the absolute link, the `h2` text (the title
   * when there is no `h2`), the date under the post (`now` when there is no
   * `p` or its text is not a date) and the fixed category.
   */
  function ArticleOf(l: PostLink, now: Instant): (r: Option<Article>)
    ensures r.Some? <==> l.href.Some? && l.href.value != [] && l.h1.Some? && l.h1.value != []
    ensures r.Some? ==>
              var a := r.value;
              && a.title == l.h1.value && a.title != []
              && (StartsWith(l.href.value, "http") ==> a.link == l.href.value)
              && (!StartsWith(l.href.value, "http") ==> a.link == SiteRoot + l.href.value)
              && (l.h2.Some? ==> a.description == l.h2.value)
              && (l.h2.None? ==> a.description == a.title)
              && a.category == GeneralistCategory
  {
    if l.href.None? || l.href.value == [] then None
    else
      var title := l.h1;
      var description := if l.h2.Some? then l.h2.value else title.GetOr([]);
      var date := if l.p.Some? then ParseDate(l.p.value) else None;
      if title.None? || title.value == [] then None
      else Some(Article(title.value, AbsoluteLink(l.href.value), description,
                        if date.Some? then Midnight(date.value) else now, GeneralistCategory))
  }

  /** The article's date: the date printed in the `p`, at midnight, or `now` when there is none or it is not a date. */
  lemma ArticleOfDate(l: PostLink, now: Instant)
    requires ArticleOf(l, now).Some?
    ensures l.p.Some? && ParseDate(l.p.value).Some? ==> ArticleOf(l, now).value.date == Midnight(ParseDate(l.p.value).value)
    ensures l.p.None? || ParseDate(l.p.value).None? ==> ArticleOf(l, now).value.date == now
  {
  }

  /** `extract_articles`: the articles of the post links, in page order, with no merging of duplicates. */
  function Extracted(links: seq<PostLink>, now: Instant): seq<Article> {
    if links == [] then []
    else
      var last := ArticleOf(links[|links| - 1], now);
      Extracted(links[..|links| - 1], now) + (if last.Some? then [last.value] else [])
  }

  /** The loop appending one article per post link that passes the checks. */
  method ExtractArticles(links: seq<PostLink>, now: Instant) returns (articles: seq<Article>)
    ensures articles == Extracted(links, now)
  {
    articles := [];
    for n := 0 to |links|
      invariant articles == Extracted(links[..n], now)
    {
      assert links[..n + 1][..n] == links[..n];
      var link := links[n];
      if link.href.None? || link.href.value == [] {
        continue;
      }
      var href := link.href.value;
      var title := link.h1;
      var description := if link.h2.Some? then link.h2.value else title.GetOr([]);
      var date := if link.p.Some? then ParseDate(link.p.value) else None;
      if title.None? || title.value == [] {
        continue;
      }
      var absolute := if StartsWith(href, "http") then href else SiteRoot + href;
      articles := articles + [Article(title.value, absolute, description,
                                      if date.Some? then Midnight(date.value) else now, GeneralistCategory)];
    }
    assert links[..|links|] == links;
  }

  /** The positions of the post links that yield an article, in page order. */
  function Origins(links: seq<PostLink>, now: Instant): (r: seq<nat>)
    ensures forall i :: 0 <= i < |r| ==> r[i] < |links|
  {
    if links == [] then []
    else
      var n := |links| - 1;
      Origins(links[..n], now) + (if ArticleOf(links[n], now).Some? then [n] else [])
  }

  /**
   * The articles are exactly those of the post links that yield one, each from
   * its own link, in page order: at most one article per post link.
   */
  lemma {:induction false} ExtractedFromLinks(links: seq<PostLink>, now: Instant)
    ensures |Extracted(links, now)| == |Origins(links, now)| <= |links|
    ensures forall i, j :: 0 <= i < j < |Origins(links, now)| ==> Origins(links, now)[i] < Origins(links, now)[j]
    ensures forall i :: 0 <= i < |Origins(links, now)| ==>
              ArticleOf(links[Origins(links, now)[i]], now) == Some(Extracted(links, now)[i])
    ensures forall j :: 0 <= j < |links| && j !in Origins(links, now) ==> ArticleOf(links[j], now).None?
  {
    if links != [] {
      var n := |links| - 1;
      var init := links[..n];
      ExtractedFromLinks(init, now);
      assert forall j :: 0 <= j < n ==> init[j] == links[j];
    }
  }

  /** Every article has a non-empty title and the Generalist AI category. */
  lemma {:induction false} ExtractedTitled(links: seq<PostLink>, now: Instant)
    ensures forall a :: a in Extracted(links, now) ==> a.title != [] && a.category == GeneralistCategory
  {
    if links != [] {
      ExtractedTitled(links[..|links| - 1], now);
    }
  }

  // ---------------------------------------------------------------------
  // generate_rss_feed

  /** The sort key `a["date"]`: instants compare field by field. */
  function DateOrder(a: Article): seq<int> {
    InstantKey(a.date)
  }

  /** The articles in the order the feed lists them: `sorted(..., reverse=True)` by date. */
  function FeedOrder(articles: seq<Article>): seq<Article> {
    SortDesc(articles, DateOrder)
  }

  /** One `add_entry`: id and link are the article link, `published` is always set. */
  function ToEntry(a: Article): (e: Entry)
    ensures e.id == a.link && e.link == a.link
    ensures e.title == a.title && e.description == a.description && e.category == a.category
    ensures e.published == Some(a.date)
  {
    Entry(a.link, a.title, a.link, a.description, Some(a.date), a.category)
  }

  function GeneralistChannel(feedName: string): Channel {
    Channel("Generalist AI Blog", "Research updates and news from Generalist AI", "en",
            SelfLink(feedName), "https://generalistai.com/blog", None)
  }

  /** `generate_rss_feed`: the channel, then one entry per article, newest first. */
  method GenerateRssFeed(articles: seq<Article>, feedName: string) returns (feed: Feed)
    ensures feed.channel == GeneralistChannel(feedName)
    ensures feed.entries == MapSeq(ToEntry, FeedOrder(articles))
  {
    var ordered := SortDesc(articles, DateOrder);
    var entries := AddEntries(ordered);
    feed := Feed(GeneralistChannel(feedName), entries);
  }

  /** The `add_entry` loop over the sorted articles. */
  method AddEntries(ordered: seq<Article>) returns (entries: seq<Entry>)
    ensures entries == MapSeq(ToEntry, ordered)
  {
    entries := [];
    for n := 0 to |ordered|
      invariant entries == MapSeq(ToEntry, ordered[..n])
    {
      var article := ordered[n];
      MapSeqAppend(ToEntry, ordered[..n], [article]);
      assert ordered[..n + 1] == ordered[..n] + [article];
      entries := entries + [Entry(article.link, article.title, article.link, article.description, Some(article.date), article.category)];
    }
    assert ordered[..|ordered|] == ordered;
  }

  /** The entry at each position is the article at that position: id and link are its link, `published` its date. */
  lemma EntryOfArticle(articles: seq<Article>, i: nat)
    requires i < |FeedOrder(articles)|
    ensures var e, a := MapSeq(ToEntry, FeedOrder(articles))[i], FeedOrder(articles)[i];
            && e.id == a.link && e.link == a.link
            && e.title == a.title && e.description == a.description && e.category == a.category
            && e.published == Some(a.date)
  {
    MapSeqAt(ToEntry, FeedOrder(articles), i);
  }

  /** The feed holds one entry per article, no more and no fewer. */
  lemma FeedIsPermutation(articles: seq<Article>)
    ensures multiset(MapSeq(ToEntry, FeedOrder(articles))) == multiset(MapSeq(ToEntry, articles))
  {
    MapSeqPermutation(ToEntry, FeedOrder(articles), articles);
  }

  /** Entries are listed newest first: no entry is published before a later one. */
  lemma PublishedNewestFirst(articles: seq<Article>, i: nat, j: nat)
    requires i < j < |FeedOrder(articles)|
    ensures var e := MapSeq(ToEntry, FeedOrder(articles));
            e[i].published.Some? && e[j].published.Some? && !Before(e[i].published.value, e[j].published.value)
  {
    var o := FeedOrder(articles);
    MapSeqAt(ToEntry, o, i);
    MapSeqAt(ToEntry, o, j);
    assert !Precedes(DateOrder(o[i]), DateOrder(o[j]));
  }

  /** Articles with the same date keep their page order (the sort is stable). */
  lemma SameDateKeepsOrder(articles: seq<Article>, k: seq<int>)
    ensures WithKey(FeedOrder(articles), DateOrder, k) == WithKey(articles, DateOrder, k)
  {
    SortDescStable(articles, DateOrder, k);
  }
}
