/**
 * The AI at Meta blog generator: cleaning anchor titles, cutting slugs out
 * of blog links, finding "Month D, YYYY" dates in page text, collecting one
 * article per slug from the page's anchors, and ordering the feed entries
 * dated-first, newest-first.
 */
module MetaBlog {
  import opened Options
  import opened Strings
  import opened Dates
  import opened Sorting
  import opened Feeds

  // ---------------------------------------------------------------------
  // normalize_title

  /** Link texts that say nothing about the article they point to. */
  const GenericTitles: set<string> := {"", "Featured", "The Latest", "About", "Meta AI", "AI Research",
                                       "Back", "Meta AI>", "AI Research>", "About>", "Learn More"}

  /** The generic titles lower-cased, as a cleaned title is compared against them. */
  const LoweredGenerics: set<string> := set g | g in GenericTitles :: Lower(g)

  lemma EmptyIsGeneric()
    ensures [] in LoweredGenerics
  {
    assert Lower([]) == [];
    assert [] in GenericTitles;
  }

  /** A collapsed string has no whitespace at either end, so stripping it changes nothing. */
  lemma CollapsedStripped(s: string)
    requires Collapsed(s)
    ensures Strip(s) == s
  {
    TrimUnchanged(s, IsSpace);
  }

  /**
   * `normalize_title`: whitespace runs collapsed to single spaces and the
   * ends stripped; empty when the result is, ignoring ASCII case, one of the
   * generic titles.
   */
  function NormalizeTitle(title: string): (r: string)
    ensures r == [] <==> Lower(Collapse(title)) in LoweredGenerics
    ensures r != [] ==> r == Collapse(title)
  {
    var collapsed := Collapse(title);
    CollapseIsCollapsed(title);
    CollapsedStripped(collapsed);
    var cleaned := Strip(collapsed);
    EmptyIsGeneric();
    if Lower(cleaned) in LoweredGenerics then [] else cleaned
  }

  /** A normalised title is collapsed, and is never one of the generic titles unless it is empty. */
  lemma NormalizedShape(title: string)
    ensures Collapsed(NormalizeTitle(title))
    ensures NormalizeTitle(title) in GenericTitles ==> NormalizeTitle(title) == []
  {
    CollapseIsCollapsed(title);
  }

  /** Normalising an already normalised title changes nothing. */
  lemma NormalizeTitleIdempotent(title: string)
    ensures NormalizeTitle(NormalizeTitle(title)) == NormalizeTitle(title)
  {
    var r := NormalizeTitle(title);
    if r == [] {
      EmptyIsGeneric();
      assert Collapse([]) == [];
    } else {
      CollapseIdempotent(title);
    }
  }

  // ---------------------------------------------------------------------
  // slugify_link

  predicate IsSlash(c: char) {
    c == '/'
  }

  /** `r` is `s` up to, not including, its first `?`. */
  predicate BeforeQuery(r: string, s: string) {
    |r| <= |s| && r == s[..|r|] && '?' !in r && (|r| == |s| || s[|r|] == '?')
  }

  lemma SplitFirstPart(s: string, c: char)
    ensures |Split(s, c)[0]| <= |s| && Split(s, c)[0] == s[..|Split(s, c)[0]|]
    ensures c !in Split(s, c)[0]
    ensures |Split(s, c)[0]| == |s| || s[|Split(s, c)[0]|] == c
  {
    if c in s {
      var i := IndexOfChar(s, c);
      assert Split(s, c)[0] == s[..i];
    }
  }

  /** What follows the first `/blog/` of a link, with slashes stripped from both ends. */
  function BlogPath(link: string): string
    requires Contains(link, "/blog/")
  {
    Trim(AfterFirst(link, "/blog/"), IsSlash)
  }

  /**
   * `slugify_link`: no slug when the link has no `/blog/` or nothing but
   * slashes follows it; otherwise what follows, cut at the first `?`.
   */
  function SlugifyLink(link: string): (r: Option<string>)
    ensures !Contains(link, "/blog/") ==> r.None?
    ensures Contains(link, "/blog/") ==> (r.None? <==> BlogPath(link) == [])
    ensures r.Some? ==> Contains(link, "/blog/") && BeforeQuery(r.value, BlogPath(link))
  {
    if !Contains(link, "/blog/") then None
    else
      var slug := BlogPath(link);
      if slug == [] then None
      else
        SplitFirstPart(slug, '?');
        Some(Split(slug, '?')[0])
  }

  /** `slug.replace("-", " ").title()`: the title made up from a slug when the anchor offers none. */
  function Prettify(slug: string): (r: string)
    ensures |r| == |slug|
    ensures Lower(r) == Lower(ReplaceChar(slug, '-', ' '))
  {
    TitleCase(ReplaceChar(slug, '-', ' '), false)
  }

  // ---------------------------------------------------------------------
  // parse_date_from_text

  /** What `MONTH_REGEX` matches at each position of `s` (a full month name, case as written). */
  function Scans(s: string): (r: seq<Option<Scan>>)
    ensures |r| == |s| + 1
  {
    seq(|s| + 1, i requires 0 <= i <= |s| => MonthDayYearAt(s, i, MonthNames, false))
  }

  /**
   * `parse_date_from_text`: the date written by the first "Month D, YYYY" in
   * the text, or nothing when there is none or that one is not a real date
   * (a later one is not tried).
   */
  function ParseDateFromText(text: string): (r: Option<Date>)
    ensures r.Some? ==> ValidDate(r.value)
    ensures (forall i :: 0 <= i <= |text| ==> MonthDayYearAt(text, i, MonthNames, false).None?) ==> r.None?
  {
    var scans := Scans(text);
    match FirstSome(scans, 0)
    case None => None
    case Some(i) =>
      var d := scans[i].value.date;
      if ValidDate(d) then Some(d) else None
  }

  /**
   * The date comes from the leftmost match and is a real calendar date; with no
   * match there is no date.
   */
  lemma ParseDateFromTextLeftmost(text: string)
    ensures ParseDateFromText(text).Some? ==>
              exists i :: 0 <= i <= |text| && MonthDayYearAt(text, i, MonthNames, false).Some?
                          && MonthDayYearAt(text, i, MonthNames, false).value.date == ParseDateFromText(text).value
                          && forall j :: 0 <= j < i ==> MonthDayYearAt(text, j, MonthNames, false).None?
  {
    var scans := Scans(text);
    var first := FirstSome(scans, 0);
    if first.Some? {
      var i := first.value;
      assert scans[i] == MonthDayYearAt(text, i, MonthNames, false);
      assert forall j :: 0 <= j < i ==> scans[j] == MonthDayYearAt(text, j, MonthNames, false);
    }
  }

  /**
   * Wherever the text holds its first "Month D, YYYY", amid any other words,
   * that match decides: its date when it is a real one, otherwise no date,
   * even when a later match would be a real date.
   */
  lemma ParseDateFromTextFirstMatch(text: string, i: nat)
    requires i <= |text| && MonthDayYearAt(text, i, MonthNames, false).Some?
    requires forall j :: 0 <= j < i ==> MonthDayYearAt(text, j, MonthNames, false).None?
    ensures ValidDate(MonthDayYearAt(text, i, MonthNames, false).value.date) ==>
              ParseDateFromText(text) == Some(MonthDayYearAt(text, i, MonthNames, false).value.date)
    ensures !ValidDate(MonthDayYearAt(text, i, MonthNames, false).value.date) ==>
              ParseDateFromText(text).None?
  {
    var scans := Scans(text);
    assert scans[i] == MonthDayYearAt(text, i, MonthNames, false);
    assert forall j :: 0 <= j < i ==> scans[j] == MonthDayYearAt(text, j, MonthNames, false);
    var first := FirstSome(scans, 0);
    assert first == Some(i);
  }

  /** A date the blog prints as "September 24, 2025" is read back as that date. */
  lemma ParseLongForm(d: Date)
    requires ValidDate(d)
    ensures ParseDateFromText(LongForm(d)) == Some(d)
  {
    var s := LongForm(d);
    LongFormScan(d, false);
    assert Scans(s)[0] == MonthDayYearAt(s, 0, MonthNames, false);
  }

  // ---------------------------------------------------------------------
  // One anchor of the page

  /**
   * An `<a>` element of the blog page in document order: its `href`, its text
   * (`get_text(" ", strip=True)`), its `aria-label` and `title` attributes,
   * and the same text of its parent, grandparent and so on up to the document.
   */
  datatype Anchor = Anchor(
    href: Option<string>,
    text: string,
    ariaLabel: Option<string>,
    titleAttr: Option<string>,
    ancestors: seq<string>)

  /** The selector `a[href*="ai.meta.com/blog/"], a[href^="/blog/"]`. */
  predicate Selected(a: Anchor) {
    a.href.Some? && (Contains(a.href.value, "ai.meta.com/blog/") || StartsWith(a.href.value, "/blog/"))
  }

  const SiteRoot: string := "https://ai.meta.com"

  /** Site-relative hrefs are made absolute; any other href is kept as written. */
  function AbsoluteLink(href: string): string {
    if StartsWith(href, "/") then SiteRoot + href else href
  }

  /** Python's `value or fallback` for an attribute that may be missing or empty. */
  function AttrOr(value: Option<string>, fallback: string): string {
    if value.Some? && value.value != [] then value.value else fallback
  }

  /** The title chain: the anchor's text, else its `aria-label` or `title`, else the prettified slug. */
  function TitleFor(a: Anchor, slug: string): (r: string)
    requires slug != []
    ensures r != []
    ensures NormalizeTitle(a.text) != [] ==> r == NormalizeTitle(a.text)
    ensures NormalizeTitle(a.text) == [] && NormalizeTitle(AttrOr(a.ariaLabel, AttrOr(a.titleAttr, []))) != [] ==>
              r == NormalizeTitle(AttrOr(a.ariaLabel, AttrOr(a.titleAttr, [])))
    ensures NormalizeTitle(a.text) == [] && NormalizeTitle(AttrOr(a.ariaLabel, AttrOr(a.titleAttr, []))) == [] ==>
              r == Prettify(slug)
    ensures r in GenericTitles ==> r == Prettify(slug)
  {
    NormalizedShape(a.text);
    var fromText := NormalizeTitle(a.text);
    if fromText != [] then fromText
    else
      var attr := AttrOr(a.ariaLabel, AttrOr(a.titleAttr, []));
      NormalizedShape(attr);
      var fromAttr := NormalizeTitle(attr);
      if fromAttr != [] then fromAttr else Prettify(slug)
  }

  // ---------------------------------------------------------------------
  // The date near an anchor

  /** How many nodes the date search looks at: the anchor and up to three ancestors. */
  const DateSearchNodes: nat := 4

  /** The anchor's text followed by its ancestors' texts, nearest first. */
  function NodeTexts(a: Anchor): seq<string> {
    [a.text] + a.ancestors
  }

  /** The date found in one node's text, after collapsing its whitespace. */
  function NodeDate(text: string): Option<Date> {
    ParseDateFromText(Collapse(text))
  }

  /** The dates found in the nodes the search looks at, nearest first. */
  function NodeDates(nodes: seq<string>): (r: seq<Option<Date>>)
    ensures |r| <= DateSearchNodes && |r| <= |nodes|
  {
    MapSeq(NodeDate, nodes[..if |nodes| <= DateSearchNodes then |nodes| else DateSearchNodes])
  }

  /** The date the search settles on: that of the first node among the first four holding one. */
  function NearbyDate(nodes: seq<string>): Option<Date> {
    var dates := NodeDates(nodes);
    match FirstSome(dates, 0)
    case None => None
    case Some(k) => dates[k]
  }

  lemma NodeDatesAt(nodes: seq<string>, k: nat)
    requires k < |NodeDates(nodes)|
    ensures NodeDates(nodes)[k] == NodeDate(nodes[k])
  {
    MapSeqAt(NodeDate, nodes[..if |nodes| <= DateSearchNodes then |nodes| else DateSearchNodes], k);
  }

  /**
   * The date found is that of the nearest node, among the anchor and its first
   * three ancestors, whose text holds one; nodes nearer than it hold none.
   */
  lemma NearbyDateNearest(nodes: seq<string>)
    ensures NearbyDate(nodes).Some? ==>
              exists k :: 0 <= k < DateSearchNodes && k < |nodes| && NodeDate(nodes[k]) == NearbyDate(nodes)
                          && forall j :: 0 <= j < k ==> NodeDate(nodes[j]).None?
    ensures NearbyDate(nodes).None? ==>
              forall k :: 0 <= k < DateSearchNodes && k < |nodes| ==> NodeDate(nodes[k]).None?
  {
    var dates := NodeDates(nodes);
    assert |dates| == if |nodes| <= DateSearchNodes then |nodes| else DateSearchNodes;
    forall k | 0 <= k < |dates|
      ensures dates[k] == NodeDate(nodes[k])
    {
      NodeDatesAt(nodes, k);
    }
  }

  /** Nodes past the fourth never matter. */
  lemma NearbyDateIgnoresFarNodes(nodes: seq<string>, more: seq<string>)
    requires |nodes| >= DateSearchNodes
    ensures NearbyDate(nodes + more) == NearbyDate(nodes)
  {
    assert (nodes + more)[..DateSearchNodes] == nodes[..DateSearchNodes];
  }

  /** The ancestor walk: up to four nodes, stopping at the first date or when the ancestors run out. */
  method FindNearbyDate(nodes: seq<string>) returns (date: Option<Date>)
    ensures date == NearbyDate(nodes)
  {
    ghost var dates := NodeDates(nodes);
    date := None;
    var k := 0;
    while k < DateSearchNodes
      invariant 0 <= k <= DateSearchNodes
      invariant k <= |dates| && FirstSome(dates, k) == FirstSome(dates, 0)
      invariant date == None
      decreases DateSearchNodes - k
    {
      if k >= |nodes| {
        break;
      }
      NodeDatesAt(nodes, k);
      date := NodeDate(nodes[k]);
      if date.Some? {
        break;
      }
      k := k + 1;
    }
  }

  // ---------------------------------------------------------------------
  // What one anchor contributes

  /** What an anchor that passes every check yields: its slug, absolute link, title and nearby date. */
  datatype Found = Found(slug: string, link: string, title: string, date: Option<Date>)

  /**
   * An anchor is skipped when the selector does not pick it, its href is empty,
   * asks for a listing page (`page=`), or its link has no usable slug; otherwise
   * it yields its slug, link, title and date.
   */
  function Candidate(a: Anchor): (r: Option<Found>)
    ensures r.Some? ==> r.value.slug != [] && r.value.title != []
  {
    if !Selected(a) || a.href.value == [] || Contains(a.href.value, "page=") then None
    else
      var link := AbsoluteLink(a.href.value);
      var slug := SlugifyLink(link);
      if slug.None? || slug.value == [] then None
      else Some(Found(slug.value, link, TitleFor(a, slug.value), NearbyDate(NodeTexts(a))))
  }

  /** Which anchors are skipped, and how the link of a kept one is formed from its href. */
  lemma CandidateCases(a: Anchor)
    ensures Candidate(a).Some? <==>
              Selected(a) && a.href.value != [] && !Contains(a.href.value, "page=")
              && SlugifyLink(AbsoluteLink(a.href.value)).Some?
              && SlugifyLink(AbsoluteLink(a.href.value)).value != []
    ensures Candidate(a).Some? && StartsWith(a.href.value, "/") ==> Candidate(a).value.link == SiteRoot + a.href.value
    ensures Candidate(a).Some? && !StartsWith(a.href.value, "/") ==> Candidate(a).value.link == a.href.value
    ensures Candidate(a).Some? ==> Candidate(a).value.date == NearbyDate(NodeTexts(a))
    ensures Candidate(a).Some? ==> Candidate(a).value.slug == SlugifyLink(AbsoluteLink(a.href.value)).value
                                   && Candidate(a).value.title == TitleFor(a, Candidate(a).value.slug)
  {
  }

  /** The per-anchor part of the extraction loop: the skips, the link, the slug, the title and the date walk. */
  method Inspect(a: Anchor) returns (found: Option<Found>)
    ensures found == Candidate(a)
  {
    if !Selected(a) {
      return None;
    }
    var href := a.href.value;
    if href == [] || Contains(href, "page=") {
      return None;
    }
    var link := if StartsWith(href, "/") then SiteRoot + href else href;
    var slug := SlugifyLink(link);
    if slug.None? || slug.value == [] {
      return None;
    }
    var title := TitleFor(a, slug.value);
    var date := FindNearbyDate(NodeTexts(a));
    found := Some(Found(slug.value, link, title, date));
  }

  // ---------------------------------------------------------------------
  // The articles dictionary

  /** One value of the `articles` dictionary. */
  datatype Article = Article(title: string, link: string, description: string, date: Option<Date>, category: string)

  const MetaCategory: string := "AI at Meta"

  /**
   * The `articles` dictionary: its keys in insertion order and the value of
   * each key. Python dictionaries iterate in insertion order, which the
   * `slugs` sequence records.
   */
  datatype Articles = Articles(slugs: seq<string>, bySlug: map<string, Article>)

  const NoArticles: Articles := Articles([], map[])

  /** The keys are listed once each, and exactly the listed keys have values. */
  ghost predicate Valid(c: Articles) {
    (forall i, j :: 0 <= i < j < |c.slugs| ==> c.slugs[i] != c.slugs[j])
    && (forall k :: k in c.bySlug <==> k in c.slugs)
  }

  /** Every stored article: its description is its title, the title is non-empty, the category is fixed. */
  ghost predicate WellFormed(c: Articles) {
    forall k :: k in c.bySlug ==>
      c.bySlug[k].title != [] && c.bySlug[k].description == c.bySlug[k].title
      && c.bySlug[k].category == MetaCategory
  }

  /** The value stored the first time a slug is seen. */
  function NewArticle(f: Found): (r: Article)
    ensures r.title == f.title && r.description == f.title && r.link == f.link && r.date == f.date
    ensures r.category == MetaCategory
  {
    Article(f.title, f.link, f.title, f.date, MetaCategory)
  }

  /**
   * A later anchor with the same slug: a generic stored title gives way to a
   * non-generic new one (the description follows), and a missing date is filled
   * from the new anchor. The link and a date already present are never replaced.
   */
  function Merge(existing: Article, f: Found): (r: Article)
    ensures r.link == existing.link && r.category == existing.category
    ensures existing.date.Some? ==> r.date == existing.date
    ensures existing.date.None? ==> r.date == f.date
    ensures existing.title in GenericTitles && f.title !in GenericTitles ==> r.title == f.title && r.description == f.title
    ensures !(existing.title in GenericTitles && f.title !in GenericTitles) ==> r.title == existing.title && r.description == existing.description
  {
    var titled := if existing.title in GenericTitles && f.title !in GenericTitles
                  then existing.(title := f.title, description := f.title)
                  else existing;
    if existing.date.None? && f.date.Some? then titled.(date := f.date) else titled
  }

  /** One pass of the loop body after the anchor has yielded `f`. */
  function Absorb(c: Articles, f: Found): (r: Articles)
    ensures r.bySlug.Keys == c.bySlug.Keys + {f.slug}
    ensures forall k :: k in c.bySlug && k != f.slug ==> r.bySlug[k] == c.bySlug[k]
    ensures f.slug in c.bySlug ==> r.slugs == c.slugs && r.bySlug[f.slug] == Merge(c.bySlug[f.slug], f)
    ensures f.slug !in c.bySlug ==> r.slugs == c.slugs + [f.slug] && r.bySlug[f.slug] == NewArticle(f)
  {
    if f.slug in c.bySlug then Articles(c.slugs, c.bySlug[f.slug := Merge(c.bySlug[f.slug], f)])
    else Articles(c.slugs + [f.slug], c.bySlug[f.slug := NewArticle(f)])
  }

  /** The dictionary after the loop has seen what the anchors yielded, in order (`None` for a skipped anchor). */
  function Fold(fs: seq<Option<Found>>): Articles {
    if fs == [] then NoArticles
    else
      var c := Fold(fs[..|fs| - 1]);
      match fs[|fs| - 1]
      case None => c
      case Some(f) => Absorb(c, f)
  }

  /** The dictionary after the loop has seen `anchors`, before the title-length filter. */
  function Collect(anchors: seq<Anchor>): Articles {
    Fold(MapSeq(Candidate, anchors))
  }

  /** How a stored article may change later: same link and category, a date is kept, a non-generic title is kept. */
  ghost predicate Keeps(a: Article, b: Article) {
    b.link == a.link && b.category == a.category
    && (a.date.Some? ==> b.date == a.date)
    && (a.title !in GenericTitles ==> b.title == a.title && b.description == a.description)
  }

  /** `d` is a later state of the dictionary `c`. */
  ghost predicate Evolves(c: Articles, d: Articles) {
    c.slugs <= d.slugs
    && forall k :: k in c.bySlug ==> k in d.bySlug && Keeps(c.bySlug[k], d.bySlug[k])
  }

  /** Absorbing an element never loses a slug nor changes what `Keeps` protects. */
  lemma AbsorbEvolves(c: Articles, f: Found)
    ensures Evolves(c, Absorb(c, f))
  {
  }

  lemma AbsorbInvariants(c: Articles, f: Found)
    requires Valid(c) && WellFormed(c) && f.title != []
    ensures Valid(Absorb(c, f)) && WellFormed(Absorb(c, f))
  {
    var d := Absorb(c, f);
    if f.slug !in c.bySlug {
      forall i, j | 0 <= i < j < |d.slugs|
        ensures d.slugs[i] != d.slugs[j]
      {
        if j == |c.slugs| {
          assert d.slugs[i] == c.slugs[i];
        }
      }
    }
  }

  lemma EvolvesTransitive(b: Articles, c: Articles, d: Articles)
    requires Evolves(b, c) && Evolves(c, d)
    ensures Evolves(b, d)
  {
  }

  /** What the anchors yield: a title, when present, is never empty. */
  ghost predicate Titled(fs: seq<Option<Found>>) {
    forall i :: 0 <= i < |fs| && fs[i].Some? ==> fs[i].value.title != []
  }

  /** An anchor yielded slug `k`. */
  predicate Carries(o: Option<Found>, k: string) {
    o.Some? && o.value.slug == k
  }

  /** The dictionary stays well formed and holds exactly the slugs yielded. */
  lemma {:induction false} FoldInvariants(fs: seq<Option<Found>>)
    requires Titled(fs)
    ensures Valid(Fold(fs)) && WellFormed(Fold(fs))
  {
    if fs != [] {
      var init := fs[..|fs| - 1];
      assert forall i :: 0 <= i < |init| ==> init[i] == fs[i];
      FoldInvariants(init);
      if fs[|fs| - 1].Some? {
        AbsorbInvariants(Fold(init), fs[|fs| - 1].value);
      }
    }
  }

  /** The dictionary has a key for exactly the slugs some anchor yielded. */
  lemma {:induction false} FoldSlugs(fs: seq<Option<Found>>)
    ensures forall k :: k in Fold(fs).bySlug <==> exists i :: 0 <= i < |fs| && Carries(fs[i], k)
  {
    if fs != [] {
      var init := fs[..|fs| - 1];
      FoldSlugs(init);
      forall k
        ensures k in Fold(fs).bySlug <==> exists i :: 0 <= i < |fs| && Carries(fs[i], k)
      {
        if exists i :: 0 <= i < |fs| && Carries(fs[i], k) {
          var i :| 0 <= i < |fs| && Carries(fs[i], k);
          if i < |init| {
            assert Carries(init[i], k);
          }
        }
        if k in Fold(init).bySlug {
          var i :| 0 <= i < |init| && Carries(init[i], k);
          assert Carries(fs[i], k);
        }
      }
    }
  }

  /** A prefix of what the anchors yield leads to an earlier state of the dictionary. */
  lemma {:induction false} FoldEvolves(fs: seq<Option<Found>>, n: nat)
    requires n <= |fs|
    ensures Evolves(Fold(fs[..n]), Fold(fs))
    decreases |fs| - n
  {
    if n < |fs| {
      var init := fs[..|fs| - 1];
      assert fs[..n] == init[..n];
      FoldEvolves(init, n);
      if fs[|fs| - 1].Some? {
        AbsorbEvolves(Fold(init), fs[|fs| - 1].value);
      }
      EvolvesTransitive(Fold(fs[..n]), Fold(init), Fold(fs));
    } else {
      assert fs[..n] == fs;
    }
  }

  /** The state after element `i` is the state before it with that element absorbed. */
  lemma FoldStep(fs: seq<Option<Found>>, i: nat)
    requires i < |fs|
    ensures fs[i].None? ==> Fold(fs[..i + 1]) == Fold(fs[..i])
    ensures fs[i].Some? ==> Fold(fs[..i + 1]) == Absorb(Fold(fs[..i]), fs[i].value)
  {
    assert fs[..i + 1][..i] == fs[..i];
  }

  /** What a slug's article is after `n` elements constrains what it is at the end. */
  lemma KeptFrom(fs: seq<Option<Found>>, n: nat, k: string)
    requires n <= |fs| && k in Fold(fs[..n]).bySlug
    ensures k in Fold(fs).bySlug && Keeps(Fold(fs[..n]).bySlug[k], Fold(fs).bySlug[k])
  {
    FoldEvolves(fs, n);
  }

  /** None of the first `n` elements carries `k`. */
  ghost predicate UncarriedBefore(fs: seq<Option<Found>>, n: nat, k: string)
    requires n <= |fs|
  {
    forall j :: 0 <= j < n ==> !Carries(fs[j], k)
  }

  /** A slug none of the first `n` elements carried has no article after them. */
  lemma {:induction false} NotYetCarried(fs: seq<Option<Found>>, n: nat, k: string)
    requires n <= |fs|
    requires UncarriedBefore(fs, n, k)
    ensures k !in Fold(fs[..n]).bySlug
  {
    if n > 0 {
      assert fs[..n][..n - 1] == fs[..n - 1];
      NotYetCarried(fs, n - 1, k);
    }
  }

  /** The first element carrying a slug stores a fresh article for it. */
  lemma NewSlugStored(fs: seq<Option<Found>>, k: string, i: nat)
    requires i < |fs| && Carries(fs[i], k) && UncarriedBefore(fs, i, k)
    ensures k in Fold(fs[..i + 1]).bySlug
    ensures Fold(fs[..i + 1]).bySlug[k] == NewArticle(fs[i].value)
  {
    NotYetCarried(fs, i, k);
    FoldStep(fs, i);
  }

  /** An article keeps the link of the first element that carried its slug. */
  lemma FirstLinkWins(fs: seq<Option<Found>>, k: string, i: nat)
    requires i < |fs| && Carries(fs[i], k) && UncarriedBefore(fs, i, k)
    ensures k in Fold(fs).bySlug
    ensures Fold(fs).bySlug[k].link == fs[i].value.link
  {
    NewSlugStored(fs, k, i);
    LinkKept(fs, i + 1, k);
  }

  /** The link an article has after `n` elements is its link at the end. */
  lemma LinkKept(fs: seq<Option<Found>>, n: nat, k: string)
    requires n <= |fs| && k in Fold(fs[..n]).bySlug
    ensures k in Fold(fs).bySlug && Fold(fs).bySlug[k].link == Fold(fs[..n]).bySlug[k].link
  {
    KeptFrom(fs, n, k);
  }

  /** Right after an element with a non-generic title, its slug's article has a non-generic title. */
  lemma TitleStored(fs: seq<Option<Found>>, i: nat)
    requires i < |fs| && fs[i].Some? && fs[i].value.title !in GenericTitles
    ensures fs[i].value.slug in Fold(fs[..i + 1]).bySlug
    ensures Fold(fs[..i + 1]).bySlug[fs[i].value.slug].title !in GenericTitles
  {
    FoldStep(fs, i);
  }

  /** Once any element carrying a slug has a non-generic title, the article's title is not generic. */
  lemma SpecificTitleWins(fs: seq<Option<Found>>, i: nat)
    requires i < |fs| && fs[i].Some? && fs[i].value.title !in GenericTitles
    ensures fs[i].value.slug in Fold(fs).bySlug
    ensures Fold(fs).bySlug[fs[i].value.slug].title !in GenericTitles
  {
    TitleStored(fs, i);
    KeptFrom(fs, i + 1, fs[i].value.slug);
  }

  /** An anchor yielded slug `k` and a date. */
  predicate DatedFor(o: Option<Found>, k: string) {
    Carries(o, k) && o.value.date.Some?
  }

  /** None of the first `n` elements carries `k` with a date. */
  ghost predicate UndatedBefore(fs: seq<Option<Found>>, n: nat, k: string)
    requires n <= |fs|
  {
    forall j :: 0 <= j < n ==> !DatedFor(fs[j], k)
  }

  /** While none of the first `n` elements carrying `k` had a date, the article for `k`, if any, has none. */
  lemma {:induction false} UndatedSoFar(fs: seq<Option<Found>>, n: nat, k: string)
    requires n <= |fs|
    requires UndatedBefore(fs, n, k)
    ensures k in Fold(fs[..n]).bySlug ==> Fold(fs[..n]).bySlug[k].date.None?
  {
    if n > 0 {
      assert fs[..n][..n - 1] == fs[..n - 1];
      UndatedSoFar(fs, n - 1, k);
    }
  }

  /** The first element carrying `k` with a date gives the article that date. */
  lemma DateStored(fs: seq<Option<Found>>, i: nat, k: string)
    requires i < |fs| && DatedFor(fs[i], k)
    requires UndatedBefore(fs, i, k)
    ensures k in Fold(fs[..i + 1]).bySlug
    ensures Fold(fs[..i + 1]).bySlug[k].date == fs[i].value.date
  {
    UndatedSoFar(fs, i, k);
    FoldStep(fs, i);
  }

  /** The article's date is the date of the first element carrying its slug that has one. */
  lemma FirstDateWins(fs: seq<Option<Found>>, k: string, i: nat)
    requires i < |fs| && DatedFor(fs[i], k)
    requires UndatedBefore(fs, i, k)
    ensures k in Fold(fs).bySlug
    ensures Fold(fs).bySlug[k].date == fs[i].value.date
  {
    DateStored(fs, i, k);
    DateKept(fs, i + 1, k);
  }

  /** A date an article has after `n` elements is its date at the end. */
  lemma DateKept(fs: seq<Option<Found>>, n: nat, k: string)
    requires n <= |fs| && k in Fold(fs[..n]).bySlug && Fold(fs[..n]).bySlug[k].date.Some?
    ensures k in Fold(fs).bySlug && Fold(fs).bySlug[k].date == Fold(fs[..n]).bySlug[k].date
  {
    KeptFrom(fs, n, k);
  }

  /** What the anchors yield always has non-empty titles. */
  lemma CandidatesTitled(anchors: seq<Anchor>)
    ensures Titled(MapSeq(Candidate, anchors))
  {
    forall i | 0 <= i < |anchors|
      ensures MapSeq(Candidate, anchors)[i] == Candidate(anchors[i])
    {
      MapSeqAt(Candidate, anchors, i);
    }
  }

  // ---------------------------------------------------------------------
  // The title-length filter and the whole extraction

  /** The filter's test: `len(art["title"]) >= 5`. */
  predicate LongTitle(a: Article) {
    |a.title| >= 5
  }

  /** The keys, in order, whose articles pass the filter. */
  function LongTitled(slugs: seq<string>, m: map<string, Article>): (r: seq<string>)
    ensures forall k :: k in r <==> k in slugs && k in m && LongTitle(m[k])
  {
    if slugs == [] then []
    else
      var last := slugs[|slugs| - 1];
      assert slugs == slugs[..|slugs| - 1] + [last];
      LongTitled(slugs[..|slugs| - 1], m) + (if last in m && LongTitle(m[last]) then [last] else [])
  }

  /** The filter keeps dictionary order: the kept keys of a concatenation are those of each part, in order. */
  lemma {:induction false} LongTitledAppend(a: seq<string>, b: seq<string>, m: map<string, Article>)
    ensures LongTitled(a + b, m) == LongTitled(a, m) + LongTitled(b, m)
    decreases |b|
  {
    if b == [] {
      assert a + b == a;
    } else {
      var init := b[..|b| - 1];
      assert (a + b)[..|a + b| - 1] == a + init;
      LongTitledAppend(a, init, m);
    }
  }

  /** The articles of the keys in `slugs` that pass the filter, gathered key by key. */
  function LongTitledMap(slugs: seq<string>, m: map<string, Article>): map<string, Article> {
    if slugs == [] then map[]
    else
      var last := slugs[|slugs| - 1];
      var r := LongTitledMap(slugs[..|slugs| - 1], m);
      if last in m && LongTitle(m[last]) then r[last := m[last]] else r
  }

  lemma {:induction false} LongTitledMapIs(slugs: seq<string>, m: map<string, Article>)
    ensures LongTitledMap(slugs, m) == map k | k in slugs && k in m && LongTitle(m[k]) :: m[k]
  {
    if slugs != [] {
      var init := slugs[..|slugs| - 1];
      LongTitledMapIs(init, m);
      assert slugs == init + [slugs[|slugs| - 1]];
    }
  }

  /** The dictionary comprehension keeping the articles whose title has at least five characters. */
  function Filtered(c: Articles): Articles {
    Articles(LongTitled(c.slugs, c.bySlug), map k | k in c.bySlug && LongTitle(c.bySlug[k]) :: c.bySlug[k])
  }

  /** Walking the keys in order and keeping the long-titled articles builds the filtered dictionary. */
  lemma FilteredByKeys(c: Articles)
    requires Valid(c)
    ensures Filtered(c) == Articles(LongTitled(c.slugs, c.bySlug), LongTitledMap(c.slugs, c.bySlug))
  {
    LongTitledMapIs(c.slugs, c.bySlug);
    var m := c.bySlug;
    assert (map k | k in c.slugs && k in m && LongTitle(m[k]) :: m[k]) == (map k | k in m && LongTitle(m[k]) :: m[k]);
  }

  lemma {:induction false} LongTitledDistinct(slugs: seq<string>, m: map<string, Article>)
    requires forall i, j :: 0 <= i < j < |slugs| ==> slugs[i] != slugs[j]
    ensures forall i, j :: 0 <= i < j < |LongTitled(slugs, m)| ==> LongTitled(slugs, m)[i] != LongTitled(slugs, m)[j]
  {
    if slugs != [] {
      var init := slugs[..|slugs| - 1];
      var last := slugs[|slugs| - 1];
      LongTitledDistinct(init, m);
      assert last !in init;
    }
  }

  /**
   * The filter keeps exactly the articles with a title of five characters or
   * more, unchanged and in their order, and keeps the dictionary well formed.
   */
  lemma FilteredKeeps(c: Articles)
    requires Valid(c)
    ensures Valid(Filtered(c))
    ensures forall k :: k in Filtered(c).bySlug <==> k in c.bySlug && |c.bySlug[k].title| >= 5
    ensures forall k :: k in Filtered(c).bySlug ==> Filtered(c).bySlug[k] == c.bySlug[k]
  {
    LongTitledDistinct(c.slugs, c.bySlug);
  }

  /** `extract_articles`: every selected anchor folded into the dictionary, then the title-length filter. */
  function ExtractedArticles(anchors: seq<Anchor>): Articles {
    Filtered(Collect(anchors))
  }

  /**
   * What the extraction returns: one article per slug seen with a title of five
   * characters or more, its description equal to its title, in the category
   * "AI at Meta"; the keys in the order their slugs were first seen.
   */
  lemma ExtractedArticlesShape(anchors: seq<Anchor>)
    ensures Valid(ExtractedArticles(anchors))
    ensures forall k :: k in ExtractedArticles(anchors).bySlug ==>
              |ExtractedArticles(anchors).bySlug[k].title| >= 5
              && ExtractedArticles(anchors).bySlug[k].description == ExtractedArticles(anchors).bySlug[k].title
              && ExtractedArticles(anchors).bySlug[k].category == MetaCategory
    ensures forall k :: k in ExtractedArticles(anchors).bySlug <==>
              k in Collect(anchors).bySlug && |Collect(anchors).bySlug[k].title| >= 5
  {
    CandidatesTitled(anchors);
    FoldInvariants(MapSeq(Candidate, anchors));
    FilteredKeeps(Collect(anchors));
  }

  /** The merge loop: each anchor either adds its slug or updates the article already stored under it. */
  method CollectArticles(anchors: seq<Anchor>) returns (articles: Articles)
    ensures articles == Collect(anchors)
  {
    ghost var fs := MapSeq(Candidate, anchors);
    var slugs: seq<string> := [];
    var bySlug: map<string, Article> := map[];
    for n := 0 to |anchors|
      invariant Articles(slugs, bySlug) == Fold(fs[..n])
    {
      var found := Inspect(anchors[n]);
      MapSeqAt(Candidate, anchors, n);
      FoldStep(fs, n);
      if found.None? {
        continue;
      }
      var f := found.value;
      if f.slug in bySlug {
        var existing := UpdateExisting(bySlug[f.slug], f);
        bySlug := bySlug[f.slug := existing];
        continue;
      }
      bySlug := bySlug[f.slug := NewArticle(f)];
      slugs := slugs + [f.slug];
    }
    assert fs[..|anchors|] == fs;
    articles := Articles(slugs, bySlug);
  }

  /** The in-place update of an article already stored under the anchor's slug. */
  method UpdateExisting(article: Article, f: Found) returns (existing: Article)
    ensures existing == Merge(article, f)
  {
    existing := article;
    if existing.title in GenericTitles && f.title !in GenericTitles {
      existing := existing.(title := f.title, description := f.title);
    }
    if existing.date.None? && f.date.Some? {
      existing := existing.(date := f.date);
    }
  }

  /** The filter loop: the dictionary comprehension over the articles in key order. */
  method FilterArticles(articles: Articles) returns (filtered: Articles)
    requires Valid(articles)
    ensures filtered == Filtered(articles)
  {
    var slugs, bySlug := articles.slugs, articles.bySlug;
    var keptSlugs: seq<string> := [];
    var kept: map<string, Article> := map[];
    for n := 0 to |slugs|
      invariant keptSlugs == LongTitled(slugs[..n], bySlug)
      invariant kept == LongTitledMap(slugs[..n], bySlug)
    {
      var slug := slugs[n];
      assert slugs[..n + 1][..n] == slugs[..n];
      if LongTitle(bySlug[slug]) {
        keptSlugs := keptSlugs + [slug];
        kept := kept[slug := bySlug[slug]];
      }
    }
    assert slugs[..|slugs|] == slugs;
    FilteredByKeys(articles);
    filtered := Articles(keptSlugs, kept);
  }

  /** `extract_articles`: the merge loop, then the filter. */
  method ExtractArticles(anchors: seq<Anchor>) returns (articles: Articles)
    ensures articles == ExtractedArticles(anchors)
  {
    var collected := CollectArticles(anchors);
    CandidatesTitled(anchors);
    FoldInvariants(MapSeq(Candidate, anchors));
    articles := FilterArticles(collected);
  }

  // ---------------------------------------------------------------------
  // generate_rss_feed

  /** `articles.values()`: the stored articles in key order. */
  function Values(c: Articles): seq<Article> {
    ValuesOf(c.slugs, c.bySlug)
  }

  function ValuesOf(slugs: seq<string>, m: map<string, Article>): seq<Article> {
    if slugs == [] then []
    else
      var last := slugs[|slugs| - 1];
      ValuesOf(slugs[..|slugs| - 1], m) + (if last in m then [m[last]] else [])
  }

  /** Over a valid dictionary, the values are the stored articles, one per key, in key order. */
  lemma {:induction false} ValuesInKeyOrder(slugs: seq<string>, m: map<string, Article>)
    requires forall i :: 0 <= i < |slugs| ==> slugs[i] in m
    ensures |ValuesOf(slugs, m)| == |slugs|
    ensures forall i :: 0 <= i < |slugs| ==> ValuesOf(slugs, m)[i] == m[slugs[i]]
  {
    if slugs != [] {
      ValuesInKeyOrder(slugs[..|slugs| - 1], m);
    }
  }

  /** `articles.values()` of a valid dictionary: one article per listed slug, in insertion order. */
  lemma ValuesOfValid(c: Articles)
    requires Valid(c)
    ensures |Values(c)| == |c.slugs|
    ensures forall i :: 0 <= i < |c.slugs| ==> Values(c)[i] == c.bySlug[c.slugs[i]]
  {
    ValuesInKeyOrder(c.slugs, c.bySlug);
  }

  /** `sort_key`: dated articles above undated ones, then by date; undated ones all get `datetime.min`. */
  function SortKey(a: Article): (k: seq<int>)
    ensures |k| == 4 && (k[0] == 1 <==> a.date.Some?)
  {
    if a.date.Some? then [1] + DateKey(a.date.value) else [0] + DateKey(MinDate)
  }

  /** The key every undated article shares. */
  const UndatedKey: seq<int> := [0] + DateKey(MinDate)

  /**
   * What the key means: one article's key is below another's exactly when the
   * first is undated and the second dated, or both are dated and the first
   * date is earlier. Undated articles all tie.
   */
  lemma SortKeyOrder(a: Article, b: Article)
    ensures Precedes(SortKey(a), SortKey(b)) <==>
              (a.date.None? && b.date.Some?)
              || (a.date.Some? && b.date.Some? && Precedes(DateKey(a.date.value), DateKey(b.date.value)))
  {
    var da := if a.date.Some? then a.date.value else MinDate;
    var db := if b.date.Some? then b.date.value else MinDate;
    var ha := if a.date.Some? then [1] else [0];
    var hb := if b.date.Some? then [1] else [0];
    assert SortKey(a) == ha + DateKey(da) && SortKey(b) == hb + DateKey(db);
    PrecedesAppend(ha, hb, DateKey(da), DateKey(db));
    if a.date.None? && b.date.None? {
      PrecedesIrreflexive(DateKey(MinDate));
    }
  }

  /** One `add_entry`: id and link are the article link; `published` is set only for a dated article, at midnight UTC. */
  function ToEntry(a: Article): (e: Entry)
    ensures e.id == a.link && e.link == a.link
    ensures e.title == a.title && e.description == a.description && e.category == a.category
    ensures a.date.Some? ==> e.published == Some(Midnight(a.date.value))
    ensures a.date.None? ==> e.published.None?
  {
    Entry(a.link, a.title, a.link, a.description,
          if a.date.Some? then Some(Midnight(a.date.value)) else None, a.category)
  }

  function MetaChannel(feedName: string): Channel {
    Channel("AI at Meta Blog", "Latest updates from the AI at Meta blog", "en",
            SelfLink(feedName), "https://ai.meta.com/blog/", Some("Meta"))
  }

  /** The articles in the order the feed lists them. */
  function FeedOrder(c: Articles): seq<Article> {
    SortDesc(Values(c), SortKey)
  }

  /** `generate_rss_feed`: the channel, then one entry per article in sorted order. */
  method GenerateRssFeed(articles: Articles, feedName: string) returns (feed: Feed)
    ensures feed.channel == MetaChannel(feedName)
    ensures feed.entries == MapSeq(ToEntry, FeedOrder(articles))
  {
    var ordered := SortDesc(Values(articles), SortKey);
    var entries := AddEntries(ordered);
    feed := Feed(MetaChannel(feedName), entries);
  }

  /** The `add_entry` loop over the sorted articles. */
  method AddEntries(ordered: seq<Article>) returns (entries: seq<Entry>)
    ensures entries == MapSeq(ToEntry, ordered)
  {
    entries := [];
    for n := 0 to |ordered|
      invariant entries == MapSeq(ToEntry, ordered[..n])
    {
      var article := ordered[n];
      var published := if article.date.Some? then Some(Midnight(article.date.value)) else None;
      MapSeqAppend(ToEntry, ordered[..n], [article]);
      assert ordered[..n + 1] == ordered[..n] + [article];
      entries := entries + [Entry(article.link, article.title, article.link, article.description, published, article.category)];
    }
    assert ordered[..|ordered|] == ordered;
  }

  /** The entry at each position is the article at that position: id and link are its link, `published` its date at midnight. */
  lemma EntryOfArticle(c: Articles, i: nat)
    requires i < |FeedOrder(c)|
    ensures var e, a := MapSeq(ToEntry, FeedOrder(c))[i], FeedOrder(c)[i];
            && e.id == a.link && e.link == a.link
            && e.title == a.title && e.description == a.description && e.category == a.category
            && (a.date.Some? ==> e.published == Some(Midnight(a.date.value)))
            && (a.date.None? ==> e.published.None?)
  {
    MapSeqAt(ToEntry, FeedOrder(c), i);
  }

  /** The feed holds one entry per stored article, no more and no fewer. */
  lemma FeedIsPermutation(c: Articles)
    ensures multiset(MapSeq(ToEntry, FeedOrder(c))) == multiset(MapSeq(ToEntry, Values(c)))
  {
    MapSeqPermutation(ToEntry, FeedOrder(c), Values(c));
  }

  /** Every dated article is listed before every undated one. */
  lemma DatedBeforeUndated(c: Articles, i: nat, j: nat)
    requires i < j < |FeedOrder(c)|
    requires FeedOrder(c)[j].date.Some?
    ensures FeedOrder(c)[i].date.Some?
  {
    var o := FeedOrder(c);
    assert !Precedes(SortKey(o[i]), SortKey(o[j]));
  }

  /** Dated articles are listed newest first. */
  lemma NewestFirst(c: Articles, i: nat, j: nat)
    requires i < j < |FeedOrder(c)|
    requires FeedOrder(c)[i].date.Some? && FeedOrder(c)[j].date.Some?
    ensures !Precedes(DateKey(FeedOrder(c)[i].date.value), DateKey(FeedOrder(c)[j].date.value))
  {
    var o := FeedOrder(c);
    assert !Precedes(SortKey(o[i]), SortKey(o[j]));
    PrecedesAppend([1], [1], DateKey(o[i].date.value), DateKey(o[j].date.value));
  }

  /** The entries of dated articles carry non-increasing `published` instants. */
  lemma PublishedNewestFirst(c: Articles, i: nat, j: nat)
    requires i < j < |FeedOrder(c)|
    requires FeedOrder(c)[i].date.Some? && FeedOrder(c)[j].date.Some?
    ensures !Before(ToEntry(FeedOrder(c)[i]).published.value, ToEntry(FeedOrder(c)[j]).published.value)
  {
    var o := FeedOrder(c);
    NewestFirst(c, i, j);
    MidnightOrder(o[i].date.value, o[j].date.value);
  }

  /** Undated articles keep their dictionary order, as do articles of the same date (the sort is stable). */
  lemma SameKeyKeepsOrder(c: Articles, k: seq<int>)
    ensures WithKey(FeedOrder(c), SortKey, k) == WithKey(Values(c), SortKey, k)
  {
    SortDescStable(Values(c), SortKey, k);
  }
}
