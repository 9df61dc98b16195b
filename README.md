# rss-feeds: the feed runner and two blog generators, modelled in Dafny

The rss-feeds repository turns blog pages that publish no RSS into RSS feeds.
Each site has its own generator, which scrapes the page, extracts article
records and builds a feed. `run_feeds.py` is a batch runner that calls the
generators named on its command line and reports which ones failed. This
project models three of the repository's files. For each one it proves what
its code does.

- **The runner** (`feed_generators/run_feeds.py`).
  - `parse_feed_names` turns the `--feeds` values into feed names. It splits each value on commas, strips each part and drops blank parts.
  - `run_selected_feeds` calls the registered runner of each name. It sorts every name into exactly one of `successes` and `failures`, then returns exit status 0 or 1.
  - `main` picks every registered feed when `--feeds` is absent. An empty selection is a usage error.
  - A runner is reduced to its outcome: it returns `False`, returns anything else, or raises an `Exception`. The registry (`FEED_RUNNERS`) is a map from name to outcome, and a name that is not a key is unknown.
- **The AI at Meta generator** (`feed_generators/meta_blog.py`).
  - `normalize_title`, `slugify_link` and `parse_date_from_text`.
  - The anchor loop of `extract_articles`. The page is its sequence of `<a>` elements, each with its href, text, `aria-label`, `title` and its ancestors' texts. The loop keeps a dictionary keyed by slug: a first occurrence creates an article, and a later one may only replace a generic title or fill a missing date.
  - The filter that keeps titles of five or more characters.
  - The `sort_key` ordering of `generate_rss_feed`: dated articles first, newest first.
- **The Generalist AI generator** (`feed_generators/generalist_blog.py`).
  - `parse_date` reads an exact "Nov 04, 2025" or "September 24, 2025".
  - The link loop of `extract_articles`: the skip rules, the absolute link, the description fallback and the "now" default.
  - The newest-first ordering of `generate_rss_feed`.

What `FeedGenerator` is given is modelled as a `Feeds.Feed` value: the channel fields, then one entry per `add_entry` call, in order.

Modules:

- `Options`: the `Option` type and the first `Some` of a sequence.
- `Strings`: the Python `str` operations the code uses. These are `isspace`, `strip`, `split`, `join`, `" ".join(s.split())`, `lower`, `title`, `replace`, `in` and `startswith`.
- `Dates`:
  - dates and instants, ordered like Python tuples;
  - calendar validity as `datetime` checks it;
  - the scan of "Month D, YYYY" that both date parsers share.
- `Sorting`: Python's stable `sorted(..., reverse=True)` over a tuple key, and `map` over a sequence.
- `Feeds`: the channel, the entries and the `rel="self"` link.
- `RunFeeds`, `MetaBlog` and `GeneralistBlog`: one module per source file.

Each loop listed below is a Dafny method proved equal to a specification function, and the properties are proved about those functions. The two-format retry loops of `parse_date` (`generalist_blog.py:27`) and `parse_date_from_text` (`meta_blog.py:59`) are modelled as functions.

- `run_feeds.py` loops over the names and their comma parts.
- `meta_blog.py` loops over the anchors, walks the ancestors, updates the dictionary in place, filters the dictionary and adds the entries.
- `generalist_blog.py` loops over the links and adds the entries.

The `--feeds` help text (`run_feeds.py:122`) and the docstring of `parse_feed_names` (`run_feeds.py:56`) speak of space-separated names; the model follows the code. Names are split on commas only, so `"a b"` inside one `--feeds` value stays the single name `"a b"` (`RunFeeds.NamesInWithoutComma`). Names given as separate command-line words reach `parse_feed_names` as separate values.

## Model

| member | source | states |
|---|---|---|
| RunFeeds.Registry | feed_generators/run_feeds.py:33-52 | The registry's keys are exactly the eighteen registered feed names, and each key maps to that runner's outcome. |
| RunFeeds.ParseFeedNames | feed_generators/run_feeds.py:55-65 | The nested loop returns the names of the values in order: value by value, then comma part by comma part. Every returned name is non-empty, has no comma, and has no whitespace at either end. |
| RunFeeds.AppendKeptParts | feed_generators/run_feeds.py:61-64 | The inner loop appends to `parsed` the stripped non-blank parts of one value, in order. |
| RunFeeds.KeptPartsClean | feed_generators/run_feeds.py:61-64 | Stripping comma-free parts and keeping the non-blank ones gives only clean names. |
| RunFeeds.StrippedClean | feed_generators/run_feeds.py:62-63 | A comma-free part that is not blank strips to a clean name. |
| RunFeeds.ParsedNamesClean | feed_generators/run_feeds.py:58-64 | No parsed name is empty, holds a comma, or starts or ends with whitespace. |
| RunFeeds.ParsedNamesAppend | feed_generators/run_feeds.py:58-64 | The names of a concatenation of values are the names of the first values followed by those of the rest, so value order is kept. |
| RunFeeds.NamesInBlank | feed_generators/run_feeds.py:59-64 | An empty value, or one made only of whitespace, contributes no name. |
| RunFeeds.NamesInWithoutComma | feed_generators/run_feeds.py:61-63 | A value without a comma yields itself, stripped, as a single name, internal spaces included. |
| RunFeeds.NamesInOfClean | feed_generators/run_feeds.py:58-64 | A clean name given as a value is parsed back to itself. |
| RunFeeds.ParsedNamesOfClean | feed_generators/run_feeds.py:58-64 | A list of clean names, one per value, is parsed back to the same list. |
| RunFeeds.KeptPartsOfClean | feed_generators/run_feeds.py:61-64 | Clean parts are all kept, unchanged. |
| RunFeeds.CommaJoinedNames | feed_generators/run_feeds.py:55-65 | Clean names joined by commas into one value are parsed back to the same names, in the same order. |
| RunFeeds.ParsedNamesOfSplit | feed_generators/run_feeds.py:61-64 | A value whose comma parts are all clean parses to exactly those parts. |
| RunFeeds.RunSelectedFeeds | feed_generators/run_feeds.py:68-107 | The loop builds `successes` and `failures` in request order and calls only registered runners. The exit status is 0 when `failures` is empty and 1 otherwise. |
| RunFeeds.SuccessesFailuresPartition | feed_generators/run_feeds.py:73-95 | Every requested name, duplicates included, lands in exactly one of the two lists: as multisets, successes plus failures equal the request, and the lengths add up. |
| RunFeeds.OutcomesSorted | feed_generators/run_feeds.py:84-95 | Every name in `successes` has a registered runner that returned something other than `False`. No name in `failures` does. |
| RunFeeds.SuccessesAppend | feed_generators/run_feeds.py:73-95 | `successes` keeps request order: the successes of a concatenation are those of each part, in order. |
| RunFeeds.FailuresAppend | feed_generators/run_feeds.py:73-95 | `failures` keeps request order in the same way. |
| RunFeeds.InvokedAppend | feed_generators/run_feeds.py:84-86 | The runners are called in request order. |
| RunFeeds.UnknownNameFails | feed_generators/run_feeds.py:74-82 | An unregistered name is a failure, not a success, and no runner is called for it. |
| RunFeeds.RegisteredOutcome | feed_generators/run_feeds.py:84-95 | A registered name's runner is called. The name fails exactly when the runner returns `False` or raises an `Exception`, and succeeds exactly when it returns anything else. |
| RunFeeds.ExitZeroIffAllSucceed | feed_generators/run_feeds.py:107 | `failures` is empty, so the exit status is 0, exactly when every requested name is registered and its runner neither returned `False` nor raised. |
| RunFeeds.InvokedAllRegistered | feed_generators/run_feeds.py:84-86 | When every requested name is registered, each one's runner is called, once per request, in request order. |
| RunFeeds.Selection | feed_generators/run_feeds.py:128-130 | Without `--feeds`, every registered feed is selected, in registration order. |
| RunFeeds.RunMain | feed_generators/run_feeds.py:110-135 | An empty selection exits with the usage status 2 and calls no runner. Otherwise the selected runners are called in order, and the status is 0 exactly when all of them succeed and 1 otherwise. |
| RunFeeds.DefaultRunsAll | feed_generators/run_feeds.py:128-135 | A run without `--feeds` calls every registered runner once, in registration order. |
| MetaBlog.EmptyIsGeneric | feed_generators/meta_blog.py:21-22 | The empty title is one of the generic titles. |
| MetaBlog.NormalizeTitle | feed_generators/meta_blog.py:67-71 | The result is empty exactly when the whitespace-collapsed title, lower-cased, is a lower-cased generic title. Otherwise it is the collapsed title. |
| MetaBlog.NormalizedShape | feed_generators/meta_blog.py:67-71 | A normalised title has whitespace only as single spaces between other characters, and it is never a non-empty generic title. |
| MetaBlog.NormalizeTitleIdempotent | feed_generators/meta_blog.py:67-71 | Normalising twice gives what normalising once gives. |
| MetaBlog.CollapsedStripped | feed_generators/meta_blog.py:68 | The trailing `.strip()` after collapsing changes nothing. |
| MetaBlog.SlugifyLink | feed_generators/meta_blog.py:74-80 | There is no slug when the link has no `/blog/`, or when only slashes follow its first `/blog/`. Otherwise the slug is the text after that `/blog/`, slashes stripped, up to but not including the first `?`, so it holds no `?`. |
| MetaBlog.SplitFirstPart | feed_generators/meta_blog.py:80 | The first part of `split(c)` is the prefix of the text up to, not including, the first `c`. |
| MetaBlog.Prettify | feed_generators/meta_blog.py:111 | The prettified slug has the slug's length and equals the slug with hyphens turned into spaces, up to letter case. |
| MetaBlog.ParseDateFromText | feed_generators/meta_blog.py:55-64 | A date read is a real calendar date. With no "FullMonthName D, YYYY" match anywhere in the text there is no date. |
| MetaBlog.ParseDateFromTextLeftmost | feed_generators/meta_blog.py:55-64 | A date is read only from the leftmost "FullMonthName D, YYYY" match. |
| MetaBlog.ParseDateFromTextFirstMatch | feed_generators/meta_blog.py:55-64 | Wherever the first match sits in the text, amid any other words, it decides: its date when that is a real date, otherwise no date, and a later match is not tried. |
| MetaBlog.ParseLongForm | feed_generators/meta_blog.py:55-64 | Every real date written "September 24, 2025"-style is read back as itself. |
| MetaBlog.TitleFor | feed_generators/meta_blog.py:103-111 | The title is never empty. It is the normalised anchor text when that is non-empty; else the normalised `aria-label` (or, when that is missing or empty, `title`) attribute when that is non-empty; else the prettified slug. It is a generic title only when it was made up from the slug. |
| MetaBlog.NodeDates | feed_generators/meta_blog.py:114-123 | At most four nodes are looked at. |
| MetaBlog.NodeDatesAt | feed_generators/meta_blog.py:119-120 | The date of the k-th node searched is read from that node's text with its whitespace collapsed. |
| MetaBlog.NearbyDateNearest | feed_generators/meta_blog.py:114-123 | The date found is the date of the nearest of the first four nodes that has one. With none of them dated there is no date. |
| MetaBlog.NearbyDateIgnoresFarNodes | feed_generators/meta_blog.py:116 | Ancestors beyond the third never affect the date. |
| MetaBlog.FindNearbyDate | feed_generators/meta_blog.py:114-123 | The parent walk with its two early exits returns the nearest date. |
| MetaBlog.Candidate | feed_generators/meta_blog.py:87-123 | An anchor that is kept yields a non-empty slug and a non-empty title. |
| MetaBlog.CandidateCases | feed_generators/meta_blog.py:87-101 | An anchor is kept exactly when the selector picks it, its href is non-empty with no `page=`, and its link has a slug. An href starting with `/` gets `https://ai.meta.com` in front, and any other href is the link as written. The slug is the last path segment of that link, the title is the one `TitleFor` picks for the anchor and that slug, and the date is the nearby date. |
| MetaBlog.Inspect | feed_generators/meta_blog.py:88-123 | The per-anchor steps of the loop body yield what `Candidate` describes. |
| MetaBlog.NewArticle | feed_generators/meta_blog.py:135-141 | A new article takes the found title as its title and description, the found link and date, and the category "AI at Meta". |
| MetaBlog.Absorb | feed_generators/meta_blog.py:125-141 | One anchor's dictionary update: the slug is stored afterwards and no other value changes. A known slug keeps its place in the key order and its value is merged; a new slug is appended to the key order with a new article. |
| MetaBlog.Merge | feed_generators/meta_blog.py:125-133 | A duplicate keeps the stored link and category. It keeps a stored date and fills a missing one. It replaces title and description only when the stored title is generic, compared case-sensitively, and the new one is not. |
| MetaBlog.UpdateExisting | feed_generators/meta_blog.py:126-133 | The in-place updates of an existing dictionary value give `Merge`. |
| MetaBlog.AbsorbEvolves | feed_generators/meta_blog.py:125-141 | One loop step never removes a slug. It never changes a stored link or category, a stored date, or a stored title that is not generic. |
| MetaBlog.AbsorbInvariants | feed_generators/meta_blog.py:125-141 | One loop step keeps every slug listed once, exactly the listed slugs stored, and every stored article's description equal to its non-empty title, in category "AI at Meta". |
| MetaBlog.EvolvesTransitive | feed_generators/meta_blog.py:125-133 | What later steps protect is protected across any number of steps. |
| MetaBlog.FoldInvariants | feed_generators/meta_blog.py:85-141 | The dictionary after the loop keeps the invariants of `AbsorbInvariants`. |
| MetaBlog.FoldSlugs | feed_generators/meta_blog.py:99-141 | The dictionary holds exactly the slugs of the anchors that were kept: at most one article per slug. |
| MetaBlog.FoldEvolves | feed_generators/meta_blog.py:125-133 | Every later state of the dictionary keeps what `AbsorbEvolves` protects from every earlier state. |
| MetaBlog.FoldStep | feed_generators/meta_blog.py:86-141 | A skipped anchor leaves the dictionary unchanged, and a kept one is absorbed into it. |
| MetaBlog.KeptFrom | feed_generators/meta_blog.py:125-133 | An article once stored stays stored, and later duplicates only change it as `Merge` allows. |
| MetaBlog.NotYetCarried | feed_generators/meta_blog.py:125-135 | A slug that no earlier anchor yielded is not yet in the dictionary. |
| MetaBlog.NewSlugStored | feed_generators/meta_blog.py:135-141 | The first anchor yielding a slug stores a new article made from it. |
| MetaBlog.FirstLinkWins | feed_generators/meta_blog.py:125-141 | The final article of a slug has the link of the first anchor that yielded that slug. |
| MetaBlog.LinkKept | feed_generators/meta_blog.py:125-133 | A stored link never changes. |
| MetaBlog.TitleStored | feed_generators/meta_blog.py:128-141 | After an anchor with a non-generic title, its slug's stored title is not generic. |
| MetaBlog.SpecificTitleWins | feed_generators/meta_blog.py:125-141 | If any anchor of a slug has a non-generic title, the final title of that slug is not generic. |
| MetaBlog.UndatedSoFar | feed_generators/meta_blog.py:131-139 | While no anchor of a slug has had a date, its stored article has none. |
| MetaBlog.DateStored | feed_generators/meta_blog.py:131-139 | The first dated anchor of a slug stores its date. |
| MetaBlog.FirstDateWins | feed_generators/meta_blog.py:125-141 | The final date of a slug is the date of the first anchor of that slug that had one. |
| MetaBlog.DateKept | feed_generators/meta_blog.py:131-132 | A stored date is never overwritten. |
| MetaBlog.CandidatesTitled | feed_generators/meta_blog.py:103-111 | Every anchor that is kept has a non-empty title. |
| MetaBlog.LongTitled | feed_generators/meta_blog.py:144-146 | The filtered keys are exactly the stored slugs whose title has five or more characters. |
| MetaBlog.LongTitledAppend | feed_generators/meta_blog.py:144-146 | The filter keeps dictionary order: the kept keys of a concatenation of key lists are those of the first followed by those of the second. |
| MetaBlog.LongTitledMapIs | feed_generators/meta_blog.py:144-146 | Walking the keys in order and keeping the long-titled articles builds exactly the map of stored slugs with such titles. |
| MetaBlog.FilteredByKeys | feed_generators/meta_blog.py:144-146 | The comprehension over the items gives the filtered dictionary. |
| MetaBlog.LongTitledDistinct | feed_generators/meta_blog.py:144-146 | Filtering keeps the keys distinct. |
| MetaBlog.FilteredKeeps | feed_generators/meta_blog.py:144-146 | The filtered dictionary holds exactly the articles with titles of five or more characters, unchanged. |
| MetaBlog.ExtractedArticlesShape | feed_generators/meta_blog.py:83-147 | Every returned article has a title of five or more characters, a description equal to its title, and category "AI at Meta". A slug is returned exactly when it was collected with such a title. |
| MetaBlog.CollectArticles | feed_generators/meta_blog.py:85-141 | The anchor loop, updating the dictionary in place, builds `Collect`. |
| MetaBlog.FilterArticles | feed_generators/meta_blog.py:144-146 | The filtering loop builds `Filtered`. |
| MetaBlog.ExtractArticles | feed_generators/meta_blog.py:83-147 | `extract_articles` returns the filtered collection. |
| MetaBlog.GenerateRssFeed | feed_generators/meta_blog.py:150-176 | The channel carries the Meta title, description, language, self link, alternate link and author. The entries are the articles in `sort_key` order, one per article. |
| MetaBlog.AddEntries | feed_generators/meta_blog.py:166-174 | The `add_entry` loop gives one entry per sorted article, in order. |
| MetaBlog.EntryOfArticle | feed_generators/meta_blog.py:167-174 | Each entry's id and link are its article's link, and its title, description and category are copied. `published` is the article's date at midnight UTC, and it is unset for an undated article. |
| MetaBlog.ValuesInKeyOrder | feed_generators/meta_blog.py:166 | When every key is stored, the values walked key by key are one stored article per key, in key order. |
| MetaBlog.ValuesOfValid | feed_generators/meta_blog.py:166 | `articles.values()` of a valid dictionary has one element per slug, the i-th being the article of the i-th slug inserted. |
| MetaBlog.FeedIsPermutation | feed_generators/meta_blog.py:166 | The feed's entries are a rearrangement of the entries of `articles.values()`: with `ValuesOfValid`, exactly one entry per stored article. |
| MetaBlog.SortKey | feed_generators/meta_blog.py:162-164 | The key is the pair (has a date, the date or `datetime.min`) written as four numbers; its first number is 1 exactly for a dated article. |
| MetaBlog.SortKeyOrder | feed_generators/meta_blog.py:162-164 | One key is below another exactly when the first article is undated and the second dated, or both are dated and the first date is earlier; undated articles all tie. |
| MetaBlog.ToEntry | feed_generators/meta_blog.py:167-174 | An entry's id and link are the article's link, its title, description and category are copied, and `published` is the date at midnight UTC, unset for an undated article. |
| MetaBlog.DatedBeforeUndated | feed_generators/meta_blog.py:162-166 | Every dated article comes before every undated one. |
| MetaBlog.NewestFirst | feed_generators/meta_blog.py:162-166 | Dated articles come in non-increasing date order. |
| MetaBlog.PublishedNewestFirst | feed_generators/meta_blog.py:162-173 | The `published` instants of dated entries never increase in `add_entry` order. |
| MetaBlog.SameKeyKeepsOrder | feed_generators/meta_blog.py:166 | Articles with equal sort keys, all undated ones in particular, keep their dictionary order. |
| GeneralistBlog.StrptimeAs | feed_generators/generalist_blog.py:29 | A date read with one format is a real calendar date. |
| GeneralistBlog.ParseDate | feed_generators/generalist_blog.py:24-33 | A date is read only when the whole stripped text is one real date written with an abbreviated or a full month name; when the abbreviated form reads a date, that date is the result, and otherwise the result is what the full-month form reads. |
| GeneralistBlog.ParseDateNoMatch | feed_generators/generalist_blog.py:24-33 | When neither format matches the stripped text, there is no date. |
| GeneralistBlog.ParseDateIgnoresSpace | feed_generators/generalist_blog.py:26 | Whitespace around the text never changes the result. |
| GeneralistBlog.StrptimeWhole | feed_generators/generalist_blog.py:27-29 | A format that matches the whole text and gives a real date yields that date. |
| GeneralistBlog.ParseShortForm | feed_generators/generalist_blog.py:24-33 | Every real date written "Nov 04, 2025"-style is read back as itself. |
| GeneralistBlog.ParseLongForm | feed_generators/generalist_blog.py:24-33 | Every real date written "September 24, 2025"-style is read back as itself. |
| GeneralistBlog.LongFormAsShort | feed_generators/generalist_blog.py:27-31 | A full month name matches the abbreviated format only for May, and then gives the same date. |
| GeneralistBlog.NoAbbreviatedMonth | feed_generators/generalist_blog.py:27 | The abbreviated format never matches a text whose fourth character is not whitespace. |
| GeneralistBlog.ArticleOf | feed_generators/generalist_blog.py:41-65 | A link yields an article exactly when it has a non-empty href and a non-empty `h1`. The article's title is the `h1` text; its link is the href when that starts with "http", else `https://generalistai.com` plus the href; its description is the `h2` text, or the title when there is no `h2`; its category is "Generalist AI". |
| GeneralistBlog.ArticleOfDate | feed_generators/generalist_blog.py:48-62 | The article's date is the `p` date at midnight, or "now" when there is no `p` or no date in it. |
| GeneralistBlog.ExtractArticles | feed_generators/generalist_blog.py:36-67 | The loop appends one article per link that passes the checks, in document order. |
| GeneralistBlog.Origins | feed_generators/generalist_blog.py:40-65 | Every article comes from a link of the page. |
| GeneralistBlog.ExtractedFromLinks | feed_generators/generalist_blog.py:40-67 | There are at most as many articles as links, in document order, with no de-duplication. Each article is what its own link yields, and every link not used yields nothing. |
| GeneralistBlog.ExtractedTitled | feed_generators/generalist_blog.py:54-63 | Every article has a non-empty title and category "Generalist AI". |
| GeneralistBlog.ToEntry | feed_generators/generalist_blog.py:82-88 | An entry's id and link are the article's link, its title, description and category are copied, and `published` is always set, to the article's date. |
| GeneralistBlog.GenerateRssFeed | feed_generators/generalist_blog.py:70-90 | The channel carries the Generalist AI title, description, language and both links, with no author. The entries are the articles newest first, one per article. |
| GeneralistBlog.AddEntries | feed_generators/generalist_blog.py:81-88 | The `add_entry` loop gives one entry per sorted article, in order. |
| GeneralistBlog.EntryOfArticle | feed_generators/generalist_blog.py:82-88 | Each entry's id and link are its article's link, and its title, description and category are copied. `published` is always set, to the article's date. |
| GeneralistBlog.FeedIsPermutation | feed_generators/generalist_blog.py:81 | The feed has exactly one entry per article. |
| GeneralistBlog.PublishedNewestFirst | feed_generators/generalist_blog.py:81-87 | Every entry is published, and `published` instants never increase in `add_entry` order. |
| GeneralistBlog.SameDateKeepsOrder | feed_generators/generalist_blog.py:81 | Articles of the same instant keep their document order. |
| Feeds.SelfLink | feed_generators/meta_blog.py:155-158 | The self link is the repository's raw feeds URL followed by `feed_<name>.xml`. |
| Feeds.SelfLinkInjective | feed_generators/generalist_blog.py:76-79 | Different feed names give different self links. |
| Sorting.SortDesc | feed_generators/generalist_blog.py:81 | `sorted(..., reverse=True)` returns a permutation of its input with non-increasing keys. |
| Sorting.SortDescStable | feed_generators/meta_blog.py:166 | The sort is stable: elements with equal keys keep their input order. |
| Sorting.InsertNonIncreasing | feed_generators/meta_blog.py:166 | Inserting into a sorted sequence keeps it sorted. |
| Sorting.InsertWithKey | feed_generators/meta_blog.py:166 | An inserted element goes after the elements with its key. |
| Sorting.MapSeqPermutation | feed_generators/meta_blog.py:166-174 | Entries made from permuted articles are a permutation of the entries made from the originals. |
| Dates.PrecedesTransitive | feed_generators/meta_blog.py:162-164 | Tuple order is transitive. |
| Dates.PrecedesTotal | feed_generators/meta_blog.py:162-164 | Of two different tuples, one precedes the other. |
| Dates.PrecedesAppend | feed_generators/meta_blog.py:164 | A tuple compares by its first fields, then, when those are equal, by the rest. |
| Dates.MidnightOrder | feed_generators/meta_blog.py:61 | Dates at midnight UTC compare as their dates do. |
| Dates.MonthDayYearAt | feed_generators/meta_blog.py:18-20 | A match starts with one of the month names at the given position, the month is that name's number, and the match ends inside the text. |
| Dates.MonthDayYearAtFields | feed_generators/meta_blog.py:18-20 | The day, the year and the end of a match are the ones read from the day and year that follow the month name. |
| Dates.LongFormScan | feed_generators/meta_blog.py:18-20 | "September 24, 2025" is matched whole, as that date. |
| Dates.ShortFormScan | feed_generators/generalist_blog.py:27 | "Nov 04, 2025" is matched whole, as that date. |
| Dates.MonthNameUnique | feed_generators/meta_blog.py:19 | At most one month name matches at a position. |
| Dates.DigitsRoundTrip | feed_generators/meta_blog.py:19 | A number written with zero-padded digits is read back as itself. |
| Strings.JoinSplit | feed_generators/run_feeds.py:61 | Splitting on a character and joining back with it gives the original text. |
| Strings.SplitJoin | feed_generators/run_feeds.py:61 | Joining separator-free parts and splitting again gives the parts back. |
| Strings.TrimRemovesOnlyEnds | feed_generators/run_feeds.py:62 | `strip` removes only whitespace, and only from the two ends. |
| Strings.StripIdempotent | feed_generators/run_feeds.py:62 | Stripping twice gives what stripping once gives. |
| Strings.CollapseIsCollapsed | feed_generators/meta_blog.py:68 | `" ".join(s.split())` leaves whitespace only as single spaces between other characters. |
| Strings.CollapseIdempotent | feed_generators/meta_blog.py:119 | Collapsing whitespace twice gives what collapsing once gives. |
| Strings.TitleCase | feed_generators/meta_blog.py:111 | `title()` keeps the length and changes only letter case. |
| Strings.FindFrom | feed_generators/meta_blog.py:91 | The search finds the first occurrence at or after the start, and none is missed. |
| Strings.AfterFirst | feed_generators/meta_blog.py:77 | `split(pat, 1)[1]` is the text after the first occurrence of the pattern. |

## Left out

- HTTP fetching, reading saved pages, creating the `feeds/` directory and writing files (`fetch_blog_content`, `ensure_feeds_directory`, `save_rss_feed`, the generators' `main` functions). These are I/O.
- BeautifulSoup's parsing and `get_text`. A Meta page is the sequence of its `<a>` elements, each with its href, text, `aria-label`, `title` and ancestors' texts. The CSS selector of `meta_blog.py:87` is modelled, as `MetaBlog.Selected`. A Generalist page is the sequence of its `a.blog-menu-article-link` elements, each with its href and its `h1`, `h2` and `p` texts.
- `FeedGenerator`'s RSS/XML output. A feed is the channel fields and the entries handed to it, in `add_entry` call order; the order in which the library then writes the items is not modelled.
- Logging and the run summary messages. These are output only.
- argparse, beyond the `--feeds` selection rule. `parser.error` is the exit status 2 it produces.
- RunFeeds.Registry: each runner is reduced to a fixed outcome per name. What a runner does, and whether it might behave differently when called again for a duplicate name, is not modelled.
- GeneralistBlog.ArticleOf: "now" is one instant passed in. The source calls `datetime.now(pytz.UTC)` for each article without a date, so two such articles could differ by microseconds there.
- Time zones: every date is UTC, as both generators set it. An `Instant` is a date plus microseconds since midnight.
- Unicode: `lower()` and `title()` are modelled on ASCII letters, and `\d` and `%d` on ASCII digits. Whitespace (`\s`, `str.isspace`, `strip`, `split`) is Python's `str.isspace` set. Case-insensitive month matching (`re.IGNORECASE` and `strptime`) is modelled by ASCII lower-casing, so Unicode case folds such as `ſ` (U+017F) matching `s` are not modelled.
- MetaBlog.ParseDateFromText: the `%b` retry at `meta_blog.py:59` is not modelled, because it cannot change the result. The regex matches only full month names, and such a match either parses with `%B` or is not a real date, which fails `%b` too.
- MetaBlog.NewArticle: the `raw_title or slug...` fallback at `meta_blog.py:136` and `138` is not modelled, because the title is never empty there (`MetaBlog.TitleFor`).
- RunFeeds.RegisteredOutcome: `Raised` stands for an `Exception` subclass, which `run_feeds.py:93` catches. A runner raising `SystemExit` or `KeyboardInterrupt` ends the whole run instead, and that is not modelled.
