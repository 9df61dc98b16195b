/**
 * What a generator hands to `FeedGenerator`: the channel fields and, in the
 * order `add_entry` is called, one entry per article. The RSS/XML text the
 * library writes from them is not part of this model.
 */
module Feeds {
  import opened Options
  import opened Dates

  /** The channel-level fields: `title`, `description`, `language`, the two links and the optional author. */
  datatype Channel = Channel(
    title: string,
    description: string,
    language: string,
    selfLink: string,
    alternateLink: string,
    author: Option<string>)

  /** One `fe = fg.add_entry()` and the fields set on it; `published` is `None` when never set. */
  datatype Entry = Entry(
    id: string,
    title: string,
    link: string,
    description: string,
    published: Option<Instant>,
    category: string)

  datatype Feed = Feed(channel: Channel, entries: seq<Entry>)

  const SelfLinkPrefix: string := "https://raw.githubusercontent.com/gu-ni/rss-feeds/main/feeds/feed_"

  /** The `rel="self"` link: where the published `feed_<name>.xml` lives. */
  function SelfLink(feedName: string): (r: string)
    ensures StartsWithPrefix(r) && r[|SelfLinkPrefix|..] == feedName + ".xml"
  {
    SelfLinkPrefix + feedName + ".xml"
  }

  predicate StartsWithPrefix(s: string) {
    |SelfLinkPrefix| <= |s| && s[..|SelfLinkPrefix|] == SelfLinkPrefix
  }

  /** Different feed names give different self links. */
  lemma SelfLinkInjective(a: string, b: string)
    requires SelfLink(a) == SelfLink(b)
    ensures a == b
  {
    var ra, rb := SelfLink(a)[|SelfLinkPrefix|..], SelfLink(b)[|SelfLinkPrefix|..];
    assert ra[..|a|] == a && rb[..|b|] == b;
  }
}
