/** What `process_feed` builds from a parsed Atom document, stated as
    functions: the RSS skeleton, the channel's three fields with their
    defaults, and one item per entry with its optional fields. */
module Feed {
  import opened Wrappers
  import opened Text
  import opened Xml
  import opened CData

  const DefaultTitle := "Atom to RSS Feed"
  const DefaultLink := "http://example.com"
  const DefaultDescription := "Converted from Atom feed"
  const RssVersion := "2.0"
  const ContentNamespace := "http://purl.org/rss/1.0/modules/content/"
  /** The name bs4 gives the root of every document. */
  const DocumentName := "[document]"

  /** A parsed Atom document: the top-level nodes of the BeautifulSoup object. */
  datatype Document = Document(roots: seq<Node>)

  /** `email.utils.format_datetime(dateutil.parser.isoparse(s))`: the RFC 822
      rendering of an ISO 8601 date-time, or None when either call raises. */
  type DateRenderer = string -> Option<string>

  /** `find("link", rel="alternate")`. */
  const AlternateLink := Filter("link", Some(("rel", "alternate")))

  /** The attributes of the `rss` element: `version="2.0"` and the
      namespace declaration of `content:`. */
  const RssAttrs := map["version" := RssVersion, "xmlns:content" := ContentNamespace]

  /** `tag.get_text(strip=True) if tag else default`; a bs4 tag is always true. */
  function TextOr(tag: Option<Node>, default: string): string
  {
    if tag.Some? then GetText(tag.value) else default
  }

  /** The `href` of a found link, when the link exists and has one. */
  function Href(link: Option<Node>): Option<string>
  {
    if link.Some? && link.value.Element? && "href" in link.value.attrs
    then Some(link.value.attrs["href"]) else None
  }

  function ChannelTitle(doc: Document): string
  {
    TextOr(Find(doc.roots, ByName("title")), DefaultTitle)
  }

  function ChannelLink(doc: Document): string
  {
    var href := Href(Find(doc.roots, AlternateLink));
    if href.Some? then href.value else DefaultLink
  }

  function ChannelDescription(doc: Document): string
  {
    TextOr(Find(doc.roots, ByName("subtitle")), DefaultDescription)
  }

  /** A tag made by `new_tag(name)` whose `.string` is then set to `value`. */
  function Leaf(name: string, value: string): Node
  {
    Element(name, map[], [Str(value)])
  }

  /** The channel's `title`, `link` and `description`, in that order. */
  function ChannelHead(doc: Document): seq<Node>
  {
    [Leaf("title", ChannelTitle(doc)),
     Leaf("link", ChannelLink(doc)),
     Leaf("description", ChannelDescription(doc))]
  }

  /** `atom_soup.find_all("entry")`. */
  function Entries(doc: Document): seq<Node>
  {
    FindAll(doc.roots, ByName("entry"))
  }

  /** The value of `item/title`: the stripped text of the entry's first `title`. */
  function ItemTitle(entry: Node): Option<string>
  {
    var title := Find(KidsOf(entry), ByName("title"));
    if title.Some? then Some(GetText(title.value)) else None
  }

  /** The value of `item/link`: the `href` of the entry's first alternate link. */
  function ItemLink(entry: Node): Option<string>
  {
    Href(Find(KidsOf(entry), AlternateLink))
  }

  /** `date_str`: the stripped `.string` of `published` when that is a
      non-empty string, otherwise that of `updated`, otherwise None. */
  function DateSource(entry: Node): Option<string>
  {
    var published := Find(KidsOf(entry), ByName("published"));
    var updated := Find(KidsOf(entry), ByName("updated"));
    if published.Some? && Truthy(StringOf(published.value)) then
      Some(Strip(StringOf(published.value).value))
    else if updated.Some? && Truthy(StringOf(updated.value)) then
      Some(Strip(StringOf(updated.value).value))
    else None
  }

  /** The value of `item/pubDate`: the rendered date when `date_str` is a
      non-empty string the date library accepts; a rejected date is dropped. */
  function ItemPubDate(entry: Node, render: DateRenderer): Option<string>
  {
    var date := DateSource(entry);
    if date.Some? && date.value != "" then render(date.value) else None
  }

  /** The value of `item/content:encoded`: the wrapped `.string` of the
      entry's first `content`, when that is a non-empty string. */
  function ItemContent(entry: Node): Option<string>
  {
    var content := Find(KidsOf(entry), ByName("content"));
    if content.Some? && Truthy(StringOf(content.value))
    then Some(Wrap(StringOf(content.value).value)) else None
  }

  /** An optional child: emitted only when its value is present. */
  function Field(name: string, value: Option<string>): seq<Node>
  {
    if value.Some? then [Leaf(name, value.value)] else []
  }

  /** The `item` made from one entry. */
  function ItemOf(entry: Node, render: DateRenderer): Node
  {
    Element("item", map[],
      Field("title", ItemTitle(entry)) +
      Field("link", ItemLink(entry)) +
      Field("pubDate", ItemPubDate(entry, render)) +
      Field("content:encoded", ItemContent(entry)))
  }

  /** The items made from `entries`, one per entry. */
  function Items(entries: seq<Node>, render: DateRenderer): seq<Node>
  {
    MapNodes(e => ItemOf(e, render), entries)
  }

  function MapNodes(f: Node -> Node, xs: seq<Node>): seq<Node>
  {
    if xs == [] then [] else MapNodes(f, xs[..|xs| - 1]) + [f(xs[|xs| - 1])]
  }

  lemma {:induction false} MapNodesAt(f: Node -> Node, xs: seq<Node>)
    ensures |MapNodes(f, xs)| == |xs|
    ensures forall k :: 0 <= k < |xs| ==> MapNodes(f, xs)[k] == f(xs[k])
    decreases |xs|
  {
    if xs != [] {
      MapNodesAt(f, xs[..|xs| - 1]);
    }
  }

  /** Converting one more entry adds its item at the end. */
  lemma ItemsSnoc(entries: seq<Node>, i: nat, render: DateRenderer)
    requires i < |entries|
    ensures Items(entries[..i + 1], render) == Items(entries[..i], render) + [ItemOf(entries[i], render)]
  {
    assert entries[..i + 1][..i] == entries[..i];
  }

  /** The `channel` element once every entry has been converted. */
  function Channel(doc: Document, render: DateRenderer): Node
  {
    Element("channel", map[], ChannelHead(doc) + Items(Entries(doc), render))
  }

  /** The RSS document: bs4's document root holding `rss`, holding the channel. */
  function RssDocument(doc: Document, render: DateRenderer): Node
  {
    Element(DocumentName, map[], [Element("rss", RssAttrs, [Channel(doc, render)])])
  }
}
