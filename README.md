# Atom to RSS 2.0 conversion, modelled in Dafny

The converter (`AtomToRSSConverterApp.process_feed`) reads an Atom feed that
BeautifulSoup has already parsed. From it, the converter builds an RSS 2.0
document. That document has:

- a document root holding one `rss` element, with `version="2.0"` and the
  `xmlns:content` namespace declaration;
- an `rss` element holding one `channel`;
- a channel holding `title`, `link` and `description`, each falling back to
  a fixed default;
- after those three, one `item` per Atom `entry`, in document order.

Each item gets up to four fields, in a fixed order: `title`, `link`,
`pubDate` and `content:encoded`. A field is added only when the entry
supplies it.

- The date is taken from `published`, falling back to `updated`. It is
  turned into an RFC 822 date by the date library. A date the library
  rejects only drops that item's `pubDate`.
- The content is protected for literal inclusion in one step. Every `]]>`
  in it becomes `]]]]><![CDATA[>`, and the result is wrapped in
  `<![CDATA[ … ]]>`.

The project has these modules:

- `Wrappers` holds `Option` and `Result`.
- `Text` holds Python's `str.strip()` over the exact `str.isspace()`
  character set.
- `Xml` models the parsed tree as `Node = Str | Element(name, attrs,
  children)`. It gives the BeautifulSoup queries the converter uses:
  - `find` and `find_all`, which search proper descendants in document order;
  - `.string`;
  - `get_text(strip=True)`.
- `CData` holds the escape and the wrap. It also holds a reader for runs of
  CDATA sections, which is used to prove that wrapping loses nothing.
- `Feed` states, as functions, what tree the converter builds from a
  document. These are the specification functions.
- `FeedProperties` proves the converter's promises about that tree.
- `Soup` is the converter itself, written imperatively. `Soup.Tag` is a tag
  of the output tree:
  - it holds its children by reference;
  - it changes in place through `SetAttribute`, `SetString` and `Append`;
  - it carries a ghost `Model`, which is the tree it stands for.

  The methods `Skeleton`, `BuildItem`, `AddItems` (the loop over the entries
  with `count_items`) and `ProcessFeed` follow the body of `process_feed`
  statement by statement. Each is proved to build exactly the tree that the
  `Feed` functions describe.

The behaviour modelled is that of the code. In these places it differs from
the project's own description of the converter:

- A channel `title` or `subtitle` that is present but has no text gives an
  empty channel title or description, not the default. A BeautifulSoup tag
  is always true (`ChannelTitleRule`, `ChannelDescriptionRule`).
- An entry's `title` that is present but empty still gives an empty
  `item/title` (`ItemTitleRule`).
- The lookups inside an entry search every descendant, not only the direct
  children.
- A `published` whose text is only whitespace is non-empty before
  stripping. It therefore stops the fallback to `updated`, and the item gets
  no `pubDate` (`BlankPublishedGivesNoDate`).
- `content:encoded` needs the entry's `content` to have a single string
  (BeautifulSoup's `.string`). Content made of several nodes, such as
  XHTML content, is skipped.

## Model

| member | source | states |
|---|---|---|
| Text.Strip | atom-to-rss-bald-to-bran.py:153-155 | the stripped string has no whitespace at either end and is no longer than the input |
| Text.TrimStart | atom-to-rss-bald-to-bran.py:153 | the result is a suffix of the input, what was removed is all whitespace, and the result does not start with whitespace |
| Text.TrimEnd | atom-to-rss-bald-to-bran.py:153 | the result is a prefix of the input, what was removed is all whitespace, and the result does not end with whitespace |
| Text.IsSpace | atom-to-rss-bald-to-bran.py:153 | Python's `str.isspace()` character set; what stripping removes is stated by `Text.TrimStart`, `Text.TrimEnd` and `Text.StripEmptyIff` |
| Text.StripSplit | atom-to-rss-bald-to-bran.py:153-155 | stripping whitespace, of any kind, around a trimmed core gives exactly that core |
| Text.StripEmptyIff | atom-to-rss-bald-to-bran.py:152-157 | a string strips to "" exactly when it is all whitespace |
| Text.StripIdempotent | atom-to-rss-bald-to-bran.py:153 | stripping twice is stripping once |
| Xml.Elements | atom-to-rss-bald-to-bran.py:127 | the pre-order list of the elements below the given nodes holds only elements; `Xml.ElementsComplete` states that it holds every one of them |
| Xml.InForest | atom-to-rss-bald-to-bran.py:127 | an independent definition of "an element somewhere below these nodes", against which `Xml.ElementsComplete` checks `Xml.Elements` |
| Xml.ElementsComplete | atom-to-rss-bald-to-bran.py:127 | a node is in the pre-order element list exactly when it is an element somewhere below the given nodes (both directions) |
| Xml.ElementsOfComplete | atom-to-rss-bald-to-bran.py:127 | a node is in the element list of one tree exactly when it is that tree's root element or an element below it |
| Xml.Matches | atom-to-rss-bald-to-bran.py:104-106 | the query `find(name, rel=...)` applies to one node: an element with that name and, when asked, that attribute value; used by `Xml.Select` and `Xml.FindSpec` |
| Xml.Select | atom-to-rss-bald-to-bran.py:127 | filtering keeps exactly the members that match, and never adds any |
| Xml.FindAll | atom-to-rss-bald-to-bran.py:127 | `find_all`: the matching elements below the nodes in document order; `Xml.Select`, `Xml.ElementsComplete` and `FeedProperties.EveryEntryIsConverted` state what it holds |
| Xml.Find | atom-to-rss-bald-to-bran.py:133 | `find`: the first match in a depth-first search below the nodes; `Xml.FindSpec` and `Xml.FindIsFirstOfFindAll` state that it is the first element `find_all` lists |
| Xml.FindSpec | atom-to-rss-bald-to-bran.py:104-106 | a found element matches the query and lies below the searched nodes; nothing is found exactly when no element below matches |
| Xml.FindIsFirstOfFindAll | atom-to-rss-bald-to-bran.py:104-106 | `find` gives the first element `find_all` lists, and nothing exactly when `find_all` lists nothing |
| Xml.SelectAppend | atom-to-rss-bald-to-bran.py:127 | filtering a concatenation filters each part in order |
| Xml.GetTextOfSingleString | atom-to-rss-bald-to-bran.py:109 | for a node with a single string, `get_text(strip=True)` is that string stripped |
| Xml.StringOf | atom-to-rss-bald-to-bran.py:152-154 | bs4 `.string`; `Xml.GetTextOfSingleString` relates it to `get_text`, and `FeedProperties.DateSourceRule` and `FeedProperties.ItemContentRule` state how the converter uses it |
| Xml.GetText | atom-to-rss-bald-to-bran.py:109 | bs4 `get_text(strip=True)`; `Xml.GetTextOfSingleString` states its value on a node with a single string, and `FeedProperties.ChannelTitleRule` how the converter uses it |
| Xml.GetTextAll | atom-to-rss-bald-to-bran.py:136 | `get_text(strip=True)` over a list of nodes, their results joined in order; stated through `Xml.GetText` |
| Xml.Truthy | atom-to-rss-bald-to-bran.py:152-154 | Python truthiness of `.string`: present and not empty; used in `FeedProperties.DateSourceRule` and `FeedProperties.ItemContentRule` |
| CData.Wrap | atom-to-rss-bald-to-bran.py:175-176 | the wrapped text starts with `<![CDATA[`, ends with `]]>` and is at least as long as the content plus both |
| CData.Escape | atom-to-rss-bald-to-bran.py:175 | `str.replace("]]>", "]]]]><![CDATA[>")`; `CData.EscapeIdentityIff`, `CData.EscapeSplit` and `CData.WrapRoundTrip` state what it does |
| CData.FindTerm | atom-to-rss-bald-to-bran.py:175 | the index found is the first `]]>` at or after the start point; none is found exactly when none follows |
| CData.Sections | atom-to-rss-bald-to-bran.py:176 | every section body that an XML reader takes out of a run of CDATA sections is free of `]]>` |
| CData.EscapeIdentity | atom-to-rss-bald-to-bran.py:175 | content without `]]>` is left unchanged by the escape |
| CData.EscapeIdentityIff | atom-to-rss-bald-to-bran.py:175 | the escape leaves the content unchanged exactly when the content holds no `]]>` |
| CData.EscapeLength | atom-to-rss-bald-to-bran.py:175 | the escape never shortens its input, and lengthens every input that holds a `]]>` |
| CData.EscapeSplit | atom-to-rss-bald-to-bran.py:175 | the first `]]>` is replaced by the split form and the text before it is copied |
| CData.WrapRoundTrip | atom-to-rss-bald-to-bran.py:174-176 | the wrapped content reads back as a run of CDATA sections, each free of `]]>`, whose bodies join up to the original content |
| CData.Reassemble | atom-to-rss-bald-to-bran.py:175-176 | the round trip holds for every section, the first one (no lead) and each one that a split `]]>` opens (lead `>`) |
| CData.SplitSection | atom-to-rss-bald-to-bran.py:175-176 | at a split `]]>`, one section closes with the text before it plus `]]` and the next one opens with `>` |
| CData.LastSection | atom-to-rss-bald-to-bran.py:176 | the rest of the content after its last `]]>` forms the final section |
| Feed.TextOr | atom-to-rss-bald-to-bran.py:109-121 | the stripped text of a tag, or the default when there is no tag; stated by `FeedProperties.ChannelTitleRule` and `FeedProperties.ChannelDescriptionRule` |
| Feed.Href | atom-to-rss-bald-to-bran.py:141-143 | the `href` of a link when it has one; stated by `FeedProperties.ChannelLinkRule` and `FeedProperties.ItemLinkRule` |
| Feed.ChannelTitle | atom-to-rss-bald-to-bran.py:104-109 | the channel title; `FeedProperties.ChannelTitleRule` states its value |
| Feed.ChannelLink | atom-to-rss-bald-to-bran.py:105-115 | the channel link; `FeedProperties.ChannelLinkRule` states its value |
| Feed.ChannelDescription | atom-to-rss-bald-to-bran.py:106-121 | the channel description; `FeedProperties.ChannelDescriptionRule` states its value |
| Feed.ChannelHead | atom-to-rss-bald-to-bran.py:108-124 | the channel's `title`, `link` and `description` leaves in that order; `FeedProperties.ChannelLayout` and `Soup.Skeleton` state it |
| Feed.Entries | atom-to-rss-bald-to-bran.py:127 | the entries `find_all("entry")` returns; `FeedProperties.EntriesAreElements` and `FeedProperties.EveryEntryIsConverted` state that they are exactly the `entry` elements of the document |
| Feed.ItemTitle | atom-to-rss-bald-to-bran.py:133-137 | the value of `item/title`; `FeedProperties.ItemTitleRule` states it |
| Feed.ItemLink | atom-to-rss-bald-to-bran.py:140-144 | the value of `item/link`; `FeedProperties.ItemLinkRule` states it |
| Feed.DateSource | atom-to-rss-bald-to-bran.py:149-155 | the date string taken from `published` or `updated`; `FeedProperties.DateSourceRule` and `FeedProperties.BlankPublishedGivesNoDate` state it |
| Feed.ItemPubDate | atom-to-rss-bald-to-bran.py:157-167 | the value of `item/pubDate`; `FeedProperties.ItemPubDateRule` and `FeedProperties.DateAffectsOnlyPubDate` state it |
| Feed.ItemContent | atom-to-rss-bald-to-bran.py:170-180 | the value of `content:encoded`; `FeedProperties.ItemContentRule` and `FeedProperties.ContentRoundTrip` state it |
| Feed.Field | atom-to-rss-bald-to-bran.py:134-180 | an item field, present only when it has a value; `FeedProperties.FieldChild` states it |
| Feed.ItemOf | atom-to-rss-bald-to-bran.py:130-180 | the item made from one entry; `FeedProperties.ItemFieldOrder` and `FeedProperties.ItemChild` state its fields, and `Soup.BuildItem` builds it |
| Feed.Items | atom-to-rss-bald-to-bran.py:129-182 | the items made from the entries; `FeedProperties.ItemsFollowEntries` and `Feed.ItemsSnoc` state them |
| Feed.Channel | atom-to-rss-bald-to-bran.py:100-182 | the channel; `FeedProperties.ChannelLayout` states its children |
| Feed.RssDocument | atom-to-rss-bald-to-bran.py:94-182 | the output document; `FeedProperties.RssSkeleton` states its root, and `Soup.ProcessFeed` builds it |
| Feed.ItemsSnoc | atom-to-rss-bald-to-bran.py:129-182 | converting one more entry adds that entry's item at the end of the items |
| Feed.MapNodesAt | atom-to-rss-bald-to-bran.py:129-182 | one output per input, each the image of the input at the same position |
| FeedProperties.ItemsFollowEntries | atom-to-rss-bald-to-bran.py:127-183 | there is one item per entry, and the k-th item is made from the k-th entry |
| FeedProperties.EntriesAreElements | atom-to-rss-bald-to-bran.py:127 | everything `find_all("entry")` returns is an `entry` element |
| FeedProperties.EveryEntryIsConverted | atom-to-rss-bald-to-bran.py:127 | an element is among the entries converted exactly when it is an `entry` element somewhere in the document, so no entry is missed |
| FeedProperties.ChannelLayout | atom-to-rss-bald-to-bran.py:100-182 | the channel holds `title`, `link`, `description` with their values, then exactly the items; a child is an `item` exactly when it comes after those three; the channel has 3 + (number of entries) children |
| FeedProperties.HeadThenItems | atom-to-rss-bald-to-bran.py:108-182 | the three channel fields followed by items: the children named `item` are exactly those from the fourth on |
| FeedProperties.RssSkeleton | atom-to-rss-bald-to-bran.py:94-101 | the document holds only `rss`, whose attributes are exactly `version="2.0"` and `xmlns:content` with the RSS content namespace, and which holds only the channel |
| FeedProperties.ChannelTitleRule | atom-to-rss-bald-to-bran.py:104-109 | the channel title is the stripped text of the first `title` in the document when there is one; the default "Atom to RSS Feed" is used exactly when there is none |
| FeedProperties.ChannelLinkRule | atom-to-rss-bald-to-bran.py:105-115 | the channel link is the `href` of the first alternate link when it has one; the default "http://example.com" is used exactly when there is no such link or it has no `href` |
| FeedProperties.ChannelDescriptionRule | atom-to-rss-bald-to-bran.py:106-121 | the description is the stripped text of the first `subtitle` when there is one; the default "Converted from Atom feed" is used exactly when there is none |
| FeedProperties.ItemFieldOrder | atom-to-rss-bald-to-bran.py:133-180 | an item holds at most four simple text fields, drawn from `title`, `link`, `pubDate` and `content:encoded`, each at most once and in that order |
| FeedProperties.ChildNamed | atom-to-rss-bald-to-bran.py:133-180 | a reader's lookup of a direct child by name in the RSS tree; `FeedProperties.ChildNamedJoin`, `FeedProperties.ItemChild` and `FeedProperties.FieldChild` state what it finds |
| FeedProperties.ChildNamedJoin | atom-to-rss-bald-to-bran.py:133-180 | the first child of a given name in a concatenation comes from the first part when the first part has one |
| FeedProperties.ItemChild | atom-to-rss-bald-to-bran.py:133-180 | the item child of each field name is that field when present, and nothing when absent; no other names occur |
| FeedProperties.FieldChild | atom-to-rss-bald-to-bran.py:133-180 | an optional field is found under its own name exactly when it is present |
| FeedProperties.ItemTitleRule | atom-to-rss-bald-to-bran.py:133-137 | `item/title` exists exactly when the entry has a `title` below it, and holds the stripped text of the first one |
| FeedProperties.ItemLinkRule | atom-to-rss-bald-to-bran.py:140-144 | `item/link` exists exactly when the first alternate link of the entry has an `href`, and holds it |
| FeedProperties.DateSourceRule | atom-to-rss-bald-to-bran.py:149-155 | the date string is the stripped `.string` of the first `published` when that is non-empty; `updated` is consulted only otherwise; no date when neither has one |
| FeedProperties.ItemPubDateRule | atom-to-rss-bald-to-bran.py:157-167 | `pubDate` exists exactly when the date string is non-empty and the date library renders it, and holds the rendering |
| FeedProperties.BlankPublishedGivesNoDate | atom-to-rss-bald-to-bran.py:152-157 | a `published` holding only whitespace gives no `pubDate`, whatever `updated` holds |
| FeedProperties.DateAffectsOnlyPubDate | atom-to-rss-bald-to-bran.py:158-167 | every field other than `pubDate` is the same whichever dates the library accepts or rejects |
| FeedProperties.ItemContentRule | atom-to-rss-bald-to-bran.py:170-180 | `content:encoded` exists exactly when the first `content` of the entry has a non-empty single string, and holds that string escaped and wrapped |
| FeedProperties.ContentRoundTrip | atom-to-rss-bald-to-bran.py:170-180 | reading the CDATA sections of `content:encoded` back gives exactly the entry's original content |
| Soup.Tag.constructor | atom-to-rss-bald-to-bran.py:95-100 | `new_tag` gives a tag with the name and attributes given and no contents |
| Soup.Tag.SetAttribute | atom-to-rss-bald-to-bran.py:97 | the attribute is set and nothing else about the tag changes |
| Soup.Tag.SetString | atom-to-rss-bald-to-bran.py:111 | the tag's contents become exactly the one string |
| Soup.Tag.Append | atom-to-rss-bald-to-bran.py:98-101 | the child goes after the existing contents, and the tag's tree gains the child's tree at the end |
| Soup.Tag.Refresh | atom-to-rss-bald-to-bran.py:101 | a tag that holds a tag which has grown again stands for its children's current trees |
| Soup.NewLeaf | atom-to-rss-bald-to-bran.py:110-111 | a new tag holding just the given string |
| Soup.AppendLeaf | atom-to-rss-bald-to-bran.py:110-124 | the parent gains one leaf with the given name and value at the end, and shares nothing with the tags it must not touch |
| Soup.AddField | atom-to-rss-bald-to-bran.py:134-137 | a field is appended exactly when it has a value |
| Soup.BuildItem | atom-to-rss-bald-to-bran.py:130-180 | the item built for an entry is exactly `Feed.ItemOf` of that entry |
| Soup.Root | atom-to-rss-bald-to-bran.py:94-101 | the document root holds `rss` with both attributes, which holds an empty `channel` |
| Soup.Skeleton | atom-to-rss-bald-to-bran.py:94-124 | the channel holds exactly the title, link and description that `Feed.ChannelHead` specifies |
| Soup.AppendItem | atom-to-rss-bald-to-bran.py:182 | the channel gains the entry's item at the end |
| Soup.AddItems | atom-to-rss-bald-to-bran.py:127-183 | the channel gains the items of the entries in order, and `count_items` equals the number of entries |
| Soup.ProcessFeed | atom-to-rss-bald-to-bran.py:85-183 | a parse failure yields its message and no document; otherwise the tree built is exactly `Feed.RssDocument`, and `count_items` is the number of entries |

## Left out

- The tkinter window, its buttons, the log pane and the message boxes are
  not modelled (atom-to-rss-bald-to-bran.py:1-73, 195-206). They are user
  interface with no conversion logic.
- Reading the input file and writing the output file are not modelled
  (76-82, 186-193). They are I/O. The checks that an input path and an
  output path were chosen go with them.
- BeautifulSoup's XML parser is not modelled (86). `ProcessFeed` takes the
  parser's outcome as a `Result`: either a parsed document or the parser's
  error message.
- `prettify()` and the textual form of the output are not modelled (189).
  The model ends at the output tree. BeautifulSoup entity-escapes a string
  set through `.string` (179) when it prints it, so the file written holds
  the text `&lt;![CDATA[…]]&gt;` and no CDATA section at all.
  `FeedProperties.ContentRoundTrip` and `CData.WrapRoundTrip` hold for the
  string in the tree, not for the printed file.
- `dateutil.parser.isoparse` and `email.utils.format_datetime` are not
  modelled (160-162). Together they are a parameter
  `render: string -> Option<string>`, where None stands for either call
  raising.
- Comments, processing instructions and namespaces are not part of the
  tree model. Elements are matched by their name, as the converter asks for
  them.
- The tags appended are always new, so BeautifulSoup's moving of a tag that
  already has a parent is not modelled.
