/** Properties of the conversion: items follow entries one for one and in
    order, the channel's layout and defaults, when each optional item
    field is present and what it holds, and the order of an item's fields. */
module FeedProperties {
  import opened Wrappers
  import opened Text
  import opened Xml
  import opened CData
  import opened Feed

  /** One item per entry, the k-th item made from the k-th entry. */
  lemma {:induction false} ItemsFollowEntries(entries: seq<Node>, render: DateRenderer)
    ensures |Items(entries, render)| == |entries|
    ensures forall k :: 0 <= k < |entries| ==> Items(entries, render)[k] == ItemOf(entries[k], render)
    decreases |entries|
  {
    MapNodesAt(e => ItemOf(e, render), entries);
  }

  /** Every element `find_all("entry")` returns is an entry element. */
  lemma EntriesAreElements(doc: Document)
    ensures forall e :: e in Entries(doc) ==> e.Element? && e.name == "entry"
  {
  }

  /** `find_all("entry")` misses no entry: an element is among the entries
      converted exactly when it is an `entry` element somewhere in the document. */
  lemma EveryEntryIsConverted(doc: Document)
    ensures forall x :: x in Entries(doc) <==> InForest(x, doc.roots) && x.Element? && x.name == "entry"
  {
    forall x ensures x in Entries(doc) <==> InForest(x, doc.roots) && x.Element? && x.name == "entry" {
      ElementsComplete(x, doc.roots);
    }
  }

  /** The channel holds `title`, `link`, `description`, then the items made
      from the entries (one per entry, in document order, by
      ItemsFollowEntries); the items are exactly the children from the
      fourth on, so the number of items is the number of entries. */
  lemma ChannelLayout(doc: Document, render: DateRenderer)
    ensures var ch := Channel(doc, render); var es := Entries(doc);
      && ch.name == "channel"
      && |ch.children| == 3 + |es|
      && ch.children[0] == Leaf("title", ChannelTitle(doc))
      && ch.children[1] == Leaf("link", ChannelLink(doc))
      && ch.children[2] == Leaf("description", ChannelDescription(doc))
      && ch.children[3..] == Items(es, render)
      && (forall k :: 0 <= k < |ch.children| ==>
            ch.children[k].Element? && (ch.children[k].name == "item" <==> 3 <= k))
  {
    var es := Entries(doc);
    var items := Items(es, render);
    ItemsFollowEntries(es, render);
    forall k | 0 <= k < |items| ensures items[k].Element? && items[k].name == "item" {
      assert items[k] == ItemOf(es[k], render);
    }
    HeadThenItems(ChannelTitle(doc), ChannelLink(doc), ChannelDescription(doc), items);
  }

  /** The three leaves of the channel head followed by any run of items. */
  lemma HeadThenItems(t: string, l: string, d: string, items: seq<Node>)
    requires forall k :: 0 <= k < |items| ==> items[k].Element? && items[k].name == "item"
    ensures var cs := [Leaf("title", t), Leaf("link", l), Leaf("description", d)] + items;
      && |cs| == 3 + |items| && cs[3..] == items
      && (forall k :: 0 <= k < |cs| ==> cs[k].Element? && (cs[k].name == "item" <==> 3 <= k))
  {
    var cs := [Leaf("title", t), Leaf("link", l), Leaf("description", d)] + items;
    assert cs[3..] == items;
    forall k | 0 <= k < |cs| ensures cs[k].Element? && (cs[k].name == "item" <==> 3 <= k) {
      if 3 <= k {
        assert cs[k] == items[k - 3];
      }
    }
  }

  /** The document holds one `rss` element with exactly the attributes
      `version="2.0"` and `xmlns:content`, holding the channel alone. */
  lemma RssSkeleton(doc: Document, render: DateRenderer)
    ensures var d := RssDocument(doc, render);
      && d.children == [d.children[0]]
      && d.children[0].name == "rss"
      && d.children[0].attrs.Keys == {"version", "xmlns:content"}
      && d.children[0].attrs["version"] == "2.0"
      && d.children[0].attrs["xmlns:content"] == "http://purl.org/rss/1.0/modules/content/"
      && d.children[0].children == [Channel(doc, render)]
  {
  }

  /** The channel title is the stripped text of the first `title` anywhere
      in the document (an empty one gives ""); the default is used exactly
      when the document has no `title` at all. */
  lemma ChannelTitleRule(doc: Document)
    ensures var ts := FindAll(doc.roots, ByName("title"));
      ChannelTitle(doc) == if ts == [] then DefaultTitle else GetText(ts[0])
  {
    FindIsFirstOfFindAll(doc.roots, ByName("title"));
  }

  /** The channel link is the `href` of the first alternate link of the
      document; the default is used exactly when there is none or it has no `href`
      (a later alternate link is not consulted). */
  lemma ChannelLinkRule(doc: Document)
    ensures var ls := FindAll(doc.roots, AlternateLink);
      ChannelLink(doc) ==
        if ls != [] && "href" in ls[0].attrs then ls[0].attrs["href"] else DefaultLink
  {
    FindIsFirstOfFindAll(doc.roots, AlternateLink);
  }

  /** The channel description is the stripped text of the first `subtitle`,
      and the default is used exactly when there is no `subtitle`. */
  lemma ChannelDescriptionRule(doc: Document)
    ensures var ss := FindAll(doc.roots, ByName("subtitle"));
      ChannelDescription(doc) == if ss == [] then DefaultDescription else GetText(ss[0])
  {
    FindIsFirstOfFindAll(doc.roots, ByName("subtitle"));
  }

  /** The rank of an item field in the fixed order of `process_feed`. */
  function FieldRank(name: string): nat
  {
    if name == "title" then 0
    else if name == "link" then 1
    else if name == "pubDate" then 2
    else if name == "content:encoded" then 3
    else 4
  }

  /** An item holds only simple text elements named `title`, `link`,
      `pubDate` or `content:encoded`, each at most once and in that order. */
  lemma ItemFieldOrder(entry: Node, render: DateRenderer)
    ensures var cs := ItemOf(entry, render).children;
      && |cs| <= 4
      && (forall i :: 0 <= i < |cs| ==> IsLeaf(cs[i]) && FieldRank(cs[i].name) < 4)
      && (forall i, j :: 0 <= i < j < |cs| ==> FieldRank(cs[i].name) < FieldRank(cs[j].name))
  {
    var a := Field("title", ItemTitle(entry));
    var b := Field("link", ItemLink(entry));
    var c := Field("pubDate", ItemPubDate(entry, render));
    var d := Field("content:encoded", ItemContent(entry));
    RankedJoin(a, 0, b, 1);
    RankedJoin(a + b, 1, c, 2);
    RankedJoin(a + b + c, 2, d, 3);
  }

  /** An element with no attributes holding a single string. */
  predicate IsLeaf(n: Node)
  {
    n.Element? && n.attrs == map[] && |n.children| == 1 && n.children[0].Str?
  }

  /** Leaves ranked strictly increasing, all ranks at most `bound`. */
  predicate Ranked(cs: seq<Node>, bound: nat)
  {
    && (forall i :: 0 <= i < |cs| ==> IsLeaf(cs[i]) && FieldRank(cs[i].name) <= bound)
    && (forall i, j :: 0 <= i < j < |cs| ==> FieldRank(cs[i].name) < FieldRank(cs[j].name))
  }

  lemma RankedJoin(a: seq<Node>, ra: nat, b: seq<Node>, rb: nat)
    requires rb <= 3 && ra < rb
    requires ra == 0 ==> Ranked(a, 0) && |a| <= 1
    requires ra > 0 ==> Ranked(a, ra) && |a| <= ra + 1
    requires b == [] || (|b| == 1 && IsLeaf(b[0]) && FieldRank(b[0].name) == rb)
    ensures Ranked(a + b, rb) && |a + b| <= rb + 1
  {
  }

  /** A reader's lookup on the RSS tree: the first element among `ns`
      (direct children only) named `name`. */
  function ChildNamed(ns: seq<Node>, name: string): Option<Node>
  {
    if ns == [] then None
    else if ns[0].Element? && ns[0].name == name then Some(ns[0])
    else ChildNamed(ns[1..], name)
  }

  /** The first child named `name` of a concatenation. */
  lemma {:induction false} ChildNamedJoin(a: seq<Node>, b: seq<Node>, name: string)
    ensures ChildNamed(a + b, name) ==
            if ChildNamed(a, name).Some? then ChildNamed(a, name) else ChildNamed(b, name)
  {
    if a == [] {
      assert a + b == b;
    } else {
      assert (a + b)[1..] == a[1..] + b;
      ChildNamedJoin(a[1..], b, name);
    }
  }

  /** Finding `name` among an item's children finds the field of that name,
      or nothing when the field is absent. */
  lemma ItemChild(entry: Node, render: DateRenderer, name: string)
    ensures ChildNamed(ItemOf(entry, render).children, name) ==
      if name == "title" then FieldNode("title", ItemTitle(entry))
      else if name == "link" then FieldNode("link", ItemLink(entry))
      else if name == "pubDate" then FieldNode("pubDate", ItemPubDate(entry, render))
      else if name == "content:encoded" then FieldNode("content:encoded", ItemContent(entry))
      else None
  {
    var a := Field("title", ItemTitle(entry));
    var b := Field("link", ItemLink(entry));
    var c := Field("pubDate", ItemPubDate(entry, render));
    var d := Field("content:encoded", ItemContent(entry));
    ChildNamedJoin(a + b + c, d, name);
    ChildNamedJoin(a + b, c, name);
    ChildNamedJoin(a, b, name);
    FieldChild("title", ItemTitle(entry), name);
    FieldChild("link", ItemLink(entry), name);
    FieldChild("pubDate", ItemPubDate(entry, render), name);
    FieldChild("content:encoded", ItemContent(entry), name);
  }

  function FieldNode(name: string, value: Option<string>): Option<Node>
  {
    if value.Some? then Some(Leaf(name, value.value)) else None
  }

  lemma FieldChild(field: string, value: Option<string>, name: string)
    ensures ChildNamed(Field(field, value), name) ==
            if field == name then FieldNode(field, value) else None
  {
    if value.Some? {
      assert Field(field, value)[1..] == [];
    }
  }

  /** `item/title` is present exactly when the entry has a `title` below
      it, and holds the stripped text of the first one. */
  lemma ItemTitleRule(entry: Node, render: DateRenderer)
    ensures var ts := FindAll(KidsOf(entry), ByName("title"));
      ChildNamed(ItemOf(entry, render).children, "title") ==
        if ts == [] then None else Some(Leaf("title", GetText(ts[0])))
  {
    ItemChild(entry, render, "title");
    FindIsFirstOfFindAll(KidsOf(entry), ByName("title"));
  }

  /** `item/link` is present exactly when the entry's first alternate link
      has an `href`, and holds that `href`. */
  lemma ItemLinkRule(entry: Node, render: DateRenderer)
    ensures var ls := FindAll(KidsOf(entry), AlternateLink);
      ChildNamed(ItemOf(entry, render).children, "link") ==
        if ls != [] && "href" in ls[0].attrs then Some(Leaf("link", ls[0].attrs["href"])) else None
  {
    ItemChild(entry, render, "link");
    FindIsFirstOfFindAll(KidsOf(entry), AlternateLink);
  }

  /** The date string comes from the first `published` whenever that has a
      non-empty `.string`; the first `updated` is consulted only otherwise. */
  lemma DateSourceRule(entry: Node)
    ensures var ps := FindAll(KidsOf(entry), ByName("published"));
            var us := FindAll(KidsOf(entry), ByName("updated"));
      DateSource(entry) ==
        if ps != [] && Truthy(StringOf(ps[0])) then Some(Strip(StringOf(ps[0]).value))
        else if us != [] && Truthy(StringOf(us[0])) then Some(Strip(StringOf(us[0]).value))
        else None
  {
    FindIsFirstOfFindAll(KidsOf(entry), ByName("published"));
    FindIsFirstOfFindAll(KidsOf(entry), ByName("updated"));
  }

  /** `item/pubDate` is present exactly when the date string is non-empty
      and the date library renders it, and then holds the rendering. */
  lemma ItemPubDateRule(entry: Node, render: DateRenderer)
    ensures var date := DateSource(entry);
      ChildNamed(ItemOf(entry, render).children, "pubDate") ==
        if date.Some? && date.value != "" && render(date.value).Some?
        then Some(Leaf("pubDate", render(date.value).value)) else None
  {
    ItemChild(entry, render, "pubDate");
  }

  /** A `published` whose string is whitespace only ends the search for a
      date: no `pubDate` is emitted, whatever `updated` holds. */
  lemma BlankPublishedGivesNoDate(entry: Node, render: DateRenderer)
    requires var p := Find(KidsOf(entry), ByName("published"));
      p.Some? && Truthy(StringOf(p.value)) && AllSpace(StringOf(p.value).value)
    ensures ChildNamed(ItemOf(entry, render).children, "pubDate") == None
  {
    var p := Find(KidsOf(entry), ByName("published"));
    StripEmptyIff(StringOf(p.value).value);
    ItemPubDateRule(entry, render);
  }

  /** A date the library rejects costs the item its `pubDate` and nothing
      else: every other field is what it is under any other renderer. */
  lemma DateAffectsOnlyPubDate(entry: Node, r1: DateRenderer, r2: DateRenderer, name: string)
    requires name != "pubDate"
    ensures ChildNamed(ItemOf(entry, r1).children, name) ==
            ChildNamed(ItemOf(entry, r2).children, name)
  {
    ItemChild(entry, r1, name);
    ItemChild(entry, r2, name);
  }

  /** `item/content:encoded` is present exactly when the entry's first
      `content` has a non-empty `.string`, and holds that string escaped
      and wrapped. */
  lemma ItemContentRule(entry: Node, render: DateRenderer)
    ensures var cs := FindAll(KidsOf(entry), ByName("content"));
      ChildNamed(ItemOf(entry, render).children, "content:encoded") ==
        if cs != [] && Truthy(StringOf(cs[0]))
        then Some(Leaf("content:encoded", Open + Escape(StringOf(cs[0]).value) + Close)) else None
  {
    ItemChild(entry, render, "content:encoded");
    FindIsFirstOfFindAll(KidsOf(entry), ByName("content"));
  }

  /** Reading the CDATA sections of `content:encoded` back gives the
      content's original string exactly. */
  lemma ContentRoundTrip(entry: Node, render: DateRenderer)
    requires ChildNamed(ItemOf(entry, render).children, "content:encoded").Some?
    ensures var encoded := ChildNamed(ItemOf(entry, render).children, "content:encoded").value;
            var content := Find(KidsOf(entry), ByName("content"));
      && content.Some? && StringOf(encoded).Some?
      && Sections(StringOf(encoded).value).Some?
      && StringOf(content.value).Some?
      && Concat(Sections(StringOf(encoded).value).value) == StringOf(content.value).value
  {
    ItemChild(entry, render, "content:encoded");
    var content := Find(KidsOf(entry), ByName("content")).value;
    WrapRoundTrip(StringOf(content).value);
  }
}
