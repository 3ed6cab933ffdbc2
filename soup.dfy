/** The RSS tree as `process_feed` builds it: bs4 tags created empty and
    filled in place, each tag holding its children by reference. */
module Soup {
  import opened Wrappers
  import opened Text
  import opened Xml
  import opened CData
  import opened Feed

  /** A bs4 tag under construction. `text` is the string set through
      `.string = v`; `contents` are the tags appended after it. */
  class Tag {
    const name: string
    var attrs: map<string, string>
    var text: Option<string>
    var contents: seq<Tag>
    /** This tag and every tag below it. */
    ghost var Repr: set<object>
    /** The tree this tag stands for. */
    ghost var Model: Node

    ghost predicate Valid()
      reads this, Repr
      decreases Repr
    {
      this in Repr &&
      (forall i :: 0 <= i < |contents| ==>
        contents[i] in Repr && contents[i].Repr <= Repr && this !in contents[i].Repr &&
        contents[i].Valid()) &&
      Model == Element(name, attrs, StringPart(text) + Models(contents))
    }

    /** `new_tag(name, **attrs)`: an empty tag. */
    constructor (name: string, attrs: map<string, string>)
      ensures Valid() && fresh(Repr) && Repr == {this}
      ensures this.name == name && this.attrs == attrs && text == None && contents == []
      ensures Model == Element(name, attrs, [])
    {
      this.name := name;
      this.attrs := attrs;
      text := None;
      contents := [];
      Repr := {this};
      Model := Element(name, attrs, []);
    }

    /** `tag[key] = value`. */
    method SetAttribute(key: string, value: string)
      requires Valid()
      modifies this
      ensures Valid() && Repr == old(Repr)
      ensures attrs == old(attrs)[key := value] && text == old(text) && contents == old(contents)
      ensures Model == Element(name, attrs, old(Model).children)
    {
      attrs := attrs[key := value];
      Model := Element(name, attrs, Model.children);
    }

    /** `tag.string = value`: the tag's contents become that one string. */
    method SetString(value: string)
      requires Valid()
      modifies this
      ensures Valid() && Repr == {this}
      ensures attrs == old(attrs) && text == Some(value) && contents == []
      ensures Model == Element(name, attrs, [Str(value)])
    {
      text := Some(value);
      contents := [];
      Repr := {this};
      Model := Element(name, attrs, [Str(value)]);
    }

    /** `tag.append(child)` for a tag that is not yet in this tree. */
    method Append(child: Tag)
      requires Valid() && child.Valid() && Repr !! child.Repr
      modifies this
      ensures Valid() && Repr == old(Repr) + child.Repr
      ensures attrs == old(attrs) && text == old(text) && contents == old(contents) + [child]
      ensures Model == Element(name, attrs, old(Model).children + [child.Model])
    {
      ghost var cs := contents;
      assert forall i :: 0 <= i < |cs| ==> cs[i] != this;
      ghost var before := Models(cs);
      contents := contents + [child];
      Repr := Repr + child.Repr;
      Model := Element(name, attrs, Model.children + [child.Model]);
      ModelsSnoc(cs, child);
      assert Models(cs) == before;
      Assoc(StringPart(text), before, [child.Model]);
      forall i | 0 <= i < |contents|
        ensures contents[i] in Repr && contents[i].Repr <= Repr && this !in contents[i].Repr
        ensures contents[i].Valid()
      {
        if i < |cs| {
          assert contents[i] == cs[i];
        }
      }
    }

    /** Brings the footprint and the tree of this tag up to date after a
        tag below it has changed: an ancestor of a tag that gains children. */
    ghost method Refresh(more: set<object>)
      requires this in Repr && this !in more
      requires forall i :: 0 <= i < |contents| ==>
        contents[i] in Repr + more && contents[i].Repr <= Repr + more &&
        this !in contents[i].Repr && contents[i].Valid()
      modifies this
      ensures Valid() && Repr == old(Repr) + more
      ensures attrs == old(attrs) && text == old(text) && contents == old(contents)
      ensures Model == Element(name, attrs, StringPart(text) + Models(contents))
    {
      Repr := Repr + more;
      Model := Element(name, attrs, StringPart(text) + Models(contents));
    }
  }

  function StringPart(text: Option<string>): seq<Node>
  {
    if text.Some? then [Str(text.value)] else []
  }

  /** The trees the tags `cs` stand for, in order. */
  ghost function Models(cs: seq<Tag>): seq<Node>
    reads cs
  {
    if cs == [] then [] else [cs[0].Model] + Models(cs[1..])
  }

  lemma {:induction false} ModelsSnoc(cs: seq<Tag>, c: Tag)
    ensures Models(cs + [c]) == Models(cs) + [c.Model]
  {
    if cs == [] {
      assert cs + [c] == [c];
    } else {
      assert (cs + [c])[1..] == cs[1..] + [c];
      ModelsSnoc(cs[1..], c);
    }
  }

  /** `Models` of one child; kept as a lemma because the solver unfolds `Models` slowly at its call site. */
  lemma ModelsSingle(t: Tag)
    ensures Models([t]) == [t.Model]
  {
  }

  /** An element without text has only its children; kept as a lemma so that the call site does not unfold `StringPart`. */
  lemma NoTextPart(xs: seq<Node>)
    ensures StringPart(None) + xs == xs
  {
  }

  /** A regrouping stated on plain variables; kept as a lemma because the solver regroups this concatenation slowly at its call site. */
  lemma Triple(a: Node, b: Node, c: Node)
    ensures [] + [a] + [b] + [c] == [a, b, c]
  {
  }

  /** A regrouping stated on plain variables; kept as a lemma because the solver regroups this concatenation slowly at its call site. */
  lemma Assoc(a: seq<Node>, b: seq<Node>, c: seq<Node>)
    ensures a + (b + c) == a + b + c
  {
  }

  /** `new_tag(name)` followed by `.string = value`. */
  method NewLeaf(name: string, value: string) returns (t: Tag)
    ensures t.Valid() && fresh(t.Repr)
    ensures t.Model == Leaf(name, value)
  {
    t := new Tag(name, map[]);
    t.SetString(value);
  }

  /** Appends a leaf `name` holding `value` when there is a value, as each
      optional field of an item is added. */
  method AddField(item: Tag, name: string, value: Option<string>, ghost avoid: set<object>)
    requires item.Valid() && item.Repr !! avoid
    modifies item
    ensures item.Valid() && item.Repr !! avoid
    ensures item.attrs == old(item.attrs) && item.text == old(item.text)
    ensures item.Model == Element(item.name, item.attrs, old(item.Model).children + Field(name, value))
  {
    if value.Some? {
      var leaf := NewLeaf(name, value.value);
      item.Append(leaf);
    }
  }

  /** The body of the loop over the entries: a new `item` with the fields
      the entry supplies, appended in the order title, link, pubDate,
      content:encoded. */
  method BuildItem(entry: Node, render: DateRenderer, ghost avoid: set<object>) returns (item: Tag)
    ensures item.Valid() && item.Repr !! avoid
    ensures item.Model == ItemOf(entry, render)
  {
    item := new Tag("item", map[]);

    var entryTitle := Find(KidsOf(entry), ByName("title"));
    var title := if entryTitle.Some? then Some(GetText(entryTitle.value)) else None;
    assert title == ItemTitle(entry);
    AddField(item, "title", title, avoid);
    assert item.Model.children == Field("title", ItemTitle(entry));

    var altLink := Find(KidsOf(entry), AlternateLink);
    var link := if altLink.Some? && altLink.value.Element? && "href" in altLink.value.attrs
      then Some(altLink.value.attrs["href"]) else None;
    assert link == ItemLink(entry);
    AddField(item, "link", link, avoid);

    var published := Find(KidsOf(entry), ByName("published"));
    var updated := Find(KidsOf(entry), ByName("updated"));
    var dateStr: Option<string> := None;
    if published.Some? && Truthy(StringOf(published.value)) {
      dateStr := Some(Strip(StringOf(published.value).value));
    } else if updated.Some? && Truthy(StringOf(updated.value)) {
      dateStr := Some(Strip(StringOf(updated.value).value));
    }
    var pubDate := if dateStr.Some? && dateStr.value != "" then render(dateStr.value) else None;
    assert dateStr == DateSource(entry);
    assert pubDate == ItemPubDate(entry, render);
    AddField(item, "pubDate", pubDate, avoid);

    var contentTag := Find(KidsOf(entry), ByName("content"));
    var encoded := if contentTag.Some? && Truthy(StringOf(contentTag.value))
      then Some(Wrap(StringOf(contentTag.value).value)) else None;
    assert encoded == ItemContent(entry);
    AddField(item, "content:encoded", encoded, avoid);
  }

  /** The three tags that stay open while the items are added: the document
      root holding `rss`, `rss` holding `channel`, with disjoint footprints
      apart from the nesting itself. */
  ghost predicate Nested(soup: Tag, rss: Tag, channel: Tag)
    reads soup, rss, channel
  {
    soup.name == DocumentName && soup.attrs == map[] && soup.text == None && soup.contents == [rss] &&
    rss.name == "rss" && rss.attrs == RssAttrs && rss.text == None && rss.contents == [channel] &&
    channel.name == "channel" && channel.attrs == map[] && channel.text == None &&
    soup != rss && soup != channel && rss != channel &&
    soup in soup.Repr && rss in rss.Repr && soup !in rss.Repr && channel in rss.Repr &&
    rss !in channel.Repr && soup !in channel.Repr
  }

  /** `rss_soup` holding `rss` (with its version and namespace), holding an
      empty `channel`. */
  method Root() returns (soup: Tag, rss: Tag, channel: Tag)
    ensures fresh(soup) && fresh(rss) && fresh(channel)
    ensures Nested(soup, rss, channel) && channel.Valid()
    ensures channel.Model == Element("channel", map[], [])
  {
    soup := new Tag(DocumentName, map[]);
    rss := new Tag("rss", map["version" := RssVersion]);
    rss.SetAttribute("xmlns:content", ContentNamespace);
    soup.Append(rss);
    channel := new Tag("channel", map[]);
    rss.Append(channel);
  }

  /** `new_tag(name)`, `.string = value`, then `parent.append` of the new tag. */
  method AppendLeaf(parent: Tag, name: string, value: string, ghost avoid: set<object>)
    requires parent.Valid() && parent.Repr !! avoid
    modifies parent
    ensures parent.Valid() && parent.Repr !! avoid
    ensures parent.attrs == old(parent.attrs) && parent.text == old(parent.text)
    ensures parent.Model == Element(parent.name, parent.attrs, old(parent.Model).children + [Leaf(name, value)])
  {
    var leaf := NewLeaf(name, value);
    parent.Append(leaf);
  }

  /** The RSS skeleton and the channel's title, link and description, each
      falling back to its default. */
  method Skeleton(doc: Document) returns (soup: Tag, rss: Tag, channel: Tag)
    ensures fresh(soup) && fresh(rss) && fresh(channel)
    ensures Nested(soup, rss, channel) && channel.Valid()
    ensures channel.Model == Element("channel", map[], ChannelHead(doc))
  {
    soup, rss, channel := Root();

    var feedTitle := Find(doc.roots, ByName("title"));
    var feedLink := Find(doc.roots, AlternateLink);
    var feedSubtitle := Find(doc.roots, ByName("subtitle"));

    var titleValue := if feedTitle.Some? then GetText(feedTitle.value) else DefaultTitle;
    assert titleValue == ChannelTitle(doc);
    AppendLeaf(channel, "title", titleValue, {rss, soup});

    var linkValue := if feedLink.Some? && feedLink.value.Element? && "href" in feedLink.value.attrs
      then feedLink.value.attrs["href"] else DefaultLink;
    assert linkValue == ChannelLink(doc);
    AppendLeaf(channel, "link", linkValue, {rss, soup});

    var descValue := if feedSubtitle.Some? then GetText(feedSubtitle.value) else DefaultDescription;
    assert descValue == ChannelDescription(doc);
    AppendLeaf(channel, "description", descValue, {rss, soup});
    Triple(Leaf("title", titleValue), Leaf("link", linkValue), Leaf("description", descValue));
  }

  /** `channel_tag.append(item_tag)` for the item built from `entry`. */
  method AppendItem(channel: Tag, entry: Node, render: DateRenderer, ghost avoid: set<object>)
    requires channel.Valid() && channel.Repr !! avoid
    modifies channel
    ensures channel.Valid() && channel.Repr !! avoid
    ensures channel.attrs == old(channel.attrs) && channel.text == old(channel.text)
    ensures channel.Model == Element(channel.name, channel.attrs, old(channel.Model).children + [ItemOf(entry, render)])
  {
    var item := BuildItem(entry, render, channel.Repr + avoid);
    channel.Append(item);
  }

  /** The loop over the entries: one item appended to `channel` per entry,
      in document order, and `count_items` counting them. */
  method AddItems(channel: Tag, entries: seq<Node>, render: DateRenderer, ghost avoid: set<object>)
    returns (count: nat)
    requires channel.Valid() && channel.Repr !! avoid
    modifies channel
    ensures channel.Valid() && channel.Repr !! avoid
    ensures channel.attrs == old(channel.attrs) && channel.text == old(channel.text)
    ensures channel.Model == Element(channel.name, channel.attrs, old(channel.Model).children + Items(entries, render))
    ensures count == |entries|
  {
    ghost var head := channel.Model.children;
    count := 0;
    for i := 0 to |entries|
      invariant channel.Valid() && channel.Repr !! avoid
      invariant channel.attrs == old(channel.attrs) && channel.text == old(channel.text)
      invariant channel.Model == Element(channel.name, channel.attrs, head + Items(entries[..i], render))
      invariant count == i
    {
      AppendItem(channel, entries[i], render, avoid);
      count := count + 1;
      ItemsSnoc(entries, i, render);
      Assoc(head, Items(entries[..i], render), [ItemOf(entries[i], render)]);
    }
    assert entries[..|entries|] == entries;
  }

  /** `process_feed` after parsing: a parse failure ends the conversion with
      the parser's message; otherwise the skeleton is filled with one item
      per entry, counting them. `rss` and the document root hold `channel`
      by reference throughout; their ghost trees are brought up to date once
      the channel is complete. */
  method ProcessFeed(parsed: Result<Document, string>, render: DateRenderer)
    returns (out: Result<Tag, string>, count: nat)
    ensures parsed.Failure? ==> out == Failure(parsed.error) && count == 0
    ensures parsed.Success? ==> out.Success? && out.value.Valid()
    ensures parsed.Success? ==> out.value.Model == RssDocument(parsed.value, render)
    ensures parsed.Success? ==> count == |Entries(parsed.value)|
  {
    if parsed.Failure? {
      return Failure(parsed.error), 0;
    }
    var doc := parsed.value;
    var soup, rss, channel := Skeleton(doc);
    count := AddItems(channel, Entries(doc), render, {rss, soup});
    ghost var complete := channel.Model;
    assert complete == Channel(doc, render);
    assert rss.contents == [channel] && rss.text == None && rss.attrs == RssAttrs;
    rss.Refresh(channel.Repr);
    ModelsSingle(channel);
    NoTextPart([complete]);
    assert rss.Model == Element("rss", RssAttrs, [complete]);
    assert soup.contents == [rss] && soup.text == None && soup.attrs == map[];
    soup.Refresh(rss.Repr);
    ModelsSingle(rss);
    NoTextPart([rss.Model]);
    assert soup.Model == Element(DocumentName, map[], [rss.Model]);
    out := Success(soup);
  }
}
