/** The parsed Atom document as bs4 presents it, and the bs4 queries the
    converter uses on it: `find`, `find_all`, `.string`, `get_text(strip=True)`,
    attribute lookup. Element names are local names (bs4 matches `title`
    against `<title>` and against a prefixed `<atom:title>` alike). */
module Xml {
  import opened Wrappers
  import opened Text

  /** A node of a document tree: a string (bs4 NavigableString) or an element
      with its attributes and its children in document order. */
  datatype Node =
    | Str(text: string)
    | Element(name: string, attrs: map<string, string>, children: seq<Node>)

  /** The arguments of `find(name)` and `find(name, key=value)`. */
  datatype Filter = Filter(name: string, attr: Option<(string, string)>)

  function ByName(name: string): Filter
  {
    Filter(name, None)
  }

  /** bs4's test of one element against a filter: the name, and the attribute
      value compared as a whole string (XML parsing makes no attribute multi-valued). */
  predicate Matches(n: Node, f: Filter)
  {
    n.Element? && n.name == f.name &&
    match f.attr
    case None => true
    case Some(kv) => kv.0 in n.attrs && n.attrs[kv.0] == kv.1
  }

  /** Every element of a forest in document order (pre-order): an element
      comes before its descendants, and they before its later siblings. */
  function Elements(ns: seq<Node>): (r: seq<Node>)
    ensures forall x :: x in r ==> x.Element?
    decreases ns
  {
    if ns == [] then [] else ElementsOf(ns[0]) + Elements(ns[1..])
  }

  /** A node followed by its descendants, when it is an element. */
  function ElementsOf(n: Node): (r: seq<Node>)
    ensures forall x :: x in r ==> x.Element?
    decreases n
  {
    match n
    case Str(_) => []
    case Element(_, _, cs) => [n] + Elements(cs)
  }

  /** `x` is an element of the forest `ns`: one of its top-level elements or
      an element anywhere below one. The order-free reference definition of
      what `Elements` lists. */
  predicate InForest(x: Node, ns: seq<Node>)
    decreases ns
  {
    exists i :: 0 <= i < |ns| && InTree(x, ns[i])
  }

  predicate InTree(x: Node, n: Node)
    decreases n
  {
    n.Element? && (x == n || InForest(x, n.children))
  }

  /** `Elements` lists every element of the forest and nothing else. */
  lemma {:induction false} ElementsComplete(x: Node, ns: seq<Node>)
    ensures x in Elements(ns) <==> InForest(x, ns)
    decreases ns
  {
    if ns == [] {
    } else {
      ElementsOfComplete(x, ns[0]);
      ElementsComplete(x, ns[1..]);
      if InForest(x, ns) {
        var i :| 0 <= i < |ns| && InTree(x, ns[i]);
        if i > 0 {
          assert ns[1..][i - 1] == ns[i];
        }
      }
      if InForest(x, ns[1..]) {
        var i :| 0 <= i < |ns[1..]| && InTree(x, ns[1..][i]);
        assert ns[i + 1] == ns[1..][i];
      }
    }
  }

  lemma {:induction false} ElementsOfComplete(x: Node, n: Node)
    ensures x in ElementsOf(n) <==> InTree(x, n)
    decreases n
  {
    match n
    case Str(_) =>
    case Element(_, _, cs) =>
      ElementsComplete(x, cs);
  }

  /** The elements of `xs` that match `f`, in their order. */
  function Select(xs: seq<Node>, f: Filter): (r: seq<Node>)
    ensures |r| <= |xs|
    ensures forall x :: x in r <==> x in xs && Matches(x, f)
  {
    if xs == [] then []
    else (if Matches(xs[0], f) then [xs[0]] else []) + Select(xs[1..], f)
  }

  /** `find_all(...)` on a tag (or the document) whose children are `ns`:
      every matching proper descendant, in document order. */
  function FindAll(ns: seq<Node>, f: Filter): seq<Node>
  {
    Select(Elements(ns), f)
  }

  /** `find(...)` on a tag (or the document) whose children are `ns`: a
      depth-first search that stops at the first matching proper descendant. */
  function Find(ns: seq<Node>, f: Filter): (r: Option<Node>)
    decreases ns
  {
    if ns == [] then None
    else match FindIn(ns[0], f)
      case Some(x) => Some(x)
      case None => Find(ns[1..], f)
  }

  /** The first match among a node and its descendants. */
  function FindIn(n: Node, f: Filter): (r: Option<Node>)
    decreases n
  {
    match n
    case Str(_) => None
    case Element(_, _, cs) => if Matches(n, f) then Some(n) else Find(cs, f)
  }

  /** What `find` returns matches the filter and lies below the searched
      node; it returns None exactly when nothing below matches. */
  lemma FindSpec(ns: seq<Node>, f: Filter)
    ensures Find(ns, f).Some? ==> Matches(Find(ns, f).value, f) && Find(ns, f).value in Elements(ns)
    ensures Find(ns, f).None? <==> forall x :: x in Elements(ns) ==> !Matches(x, f)
  {
    FindFirst(ns, f);
  }

  /** The children of an element; a string has none. */
  function KidsOf(n: Node): seq<Node>
  {
    if n.Element? then n.children else []
  }

  /** `find` returns the first element `find_all` lists, and None exactly when
      `find_all` lists nothing. */
  lemma FindIsFirstOfFindAll(ns: seq<Node>, f: Filter)
    ensures Find(ns, f) == if FindAll(ns, f) == [] then None else Some(FindAll(ns, f)[0])
  {
    FindFirst(ns, f);
  }

  lemma {:induction false} SelectAppend(a: seq<Node>, b: seq<Node>, f: Filter)
    ensures Select(a + b, f) == Select(a, f) + Select(b, f)
  {
    if a == [] {
      assert a + b == b;
    } else {
      assert (a + b)[1..] == a[1..] + b;
      SelectAppend(a[1..], b, f);
    }
  }

  lemma {:induction false} FindFirst(ns: seq<Node>, f: Filter)
    ensures var all := Select(Elements(ns), f);
            Find(ns, f) == if all == [] then None else Some(all[0])
    decreases ns
  {
    if ns != [] {
      SelectAppend(ElementsOf(ns[0]), Elements(ns[1..]), f);
      FindInFirst(ns[0], f);
      FindFirst(ns[1..], f);
    }
  }

  lemma {:induction false} FindInFirst(n: Node, f: Filter)
    ensures var all := Select(ElementsOf(n), f);
            FindIn(n, f) == if all == [] then None else Some(all[0])
    decreases n
  {
    match n
    case Str(_) =>
    case Element(_, _, cs) =>
      SelectAppend([n], Elements(cs), f);
      FindFirst(cs, f);
  }

  /** bs4 `.string`: the text of a node that has a single string, looking
      through elements that have exactly one child; None otherwise. */
  function StringOf(n: Node): Option<string>
  {
    match n
    case Str(t) => Some(t)
    case Element(_, _, cs) => if |cs| == 1 then StringOf(cs[0]) else None
  }

  /** bs4 `get_text(strip=True)`: every string below the node, each stripped,
      joined with no separator in document order. */
  function GetText(n: Node): string
    decreases n
  {
    match n
    case Str(t) => Strip(t)
    case Element(_, _, cs) => GetTextAll(cs)
  }

  function GetTextAll(ns: seq<Node>): string
    decreases ns
  {
    if ns == [] then "" else GetText(ns[0]) + GetTextAll(ns[1..])
  }

  /** When a node has a single string, `get_text(strip=True)` is that string stripped. */
  lemma {:induction false} GetTextOfSingleString(n: Node)
    requires StringOf(n).Some?
    ensures GetText(n) == Strip(StringOf(n).value)
  {
    match n
    case Str(_) =>
    case Element(_, _, cs) =>
      GetTextOfSingleString(cs[0]);
      assert cs[1..] == [];
      assert GetTextAll(cs) == GetText(cs[0]) + GetTextAll([]);
  }

  /** Python truthiness of an optional string: present and not empty. */
  predicate Truthy(s: Option<string>)
  {
    s.Some? && s.value != ""
  }
}
