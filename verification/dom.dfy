/**
 The parsed HTML document as the service sees it through the parser: a forest
 of elements, each with a tag name, its attributes, its stripped text
 (`get_text(strip=True)`) and its child elements. Parser queries (`find`,
 `find_all`, `select_one`) walk elements in document order, which is the
 pre-order flattening below.
 */
module Dom {
  import opened Common

  datatype Node = Node(tag: string, attrs: map<string, string>, text: string, children: seq<Node>)

  /** A fetched page: the HTTP status and the parsed document. */
  datatype Page = Page(status: nat, doc: seq<Node>)

  /** `element.get(key)`: the attribute's value, or None when it is absent. */
  function Attr(n: Node, key: string): (r: Option<string>)
    ensures r.Some? <==> key in n.attrs
    ensures r.Some? ==> r.value == n.attrs[key]
  {
    if key in n.attrs then Some(n.attrs[key]) else None
  }

  /** `n` followed by all of its descendants, in document order. */
  function Flatten(n: Node): (r: seq<Node>)
    ensures |r| >= 1 && r[0] == n
    decreases n, 1
  {
    [n] + FlattenAll(n.children)
  }

  /** All elements of a forest, in document order. */
  function FlattenAll(ns: seq<Node>): seq<Node>
    decreases ns, 0
  {
    if |ns| == 0 then [] else Flatten(ns[0]) + FlattenAll(ns[1..])
  }

  /** Document order of a forest is the concatenation of the document orders of its parts. */
  lemma {:induction false} FlattenAllAppend(a: seq<Node>, b: seq<Node>)
    ensures FlattenAll(a + b) == FlattenAll(a) + FlattenAll(b)
  {
    if |a| == 0 {
      assert a + b == b;
    } else {
      assert (a + b)[0] == a[0];
      assert (a + b)[1..] == a[1..] + b;
      FlattenAllAppend(a[1..], b);
    }
  }

  predicate HasTag(n: Node, tag: string)
  {
    n.tag == tag
  }

  /** `find_all(tag)` below the forest `ns`: every element with that tag, in document order. */
  function FindAll(ns: seq<Node>, tag: string): (r: seq<Node>)
    ensures forall k :: 0 <= k < |r| ==> r[k].tag == tag && r[k] in FlattenAll(ns)
    ensures forall k :: 0 <= k < |FlattenAll(ns)| && FlattenAll(ns)[k].tag == tag ==> FlattenAll(ns)[k] in r
  {
    Filter(FlattenAll(ns), (n: Node) => HasTag(n, tag))
  }

  /** `find_all` over a forest is `find_all` over its parts, in order. */
  lemma FindAllAppend(a: seq<Node>, b: seq<Node>, tag: string)
    ensures FindAll(a + b, tag) == FindAll(a, tag) + FindAll(b, tag)
  {
    FlattenAllAppend(a, b);
    FilterAppend(FlattenAll(a), FlattenAll(b), (n: Node) => HasTag(n, tag));
  }

  /**
   `find_all` below one element: the element itself when it has the tag,
   followed by the matches among its children in order. With `FindAllAppend`
   this fixes the result to the pre-order walk, one entry per element.
   */
  lemma FindAllNode(n: Node, tag: string)
    ensures FindAll([n], tag) == (if n.tag == tag then [n] else []) + FindAll(n.children, tag)
  {
    var p := (m: Node) => HasTag(m, tag);
    assert [n][1..] == [];
    assert FlattenAll([n]) == [n] + FlattenAll(n.children);
    FilterAppend([n], FlattenAll(n.children), p);
    FilterSingleton(n, p);
  }

  /** `find(tag)` over the forest `ns`: the first element with that tag, in document order. */
  function Find(ns: seq<Node>, tag: string): (r: Option<Node>)
    ensures r.Some? ==> r.value.tag == tag
    ensures r.Some? ==>
      exists i :: && 0 <= i < |FlattenAll(ns)|
                  && FlattenAll(ns)[i] == r.value
                  && forall j :: 0 <= j < i ==> FlattenAll(ns)[j].tag != tag
    ensures r.None? ==> forall k :: 0 <= k < |FlattenAll(ns)| ==> FlattenAll(ns)[k].tag != tag
  {
    match FirstMatch(FlattenAll(ns), (n: Node) => HasTag(n, tag))
    case None => None
    case Some(i) => Some(FlattenAll(ns)[i])
  }
}
