/** A simplified ElementTree: an element has a tag (a namespace-qualified tag
    is spelled `{uri}local`, as ElementTree spells it), an optional text and
    an ordered list of child elements. Attributes and tails play no part in
    the core and are not represented. */
module Xml {
  import opened Python

  datatype Element = Element(tag: string, text: Option<string>, children: seq<Element>)

  /** The index of the first element of `cs` that satisfies `p`, or `None`. */
  function FirstWhere(cs: seq<Element>, p: Element -> bool): (r: Option<nat>)
    ensures r.Some? ==> r.value < |cs| && p(cs[r.value])
    ensures r.Some? ==> forall j :: 0 <= j < r.value ==> !p(cs[j])
    ensures r.None? <==> forall j :: 0 <= j < |cs| ==> !p(cs[j])
  {
    if cs == [] then None
    else if p(cs[0]) then Some(0)
    else match FirstWhere(cs[1..], p)
      case None => None
      case Some(k) => Some(k + 1)
  }

  /** The predicate "has tag `tag`". */
  function HasTag(tag: string): Element -> bool
  {
    (e: Element) => e.tag == tag
  }

  /** ElementTree's `find(tag)` with a plain tag: the index of the first direct
      child with exactly that tag. */
  function FindIndex(cs: seq<Element>, tag: string): (r: Option<nat>)
    ensures r.Some? ==> r.value < |cs| && cs[r.value].tag == tag
    ensures r.Some? ==> forall j :: 0 <= j < r.value ==> cs[j].tag != tag
    ensures r.None? <==> forall j :: 0 <= j < |cs| ==> cs[j].tag != tag
  {
    FirstWhere(cs, HasTag(tag))
  }

  /** `element.find(tag)`: the first direct child with that tag, or `None`. */
  function Find(e: Element, tag: string): (r: Option<Element>)
    ensures r.Some? <==> exists j :: 0 <= j < |e.children| && e.children[j].tag == tag
    ensures r.Some? ==> r.value.tag == tag && r.value in e.children
    ensures r.Some? ==> exists i :: 0 <= i < |e.children| && e.children[i] == r.value &&
                                    forall j :: 0 <= j < i ==> e.children[j].tag != tag
  {
    match FindIndex(e.children, tag)
    case None => None
    case Some(i) => Some(e.children[i])
  }

  /** Children appended after a match do not change what `find` returns. */
  lemma {:induction false} FindIndexIgnoresLater(cs: seq<Element>, later: seq<Element>, tag: string)
    requires FindIndex(cs, tag).Some?
    ensures FindIndex(cs + later, tag) == FindIndex(cs, tag)
  {
    var i := FindIndex(cs, tag).value;
    assert (cs + later)[i] == cs[i];
    assert forall j :: 0 <= j < i ==> (cs + later)[j] == cs[j];
  }
}
