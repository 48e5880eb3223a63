/**
 * The parsed FictionBook document as an ElementTree-style value and the
 * navigation helpers of fb2_utils.py: namespace stripping, first matching
 * child, all matching children, pre-order iteration and the text content of
 * an element.
 */
module XmlTree {
  import opened Wrappers
  import opened Strings

  /** One element of the tree. `tag` may carry a `{namespace}` prefix, `attrib`
      is keyed the same way (`{http://www.w3.org/1999/xlink}href`), `text` is
      the text before the first child and `tail` the text after the element's
      end tag inside its parent. A missing text or tail is the empty string. */
  datatype Element = Element(
    tag: string,
    attrib: map<string, string>,
    text: string,
    children: seq<Element>,
    tail: string)

  /** `tag.split('}', 1)[-1]`: the part after the first `}`, or the whole tag
      when it has none. */
  function LocalName(tag: string): (r: string)
    ensures |r| <= |tag|
  {
    if tag == [] then []
    else if tag[0] == '}' then tag[1..]
    else if '}' in tag[1..] then LocalName(tag[1..])
    else tag
  }

  /** A tag without `}` is its own local name; otherwise the local name is
      what follows the first `}`. */
  lemma {:induction false} LocalNameSplit(tag: string)
    ensures '}' !in tag ==> LocalName(tag) == tag
    ensures '}' in tag ==>
              var r := LocalName(tag);
              |r| < |tag| && r == tag[|tag| - |r|..] && tag[|tag| - |r| - 1] == '}' && '}' !in tag[..|tag| - |r| - 1]
  {
    if tag != [] && tag[0] != '}' && '}' in tag[1..] {
      LocalNameSplit(tag[1..]);
      var r := LocalName(tag[1..]);
      assert tag[1..][..|tag| - 1 - |r| - 1] == tag[1..|tag| - |r| - 1];
    }
  }

  /** Does this element have local name `name`? */
  predicate Named(e: Element, name: string)
  {
    LocalName(e.tag) == name
  }

  /** `_find_first_child`, applied to an element's children: the first one
      with local name `name`, or None when there is none. */
  function FindFirstChild(children: seq<Element>, name: string): (r: Option<Element>)
    ensures r.None? <==> forall k :: 0 <= k < |children| ==> !Named(children[k], name)
    ensures r.Some? ==> r.value in children && Named(r.value, name)
  {
    if children == [] then None
    else if Named(children[0], name) then Some(children[0])
    else
      var r := FindFirstChild(children[1..], name);
      assert forall k :: 1 <= k < |children| ==> children[k] == children[1..][k - 1];
      r
  }

  /** The child `FindFirstChild` returns is the one of least position among
      the matching children. */
  lemma {:induction false} FindFirstChildIsFirst(children: seq<Element>, name: string, k: nat)
    requires k < |children| && Named(children[k], name)
    requires forall j :: 0 <= j < k ==> !Named(children[j], name)
    ensures FindFirstChild(children, name) == Some(children[k])
  {
    if k > 0 {
      FindFirstChildIsFirst(children[1..], name, k - 1);
    }
  }

  /** `_iter_children_with_name`, applied to an element's children: the
      children with local name `name`, in document order. */
  function ChildrenNamed(children: seq<Element>, name: string): (r: seq<Element>)
    ensures |r| <= |children|
    ensures forall e :: e in r ==> e in children && Named(e, name)
    ensures forall e :: e in children && Named(e, name) ==> e in r
  {
    if children == [] then []
    else (if Named(children[0], name) then [children[0]] else []) + ChildrenNamed(children[1..], name)
  }

  /** Filtering a concatenation filters each part: the matching children keep
      their document order. */
  lemma {:induction false} ChildrenNamedAppend(a: seq<Element>, b: seq<Element>, name: string)
    ensures ChildrenNamed(a + b, name) == ChildrenNamed(a, name) + ChildrenNamed(b, name)
  {
    if a == [] {
      assert a + b == b;
    } else {
      assert (a + b)[1..] == a[1..] + b && (a + b)[0] == a[0];
      ChildrenNamedAppend(a[1..], b, name);
      var head := if Named(a[0], name) then [a[0]] else [];
      assert ChildrenNamed(a + b, name) == head + (ChildrenNamed(a[1..], name) + ChildrenNamed(b, name));
      assert ChildrenNamed(a, name) == head + ChildrenNamed(a[1..], name);
      assert head + (ChildrenNamed(a[1..], name) + ChildrenNamed(b, name)) ==
             (head + ChildrenNamed(a[1..], name)) + ChildrenNamed(b, name);
    }
  }

  /** The two lookups agree: the first matching child is the head of the list
      of all matching children. */
  lemma {:induction false} FirstChildIsHeadOfChildren(children: seq<Element>, name: string)
    ensures FindFirstChild(children, name) ==
            (var all := ChildrenNamed(children, name); if all == [] then None else Some(all[0]))
  {
    if children != [] && !Named(children[0], name) {
      FirstChildIsHeadOfChildren(children[1..], name);
    }
  }

  /** `e.iter()`: the element itself, then every descendant, in pre-order. */
  function Iter(e: Element): (r: seq<Element>)
    ensures r != [] && r[0] == e
    decreases e, 1
  {
    [e] + IterAll(e.children)
  }

  /** The pre-order walks of a list of siblings, one after the other. */
  function IterAll(es: seq<Element>): seq<Element>
    decreases es, 0
  {
    if es == [] then [] else Iter(es[0]) + IterAll(es[1..])
  }

  /** The fragment `[t]`, or nothing when `t` is empty. */
  function Fragment(t: string): (r: seq<string>)
  {
    if t == "" then [] else [t]
  }

  /** `e.itertext()`: the element's own text, then for each child its
      `itertext()` followed by its tail; empty fragments are not yielded and
      the element's own tail is not included. */
  function IterText(e: Element): (r: seq<string>)
    ensures forall t :: t in r ==> t != ""
    decreases e, 1
  {
    Fragment(e.text) + IterTextAll(e.children)
  }

  function IterTextAll(es: seq<Element>): (r: seq<string>)
    ensures forall t :: t in r ==> t != ""
    decreases es, 0
  {
    if es == [] then [] else IterText(es[0]) + Fragment(es[0].tail) + IterTextAll(es[1..])
  }

  /** What `_elem_text` returns: "" for a missing element, otherwise the
      concatenated `itertext()` fragments. */
  function TextContent(e: Option<Element>): string
  {
    if e.None? then "" else Concat(IterText(e.value))
  }

  /** Reference reading of "all the text under an element, nested inline
      markup included, in document order": the element's text, then each
      child's text followed by that child's tail. */
  function DocText(e: Element): string
    decreases e, 1
  {
    e.text + DocTextAll(e.children)
  }

  function DocTextAll(es: seq<Element>): string
    decreases es, 0
  {
    if es == [] then "" else DocText(es[0]) + es[0].tail + DocTextAll(es[1..])
  }

  lemma ConcatFragment(t: string)
    ensures Concat(Fragment(t)) == t
  {
    if t != "" {
      assert Fragment(t)[..0] == [];
    }
  }

  /** `_elem_text` of an element is its document-order text. */
  lemma {:induction false} TextContentIsDocText(e: Element)
    ensures TextContent(Some(e)) == DocText(e)
    decreases e, 1
  {
    ConcatAppend(Fragment(e.text), IterTextAll(e.children));
    ConcatFragment(e.text);
    TextAllIsDocTextAll(e.children);
  }

  lemma {:induction false} TextAllIsDocTextAll(es: seq<Element>)
    ensures Concat(IterTextAll(es)) == DocTextAll(es)
    decreases es, 0
  {
    if es != [] {
      var c := es[0];
      ConcatAppend(IterText(c) + Fragment(c.tail), IterTextAll(es[1..]));
      ConcatAppend(IterText(c), Fragment(c.tail));
      ConcatFragment(c.tail);
      TextContentIsDocText(c);
      TextAllIsDocTextAll(es[1..]);
    }
  }

  /** `_elem_text(elem)`: collects the non-empty `itertext()` fragments into a
      list and joins them. */
  method ElemText(e: Option<Element>) returns (s: string)
    ensures s == TextContent(e)
  {
    if e.None? {
      return "";
    }
    var fragments := IterText(e.value);
    var parts: seq<string> := [];
    for k := 0 to |fragments|
      invariant Concat(parts) == Concat(fragments[..k])
    {
      assert fragments[..k + 1] == fragments[..k] + [fragments[k]];
      if fragments[k] != "" {
        parts := parts + [fragments[k]];
      } else {
        ConcatAppend(fragments[..k], [fragments[k]]);
      }
    }
    assert fragments[..|fragments|] == fragments;
    s := Concat(parts);
  }
}
