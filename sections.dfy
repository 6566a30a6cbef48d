/**
 * The section elements of the RFC document tree (rfc2xml/elements/section.py): a section holds an
 * optional title, an optional number and its child elements; every other element is kept only by
 * its tag and children.
 *
 * The tree is a value: `traverse_sections` assigns each rewritten section's children in place,
 * which here becomes building the rewritten section with its new children.
 */
module Sections {
  import opened Wrappers

  /** The attribute map an element carries. */
  type Attributes = map<string, string>

  datatype Element =
    | Section(title: Option<string>, number: Option<string>, children: seq<Element>)
    | Other(tag: string, children: seq<Element>)

  /** A section as the constructor makes it: the given title and number, and no children yet. */
  function NewSection(title: Option<string>, number: Option<string>): (s: Element)
    ensures s.Section? && s.children == []
    ensures SectionAttributes(s) == AttributeMap(title, number)
  {
    Section(title, number, [])
  }

  // ---------------------------------------------------------------------------------------------
  // Section count, for termination

  /**
   * The sections `traverse_sections` can reach from `e`: `e` itself when it is a section, and
   * those among its children. The walk does not look inside other elements, so they count none.
   */
  function SectionCount(e: Element): nat
  {
    if e.Section? then 1 + SectionCountAll(e.children) else 0
  }

  function SectionCountAll(cs: seq<Element>): nat
  {
    if cs == [] then 0 else SectionCount(cs[0]) + SectionCountAll(cs[1..])
  }

  /** No child counts more sections than the list it is in. */
  lemma {:induction false} ChildCountBounded(cs: seq<Element>, i: nat)
    requires i < |cs|
    ensures SectionCount(cs[i]) <= SectionCountAll(cs)
  {
    if i > 0 {
      ChildCountBounded(cs[1..], i - 1);
    }
  }

  /** The count of a list is the sum of the counts of its parts. */
  lemma {:induction false} SectionCountAllAppend(a: seq<Element>, b: seq<Element>)
    ensures SectionCountAll(a + b) == SectionCountAll(a) + SectionCountAll(b)
  {
    if a != [] {
      assert (a + b)[1..] == a[1..] + b;
      SectionCountAllAppend(a[1..], b);
    } else {
      assert a + b == b;
    }
  }

  // ---------------------------------------------------------------------------------------------
  // traverse_sections

  /**
   * A rewriting function fit for `traverse_sections`: applied to a section it gives a section
   * (the source's annotation), and one with no more sections in it, so the walk over its
   * children ends. Non-section children may be added freely.
   */
  ghost predicate Rewriter(func: (Element, Option<Attributes>) -> Element)
  {
    forall e: Element, a: Option<Attributes> ::
      e.Section? ==> func(e, a).Section? && SectionCount(func(e, a)) <= SectionCount(e)
  }

  /**
   * One child after the walk: other elements stay as they are; a section is replaced by what
   * `func` makes of it, whose own children are walked in turn, without arguments.
   */
  function TraverseChild(c: Element, func: (Element, Option<Attributes>) -> Element, args: Option<Attributes>)
    : Element
    requires Rewriter(func)
    decreases SectionCount(c), 1, 0
  {
    if c.Section? then
      var t := func(c, args);
      Section(t.title, t.number, TraverseAll(t.children, func, None))
    else c
  }

  /** The children after the walk, in order. */
  function TraverseAll(cs: seq<Element>, func: (Element, Option<Attributes>) -> Element, args: Option<Attributes>)
    : seq<Element>
    requires Rewriter(func)
    decreases SectionCountAll(cs), 2, |cs|
  {
    if cs == [] then []
    else
      var front := cs[..|cs| - 1];
      SectionCountAllAppend(front, [cs[|cs| - 1]]);
      assert front + [cs[|cs| - 1]] == cs;
      assert SectionCountAll([cs[|cs| - 1]]) == SectionCount(cs[|cs| - 1]);
      TraverseAll(front, func, args) + [TraverseChild(cs[|cs| - 1], func, args)]
  }

  /**
   * The walk keeps the number of children and each position: child `i` of the result is what
   * child `i` becomes.
   */
  lemma {:induction false} TraverseAllPointwise(cs: seq<Element>, func: (Element, Option<Attributes>) -> Element,
                                                args: Option<Attributes>)
    requires Rewriter(func)
    ensures |TraverseAll(cs, func, args)| == |cs|
    ensures forall i :: 0 <= i < |cs| ==> TraverseAll(cs, func, args)[i] == TraverseChild(cs[i], func, args)
  {
    if cs != [] {
      var front := cs[..|cs| - 1];
      TraverseAllPointwise(front, func, args);
      var r := TraverseAll(cs, func, args);
      forall i | 0 <= i < |cs| ensures r[i] == TraverseChild(cs[i], func, args) {
        if i < |front| {
          assert cs[i] == front[i];
        }
      }
    }
  }

  /** What becomes of each kind of child. */
  lemma TraverseChildren(cs: seq<Element>, func: (Element, Option<Attributes>) -> Element, args: Option<Attributes>)
    requires Rewriter(func)
    ensures |TraverseAll(cs, func, args)| == |cs|
    ensures forall i :: 0 <= i < |cs| && !cs[i].Section? ==> TraverseAll(cs, func, args)[i] == cs[i]
    ensures forall i :: 0 <= i < |cs| && cs[i].Section? ==>
      var t := func(cs[i], args);
      && TraverseAll(cs, func, args)[i].Section?
      && TraverseAll(cs, func, args)[i].title == t.title
      && TraverseAll(cs, func, args)[i].number == t.number
      && TraverseAll(cs, func, args)[i].children == TraverseAll(t.children, func, None)
  {
    TraverseAllPointwise(cs, func, args);
  }

  /** A rewriting function that leaves every section as it is leaves the whole tree as it is. */
  lemma {:induction false} TraverseIdentity(cs: seq<Element>, func: (Element, Option<Attributes>) -> Element,
                                            args: Option<Attributes>)
    requires Rewriter(func)
    requires forall e: Element, a: Option<Attributes> :: e.Section? ==> func(e, a) == e
    ensures TraverseAll(cs, func, args) == cs
    decreases SectionCountAll(cs), |cs|
  {
    if cs != [] {
      var front := cs[..|cs| - 1];
      var last := cs[|cs| - 1];
      SectionCountAllAppend(front, [last]);
      assert front + [last] == cs;
      assert SectionCountAll([last]) == SectionCount(last);
      TraverseIdentity(front, func, args);
      if last.Section? {
        TraverseIdentity(last.children, func, None);
      }
    }
  }

  /** A rewriting function that appends an anchor element to every section it is given. */
  function AddAnchor(e: Element, a: Option<Attributes>): Element
  {
    if e.Section? then Section(e.title, e.number, e.children + [Other("anchor", [])]) else e
  }

  /** Adding non-section children is allowed: `AddAnchor` is fit for the walk. */
  lemma AnchorIsRewriter()
    ensures Rewriter(AddAnchor)
  {
    forall e: Element, a: Option<Attributes> | e.Section?
      ensures AddAnchor(e, a).Section? && SectionCount(AddAnchor(e, a)) <= SectionCount(e)
    {
      SectionCountAllAppend(e.children, [Other("anchor", [])]);
    }
  }

  /** `traverse_sections`: walks the children of section `s` in order and returns the new list. */
  method TraverseSections(s: Element, func: (Element, Option<Attributes>) -> Element, args: Option<Attributes>)
    returns (children: seq<Element>)
    requires s.Section? && Rewriter(func)
    ensures children == TraverseAll(s.children, func, args)
    ensures |children| == |s.children|
    decreases SectionCount(s)
  {
    children := [];
    for i := 0 to |s.children|
      invariant children == TraverseAll(s.children[..i], func, args)
    {
      assert s.children[..i + 1][..i] == s.children[..i];
      var child := s.children[i];
      if child.Section? {
        ChildCountBounded(s.children, i);
        child := func(child, args);
        var grandchildren := TraverseSections(child, func, None);
        child := Section(child.title, child.number, grandchildren);
      }
      children := children + [child];
    }
    assert s.children[..|s.children|] == s.children;
    TraverseAllPointwise(s.children, func, args);
  }

  // ---------------------------------------------------------------------------------------------
  // get_sections

  /** The section children, in order. */
  function SectionsOf(cs: seq<Element>): seq<Element>
  {
    if cs == [] then []
    else SectionsOf(cs[..|cs| - 1]) + (if cs[|cs| - 1].Section? then [cs[|cs| - 1]] else [])
  }

  /** What is kept is exactly the children that are sections. */
  lemma {:induction false} SectionsOfMembers(cs: seq<Element>)
    ensures forall x :: x in SectionsOf(cs) <==> x in cs && x.Section?
  {
    if cs != [] {
      SectionsOfMembers(cs[..|cs| - 1]);
      assert cs == cs[..|cs| - 1] + [cs[|cs| - 1]];
    }
  }

  /** Filtering two lists one after the other is filtering their concatenation: the order is kept. */
  lemma {:induction false} SectionsOfAppend(a: seq<Element>, b: seq<Element>)
    ensures SectionsOf(a + b) == SectionsOf(a) + SectionsOf(b)
    decreases |b|
  {
    if b != [] {
      var bf := b[..|b| - 1];
      assert (a + b)[..|a + b| - 1] == a + bf;
      SectionsOfAppend(a, bf);
    } else {
      assert a + b == a;
    }
  }

  /** A list of sections alone is kept whole; a list without sections is dropped. */
  lemma {:induction false} SectionsOfExtremes(cs: seq<Element>)
    ensures (forall i :: 0 <= i < |cs| ==> cs[i].Section?) ==> SectionsOf(cs) == cs
    ensures (forall i :: 0 <= i < |cs| ==> !cs[i].Section?) ==> SectionsOf(cs) == []
  {
    if cs != [] {
      SectionsOfExtremes(cs[..|cs| - 1]);
      assert cs == cs[..|cs| - 1] + [cs[|cs| - 1]];
    }
  }

  /** `get_sections`. */
  method GetSections(s: Element) returns (o: seq<Element>)
    requires s.Section?
    ensures o == SectionsOf(s.children)
    ensures forall x :: x in o <==> x in s.children && x.Section?
  {
    o := [];
    for i := 0 to |s.children|
      invariant o == SectionsOf(s.children[..i])
    {
      assert s.children[..i + 1][..i] == s.children[..i];
      if s.children[i].Section? {
        o := o + [s.children[i]];
      }
    }
    assert s.children[..|s.children|] == s.children;
    SectionsOfMembers(s.children);
  }

  /** After the walk a section has as many section children as before. */
  lemma {:induction false} TraverseKeepsSectionCount(cs: seq<Element>, func: (Element, Option<Attributes>) -> Element,
                                                     args: Option<Attributes>)
    requires Rewriter(func)
    ensures |SectionsOf(TraverseAll(cs, func, args))| == |SectionsOf(cs)|
  {
    if cs != [] {
      var front := cs[..|cs| - 1];
      TraverseKeepsSectionCount(front, func, args);
      var r := TraverseAll(cs, func, args);
      assert r[..|r| - 1] == TraverseAll(front, func, args);
    }
  }

  // ---------------------------------------------------------------------------------------------
  // get_attributes and __str__

  /** The attribute map: "title" and "number", each where it is present. */
  function AttributeMap(title: Option<string>, number: Option<string>): (m: Attributes)
  {
    var withTitle := if title.Some? then map["title" := title.value] else map[];
    if number.Some? then withTitle["number" := number.value] else withTitle
  }

  function SectionAttributes(s: Element): Attributes
    requires s.Section?
  {
    AttributeMap(s.title, s.number)
  }

  /** A key is present exactly when its value is, with that value, and there are no other keys. */
  lemma AttributesMeaning(title: Option<string>, number: Option<string>)
    ensures "title" in AttributeMap(title, number) <==> title.Some?
    ensures "number" in AttributeMap(title, number) <==> number.Some?
    ensures title.Some? ==> AttributeMap(title, number)["title"] == title.value
    ensures number.Some? ==> AttributeMap(title, number)["number"] == number.value
    ensures AttributeMap(title, number).Keys <= {"title", "number"}
  {
  }

  /** `get_attributes`. */
  method GetAttributes(s: Element) returns (attributes: Attributes)
    requires s.Section?
    ensures attributes == SectionAttributes(s)
    ensures "title" in attributes <==> s.title.Some?
    ensures "number" in attributes <==> s.number.Some?
  {
    attributes := map[];
    if s.title.Some? {
      attributes := attributes["title" := s.title.value];
    }
    if s.number.Some? {
      attributes := attributes["number" := s.number.value];
    }
    AttributesMeaning(s.title, s.number);
  }

  /** Python's `str` of an optional string: the string itself, or "None". */
  function Str(o: Option<string>): string
  {
    if o.Some? then o.value else "None"
  }

  /** `__str__`: the number, a full stop and a space, then the title. */
  function SectionString(s: Element): string
    requires s.Section?
  {
    Str(s.number) + ". " + Str(s.title)
  }

  /** The text up to the first full stop. */
  function BeforeDot(t: string): (r: string)
    ensures r <= t
  {
    if t == [] || t[0] == '.' then [] else [t[0]] + BeforeDot(t[1..])
  }

  /**
   * When the number has no full stop, the string splits back into number and title: the number is
   * the text before the first full stop, and the title follows the two separator characters.
   */
  lemma {:induction false} SectionStringSplits(s: Element)
    requires s.Section? && '.' !in Str(s.number)
    ensures var n := BeforeDot(SectionString(s));
      && n == Str(s.number)
      && SectionString(s)[|n|..|n| + 2] == ". "
      && SectionString(s)[|n| + 2..] == Str(s.title)
  {
    BeforeDotOfPrefix(Str(s.number), ". " + Str(s.title));
    assert SectionString(s) == Str(s.number) + (". " + Str(s.title));
  }

  lemma {:induction false} BeforeDotOfPrefix(a: string, b: string)
    requires '.' !in a && |b| > 0 && b[0] == '.'
    ensures BeforeDot(a + b) == a
  {
    if a == [] {
      assert a + b == b;
    } else {
      assert (a + b)[1..] == a[1..] + b;
      BeforeDotOfPrefix(a[1..], b);
    }
  }

  /** A new section's string shows the number and title it was made with. */
  lemma NewSectionString(title: string, number: string)
    ensures SectionString(NewSection(Some(title), Some(number))) == number + ". " + title
    ensures SectionString(NewSection(None, None)) == "None. None"
  {
  }
}
