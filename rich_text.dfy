/**
 * The allow-list HTML sanitizer and the plain-text extraction of
 * `src/utils/richText.ts`, over an explicit model of the parsed fragment.
 *
 * The browser parses the markup into the children of a detached `<div>`
 * (the `Wrapper` class below). Sanitizing walks a snapshot of those children
 * that is taken before any of them is touched: an element whose tag is not
 * allow-listed is unwrapped (its children move into its place) and those
 * moved children are never visited, because they are not in the snapshot.
 */
module RichText {
  import opened Wrappers
  import opened Text

  datatype Attr = Attr(name: string, value: string)

  /** A node of the parsed fragment. `tagName` is the upper-cased name the HTML parser reports. */
  datatype Node =
    | Element(tagName: string, attributes: seq<Attr>, childNodes: seq<Node>)
    | TextNode(data: string)
    | Comment(data: string)

  const AllowedTags: set<string> :=
    {"B", "STRONG", "I", "EM", "U", "P", "BR", "UL", "OL", "LI", "DIV", "SPAN", "A"}

  /** The attributes an allowed tag may keep (names compared lower-cased); none for tags other than A and SPAN. */
  function AllowedAttrs(tagName: string): set<string> {
    if tagName == "A" then {"href", "target", "rel"}
    else if tagName == "SPAN" then {"data-mention", "data-email", "class"}
    else {}
  }

  // ---------------------------------------------------------------------------
  // Attribute lists. A DOM element never holds two attributes of the same
  // name, so "the first attribute named n" and "every attribute named n" agree.

  /** `el.getAttribute(name)` */
  function GetAttribute(attrs: seq<Attr>, name: string): Option<string> {
    if attrs == [] then None
    else if attrs[0].name == name then Some(attrs[0].value)
    else GetAttribute(attrs[1..], name)
  }

  /** `el.hasAttribute(name)` */
  predicate HasAttribute(attrs: seq<Attr>, name: string) {
    GetAttribute(attrs, name).Some?
  }

  /** `el.removeAttribute(name)` */
  function RemoveAttribute(attrs: seq<Attr>, name: string): (r: seq<Attr>)
    ensures forall a :: a in r <==> a in attrs && a.name != name
    ensures !HasAttribute(r, name)
    ensures forall n :: n != name ==> GetAttribute(r, n) == GetAttribute(attrs, n)
  {
    if attrs == [] then []
    else
      var rest := RemoveAttribute(attrs[1..], name);
      if attrs[0].name == name then rest
      else
        var r := [attrs[0]] + rest;
        assert r[1..] == rest;
        r
  }

  /** `el.setAttribute(name, value)`: overwrites the attribute in place, or appends it. */
  function SetAttribute(attrs: seq<Attr>, name: string, value: string): (r: seq<Attr>)
    ensures GetAttribute(r, name) == Some(value)
    ensures forall n :: n != name ==> GetAttribute(r, n) == GetAttribute(attrs, n)
    ensures forall a :: a in r ==> a in attrs || a == Attr(name, value)
  {
    if attrs == [] then [Attr(name, value)]
    else if attrs[0].name == name then [Attr(name, value)] + attrs[1..]
    else
      var rest := SetAttribute(attrs[1..], name, value);
      var r := [attrs[0]] + rest;
      assert r[1..] == rest;
      r
  }

  lemma {:induction false} SetExistingValue(attrs: seq<Attr>, name: string, value: string)
    requires GetAttribute(attrs, name) == Some(value)
    ensures SetAttribute(attrs, name, value) == attrs
  {
    if attrs != [] && attrs[0].name != name {
      SetExistingValue(attrs[1..], name, value);
    }
  }

  lemma {:induction false} RemoveAbsent(attrs: seq<Attr>, name: string)
    requires !HasAttribute(attrs, name)
    ensures RemoveAttribute(attrs, name) == attrs
  {
    if attrs != [] {
      RemoveAbsent(attrs[1..], name);
    }
  }

  predicate NamesAllowed(attrs: seq<Attr>, allowed: set<string>) {
    forall a :: a in attrs ==> Lower(a.name) in allowed
  }

  /** The attributes whose lower-cased name is allowed, in their original order. */
  function KeepAllowed(attrs: seq<Attr>, allowed: set<string>): (r: seq<Attr>)
    ensures NamesAllowed(r, allowed)
    ensures forall a :: a in r <==> a in attrs && Lower(a.name) in allowed
  {
    if attrs == [] then []
    else
      var rest := KeepAllowed(attrs[1..], allowed);
      if Lower(attrs[0].name) in allowed then
        var r := [attrs[0]] + rest;
        assert r[1..] == rest;
        r
      else rest
  }

  /**
   * The filter goes attribute by attribute: one attribute is kept exactly
   * when its lower-cased name is allowed, and the kept attributes of two
   * lists follow each other, so the original order is kept.
   */
  lemma KeepAllowedOne(a: Attr, allowed: set<string>)
    ensures KeepAllowed([a], allowed) == if Lower(a.name) in allowed then [a] else []
  {
    assert [a][1..] == [];
  }

  lemma {:induction false} KeepAllowedAppend(a: seq<Attr>, b: seq<Attr>, allowed: set<string>)
    ensures KeepAllowed(a + b, allowed) == KeepAllowed(a, allowed) + KeepAllowed(b, allowed)
  {
    if a == [] {
      assert a + b == b;
    } else {
      assert (a + b)[0] == a[0];
      assert (a + b)[1..] == a[1..] + b;
      KeepAllowedAppend(a[1..], b, allowed);
    }
  }

  lemma {:induction false} KeepAllowedIdentity(attrs: seq<Attr>, allowed: set<string>)
    requires NamesAllowed(attrs, allowed)
    ensures KeepAllowed(attrs, allowed) == attrs
  {
    if attrs != [] {
      assert attrs[0] in attrs;
      KeepAllowedIdentity(attrs[1..], allowed);
    }
  }

  /** The attributes kept while the removal loop has dropped the names in `dropped`. */
  function KeepWhere(attrs: seq<Attr>, allowed: set<string>, dropped: set<string>): seq<Attr> {
    if attrs == [] then []
    else
      var rest := KeepWhere(attrs[1..], allowed, dropped);
      if Lower(attrs[0].name) in allowed || attrs[0].name !in dropped then [attrs[0]] + rest else rest
  }

  lemma {:induction false} KeepWhereNothingDropped(attrs: seq<Attr>, allowed: set<string>)
    ensures KeepWhere(attrs, allowed, {}) == attrs
  {
    if attrs != [] {
      KeepWhereNothingDropped(attrs[1..], allowed);
    }
  }

  lemma {:induction false} KeepWhereRemove(attrs: seq<Attr>, allowed: set<string>, dropped: set<string>, name: string)
    requires Lower(name) !in allowed
    ensures RemoveAttribute(KeepWhere(attrs, allowed, dropped), name) == KeepWhere(attrs, allowed, dropped + {name})
  {
    if attrs != [] {
      KeepWhereRemove(attrs[1..], allowed, dropped, name);
      var rest := KeepWhere(attrs[1..], allowed, dropped);
      if Lower(attrs[0].name) in allowed || attrs[0].name !in dropped {
        assert ([attrs[0]] + rest)[1..] == rest;
      }
    }
  }

  lemma {:induction false} KeepWhereAllDropped(attrs: seq<Attr>, allowed: set<string>, dropped: set<string>)
    requires forall a :: a in attrs && Lower(a.name) !in allowed ==> a.name in dropped
    ensures KeepWhere(attrs, allowed, dropped) == KeepAllowed(attrs, allowed)
  {
    if attrs != [] {
      assert attrs[0] in attrs;
      KeepWhereAllDropped(attrs[1..], allowed, dropped);
    }
  }

  /**
   * `Array.from(el.attributes).forEach(attr => ...removeAttribute(attr.name))`:
   * walks a snapshot of the attributes and removes, from the live list, every
   * attribute whose lower-cased name is not allowed.
   */
  method FilterAttributes(attrs: seq<Attr>, allowed: set<string>) returns (live: seq<Attr>)
    ensures live == KeepAllowed(attrs, allowed)
  {
    live := attrs;
    KeepWhereNothingDropped(attrs, allowed);
    ghost var dropped: set<string> := {};
    var i := 0;
    while i < |attrs|
      invariant 0 <= i <= |attrs|
      invariant forall n :: n in dropped ==> Lower(n) !in allowed
      invariant forall k :: 0 <= k < i && Lower(attrs[k].name) !in allowed ==> attrs[k].name in dropped
      invariant live == KeepWhere(attrs, allowed, dropped)
    {
      var attr := attrs[i];
      if Lower(attr.name) !in allowed {
        KeepWhereRemove(attrs, allowed, dropped, attr.name);
        live := RemoveAttribute(live, attr.name);
        dropped := dropped + {attr.name};
      }
      i := i + 1;
    }
    forall a | a in attrs && Lower(a.name) !in allowed
      ensures a.name in dropped
    {
      var k :| 0 <= k < |attrs| && attrs[k] == a;
    }
    KeepWhereAllDropped(attrs, allowed, dropped);
  }

  /** The link test `/^(https?:|mailto:|#|\/)/i`. */
  predicate SafeHref(href: string) {
    StartsWithIgnoringCase(href, "http:") || StartsWithIgnoringCase(href, "https:")
    || StartsWithIgnoringCase(href, "mailto:") || StartsWith(href, "#") || StartsWith(href, "/")
  }

  /** What a visited allowed element's attributes satisfy after sanitizing. */
  predicate AttrsClean(tagName: string, attrs: seq<Attr>) {
    && NamesAllowed(attrs, AllowedAttrs(tagName))
    && (tagName == "A" ==>
          (HasAttribute(attrs, "href") ==>
             SafeHref(GetAttribute(attrs, "href").value)
             && GetAttribute(attrs, "target") == Some("_blank")
             && GetAttribute(attrs, "rel") == Some("noopener noreferrer")))
    && (tagName == "SPAN" && !HasAttribute(attrs, "data-mention") ==> !HasAttribute(attrs, "class"))
  }

  /** The attribute rewrite of a visited allowed element (lines 36-56). */
  function CleanAttributes(tagName: string, attrs: seq<Attr>): (r: seq<Attr>)
    ensures AttrsClean(tagName, r)
    ensures tagName != "A" && tagName != "SPAN" ==> r == []
    ensures tagName == "A" && !SafeHref(GetAttribute(attrs, "href").GetOr("")) ==> !HasAttribute(r, "href")
    ensures tagName == "A" && SafeHref(GetAttribute(attrs, "href").GetOr("")) ==>
              GetAttribute(r, "href") == GetAttribute(attrs, "href")
    ensures tagName == "SPAN" ==>
              GetAttribute(r, "data-mention") == GetAttribute(attrs, "data-mention")
              && GetAttribute(r, "data-email") == GetAttribute(attrs, "data-email")
    ensures forall a :: a in r ==> a in attrs || a == Attr("target", "_blank") || a == Attr("rel", "noopener noreferrer")
  {
    var kept := KeepAllowed(attrs, AllowedAttrs(tagName));
    assert tagName != "A" && tagName != "SPAN" ==> kept == [] by {
      if kept != [] {
        assert kept[0] in kept;
      }
    }
    assert tagName == "A" ==> GetAttribute(kept, "href") == GetAttribute(attrs, "href") by {
      if tagName == "A" {
        assert AllowedAttrs(tagName) == {"href", "target", "rel"};
        assert Lower("href") == "href";
        KeepAllowedGet(attrs, AllowedAttrs(tagName), "href");
      }
    }
    assert tagName == "SPAN" ==>
      GetAttribute(kept, "data-mention") == GetAttribute(attrs, "data-mention")
      && GetAttribute(kept, "data-email") == GetAttribute(attrs, "data-email") by {
      if tagName == "SPAN" {
        assert AllowedAttrs(tagName) == {"data-mention", "data-email", "class"};
        assert Lower("data-mention") == "data-mention" && Lower("data-email") == "data-email";
        KeepAllowedGet(attrs, AllowedAttrs(tagName), "data-mention");
        KeepAllowedGet(attrs, AllowedAttrs(tagName), "data-email");
      }
    }
    var linked :=
      if tagName != "A" then kept
      else if !SafeHref(GetAttribute(kept, "href").GetOr("")) then RemoveAttribute(kept, "href")
      else SetAttribute(SetAttribute(kept, "target", "_blank"), "rel", "noopener noreferrer");
    assert NamesAllowed(linked, AllowedAttrs(tagName)) by {
      assert Lower("target") == "target" && Lower("rel") == "rel";
    }
    if tagName == "SPAN" && !HasAttribute(linked, "data-mention") then RemoveAttribute(linked, "class")
    else linked
  }

  lemma {:induction false} KeepAllowedGet(attrs: seq<Attr>, allowed: set<string>, name: string)
    requires Lower(name) in allowed
    ensures GetAttribute(KeepAllowed(attrs, allowed), name) == GetAttribute(attrs, name)
  {
    if attrs != [] {
      KeepAllowedGet(attrs[1..], allowed, name);
    }
  }

  /** Rewriting attributes that are already clean changes nothing. */
  lemma CleanAttributesOfClean(tagName: string, attrs: seq<Attr>)
    requires AttrsClean(tagName, attrs)
    ensures CleanAttributes(tagName, attrs) == attrs
  {
    var allowed := AllowedAttrs(tagName);
    KeepAllowedIdentity(attrs, allowed);
    if tagName == "A" {
      if !SafeHref(GetAttribute(attrs, "href").GetOr("")) {
        RemoveAbsent(attrs, "href");
      } else {
        SetExistingValue(attrs, "target", "_blank");
        SetExistingValue(attrs, "rel", "noopener noreferrer");
      }
    } else if tagName == "SPAN" && !HasAttribute(attrs, "data-mention") {
      RemoveAbsent(attrs, "class");
    }
  }

  /** The attribute rewrite is idempotent. */
  lemma CleanAttributesIdempotent(tagName: string, attrs: seq<Attr>)
    ensures CleanAttributes(tagName, CleanAttributes(tagName, attrs)) == CleanAttributes(tagName, attrs)
  {
    CleanAttributesOfClean(tagName, CleanAttributes(tagName, attrs));
  }

  // ---------------------------------------------------------------------------
  // The tree rewrite, as specification functions.

  /** What one child becomes in its parent's child list when the parent's loop reaches it. */
  function SanitizedNode(n: Node): seq<Node>
    decreases n
  {
    match n
    case Element(tagName, attrs, kids) =>
      if tagName !in AllowedTags then kids
      else [Element(tagName, CleanAttributes(tagName, attrs), SanitizedList(kids))]
    case TextNode(_) => [n]
    case Comment(_) => []
  }

  /** A child list after its parent's loop over the snapshot `cs`. */
  function SanitizedList(cs: seq<Node>): seq<Node>
    decreases cs
  {
    if cs == [] then [] else SanitizedNode(cs[0]) + SanitizedList(cs[1..])
  }

  /** Sanitizing distributes over concatenation: each child is rewritten at its own position. */
  lemma {:induction false} SanitizedListAppend(a: seq<Node>, b: seq<Node>)
    ensures SanitizedList(a + b) == SanitizedList(a) + SanitizedList(b)
  {
    if a != [] {
      assert (a + b)[0] == a[0];
      assert (a + b)[1..] == a[1..] + b;
      SanitizedListAppend(a[1..], b);
    } else {
      assert a + b == b;
    }
  }

  lemma SanitizedListSnoc(a: seq<Node>, n: Node)
    ensures SanitizedList(a + [n]) == SanitizedList(a) + SanitizedNode(n)
  {
    SanitizedListAppend(a, [n]);
    assert [n][1..] == [];
  }

  /**
   * An element whose tag is not allow-listed is replaced, at its position, by
   * its children in their original order, and those children are left exactly
   * as they were: they are not visited.
   */
  lemma UnwrapSplicesChildren(pre: seq<Node>, tagName: string, attrs: seq<Attr>, kids: seq<Node>, post: seq<Node>)
    requires tagName !in AllowedTags
    ensures SanitizedList(pre + [Element(tagName, attrs, kids)] + post)
         == SanitizedList(pre) + kids + SanitizedList(post)
  {
    var el := Element(tagName, attrs, kids);
    SanitizedListAppend(pre + [el], post);
    SanitizedListSnoc(pre, el);
  }

  /** A visited allowed element keeps its tag, gets its attributes rewritten and its children sanitized. */
  lemma AllowedElementVisited(pre: seq<Node>, tagName: string, attrs: seq<Attr>, kids: seq<Node>, post: seq<Node>)
    requires tagName in AllowedTags
    ensures SanitizedList(pre + [Element(tagName, attrs, kids)] + post)
         == SanitizedList(pre) + [Element(tagName, CleanAttributes(tagName, attrs), SanitizedList(kids))] + SanitizedList(post)
  {
    var el := Element(tagName, attrs, kids);
    SanitizedListAppend(pre + [el], post);
    SanitizedListSnoc(pre, el);
  }

  predicate IsDisallowedElement(n: Node) {
    n.Element? && n.tagName !in AllowedTags
  }

  /**
   * At a level the loop visits (the wrapper, or a visited allowed element) every
   * comment child is removed; comments can only reappear there when an
   * unwrapped element lifts them up.
   */
  lemma {:induction false} VisitedLevelHasNoComments(cs: seq<Node>)
    requires forall i :: 0 <= i < |cs| ==> !IsDisallowedElement(cs[i])
    ensures forall j :: 0 <= j < |SanitizedList(cs)| ==> !SanitizedList(cs)[j].Comment?
  {
    if cs != [] {
      assert !IsDisallowedElement(cs[0]);
      VisitedLevelHasNoComments(cs[1..]);
    }
  }

  // ---------------------------------------------------------------------------
  // Text content.

  /** `node.textContent`: the data of the text nodes below, in document order (comments contribute nothing). */
  function NodeText(n: Node): string
    decreases n
  {
    match n
    case Element(_, _, kids) => TextContent(kids)
    case TextNode(data) => data
    case Comment(_) => ""
  }

  function TextContent(cs: seq<Node>): string
    decreases cs
  {
    if cs == [] then "" else NodeText(cs[0]) + TextContent(cs[1..])
  }

  lemma {:induction false} TextContentAppend(a: seq<Node>, b: seq<Node>)
    ensures TextContent(a + b) == TextContent(a) + TextContent(b)
  {
    if a != [] {
      assert (a + b)[0] == a[0];
      assert (a + b)[1..] == a[1..] + b;
      TextContentAppend(a[1..], b);
    } else {
      assert a + b == b;
    }
  }

  /** No text node is removed or altered: sanitizing leaves the text content unchanged. */
  lemma {:induction false} SanitizePreservesText(cs: seq<Node>)
    ensures TextContent(SanitizedList(cs)) == TextContent(cs)
    decreases cs
  {
    if cs != [] {
      SanitizeNodePreservesText(cs[0]);
      SanitizePreservesText(cs[1..]);
      TextContentAppend(SanitizedNode(cs[0]), SanitizedList(cs[1..]));
    }
  }

  lemma {:induction false} SanitizeNodePreservesText(n: Node)
    ensures TextContent(SanitizedNode(n)) == NodeText(n)
    decreases n
  {
    match n
    case Element(tagName, attrs, kids) =>
      if tagName in AllowedTags {
        SanitizePreservesText(kids);
        var e := Element(tagName, CleanAttributes(tagName, attrs), SanitizedList(kids));
        assert TextContent([e]) == NodeText(e) + TextContent([]);
      }
    case TextNode(_) =>
      assert TextContent([n]) == NodeText(n) + TextContent([]);
    case Comment(_) =>
  }

  // ---------------------------------------------------------------------------
  // Trees the sanitizer fully reaches.

  /** Every element, at every depth, has an allow-listed tag. */
  predicate AllowedOnly(cs: seq<Node>)
    decreases cs
  {
    cs == [] || (NodeAllowedOnly(cs[0]) && AllowedOnly(cs[1..]))
  }

  predicate NodeAllowedOnly(n: Node)
    decreases n
  {
    match n
    case Element(tagName, _, kids) => tagName in AllowedTags && AllowedOnly(kids)
    case TextNode(_) => true
    case Comment(_) => true
  }

  /** Output the sanitizer promises: no comments, only allowed tags, clean attributes, at every depth. */
  predicate Sanitary(cs: seq<Node>)
    decreases cs
  {
    cs == [] || (NodeSanitary(cs[0]) && Sanitary(cs[1..]))
  }

  predicate NodeSanitary(n: Node)
    decreases n
  {
    match n
    case Element(tagName, attrs, kids) => tagName in AllowedTags && AttrsClean(tagName, attrs) && Sanitary(kids)
    case TextNode(_) => true
    case Comment(_) => false
  }

  lemma SingletonSanitary(n: Node)
    requires NodeSanitary(n)
    ensures Sanitary([n])
  {
    assert [n][1..] == [];
  }

  lemma {:induction false} SanitaryAppend(a: seq<Node>, b: seq<Node>)
    requires Sanitary(a) && Sanitary(b)
    ensures Sanitary(a + b)
  {
    if a != [] {
      assert (a + b)[0] == a[0];
      assert (a + b)[1..] == a[1..] + b;
      SanitaryAppend(a[1..], b);
    } else {
      assert a + b == b;
    }
  }

  /** When every element is allow-listed, every node is visited and the result is sanitary throughout. */
  lemma {:induction false} AllowedOnlyBecomesSanitary(cs: seq<Node>)
    requires AllowedOnly(cs)
    ensures Sanitary(SanitizedList(cs))
    decreases cs
  {
    if cs != [] {
      AllowedOnlyNodeBecomesSanitary(cs[0]);
      AllowedOnlyBecomesSanitary(cs[1..]);
      SanitaryAppend(SanitizedNode(cs[0]), SanitizedList(cs[1..]));
    }
  }

  lemma {:induction false} AllowedOnlyNodeBecomesSanitary(n: Node)
    requires NodeAllowedOnly(n)
    ensures Sanitary(SanitizedNode(n))
    decreases n
  {
    match n
    case Element(tagName, attrs, kids) =>
      AllowedOnlyBecomesSanitary(kids);
      SingletonSanitary(Element(tagName, CleanAttributes(tagName, attrs), SanitizedList(kids)));
    case TextNode(_) =>
      SingletonSanitary(n);
    case Comment(_) =>
  }

  /** A sanitary fragment is a fixed point of the sanitizer. */
  lemma {:induction false} SanitaryIsFixedPoint(cs: seq<Node>)
    requires Sanitary(cs)
    ensures SanitizedList(cs) == cs
    decreases cs
  {
    if cs != [] {
      SanitaryNodeIsFixedPoint(cs[0]);
      SanitaryIsFixedPoint(cs[1..]);
      assert cs == [cs[0]] + cs[1..];
    }
  }

  lemma {:induction false} SanitaryNodeIsFixedPoint(n: Node)
    requires NodeSanitary(n)
    ensures SanitizedNode(n) == [n]
    decreases n
  {
    match n
    case Element(tagName, attrs, kids) =>
      SanitaryIsFixedPoint(kids);
      CleanAttributesOfClean(tagName, attrs);
    case TextNode(_) =>
  }

  /**
   * Sanitizing twice equals sanitizing once for fragments whose elements are all
   * allow-listed. It does not hold in general (see `SanitizeTwiceDiffers`).
   */
  lemma IdempotentWhenAllowedOnly(cs: seq<Node>)
    requires AllowedOnly(cs)
    ensures SanitizedList(SanitizedList(cs)) == SanitizedList(cs)
  {
    AllowedOnlyBecomesSanitary(cs);
    SanitaryIsFixedPoint(SanitizedList(cs));
  }

  /** A comment inside an unwrapped element is lifted and survives one pass, so a second pass differs. */
  lemma SanitizeTwiceDiffers()
    ensures var x := [Element("FONT", [], [Comment("c")])];
            SanitizedList(x) == [Comment("c")] && SanitizedList(SanitizedList(x)) == []
  {
    var x := [Element("FONT", [], [Comment("c")])];
    assert SanitizedList(x) == SanitizedNode(x[0]) + SanitizedList([]);
    assert SanitizedList([Comment("c")]) == SanitizedNode(Comment("c")) + SanitizedList([]);
  }

  /** A disallowed element with a dangerous attribute, wrapped in another disallowed element, escapes sanitizing. */
  lemma LiftedElementEscapes()
    ensures var img := Element("IMG", [Attr("src", "x"), Attr("onerror", "alert(1)")], []);
            var x := [Element("FONT", [], [img])];
            SanitizedList(x) == [img] && !Sanitary(SanitizedList(x))
  {
    var img := Element("IMG", [Attr("src", "x"), Attr("onerror", "alert(1)")], []);
    var x := [Element("FONT", [], [img])];
    assert SanitizedList(x) == SanitizedNode(x[0]) + SanitizedList([]);
  }

  // ---------------------------------------------------------------------------
  // The sanitizer that visits what it unwraps.

  /** Like `SanitizedNode`, but the children of an unwrapped element are sanitized as well. */
  function SanitizedNodeFixed(n: Node): seq<Node>
    decreases n
  {
    match n
    case Element(tagName, attrs, kids) =>
      if tagName !in AllowedTags then SanitizedListFixed(kids)
      else [Element(tagName, CleanAttributes(tagName, attrs), SanitizedListFixed(kids))]
    case TextNode(_) => [n]
    case Comment(_) => []
  }

  function SanitizedListFixed(cs: seq<Node>): seq<Node>
    decreases cs
  {
    if cs == [] then [] else SanitizedNodeFixed(cs[0]) + SanitizedListFixed(cs[1..])
  }

  /** Every fragment comes out sanitary: no comment, disallowed tag or unclean attribute survives at any depth. */
  lemma {:induction false} FixedIsSanitary(cs: seq<Node>)
    ensures Sanitary(SanitizedListFixed(cs))
    decreases cs
  {
    if cs != [] {
      FixedNodeIsSanitary(cs[0]);
      FixedIsSanitary(cs[1..]);
      SanitaryAppend(SanitizedNodeFixed(cs[0]), SanitizedListFixed(cs[1..]));
    }
  }

  lemma {:induction false} FixedNodeIsSanitary(n: Node)
    ensures Sanitary(SanitizedNodeFixed(n))
    decreases n
  {
    match n
    case Element(tagName, attrs, kids) =>
      FixedIsSanitary(kids);
      if tagName in AllowedTags {
        SingletonSanitary(Element(tagName, CleanAttributes(tagName, attrs), SanitizedListFixed(kids)));
      }
    case TextNode(_) =>
      SingletonSanitary(n);
    case Comment(_) =>
  }

  lemma {:induction false} FixedSanitaryIsFixedPoint(cs: seq<Node>)
    requires Sanitary(cs)
    ensures SanitizedListFixed(cs) == cs
    decreases cs
  {
    if cs != [] {
      FixedSanitaryNodeIsFixedPoint(cs[0]);
      FixedSanitaryIsFixedPoint(cs[1..]);
      assert cs == [cs[0]] + cs[1..];
    }
  }

  lemma {:induction false} FixedSanitaryNodeIsFixedPoint(n: Node)
    requires NodeSanitary(n)
    ensures SanitizedNodeFixed(n) == [n]
    decreases n
  {
    match n
    case Element(tagName, attrs, kids) =>
      FixedSanitaryIsFixedPoint(kids);
      CleanAttributesOfClean(tagName, attrs);
    case TextNode(_) =>
  }

  /** The corrected sanitizer is idempotent on every fragment. */
  lemma FixedIdempotent(cs: seq<Node>)
    ensures SanitizedListFixed(SanitizedListFixed(cs)) == SanitizedListFixed(cs)
  {
    FixedIsSanitary(cs);
    FixedSanitaryIsFixedPoint(SanitizedListFixed(cs));
  }

  /** The corrected sanitizer differs from the original only where something was unwrapped. */
  lemma {:induction false} FixedAgreesWhenAllowedOnly(cs: seq<Node>)
    requires AllowedOnly(cs)
    ensures SanitizedListFixed(cs) == SanitizedList(cs)
    decreases cs
  {
    if cs != [] {
      FixedNodeAgreesWhenAllowedOnly(cs[0]);
      FixedAgreesWhenAllowedOnly(cs[1..]);
    }
  }

  lemma {:induction false} FixedNodeAgreesWhenAllowedOnly(n: Node)
    requires NodeAllowedOnly(n)
    ensures SanitizedNodeFixed(n) == SanitizedNode(n)
    decreases n
  {
    match n
    case Element(_, _, kids) => FixedAgreesWhenAllowedOnly(kids);
    case TextNode(_) =>
    case Comment(_) =>
  }

  // ---------------------------------------------------------------------------
  // The in-place rewrite, as the source performs it.

  /** Lines 36-56: the attribute rewrite of a visited allowed element, step by step. */
  method RewriteAttributes(tagName: string, attributes: seq<Attr>) returns (attrs: seq<Attr>)
    ensures attrs == CleanAttributes(tagName, attributes)
  {
    attrs := FilterAttributes(attributes, AllowedAttrs(tagName));
    if tagName == "A" {
      var href := GetAttribute(attrs, "href").GetOr("");
      if !SafeHref(href) {
        attrs := RemoveAttribute(attrs, "href");
      } else {
        attrs := SetAttribute(attrs, "target", "_blank");
        attrs := SetAttribute(attrs, "rel", "noopener noreferrer");
      }
    }
    if tagName == "SPAN" && !HasAttribute(attrs, "data-mention") {
      attrs := RemoveAttribute(attrs, "class");
    }
  }

  /** Replacing the child at position `|done|` of a live child list by `r`. */
  lemma Splice(done: seq<Node>, x: Node, rest: seq<Node>, r: seq<Node>)
    ensures (done + [x] + rest)[|done|] == x
    ensures (done + [x] + rest)[..|done|] + r + (done + [x] + rest)[|done| + 1..] == done + r + rest
  {
    var live := done + [x] + rest;
    assert live[..|done|] == done;
    assert live[|done| + 1..] == rest;
  }

  /** One turn of a snapshot loop: the i-th child is replaced by what it sanitizes to. */
  lemma SnapshotStep(snapshot: seq<Node>, i: nat, live: seq<Node>, pos: nat, r: seq<Node>)
    requires i < |snapshot|
    requires live == SanitizedList(snapshot[..i]) + snapshot[i..]
    requires pos == |SanitizedList(snapshot[..i])|
    requires r == SanitizedNode(snapshot[i])
    ensures pos < |live| && live[pos] == snapshot[i]
    ensures live[..pos] + r + live[pos + 1..] == SanitizedList(snapshot[..i + 1]) + snapshot[i + 1..]
    ensures pos + |r| == |SanitizedList(snapshot[..i + 1])|
  {
    var done := SanitizedList(snapshot[..i]);
    var rest := snapshot[i + 1..];
    assert snapshot[i..] == [snapshot[i]] + rest;
    assert live == done + [snapshot[i]] + rest;
    Splice(done, snapshot[i], rest, r);
    PrefixSnoc(snapshot, i);
    SanitizedListSnoc(snapshot[..i], snapshot[i]);
  }

  /**
   * `sanitizeElement(el)`, seen from `el`'s parent: returns the nodes that stand
   * where `el` stood once it has run (its unwrapped children, or `el` rewritten).
   */
  method SanitizeElement(el: Node) returns (replacement: seq<Node>)
    requires el.Element?
    ensures replacement == SanitizedNode(el)
    decreases el
  {
    if el.tagName !in AllowedTags {
      // while (el.firstChild) parent.insertBefore(el.firstChild, el); parent.removeChild(el)
      var moved: seq<Node> := [];
      var rest := el.childNodes;
      while rest != []
        invariant moved + rest == el.childNodes
        decreases |rest|
      {
        moved := moved + [rest[0]];
        rest := rest[1..];
      }
      assert moved == el.childNodes;
      return moved;
    }

    var attrs := RewriteAttributes(el.tagName, el.attributes);

    // Array.from(el.childNodes).forEach(...): `live` is the element's child list,
    // `pos` the position in it of the snapshot's i-th child.
    var snapshot := el.childNodes;
    var live := snapshot;
    var pos := 0;
    var i := 0;
    while i < |snapshot|
      invariant 0 <= i <= |snapshot|
      invariant live == SanitizedList(snapshot[..i]) + snapshot[i..]
      invariant pos == |SanitizedList(snapshot[..i])|
    {
      var child := snapshot[i];
      assert child in el.childNodes;
      var r: seq<Node>;
      if child.Element? {
        r := SanitizeElement(child);
      } else if child.Comment? {
        r := [];
      } else {
        r := [child];
      }
      SnapshotStep(snapshot, i, live, pos, r);
      live := live[..pos] + r + live[pos + 1..];
      pos := pos + |r|;
      i := i + 1;
    }
    assert snapshot[..i] == snapshot;
    assert live == SanitizedList(el.childNodes);
    replacement := [Element(el.tagName, attrs, live)];
  }

  /** The detached `<div>` the markup is parsed into. */
  class Wrapper {
    var childNodes: seq<Node>

    constructor (parsed: seq<Node>)
      ensures childNodes == parsed
    {
      childNodes := parsed;
    }

    /** `wrapper.textContent` */
    function PlainText(): string
      reads this
    {
      TextContent(childNodes)
    }

    /** The loop of `sanitizeRichText` over a snapshot of the wrapper's children (lines 78-84). */
    method Sanitize()
      modifies this
      ensures childNodes == SanitizedList(old(childNodes))
    {
      var snapshot := childNodes;
      var pos := 0;
      var i := 0;
      while i < |snapshot|
        invariant 0 <= i <= |snapshot|
        invariant childNodes == SanitizedList(snapshot[..i]) + snapshot[i..]
        invariant pos == |SanitizedList(snapshot[..i])|
      {
        var node := snapshot[i];
        var r: seq<Node>;
        if node.Element? {
          r := SanitizeElement(node);
        } else if node.Comment? {
          r := [];
        } else {
          r := [node];
        }
        SnapshotStep(snapshot, i, childNodes, pos, r);
        childNodes := childNodes[..pos] + r + childNodes[pos + 1..];
        pos := pos + |r|;
        i := i + 1;
      }
      assert snapshot[..i] == snapshot;
    }
  }

  /**
   * `sanitizeRichText(html)`. Parsing (`innerHTML =`) and serialising (`innerHTML`)
   * belong to the browser and are parameters; `hasDocument` says whether a
   * document exists.
   */
  method SanitizeRichText(html: string, hasDocument: bool,
                          parse: string -> seq<Node>, serialize: seq<Node> -> string)
    returns (r: string)
    ensures html == "" ==> r == ""
    ensures html != "" && !hasDocument ==> r == html
    ensures html != "" && hasDocument ==> r == Trim(serialize(SanitizedList(parse(html))))
  {
    if html == "" {
      return "";
    }
    if !hasDocument {
      return html;
    }
    var wrapper := new Wrapper(parse(html));
    wrapper.Sanitize();
    r := Trim(serialize(wrapper.childNodes));
  }

  /** `getPlainTextFromHtml(html)`. */
  method GetPlainTextFromHtml(html: string, hasDocument: bool, parse: string -> seq<Node>)
    returns (r: string)
    ensures html == "" ==> r == ""
    ensures html != "" && !hasDocument ==> r == html
    ensures html != "" && hasDocument ==> r == TextContent(parse(html))
  {
    if html == "" {
      return "";
    }
    if !hasDocument {
      return html;
    }
    var wrapper := new Wrapper(parse(html));
    r := wrapper.PlainText();
  }
}
