/** The stack machine emits what the recursive renderer emits, for every document tree. */
module MarkdownRefinement {
  import opened Wrappers
  import opened HtmlTokens
  import opened Sequences
  import opened Text
  import opened MarkdownSpec
  import opened MarkdownText

  // ---------------------------------------------------------------- one element

  /** What an element's start and end tags emit around its children. */
  function StartOf(tag: string, attrs: seq<Attr>, p: Place): seq<string> {
    if tag == "li" && p.depth > 0 then [ItemMarker(p.kind, p.depth, p.before + 1)] else Opening(tag, attrs)
  }

  function EndOf(tag: string, attrs: seq<Attr>, inner: bool): seq<string> {
    if tag == "a" then ["](" + (if inner then "" else HrefText(HrefOf(attrs))) + ")"] else Closing(tag)
  }

  lemma RenderElement(tag: string, attrs: seq<Attr>, children: seq<Node>, p: Place)
    ensures Render(Element(tag, attrs, children), p) ==
            StartOf(tag, attrs, p) + (RenderAll(children, Within(p, tag)) + EndOf(tag, attrs, AnyLink(children)))
  {
    hide Opening, Closing, ItemMarker, HrefOf, HrefText, Within;
  }

  lemma TagsDiffer(tag: string)
    ensures tag == "li" ==> tag != "a" && !IsList(tag)
    ensures IsList(tag) ==> tag != "a"
  {
    if tag == "li" {
      assert tag[0] == 'l';
    }
  }

  lemma StartedAt(st: MdState, tag: string, attrs: seq<Attr>)
    ensures PlaceOf(Started(st, tag, attrs)) == Within(PlaceOf(st), tag)
    ensures Started(st, tag, attrs).chunks == st.chunks + StartOf(tag, attrs, PlaceOf(st))
  {
    hide Opening, ItemMarker, HrefOf, IsList;
    TagsDiffer(tag);
    if tag == "li" && st.lists != [] {
      var top := st.lists[|st.lists| - 1];
      assert Started(st, tag, attrs) ==
             MdState(st.chunks + [ItemMarker(top.kind, |st.lists|, top.items + 1)],
                     st.lists[|st.lists| - 1 := OpenList(top.kind, top.items + 1)], st.linkHref);
    }
  }

  /** The rest of the state when a start tag, some children and the end tag have passed. */
  lemma Balanced(st: MdState, tag: string, attrs: seq<Attr>, text: seq<string>, items: nat, inner: bool)
    ensures var st' := Ended(After(Started(st, tag, attrs), text, items, inner), tag);
            && st'.lists == Counted(st.lists, if IsList(tag) then 0 else (if tag == "li" then 1 else 0) + items)
            && st'.linkHref == (if tag == "a" || inner then None else st.linkHref)
            && st'.chunks == (Started(st, tag, attrs).chunks + text) + EndOf(tag, attrs, inner)
  {
    hide Opening, Closing, ItemMarker, HrefOf, IsList;
    TagsDiffer(tag);
    var begun := Started(st, tag, attrs);
    var filled := After(begun, text, items, inner);
    if IsList(tag) {
      assert begun.lists == st.lists + [OpenList(tag, 0)];
      assert filled.lists == st.lists + [OpenList(tag, items)];
      assert filled.lists[..|filled.lists| - 1] == st.lists;
      CountedZero(st.lists);
    } else if tag == "li" {
      assert begun.lists == Counted(st.lists, 1);
      CountedTwice(st.lists, 1, items);
    } else {
      assert begun.lists == st.lists;
    }
  }

  lemma ElementAfter(st: MdState, tag: string, attrs: seq<Attr>, children: seq<Node>)
    ensures Ended(After(Started(st, tag, attrs), RenderAll(children, PlaceOf(Started(st, tag, attrs))),
                        AllItemsIn(children), AnyLink(children)), tag)
            == AfterNode(st, Element(tag, attrs, children))
  {
    hide Opening, Closing, ItemMarker, HrefOf, HrefText, Within, RenderAll, Started, Ended, StartOf, EndOf, Render, Counted;
    var inner := AnyLink(children);
    var text := RenderAll(children, PlaceOf(Started(st, tag, attrs)));
    StartedAt(st, tag, attrs);
    Balanced(st, tag, attrs, text, AllItemsIn(children), inner);
    RenderElement(tag, attrs, children, PlaceOf(st));
    Assoc(st.chunks, StartOf(tag, attrs, PlaceOf(st)), text);
    Assoc(st.chunks, StartOf(tag, attrs, PlaceOf(st)) + text, EndOf(tag, attrs, inner));
    Assoc(StartOf(tag, attrs, PlaceOf(st)), text, EndOf(tag, attrs, inner));
  }

  // ---------------------------------------------------------------- every tree

  function AfterNode(st: MdState, n: Node): MdState {
    After(st, Render(n, PlaceOf(st)), ItemsIn(n), HasLink(n))
  }

  function AfterNodes(st: MdState, ns: seq<Node>): MdState {
    After(st, RenderAll(ns, PlaceOf(st)), AllItemsIn(ns), AnyLink(ns))
  }

  /** From any state at all, the events of a node leave its rendering, count its items and drop the href only on a link. */
  lemma {:induction false} NodeRefines(st: MdState, n: Node)
    ensures Run(st, Events(n)) == AfterNode(st, n)
    decreases n, 1
  {
    hide Run, RenderAll, Opening, Started, Ended, Counted, PlaceOf, ItemsIn, HasLink, Render, After;
    match n {
      case Element(tag, attrs, children) =>
        var begun := Started(st, tag, attrs);
        RunConcat(st, [StartTag(tag, attrs)], AllEvents(children) + [EndTag(tag)]);
        RunOne(st, StartTag(tag, attrs));
        RunConcat(begun, AllEvents(children), [EndTag(tag)]);
        NodesRefine(begun, children);
        RunOne(AfterNodes(begun, children), EndTag(tag));
        ElementAfter(st, tag, attrs, children);
      case _ =>
        LeafRefines(st, n);
    }
  }

  lemma LeafRefines(st: MdState, n: Node)
    requires !n.Element?
    ensures Run(st, Events(n)) == AfterNode(st, n)
  {
    hide Run, Opening;
    RunOne(st, Events(n)[0]);
    CountedZero(st.lists);
    assert Events(n) == [Events(n)[0]];
  }

  lemma {:induction false} NodesRefine(st: MdState, ns: seq<Node>)
    ensures Run(st, AllEvents(ns)) == AfterNodes(st, ns)
    decreases ns, 0
  {
    hide Events, Render, PlaceOf, ItemsIn, HasLink, After, Counted, Run;
    if ns == [] {
      AfterNothing(st);
      RunNothing(st);
    } else {
      var st1 := AfterNode(st, ns[0]);
      var p := PlaceOf(st);
      NodeRefines(st, ns[0]);
      RunConcat(st, Events(ns[0]), AllEvents(ns[1..]));
      NodesRefine(st1, ns[1..]);
      PlaceAfter(st, Render(ns[0], p), ItemsIn(ns[0]), HasLink(ns[0]));
      AfterTwice(st, Render(ns[0], p), ItemsIn(ns[0]), HasLink(ns[0]),
                 RenderAll(ns[1..], PlaceOf(st1)), AllItemsIn(ns[1..]), AnyLink(ns[1..]));
    }
  }

  lemma RunNothing(st: MdState)
    ensures Run(st, []) == st
  {
  }

  /** A whole document, from the parser's initial state: the recursive rendering, every list closed, no link left open. */
  lemma DocumentRefines(doc: seq<Node>)
    ensures Run(START, AllEvents(doc)) == MdState(RenderAll(doc, Place(0, "", 0)), [], None)
  {
    hide RenderAll, Run;
    NodesRefine(START, doc);
    assert [] + RenderAll(doc, PlaceOf(START)) == RenderAll(doc, PlaceOf(START));
  }

  // ---------------------------------------------------------------- links

  /** A link's closing chunk carries its own target exactly when the target is empty or no link is nested in it. */
  lemma LinkKeepsTarget(attrs: seq<Attr>, children: seq<Node>, p: Place)
    ensures Render(Element("a", attrs, children), p) ==
            ["["] + (RenderAll(children, p) + ["](" + HrefText(HrefOf(attrs)) + ")"])
            <==> !AnyLink(children) || HrefText(HrefOf(attrs)) == ""
  {
    hide RenderAll, HrefOf, ItemMarker;
    var href := HrefText(HrefOf(attrs));
    var rendered := Render(Element("a", attrs, children), p);
    RenderElement("a", attrs, children, p);
    LinkStart(attrs, p);
    assert rendered == ["["] + (RenderAll(children, p) + ["](" + (if AnyLink(children) then "" else href) + ")"]);
    var whole := ["["] + (RenderAll(children, p) + ["](" + href + ")"]);
    assert whole[|whole| - 1] == "](" + href + ")";
    assert rendered[|rendered| - 1] == "](" + (if AnyLink(children) then "" else href) + ")";
    assert |"](" + href + ")"| == 3 + |href|;
    assert |"](" + "" + ")"| == 3;
  }

  lemma LinkStart(attrs: seq<Attr>, p: Place)
    ensures StartOf("a", attrs, p) == ["["] && Within(p, "a") == p
  {
    hide ItemMarker, Repeat, AttrText;
    assert "a" != "li" && |"a"| == 1;
  }

  // ---------------------------------------------------------------- list numbering

  /** A list's child that is an item of that list holding no further item of it, or holds no item of it at all. */
  predicate TidyChild(n: Node) {
    if IsItem(n) then AllItemsIn(n.children) == 0 else ItemsIn(n) == 0
  }

  predicate IsItem(n: Node) {
    n.Element? && n.tag == "li"
  }

  function ItemCount(ns: seq<Node>): nat {
    if ns == [] then 0 else (if IsItem(ns[0]) then 1 else 0) + ItemCount(ns[1..])
  }

  lemma {:induction false} TidyItems(ns: seq<Node>)
    requires forall c <- ns :: TidyChild(c)
    ensures AllItemsIn(ns) == ItemCount(ns)
  {
    if ns != [] {
      TidyItems(ns[1..]);
      assert TidyChild(ns[0]);
      TagsDiffer("li");
    }
  }

  /** The place after some siblings. */
  function Past(p: Place, items: nat): Place {
    if p.depth > 0 then p.(before := p.before + items) else p
  }

  lemma {:induction false} RenderConcat(a: seq<Node>, b: seq<Node>, p: Place)
    ensures RenderAll(a + b, p) == RenderAll(a, p) + RenderAll(b, Past(p, AllItemsIn(a)))
    decreases |a|
  {
    hide Render, ItemsIn;
    if a == [] {
      assert a + b == b;
    } else {
      assert (a + b)[0] == a[0] && (a + b)[1..] == a[1..] + b;
      RenderConcat(a[1..], b, Past(p, ItemsIn(a[0])));
      Assoc(Render(a[0], p), RenderAll(a[1..], Past(p, ItemsIn(a[0]))), RenderAll(b, Past(p, AllItemsIn(a))));
    }
  }

  /**
    The item at position i of a list is marked, right after everything before
    it, with the number of items up to and including it, whatever lists are
    nested in its siblings; its own content follows.
   */
  lemma ItemsAreNumbered(kind: string, attrs: seq<Attr>, children: seq<Node>, i: nat, p: Place) returns (chunk: string)
    requires IsList(kind) && i < |children| && IsItem(children[i])
    requires forall c <- children :: TidyChild(c)
    ensures
      var inside := Place(p.depth + 1, kind, 0);
      var number := ItemCount(children[..i]) + 1;
      && IsItemChunk(chunk, kind, p.depth + 1, number)
      && Render(Element(kind, attrs, children), p) ==
         RenderAll(children[..i], inside)
         + ([chunk]
            + (RenderAll(children[i].children, Place(p.depth + 1, kind, number))
               + (RenderAll(children[i + 1..], Place(p.depth + 1, kind, number)) + ["\n"])))
  {
    hide RenderAll, ItemMarker, Opening, Closing, Render, ItemsIn, ItemCount, AllItemsIn, IsItemChunk;
    var inside := Place(p.depth + 1, kind, 0);
    var number := ItemCount(children[..i]) + 1;
    var at := Place(p.depth + 1, kind, number);
    var content := RenderAll(children[i].children, at);
    chunk := ItemMarker(kind, p.depth + 1, number);
    MarkerIs(kind, p.depth + 1, number);
    RenderElement(kind, attrs, children, p);
    ListTags(kind, attrs, p);
    ItemAmongSiblings(children, i, inside);
    Regroup(RenderAll(children[..i], inside), [chunk], content, RenderAll(children[i + 1..], at), ["\n"]);
    assert Render(Element(kind, attrs, children), p) == [] + (RenderAll(children, inside) + ["\n"]);
    Empty(RenderAll(children, inside) + ["\n"]);
  }

  lemma ItemAmongSiblings(children: seq<Node>, i: nat, p: Place)
    requires i < |children| && IsItem(children[i]) && p.depth > 0
    requires forall c <- children :: TidyChild(c)
    ensures
      var number := p.before + ItemCount(children[..i]) + 1;
      var at := p.(before := number);
      RenderAll(children, p) ==
      RenderAll(children[..i], p)
      + ([ItemMarker(p.kind, p.depth, number)] + (RenderAll(children[i].children, at) + RenderAll(children[i + 1..], at)))
  {
    hide RenderAll, ItemMarker, Render, ItemsIn, ItemCount;
    var before, item, after := children[..i], children[i], children[i + 1..];
    Split(children, i);
    RenderConcat(before, [item] + after, p);
    TidyItems(before);
    assert TidyChild(item);
    RenderItem(item, after, Past(p, ItemCount(before)));
  }

  lemma Split<T>(s: seq<T>, i: nat)
    requires i < |s|
    ensures s == s[..i] + ([s[i]] + s[i + 1..])
  {
  }

  lemma Regroup<T>(a: seq<T>, b: seq<T>, c: seq<T>, d: seq<T>, e: seq<T>)
    ensures (a + (b + (c + d))) + e == a + (b + (c + (d + e)))
  {
    Assoc(a, b + (c + d), e);
    Assoc(b, c + d, e);
    Assoc(c, d, e);
  }

  lemma ListTags(kind: string, attrs: seq<Attr>, p: Place)
    requires IsList(kind)
    ensures StartOf(kind, attrs, p) == [] && EndOf(kind, attrs, false) == ["\n"] && EndOf(kind, attrs, true) == ["\n"]
    ensures Within(p, kind) == Place(p.depth + 1, kind, 0)
  {
    hide ItemMarker, Repeat, AttrText;
    assert kind[0] == 'u' || kind[0] == 'o';
    assert |kind| == 2;
    assert kind[0] == 'u' ==> kind == "ul" && kind != "br" && kind != "li" && kind != "em";
    assert kind[0] == 'o' ==> kind == "ol" && kind != "br" && kind != "li" && kind != "em";
  }

  lemma RenderItem(item: Node, after: seq<Node>, p: Place)
    requires IsItem(item) && p.depth > 0 && AllItemsIn(item.children) == 0
    ensures RenderAll([item] + after, p) ==
            [ItemMarker(p.kind, p.depth, p.before + 1)]
            + (RenderAll(item.children, Past(p, 1)) + RenderAll(after, Past(p, 1)))
  {
    hide ItemMarker, Opening, Render;
    var ns := [item] + after;
    assert ns[0] == item && ns[1..] == after;
    RenderElement("li", item.attrs, item.children, p);
    ItemTags(item.attrs, AnyLink(item.children), p);
    assert ItemsIn(item) == 1 by { TagsDiffer("li"); }
    assert Past(p, ItemsIn(item)) == Within(p, "li");
    var content := RenderAll(item.children, Within(p, "li"));
    assert content + [] == content;
    Assoc([ItemMarker(p.kind, p.depth, p.before + 1)], content, RenderAll(after, Past(p, 1)));
  }

  lemma ItemTags(attrs: seq<Attr>, inner: bool, p: Place)
    requires p.depth > 0
    ensures StartOf("li", attrs, p) == [ItemMarker(p.kind, p.depth, p.before + 1)]
    ensures EndOf("li", attrs, inner) == []
    ensures Within(p, "li") == Past(p, 1)
  {
    hide ItemMarker, Repeat, AttrText, Opening;
    assert "li"[0] == 'l' && |"li"| == 2;
  }

  // ---------------------------------------------------------------- the text around each element

  /** Bold, italic, struck, code, quotes and blocks: a fixed text before and after the content. */
  lemma MarkedElement(tag: string, attrs: seq<Attr>, children: seq<Node>, p: Place)
    requires Around(tag).Some?
    ensures Render(Element(tag, attrs, children), p)
         == [Around(tag).value.0] + (RenderAll(children, p) + [Around(tag).value.1])
  {
    TagText(tag, attrs);
    RenderElement(tag, attrs, children, p);
    hide Around, Opening, Closing, Render, RenderAll, HrefOf;
  }

  /** Headings: as many "#" as the digit says, and a new line after the content. */
  lemma HeadingElement(tag: string, attrs: seq<Attr>, children: seq<Node>, p: Place) returns (chunk: string)
    requires |tag| == 2 && tag[0] == 'h' && '0' <= tag[1] <= '9'
    ensures IsHeadingChunk(chunk, tag[1] as int - '0' as int)
    ensures Render(Element(tag, attrs, children), p) == [chunk] + (RenderAll(children, p) + ["\n"])
  {
    HeadingText(tag, attrs);
    RenderElement(tag, attrs, children, p);
    hide Opening, Closing, Render, RenderAll, HrefOf, IsHeadingChunk;
    chunk := Opening(tag, attrs)[0];
    assert Opening(tag, attrs) == [chunk];
  }

  /** A link: its content in brackets, its target in parentheses; no target once a link is nested in it. */
  lemma LinkElement(attrs: seq<Attr>, children: seq<Node>, p: Place) returns (target: string)
    ensures if AnyLink(children) then target == "" else IsTarget(attrs, target)
    ensures Render(Element("a", attrs, children), p) == ["["] + (RenderAll(children, p) + ["](" + target + ")"])
  {
    TargetIs(attrs);
    RenderElement("a", attrs, children, p);
    LinkStart(attrs, p);
    hide Render, RenderAll, HrefOf, HrefText, IsTarget;
    target := if AnyLink(children) then "" else HrefText(HrefOf(attrs));
  }

  /** An image: its alternative text in brackets, its source in parentheses. */
  lemma ImageText(attrs: seq<Attr>, p: Place) returns (alt: string, src: string)
    ensures IsAttrText(attrs, "alt", alt) && IsAttrText(attrs, "src", src)
    ensures Render(Image(attrs), p) == ["![" + alt + "](" + src + ")"]
  {
    alt, src := AttrText(attrs, "alt"), AttrText(attrs, "src");
    AttrTextIs(attrs, "alt");
    AttrTextIs(attrs, "src");
    hide AttrText, IsAttrText, Repeat;
    assert |"img"| == 3;
  }

  /** Text is kept, a line break is two blanks and a new line, and a paragraph ends with a blank line. */
  lemma PlainText(text: string, attrs: seq<Attr>, children: seq<Node>, p: Place)
    ensures Render(Words(text), p) == [text]
    ensures Render(Break(attrs), p) == ["  \n"]
    ensures Render(Element("p", attrs, children), p) == RenderAll(children, p) + ["\n\n"]
  {
    hide AttrText, Repeat, ItemMarker, RenderAll, HrefOf;
    RenderElement("p", attrs, children, p);
    assert |"p"| == 1;
    assert [] + (RenderAll(children, p) + ["\n\n"]) == RenderAll(children, p) + ["\n\n"];
  }

  /** Any other element adds nothing: underlined text, or an item outside every list. */
  lemma OtherElement(tag: string, attrs: seq<Attr>, children: seq<Node>, p: Place)
    requires Around(tag).None? && !IsHeading(tag) && !IsList(tag) && tag != "a" && tag != "br" && tag != "img" && tag != "p"
    requires tag == "li" ==> p.depth == 0
    ensures Render(Element(tag, attrs, children), p) == RenderAll(children, p)
  {
    hide AttrText, Repeat, ItemMarker, RenderAll, HrefOf;
    RenderElement(tag, attrs, children, p);
    assert Opening(tag, attrs) == [] && Closing(tag) == [];
    hide Opening, Closing, Around, Render;
    assert [] + (RenderAll(children, p) + []) == RenderAll(children, p);
  }

  /** An end tag adds its text whether or not anything was opened; a list's end closes the innermost list, if there is one. */
  lemma EndTagText(st: MdState, tag: string)
    ensures var now := Ended(st, tag);
      && (Around(tag).Some? ==> now == st.(chunks := st.chunks + [Around(tag).value.1]))
      && (tag == "p" ==> now == st.(chunks := st.chunks + ["\n\n"]))
      && (IsHeading(tag) ==> now == st.(chunks := st.chunks + ["\n"]))
      && (tag == "a" ==> now == MdState(st.chunks + ["](" + st.linkHref.GetOr("") + ")"], st.lists, None))
      && (IsList(tag) ==>
            now == MdState(st.chunks + ["\n"], if st.lists == [] then [] else st.lists[..|st.lists| - 1], st.linkHref))
      && (tag in {"br", "img", "li", "u"} ==> now.chunks == st.chunks && now == st)
  {
    TagsDiffer(tag);
    EndTexts(tag);
    assert st.chunks + [] == st.chunks;
    hide Closing, Around;
  }

  lemma EndTexts(tag: string)
    ensures Around(tag).Some? ==> Closing(tag) == [Around(tag).value.1] && tag != "a" && !IsList(tag)
    ensures tag == "p" ==> Closing(tag) == ["\n\n"] && tag != "a" && !IsList(tag)
    ensures IsHeading(tag) ==> Closing(tag) == ["\n"] && tag != "a" && !IsList(tag)
    ensures IsList(tag) ==> Closing(tag) == ["\n"]
    ensures tag in {"br", "img", "li", "u"} ==> Closing(tag) == [] && tag != "a" && !IsList(tag)
  {
    if Around(tag).Some? {
      TagText(tag, []);
    } else if IsHeading(tag) {
      HeadingText(tag, []);
    }
    hide Repeat, AttrText;
  }
}
