/**
  Markdown from sanitised HTML, twice: the stack machine that reads tags one by
  one, and a renderer that recurses over the document tree.
 */
module MarkdownSpec {
  import opened Wrappers
  import opened HtmlTokens
  import opened Sequences
  import opened Text

  // ---------------------------------------------------------------- the stack machine

  /** One open list: its tag and how many of its items have started. */
  datatype OpenList = OpenList(kind: string, items: nat)

  datatype MdState = MdState(chunks: seq<string>, lists: seq<OpenList>, linkHref: Option<string>)

  const START := MdState([], [], None)

  predicate IsBold(tag: string) {
    tag == "strong" || tag == "b"
  }

  predicate IsItalic(tag: string) {
    tag == "em" || tag == "i"
  }

  predicate IsStruck(tag: string) {
    tag == "s" || tag == "strike"
  }

  predicate IsHeading(tag: string) {
    |tag| == 2 && tag[0] == 'h' && IsDigit(tag[1])
  }

  /** `attrs.get(name, "")` inside an f-string: an attribute without a value prints as None. */
  function AttrText(attrs: seq<Attr>, name: string): string {
    match Get(attrs, name)
    case None => ""
    case Some(None) => "None"
    case Some(Some(value)) => value
  }

  function HrefOf(attrs: seq<Attr>): Option<string> {
    match Get(attrs, "href")
    case None => Some("")
    case Some(value) => value
  }

  /** `self.link_href or ''` */
  function HrefText(href: Option<string>): string {
    if href.Some? then href.value else ""
  }

  function Repeat(s: string, n: nat): string {
    if n == 0 then "" else s + Repeat(s, n - 1)
  }

  /** An item's marker, two spaces in for each enclosing list but the first. */
  function ItemMarker(kind: string, depth: nat, number: nat): string
    requires depth > 0
  {
    "\n" + Repeat("  ", depth - 1) + (if kind == "ul" then "-" else ToDecimal(number) + ".") + " "
  }

  /** The chunk a start tag adds that depends on nothing but the tag. */
  function Opening(tag: string, attrs: seq<Attr>): seq<string> {
    if tag == "br" then ["  \n"]
    else if IsBold(tag) then ["**"]
    else if IsItalic(tag) then ["_"]
    else if IsStruck(tag) then ["~~"]
    else if tag == "a" then ["["]
    else if tag == "img" then ["![" + AttrText(attrs, "alt") + "](" + AttrText(attrs, "src") + ")"]
    else if IsList(tag) || tag == "li" then []
    else if IsHeading(tag) then ["\n" + Repeat("#", DigitValue(tag[1])) + " "]
    else if tag == "blockquote" then ["\n> "]
    else if tag == "pre" then ["\n```\n"]
    else if tag == "code" then ["`"]
    else []
  }

  /** The chunk an end tag other than </a> adds. */
  function Closing(tag: string): seq<string> {
    if tag == "p" then ["\n\n"]
    else if IsBold(tag) then ["**"]
    else if IsItalic(tag) then ["_"]
    else if IsStruck(tag) then ["~~"]
    else if IsList(tag) then ["\n"]
    else if IsHeading(tag) then ["\n"]
    else if tag == "blockquote" then ["\n"]
    else if tag == "pre" then ["\n```\n"]
    else if tag == "code" then ["`"]
    else []
  }

  function Started(st: MdState, tag: string, attrs: seq<Attr>): MdState {
    var st' := st.(chunks := st.chunks + Opening(tag, attrs));
    if tag == "a" then st'.(linkHref := HrefOf(attrs))
    else if IsList(tag) then st'.(lists := st.lists + [OpenList(tag, 0)])
    else if tag == "li" && st.lists != [] then
      var top := st.lists[|st.lists| - 1];
      MdState(st.chunks + [ItemMarker(top.kind, |st.lists|, top.items + 1)],
              st.lists[|st.lists| - 1 := OpenList(top.kind, top.items + 1)], st.linkHref)
    else st'
  }

  function Ended(st: MdState, tag: string): MdState {
    if tag == "a" then MdState(st.chunks + ["](" + HrefText(st.linkHref) + ")"], st.lists, None)
    else
      var st' := st.(chunks := st.chunks + Closing(tag));
      if IsList(tag) && st.lists != [] then st'.(lists := st.lists[..|st.lists| - 1]) else st'
  }

  function Step(st: MdState, t: Token): MdState {
    match t
    case StartTag(tag, attrs) => Started(st, tag, attrs)
    case SelfClosing(tag, attrs) => Ended(Started(st, tag, attrs), tag)
    case EndTag(tag) => Ended(st, tag)
    case Data(text) => st.(chunks := st.chunks + [text])
  }

  function Run(st: MdState, ts: seq<Token>): MdState
    decreases |ts|
  {
    if ts == [] then st else Run(Step(st, ts[0]), ts[1..])
  }

  lemma {:induction false} RunConcat(st: MdState, a: seq<Token>, b: seq<Token>)
    ensures Run(st, a + b) == Run(Run(st, a), b)
    decreases |a|
  {
    hide Step;
    if a == [] {
      assert a + b == b;
    } else {
      assert (a + b)[0] == a[0] && (a + b)[1..] == a[1..] + b;
      RunConcat(Step(st, a[0]), a[1..], b);
    }
  }

  lemma RunOne(st: MdState, t: Token)
    ensures Run(st, [t]) == Step(st, t)
  {
    hide Step;
    assert [t][1..] == [];
    assert Run(Step(st, t), [t][1..]) == Step(st, t);
  }

  // ---------------------------------------------------------------- the recursive renderer

  /** A well-nested document; br and img have no end tag. */
  datatype Node = Words(text: string) | Break(attrs: seq<Attr>) | Image(attrs: seq<Attr>)
                | Element(tag: string, attrs: seq<Attr>, children: seq<Node>)

  function Events(n: Node): seq<Token>
    decreases n, 1
  {
    match n
    case Words(text) => [Data(text)]
    case Break(attrs) => [StartTag("br", attrs)]
    case Image(attrs) => [StartTag("img", attrs)]
    case Element(tag, attrs, children) => [StartTag(tag, attrs)] + (AllEvents(children) + [EndTag(tag)])
  }

  function AllEvents(ns: seq<Node>): seq<Token>
    decreases ns, 0
  {
    if ns == [] then [] else Events(ns[0]) + AllEvents(ns[1..])
  }

  /** The innermost list around a node: how deep it is, its tag, and how many of its items came before. */
  datatype Place = Place(depth: nat, kind: string, before: nat)

  /** How many items of the innermost list around it a node holds; inner lists count their own. */
  function ItemsIn(n: Node): nat
    decreases n, 1
  {
    if !n.Element? || IsList(n.tag) then 0 else (if n.tag == "li" then 1 else 0) + AllItemsIn(n.children)
  }

  function AllItemsIn(ns: seq<Node>): nat
    decreases ns, 0
  {
    if ns == [] then 0 else ItemsIn(ns[0]) + AllItemsIn(ns[1..])
  }

  predicate HasLink(n: Node)
    decreases n, 1
  {
    n.Element? && (n.tag == "a" || AnyLink(n.children))
  }

  predicate AnyLink(ns: seq<Node>)
    decreases ns, 0
  {
    ns != [] && (HasLink(ns[0]) || AnyLink(ns[1..]))
  }

  /** Where an element puts its children: a list starts afresh one level down, an item counts itself. */
  function Within(p: Place, tag: string): Place {
    if IsList(tag) then Place(p.depth + 1, tag, 0)
    else if tag == "li" && p.depth > 0 then p.(before := p.before + 1)
    else p
  }

  /**
    The Markdown of a node.  A link closes with its own target, unless another
    link is nested in it, which takes the target away.
   */
  function Render(n: Node, p: Place): seq<string>
    decreases n, 1
  {
    match n
    case Words(text) => [text]
    case Break(attrs) => Opening("br", attrs)
    case Image(attrs) => Opening("img", attrs)
    case Element(tag, attrs, children) =>
      var start := if tag == "li" && p.depth > 0 then [ItemMarker(p.kind, p.depth, p.before + 1)] else Opening(tag, attrs);
      var end := if tag == "a" then ["](" + (if AnyLink(children) then "" else HrefText(HrefOf(attrs))) + ")"]
                 else Closing(tag);
      start + (RenderAll(children, Within(p, tag)) + end)
  }

  function RenderAll(ns: seq<Node>, p: Place): seq<string>
    decreases ns, 0
  {
    if ns == [] then []
    else Render(ns[0], p) + RenderAll(ns[1..], if p.depth > 0 then p.(before := p.before + ItemsIn(ns[0])) else p)
  }

  // ---------------------------------------------------------------- refinement

  /** The place a machine state stands for. */
  function PlaceOf(st: MdState): Place {
    if st.lists == [] then Place(0, "", 0)
    else Place(|st.lists|, st.lists[|st.lists| - 1].kind, st.lists[|st.lists| - 1].items)
  }

  /** The open lists after n more items of the innermost one. */
  function Counted(lists: seq<OpenList>, n: nat): seq<OpenList> {
    if lists == [] then lists
    else lists[|lists| - 1 := OpenList(lists[|lists| - 1].kind, lists[|lists| - 1].items + n)]
  }

  lemma CountedZero(lists: seq<OpenList>)
    ensures Counted(lists, 0) == lists
  {
  }

  lemma CountedTwice(lists: seq<OpenList>, m: nat, n: nat)
    ensures Counted(Counted(lists, m), n) == Counted(lists, m + n)
  {
  }

  /** The machine after a whole node (or list of nodes) rendered as `text`. */
  function After(st: MdState, text: seq<string>, items: nat, link: bool): MdState {
    MdState(st.chunks + text, Counted(st.lists, items), if link then None else st.linkHref)
  }

  lemma AfterTwice(st: MdState, t1: seq<string>, n1: nat, l1: bool, t2: seq<string>, n2: nat, l2: bool)
    ensures After(After(st, t1, n1, l1), t2, n2, l2) == After(st, t1 + t2, n1 + n2, l1 || l2)
  {
    Assoc(st.chunks, t1, t2);
    CountedTwice(st.lists, n1, n2);
  }

  lemma AfterNothing(st: MdState)
    ensures After(st, [], 0, false) == st
  {
    CountedZero(st.lists);
    assert st.chunks + [] == st.chunks;
  }

  lemma PlaceAfter(st: MdState, text: seq<string>, items: nat, link: bool)
    ensures PlaceOf(After(st, text, items, link)) ==
      if PlaceOf(st).depth > 0 then PlaceOf(st).(before := PlaceOf(st).before + items) else PlaceOf(st)
  {
  }
}
