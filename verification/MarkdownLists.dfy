/** End to end: what a list of one-line items converts to, in characters. */
module MarkdownLists {
  import opened Wrappers
  import opened HtmlTokens
  import opened Sequences
  import opened Text
  import opened MarkdownSpec
  import opened MarkdownText
  import opened MarkdownRefinement
  import opened Newlines
  import opened Markdown

  /** One <li> for each text. */
  function Items(texts: seq<string>): seq<Node> {
    if texts == [] then [] else Items(texts[..|texts| - 1]) + [Element("li", [], [Words(texts[|texts| - 1])])]
  }

  /** What stands before the text of item n. */
  function Mark(kind: string, n: nat): string {
    if kind == "ul" then "- " else ToDecimal(n) + ". "
  }

  /** One line for each text, numbered from 1 in an <ol>, with a dash in a <ul>. */
  function Lines(kind: string, texts: seq<string>): string {
    if texts == [] then ""
    else if |texts| == 1 then Mark(kind, 1) + texts[0]
    else Lines(kind, texts[..|texts| - 1]) + "\n" + Mark(kind, |texts|) + texts[|texts| - 1]
  }

  lemma {:induction false} ItemsAre(texts: seq<string>)
    ensures |Items(texts)| == |texts| && AllItemsIn(Items(texts)) == |texts|
    decreases |texts|
  {
    if texts != [] {
      ItemsAre(texts[..|texts| - 1]);
      var item := Element("li", [], [Words(texts[|texts| - 1])]);
      AllItemsConcat(Items(texts[..|texts| - 1]), [item]);
      OneItem(texts[|texts| - 1]);
    }
  }

  lemma OneItem(text: string)
    ensures AllItemsIn([Element("li", [], [Words(text)])]) == 1
  {
    TagsDiffer("li");
    var words := [Words(text)];
    assert words[1..] == [];
    assert AllItemsIn(words) == 0;
    var item := Element("li", [], words);
    assert [item][1..] == [];
  }

  lemma {:induction false} AllItemsConcat(a: seq<Node>, b: seq<Node>)
    ensures AllItemsIn(a + b) == AllItemsIn(a) + AllItemsIn(b)
  {
    hide ItemsIn;
    if a == [] {
      assert a + b == b;
    } else {
      assert (a + b)[0] == a[0] && (a + b)[1..] == a[1..] + b;
      AllItemsConcat(a[1..], b);
    }
  }

  /** One item inside a list: its marker, then its text. */
  lemma ItemText(kind: string, text: string, n: nat)
    requires IsList(kind)
    ensures Join(RenderAll([Element("li", [], [Words(text)])], Place(1, kind, n))) == "\n" + Mark(kind, n + 1) + text
  {
    var item, p := Element("li", [], [Words(text)]), Place(1, kind, n);
    var marker := ItemMarker(kind, 1, n + 1);
    RenderElement("li", [], [Words(text)], p);
    ItemTags([], AnyLink([Words(text)]), p);
    OneWord(text, Within(p, "li"));
    OnlyOne(item, p);
    assert marker == "\n" + Mark(kind, n + 1);
    hide ItemMarker, RenderAll, Render, Mark, Opening, Closing;
    assert RenderAll([item], p) == [marker, text];
    assert [marker, text] == [marker] + [text];
    JoinConcat([marker], [text]);
    JoinOne(marker);
    JoinOne(text);
  }

  lemma OneWord(text: string, p: Place)
    ensures RenderAll([Words(text)], p) == [text]
  {
    assert [Words(text)][1..] == [];
  }

  lemma OnlyOne(n: Node, p: Place)
    ensures RenderAll([n], p) == Render(n, p)
  {
    hide Render, ItemsIn;
    assert [n][1..] == [];
    assert Render(n, p) + [] == Render(n, p);
  }

  lemma NothingJoined(kind: string)
    ensures Join(RenderAll(Items([]), Place(1, kind, 0))) == ""
  {
  }

  /** The rendered items of a list, one line each. */
  lemma {:induction false} ItemsText(kind: string, texts: seq<string>)
    requires IsList(kind)
    ensures Join(RenderAll(Items(texts), Place(1, kind, 0))) == if texts == [] then "" else "\n" + Lines(kind, texts)
    decreases |texts|
  {
    hide Mark, ItemsIn, Render, Join;
    if texts == [] {
      NothingJoined(kind);
    } else {
      var init, last := texts[..|texts| - 1], texts[|texts| - 1];
      var item := Element("li", [], [Words(last)]);
      ItemsText(kind, init);
      ItemsAre(init);
      RenderConcat(Items(init), [item], Place(1, kind, 0));
      JoinConcat(RenderAll(Items(init), Place(1, kind, 0)), RenderAll([item], Place(1, kind, |init|)));
      ItemText(kind, last, |init|);
    }
  }

  /** No empty line, nothing but newlines between lines. */
  predicate NoPair(s: string) {
    forall i :: 0 <= i < |s| - 1 ==> !(s[i] == '\n' && s[i + 1] == '\n')
  }

  predicate OneLine(s: string) {
    '\n' !in s
  }

  lemma MarkIs(kind: string, n: nat)
    ensures Mark(kind, n) != [] && OneLine(Mark(kind, n)) && !IsSpace(Mark(kind, n)[0])
  {
  }

  lemma {:induction false} LinesAre(kind: string, texts: seq<string>)
    requires texts != [] && forall t <- texts :: OneLine(t)
    ensures var s := Lines(kind, texts);
      s != [] && !IsSpace(s[0]) && NoPair(s) && s[|s| - 1] == (Mark(kind, |texts|) + texts[|texts| - 1])[|Mark(kind, |texts|) + texts[|texts| - 1]| - 1]
    decreases |texts|
  {
    hide Mark, IsSpace;
    MarkIs(kind, |texts|);
    var last := texts[|texts| - 1];
    var line := Mark(kind, |texts|) + last;
    assert OneLine(last);
    if |texts| > 1 {
      var init := texts[..|texts| - 1];
      LinesAre(kind, init);
      MarkIs(kind, |init|);
      var above := Lines(kind, init);
      assert OneLine(init[|init| - 1]);
      assert Lines(kind, texts) == above + "\n" + line;
      LineBelow(above, line);
    }
  }

  lemma LineBelow(above: string, line: string)
    requires above != [] && NoPair(above) && above[|above| - 1] != '\n' && line != [] && OneLine(line)
    ensures NoPair(above + "\n" + line) && (above + "\n" + line)[|above + "\n" + line| - 1] == line[|line| - 1]
    ensures (above + "\n" + line)[0] == above[0]
  {
  }

  lemma NoPairBetween(s: string)
    requires s != [] && NoPair(s) && s[0] != '\n' && s[|s| - 1] != '\n'
    ensures NoTriple("\n" + s + "\n")
  {
    var all := "\n" + s + "\n";
    forall i | 0 <= i < |all| - 2
      ensures !(all[i] == '\n' && all[i + 1] == '\n' && all[i + 2] == '\n')
    {
      assert all[i + 1] == s[i];
    }
  }

  /**
    A list of one-line texts, the last of which does not end with a blank,
    converts to one line for each: numbered from 1 in an <ol>, dashed in a <ul>.
   */
  lemma ListConverts(kind: string, attrs: seq<Attr>, texts: seq<string>)
    requires IsList(kind) && texts != [] && forall t <- texts :: OneLine(t)
    requires var last := texts[|texts| - 1]; last != [] && !IsSpace(last[|last| - 1])
    ensures MarkdownOf(AllEvents([Element(kind, attrs, Items(texts))])) == Lines(kind, texts)
  {
    var doc := [Element(kind, attrs, Items(texts))];
    DocumentMarkdown(doc);
    ListText(kind, attrs, texts);
    LinesAre(kind, texts);
    var s := Lines(kind, texts);
    var text := Join(RenderAll(doc, Place(0, "", 0)));
    assert s[|s| - 1] == texts[|texts| - 1][|texts[|texts| - 1]| - 1];
    hide Lines, Mark, Join, RenderAll, AllEvents, MarkdownOf, Items, Strip, CollapseNewlines, NoTriple, NoPair;
    assert Blank("\n") && !IsSpace(s[|s| - 1]);
    NoPairBetween(s);
    NoTripleIsFixed("\n" + s + "\n");
    StripFinds("\n", s, "\n");
  }

  /** The rendered list: its lines between two newlines. */
  lemma ListText(kind: string, attrs: seq<Attr>, texts: seq<string>)
    requires IsList(kind) && texts != []
    ensures Join(RenderAll([Element(kind, attrs, Items(texts))], Place(0, "", 0))) == "\n" + Lines(kind, texts) + "\n"
  {
    var list, p, inside := Element(kind, attrs, Items(texts)), Place(0, "", 0), Place(1, kind, 0);
    var chunks := RenderAll(Items(texts), inside);
    OnlyOne(list, p);
    RenderElement(kind, attrs, Items(texts), p);
    ListTags(kind, attrs, p);
    ItemsText(kind, texts);
    Empty(chunks + ["\n"]);
    JoinConcat(chunks, ["\n"]);
    JoinOne("\n");
    assert Within(p, kind) == inside;
    hide *;
  }

  /** A numbered and a bulleted list, for example. */
  lemma ListExamples()
    ensures MarkdownOf(AllEvents([Element("ol", [], Items(["a", "b"]))])) == "1. a\n2. b"
    ensures MarkdownOf(AllEvents([Element("ul", [], Items(["a", "b"]))])) == "- a\n- b"
  {
    hide MarkdownOf, AllEvents, Items;
    ListConverts("ol", [], ["a", "b"]);
    ListConverts("ul", [], ["a", "b"]);
    assert ["a", "b"][..1] == ["a"];
    assert ToDecimal(1) == "1" && ToDecimal(2) == "2";
    assert Lines("ol", ["a"]) == "1. a" && Lines("ul", ["a"]) == "- a";
  }
}
