/** The Markdown converter as the event handlers that update its fields. */
module Markdown {
  import opened Wrappers
  import opened HtmlTokens
  import opened Text
  import opened MarkdownSpec
  import opened MarkdownRefinement
  import opened Newlines

  class MarkdownConverter {
    var chunks: seq<string>
    var listStack: seq<OpenList>
    var linkHref: Option<string>

    ghost function State(): MdState
      reads this
    {
      MdState(chunks, listStack, linkHref)
    }

    constructor ()
      ensures State() == START
    {
      chunks, listStack, linkHref := [], [], None;
    }

    method HandleStartTag(tag: string, attrs: seq<Attr>)
      modifies this
      ensures State() == Started(old(State()), tag, attrs)
    {
      hide Repeat, AttrText, ItemMarker, HrefOf;
      TagsDiffer(tag);
      assert chunks + [] == chunks;
      if tag == "br" {
        chunks := chunks + ["  \n"];
      } else if IsBold(tag) {
        chunks := chunks + ["**"];
      } else if IsItalic(tag) {
        chunks := chunks + ["_"];
      } else if IsStruck(tag) {
        chunks := chunks + ["~~"];
      } else if tag == "a" {
        linkHref := HrefOf(attrs);
        chunks := chunks + ["["];
      } else if tag == "img" {
        chunks := chunks + ["![" + AttrText(attrs, "alt") + "](" + AttrText(attrs, "src") + ")"];
      } else if IsList(tag) {
        listStack := listStack + [OpenList(tag, 0)];
      } else if tag == "li" {
        if listStack != [] {
          var last := |listStack| - 1;
          listStack := listStack[last := listStack[last].(items := listStack[last].items + 1)];
          var OpenList(kind, index) := listStack[last];
          chunks := chunks + [ItemMarker(kind, |listStack|, index)];
        }
      } else if IsHeading(tag) {
        chunks := chunks + ["\n" + Repeat("#", DigitValue(tag[1])) + " "];
      } else if tag == "blockquote" {
        chunks := chunks + ["\n> "];
      } else if tag == "pre" {
        chunks := chunks + ["\n```\n"];
      } else if tag == "code" {
        chunks := chunks + ["`"];
      }
    }

    method HandleEndTag(tag: string)
      modifies this
      ensures State() == Ended(old(State()), tag)
    {
      assert chunks + [] == chunks;
      if tag == "p" {
        chunks := chunks + ["\n\n"];
      } else if IsBold(tag) {
        chunks := chunks + ["**"];
      } else if IsItalic(tag) {
        chunks := chunks + ["_"];
      } else if IsStruck(tag) {
        chunks := chunks + ["~~"];
      } else if tag == "a" {
        chunks := chunks + ["](" + HrefText(linkHref) + ")"];
        linkHref := None;
      } else if IsList(tag) {
        if listStack != [] {
          listStack := listStack[..|listStack| - 1];
        }
        chunks := chunks + ["\n"];
      } else if IsHeading(tag) {
        chunks := chunks + ["\n"];
      } else if tag == "blockquote" {
        chunks := chunks + ["\n"];
      } else if tag == "pre" {
        chunks := chunks + ["\n```\n"];
      } else if tag == "code" {
        chunks := chunks + ["`"];
      }
    }

    method HandleData(data: string)
      modifies this`chunks
      ensures chunks == old(chunks) + [data]
    {
      chunks := chunks + [data];
    }

    /** `feed`: one handler call for each token; a self-closing tag counts as its start and its end. */
    method Feed(tokens: seq<Token>)
      modifies this
      ensures State() == Run(old(State()), tokens)
    {
      hide Started, Ended;
      var i := 0;
      assert tokens[0..] == tokens;
      while i < |tokens|
        invariant i <= |tokens|
        invariant Run(State(), tokens[i..]) == Run(old(State()), tokens)
      {
        assert tokens[i..][0] == tokens[i] && tokens[i..][1..] == tokens[i + 1..];
        match tokens[i] {
          case StartTag(tag, attrs) =>
            HandleStartTag(tag, attrs);
          case SelfClosing(tag, attrs) =>
            HandleStartTag(tag, attrs);
            HandleEndTag(tag);
          case EndTag(tag) =>
            HandleEndTag(tag);
          case Data(text) =>
            HandleData(text);
        }
        i := i + 1;
      }
    }

    method ToMarkdown() returns (r: string)
      ensures r == Strip(CollapseNewlines(Join(chunks)))
    {
      var text := Join(chunks);
      text := CollapseNewlines(text);
      r := Strip(text);
    }
  }

  /** The Markdown a document of tokens converts to. */
  function MarkdownOf(tokens: seq<Token>): string {
    Strip(CollapseNewlines(Join(Run(START, tokens).chunks)))
  }

  /** `html_to_markdown`: the text has no two blank lines in a row and no space at either end. */
  method HtmlToMarkdown(tokens: seq<Token>) returns (r: string)
    ensures r == MarkdownOf(tokens)
    ensures NoTriple(r)
    ensures r != [] ==> !IsSpace(r[0]) && !IsSpace(r[|r| - 1])
  {
    hide NoTriple, CollapseNewlines, Run;
    if tokens == [] {
      EmptyDocument();
      return "";
    }
    var parser := new MarkdownConverter();
    parser.Feed(tokens);
    r := parser.ToMarkdown();
    Collapsed(Join(Run(START, tokens).chunks));
    StripKeeps(CollapseNewlines(Join(Run(START, tokens).chunks)));
  }

  lemma EmptyDocument()
    ensures MarkdownOf([]) == "" && NoTriple("")
  {
  }

  /** End to end: a document's Markdown is its recursive rendering, with blank lines collapsed and the ends stripped. */
  lemma DocumentMarkdown(doc: seq<Node>)
    ensures MarkdownOf(AllEvents(doc)) == Strip(CollapseNewlines(Join(RenderAll(doc, Place(0, "", 0)))))
  {
    hide Run, RenderAll, CollapseNewlines, Strip;
    DocumentRefines(doc);
  }
}
