/** The list normaliser as the event handlers that update its fields. */
module QuillLists {
  import opened Wrappers
  import opened HtmlTokens
  import opened QuillSpec
  import opened QuillPlacement

  class QuillListNormalizer {
    var out: seq<Token>
    var skipDepth: nat
    var sourceListStack: seq<string>
    var openWrapper: Option<string>

    ghost function State(): NormState
      reads this
    {
      NormState(out, skipDepth, sourceListStack, openWrapper)
    }

    constructor ()
      ensures State() == INITIAL
    {
      out, skipDepth, sourceListStack, openWrapper := [], 0, [], None;
    }

    method CloseWrapper()
      modifies this`out
      ensures out == old(out) + Close(openWrapper)
    {
      if openWrapper.Some? {
        out := out + [EndTag(openWrapper.value)];
      } else {
        assert out + [] == out;
      }
    }

    method HandleStartTag(tag: string, attrs: seq<Attr>)
      modifies this
      ensures State() == Step(old(State()), StartTag(tag, attrs))
    {
      hide Get, Contains, KindOf;
      assert out + [] == out;
      if IsMarker(tag, attrs) {
        skipDepth := skipDepth + 1;
        return;
      }
      if skipDepth > 0 {
        return;
      }
      if IsList(tag) {
        sourceListStack := sourceListStack + [tag];
        return;
      }
      if tag == "li" {
        var kind := KindOf(attrs, sourceListStack);
        if openWrapper != Some(kind) {
          CloseWrapper();
          out := out + [StartTag(kind, [])];
          openWrapper := Some(kind);
        }
        out := out + [StartTag("li", [])];
        assert out == old(out) + Emit(old(State()), StartTag(tag, attrs));
        return;
      }
      out := out + [StartTag(tag, attrs)];
    }

    method HandleStartEndTag(tag: string, attrs: seq<Attr>)
      modifies this
      ensures State() == Step(old(State()), SelfClosing(tag, attrs))
    {
      if skipDepth == 0 {
        out := out + [SelfClosing(tag, attrs)];
      }
    }

    method HandleEndTag(tag: string)
      modifies this
      ensures State() == Step(old(State()), EndTag(tag))
    {
      assert out + [] == out;
      if tag == "span" {
        if skipDepth > 0 {
          skipDepth := skipDepth - 1;
        }
        return;
      }
      if skipDepth > 0 {
        return;
      }
      if IsList(tag) {
        if sourceListStack != [] {
          sourceListStack := sourceListStack[..|sourceListStack| - 1];
        }
        CloseWrapper();
        openWrapper := None;
        return;
      }
      out := out + [EndTag(tag)];
    }

    method HandleData(text: string)
      modifies this
      ensures State() == Step(old(State()), Data(text))
    {
      if skipDepth == 0 {
        out := out + [Data(text)];
      }
    }

    /** `feed`: one handler call for each token. */
    method Feed(tokens: seq<Token>)
      modifies this
      ensures State() == Run(old(State()), tokens)
    {
      hide Step;
      var i := 0;
      assert tokens[0..] == tokens;
      while i < |tokens|
        invariant i <= |tokens|
        invariant Run(State(), tokens[i..]) == Run(old(State()), tokens)
      {
        assert tokens[i..][0] == tokens[i] && tokens[i..][1..] == tokens[i + 1..];
        match tokens[i] {
          case StartTag(tag, attrs) => HandleStartTag(tag, attrs);
          case SelfClosing(tag, attrs) => HandleStartEndTag(tag, attrs);
          case EndTag(tag) => HandleEndTag(tag);
          case Data(text) => HandleData(text);
        }
        i := i + 1;
      }
    }

    method Result() returns (r: seq<Token>)
      modifies this
      ensures r == old(out) + Close(old(openWrapper)) && openWrapper == None
    {
      CloseWrapper();
      openWrapper := None;
      r := out;
    }
  }

  /** `_normalize_quill_lists` */
  method NormalizeQuillLists(tokens: seq<Token>) returns (r: seq<Token>)
    ensures r == Normalise(tokens)
    ensures Canonical(r) && Unwrapped(r) == ShownBefore(tokens, |tokens|)
  {
    var parser := new QuillListNormalizer();
    parser.Feed(tokens);
    r := parser.Result();
    OutputIsCanonical(tokens);
    OutputIsShown(tokens);
  }
}
