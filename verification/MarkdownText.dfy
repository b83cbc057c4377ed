/** The Markdown around the content of each element, character by character. */
module MarkdownText {
  import opened Wrappers
  import opened HtmlTokens
  import opened Text
  import opened MarkdownSpec

  // ---------------------------------------------------------------- list items

  /** The decimal digits of a number, without leading zeros. */
  predicate IsNumeral(s: string, n: nat) {
    AllDigits(s) && ParseDecimal(s) == n && (s[0] == '0' ==> |s| == 1)
  }

  /** What comes before an item's content: a new line, two blanks for each outer list, and "- " or the number and ". ". */
  predicate IsItemChunk(chunk: string, kind: string, depth: nat, number: nat)
    requires depth > 0
  {
    var indent := 2 * (depth - 1);
    && |chunk| >= 3 + indent && chunk[0] == '\n'
    && (forall i :: 1 <= i <= indent ==> chunk[i] == ' ')
    && if kind == "ul" then chunk[1 + indent..] == "- "
       else chunk[|chunk| - 2..] == ". " && IsNumeral(chunk[1 + indent..|chunk| - 2], number)
  }

  lemma {:induction false} BlanksAre(n: nat)
    ensures |Repeat("  ", n)| == 2 * n
    ensures forall k :: 0 <= k < 2 * n ==> Repeat("  ", n)[k] == ' '
  {
    if n > 0 {
      BlanksAre(n - 1);
    }
  }

  lemma {:induction false} NumeralIs(n: nat)
    ensures IsNumeral(ToDecimal(n), n)
    ensures n > 0 ==> ToDecimal(n)[0] != '0'
  {
    DecimalRoundTrip(n);
    if n >= 10 {
      NumeralIs(n / 10);
    }
  }

  lemma MarkerIs(kind: string, depth: nat, number: nat)
    requires depth > 0 && number > 0
    ensures IsItemChunk(ItemMarker(kind, depth, number), kind, depth, number)
  {
    BlanksAre(depth - 1);
    NumeralIs(number);
    var blanks := Repeat("  ", depth - 1);
    var digits := ToDecimal(number);
    hide Repeat, ToDecimal, ParseDecimal, AllDigits;
    if kind == "ul" {
      FourParts("\n", blanks, "-", " ");
      assert "-" + " " == "- ";
    } else {
      FourParts("\n", blanks, digits + ".", " ");
      FourParts("\n", blanks, digits, ". ");
      assert digits + "." + " " == digits + ". ";
      assert "\n" + blanks + (digits + ".") + " " == "\n" + blanks + digits + ". ";
    }
  }

  lemma FourParts(a: string, b: string, c: string, d: string)
    ensures var s := a + b + c + d;
      && s[..|a|] == a && s[|a|..|a| + |b|] == b && s[|a| + |b|..] == c + d
      && s[|a| + |b|..|s| - |d|] == c && s[|s| - |d|..] == d
  {
  }

  // ---------------------------------------------------------------- elements

  /** A new line, as many "#" as the heading's digit says, and a blank. */
  predicate IsHeadingChunk(chunk: string, level: nat) {
    |chunk| == level + 2 && chunk[0] == '\n' && chunk[level + 1] == ' ' && forall i :: 1 <= i <= level ==> chunk[i] == '#'
  }

  lemma {:induction false} HashesAre(n: nat)
    ensures |Repeat("#", n)| == n
    ensures forall k :: 0 <= k < n ==> Repeat("#", n)[k] == '#'
  {
    if n > 0 {
      HashesAre(n - 1);
    }
  }

  /** What stands before and after the content of an element that needs nothing but its tag. */
  function Around(tag: string): Option<(string, string)> {
    match tag
    case "strong" => Some(("**", "**"))
    case "b" => Some(("**", "**"))
    case "em" => Some(("_", "_"))
    case "i" => Some(("_", "_"))
    case "s" => Some(("~~", "~~"))
    case "strike" => Some(("~~", "~~"))
    case "code" => Some(("`", "`"))
    case "blockquote" => Some(("\n> ", "\n"))
    case "pre" => Some(("\n```\n", "\n```\n"))
    case _ => None
  }

  lemma TagText(tag: string, attrs: seq<Attr>)
    requires Around(tag).Some?
    ensures Opening(tag, attrs) == [Around(tag).value.0] && Closing(tag) == [Around(tag).value.1]
    ensures tag != "a" && tag != "li" && !IsList(tag)
  {
    hide Repeat, AttrText;
  }

  lemma HeadingText(tag: string, attrs: seq<Attr>)
    requires |tag| == 2 && tag[0] == 'h' && '0' <= tag[1] <= '9'
    ensures |Opening(tag, attrs)| == 1 && IsHeadingChunk(Opening(tag, attrs)[0], tag[1] as int - '0' as int)
    ensures Closing(tag) == ["\n"]
    ensures tag != "a" && tag != "li" && !IsList(tag)
  {
    var level := DigitValue(tag[1]);
    HashesAre(level);
    hide Repeat, AttrText;
    assert tag != "br" && tag != "em" && tag != "li" && tag != "ul" && tag != "ol";
    var chunk := "\n" + Repeat("#", level) + " ";
    assert chunk[1..1 + level] == Repeat("#", level);
  }

  /** The text of an attribute: its last value; nothing when it is missing, "None" when it has no value. */
  ghost predicate IsAttrText(attrs: seq<Attr>, name: string, text: string) {
    && (forall value :: Says(attrs, name, value) ==> text == value)
    && ((forall i :: 0 <= i < |attrs| ==> attrs[i].name != name) ==> text == "")
    && ((exists p :: 0 <= p < |attrs| && attrs[p] == Attr(name, None) && IsLastOf(attrs, name, p)) ==> text == "None")
  }

  lemma AttrTextIs(attrs: seq<Attr>, name: string)
    ensures IsAttrText(attrs, name, AttrText(attrs, name))
  {
    hide IsLastOf, Get;
    forall value | Says(attrs, name, value)
      ensures AttrText(attrs, name) == value
    {
      GetSays(attrs, name, value);
    }
    if Get(attrs, name).Some? {
      var p := GetFinds(attrs, name);
      assert attrs[p].name == name;
    }
    if p :| 0 <= p < |attrs| && attrs[p] == Attr(name, None) && IsLastOf(attrs, name, p) {
      GetIsLast(attrs, name, p);
    }
  }

  /** The target of a link: its last href; nothing when it is missing or has no value. */
  ghost predicate IsTarget(attrs: seq<Attr>, text: string) {
    && (forall value :: Says(attrs, "href", value) ==> text == value)
    && (!(exists value :: Says(attrs, "href", value)) ==> text == "")
  }

  lemma TargetIs(attrs: seq<Attr>)
    ensures IsTarget(attrs, HrefText(HrefOf(attrs)))
  {
    hide Says, Get;
    forall value | Says(attrs, "href", value)
      ensures Get(attrs, "href") == Some(Some(value))
    {
      GetSays(attrs, "href", value);
    }
    if Get(attrs, "href").Some? && Get(attrs, "href").value.Some? {
      GetSays(attrs, "href", Get(attrs, "href").value.value);
    }
  }
}
