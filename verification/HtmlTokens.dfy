/** The events an HTML tokenizer reports, and the attribute lookups the handlers make on them. */
module HtmlTokens {
  import opened Wrappers

  datatype Attr = Attr(name: string, value: Option<string>)

  datatype Token =
    | StartTag(tag: string, attrs: seq<Attr>)
    | SelfClosing(tag: string, attrs: seq<Attr>)
    | EndTag(tag: string)
    | Data(text: string)

  /** `dict(attrs).get(name)`: the last attribute of a name wins; an attribute may have no value. */
  function Get(attrs: seq<Attr>, name: string): Option<Option<string>> {
    if attrs == [] then None
    else if attrs[|attrs| - 1].name == name then Some(attrs[|attrs| - 1].value)
    else Get(attrs[..|attrs| - 1], name)
  }

  /** The last attribute of this name has this value. */
  predicate Says(attrs: seq<Attr>, name: string, value: string) {
    exists p :: 0 <= p < |attrs| && attrs[p] == Attr(name, Some(value)) && IsLastOf(attrs, name, p)
  }

  predicate IsLastOf(attrs: seq<Attr>, name: string, p: nat) {
    forall q :: p < q < |attrs| ==> attrs[q].name != name
  }

  lemma {:induction false} GetIsLast(attrs: seq<Attr>, name: string, p: nat)
    requires p < |attrs| && attrs[p].name == name && IsLastOf(attrs, name, p)
    ensures Get(attrs, name) == Some(attrs[p].value)
  {
    if p < |attrs| - 1 {
      GetIsLast(attrs[..|attrs| - 1], name, p);
    }
  }

  lemma {:induction false} GetFinds(attrs: seq<Attr>, name: string) returns (p: nat)
    requires Get(attrs, name).Some?
    ensures p < |attrs| && attrs[p].name == name && IsLastOf(attrs, name, p) && Get(attrs, name) == Some(attrs[p].value)
  {
    if attrs[|attrs| - 1].name == name {
      p := |attrs| - 1;
    } else {
      p := GetFinds(attrs[..|attrs| - 1], name);
    }
  }

  lemma GetSays(attrs: seq<Attr>, name: string, value: string)
    ensures Get(attrs, name) == Some(Some(value)) <==> Says(attrs, name, value)
  {
    hide IsLastOf;
    if Get(attrs, name) == Some(Some(value)) {
      var p := GetFinds(attrs, name);
      assert attrs[p] == Attr(name, Some(value));
    }
    if Says(attrs, name, value) {
      var p :| 0 <= p < |attrs| && attrs[p] == Attr(name, Some(value)) && IsLastOf(attrs, name, p);
      GetIsLast(attrs, name, p);
    }
  }

  predicate Contains(s: string, part: string) {
    part <= s || (s != [] && Contains(s[1..], part))
  }

  predicate IsList(tag: string) {
    tag == "ul" || tag == "ol"
  }
}
