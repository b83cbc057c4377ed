/** What the attributes the list normaliser looks at say, in terms of their text. */
module QuillMeaning {
  import opened Wrappers
  import opened HtmlTokens
  import opened QuillSpec

  predicate HasPart(s: string, part: string) {
    exists i :: 0 <= i <= |s| && PartAt(s, part, i)
  }

  predicate PartAt(s: string, part: string, i: nat) {
    i + |part| <= |s| && s[i..i + |part|] == part
  }

  /** A <span> whose class text has "ql-ui" in it. */
  predicate StartsMarker(t: Token) {
    t.StartTag? && t.tag == "span"
    && exists p :: 0 <= p < |t.attrs| && t.attrs[p].name == "class" && IsLastOf(t.attrs, "class", p)
         && t.attrs[p].value.Some? && HasPart(t.attrs[p].value.value, "ql-ui")
  }

  /** The list an item asks for, if it asks for one. */
  function AskedFor(attrs: seq<Attr>): Option<string> {
    if Says(attrs, "data-list", "bullet") then Some("ul") else if Says(attrs, "data-list", "ordered") then Some("ol") else None
  }

  lemma {:induction false} ContainsIs(s: string, part: string)
    ensures Contains(s, part) <==> HasPart(s, part)
  {
    hide PartAt;
    if part <= s {
      assert PartAt(s, part, 0) by { StartIsPart(s, part); }
    } else if s != [] {
      ContainsIs(s[1..], part);
      if HasPart(s[1..], part) {
        var i :| 0 <= i <= |s[1..]| && PartAt(s[1..], part, i);
        PartOneOn(s, part, i);
      }
      if HasPart(s, part) {
        var i :| 0 <= i <= |s| && PartAt(s, part, i);
        StartIsPart(s, part);
        PartOneOn(s, part, i - 1);
      }
    } else if HasPart(s, part) {
      StartIsPart(s, part);
    }
  }

  lemma StartIsPart(s: string, part: string)
    ensures PartAt(s, part, 0) <==> part <= s
  {
  }

  lemma PartOneOn(s: string, part: string, i: nat)
    requires s != []
    ensures PartAt(s[1..], part, i) <==> PartAt(s, part, i + 1)
  {
    if i + 1 + |part| <= |s| {
      assert s[i + 1..i + 1 + |part|] == s[1..][i..i + |part|];
    }
  }

  /** Marker spans are told by their class text. */
  lemma MarkerIs(tag: string, attrs: seq<Attr>)
    ensures IsMarker(tag, attrs) <==> StartsMarker(StartTag(tag, attrs))
  {
    hide Contains, HasPart, IsLastOf, Get;
    if IsMarker(tag, attrs) {
      var p := GetFinds(attrs, "class");
      ContainsIs(attrs[p].value.value, "ql-ui");
    }
    if StartsMarker(StartTag(tag, attrs)) {
      var p :| 0 <= p < |attrs| && attrs[p].name == "class" && IsLastOf(attrs, "class", p)
               && attrs[p].value.Some? && HasPart(attrs[p].value.value, "ql-ui");
      GetIsLast(attrs, "class", p);
      ContainsIs(attrs[p].value.value, "ql-ui");
    }
  }

  /** An item's list is the one it asks for, or else the innermost one around it, or else a bullet list. */
  lemma KindIs(attrs: seq<Attr>, sources: seq<string>)
    ensures KindOf(attrs, sources) ==
      if AskedFor(attrs).Some? then AskedFor(attrs).value else if sources != [] then sources[|sources| - 1] else "ul"
  {
    GetSays(attrs, "data-list", "bullet");
    GetSays(attrs, "data-list", "ordered");
    hide Get, Says;
    assert "bullet"[0] != "ordered"[0];
  }
}
