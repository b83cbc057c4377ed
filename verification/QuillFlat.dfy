/**
  Flat Quill lists, as the editor writes them: one <ol> around items that carry
  their kind in data-list and start with a marker span.  Normalising one gives
  a plain list around each maximal run of items of the same kind.
 */
module QuillFlat {
  import opened Wrappers
  import opened HtmlTokens
  import opened QuillSpec
  import opened QuillMeaning
  import opened Sequences

  /** One list item: its own attributes, those of its marker span, and what it holds. */
  datatype Item = Item(attrs: seq<Attr>, marker: seq<Attr>, content: seq<Token>)

  /** What the item asks for; one that asks for nothing, such as a checklist item, belongs to the <ol> around it. */
  function ItemKind(item: Item): string {
    AskedFor(item.attrs).GetOr("ol")
  }

  /** A token the normaliser passes through. */
  predicate Inert(t: Token) {
    match t
    case StartTag(tag, attrs) => !StartsMarker(t) && !IsList(tag) && tag != "li"
    case EndTag(tag) => tag != "span" && !IsList(tag) && tag != "li"
    case _ => true
  }

  /** An item of any data-list, or of none, that starts with a marker span. */
  ghost predicate IsQuillItem(item: Item) {
    && StartsMarker(StartTag("span", item.marker))
    && forall i :: 0 <= i < |item.content| ==> Inert(item.content[i])
  }

  function ItemTokens(item: Item): seq<Token> {
    [StartTag("li", item.attrs), StartTag("span", item.marker), EndTag("span")] + (item.content + [EndTag("li")])
  }

  function AllItemTokens(items: seq<Item>): seq<Token> {
    if items == [] then [] else ItemTokens(items[0]) + AllItemTokens(items[1..])
  }

  function FlatList(items: seq<Item>): seq<Token> {
    [StartTag("ol", [])] + AllItemTokens(items) + [EndTag("ol")]
  }

  // ---------------------------------------------------------------- the simple specification

  datatype KindRun = KindRun(kind: string, items: seq<Item>)

  /** Items split into maximal runs of equal kind. */
  function Runs(items: seq<Item>): seq<KindRun> {
    if items == [] then []
    else
      var rest := Runs(items[1..]);
      if rest != [] && rest[0].kind == ItemKind(items[0])
      then [KindRun(rest[0].kind, [items[0]] + rest[0].items)] + rest[1..]
      else [KindRun(ItemKind(items[0]), [items[0]])] + rest
  }

  function Concatenated(runs: seq<KindRun>): seq<Item> {
    if runs == [] then [] else runs[0].items + Concatenated(runs[1..])
  }

  /** The runs are the items in order, each run is of one kind, and no two neighbours are of the same kind. */
  lemma {:induction false} RunsAreMaximal(items: seq<Item>)
    ensures Concatenated(Runs(items)) == items
    ensures forall r :: 0 <= r < |Runs(items)| ==>
      && Runs(items)[r].items != []
      && forall i :: 0 <= i < |Runs(items)[r].items| ==> ItemKind(Runs(items)[r].items[i]) == Runs(items)[r].kind
    ensures forall r :: 0 <= r < |Runs(items)| - 1 ==> Runs(items)[r].kind != Runs(items)[r + 1].kind
  {
    hide ItemKind;
    if items != [] {
      var rest := Runs(items[1..]);
      RunsAreMaximal(items[1..]);
      assert items == [items[0]] + items[1..];
      if rest != [] && rest[0].kind == ItemKind(items[0]) {
        assert Runs(items)[1..] == rest[1..];
        Assoc([items[0]], rest[0].items, Concatenated(rest[1..]));
      } else {
        assert Runs(items)[1..] == rest;
      }
    }
  }

  function PlainItem(item: Item): seq<Token> {
    [StartTag("li", [])] + (item.content + [EndTag("li")])
  }

  function PlainItems(items: seq<Item>): seq<Token> {
    if items == [] then [] else PlainItem(items[0]) + PlainItems(items[1..])
  }

  function WrapRuns(runs: seq<KindRun>): seq<Token> {
    if runs == [] then []
    else [StartTag(runs[0].kind, [])] + (PlainItems(runs[0].items) + ([EndTag(runs[0].kind)] + WrapRuns(runs[1..])))
  }

  // ---------------------------------------------------------------- the normaliser meets it

  /** What has to be written before an item of a kind while `wrapper` is open. */
  function Opening(wrapper: Option<string>, kind: string): seq<Token> {
    if wrapper == Some(kind) then [] else Close(wrapper) + [StartTag(kind, [])]
  }

  /** The output for items read while `wrapper` is open, up to and including the closing tag of the list. */
  function Written(items: seq<Item>, wrapper: Option<string>): seq<Token> {
    if items == [] then Close(wrapper)
    else
      Opening(wrapper, ItemKind(items[0])) + (PlainItem(items[0]) + Written(items[1..], Some(ItemKind(items[0]))))
  }

  /** What a wrapper of kind k still needs when `runs` follow. */
  function Continued(runs: seq<KindRun>, kind: string): seq<Token> {
    if runs != [] && runs[0].kind == kind then PlainItems(runs[0].items) + ([EndTag(kind)] + WrapRuns(runs[1..]))
    else [EndTag(kind)] + WrapRuns(runs)
  }

  /** The first run of items, in terms of the first item and what continues its wrapper. */
  lemma FirstRun(items: seq<Item>)
    requires items != []
    ensures var k := ItemKind(items[0]); var runs := Runs(items);
      && runs != [] && runs[0].kind == k
      && Continued(runs, k) == PlainItem(items[0]) + Continued(Runs(items[1..]), k)
      && WrapRuns(runs) == [StartTag(k, [])] + (PlainItem(items[0]) + Continued(Runs(items[1..]), k))
  {
    hide ItemKind, PlainItem;
    var k, rest, runs := ItemKind(items[0]), Runs(items[1..]), Runs(items);
    var plain := PlainItem(items[0]);
    if rest != [] && rest[0].kind == k {
      assert runs[0].items[1..] == rest[0].items && runs[1..] == rest[1..];
      Assoc(plain, PlainItems(rest[0].items), [EndTag(k)] + WrapRuns(rest[1..]));
    } else {
      assert runs[1..] == rest;
      assert [items[0]][1..] == [];
      assert PlainItems([items[0]][1..]) == [];
      Empty(plain);
    }
  }

  lemma {:induction false} WrittenContinues(items: seq<Item>, kind: string)
    ensures Written(items, Some(kind)) == Continued(Runs(items), kind)
  {
    if items == [] {
      Empty([EndTag(kind)]);
    } else {
      hide ItemKind, PlainItem, PlainItems, WrapRuns, Runs;
      var k := ItemKind(items[0]);
      var tail := PlainItem(items[0]) + Written(items[1..], Some(k));
      WrittenContinues(items[1..], k);
      FirstRun(items);
      if k == kind {
        Empty(tail);
      } else {
        Assoc([EndTag(kind)], [StartTag(k, [])], tail);
      }
    }
  }

  lemma InertIsKept(st: NormState, t: Token)
    requires st.skipDepth == 0 && Inert(t)
    ensures Step(st, t) == st.(out := st.out + [t])
  {
    if t.StartTag? {
      MarkerIs(t.tag, t.attrs);
    }
    hide IsMarker, StartsMarker, KindOf;
  }

  lemma {:induction false} InertRun(st: NormState, ts: seq<Token>)
    requires st.skipDepth == 0 && forall i :: 0 <= i < |ts| ==> Inert(ts[i])
    ensures Run(st, ts) == st.(out := st.out + ts)
    decreases |ts|
  {
    if ts == [] {
      assert st.out + ts == st.out;
    } else {
      assert Inert(ts[0]);
      InertIsKept(st, ts[0]);
      hide Step;
      InertRun(Step(st, ts[0]), ts[1..]);
      assert st.out + [ts[0]] + ts[1..] == st.out + ts;
    }
  }

  /** An <li> opens what its kind needs; its marker span leaves no trace. */
  lemma ItemOpens(st: NormState, item: Item)
    requires st.skipDepth == 0 && st.sources == ["ol"] && IsQuillItem(item)
    ensures var kind := ItemKind(item);
      Run(st, [StartTag("li", item.attrs), StartTag("span", item.marker), EndTag("span")])
      == NormState(st.out + Opening(st.wrapper, kind) + [StartTag("li", [])], 0, ["ol"], Some(kind))
  {
    var ts := [StartTag("li", item.attrs), StartTag("span", item.marker), EndTag("span")];
    KindIs(item.attrs, ["ol"]);
    MarkerIs("span", item.marker);
    hide Get, KindOf, AskedFor, StartsMarker;
    var st1 := Step(st, ts[0]);
    assert st1 == NormState(st.out + Opening(st.wrapper, ItemKind(item)) + [StartTag("li", [])], 0, ["ol"],
                            Some(ItemKind(item)));
    var st2 := Step(st1, ts[1]);
    assert st1.out + [] == st1.out;
    var st3 := Step(st2, ts[2]);
    assert st3 == st1;
    assert ts[1..] == [ts[1], ts[2]] && ts[1..][1..] == [ts[2]] && ts[1..][1..][1..] == [];
    RunThree(st, ts);
  }

  lemma RunThree(st: NormState, ts: seq<Token>)
    requires |ts| == 3
    ensures Run(st, ts) == Step(Step(Step(st, ts[0]), ts[1]), ts[2])
  {
    hide Step;
    var s1 := Step(st, ts[0]);
    var s2 := Step(s1, ts[1]);
    var s3 := Step(s2, ts[2]);
    assert ts[1..][1..] == ts[2..] && ts[2..][1..] == [];
    assert Run(s3, ts[2..][1..]) == s3;
    assert Run(s2, ts[2..]) == s3;
    assert Run(s1, ts[1..]) == Run(s2, ts[1..][1..]);
  }

  lemma ItemRun(st: NormState, item: Item)
    requires st.skipDepth == 0 && st.sources == ["ol"] && IsQuillItem(item)
    ensures var kind := ItemKind(item);
      Run(st, ItemTokens(item))
      == NormState(st.out + (Opening(st.wrapper, kind) + PlainItem(item)), 0, ["ol"], Some(kind))
  {
    var head := [StartTag("li", item.attrs), StartTag("span", item.marker), EndTag("span")];
    var kind := ItemKind(item);
    ItemOpens(st, item);
    var st1 := Run(st, head);
    InertRun(st1, item.content);
    var st2 := st1.(out := st1.out + item.content);
    ItemEnds(st2);
    hide IsQuillItem, Step, ItemKind, Run, Opening;
    RunConcat(st, head, item.content + [EndTag("li")]);
    RunConcat(st1, item.content, [EndTag("li")]);
    var li := [StartTag("li", [])];
    Assoc(st.out + Opening(st.wrapper, kind) + li, item.content, [EndTag("li")]);
    Assoc(st.out + Opening(st.wrapper, kind), li, item.content + [EndTag("li")]);
    Assoc(st.out, Opening(st.wrapper, kind), PlainItem(item));
  }

  lemma ItemEnds(st: NormState)
    requires st.skipDepth == 0
    ensures Run(st, [EndTag("li")]) == st.(out := st.out + [EndTag("li")])
  {
    OneStep(st, EndTag("li"));
  }

  lemma {:induction false} ItemsRun(st: NormState, items: seq<Item>)
    requires st.skipDepth == 0 && st.sources == ["ol"]
    requires forall i :: 0 <= i < |items| ==> IsQuillItem(items[i])
    ensures var end := Run(st, AllItemTokens(items));
      && end.skipDepth == 0 && end.sources == ["ol"]
      && end.out + Close(end.wrapper) == st.out + Written(items, st.wrapper)
    decreases |items|
  {
    hide IsQuillItem, ItemTokens, ItemKind, PlainItem, Opening, Step;
    if items != [] {
      assert IsQuillItem(items[0]);
      ItemRun(st, items[0]);
      var st1 := Run(st, ItemTokens(items[0]));
      ItemsRun(st1, items[1..]);
      RunConcat(st, ItemTokens(items[0]), AllItemTokens(items[1..]));
      var kind := ItemKind(items[0]);
      Assoc(st.out, Opening(st.wrapper, kind) + PlainItem(items[0]), Written(items[1..], Some(kind)));
      Assoc(Opening(st.wrapper, kind), PlainItem(items[0]), Written(items[1..], Some(kind)));
    }
  }

  lemma ListOpens()
    ensures Run(INITIAL, [StartTag("ol", [])]) == NormState([], 0, ["ol"], None)
  {
    OneStep(INITIAL, StartTag("ol", []));
  }

  lemma ListCloses(st: NormState)
    requires st.skipDepth == 0 && st.sources == ["ol"]
    ensures Run(st, [EndTag("ol")]) == NormState(st.out + Close(st.wrapper), 0, [], None)
  {
    OneStep(st, EndTag("ol"));
    assert ["ol"][..0] == [];
  }

  /** For every flat Quill list the normaliser wraps each maximal run of one kind in its own list. */
  lemma FlatListNormalises(items: seq<Item>)
    requires forall i :: 0 <= i < |items| ==> IsQuillItem(items[i])
    ensures Normalise(FlatList(items)) == WrapRuns(Runs(items))
  {
    hide Step, Run, IsQuillItem, AllItemTokens, Written, WrapRuns, Runs;
    var open, body, close := [StartTag("ol", [])], AllItemTokens(items), [EndTag("ol")];
    var st0 := NormState([], 0, ["ol"], None);
    ListOpens();
    ItemsRun(st0, items);
    ListCloses(Run(st0, body));
    RunConcat(INITIAL, open, body);
    RunConcat(INITIAL, open + body, close);
    assert Normalise(FlatList(items)) == Written(items, None);
    WrittenFromNothing(items);
  }

  lemma OneStep(st: NormState, t: Token)
    ensures Run(st, [t]) == Step(st, t)
  {
    hide Step;
    assert [t][1..] == [];
    assert Run(Step(st, t), [t][1..]) == Step(st, t);
  }

  lemma WrittenFromNothing(items: seq<Item>)
    ensures Written(items, None) == WrapRuns(Runs(items))
  {
    if items != [] {
      hide ItemKind, PlainItem, PlainItems, WrapRuns, Runs;
      var k := ItemKind(items[0]);
      WrittenContinues(items[1..], k);
      FirstRun(items);
      Empty([StartTag(k, [])]);
    }
  }
}
