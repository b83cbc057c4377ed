/**
  Where the list normaliser puts every item, told from positions in the input:
  which tokens stand inside marker spans, which list of the source is still
  open, and between which tags of the output the item ends up.
 */
module QuillPlacement {
  import opened Wrappers
  import opened HtmlTokens
  import opened QuillSpec
  import opened QuillMeaning
  import opened QuillFlat
  import opened Sequences

  // ---------------------------------------------------------------- inside a marker span

  /** How many more marker spans start than spans end strictly between p and n. */
  function MarkerBalance(ts: seq<Token>, p: nat, n: nat): int
    requires p < n <= |ts|
  {
    if n == p + 1 then 0
    else
      MarkerBalance(ts, p, n - 1) + (if StartsMarker(ts[n - 1]) then 1 else if ts[n - 1] == EndTag("span") then -1 else 0)
  }

  /** The marker span that starts at p has not ended before n. */
  predicate MarkerOpen(ts: seq<Token>, p: nat, n: nat)
    requires n <= |ts|
  {
    p < n && StartsMarker(ts[p]) && forall q :: p < q <= n ==> MarkerBalance(ts, p, q) >= 0
  }

  /** Position n stands inside a marker span. */
  predicate Hidden(ts: seq<Token>, n: nat)
    requires n <= |ts|
  {
    exists p :: 0 <= p < n && MarkerOpen(ts, p, n)
  }

  /** The normaliser's state before position n. */
  function StateBefore(ts: seq<Token>, n: nat): NormState
    requires n <= |ts|
  {
    Run(INITIAL, ts[..n])
  }

  lemma OneToken(ts: seq<Token>, n: nat)
    requires n < |ts|
    ensures StateBefore(ts, n + 1) == Step(StateBefore(ts, n), ts[n])
  {
    hide Step;
    assert ts[..n + 1] == ts[..n] + [ts[n]];
    RunConcat(INITIAL, ts[..n], [ts[n]]);
    OneStep(StateBefore(ts, n), ts[n]);
  }

  lemma DepthStep(ts: seq<Token>, n: nat)
    requires n < |ts|
    ensures StateBefore(ts, n + 1).skipDepth ==
      var d := StateBefore(ts, n).skipDepth;
      if StartsMarker(ts[n]) then d + 1 else if ts[n] == EndTag("span") && d > 0 then d - 1 else d
  {
    OneToken(ts, n);
    if ts[n].StartTag? {
      MarkerIs(ts[n].tag, ts[n].attrs);
    }
    hide IsMarker, Emit, SourcesAfter, WrapperAfter, Run;
  }

  lemma NothingBefore(ts: seq<Token>)
    ensures StateBefore(ts, 0) == INITIAL
  {
    assert ts[..0] == [];
  }

  lemma {:induction false} DepthWitness(ts: seq<Token>, n: nat) returns (p: nat)
    requires n <= |ts| && StateBefore(ts, n).skipDepth > 0
    ensures MarkerOpen(ts, p, n) && StateBefore(ts, n).skipDepth == 1 + MarkerBalance(ts, p, n)
  {
    NothingBefore(ts);
    DepthStep(ts, n - 1);
    hide StateBefore, StartsMarker;
    if StateBefore(ts, n - 1).skipDepth == 0 {
      p := n - 1;
    } else {
      p := DepthWitness(ts, n - 1);
    }
  }

  lemma {:induction false} DepthAtLeast(ts: seq<Token>, p: nat, n: nat)
    requires n <= |ts| && MarkerOpen(ts, p, n)
    ensures StateBefore(ts, n).skipDepth >= 1 + MarkerBalance(ts, p, n) >= 1
  {
    DepthStep(ts, n - 1);
    hide StateBefore, StartsMarker;
    if n > p + 1 {
      DepthAtLeast(ts, p, n - 1);
    }
  }

  /** The normaliser skips exactly the tokens inside marker spans. */
  lemma HiddenIs(ts: seq<Token>, n: nat)
    requires n <= |ts|
    ensures Hidden(ts, n) <==> StateBefore(ts, n).skipDepth > 0
  {
    hide StateBefore, MarkerOpen;
    if StateBefore(ts, n).skipDepth > 0 {
      var p := DepthWitness(ts, n);
      assert MarkerOpen(ts, p, n) && p < n by { MarkerIsBefore(ts, p, n); }
    }
    if Hidden(ts, n) {
      var p :| 0 <= p < n && MarkerOpen(ts, p, n);
      DepthAtLeast(ts, p, n);
    }
  }

  lemma MarkerIsBefore(ts: seq<Token>, p: nat, n: nat)
    requires n <= |ts| && MarkerOpen(ts, p, n)
    ensures p < n
  {
  }

  // ---------------------------------------------------------------- inside a list of the source

  predicate StartsList(ts: seq<Token>, n: nat)
    requires n < |ts|
  {
    ts[n].StartTag? && IsList(ts[n].tag) && !Hidden(ts, n)
  }

  predicate EndsList(ts: seq<Token>, n: nat)
    requires n < |ts|
  {
    ts[n].EndTag? && IsList(ts[n].tag) && !Hidden(ts, n)
  }

  /** How many more lists start than end strictly between p and n, outside marker spans. */
  function Balance(ts: seq<Token>, p: nat, n: nat): int
    requires p < n <= |ts|
  {
    if n == p + 1 then 0
    else Balance(ts, p, n - 1) + (if StartsList(ts, n - 1) then 1 else if EndsList(ts, n - 1) then -1 else 0)
  }

  /** The list that starts at p has not ended before n. */
  predicate ListOpen(ts: seq<Token>, p: nat, n: nat)
    requires n <= |ts|
  {
    p < n && StartsList(ts, p) && forall q :: p < q <= n ==> Balance(ts, p, q) >= 0
  }

  /** Of the lists still open at n, the one that starts at p is the innermost. */
  predicate Innermost(ts: seq<Token>, p: nat, n: nat)
    requires n <= |ts|
  {
    ListOpen(ts, p, n) && Balance(ts, p, n) == 0
  }

  lemma SourcesStep(ts: seq<Token>, n: nat)
    requires n < |ts|
    ensures StateBefore(ts, n + 1).sources ==
      var sources := StateBefore(ts, n).sources;
      if StartsList(ts, n) then sources + [ts[n].tag]
      else if EndsList(ts, n) && sources != [] then sources[..|sources| - 1]
      else sources
  {
    OneToken(ts, n);
    HiddenIs(ts, n);
    hide Hidden, Run, Emit, WrapperAfter, Depth;
  }

  /** The normaliser's stack of source lists, as positions of the lists that are still open. */
  ghost predicate IsStack(ts: seq<Token>, n: nat, at: seq<nat>)
    requires n <= |ts|
  {
    && |at| == |StateBefore(ts, n).sources|
    && (forall k :: 0 <= k < |at| ==>
          ListOpen(ts, at[k], n) && ts[at[k]].tag == StateBefore(ts, n).sources[k]
          && Balance(ts, at[k], n) == |at| - 1 - k)
    && (forall p: nat :: ListOpen(ts, p, n) ==> p in at)
  }

  lemma OpenStep(ts: seq<Token>, p: nat, n: nat)
    requires n < |ts|
    ensures ListOpen(ts, p, n + 1) <==>
      if p == n then StartsList(ts, n) else ListOpen(ts, p, n) && Balance(ts, p, n + 1) >= 0
  {
    hide StartsList, EndsList;
    if p < n && ListOpen(ts, p, n + 1) {
      assert ListOpen(ts, p, n);
    }
  }

  lemma {:induction false} StackIs(ts: seq<Token>, n: nat) returns (at: seq<nat>)
    requires n <= |ts|
    ensures IsStack(ts, n, at)
  {
    if n == 0 {
      NothingBefore(ts);
      at := [];
    } else {
      var was := StackIs(ts, n - 1);
      if StartsList(ts, n - 1) {
        at := was + [n - 1];
        Pushed(ts, n - 1, was);
      } else if EndsList(ts, n - 1) && was != [] {
        at := was[..|was| - 1];
        Popped(ts, n - 1, was);
      } else {
        at := was;
        Unmoved(ts, n - 1, was);
      }
    }
  }

  lemma Pushed(ts: seq<Token>, n: nat, was: seq<nat>)
    requires n < |ts| && IsStack(ts, n, was) && StartsList(ts, n)
    ensures IsStack(ts, n + 1, was + [n])
  {
    SourcesStep(ts, n);
    hide StateBefore, ListOpen, StartsList, EndsList;
    forall p: nat
      ensures ListOpen(ts, p, n + 1) <==>
        if p == n then StartsList(ts, n) else ListOpen(ts, p, n) && Balance(ts, p, n + 1) >= 0
    {
      OpenStep(ts, p, n);
    }
    forall p: nat | ListOpen(ts, p, n)
      ensures p < n
    {
      OpenIsBefore(ts, p, n);
    }
    forall p: nat | ListOpen(ts, p, n + 1)
      ensures p in was + [n]
    {
    }
  }

  lemma OpenIsBefore(ts: seq<Token>, p: nat, n: nat)
    requires n <= |ts| && ListOpen(ts, p, n)
    ensures p < n && Balance(ts, p, n) >= 0
  {
  }

  lemma Popped(ts: seq<Token>, n: nat, was: seq<nat>)
    requires n < |ts| && IsStack(ts, n, was) && EndsList(ts, n) && was != []
    ensures IsStack(ts, n + 1, was[..|was| - 1])
  {
    SourcesStep(ts, n);
    assert !StartsList(ts, n);
    hide StateBefore, ListOpen, StartsList, EndsList;
    var at := was[..|was| - 1];
    forall k | 0 <= k < |was|
      ensures was[k] < n && Balance(ts, was[k], n + 1) == |was| - 2 - k
      ensures ListOpen(ts, was[k], n + 1) <==> k < |was| - 1
    {
      OpenIsBefore(ts, was[k], n);
      OpenStep(ts, was[k], n);
    }
    forall p: nat | ListOpen(ts, p, n + 1)
      ensures p in at
    {
      OpenStep(ts, p, n);
      var k :| 0 <= k < |was| && was[k] == p;
      assert at[k] == p;
    }
  }

  lemma Unmoved(ts: seq<Token>, n: nat, was: seq<nat>)
    requires n < |ts| && IsStack(ts, n, was) && !StartsList(ts, n) && (EndsList(ts, n) ==> was == [])
    ensures IsStack(ts, n + 1, was)
  {
    SourcesStep(ts, n);
    hide StateBefore, ListOpen, StartsList, EndsList;
    forall p: nat
      ensures ListOpen(ts, p, n + 1) ==> p != n && ListOpen(ts, p, n)
      ensures p != n && ListOpen(ts, p, n) && Balance(ts, p, n + 1) >= 0 ==> ListOpen(ts, p, n + 1)
    {
      OpenStep(ts, p, n);
    }
    forall p: nat | ListOpen(ts, p, n)
      ensures p < n && !EndsList(ts, n) && Balance(ts, p, n + 1) == Balance(ts, p, n) >= 0
    {
      OpenIsBefore(ts, p, n);
      assert p in was;
    }
  }

  // ---------------------------------------------------------------- where an item ends up

  /** The last list tag of a stream opens a list of this kind. */
  ghost predicate EndsInside(ts: seq<Token>, kind: string) {
    exists i :: 0 <= i < |ts| && ts[i] == StartTag(kind, []) && forall j :: i < j < |ts| ==> !IsWrapper(ts[j])
  }

  /** The first list tag of a stream closes a list of this kind. */
  ghost predicate LeavesFrom(ts: seq<Token>, kind: string) {
    exists i :: 0 <= i < |ts| && ts[i] == EndTag(kind) && forall j :: 0 <= j < i ==> !IsWrapper(ts[j])
  }

  predicate IsItemStart(t: Token) {
    t.StartTag? && t.tag == "li"
  }

  function ItemStarts(ts: seq<Token>): nat {
    if ts == [] then 0 else (if IsItemStart(ts[0]) then 1 else 0) + ItemStarts(ts[1..])
  }

  /** How many items start before n, outside marker spans. */
  function ItemsBefore(ts: seq<Token>, n: nat): nat
    requires n <= |ts|
  {
    if n == 0 then 0 else ItemsBefore(ts, n - 1) + (if IsItemStart(ts[n - 1]) && !Hidden(ts, n - 1) then 1 else 0)
  }

  /** The list an item belongs to: the one it asks for, or else the innermost one around it, or else a bullet list. */
  ghost predicate BelongsTo(ts: seq<Token>, n: nat, kind: string)
    requires n < |ts| && ts[n].StartTag?
  {
    var asked := AskedFor(ts[n].attrs);
    && (asked.Some? ==> kind == asked.value)
    && (asked.None? ==> forall p: nat :: Innermost(ts, p, n) ==> kind == ts[p].tag)
    && (asked.None? && !(exists p: nat :: Innermost(ts, p, n)) ==> kind == "ul")
  }

  lemma KindBelongs(ts: seq<Token>, n: nat)
    requires n < |ts| && ts[n].StartTag?
    ensures BelongsTo(ts, n, KindOf(ts[n].attrs, StateBefore(ts, n).sources))
  {
    var sources := StateBefore(ts, n).sources;
    KindIs(ts[n].attrs, sources);
    var at := StackIs(ts, n);
    hide StateBefore, ListOpen, KindOf, AskedFor;
    forall p: nat | Innermost(ts, p, n)
      ensures sources != [] && sources[|sources| - 1] == ts[p].tag
    {
      assert p in at;
      var k :| 0 <= k < |at| && at[k] == p;
      assert k == |at| - 1;
    }
    if sources != [] {
      assert Innermost(ts, at[|at| - 1], n);
    }
  }

  lemma {:induction false} ItemStartsConcat(a: seq<Token>, b: seq<Token>)
    ensures ItemStarts(a + b) == ItemStarts(a) + ItemStarts(b)
  {
    hide IsItemStart;
    if a == [] {
      assert a + b == b;
    } else {
      assert (a + b)[0] == a[0] && (a + b)[1..] == a[1..] + b;
      ItemStartsConcat(a[1..], b);
    }
  }

  lemma OneItemStart(t: Token)
    ensures ItemStarts([t]) == if IsItemStart(t) then 1 else 0
  {
    assert [t][1..] == [];
  }

  lemma EmittedItems(st: NormState, t: Token)
    requires OutputWrapped(st)
    ensures ItemStarts(Emit(st, t)) == if IsItemStart(t) then 1 else 0
  {
    OneItemStart(t);
    OneItemStart(StartTag("li", []));
    if st.wrapper.Some? {
      OneItemStart(EndTag(st.wrapper.value));
    }
    if t.StartTag? && t.tag == "li" {
      var kind := KindOf(t.attrs, st.sources);
      KindIsList(st, t.attrs);
      OneItemStart(StartTag(kind, []));
      assert [StartTag(kind, []), StartTag("li", [])] == [StartTag(kind, [])] + [StartTag("li", [])];
      ItemStartsConcat([StartTag(kind, [])], [StartTag("li", [])]);
      ItemStartsConcat(Close(st.wrapper), [StartTag(kind, []), StartTag("li", [])]);
    }
  }

  lemma BeforeIsWrapped(ts: seq<Token>, n: nat)
    requires n <= |ts|
    ensures OutputWrapped(StateBefore(ts, n))
  {
    RunKeepsWrapped(INITIAL, ts[..n]);
  }

  lemma OutputStep(ts: seq<Token>, n: nat)
    requires n < |ts|
    ensures var st := StateBefore(ts, n);
      StateBefore(ts, n + 1).out == if Hidden(ts, n) then st.out else st.out + Emit(st, ts[n])
  {
    OneToken(ts, n);
    HiddenIs(ts, n);
    hide Emit, Depth, SourcesAfter, WrapperAfter, StateBefore, Hidden;
  }

  lemma ItemsStep(ts: seq<Token>, n: nat)
    requires n < |ts|
    ensures ItemStarts(StateBefore(ts, n + 1).out)
         == ItemStarts(StateBefore(ts, n).out) + (if IsItemStart(ts[n]) && !Hidden(ts, n) then 1 else 0)
  {
    var st := StateBefore(ts, n);
    OutputStep(ts, n);
    BeforeIsWrapped(ts, n);
    EmittedItems(st, ts[n]);
    ItemStartsConcat(st.out, Emit(st, ts[n]));
    hide *;
  }

  lemma {:induction false} ItemsWritten(ts: seq<Token>, n: nat)
    requires n <= |ts|
    ensures ItemStarts(StateBefore(ts, n).out) == ItemsBefore(ts, n)
  {
    if n == 0 {
      NothingBefore(ts);
    } else {
      ItemsWritten(ts, n - 1);
      ItemsStep(ts, n - 1);
      hide StateBefore, Hidden, ItemStarts;
    }
  }

  lemma {:induction false} ScanEndsInside(ts: seq<Token>, kind: string)
    requires Scan(Outside, ts) in {Inside(kind), Opened(kind)}
    ensures EndsInside(ts, kind)
    decreases |ts|
  {
    if ts == [] {
    } else {
      var init, last := ts[..|ts| - 1], ts[|ts| - 1];
      assert ts == init + [last];
      ScanConcat(Outside, init, [last]);
      ScanOne(Scan(Outside, init), last);
      if IsWrapper(last) {
        assert ts[|ts| - 1] == StartTag(kind, []);
      } else {
        ScanEndsInside(init, kind);
        var i :| 0 <= i < |init| && init[i] == StartTag(kind, []) && forall j :: i < j < |init| ==> !IsWrapper(init[j]);
        assert ts[i] == StartTag(kind, []);
      }
    }
  }

  lemma {:induction false} ScanLeavesFrom(ts: seq<Token>, kind: string)
    requires Scan(Inside(kind), ts) == Outside
    ensures LeavesFrom(ts, kind)
    decreases |ts|
  {
    if ts != [] {
      var t := ts[0];
      if Advance(Inside(kind), t) == Broken {
        BrokenStays(ts[1..]);
      } else if IsWrapper(t) {
        assert ts[0] == EndTag(kind);
      } else {
        ScanLeavesFrom(ts[1..], kind);
        var rest := ts[1..];
        var i :| 0 <= i < |rest| && rest[i] == EndTag(kind) && forall j :: 0 <= j < i ==> !IsWrapper(rest[j]);
        assert ts[i + 1] == EndTag(kind);
        forall j | 0 <= j < i + 1
          ensures !IsWrapper(ts[j])
        {
          assert j > 0 ==> ts[j] == rest[j - 1];
        }
      }
    }
  }

  lemma {:induction false} OutputGrows(st: NormState, ts: seq<Token>)
    ensures st.out <= Run(st, ts).out
    decreases |ts|
  {
    hide Emit, Depth, SourcesAfter, WrapperAfter;
    if ts != [] {
      OutputGrows(Step(st, ts[0]), ts[1..]);
    }
  }

  /** The output up to and including an item's start, and that it stays where it is. */
  lemma ItemWritten(ts: seq<Token>, n: nat)
    requires n < |ts| && IsItemStart(ts[n]) && !Hidden(ts, n)
    ensures var st, now := StateBefore(ts, n), StateBefore(ts, n + 1);
      && now.out != [] && now.out[|now.out| - 1] == StartTag("li", [])
      && now.out <= Normalise(ts) && st.out <= now.out
      && now.wrapper == Some(KindOf(ts[n].attrs, st.sources))
      && ItemStarts(now.out[..|now.out| - 1]) == ItemsBefore(ts, n)
  {
    OneToken(ts, n);
    HiddenIs(ts, n);
    ItemTagIsPlain(ts[n].attrs);
    ItemsWritten(ts, n + 1);
    OutputStays(ts, n + 1);
    hide Hidden, StateBefore, Normalise, IsMarker, KindOf, Depth, SourcesAfter;
    var st, now := StateBefore(ts, n), StateBefore(ts, n + 1);
    assert now.out == st.out + Emit(st, ts[n]);
    var init := now.out[..|now.out| - 1];
    assert now.out == init + [StartTag("li", [])];
    ItemStartsConcat(init, [StartTag("li", [])]);
    OneItemStart(StartTag("li", []));
  }

  lemma OutputStays(ts: seq<Token>, n: nat)
    requires n <= |ts|
    ensures StateBefore(ts, n).out <= Normalise(ts)
  {
    assert ts == ts[..n] + ts[n..];
    RunConcat(INITIAL, ts[..n], ts[n..]);
    OutputGrows(StateBefore(ts, n), ts[n..]);
  }

  lemma ItemTagIsPlain(attrs: seq<Attr>)
    ensures !IsMarker("li", attrs) && !IsList("li")
  {
    assert "li"[0] == 'l';
  }

  /**
    Every item of every stream: if it is not inside a marker span, it has its
    place in the output, after as many items as come before it, and the list
    tags before and after that place are the start and the end of the list it
    belongs to.
   */
  lemma ItemStands(ts: seq<Token>, n: nat) returns (before: seq<Token>, after: seq<Token>, kind: string)
    requires n < |ts| && IsItemStart(ts[n]) && !Hidden(ts, n)
    ensures Normalise(ts) == before + [StartTag("li", [])] + after
    ensures ItemStarts(before) == ItemsBefore(ts, n)
    ensures BelongsTo(ts, n, kind) && EndsInside(before, kind) && LeavesFrom(after, kind)
  {
    kind := KindOf(ts[n].attrs, StateBefore(ts, n).sources);
    KindBelongs(ts, n);
    ItemWritten(ts, n);
    BeforeIsWrapped(ts, n + 1);
    OutputIsCanonical(ts);
    var written := StateBefore(ts, n + 1).out;
    before, after := written[..|written| - 1], Normalise(ts)[|written|..];
    var all := Normalise(ts);
    hide *;
    PlacedInside(all, written, kind);
  }

  /** Properly wrapped output, cut right after an item's start. */
  lemma PlacedInside(all: seq<Token>, written: seq<Token>, kind: string)
    requires Scan(Outside, all) == Outside && Scan(Outside, written) == Inside(kind) && IsList(kind)
    requires written <= all && written != [] && written[|written| - 1] == StartTag("li", [])
    ensures var before, after := written[..|written| - 1], all[|written|..];
      && all == before + [StartTag("li", [])] + after
      && EndsInside(before, kind) && LeavesFrom(after, kind)
  {
    CutAt(all, written);
    CutBefore(written);
    hide *;
    ScanAfter(all, written, all[|written|..], kind);
    ScanBefore(written, written[..|written| - 1], kind);
  }

  lemma CutAt(all: seq<Token>, written: seq<Token>)
    requires written <= all
    ensures all == written + all[|written|..]
  {
  }

  lemma CutBefore(written: seq<Token>)
    requires written != []
    ensures written == written[..|written| - 1] + [written[|written| - 1]]
  {
  }

  lemma ScanAfter(all: seq<Token>, written: seq<Token>, after: seq<Token>, kind: string)
    requires Scan(Outside, all) == Outside && Scan(Outside, written) == Inside(kind) && all == written + after
    ensures LeavesFrom(after, kind)
  {
    hide Advance, LeavesFrom;
    ScanConcat(Outside, written, after);
    ScanLeavesFrom(after, kind);
  }

  lemma ScanBefore(written: seq<Token>, before: seq<Token>, kind: string)
    requires Scan(Outside, written) == Inside(kind) && IsList(kind) && written == before + [StartTag("li", [])]
    ensures EndsInside(before, kind)
  {
    hide Advance, EndsInside;
    ScanEndsInside(written, kind);
    DropLastItem(before, kind);
  }

  lemma DropLastItem(before: seq<Token>, kind: string)
    requires EndsInside(before + [StartTag("li", [])], kind) && IsList(kind)
    ensures EndsInside(before, kind)
  {
    var all := before + [StartTag("li", [])];
    var i :| 0 <= i < |all| && all[i] == StartTag(kind, []) && forall j :: i < j < |all| ==> !IsWrapper(all[j]);
    ItemTagIsPlain([]);
    assert i < |before| && before[i] == StartTag(kind, []);
    forall j | i < j < |before|
      ensures !IsWrapper(before[j])
    {
      assert before[j] == all[j];
    }
  }

  // ---------------------------------------------------------------- everything else

  /** What a token is worth besides list tags: items lose their attributes, marker spans and span ends go. */
  function Shown(t: Token): seq<Token> {
    if IsWrapper(t) || StartsMarker(t) || t == EndTag("span") then []
    else if IsItemStart(t) then [StartTag("li", [])]
    else [t]
  }

  /** What stands before n outside marker spans. */
  function ShownBefore(ts: seq<Token>, n: nat): seq<Token>
    requires n <= |ts|
  {
    if n == 0 then [] else ShownBefore(ts, n - 1) + (if Hidden(ts, n - 1) then [] else Shown(ts[n - 1]))
  }

  lemma ShownIsContent(t: Token)
    ensures Shown(t) == Content(t)
  {
    if t.StartTag? {
      MarkerIs(t.tag, t.attrs);
      ItemTagIsPlain(t.attrs);
    }
    hide IsMarker, StartsMarker;
  }

  lemma ShownStep(ts: seq<Token>, n: nat)
    requires n < |ts|
    ensures Unwrapped(StateBefore(ts, n + 1).out)
         == Unwrapped(StateBefore(ts, n).out) + (if Hidden(ts, n) then [] else Shown(ts[n]))
  {
    var st := StateBefore(ts, n);
    OutputStep(ts, n);
    BeforeIsWrapped(ts, n);
    EmittedContent(st, ts[n]);
    ShownIsContent(ts[n]);
    UnwrappedConcat(st.out, Emit(st, ts[n]));
    assert Unwrapped(st.out) + [] == Unwrapped(st.out);
    hide *;
  }

  lemma NothingShown(ts: seq<Token>)
    ensures Unwrapped(StateBefore(ts, 0).out) == []
  {
    NothingBefore(ts);
  }

  lemma {:induction false} ShownIsWritten(ts: seq<Token>, n: nat)
    requires n <= |ts|
    ensures Unwrapped(StateBefore(ts, n).out) == ShownBefore(ts, n)
  {
    hide StateBefore, Hidden, Unwrapped, Shown;
    if n == 0 {
      NothingShown(ts);
    } else {
      ShownIsWritten(ts, n - 1);
      ShownStep(ts, n - 1);
    }
  }

  /** List tags aside, the output is what stands outside marker spans, in its order. */
  lemma OutputIsShown(ts: seq<Token>)
    ensures Unwrapped(Normalise(ts)) == ShownBefore(ts, |ts|)
  {
    assert ts[..|ts|] == ts;
    ShownIsWritten(ts, |ts|);
    BeforeIsWrapped(ts, |ts|);
    var st := StateBefore(ts, |ts|);
    UnwrappedConcat(st.out, Close(st.wrapper));
    UnwrappedClose(st);
    hide Unwrapped, ShownBefore, OutputWrapped, Close;
  }

  // ---------------------------------------------------------------- flat lists

  /** What follows an item of a flat list: its neighbour in the same list or in a list of its own, or the end of the list. */
  ghost predicate FollowedBy(items: seq<Item>, i: nat, after: seq<Token>)
    requires i < |items|
  {
    if i + 1 == |items| then after == [EndTag(ItemKind(items[i]))]
    else if ItemKind(items[i + 1]) == ItemKind(items[i]) then PlainItem(items[i + 1]) <= after
    else [EndTag(ItemKind(items[i])), StartTag(ItemKind(items[i + 1]), [])] + PlainItem(items[i + 1]) <= after
  }

  lemma WrittenFollows(items: seq<Item>, i: nat)
    requires i < |items|
    ensures FollowedBy(items, i, Written(items[i + 1..], Some(ItemKind(items[i]))))
  {
    hide ItemKind, PlainItem;
    var k, rest := ItemKind(items[i]), items[i + 1..];
    if rest != [] {
      assert rest[0] == items[i + 1];
      var next := ItemKind(items[i + 1]);
      var tail := Written(rest[1..], Some(next));
      assert next == k ==> [] + (PlainItem(items[i + 1]) + tail) == PlainItem(items[i + 1]) + tail;
      assert next != k ==> [EndTag(k)] + [StartTag(next, [])] + (PlainItem(items[i + 1]) + tail)
                           == [EndTag(k), StartTag(next, [])] + PlainItem(items[i + 1]) + tail;
    }
  }

  lemma {:induction false} InertHasNoItem(ts: seq<Token>)
    requires forall i :: 0 <= i < |ts| ==> Inert(ts[i])
    ensures ItemStarts(ts) == 0 && forall i :: 0 <= i < |ts| ==> !IsWrapper(ts[i])
  {
    hide StartsMarker;
    if ts != [] {
      assert Inert(ts[0]);
      InertHasNoItem(ts[1..]);
    }
  }

  lemma PlainItemIs(item: Item)
    requires IsQuillItem(item)
    ensures ItemStarts(PlainItem(item)) == 1 && forall i :: 0 <= i < |PlainItem(item)| ==> !IsWrapper(PlainItem(item)[i])
  {
    hide StartsMarker, ItemStarts, Inert;
    ItemTagIsPlain([]);
    InertHasNoItem(item.content);
    OneItemStart(StartTag("li", []));
    OneItemStart(EndTag("li"));
    ItemStartsConcat(item.content, [EndTag("li")]);
    ItemStartsConcat([StartTag("li", [])], item.content + [EndTag("li")]);
  }

  lemma OpeningEndsInside(before: seq<Token>, wrapper: Option<string>, kind: string)
    requires IsList(kind) && (wrapper.Some? ==> IsList(wrapper.value) && EndsInside(before, wrapper.value))
    ensures EndsInside(before + Opening(wrapper, kind), kind)
    ensures ItemStarts(before + Opening(wrapper, kind)) == ItemStarts(before)
  {
    var all := before + Opening(wrapper, kind);
    ItemStartsConcat(before, Opening(wrapper, kind));
    ItemTagIsPlain([]);
    OneItemStart(StartTag(kind, []));
    if wrapper == Some(kind) {
      assert all == before;
    } else {
      assert all[|all| - 1] == StartTag(kind, []);
      if wrapper.Some? {
        OneItemStart(EndTag(wrapper.value));
        ItemStartsConcat([EndTag(wrapper.value)], [StartTag(kind, [])]);
      } else {
        assert Opening(wrapper, kind) == [StartTag(kind, [])];
      }
    }
  }

  lemma PastItem(before: seq<Token>, item: Item, kind: string)
    requires EndsInside(before, kind) && IsQuillItem(item)
    ensures EndsInside(before + PlainItem(item), kind)
    ensures ItemStarts(before + PlainItem(item)) == ItemStarts(before) + 1
  {
    hide PlainItem, IsQuillItem, IsWrapper;
    PlainItemIs(item);
    ItemStartsConcat(before, PlainItem(item));
    var all := before + PlainItem(item);
    var i :| 0 <= i < |before| && before[i] == StartTag(kind, []) && forall j :: i < j < |before| ==> !IsWrapper(before[j]);
    assert all[i] == StartTag(kind, []);
    forall j | i < j < |all|
      ensures !IsWrapper(all[j])
    {
      if j < |before| {
        assert all[j] == before[j];
      } else {
        assert all[j] == PlainItem(item)[j - |before|];
      }
    }
  }

  /** Item i in what is written for the items, with `head` already there. */
  lemma {:induction false} WrittenAt(items: seq<Item>, wrapper: Option<string>, head: seq<Token>, i: nat)
    returns (before: seq<Token>)
    requires i < |items| && forall k :: 0 <= k < |items| ==> IsQuillItem(items[k])
    requires wrapper.Some? ==> IsList(wrapper.value) && EndsInside(head, wrapper.value)
    ensures head + Written(items, wrapper)
         == before + (PlainItem(items[i]) + Written(items[i + 1..], Some(ItemKind(items[i]))))
    ensures EndsInside(before, ItemKind(items[i])) && ItemStarts(before) == ItemStarts(head) + i
    decreases |items|
  {
    var kind, rest := ItemKind(items[0]), items[1..];
    ItemKindIsList(items[0]);
    OpeningEndsInside(head, wrapper, kind);
    WrittenStep(items, wrapper, head);
    var begun := head + Opening(wrapper, kind);
    hide ItemKind, PlainItem, Opening, EndsInside, IsQuillItem, ItemStarts, IsList, Written;
    if i == 0 {
      before := begun;
    } else {
      PastItem(begun, items[0], kind);
      before := WrittenAt(rest, Some(kind), begun + PlainItem(items[0]), i - 1);
      Assoc(begun, PlainItem(items[0]), Written(rest, Some(kind)));
      assert rest[i - 1] == items[i] && rest[i..] == items[i + 1..];
    }
  }

  lemma WrittenStep(items: seq<Item>, wrapper: Option<string>, head: seq<Token>)
    requires items != []
    ensures head + Written(items, wrapper) ==
      (head + Opening(wrapper, ItemKind(items[0])))
      + (PlainItem(items[0]) + Written(items[1..], Some(ItemKind(items[0]))))
  {
    hide ItemKind, PlainItem, Opening;
    Assoc(head, Opening(wrapper, ItemKind(items[0])),
          PlainItem(items[0]) + Written(items[1..], Some(ItemKind(items[0]))));
  }

  lemma ItemKindIsList(item: Item)
    ensures IsList(ItemKind(item))
  {
    hide Says;
  }

  /**
    Item i of a flat list stands in the output after i items, directly inside
    the list its data-list asks for (the <ol> around it if it asks for none),
    with its marker span gone; its neighbour shares that list exactly when it
    asks for the same, and otherwise opens its own.
   */
  lemma FlatItemStands(items: seq<Item>, i: nat) returns (before: seq<Token>, after: seq<Token>)
    requires i < |items| && forall k :: 0 <= k < |items| ==> IsQuillItem(items[k])
    ensures Normalise(FlatList(items)) == before + PlainItem(items[i]) + after
    ensures EndsInside(before, AskedFor(items[i].attrs).GetOr("ol")) && ItemStarts(before) == i
    ensures FollowedBy(items, i, after)
  {
    FlatListNormalises(items);
    WrittenFromNothing(items);
    WrittenFollows(items, i);
    assert ItemStarts([]) == 0;
    before := WrittenAt(items, None, [], i);
    after := Written(items[i + 1..], Some(ItemKind(items[i])));
    Empty(Written(items, None));
    Assoc(before, PlainItem(items[i]), after);
    assert ItemKind(items[i]) == AskedFor(items[i].attrs).GetOr("ol");
    hide *;
  }
}
