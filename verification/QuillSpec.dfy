/**
  The list normaliser as a function on token streams, and what its output is:
  properly wrapped lists, the source's own content in its own order, and for a
  flat Quill list one wrapper around each maximal run of items of one kind.
 */
module QuillSpec {
  import opened Wrappers
  import opened HtmlTokens

  /** The start of an injected marker span. */
  predicate IsMarker(tag: string, attrs: seq<Attr>) {
    tag == "span" && match Get(attrs, "class") case Some(Some(c)) => Contains(c, "ql-ui") case _ => false
  }

  datatype NormState = NormState(out: seq<Token>, skipDepth: nat, sources: seq<string>, wrapper: Option<string>)

  const INITIAL := NormState([], 0, [], None)

  /** The list an item belongs to: its data-list, or else the innermost source list, or else a bullet list. */
  function KindOf(attrs: seq<Attr>, sources: seq<string>): string {
    match Get(attrs, "data-list")
    case Some(Some("bullet")) => "ul"
    case Some(Some("ordered")) => "ol"
    case _ => if sources != [] then sources[|sources| - 1] else "ul"
  }

  function Close(wrapper: Option<string>): seq<Token> {
    match wrapper case None => [] case Some(tag) => [EndTag(tag)]
  }

  /** How many marker spans are open after a token; any span end inside one closes it. */
  function Depth(d: nat, t: Token): nat {
    match t
    case StartTag(tag, attrs) => if IsMarker(tag, attrs) then d + 1 else d
    case EndTag(tag) => if tag == "span" && d > 0 then d - 1 else d
    case _ => d
  }

  /** The list wrapper open after a token outside marker spans. */
  function WrapperAfter(st: NormState, t: Token): Option<string> {
    match t
    case StartTag(tag, attrs) => if tag == "li" then Some(KindOf(attrs, st.sources)) else st.wrapper
    case EndTag(tag) => if IsList(tag) then None else st.wrapper
    case _ => st.wrapper
  }

  /** The lists of the source open after a token outside marker spans. */
  function SourcesAfter(sources: seq<string>, t: Token): seq<string> {
    match t
    case StartTag(tag, attrs) => if IsList(tag) then sources + [tag] else sources
    case EndTag(tag) => if IsList(tag) && sources != [] then sources[..|sources| - 1] else sources
    case _ => sources
  }

  /** What a token outside marker spans adds to the output. */
  function Emit(st: NormState, t: Token): seq<Token> {
    match t
    case StartTag(tag, attrs) =>
      if IsMarker(tag, attrs) || IsList(tag) then []
      else if tag == "li" then
        var kind := KindOf(attrs, st.sources);
        if st.wrapper == Some(kind) then [StartTag("li", [])]
        else Close(st.wrapper) + [StartTag(kind, []), StartTag("li", [])]
      else [t]
    case EndTag(tag) => if tag == "span" then [] else if IsList(tag) then Close(st.wrapper) else [t]
    case _ => [t]
  }

  function Step(st: NormState, t: Token): NormState {
    if st.skipDepth > 0 then st.(skipDepth := Depth(st.skipDepth, t))
    else NormState(st.out + Emit(st, t), Depth(0, t), SourcesAfter(st.sources, t), WrapperAfter(st, t))
  }

  function Run(st: NormState, ts: seq<Token>): NormState
    decreases |ts|
  {
    if ts == [] then st else Run(Step(st, ts[0]), ts[1..])
  }

  function Normalise(ts: seq<Token>): seq<Token> {
    var st := Run(INITIAL, ts);
    st.out + Close(st.wrapper)
  }

  lemma {:induction false} RunConcat(st: NormState, a: seq<Token>, b: seq<Token>)
    ensures Run(st, a + b) == Run(Run(st, a), b)
    decreases |a|
  {
    hide Step;
    if a == [] {
      assert a + b == b;
    } else {
      assert (a + b)[0] == a[0] && (a + b)[1..] == a[1..] + b;
      RunConcat(Step(st, a[0]), a[1..], b);
    }
  }

  // ---------------------------------------------------------------- canonical streams

  /** Where a reader of properly wrapped lists stands. */
  datatype Place = Outside | Opened(kind: string) | Inside(kind: string) | Broken

  /**
    Properly wrapped: list wrappers carry no attributes, never nest, and are
    directly followed by an item; items carry no attributes and appear only
    inside a wrapper; no marker span and no span end is left.
   */
  function Advance(p: Place, t: Token): Place {
    if p == Broken then Broken
    else if p.Opened? then (if t == StartTag("li", []) then Inside(p.kind) else Broken)
    else
      match t
      case StartTag(tag, attrs) =>
        if IsMarker(tag, attrs) then Broken
        else if IsList(tag) then (if p == Outside && attrs == [] then Opened(tag) else Broken)
        else if tag == "li" then (if p.Inside? && attrs == [] then p else Broken)
        else p
      case EndTag(tag) =>
        if tag == "span" then Broken
        else if IsList(tag) then (if p == Inside(tag) then Outside else Broken)
        else p
      case _ => p
  }

  function Scan(p: Place, ts: seq<Token>): Place
    decreases |ts|
  {
    if ts == [] then p else Scan(Advance(p, ts[0]), ts[1..])
  }

  predicate Canonical(ts: seq<Token>) {
    Scan(Outside, ts) == Outside
  }

  lemma {:induction false} ScanConcat(p: Place, a: seq<Token>, b: seq<Token>)
    ensures Scan(p, a + b) == Scan(Scan(p, a), b)
    decreases |a|
  {
    hide Advance;
    if a == [] {
      assert a + b == b;
    } else {
      assert (a + b)[0] == a[0] && (a + b)[1..] == a[1..] + b;
      ScanConcat(Advance(p, a[0]), a[1..], b);
    }
  }

  lemma {:induction false} BrokenStays(ts: seq<Token>)
    ensures Scan(Broken, ts) == Broken
    decreases |ts|
  {
    if ts != [] {
      BrokenStays(ts[1..]);
    }
  }

  /** Where the output written so far leaves its reader. */
  function PlaceOf(wrapper: Option<string>): Place {
    match wrapper case None => Outside case Some(kind) => Inside(kind)
  }

  ghost predicate OutputWrapped(st: NormState) {
    && Scan(Outside, st.out) == PlaceOf(st.wrapper)
    && (st.wrapper.Some? ==> IsList(st.wrapper.value))
    && forall i :: 0 <= i < |st.sources| ==> IsList(st.sources[i])
  }

  lemma ScanOne(p: Place, t: Token)
    ensures Scan(p, [t]) == Advance(p, t)
  {
    hide Advance;
    assert [t][1..] == [];
    assert Scan(Advance(p, t), [t][1..]) == Advance(p, t);
  }

  lemma ItemIsNoMarker()
    ensures !IsMarker("li", []) && !IsMarker("ul", []) && !IsMarker("ol", [])
  {
  }

  lemma KindIsList(st: NormState, attrs: seq<Attr>)
    requires OutputWrapped(st)
    ensures IsList(KindOf(attrs, st.sources))
  {
  }

  lemma ScanEmitted(st: NormState, t: Token)
    requires OutputWrapped(st) && !(t.StartTag? && IsMarker(t.tag, t.attrs))
    ensures Scan(PlaceOf(st.wrapper), Emit(st, t)) == PlaceOf(WrapperAfter(st, t))
  {
    ItemIsNoMarker();
    ScanOne(PlaceOf(st.wrapper), t);
    if st.wrapper.Some? {
      ScanOne(PlaceOf(st.wrapper), EndTag(st.wrapper.value));
    }
    if t.StartTag? && t.tag == "li" {
      var kind := KindOf(t.attrs, st.sources);
      KindIsList(st, t.attrs);
      ScanOne(PlaceOf(st.wrapper), StartTag("li", []));
      var open := [StartTag(kind, []), StartTag("li", [])];
      assert open[1..] == [StartTag("li", [])];
      ScanOne(Opened(kind), StartTag("li", []));
      ScanConcat(PlaceOf(st.wrapper), Close(st.wrapper), open);
    }
  }

  lemma StepKeepsWrapped(st: NormState, t: Token)
    requires OutputWrapped(st)
    ensures OutputWrapped(Step(st, t))
  {
    if st.skipDepth == 0 {
      if t.StartTag? && IsMarker(t.tag, t.attrs) {
        assert st.out + [] == st.out;
      } else {
        ScanEmitted(st, t);
        ScanConcat(Outside, st.out, Emit(st, t));
        hide Scan, Emit, KindOf, IsMarker;
        if t.StartTag? && t.tag == "li" {
          KindIsList(st, t.attrs);
        }
      }
    }
  }

  lemma {:induction false} RunKeepsWrapped(st: NormState, ts: seq<Token>)
    requires OutputWrapped(st)
    ensures OutputWrapped(Run(st, ts))
    decreases |ts|
  {
    hide OutputWrapped, Step;
    if ts != [] {
      StepKeepsWrapped(st, ts[0]);
      RunKeepsWrapped(Step(st, ts[0]), ts[1..]);
    }
  }

  /** Whatever the input, the output is properly wrapped. */
  lemma OutputIsCanonical(ts: seq<Token>)
    ensures Canonical(Normalise(ts))
  {
    RunKeepsWrapped(INITIAL, ts);
    var st := Run(INITIAL, ts);
    ScanConcat(Outside, st.out, Close(st.wrapper));
    if st.wrapper.Some? {
      ScanOne(PlaceOf(st.wrapper), EndTag(st.wrapper.value));
    }
  }

  // ---------------------------------------------------------------- canonical streams are fixpoints

  /** The normaliser's state after it has read a canonical prefix and reproduced it. */
  function StateAt(p: Place, read: seq<Token>): NormState
    requires p.Opened? ==> read != []
  {
    match p
    case Opened(kind) => NormState(read[..|read| - 1], 0, [kind], None)
    case Inside(kind) => NormState(read, 0, [kind], Some(kind))
    case _ => NormState(read, 0, [], None)
  }

  ghost predicate Reproduces(p: Place, read: seq<Token>) {
    && p != Broken
    && (p.Opened? ==> IsList(p.kind) && read != [] && read[|read| - 1] == StartTag(p.kind, []))
    && (p.Inside? ==> IsList(p.kind))
  }

  lemma ReproduceStep(p: Place, read: seq<Token>, t: Token)
    requires Reproduces(p, read) && Advance(p, t) != Broken
    ensures Reproduces(Advance(p, t), read + [t])
    ensures Step(StateAt(p, read), t) == StateAt(Advance(p, t), read + [t])
  {
    ItemIsNoMarker();
    assert (read + [t])[..|read|] == read;
    if p.Opened? {
      assert KindOf([], [p.kind]) == p.kind;
      assert read[..|read| - 1] + [] + [StartTag(p.kind, []), StartTag("li", [])] == read + [t];
    } else if p.Inside? {
      assert KindOf([], [p.kind]) == p.kind;
      assert [p.kind][..0] == [];
    }
  }

  lemma {:induction false} ReproduceRun(p: Place, read: seq<Token>, ts: seq<Token>)
    requires Reproduces(p, read) && Scan(p, ts) == Outside
    ensures Run(StateAt(p, read), ts) == StateAt(Outside, read + ts)
    decreases |ts|
  {
    hide Advance, Step;
    if ts == [] {
      assert read + ts == read;
    } else {
      var t := ts[0];
      if Advance(p, t) == Broken {
        BrokenStays(ts[1..]);
      }
      ReproduceStep(p, read, t);
      ReproduceRun(Advance(p, t), read + [t], ts[1..]);
      assert read + [t] + ts[1..] == read + ts;
    }
  }

  /** The streams the normaliser leaves as they are are exactly the properly wrapped ones. */
  lemma FixpointIff(ts: seq<Token>)
    ensures Normalise(ts) == ts <==> Canonical(ts)
  {
    if Canonical(ts) {
      ReproduceRun(Outside, [], ts);
      assert [] + ts == ts;
    }
    OutputIsCanonical(ts);
  }

  /** Normalising twice is normalising once, for every token stream. */
  lemma NormaliseIdempotent(ts: seq<Token>)
    ensures Normalise(Normalise(ts)) == Normalise(ts)
  {
    OutputIsCanonical(ts);
    FixpointIff(Normalise(ts));
  }

  // ---------------------------------------------------------------- nothing else is lost, added or moved

  /** What one token outside marker spans contributes besides list wrappers. */
  function Content(t: Token): seq<Token> {
    match t
    case StartTag(tag, attrs) =>
      if IsMarker(tag, attrs) || IsList(tag) then [] else if tag == "li" then [StartTag("li", [])] else [t]
    case EndTag(tag) => if tag == "span" || IsList(tag) then [] else [t]
    case _ => [t]
  }

  /** The content of a stream read with d marker spans open. */
  function Kept(d: nat, ts: seq<Token>): seq<Token>
    decreases |ts|
  {
    if ts == [] then [] else (if d > 0 then [] else Content(ts[0])) + Kept(Depth(d, ts[0]), ts[1..])
  }

  predicate IsWrapper(t: Token) {
    match t
    case StartTag(tag, _) => IsList(tag)
    case EndTag(tag) => IsList(tag)
    case _ => false
  }

  function Unwrapped(ts: seq<Token>): seq<Token> {
    if ts == [] then [] else (if IsWrapper(ts[0]) then [] else [ts[0]]) + Unwrapped(ts[1..])
  }

  lemma {:induction false} UnwrappedConcat(a: seq<Token>, b: seq<Token>)
    ensures Unwrapped(a + b) == Unwrapped(a) + Unwrapped(b)
  {
    hide IsWrapper;
    if a == [] {
      assert a + b == b;
    } else {
      assert (a + b)[0] == a[0] && (a + b)[1..] == a[1..] + b;
      UnwrappedConcat(a[1..], b);
    }
  }

  lemma UnwrappedOne(t: Token)
    ensures Unwrapped([t]) == if IsWrapper(t) then [] else [t]
  {
    hide IsWrapper;
    assert [t][1..] == [];
    assert Unwrapped([t][1..]) == [];
  }

  lemma UnwrappedClose(st: NormState)
    requires st.wrapper.Some? ==> IsList(st.wrapper.value)
    ensures Unwrapped(Close(st.wrapper)) == []
  {
    if st.wrapper.Some? {
      UnwrappedOne(EndTag(st.wrapper.value));
    }
  }

  lemma EmittedContent(st: NormState, t: Token)
    requires OutputWrapped(st)
    ensures Unwrapped(Emit(st, t)) == Content(t)
  {
    UnwrappedOne(t);
    UnwrappedClose(st);
    if t.StartTag? && t.tag == "li" {
      var kind, li := KindOf(t.attrs, st.sources), StartTag("li", []);
      KindIsList(st, t.attrs);
      UnwrappedOne(li);
      UnwrappedOne(StartTag(kind, []));
      assert [StartTag(kind, []), li] == [StartTag(kind, [])] + [li];
      UnwrappedConcat([StartTag(kind, [])], [li]);
      UnwrappedConcat(Close(st.wrapper), [StartTag(kind, []), li]);
    }
  }

  lemma {:induction false} RunKeepsContent(st: NormState, ts: seq<Token>)
    requires OutputWrapped(st)
    ensures Unwrapped(Run(st, ts).out) == Unwrapped(st.out) + Kept(st.skipDepth, ts)
    decreases |ts|
  {
    hide OutputWrapped, Unwrapped, Depth, Content, Emit, SourcesAfter, WrapperAfter;
    if ts != [] {
      StepKeepsWrapped(st, ts[0]);
      if st.skipDepth == 0 {
        EmittedContent(st, ts[0]);
        UnwrappedConcat(st.out, Emit(st, ts[0]));
      }
      RunKeepsContent(Step(st, ts[0]), ts[1..]);
    }
  }

  /** Apart from list wrappers the output is exactly the content outside marker spans, in order. */
  lemma ContentPreserved(ts: seq<Token>)
    ensures Unwrapped(Normalise(ts)) == Kept(0, ts)
  {
    RunKeepsContent(INITIAL, ts);
    RunKeepsWrapped(INITIAL, ts);
    var st := Run(INITIAL, ts);
    UnwrappedConcat(st.out, Close(st.wrapper));
    UnwrappedClose(st);
  }
}
