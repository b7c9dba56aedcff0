/** The binding layer between the handle-based component API and the Graphviz
    engine: the handle table, the destructors, and every exported operation with
    its error-merging and cleanup protocol. */
module Component {
  import opened Wrappers
  import opened CString
  import opened Diagnostics
  import opened Engine
  import opened Marshal

  /** The value the layer installs as the prototype graph's default node label:
      `\N`, the engine's node-name placeholder. */
  const NODE_NAME_PLACEHOLDER := "\\N"
  const READ_UNKNOWN := "Failed to read graph: unknown error."
  const RENDER_NO_DATA := "Failed to render graph: no data returned."
  const READ_DOT_FAILED := "Failed to read graph from DOT string."
  const LAYOUT_FAILED := "Layout failed."
  const RENDER_FAILED := "Render failed."
  const NO_CONTEXT := "Error: Could not create Graphviz context."

  /** The attribute defaults after `agattr(NULL, AGNODE, "label", "\\N")`: the
      prototype graph's node label default is the placeholder, every other
      default stays as it was. */
  function WithLabelWorkaround(defaults: map<(Ptr, Kind, seq<char>), AttrText>): (r: map<(Ptr, Kind, seq<char>), AttrText>)
    ensures (NULL, AGNODE, "label") in r && r[(NULL, AGNODE, "label")] == AttrText(NODE_NAME_PLACEHOLDER, false)
    ensures forall k :: k in r <==> k in defaults || k == (NULL, AGNODE, "label")
    ensures forall k :: k in defaults && k != (NULL, AGNODE, "label") ==> r[k] == defaults[k]
  {
    defaults[(NULL, AGNODE, "label") := AttrText(NODE_NAME_PLACEHOLDER, false)]
  }

  /** Installing the label default twice is the same as installing it once. */
  lemma LabelWorkaroundIdempotent(defaults: map<(Ptr, Kind, seq<char>), AttrText>)
    ensures WithLabelWorkaround(WithLabelWorkaround(defaults)) == WithLabelWorkaround(defaults)
  {
  }

  // ---------------------------------------------------------------------------
  // Handles and their resources

  /** What a component handle wraps. A graph handle records whether it owns its
      graph; nodes and edges are always borrowed views. */
  datatype Resource = GraphRes(rep: Ptr, owning: bool) | ContextRes(rep: Ptr) | NodeRes(rep: Ptr) | EdgeRes(rep: Ptr)

  /** The handle's destructor releases an engine resource. */
  predicate Owns(r: Resource) {
    ((r.GraphRes? && r.owning) || r.ContextRes?) && r.rep != NULL
  }

  predicate SameKind(r1: Resource, r2: Resource) {
    r1.GraphRes? == r2.GraphRes? && r1.ContextRes? == r2.ContextRes?
  }

  /** Every owning handle can be released exactly once: an owning graph handle
      wraps a live root graph, a context handle a live, unfinalized context, and no
      two owning handles wrap the same resource. */
  predicate OwnershipSound(handles: map<nat, Resource>, graphs: map<Ptr, GraphInfo>, contexts: map<Ptr, bool>) {
    && (forall h :: h in handles && Owns(handles[h]) && handles[h].GraphRes? ==> IsRoot(graphs, handles[h].rep))
    && (forall h :: h in handles && Owns(handles[h]) && handles[h].ContextRes? ==>
          handles[h].rep in contexts && !contexts[handles[h].rep])
    && (forall h1, h2 ::
          (h1 in handles && h2 in handles && h1 != h2 && Owns(handles[h1]) && Owns(handles[h2]) && SameKind(handles[h1], handles[h2]))
          ==> handles[h1].rep != handles[h2].rep)
  }

  /** What dropping a handle leaves of the graph table: an owning graph handle
      closes its graph. */
  function ReleaseGraphs(graphs: map<Ptr, GraphInfo>, r: Resource): map<Ptr, GraphInfo> {
    if Owns(r) && r.GraphRes? then CloseGraphs(graphs, r.rep) else graphs
  }

  /** What dropping a handle leaves of the context table: a context handle
      finalizes and frees its context. */
  function ReleaseContexts(contexts: map<Ptr, bool>, r: Resource): map<Ptr, bool> {
    if Owns(r) && r.ContextRes? then contexts - {r.rep} else contexts
  }

  /** Dropping a handle changes the engine's tables exactly when the handle owns
      its resource, and an owned resource is gone afterwards. */
  lemma ReleaseChangesIffOwns(graphs: map<Ptr, GraphInfo>, contexts: map<Ptr, bool>, r: Resource)
    requires Owns(r) && r.GraphRes? ==> r.rep in graphs
    requires Owns(r) && r.ContextRes? ==> r.rep in contexts
    ensures ReleaseGraphs(graphs, r) != graphs || ReleaseContexts(contexts, r) != contexts <==> Owns(r)
    ensures Owns(r) && r.GraphRes? ==> r.rep !in ReleaseGraphs(graphs, r)
    ensures Owns(r) && r.ContextRes? ==> r.rep !in ReleaseContexts(contexts, r)
  {
    if Owns(r) && r.GraphRes? {
      assert r.rep in graphs && r.rep !in ReleaseGraphs(graphs, r);
    } else if Owns(r) {
      assert r.rep in contexts && r.rep !in ReleaseContexts(contexts, r);
    }
  }

  /** Dropping one handle of a sound table is allowed, and what remains is sound. */
  lemma {:induction false} ReleaseKeepsSound(handles: map<nat, Resource>, graphs: map<Ptr, GraphInfo>, contexts: map<Ptr, bool>, h: nat)
    requires OwnershipSound(handles, graphs, contexts) && h in handles
    ensures Owns(handles[h]) && handles[h].GraphRes? ==> handles[h].rep in graphs
    ensures Owns(handles[h]) && handles[h].ContextRes? ==> handles[h].rep in contexts
    ensures OwnershipSound(handles - {h}, ReleaseGraphs(graphs, handles[h]), ReleaseContexts(contexts, handles[h]))
  {
    var r := handles[h];
    var rest := handles - {h};
    var graphs2, contexts2 := ReleaseGraphs(graphs, r), ReleaseContexts(contexts, r);
    if Owns(r) && r.GraphRes? {
      forall k | k in rest && Owns(rest[k]) && rest[k].GraphRes?
        ensures IsRoot(graphs2, rest[k].rep)
      {
        assert SameKind(handles[k], r);
        CloseKeepsOtherRoots(graphs, r.rep, rest[k].rep);
      }
    } else if Owns(r) {
      forall k | k in rest && Owns(rest[k]) && rest[k].ContextRes?
        ensures rest[k].rep in contexts2 && !contexts2[rest[k].rep]
      {
        assert SameKind(handles[k], r);
      }
    }
  }

  /** An owning handle for a root just added at an address that held no graph
      joins a sound table. */
  lemma AddRootKeepsSound(handles: map<nat, Resource>, graphs: map<Ptr, GraphInfo>, contexts: map<Ptr, bool>, h: nat, g: Ptr, info: GraphInfo)
    requires OwnershipSound(handles, graphs, contexts) && h !in handles && g !in graphs && info.ancestors == {}
    ensures OwnershipSound(handles[h := GraphRes(g, true)], graphs[g := info], contexts)
  {
    SoundAfterAdd(handles, graphs, contexts, g, info);
    forall k | k in handles && Owns(handles[k]) && handles[k].GraphRes?
      ensures handles[k].rep != g
    {
      assert IsRoot(graphs, handles[k].rep);
    }
  }

  /** A handle that owns nothing joins a sound table. */
  lemma AddBorrowedKeepsSound(handles: map<nat, Resource>, graphs: map<Ptr, GraphInfo>, contexts: map<Ptr, bool>, h: nat, r: Resource)
    requires OwnershipSound(handles, graphs, contexts) && h !in handles && !Owns(r)
    ensures OwnershipSound(handles[h := r], graphs, contexts)
  {
  }

  /** A graph added at an address that held none keeps the handle table sound. */
  lemma SoundAfterAdd(handles: map<nat, Resource>, graphs: map<Ptr, GraphInfo>, contexts: map<Ptr, bool>, g: Ptr, info: GraphInfo)
    requires OwnershipSound(handles, graphs, contexts) && g !in graphs
    ensures OwnershipSound(handles, graphs[g := info], contexts)
  {
    forall h | h in handles && Owns(handles[h]) && handles[h].GraphRes?
      ensures IsRoot(graphs[g := info], handles[h].rep)
    {
      assert IsRoot(graphs, handles[h].rep);
    }
  }

  /** A new context handle for a context at an unused address keeps a table sound. */
  lemma AddContextKeepsSound(handles: map<nat, Resource>, graphs: map<Ptr, GraphInfo>, contexts: map<Ptr, bool>, h: nat, c: Ptr)
    requires OwnershipSound(handles, graphs, contexts) && h !in handles
    requires c == NULL || c !in contexts
    ensures c == NULL ==> OwnershipSound(handles[h := ContextRes(c)], graphs, contexts)
    ensures c != NULL ==> OwnershipSound(handles[h := ContextRes(c)], graphs, contexts[c := false])
  {
    if c != NULL {
      var contexts2 := contexts[c := false];
      var t := handles[h := ContextRes(c)];
      forall k | k in t && Owns(t[k]) && t[k].ContextRes?
        ensures t[k].rep in contexts2 && !contexts2[t[k].rep]
      {
        if k != h {
          assert k in handles;
        }
      }
    }
  }

  // ---------------------------------------------------------------------------
  // Error text: what the reset channel holds after a sequence of engine calls

  /** Diagnostics reported by successive engine calls accumulate in one channel. */
  lemma {:induction false} CapturedConcat(a: seq<Diag>, b: seq<Diag>)
    ensures Feed(Captured(a), Texts(b)) == Captured(a + b)
  {
    assert Texts(a + b) == Texts(a) + Texts(b);
    FeedConcat([], Texts(a), Texts(b));
  }

  /** A captured text is bounded by the channel's capacity. */
  lemma CapturedBounded(ds: seq<Diag>)
    ensures |Captured(ds)| < MAX_ERROR_MESSAGE_LENGTH
  {
    FeedBounded([], Texts(ds));
  }

  /** Something is captured exactly when one diagnostic is non-empty and fits the
      channel on its own. */
  lemma CapturedIffFits(ds: seq<Diag>)
    ensures Captured(ds) != [] <==> exists i :: 0 <= i < |ds| && Fits(ds[i].text)
  {
    CapturedIff(Texts(ds));
    if exists i :: 0 <= i < |Texts(ds)| && Fits(Texts(ds)[i]) {
      var i :| 0 <= i < |Texts(ds)| && Fits(Texts(ds)[i]);
      assert Fits(ds[i].text);
    }
  }

  /** `cond ? captured : fallback` as the layer writes it. */
  function Fallback(captured: seq<char>, otherwise: seq<char>): (m: seq<char>)
    ensures otherwise != [] ==> m != []
    ensures captured != [] ==> m == captured
  {
    if |captured| > 0 then captured else otherwise
  }

  // ---------------------------------------------------------------------------
  // read_one_graph

  /** The steps the drain loop of `read_one_graph` consumes: every following read
      up to and including the first that yields no graph, or all of them. */
  function Drained(rest: seq<ParseStep>): (d: seq<ParseStep>)
    ensures |d| <= |rest| && d == rest[..|d|]
    ensures forall i :: 0 <= i < |d| - 1 ==> d[i].result.Some?
    ensures (forall i :: 0 <= i < |rest| ==> rest[i].result.Some?) <==> d == rest && (d == [] || d[|d| - 1].result.Some?)
  {
    if rest == [] then []
    else if rest[0].result.None? then [rest[0]]
    else [rest[0]] + Drained(rest[1..])
  }

  /** The drain loop stops after the first read that yields nothing. */
  lemma {:induction false} DrainedStopsAt(rest: seq<ParseStep>, k: nat)
    requires k <= |rest| && forall i :: 0 <= i < k ==> rest[i].result.Some?
    ensures k == |rest| ==> Drained(rest) == rest
    ensures k < |rest| && rest[k].result.None? ==> Drained(rest) == rest[..k + 1]
    decreases k
  {
    if k > 0 {
      DrainedStopsAt(rest[1..], k - 1);
      assert rest == [rest[0]] + rest[1..];
      assert k < |rest| ==> rest[..k + 1] == [rest[0]] + rest[1..][..k];
    } else if k < |rest| && rest[0].result.None? {
      assert rest[..1] == [rest[0]];
    }
  }

  /** The diagnostics of a sequence of reads, in order. */
  function DiagsOf(steps: seq<ParseStep>): seq<Diag>
    decreases |steps|
  {
    if steps == [] then [] else DiagsOf(steps[..|steps| - 1]) + steps[|steps| - 1].diags
  }

  lemma DiagsOfWellFormed(steps: seq<ParseStep>)
    requires StepsWellFormed(steps)
    ensures WellFormed(DiagsOf(steps))
    decreases |steps|
  {
    if steps != [] {
      DiagsOfWellFormed(steps[..|steps| - 1]);
    }
  }

  lemma DiagsOfSnoc(steps: seq<ParseStep>, s: ParseStep)
    ensures DiagsOf(steps + [s]) == DiagsOf(steps) + s.diags
  {
    assert (steps + [s])[..|steps|] == steps;
  }

  /** One more read in the drain loop extends what it has consumed and the text it
      has captured. */
  lemma DrainStep(rest: seq<ParseStep>, consumed: seq<ParseStep>, text0: seq<char>)
    requires |consumed| < |rest| && consumed == rest[..|consumed|]
    ensures rest[..|consumed| + 1] == consumed + [rest[|consumed|]]
    ensures rest[|consumed|..][1..] == rest[|consumed| + 1..]
    ensures Feed(Feed(text0, Texts(DiagsOf(consumed))), Texts(rest[|consumed|].diags))
      == Feed(text0, Texts(DiagsOf(rest[..|consumed| + 1])))
  {
    var step := rest[|consumed|];
    assert rest[..|consumed| + 1] == consumed + [step];
    DiagsOfSnoc(consumed, step);
    assert Texts(DiagsOf(consumed) + step.diags) == Texts(DiagsOf(consumed)) + Texts(step.diags);
    FeedConcat(text0, Texts(DiagsOf(consumed)), Texts(step.diags));
  }

  /** One read of the drain loop, on values: the loop state after the read, and
      whether the loop is over. */
  lemma DrainAdvance(rest: seq<ParseStep>, consumed: seq<ParseStep>, text0: seq<char>, pending0: seq<ParseStep>,
                     pending1: seq<ParseStep>, before: seq<char>, after: seq<char>, got: bool)
    requires |consumed| <= |rest| && consumed == rest[..|consumed|] && pending0 == rest[|consumed|..]
    requires forall i :: 0 <= i < |consumed| ==> consumed[i].result.Some?
    requires before == Feed(text0, Texts(DiagsOf(consumed)))
    requires pending0 == [] ==> !got && pending1 == [] && after == before
    requires pending0 != [] ==>
      && pending1 == pending0[1..] && (got <==> pending0[0].result.Some?)
      && after == Feed(before, Texts(pending0[0].diags))
    ensures var consumed2 := if pending0 == [] then consumed else rest[..|consumed| + 1];
      && |consumed2| <= |rest| && consumed2 == rest[..|consumed2|] && pending1 == rest[|consumed2|..]
      && after == Feed(text0, Texts(DiagsOf(consumed2)))
      && (!got ==> consumed2 == Drained(rest))
      && (got ==> forall i :: 0 <= i < |consumed2| ==> consumed2[i].result.Some?)
  {
    if pending0 == [] {
      assert rest[..|consumed|] == rest;
      DrainedStopsAt(rest, |consumed|);
    } else {
      DrainStep(rest, consumed, text0);
      if !got {
        DrainedStopsAt(rest, |consumed|);
      }
    }
  }

  /** Every diagnostic `read_one_graph` sees: the first read's and the drain loop's. */
  function ReadDiags(steps: seq<ParseStep>): seq<Diag> {
    if steps == [] then [] else steps[0].diags + DiagsOf(Drained(steps[1..]))
  }

  /** The channel after the first read and the drain holds the captured
      diagnostics of the whole input. */
  lemma ReadTextSplit(steps: seq<ParseStep>, consumed: seq<ParseStep>)
    requires consumed == Drained(if steps == [] then [] else steps[1..])
    ensures Feed(Captured(if steps == [] then [] else steps[0].diags), Texts(DiagsOf(consumed))) == Captured(ReadDiags(steps))
  {
    if steps == [] {
      assert consumed == [];
    } else {
      CapturedConcat(steps[0].diags, DiagsOf(consumed));
    }
  }

  /** The outcome `read_one_graph` reports for an input whose successive reads are
      `steps`. */
  function ReadOneVerdict(steps: seq<ParseStep>): Result<Parsed> {
    var captured := Captured(ReadDiags(steps));
    if |captured| > 0 then Err(captured)
    else if steps == [] || steps[0].result.None? then Err(READ_UNKNOWN)
    else Ok(steps[0].result.value)
  }

  /** `read_one_graph` fails exactly when the first read yields nothing or some
      diagnostic of any read reaches the channel; its error is then never empty and
      fits the channel; on success the graph is the first one read. */
  lemma ReadOneFailsIff(steps: seq<ParseStep>)
    ensures ReadOneVerdict(steps).Err? <==>
      steps == [] || steps[0].result.None? || exists i :: 0 <= i < |ReadDiags(steps)| && Fits(ReadDiags(steps)[i].text)
    ensures ReadOneVerdict(steps).Err? ==> ReadOneVerdict(steps).msg != [] && |ReadOneVerdict(steps).msg| < MAX_ERROR_MESSAGE_LENGTH
    ensures ReadOneVerdict(steps).Ok? ==> steps != [] && steps[0].result == Some(ReadOneVerdict(steps).value)
  {
    CapturedIffFits(ReadDiags(steps));
    CapturedBounded(ReadDiags(steps));
  }

  /** A diagnostic too long for the channel is dropped, so a graph with only such
      diagnostics is read successfully. */
  lemma ReadOneIgnoresOversizedDiagnostic(p: Parsed, text: seq<char>)
    requires |text| + 1 >= MAX_ERROR_MESSAGE_LENGTH
    ensures ReadOneVerdict([ParseStep([Diag(AGERR, text)], Some(p))]) == Ok(p)
  {
    var steps := [ParseStep([Diag(AGERR, text)], Some(p))];
    assert Drained(steps[1..]) == [];
    assert ReadDiags(steps) == [Diag(AGERR, text)];
    assert Texts(ReadDiags(steps)) == [text];
    assert Feed([], [text]) == Append(Feed([], []), text);
  }

  // ---------------------------------------------------------------------------
  // layout

  /** The outcome `layout` reports: failure on a non-zero status or on any captured
      diagnostic, with the captured text as the error. */
  function LayoutVerdict(run: LayoutRun): Result<()> {
    var captured := Captured(run.diags);
    if run.status != 0 || |captured| > 0 then Err(captured) else Ok(())
  }

  /** `layout` fails exactly when the engine fails or a diagnostic reaches the channel. */
  lemma LayoutFailsIff(run: LayoutRun)
    ensures LayoutVerdict(run).Err? <==> run.status != 0 || exists i :: 0 <= i < |run.diags| && Fits(run.diags[i].text)
    ensures LayoutVerdict(run).Err? ==> LayoutVerdict(run).msg == Captured(run.diags)
  {
    CapturedIffFits(run.diags);
  }

  /** A failing layout with nothing captured is reported with an empty error. */
  lemma LayoutCanFailSilently()
    ensures LayoutVerdict(LayoutRun([], 1, false)) == Err([])
  {
  }

  /** The outcome with the fallback message `render_dot` uses for the same stage. */
  function LayoutReportedVerdict(run: LayoutRun): Result<()> {
    var captured := Captured(run.diags);
    if run.status != 0 || |captured| > 0 then Err(Fallback(captured, LAYOUT_FAILED)) else Ok(())
  }

  /** With the fallback, `layout` fails in the same cases, keeps any captured text,
      and never reports an empty error. */
  lemma LayoutReportedErrNonEmpty(run: LayoutRun)
    ensures LayoutReportedVerdict(run).Err? <==> LayoutVerdict(run).Err?
    ensures LayoutReportedVerdict(run).Err? ==> LayoutReportedVerdict(run).msg != []
    ensures Captured(run.diags) != [] ==> LayoutReportedVerdict(run) == LayoutVerdict(run)
  {
  }

  // ---------------------------------------------------------------------------
  // render

  /** The outcome `render` reports. */
  function RenderVerdict(run: RenderRun): Result<seq<char>> {
    var captured := Captured(run.diags);
    if run.status != 0 || |captured| > 0 then Err(captured)
    else if run.data.None? then Err(RENDER_NO_DATA)
    else Ok(CView(run.data.value))
  }

  /** `render` fails exactly on a non-zero status, on a captured diagnostic or on
      missing data; missing data alone is reported as such; on success the output
      is the engine's data, cut at its first NUL. */
  lemma RenderFailsIff(run: RenderRun)
    ensures RenderVerdict(run).Err? <==>
      run.status != 0 || run.data.None? || exists i :: 0 <= i < |run.diags| && Fits(run.diags[i].text)
    ensures run.status == 0 && Captured(run.diags) == [] && run.data.None? ==> RenderVerdict(run) == Err(RENDER_NO_DATA)
    ensures RenderVerdict(run).Ok? ==> run.data.Some? && RenderVerdict(run).value <= run.data.value
    ensures RenderVerdict(run).Ok? ==> (RenderVerdict(run).value == run.data.value <==> NoNul(run.data.value))
  {
    CapturedIffFits(run.diags);
    if run.data.Some? {
      CViewIsPrefix(run.data.value);
    }
  }

  /** A failing render with nothing captured is reported with an empty error. */
  lemma RenderCanFailSilently(d: seq<char>)
    ensures RenderVerdict(RenderRun([], 1, Some(d))) == Err([])
  {
  }

  /** The outcome with the fallback `render_dot` uses for the same stage. */
  function RenderReportedVerdict(run: RenderRun): Result<seq<char>> {
    var captured := Captured(run.diags);
    if run.status != 0 || |captured| > 0 then Err(Fallback(captured, RENDER_FAILED))
    else if run.data.None? then Err(RENDER_NO_DATA)
    else Ok(CView(run.data.value))
  }

  /** With the fallback, `render` fails in the same cases, returns the same output,
      keeps any captured text, and never reports an empty error. */
  lemma RenderReportedErrNonEmpty(run: RenderRun)
    ensures RenderReportedVerdict(run).Err? <==> RenderVerdict(run).Err?
    ensures RenderReportedVerdict(run).Ok? ==> RenderReportedVerdict(run) == RenderVerdict(run)
    ensures RenderReportedVerdict(run).Err? ==> RenderReportedVerdict(run).msg != []
    ensures Captured(run.diags) != [] ==> RenderReportedVerdict(run) == RenderVerdict(run)
  {
  }

  // ---------------------------------------------------------------------------
  // render_dot

  /** The outcome `render_dot` reports: the first stage that fails structurally
      decides, with the text captured so far or that stage's fallback message;
      captured diagnostics alone do not fail it. */
  function RenderDotVerdict(steps: seq<ParseStep>, lrun: LayoutRun, rrun: RenderRun): Result<seq<char>> {
    if steps == [] || steps[0].result.None? then
      Err(Fallback(Captured(if steps == [] then [] else steps[0].diags), READ_DOT_FAILED))
    else if lrun.status != 0 then
      Err(Fallback(Captured(steps[0].diags + lrun.diags), LAYOUT_FAILED))
    else if rrun.status != 0 || rrun.data.None? then
      Err(Fallback(Captured(steps[0].diags + lrun.diags + rrun.diags), RENDER_FAILED))
    else Ok(CView(rrun.data.value))
  }

  /** A failed `render_dot` always reports a non-empty error that fits the channel. */
  lemma RenderDotErrNonEmpty(steps: seq<ParseStep>, lrun: LayoutRun, rrun: RenderRun)
    ensures RenderDotVerdict(steps, lrun, rrun).Err? ==>
      RenderDotVerdict(steps, lrun, rrun).msg != [] && |RenderDotVerdict(steps, lrun, rrun).msg| < MAX_ERROR_MESSAGE_LENGTH
  {
    if steps == [] || steps[0].result.None? {
      CapturedBounded(if steps == [] then [] else steps[0].diags);
    } else if lrun.status != 0 {
      CapturedBounded(steps[0].diags + lrun.diags);
    } else {
      CapturedBounded(steps[0].diags + lrun.diags + rrun.diags);
    }
  }

  /** `render_dot` succeeds exactly when every stage succeeds structurally, and then
      returns what `render` returns for the same render run once no diagnostic of
      that run is captured. */
  lemma RenderDotSucceedsIff(steps: seq<ParseStep>, lrun: LayoutRun, rrun: RenderRun)
    ensures RenderDotVerdict(steps, lrun, rrun).Ok? <==>
      steps != [] && steps[0].result.Some? && lrun.status == 0 && rrun.status == 0 && rrun.data.Some?
    ensures RenderDotVerdict(steps, lrun, rrun).Ok? && Captured(rrun.diags) == [] ==>
      RenderVerdict(rrun) == RenderDotVerdict(steps, lrun, rrun)
  {
  }

  /** Unlike `read_one_graph`, `layout` and `render`, `render_dot` reports success
      when a warning is captured: here the parser warns, and `read_one_graph` fails
      on the same input while `render_dot` succeeds. */
  lemma RenderDotToleratesWarnings(p: Parsed)
    ensures var steps := [ParseStep([Diag(AGWARN, "w")], Some(p))];
      && ReadOneVerdict(steps) == Err("w")
      && RenderDotVerdict(steps, LayoutRun([], 0, false), RenderRun([], 0, Some("x"))) == Ok("x")
  {
    var steps := [ParseStep([Diag(AGWARN, "w")], Some(p))];
    assert Drained(steps[1..]) == [];
    assert ReadDiags(steps) == [Diag(AGWARN, "w")];
    assert Texts(ReadDiags(steps)) == ["w"];
    assert Feed([], ["w"]) == Append(Feed([], []), "w");
    CViewIsPrefix("x");
  }

  // ---------------------------------------------------------------------------
  // The component

  /** An attribute value as the API passes it. */
  datatype AttrValue = Plain(text: seq<char>) | Html(text: seq<char>)

  /** The object `set_attribute` targets. */
  datatype Object = ObjGraph(rep: Ptr) | ObjNode(rep: Ptr) | ObjEdge(rep: Ptr)

  /** The kind the engine reports for the object (`AGTYPE`). */
  function KindOf(obj: Object): Kind {
    match obj
    case ObjGraph(_) => AGRAPH
    case ObjNode(_) => AGNODE
    case ObjEdge(_) => AGEDGE
  }

  /** What the engine records for an attribute value passed through the API: the
      converted text, and whether it is HTML-like. */
  function Converted(v: AttrValue): AttrText {
    AttrText(CView(v.text), v.Html?)
  }

  /** `agraphof(obj)`: the graph a graph object is, the root a node or edge
      belongs to. */
  function Home(obj: Object, nodes: map<Ptr, Ptr>, edges: map<Ptr, Ptr>): Ptr {
    match obj
    case ObjGraph(g) => g
    case ObjNode(x) => if x in nodes then nodes[x] else NULL
    case ObjEdge(e) => if e in edges then edges[e] else NULL
  }

  // ---------------------------------------------------------------------------
  // add_node, add_subgraph

  /** A second `agnode` with the same root and name finds the node the first one
      returned and changes nothing. */
  lemma NodeLookupIdempotent(named0: map<(Ptr, seq<char>), Ptr>, nodes0: map<Ptr, Ptr>, key: (Ptr, seq<char>), x: Ptr,
                             named1: map<(Ptr, seq<char>), Ptr>, nodes1: map<Ptr, Ptr>, y: Ptr,
                             named2: map<(Ptr, seq<char>), Ptr>, nodes2: map<Ptr, Ptr>)
    requires NodeLookup(named0, nodes0, key, x, named1, nodes1) && NodeLookup(named1, nodes1, key, y, named2, nodes2)
    ensures y == x && named2 == named1 && nodes2 == nodes1
  {
  }

  /** A second `agsubg` with the same parent and name finds the subgraph the first
      one returned and changes nothing. */
  lemma SubgraphLookupIdempotent(sub0: map<(Ptr, seq<char>), Ptr>, graphs0: map<Ptr, GraphInfo>, key: (Ptr, seq<char>), s: Ptr,
                                 sub1: map<(Ptr, seq<char>), Ptr>, graphs1: map<Ptr, GraphInfo>, t: Ptr,
                                 sub2: map<(Ptr, seq<char>), Ptr>, graphs2: map<Ptr, GraphInfo>)
    requires key.0 in graphs0 && SubgraphLookup(sub0, graphs0, key, s, sub1, graphs1)
    requires key.0 in graphs1 && SubgraphLookup(sub1, graphs1, key, t, sub2, graphs2)
    ensures t == s && sub2 == sub1 && graphs2 == graphs1
  {
    assert Below(sub1, graphs1, key);
  }

  /** A handle that owns a subgraph cannot join a sound table: its destructor would
      `agclose` a graph that closing its root already released. */
  lemma OwningSubgraphUnsound(handles: map<nat, Resource>, graphs: map<Ptr, GraphInfo>, contexts: map<Ptr, bool>, h: nat, s: Ptr)
    requires s != NULL && s in graphs && graphs[s].ancestors != {}
    ensures !OwnershipSound(handles[h := GraphRes(s, true)], graphs, contexts)
  {
    assert Owns(handles[h := GraphRes(s, true)][h]);
  }

  /** With a root handle and the owning handle `add_subgraph` makes for its
      subgraph, dropping the root closes the subgraph, so the subgraph handle's
      destructor then closes a released graph. */
  lemma SubgraphHandleClosesTwice()
    ensures var graphs := map[1 := GraphInfo("g", Desc(false, false), 1, {}), 2 := GraphInfo("s", Desc(false, false), 1, {1})];
      && var handles := map[0 := GraphRes(1, true), 1 := GraphRes(2, true)];
      && OwnershipSound(map[0 := GraphRes(1, true)], graphs, map[])
      && !OwnershipSound(handles, graphs, map[])
      && 2 in graphs && 2 !in ReleaseGraphs(graphs, handles[0])
  {
    var graphs := map[1 := GraphInfo("g", Desc(false, false), 1, {}), 2 := GraphInfo("s", Desc(false, false), 1, {1})];
    OwningSubgraphUnsound(map[0 := GraphRes(1, true)], graphs, map[], 1, 2);
    assert map[0 := GraphRes(1, true)][1 := GraphRes(2, true)] == map[0 := GraphRes(1, true), 1 := GraphRes(2, true)];
  }

  /** The exported component: the engine, and the table of handles the component
      runtime holds for the resources handed out. Borrowed handles reach the
      operations as the resource pointers they wrap. */
  class Viz {
    const n: Native
    var handles: map<nat, Resource>
    var nextHandle: nat

    ghost predicate Valid()
      reads this, n, n.errors, n.errors.messages
    {
      n.Valid() && OwnershipSound(handles, n.graphs, n.contexts) && forall h :: h in handles ==> h < nextHandle
    }

    constructor ()
      ensures Valid() && fresh(n) && handles == map[]
      ensures n.graphs == map[] && n.contexts == map[] && n.mallocd == {}
    {
      n := new Native();
      handles := map[];
      nextHandle := 0;
    }

    /** `..._new(rep)`: the runtime wraps `r` in a new handle. */
    method NewHandle(r: Resource) returns (h: nat)
      requires n.Valid() && (forall k :: k in handles ==> k < nextHandle)
      requires OwnershipSound(handles[nextHandle := r], n.graphs, n.contexts)
      modifies this`handles, this`nextHandle
      ensures Valid() && h !in old(handles) && handles == old(handles)[h := r]
    {
      h := nextHandle;
      handles := handles[h := r];
      nextHandle := nextHandle + 1;
    }

    /** The Graph destructor: closes the graph it wraps. */
    method GraphDestructor(rep: Ptr)
      requires n.Valid() && (rep != NULL ==> rep in n.graphs)
      modifies n`graphs, n`nodes, n`edges
      ensures n.Valid()
      ensures rep == NULL ==> n.graphs == old(n.graphs) && n.nodes == old(n.nodes) && n.edges == old(n.edges)
      ensures rep != NULL ==>
        n.graphs == CloseGraphs(old(n.graphs), rep) && n.nodes == Detach(old(n.nodes), rep) && n.edges == Detach(old(n.edges), rep)
    {
      if rep != NULL {
        n.AgClose(rep);
      }
    }

    /** The Context destructor: finalizes, then frees the context it wraps. */
    method ContextDestructor(rep: Ptr)
      requires n.Valid() && (rep != NULL ==> rep in n.contexts)
      modifies n`contexts, n`layouts
      ensures n.Valid()
      ensures rep == NULL ==> n.contexts == old(n.contexts) && n.layouts == old(n.layouts)
      ensures rep != NULL ==> n.contexts == old(n.contexts) - {rep} && n.layouts == FreeLayouts(old(n.layouts), rep)
    {
      if rep != NULL {
        n.GvFinalize(rep);
        n.GvFreeContext(rep);
        assert old(n.contexts)[rep := true] - {rep} == old(n.contexts) - {rep};
      }
    }

    /** The Node destructor: nodes belong to their graph, so nothing is released. */
    method NodeDestructor(rep: Ptr) {
    }

    /** The Edge destructor: edges belong to their graph, so nothing is released. */
    method EdgeDestructor(rep: Ptr) {
    }

    /** The destructor of the resource a handle wraps; a borrowed graph handle
        releases nothing. */
    method Release(r: Resource)
      requires n.Valid()
      requires Owns(r) && r.GraphRes? ==> r.rep in n.graphs
      requires Owns(r) && r.ContextRes? ==> r.rep in n.contexts
      modifies n`graphs, n`nodes, n`edges, n`contexts, n`layouts
      ensures n.Valid()
      ensures n.graphs == ReleaseGraphs(old(n.graphs), r) && n.contexts == ReleaseContexts(old(n.contexts), r)
      ensures n.nodes == (if Owns(r) && r.GraphRes? then Detach(old(n.nodes), r.rep) else old(n.nodes))
      ensures n.edges == (if Owns(r) && r.GraphRes? then Detach(old(n.edges), r.rep) else old(n.edges))
      ensures n.layouts == (if Owns(r) && r.ContextRes? then FreeLayouts(old(n.layouts), r.rep) else old(n.layouts))
    {
      match r {
        case GraphRes(g, owning) =>
          if owning {
            GraphDestructor(g);
          }
        case ContextRes(c) =>
          ContextDestructor(c);
        case NodeRes(x) =>
          NodeDestructor(x);
        case EdgeRes(e) =>
          EdgeDestructor(e);
      }
    }

    /** The runtime drops handle `h` and runs its resource's destructor: the handle
        table stays sound. */
    method Drop(h: nat)
      requires Valid() && h in handles
      modifies this`handles, n`graphs, n`nodes, n`edges, n`contexts, n`layouts
      ensures Valid() && handles == old(handles) - {h}
      ensures var r := old(handles[h]);
        && n.graphs == ReleaseGraphs(old(n.graphs), r) && n.contexts == ReleaseContexts(old(n.contexts), r)
        && n.nodes == (if Owns(r) && r.GraphRes? then Detach(old(n.nodes), r.rep) else old(n.nodes))
        && n.edges == (if Owns(r) && r.GraphRes? then Detach(old(n.edges), r.rep) else old(n.edges))
        && n.layouts == (if Owns(r) && r.ContextRes? then FreeLayouts(old(n.layouts), r.rep) else old(n.layouts))
    {
      ReleaseKeepsSound(handles, n.graphs, n.contexts, h);
      Release(handles[h]);
      handles := handles - {h};
    }

    /** `viz_reset_errors`: empties the channel, registers it as the engine's sink at
        the AGWARN threshold and forgets the engine's error level. */
    method ResetErrors()
      requires n.Valid()
      modifies n.errors`len, n.errors.messages, n`sinkOn, n`threshold, n`maxErr
      ensures n.Valid() && n.errors.Text() == [] && n.sinkOn && n.threshold == AGWARN && n.maxErr == 0
    {
      n.errors.Clear();
      n.AgSetErrf();
      n.AgSetErr(AGWARN);
      n.AgResetErrors();
    }

    /** The channel's text, copied out as the operation's error. */
    method ErrorText() returns (t: seq<char>)
      requires n.errors.Valid()
      ensures t == n.errors.Text()
    {
      n.errors.LenIsStrlen();
      t := CStringToWit(Heap(n.errors.messages), true);
    }

    /** `cond ? g_error_messages : fallback`, copied out: the channel's text when
        something was captured, the fixed message otherwise. */
    method CapturedOr(fallback: seq<char>) returns (t: seq<char>)
      requires n.errors.Valid() && NoNul(fallback)
      ensures t == Fallback(n.errors.Text(), fallback)
    {
      if n.errors.len > 0 {
        t := ErrorText();
      } else {
        t := CStringToWit(Literal(fallback), true);
      }
    }

    /** A context made for one query is finalized and freed; the tables are as
        before the context was created. */
    method TransientContextDone(c: Ptr, ghost contexts0: map<Ptr, bool>)
      requires n.Valid() && c !in contexts0 && n.contexts == contexts0[c := false]
      requires forall pr :: pr in n.layouts ==> pr.0 != c
      modifies n`contexts, n`layouts
      ensures n.Valid() && n.contexts == contexts0 && n.layouts == old(n.layouts)
    {
      n.GvFinalize(c);
      n.GvFreeContext(c);
      assert n.contexts == contexts0 by {
        ContextsRestored(contexts0, c, true);
      }
      assert n.layouts == old(n.layouts);
    }

    /** `get_graphviz_version`: the version of a transient context, or a fixed
        message when no context can be created; no resource outlives the call. */
    method GetGraphvizVersion(ctxOk: bool, version: seq<char>) returns (v: seq<char>)
      requires Valid() && NoNul(version)
      modifies n`contexts, n`layouts, n`next
      ensures Valid() && n.contexts == old(n.contexts) && n.layouts == old(n.layouts)
      ensures v == (if ctxOk then version else NO_CONTEXT)
    {
      var c := n.GvContextPlugins(ctxOk);
      if c != NULL {
        var s := n.GvcVersion(c, version);
        v := CStringToWit(s, true);
        TransientContextDone(c, old(n.contexts));
      } else {
        v := CStringToWit(Literal(NO_CONTEXT), true);
      }
    }

    /** The loop of `get_plugin_list`: each of the `count` strings of the list,
        copied out in order. */
    static method CopyPluginNames(arr: array?<CPtr>, count: int) returns (list: seq<seq<char>>)
      requires arr == null ==> count == 0
      requires arr != null ==> 0 <= count <= arr.Length && forall i :: 0 <= i < count ==> Readable(arr[i])
      ensures |list| == (if count < 0 then 0 else count)
      ensures forall i :: 0 <= i < |list| ==> arr != null && list[i] == Chars(arr[i])
    {
      list := [];
      var i := 0;
      while i < count
        invariant 0 <= i && |list| == i && (i > 0 ==> i <= count)
        invariant forall k :: 0 <= k < i ==> arr != null && list[k] == Chars(arr[k])
      {
        var e := CStringToWit(arr[i], true);
        list := list + [e];
        i := i + 1;
      }
    }

    /** The names a list from `gvPluginList` holds. */
    static lemma PluginListNames(arr: array?<CPtr>, names: seq<seq<char>>)
      requires arr == null <==> names == []
      requires arr != null ==> arr.Length == |names| && forall i :: 0 <= i < |names| ==> arr[i].Heap? && arr[i].buf[..] == Encode(names[i])
      requires forall i :: 0 <= i < |names| ==> NoNul(names[i])
      ensures arr != null ==> forall i :: 0 <= i < |names| ==> Readable(arr[i]) && Chars(arr[i]) == names[i]
    {
      if arr != null {
        forall i | 0 <= i < |names|
          ensures Readable(arr[i]) && Chars(arr[i]) == names[i]
        {
          ContentOfEncode(names[i]);
        }
      }
    }

    /** Releases a list from `gvPluginList` and every string in it. */
    method FreePluginList(arr: array<CPtr>)
      requires arr in n.mallocd
      requires forall i :: 0 <= i < arr.Length ==> arr[i].Heap? && arr[i].buf in n.mallocd
      requires forall i, j :: 0 <= i < j < arr.Length ==> arr[i].buf != arr[j].buf
      modifies n`mallocd
      ensures n.mallocd == old(n.mallocd) - ({arr as object} + Bufs(arr[..]))
    {
      var j := 0;
      while j < arr.Length
        invariant 0 <= j <= arr.Length
        invariant n.mallocd == old(n.mallocd) - Bufs(arr[..j])
      {
        assert arr[..j + 1] == arr[..j] + [arr[j]];
        assert Bufs(arr[..j + 1]) == Bufs(arr[..j]) + {arr[j].buf};
        BufsExcludes(arr[..j], arr[j].buf);
        n.Free(arr[j].buf);
        j := j + 1;
      }
      assert arr[..j] == arr[..];
      BufsExcludes(arr[..], arr);
      n.Free(arr);
    }

    /** The copy loop over a list from `gvPluginList`: the names it holds. */
    static method ListedNames(arr: array?<CPtr>, count: int, ghost names: seq<seq<char>>) returns (list: seq<seq<char>>)
      requires count == |names| && (arr == null <==> names == [])
      requires arr != null ==> arr.Length == |names| && forall i :: 0 <= i < |names| ==> arr[i].Heap? && arr[i].buf[..] == Encode(names[i])
      requires forall i :: 0 <= i < |names| ==> NoNul(names[i])
      ensures list == names
    {
      PluginListNames(arr, names);
      list := CopyPluginNames(arr, count);
    }

    /** `gvPluginList` and the copy loop of `get_plugin_list`, as written: the list
        and its strings stay allocated as `leaked`. */
    method CopyPluginList(c: Ptr, kind: CPtr, names: seq<seq<char>>) returns (list: seq<seq<char>>, ghost leaked: set<object>)
      requires c in n.contexts && n.Live(kind) && Readable(kind)
      requires forall i :: 0 <= i < |names| ==> NoNul(names[i])
      modifies n`mallocd
      ensures list == names
      ensures leaked !! old(n.mallocd) && (leaked == {} <==> names == [])
      ensures n.mallocd == old(n.mallocd) + leaked
    {
      var arr, count := n.GvPluginList(c, kind, names);
      list := ListedNames(arr, count, names);
      leaked := if arr == null then {} else {arr as object} + Bufs(arr[..]);
      assert arr != null ==> arr in leaked;
    }

    /** `gvPluginList` and the copy loop, releasing the list and its strings. */
    method CopyPluginListFreeing(c: Ptr, kind: CPtr, names: seq<seq<char>>) returns (list: seq<seq<char>>)
      requires c in n.contexts && n.Live(kind) && Readable(kind)
      requires forall i :: 0 <= i < |names| ==> NoNul(names[i])
      modifies n`mallocd
      ensures list == names && n.mallocd == old(n.mallocd)
    {
      var arr, count := n.GvPluginList(c, kind, names);
      list := ListedNames(arr, count, names);
      if arr != null {
        FreePluginList(arr);
      }
    }

    /** The context part of `get_plugin_list`, as written: a transient context and
        the names of its plugin list, whose list and strings stay allocated. */
    method ListPlugins(kind: CPtr, ctxOk: bool, names: seq<seq<char>>) returns (list: seq<seq<char>>, ghost leaked: set<object>)
      requires n.Valid() && n.Live(kind) && Readable(kind)
      requires forall i :: 0 <= i < |names| ==> NoNul(names[i])
      modifies n`mallocd, n`contexts, n`layouts, n`next
      ensures n.Valid() && list == (if ctxOk then names else [])
      ensures n.contexts == old(n.contexts) && n.layouts == old(n.layouts)
      ensures leaked !! old(n.mallocd) && (leaked == {} <==> !ctxOk || names == [])
      ensures n.mallocd == old(n.mallocd) + leaked
    {
      var c := n.GvContextPlugins(ctxOk);
      list, leaked := [], {};
      if c != NULL {
        list, leaked := CopyPluginList(c, kind, names);
        TransientContextDone(c, old(n.contexts));
      }
    }

    /** The context part of `get_plugin_list`, releasing what `gvPluginList` hands over. */
    method ListPluginsFreeing(kind: CPtr, ctxOk: bool, names: seq<seq<char>>) returns (list: seq<seq<char>>)
      requires n.Valid() && n.Live(kind) && Readable(kind)
      requires forall i :: 0 <= i < |names| ==> NoNul(names[i])
      modifies n`mallocd, n`contexts, n`layouts, n`next
      ensures n.Valid() && list == (if ctxOk then names else [])
      ensures n.contexts == old(n.contexts) && n.layouts == old(n.layouts) && n.mallocd == old(n.mallocd)
    {
      var c := n.GvContextPlugins(ctxOk);
      list := [];
      if c != NULL {
        list := CopyPluginListFreeing(c, kind, names);
        TransientContextDone(c, old(n.contexts));
      }
    }

    /** `get_plugin_list`: the plugin names of a transient context, or none when no
        context can be created. As written, the list `gvPluginList` hands over and
        its strings are never freed: they stay allocated as `leaked`. */
    method GetPluginList(kind: seq<char>, ctxOk: bool, names: seq<seq<char>>) returns (list: seq<seq<char>>, ghost leaked: set<object>)
      requires Valid() && forall i :: 0 <= i < |names| ==> NoNul(names[i])
      modifies n`mallocd, n`contexts, n`layouts, n`next
      ensures Valid() && list == (if ctxOk then names else [])
      ensures n.contexts == old(n.contexts) && n.layouts == old(n.layouts)
      ensures leaked !! old(n.mallocd) && (leaked == {} <==> !ctxOk || names == [])
      ensures n.mallocd == old(n.mallocd) + leaked
    {
      var ck := WitToCString(n, kind, true);
      list, leaked := ListPlugins(Heap(ck), ctxOk, names);
      n.Free(ck);
    }

    /** `get_plugin_list` releasing what `gvPluginList` hands over: the same names,
        and no resource outlives the call. */
    method GetPluginListFreeing(kind: seq<char>, ctxOk: bool, names: seq<seq<char>>) returns (list: seq<seq<char>>)
      requires Valid() && forall i :: 0 <= i < |names| ==> NoNul(names[i])
      modifies n`mallocd, n`contexts, n`layouts, n`next
      ensures Valid() && list == (if ctxOk then names else [])
      ensures n.contexts == old(n.contexts) && n.layouts == old(n.layouts) && n.mallocd == old(n.mallocd)
    {
      var ck := WitToCString(n, kind, true);
      list := ListPluginsFreeing(Heap(ck), ctxOk, names);
      n.Free(ck);
    }

    /** `create_graph`: a new root graph with the given name and descriptor, wrapped
        in a new owning handle. */
    method CreateGraph(name: seq<char>, directed: bool, strict: bool) returns (h: nat)
      requires Valid()
      modifies this`handles, this`nextHandle, n`graphs, n`next, n`mallocd
      ensures Valid() && h !in old(handles) && h in handles && handles == old(handles)[h := handles[h]]
      ensures handles[h].GraphRes? && handles[h].owning
      ensures var g := handles[h].rep;
        old(n.Unused(g)) && n.graphs == old(n.graphs)[g := RootInfo(g, Parsed(CView(name), Desc(directed, strict)))]
      ensures n.mallocd == old(n.mallocd)
    {
      var c := WitToCString(n, name, true);
      var g := n.AgOpen(Heap(c), Desc(directed, strict));
      n.Free(c);
      AddRootKeepsSound(handles, old(n.graphs), n.contexts, nextHandle, g, RootInfo(g, Parsed(CView(name), Desc(directed, strict))));
      h := NewHandle(GraphRes(g, true));
    }

    /** The start of `read_one_graph` and `render_dot`: the reset channel and the
        input converted to a C string. */
    method Prepare(dot: seq<char>) returns (cd: array<char>)
      requires n.Valid()
      modifies n.errors`len, n.errors.messages, n`sinkOn, n`threshold, n`maxErr, n`mallocd
      ensures n.Valid() && n.sinkOn && n.threshold == AGWARN && n.errors.Text() == []
      ensures cd !in old(n.mallocd) && n.mallocd == old(n.mallocd) + {cd}
      ensures Readable(Heap(cd)) && Chars(Heap(cd)) == CView(dot)
    {
      ResetErrors();
      var c := WitToCString(n, dot, true);
      cd := c;
    }

    /** `agmemread` on the converted input, and the input's release. */
    method ParseInput(cd: array<char>, steps: seq<ParseStep>) returns (g: Ptr)
      requires n.Valid() && cd in n.mallocd && Readable(Heap(cd)) && StepsWellFormed(steps)
      requires n.sinkOn && n.threshold == AGWARN && n.errors.Text() == []
      modifies n`graphs, n`next, n`pending, n`maxErr, n.errors`len, n.errors.messages, n`mallocd
      ensures n.Valid() && n.mallocd == old(n.mallocd) - {cd}
      ensures StepsWellFormed(n.pending) && n.pending == (if steps == [] then [] else steps[1..])
      ensures n.errors.Text() == Captured(if steps == [] then [] else steps[0].diags)
      ensures g == NULL <==> steps == [] || steps[0].result.None?
      ensures g == NULL ==> n.graphs == old(n.graphs)
      ensures g != NULL ==> FreshGraph(g, old(n.graphs), n.nodes, n.edges, n.layouts) && n.graphs == old(n.graphs)[g := RootInfo(g, steps[0].result.value)]
    {
      g := n.AgMemRead(Heap(cd), steps);
      n.Free(cd);
      if steps != [] {
        DeliveredToWarnSink(steps[0].diags);
      }
    }

    /** The first read of `read_one_graph` and `render_dot` on a reset channel: the
        label default, then the read of the converted input. */
    method ParseFirst(cd: array<char>, steps: seq<ParseStep>) returns (g: Ptr)
      requires n.Valid() && cd in n.mallocd && Readable(Heap(cd)) && StepsWellFormed(steps)
      requires n.sinkOn && n.threshold == AGWARN && n.errors.Text() == []
      modifies n`defaults, n`graphs, n`next, n`pending, n`maxErr, n.errors`len, n.errors.messages, n`mallocd
      ensures n.Valid() && n.defaults == WithLabelWorkaround(old(n.defaults)) && n.mallocd == old(n.mallocd) - {cd}
      ensures StepsWellFormed(n.pending) && n.pending == (if steps == [] then [] else steps[1..])
      ensures n.errors.Text() == Captured(if steps == [] then [] else steps[0].diags)
      ensures g == NULL <==> steps == [] || steps[0].result.None?
      ensures g == NULL ==> n.graphs == old(n.graphs)
      ensures g != NULL ==> FreshGraph(g, old(n.graphs), n.nodes, n.edges, n.layouts) && n.graphs == old(n.graphs)[g := RootInfo(g, steps[0].result.value)]
    {
      n.AgAttr(NULL, AGNODE, Literal("label"), Literal(NODE_NAME_PLACEHOLDER));
      g := ParseInput(cd, steps);
    }

    /** One pass of the drain loop of `read_one_graph`: `agmemread(NULL)`, and
        `agclose` on the graph it yields. */
    method ReadNextAndClose() returns (got: bool)
      requires n.Valid() && StepsWellFormed(n.pending) && n.sinkOn && n.threshold == AGWARN
      modifies n`graphs, n`nodes, n`edges, n`next, n`pending, n`maxErr, n.errors`len, n.errors.messages
      ensures n.Valid() && StepsWellFormed(n.pending)
      ensures n.graphs == old(n.graphs) && n.nodes == old(n.nodes) && n.edges == old(n.edges)
      ensures old(n.pending) == [] ==> !got && n.pending == [] && n.errors.Text() == old(n.errors.Text())
      ensures old(n.pending) != [] ==>
        && n.pending == old(n.pending)[1..] && (got <==> old(n.pending)[0].result.Some?)
        && n.errors.Text() == Feed(old(n.errors.Text()), Texts(old(n.pending)[0].diags))
    {
      var other := n.AgMemReadNext();
      got := other != NULL;
      if old(n.pending) != [] {
        DeliveredToWarnSink(old(n.pending)[0].diags);
      }
      if got {
        CloseFreshGraph(old(n.graphs), other, old(n.pending)[0].result.value);
        DetachFresh(n.nodes, other);
        DetachFresh(n.edges, other);
        n.AgClose(other);
      }
    }

    /** The state of the drain loop of `read_one_graph` once it has consumed
        `consumed` of the reads `rest`: the graph, node and edge tables are as they
        were, and the channel holds `text0` followed by the consumed diagnostics. */
    ghost predicate Draining(rest: seq<ParseStep>, consumed: seq<ParseStep>, text0: seq<char>,
                             graphs0: map<Ptr, GraphInfo>, nodes0: map<Ptr, Ptr>, edges0: map<Ptr, Ptr>)
      reads n, n.errors, n.errors.messages
    {
      && n.Valid() && StepsWellFormed(n.pending) && n.sinkOn && n.threshold == AGWARN
      && |consumed| <= |rest| && consumed == rest[..|consumed|] && n.pending == rest[|consumed|..]
      && n.graphs == graphs0 && n.nodes == nodes0 && n.edges == edges0
      && n.errors.Text() == Feed(text0, Texts(DiagsOf(consumed)))
    }

    /** One pass of the drain loop: the loop state advances by the read it makes,
        and the loop is over when that read yields nothing or nothing is left. */
    method DrainOnce(ghost rest: seq<ParseStep>, ghost consumed: seq<ParseStep>, ghost text0: seq<char>,
                     ghost graphs0: map<Ptr, GraphInfo>, ghost nodes0: map<Ptr, Ptr>, ghost edges0: map<Ptr, Ptr>)
      returns (done: bool, ghost consumed2: seq<ParseStep>)
      requires Draining(rest, consumed, text0, graphs0, nodes0, edges0)
      requires forall i :: 0 <= i < |consumed| ==> consumed[i].result.Some?
      modifies n`graphs, n`nodes, n`edges, n`next, n`pending, n`maxErr, n.errors`len, n.errors.messages
      ensures Draining(rest, consumed2, text0, graphs0, nodes0, edges0)
      ensures done ==> consumed2 == Drained(rest)
      ensures !done ==> forall i :: 0 <= i < |consumed2| ==> consumed2[i].result.Some?
      ensures |n.pending| <= |old(n.pending)| && (!done ==> |n.pending| < |old(n.pending)|)
    {
      ghost var before := n.errors.Text();
      var got := ReadNextAndClose();
      DrainAdvance(rest, consumed, text0, old(n.pending), n.pending, before, n.errors.Text(), got);
      consumed2 := if old(n.pending) == [] then consumed else rest[..|consumed| + 1];
      done := !got;
    }

    /** The drain loop of `read_one_graph`: reads the rest of the input until a read
        yields no graph, closing every graph read. */
    method DrainRest() returns (ghost consumed: seq<ParseStep>)
      requires n.Valid() && StepsWellFormed(n.pending) && n.sinkOn && n.threshold == AGWARN
      modifies n`graphs, n`nodes, n`edges, n`next, n`pending, n`maxErr, n.errors`len, n.errors.messages
      ensures n.Valid() && consumed == Drained(old(n.pending)) && n.pending == old(n.pending)[|consumed|..]
      ensures n.graphs == old(n.graphs) && n.nodes == old(n.nodes) && n.edges == old(n.edges)
      ensures n.errors.Text() == Feed(old(n.errors.Text()), Texts(DiagsOf(consumed)))
    {
      consumed := [];
      var done := false;
      while !done
        invariant Draining(old(n.pending), consumed, old(n.errors.Text()), old(n.graphs), old(n.nodes), old(n.edges))
        invariant done ==> consumed == Drained(old(n.pending))
        invariant !done ==> forall i :: 0 <= i < |consumed| ==> consumed[i].result.Some?
        decreases |n.pending| + (if done then 0 else 1)
      {
        done, consumed := DrainOnce(old(n.pending), consumed, old(n.errors.Text()), old(n.graphs), old(n.nodes), old(n.edges));
      }
    }

    /** The first part of `read_one_graph`: the reset channel, the converted input
        and the first read. */
    method ReadFirst(dot: seq<char>, steps: seq<ParseStep>) returns (g: Ptr)
      requires n.Valid() && StepsWellFormed(steps)
      modifies n.errors`len, n.errors.messages, n`sinkOn, n`threshold, n`maxErr, n`defaults, n`graphs, n`next, n`pending, n`mallocd
      ensures n.Valid() && n.sinkOn && n.threshold == AGWARN
      ensures n.defaults == WithLabelWorkaround(old(n.defaults)) && n.mallocd == old(n.mallocd)
      ensures StepsWellFormed(n.pending) && n.pending == (if steps == [] then [] else steps[1..])
      ensures n.errors.Text() == Captured(if steps == [] then [] else steps[0].diags)
      ensures g == NULL <==> steps == [] || steps[0].result.None?
      ensures g == NULL ==> n.graphs == old(n.graphs)
      ensures g != NULL ==>
        FreshGraph(g, old(n.graphs), n.nodes, n.edges, n.layouts) && n.graphs == old(n.graphs)[g := RootInfo(g, steps[0].result.value)]
    {
      var cd := Prepare(dot);
      g := ParseFirst(cd, steps);
    }

    /** The input part of `read_one_graph`: the first read and the drain of the rest;
        the channel then holds what the whole input reported. */
    method ReadInput(dot: seq<char>, steps: seq<ParseStep>) returns (g: Ptr)
      requires n.Valid() && StepsWellFormed(steps)
      modifies n.errors`len, n.errors.messages, n`sinkOn, n`threshold, n`maxErr
      modifies n`defaults, n`graphs, n`nodes, n`edges, n`next, n`pending, n`mallocd
      ensures n.Valid() && n.defaults == WithLabelWorkaround(old(n.defaults)) && n.mallocd == old(n.mallocd)
      ensures n.nodes == old(n.nodes) && n.edges == old(n.edges)
      ensures n.pending == (if steps == [] then [] else steps[1..][|Drained(steps[1..])|..])
      ensures n.errors.Text() == Captured(ReadDiags(steps))
      ensures g == NULL <==> steps == [] || steps[0].result.None?
      ensures g == NULL ==> n.graphs == old(n.graphs)
      ensures g != NULL ==>
        FreshGraph(g, old(n.graphs), n.nodes, n.edges, n.layouts) && n.graphs == old(n.graphs)[g := RootInfo(g, steps[0].result.value)]
    {
      g := ReadFirst(dot, steps);
      ghost var consumed := DrainRest();
      ReadTextSplit(steps, consumed);
    }

    /** `if (graph) agclose(graph)` on a graph just read: the tables are as they
        were before the read. */
    method CloseRead(g: Ptr, ghost graphs0: map<Ptr, GraphInfo>, ghost p: Parsed)
      requires n.Valid()
      requires g == NULL ==> n.graphs == graphs0
      requires g != NULL ==> FreshGraph(g, graphs0, n.nodes, n.edges, n.layouts) && n.graphs == graphs0[g := RootInfo(g, p)]
      modifies n`graphs, n`nodes, n`edges
      ensures n.Valid() && n.graphs == graphs0 && n.nodes == old(n.nodes) && n.edges == old(n.edges)
    {
      if g != NULL {
        CloseFreshGraph(graphs0, g, p);
        DetachFresh(n.nodes, g);
        DetachFresh(n.edges, g);
        n.AgClose(g);
      }
    }

    /** The end of `read_one_graph`, once the input is drained: with something
        captured, the graph read (if any) is closed and the captured text is the
        error; with no graph, a fixed message; otherwise the graph in a new owning
        handle. */
    method FinishRead(g: Ptr, ghost graphs0: map<Ptr, GraphInfo>, ghost steps: seq<ParseStep>) returns (r: Result<nat>)
      requires n.Valid() && OwnershipSound(handles, graphs0, n.contexts) && (forall k :: k in handles ==> k < nextHandle)
      requires n.errors.Text() == Captured(ReadDiags(steps))
      requires g == NULL <==> steps == [] || steps[0].result.None?
      requires g == NULL ==> n.graphs == graphs0
      requires g != NULL ==> FreshGraph(g, graphs0, n.nodes, n.edges, n.layouts) && n.graphs == graphs0[g := RootInfo(g, steps[0].result.value)]
      modifies this`handles, this`nextHandle, n`graphs, n`nodes, n`edges
      ensures Valid() && n.nodes == old(n.nodes) && n.edges == old(n.edges)
      ensures r.Err? <==> ReadOneVerdict(steps).Err?
      ensures r.Err? ==> r.msg == ReadOneVerdict(steps).msg && handles == old(handles) && n.graphs == graphs0
      ensures r.Ok? ==>
        && r.value !in old(handles) && handles == old(handles)[r.value := GraphRes(g, true)]
        && g !in graphs0 && n.graphs == graphs0[g := RootInfo(g, ReadOneVerdict(steps).value)]
    {
      if n.errors.len > 0 {
        ghost var p := if g == NULL then Parsed([], Desc(false, false)) else steps[0].result.value;
        CloseRead(g, graphs0, p);
        var t := ErrorText();
        return Err(t);
      }
      if g == NULL {
        var t := CStringToWit(Literal(READ_UNKNOWN), true);
        return Err(t);
      }
      AddRootKeepsSound(handles, graphs0, n.contexts, nextHandle, g, RootInfo(g, steps[0].result.value));
      var h := NewHandle(GraphRes(g, true));
      r := Ok(h);
    }

    /** `read_one_graph`: the first graph of the input, wrapped in a new owning
        handle, or the captured diagnostics, or a fixed message when nothing was
        captured and no graph was read. The rest of the input is read and discarded. */
    method ReadOneGraph(dot: seq<char>, steps: seq<ParseStep>) returns (r: Result<nat>)
      requires Valid() && StepsWellFormed(steps)
      modifies this`handles, this`nextHandle, n.errors`len, n.errors.messages, n`sinkOn, n`threshold, n`maxErr
      modifies n`defaults, n`graphs, n`nodes, n`edges, n`next, n`pending, n`mallocd
      ensures Valid() && n.defaults == WithLabelWorkaround(old(n.defaults))
      ensures n.nodes == old(n.nodes) && n.edges == old(n.edges) && n.mallocd == old(n.mallocd)
      ensures n.pending == (if steps == [] then [] else steps[1..][|Drained(steps[1..])|..])
      ensures r.Err? <==> ReadOneVerdict(steps).Err?
      ensures r.Err? ==> r.msg == ReadOneVerdict(steps).msg && handles == old(handles) && n.graphs == old(n.graphs)
      ensures r.Ok? ==>
        && r.value !in old(handles) && r.value in handles && handles == old(handles)[r.value := handles[r.value]]
        && handles[r.value].GraphRes? && handles[r.value].owning
        && var g := handles[r.value].rep;
        && g !in old(n.graphs) && n.graphs == old(n.graphs)[g := RootInfo(g, ReadOneVerdict(steps).value)]
    {
      var g := ReadInput(dot, steps);
      r := FinishRead(g, old(n.graphs), steps);
    }

    // -------------------------------------------------------------------------
    // add_node, add_edge, add_subgraph

    /** `agnode` on a converted name, and the name's release. */
    method NodeAndFree(g: Ptr, c: array<char>) returns (x: Ptr)
      requires n.Valid() && g in n.graphs && c in n.mallocd && Readable(Heap(c))
      modifies n`nodes, n`named, n`next, n`mallocd
      ensures n.Valid() && n.mallocd == old(n.mallocd) - {c}
      ensures NodeLookup(old(n.named), old(n.nodes), (n.graphs[g].root, Chars(Heap(c))), x, n.named, n.nodes)
    {
      x := n.AgNode(g, Heap(c));
      n.Free(c);
    }

    /** The node of that name in g's root, created if absent. */
    method NodeNamed(g: Ptr, name: seq<char>) returns (x: Ptr)
      requires n.Valid() && g in n.graphs
      modifies n`nodes, n`named, n`next, n`mallocd
      ensures n.Valid() && n.mallocd == old(n.mallocd)
      ensures NodeLookup(old(n.named), old(n.nodes), (n.graphs[g].root, CView(name)), x, n.named, n.nodes)
    {
      var c := WitToCString(n, name, true);
      x := NodeAndFree(g, c);
    }

    /** `add_node`: the node of that name in g's root, created if absent, in a new
        handle that owns nothing. */
    method AddNode(g: Ptr, name: seq<char>) returns (h: nat)
      requires Valid() && g in n.graphs
      modifies this`handles, this`nextHandle, n`nodes, n`named, n`next, n`mallocd
      ensures Valid() && h !in old(handles) && h in handles && handles == old(handles)[h := handles[h]]
      ensures handles[h].NodeRes? && n.mallocd == old(n.mallocd)
      ensures NodeLookup(old(n.named), old(n.nodes), (n.graphs[g].root, CView(name)), handles[h].rep, n.named, n.nodes)
    {
      var x := NodeNamed(g, name);
      AddBorrowedKeepsSound(handles, n.graphs, n.contexts, nextHandle, NodeRes(x));
      h := NewHandle(NodeRes(x));
    }

    /** Two boundary strings converted, in order. */
    method ConvertPair(a: seq<char>, b: seq<char>) returns (ca: array<char>, cb: array<char>)
      modifies n`mallocd
      ensures ca != cb && ca !in old(n.mallocd) && cb !in old(n.mallocd) && n.mallocd == old(n.mallocd) + {ca, cb}
      ensures Readable(Heap(ca)) && Chars(Heap(ca)) == CView(a) && Readable(Heap(cb)) && Chars(Heap(cb)) == CView(b)
    {
      var x := WitToCString(n, a, true);
      var y := WitToCString(n, b, true);
      ca, cb := x, y;
    }

    /** Two converted strings released. */
    method FreePair(ca: array<char>, cb: array<char>)
      requires ca != cb && ca in n.mallocd && cb in n.mallocd
      modifies n`mallocd
      ensures n.mallocd == old(n.mallocd) - {ca, cb}
    {
      n.Free(ca);
      n.Free(cb);
    }

    /** The two `agnode` calls of `add_edge`: `named1` and `nodes1` are the tables
        between them. */
    method Endpoints(g: Ptr, cu: array<char>, cv: array<char>)
      returns (xu: Ptr, xv: Ptr, ghost named1: map<(Ptr, seq<char>), Ptr>, ghost nodes1: map<Ptr, Ptr>)
      requires n.Valid() && g in n.graphs && cu in n.mallocd && cv in n.mallocd && Readable(Heap(cu)) && Readable(Heap(cv))
      modifies n`nodes, n`named, n`next
      ensures n.Valid() && xu in n.nodes && xv in n.nodes
      ensures NodeLookup(old(n.named), old(n.nodes), (n.graphs[g].root, Chars(Heap(cu))), xu, named1, nodes1)
      ensures NodeLookup(named1, nodes1, (n.graphs[g].root, Chars(Heap(cv))), xv, n.named, n.nodes)
    {
      xu := n.AgNode(g, Heap(cu));
      named1, nodes1 := n.named, n.nodes;
      xv := n.AgNode(g, Heap(cv));
    }

    /** `agedge` between the nodes of the two names, found or created. */
    method EdgeOf(g: Ptr, cu: array<char>, cv: array<char>)
      returns (e: Ptr, ghost xu: Ptr, ghost xv: Ptr, ghost named1: map<(Ptr, seq<char>), Ptr>, ghost nodes1: map<Ptr, Ptr>)
      requires n.Valid() && g in n.graphs && cu in n.mallocd && cv in n.mallocd && Readable(Heap(cu)) && Readable(Heap(cv))
      modifies n`nodes, n`named, n`edges, n`next
      ensures n.Valid() && e !in old(n.edges) && n.edges == old(n.edges)[e := n.graphs[g].root]
      ensures NodeLookup(old(n.named), old(n.nodes), (n.graphs[g].root, Chars(Heap(cu))), xu, named1, nodes1)
      ensures NodeLookup(named1, nodes1, (n.graphs[g].root, Chars(Heap(cv))), xv, n.named, n.nodes)
    {
      var a, b;
      a, b, named1, nodes1 := Endpoints(g, cu, cv);
      e := n.AgEdge(g, a, b);
      xu, xv := a, b;
    }

    /** The edge of `add_edge`, and the names' release. */
    method EdgeAndFree(g: Ptr, cu: array<char>, cv: array<char>)
      returns (e: Ptr, ghost xu: Ptr, ghost xv: Ptr, ghost named1: map<(Ptr, seq<char>), Ptr>, ghost nodes1: map<Ptr, Ptr>)
      requires n.Valid() && g in n.graphs && cu != cv && cu in n.mallocd && cv in n.mallocd && Readable(Heap(cu)) && Readable(Heap(cv))
      modifies n`nodes, n`named, n`edges, n`next, n`mallocd
      ensures n.Valid() && n.mallocd == old(n.mallocd) - {cu, cv}
      ensures e !in old(n.edges) && n.edges == old(n.edges)[e := n.graphs[g].root]
      ensures NodeLookup(old(n.named), old(n.nodes), (n.graphs[g].root, Chars(Heap(cu))), xu, named1, nodes1)
      ensures NodeLookup(named1, nodes1, (n.graphs[g].root, Chars(Heap(cv))), xv, n.named, n.nodes)
    {
      e, xu, xv, named1, nodes1 := EdgeOf(g, cu, cv);
      FreePair(cu, cv);
    }

    /** A new edge between the nodes named `u` and `v` of g's root, each found or
        created in turn. */
    method EdgeNamed(g: Ptr, u: seq<char>, v: seq<char>)
      returns (e: Ptr, ghost xu: Ptr, ghost xv: Ptr, ghost named1: map<(Ptr, seq<char>), Ptr>, ghost nodes1: map<Ptr, Ptr>)
      requires n.Valid() && g in n.graphs
      modifies n`nodes, n`named, n`edges, n`next, n`mallocd
      ensures n.Valid() && n.mallocd == old(n.mallocd)
      ensures e !in old(n.edges) && n.edges == old(n.edges)[e := n.graphs[g].root]
      ensures NodeLookup(old(n.named), old(n.nodes), (n.graphs[g].root, CView(u)), xu, named1, nodes1)
      ensures NodeLookup(named1, nodes1, (n.graphs[g].root, CView(v)), xv, n.named, n.nodes)
    {
      var cu, cv := ConvertPair(u, v);
      e, xu, xv, named1, nodes1 := EdgeAndFree(g, cu, cv);
    }

    /** `add_edge`: a new edge in g's root from the node named `u` to the node named
        `v`, each found or created in turn, in a new handle that owns nothing. */
    method AddEdge(g: Ptr, u: seq<char>, v: seq<char>)
      returns (h: nat, ghost xu: Ptr, ghost xv: Ptr, ghost named1: map<(Ptr, seq<char>), Ptr>, ghost nodes1: map<Ptr, Ptr>)
      requires Valid() && g in n.graphs
      modifies this`handles, this`nextHandle, n`nodes, n`named, n`edges, n`next, n`mallocd
      ensures Valid() && h !in old(handles) && h in handles && handles == old(handles)[h := handles[h]]
      ensures handles[h].EdgeRes? && n.mallocd == old(n.mallocd)
      ensures handles[h].rep !in old(n.edges) && n.edges == old(n.edges)[handles[h].rep := n.graphs[g].root]
      ensures NodeLookup(old(n.named), old(n.nodes), (n.graphs[g].root, CView(u)), xu, named1, nodes1)
      ensures NodeLookup(named1, nodes1, (n.graphs[g].root, CView(v)), xv, n.named, n.nodes)
    {
      var e;
      e, xu, xv, named1, nodes1 := EdgeNamed(g, u, v);
      AddBorrowedKeepsSound(handles, n.graphs, n.contexts, nextHandle, EdgeRes(e));
      h := NewHandle(EdgeRes(e));
    }

    /** `agsubg` on a converted name, and the name's release. */
    method SubgAndFree(g: Ptr, c: array<char>) returns (s: Ptr)
      requires n.Valid() && g in n.graphs && c in n.mallocd && Readable(Heap(c))
      modifies n`graphs, n`subgraphs, n`next, n`mallocd
      ensures n.Valid() && n.mallocd == old(n.mallocd) - {c} && g in old(n.graphs)
      ensures SubgraphLookup(old(n.subgraphs), old(n.graphs), (g, Chars(Heap(c))), s, n.subgraphs, n.graphs)
    {
      s := n.AgSubg(g, Heap(c));
      n.Free(c);
    }

    /** The subgraph of that name directly under g, created if absent. */
    method SubgraphNamed(g: Ptr, name: seq<char>) returns (s: Ptr)
      requires n.Valid() && g in n.graphs
      modifies n`graphs, n`subgraphs, n`next, n`mallocd
      ensures n.Valid() && n.mallocd == old(n.mallocd) && g in old(n.graphs)
      ensures SubgraphLookup(old(n.subgraphs), old(n.graphs), (g, CView(name)), s, n.subgraphs, n.graphs)
    {
      var c := WitToCString(n, name, true);
      s := SubgAndFree(g, c);
    }

    /** `add_subgraph` as written: the subgraph, found or created, is wrapped as an
        owning graph handle, which no sound handle table can hold. */
    method AddSubgraphAsWritten(g: Ptr, name: seq<char>) returns (r: Resource)
      requires Valid() && g in n.graphs
      modifies n`graphs, n`subgraphs, n`next, n`mallocd
      ensures n.Valid() && n.mallocd == old(n.mallocd) && r.GraphRes? && r.owning
      ensures SubgraphLookup(old(n.subgraphs), old(n.graphs), (g, CView(name)), r.rep, n.subgraphs, n.graphs)
      ensures !OwnershipSound(handles[nextHandle := r], n.graphs, n.contexts)
    {
      var s := SubgraphNamed(g, name);
      OwningSubgraphUnsound(handles, n.graphs, n.contexts, nextHandle, s);
      r := GraphRes(s, true);
    }

    /** `add_subgraph`, corrected: the subgraph, found or created, in a new handle
        that owns nothing; closing its root releases it. */
    method AddSubgraph(g: Ptr, name: seq<char>) returns (h: nat)
      requires Valid() && g in n.graphs
      modifies this`handles, this`nextHandle, n`graphs, n`subgraphs, n`next, n`mallocd
      ensures Valid() && h !in old(handles) && h in handles && handles == old(handles)[h := handles[h]]
      ensures handles[h].GraphRes? && !handles[h].owning && n.mallocd == old(n.mallocd)
      ensures SubgraphLookup(old(n.subgraphs), old(n.graphs), (g, CView(name)), handles[h].rep, n.subgraphs, n.graphs)
    {
      var s := SubgraphNamed(g, name);
      if s !in old(n.graphs) {
        SoundAfterAdd(handles, old(n.graphs), n.contexts, s, n.graphs[s]);
      }
      AddBorrowedKeepsSound(handles, n.graphs, n.contexts, nextHandle, GraphRes(s, false));
      h := NewHandle(GraphRes(s, false));
    }

    // -------------------------------------------------------------------------
    // Attribute values

    /** `agstrdup_html` on a converted string, and the converted string's release. */
    method StrdupAndFree(g: Ptr, hv: array<char>) returns (c: CPtr)
      requires g in n.graphs && hv in n.mallocd && Readable(Heap(hv))
      modifies n`strrefs, n`mallocd
      ensures c.Heap? && fresh(c.buf) && Readable(c) && Chars(c) == old(Chars(Heap(hv)))
      ensures c.buf !in n.mallocd && c.buf !in old(n.strrefs) && c.buf !in n.renderBuffers
      ensures n.strrefs == old(n.strrefs) + multiset{c.buf} && n.mallocd == old(n.mallocd) - {hv}
    {
      ghost var t := Chars(Heap(hv));
      var r := n.AgStrdupHtml(g, Heap(hv));
      n.Free(hv);
      ContentOfEncode(t);
      c := r;
    }

    /** An HTML-like engine copy of a boundary string. */
    method HtmlCopy(g: Ptr, text: seq<char>) returns (c: CPtr)
      requires g in n.graphs
      modifies n`strrefs, n`mallocd
      ensures c.Heap? && fresh(c.buf) && Readable(c) && Chars(c) == CView(text)
      ensures c.buf !in n.mallocd && c.buf !in old(n.strrefs) && c.buf !in n.renderBuffers
      ensures n.strrefs == old(n.strrefs) + multiset{c.buf} && n.mallocd == old(n.mallocd)
    {
      var hv := WitToCString(n, text, true);
      c := StrdupAndFree(g, hv);
    }

    /** `agstrdup_html_with_free`: the value as a C string the engine reads with the
        right flavour. An HTML value becomes an engine reference (not a `malloc`
        block, so the `free` its callers apply to it is invalid); a plain value a
        `malloc` block. */
    method AgstrdupHtmlWithFree(g: Ptr, value: AttrValue) returns (c: CPtr)
      requires g in n.graphs
      modifies n`strrefs, n`mallocd
      ensures c.Heap? && fresh(c.buf) && Readable(c) && Chars(c) == CView(value.text) && n.Live(c)
      ensures n.IsHtml(c) <==> value.Html?
      ensures c.buf !in old(n.mallocd) && c.buf !in old(n.strrefs) && c.buf !in n.renderBuffers
      ensures value.Html? ==> n.strrefs == old(n.strrefs) + multiset{c.buf} && n.mallocd == old(n.mallocd) && c.buf !in n.mallocd
      ensures value.Plain? ==> n.mallocd == old(n.mallocd) + {c.buf} && n.strrefs == old(n.strrefs)
    {
      if value.Html? {
        c := HtmlCopy(g, value.text);
      } else {
        var b := WitToCString(n, value.text, true);
        c := Heap(b);
      }
    }

    /** The release the value's flavour calls for: `agstrfree` for an HTML-like
        string, `free` for a plain one. */
    method ReleaseValue(g: Ptr, c: CPtr, value: AttrValue)
      requires g in n.graphs && c.Heap?
      requires value.Html? ==> c.buf in n.strrefs
      requires value.Plain? ==> c.buf in n.mallocd
      modifies n`strrefs, n`mallocd
      ensures value.Html? ==> n.strrefs == old(n.strrefs) - multiset{c.buf} && n.mallocd == old(n.mallocd)
      ensures value.Plain? ==> n.mallocd == old(n.mallocd) - {c.buf} && n.strrefs == old(n.strrefs)
    {
      if value.Html? {
        n.AgStrFree(g, c);
      } else {
        n.Free(c.buf);
      }
    }

    /** The name's and the value's release, after the engine has copied both. */
    method ReleaseNameAndValue(g: Ptr, cn: array<char>, cv: CPtr, value: AttrValue)
      requires g in n.graphs && cn in n.mallocd && cv.Heap? && cv.buf != cn
      requires value.Html? ==> cv.buf in n.strrefs
      requires value.Plain? ==> cv.buf in n.mallocd
      modifies n`strrefs, n`mallocd
      ensures value.Html? ==> n.strrefs == old(n.strrefs) - multiset{cv.buf} && n.mallocd == old(n.mallocd) - {cn}
      ensures value.Plain? ==> n.mallocd == old(n.mallocd) - {cn, cv.buf} && n.strrefs == old(n.strrefs)
    {
      n.Free(cn);
      ReleaseValue(g, cv, value);
    }

    // -------------------------------------------------------------------------
    // set_default_*_attribute

    /** `agattr` with the converted name and value, and their release. */
    method ApplyDefault(g: Ptr, kind: Kind, cn: array<char>, cv: CPtr, value: AttrValue)
      requires g in n.graphs && cn in n.mallocd && Readable(Heap(cn)) && cv.Heap? && cv.buf != cn
      requires Readable(cv) && Chars(cv) == CView(value.text) && (n.IsHtml(cv) <==> value.Html?)
      requires value.Html? ==> cv.buf in n.strrefs
      requires value.Plain? ==> cv.buf in n.mallocd
      modifies n`defaults, n`strrefs, n`mallocd
      ensures n.defaults == old(n.defaults)[(g, kind, old(Chars(Heap(cn)))) := Converted(value)]
      ensures value.Html? ==> n.strrefs == old(n.strrefs) - multiset{cv.buf} && n.mallocd == old(n.mallocd) - {cn}
      ensures value.Plain? ==> n.mallocd == old(n.mallocd) - {cn, cv.buf} && n.strrefs == old(n.strrefs)
    {
      n.AgAttr(g, kind, Heap(cn), cv);
      ReleaseNameAndValue(g, cn, cv, value);
    }

    /** The value converted, declared as the default under the converted name, and
        both released the way their flavour calls for. */
    method DeclareDefault(g: Ptr, kind: Kind, cn: array<char>, value: AttrValue)
      requires g in n.graphs && cn in n.mallocd && Readable(Heap(cn))
      modifies n`defaults, n`strrefs, n`mallocd
      ensures n.defaults == old(n.defaults)[(g, kind, old(Chars(Heap(cn)))) := Converted(value)]
      ensures n.mallocd == old(n.mallocd) - {cn} && n.strrefs == old(n.strrefs)
    {
      var cv := AgstrdupHtmlWithFree(g, value);
      ApplyDefault(g, kind, cn, cv, value);
    }

    /** `set_default_{graph,node,edge}_attribute`, with the value released by its
        flavour: the default for `kind` in g under the name is the converted value,
        and no memory is held afterwards. */
    method SetDefaultAttribute(g: Ptr, kind: Kind, name: seq<char>, value: AttrValue)
      requires Valid() && g in n.graphs
      modifies n`defaults, n`strrefs, n`mallocd
      ensures Valid() && n.defaults == old(n.defaults)[(g, kind, CView(name)) := Converted(value)]
      ensures n.mallocd == old(n.mallocd) && n.strrefs == old(n.strrefs)
    {
      DefaultNamed(g, kind, name, value);
    }

    /** The name converted, and the default declared under it. */
    method DefaultNamed(g: Ptr, kind: Kind, name: seq<char>, value: AttrValue)
      requires g in n.graphs
      modifies n`defaults, n`strrefs, n`mallocd
      ensures n.defaults == old(n.defaults)[(g, kind, CView(name)) := Converted(value)]
      ensures n.mallocd == old(n.mallocd) && n.strrefs == old(n.strrefs)
    {
      var cn := WitToCString(n, name, true);
      DeclareDefault(g, kind, cn, value);
    }

    /** `set_default_graph_attribute`. */
    method SetDefaultGraphAttribute(g: Ptr, name: seq<char>, value: AttrValue)
      requires Valid() && g in n.graphs
      modifies n`defaults, n`strrefs, n`mallocd
      ensures Valid() && n.defaults == old(n.defaults)[(g, AGRAPH, CView(name)) := Converted(value)]
      ensures n.mallocd == old(n.mallocd) && n.strrefs == old(n.strrefs)
    {
      SetDefaultAttribute(g, AGRAPH, name, value);
    }

    /** `set_default_node_attribute`. */
    method SetDefaultNodeAttribute(g: Ptr, name: seq<char>, value: AttrValue)
      requires Valid() && g in n.graphs
      modifies n`defaults, n`strrefs, n`mallocd
      ensures Valid() && n.defaults == old(n.defaults)[(g, AGNODE, CView(name)) := Converted(value)]
      ensures n.mallocd == old(n.mallocd) && n.strrefs == old(n.strrefs)
    {
      SetDefaultAttribute(g, AGNODE, name, value);
    }

    /** `set_default_edge_attribute`. */
    method SetDefaultEdgeAttribute(g: Ptr, name: seq<char>, value: AttrValue)
      requires Valid() && g in n.graphs
      modifies n`defaults, n`strrefs, n`mallocd
      ensures Valid() && n.defaults == old(n.defaults)[(g, AGEDGE, CView(name)) := Converted(value)]
      ensures n.mallocd == old(n.mallocd) && n.strrefs == old(n.strrefs)
    {
      SetDefaultAttribute(g, AGEDGE, name, value);
    }

    /** `agattr`, then `free` on the name and on the value, as `set_default_*` is
        written: `freeable` says whether the value is a block `free` admits, and the
        model performs that last `free` only then. */
    method ApplyDefaultAsWritten(g: Ptr, kind: Kind, cn: array<char>, cv: CPtr, value: AttrValue) returns (freeable: bool)
      requires g in n.graphs && cn in n.mallocd && Readable(Heap(cn)) && cv.Heap? && cv.buf != cn
      requires Readable(cv) && Chars(cv) == CView(value.text) && (n.IsHtml(cv) <==> value.Html?)
      requires value.Html? ==> cv.buf in n.strrefs && cv.buf !in n.mallocd
      requires value.Plain? ==> cv.buf in n.mallocd
      modifies n`defaults, n`mallocd
      ensures n.defaults == old(n.defaults)[(g, kind, old(Chars(Heap(cn)))) := Converted(value)]
      ensures freeable <==> value.Plain?
      ensures n.mallocd == old(n.mallocd) - {cn, cv.buf}
    {
      n.AgAttr(g, kind, Heap(cn), cv);
      n.Free(cn);
      freeable := cv.buf in n.mallocd;
      if freeable {
        n.Free(cv.buf);
      }
    }

    /** `set_default_{graph,node,edge}_attribute` as written: the default is declared
        as intended, but for an HTML value the final `free` is applied to an engine
        reference, which `free` does not admit (`freeable` is false), and that
        reference, `held`, is never released. */
    method SetDefaultAttributeAsWritten(g: Ptr, kind: Kind, name: seq<char>, value: AttrValue) returns (freeable: bool, ghost held: CPtr)
      requires Valid() && g in n.graphs
      modifies n`defaults, n`strrefs, n`mallocd
      ensures Valid() && n.defaults == old(n.defaults)[(g, kind, CView(name)) := Converted(value)]
      ensures freeable <==> value.Plain?
      ensures n.mallocd == old(n.mallocd)
      ensures value.Plain? ==> n.strrefs == old(n.strrefs)
      ensures value.Html? ==> held.Heap? && held.buf !in old(n.strrefs) && n.strrefs == old(n.strrefs) + multiset{held.buf}
    {
      freeable, held := DefaultNamedAsWritten(g, kind, name, value);
    }

    /** The name converted, and the default declared under it as written. */
    method DefaultNamedAsWritten(g: Ptr, kind: Kind, name: seq<char>, value: AttrValue) returns (freeable: bool, ghost held: CPtr)
      requires g in n.graphs
      modifies n`defaults, n`strrefs, n`mallocd
      ensures n.defaults == old(n.defaults)[(g, kind, CView(name)) := Converted(value)]
      ensures freeable <==> value.Plain?
      ensures n.mallocd == old(n.mallocd)
      ensures value.Plain? ==> n.strrefs == old(n.strrefs)
      ensures value.Html? ==> held.Heap? && held.buf !in old(n.strrefs) && n.strrefs == old(n.strrefs) + multiset{held.buf}
    {
      var cn := WitToCString(n, name, true);
      freeable, held := DeclareDefaultAsWritten(g, kind, cn, value);
    }

    /** The value converted and declared as the default under the converted name,
        then both passed to `free`, as `set_default_*` is written. */
    method DeclareDefaultAsWritten(g: Ptr, kind: Kind, cn: array<char>, value: AttrValue) returns (freeable: bool, ghost held: CPtr)
      requires g in n.graphs && cn in n.mallocd && Readable(Heap(cn))
      modifies n`defaults, n`strrefs, n`mallocd
      ensures n.defaults == old(n.defaults)[(g, kind, old(Chars(Heap(cn)))) := Converted(value)]
      ensures freeable <==> value.Plain?
      ensures n.mallocd == old(n.mallocd) - {cn}
      ensures value.Plain? ==> n.strrefs == old(n.strrefs)
      ensures value.Html? ==> held.Heap? && held.buf !in old(n.strrefs) && n.strrefs == old(n.strrefs) + multiset{held.buf}
    {
      var cv := AgstrdupHtmlWithFree(g, value);
      freeable := ApplyDefaultAsWritten(g, kind, cn, cv, value);
      held := cv;
    }

    // -------------------------------------------------------------------------
    // set_attribute

    /** `agsafeset` with the converted name and value and an empty default, and the
        release of the name and value. */
    method ApplyValue(rep: Ptr, home: Ptr, kind: Kind, cn: array<char>, cv: CPtr, value: AttrValue)
      requires home in n.graphs && cn in n.mallocd && Readable(Heap(cn)) && cv.Heap? && cv.buf != cn
      requires Readable(cv) && Chars(cv) == CView(value.text) && (n.IsHtml(cv) <==> value.Html?)
      requires value.Html? ==> cv.buf in n.strrefs
      requires value.Plain? ==> cv.buf in n.mallocd
      modifies n`defaults, n`values, n`strrefs, n`mallocd
      ensures var key := (home, kind, old(Chars(Heap(cn))));
        n.defaults == (if key in old(n.defaults) then old(n.defaults) else old(n.defaults)[key := AttrText("", false)])
      ensures n.values == old(n.values)[(rep, old(Chars(Heap(cn)))) := Converted(value)]
      ensures value.Html? ==> n.strrefs == old(n.strrefs) - multiset{cv.buf} && n.mallocd == old(n.mallocd) - {cn}
      ensures value.Plain? ==> n.mallocd == old(n.mallocd) - {cn, cv.buf} && n.strrefs == old(n.strrefs)
    {
      n.AgSafeSet(rep, home, kind, Heap(cn), cv, Literal(""));
      ReleaseNameAndValue(home, cn, cv, value);
    }

    /** The value converted, set on the object under the converted name, and both
        released the way their flavour calls for. */
    method SetValue(rep: Ptr, home: Ptr, kind: Kind, cn: array<char>, value: AttrValue)
      requires home in n.graphs && cn in n.mallocd && Readable(Heap(cn))
      modifies n`defaults, n`values, n`strrefs, n`mallocd
      ensures var key := (home, kind, old(Chars(Heap(cn))));
        n.defaults == (if key in old(n.defaults) then old(n.defaults) else old(n.defaults)[key := AttrText("", false)])
      ensures n.values == old(n.values)[(rep, old(Chars(Heap(cn)))) := Converted(value)]
      ensures n.mallocd == old(n.mallocd) - {cn} && n.strrefs == old(n.strrefs)
    {
      var cv := AgstrdupHtmlWithFree(home, value);
      ApplyValue(rep, home, kind, cn, cv, value);
    }

    /** The name converted, and the value set under it. */
    method ValueNamed(rep: Ptr, home: Ptr, kind: Kind, name: seq<char>, value: AttrValue)
      requires home in n.graphs
      modifies n`defaults, n`values, n`strrefs, n`mallocd
      ensures var key := (home, kind, CView(name));
        n.defaults == (if key in old(n.defaults) then old(n.defaults) else old(n.defaults)[key := AttrText("", false)])
      ensures n.values == old(n.values)[(rep, CView(name)) := Converted(value)]
      ensures n.mallocd == old(n.mallocd) && n.strrefs == old(n.strrefs)
    {
      var cn := WitToCString(n, name, true);
      SetValue(rep, home, kind, cn, value);
    }

    /** `set_attribute`, with the value released by its flavour: nothing happens for a
        NULL object; otherwise the attribute is declared for the object's kind in its
        graph with an empty default unless already declared, and the object's value
        under the name is the converted value. */
    method SetAttribute(obj: Object, name: seq<char>, value: AttrValue)
      requires Valid()
      requires obj.ObjGraph? && obj.rep != NULL ==> obj.rep in n.graphs
      requires obj.ObjNode? ==> obj.rep in n.nodes
      requires obj.ObjEdge? ==> obj.rep in n.edges
      modifies n`defaults, n`values, n`strrefs, n`mallocd
      ensures Valid() && n.mallocd == old(n.mallocd) && n.strrefs == old(n.strrefs)
      ensures obj.rep == NULL ==> n.defaults == old(n.defaults) && n.values == old(n.values)
      ensures obj.rep != NULL ==>
        && var key := (Home(obj, n.nodes, n.edges), KindOf(obj), CView(name));
        && n.defaults == (if key in old(n.defaults) then old(n.defaults) else old(n.defaults)[key := AttrText("", false)])
        && n.values == old(n.values)[(obj.rep, CView(name)) := Converted(value)]
    {
      if obj.rep != NULL {
        var home := Home(obj, n.nodes, n.edges);
        assert home in n.graphs;
        ValueNamed(obj.rep, home, KindOf(obj), name, value);
      }
    }

    /** `agsafeset`, then `free` on the name and on the value, as `set_attribute` is
        written: `freeable` says whether the value is a block `free` admits, and the
        model performs that last `free` only then. */
    method ApplyValueAsWritten(rep: Ptr, home: Ptr, kind: Kind, cn: array<char>, cv: CPtr, value: AttrValue) returns (freeable: bool)
      requires home in n.graphs && cn in n.mallocd && Readable(Heap(cn)) && cv.Heap? && cv.buf != cn
      requires Readable(cv) && Chars(cv) == CView(value.text) && (n.IsHtml(cv) <==> value.Html?)
      requires value.Html? ==> cv.buf in n.strrefs && cv.buf !in n.mallocd
      requires value.Plain? ==> cv.buf in n.mallocd
      modifies n`defaults, n`values, n`mallocd
      ensures var key := (home, kind, old(Chars(Heap(cn))));
        n.defaults == (if key in old(n.defaults) then old(n.defaults) else old(n.defaults)[key := AttrText("", false)])
      ensures n.values == old(n.values)[(rep, old(Chars(Heap(cn)))) := Converted(value)]
      ensures freeable <==> value.Plain?
      ensures n.mallocd == old(n.mallocd) - {cn, cv.buf}
    {
      n.AgSafeSet(rep, home, kind, Heap(cn), cv, Literal(""));
      n.Free(cn);
      freeable := cv.buf in n.mallocd;
      if freeable {
        n.Free(cv.buf);
      }
    }

    /** The value converted and set on the object under the converted name, then both
        passed to `free`, as `set_attribute` is written. */
    method SetValueAsWritten(rep: Ptr, home: Ptr, kind: Kind, cn: array<char>, value: AttrValue) returns (freeable: bool, ghost held: CPtr)
      requires home in n.graphs && cn in n.mallocd && Readable(Heap(cn))
      modifies n`defaults, n`values, n`strrefs, n`mallocd
      ensures var key := (home, kind, old(Chars(Heap(cn))));
        n.defaults == (if key in old(n.defaults) then old(n.defaults) else old(n.defaults)[key := AttrText("", false)])
      ensures n.values == old(n.values)[(rep, old(Chars(Heap(cn)))) := Converted(value)]
      ensures freeable <==> value.Plain?
      ensures n.mallocd == old(n.mallocd) - {cn}
      ensures value.Plain? ==> n.strrefs == old(n.strrefs)
      ensures value.Html? ==> held.Heap? && held.buf !in old(n.strrefs) && n.strrefs == old(n.strrefs) + multiset{held.buf}
    {
      var cv := AgstrdupHtmlWithFree(home, value);
      freeable := ApplyValueAsWritten(rep, home, kind, cn, cv, value);
      held := cv;
    }

    /** The name converted, and the value set under it as written. */
    method ValueNamedAsWritten(rep: Ptr, home: Ptr, kind: Kind, name: seq<char>, value: AttrValue) returns (freeable: bool, ghost held: CPtr)
      requires home in n.graphs
      modifies n`defaults, n`values, n`strrefs, n`mallocd
      ensures var key := (home, kind, CView(name));
        n.defaults == (if key in old(n.defaults) then old(n.defaults) else old(n.defaults)[key := AttrText("", false)])
      ensures n.values == old(n.values)[(rep, CView(name)) := Converted(value)]
      ensures freeable <==> value.Plain?
      ensures n.mallocd == old(n.mallocd)
      ensures value.Plain? ==> n.strrefs == old(n.strrefs)
      ensures value.Html? ==> held.Heap? && held.buf !in old(n.strrefs) && n.strrefs == old(n.strrefs) + multiset{held.buf}
    {
      var cn := WitToCString(n, name, true);
      freeable, held := SetValueAsWritten(rep, home, kind, cn, value);
    }

    /** `set_attribute` as written: the attribute is set as intended, but for an HTML
        value on a non-NULL object the final `free` is applied to an engine
        reference, which `free` does not admit (`freeable` is false); that
        reference, `held`, is never released. */
    method SetAttributeAsWritten(obj: Object, name: seq<char>, value: AttrValue) returns (freeable: bool, ghost held: CPtr)
      requires Valid()
      requires obj.ObjGraph? && obj.rep != NULL ==> obj.rep in n.graphs
      requires obj.ObjNode? ==> obj.rep in n.nodes
      requires obj.ObjEdge? ==> obj.rep in n.edges
      modifies n`defaults, n`values, n`strrefs, n`mallocd
      ensures Valid() && n.mallocd == old(n.mallocd)
      ensures freeable <==> obj.rep == NULL || value.Plain?
      ensures obj.rep == NULL || value.Plain? ==> n.strrefs == old(n.strrefs)
      ensures obj.rep != NULL && value.Html? ==>
        held.Heap? && held.buf !in old(n.strrefs) && n.strrefs == old(n.strrefs) + multiset{held.buf}
      ensures obj.rep == NULL ==> n.defaults == old(n.defaults) && n.values == old(n.values)
      ensures obj.rep != NULL ==>
        && var key := (Home(obj, n.nodes, n.edges), KindOf(obj), CView(name));
        && n.defaults == (if key in old(n.defaults) then old(n.defaults) else old(n.defaults)[key := AttrText("", false)])
        && n.values == old(n.values)[(obj.rep, CView(name)) := Converted(value)]
    {
      freeable, held := ObjectValueAsWritten(obj, name, value);
    }

    /** The object's home graph and kind looked up, and the value set on it as
        written; nothing for a NULL object. */
    method ObjectValueAsWritten(obj: Object, name: seq<char>, value: AttrValue) returns (freeable: bool, ghost held: CPtr)
      requires obj.ObjGraph? && obj.rep != NULL ==> obj.rep in n.graphs
      requires obj.ObjNode? ==> obj.rep in n.nodes && n.nodes[obj.rep] in n.graphs
      requires obj.ObjEdge? ==> obj.rep in n.edges && n.edges[obj.rep] in n.graphs
      modifies n`defaults, n`values, n`strrefs, n`mallocd
      ensures n.mallocd == old(n.mallocd)
      ensures freeable <==> obj.rep == NULL || value.Plain?
      ensures obj.rep == NULL || value.Plain? ==> n.strrefs == old(n.strrefs)
      ensures obj.rep != NULL && value.Html? ==>
        held.Heap? && held.buf !in old(n.strrefs) && n.strrefs == old(n.strrefs) + multiset{held.buf}
      ensures obj.rep == NULL ==> n.defaults == old(n.defaults) && n.values == old(n.values)
      ensures obj.rep != NULL ==>
        && var key := (Home(obj, n.nodes, n.edges), KindOf(obj), CView(name));
        && n.defaults == (if key in old(n.defaults) then old(n.defaults) else old(n.defaults)[key := AttrText("", false)])
        && n.values == old(n.values)[(obj.rep, CView(name)) := Converted(value)]
    {
      freeable, held := true, Null;
      if obj.rep != NULL {
        var home := Home(obj, n.nodes, n.edges);
        freeable, held := ValueNamedAsWritten(obj.rep, home, KindOf(obj), name, value);
      }
    }

    // -------------------------------------------------------------------------
    // create_context

    /** `create_context`: a new context with the built-in plugins, in a new owning
        handle; the handle wraps NULL when no context can be created. */
    method CreateContext(ok: bool) returns (h: nat)
      requires Valid()
      modifies this`handles, this`nextHandle, n`contexts, n`next
      ensures Valid() && h !in old(handles) && h in handles && handles == old(handles)[h := handles[h]]
      ensures handles[h].ContextRes? && (handles[h].rep == NULL <==> !ok)
      ensures handles[h].rep == NULL ==> n.contexts == old(n.contexts)
      ensures var c := handles[h].rep; c != NULL ==> old(n.Unused(c)) && n.contexts == old(n.contexts)[c := false]
    {
      var c := n.GvContextPlugins(ok);
      AddContextKeepsSound(handles, n.graphs, old(n.contexts), nextHandle, c);
      h := NewHandle(ContextRes(c));
    }

    // -------------------------------------------------------------------------
    // layout, free_layout

    /** `gvLayout` with the converted engine name, and the name's release; the
        diagnostics reach the reset channel. */
    method RunLayout(c: Ptr, g: Ptr, ce: array<char>, run: LayoutRun) returns (status: int)
      requires n.Valid() && c in n.contexts && g in n.graphs && ce in n.mallocd && Readable(Heap(ce))
      requires WellFormed(run.diags) && n.sinkOn && n.threshold == AGWARN
      modifies n`layouts, n`maxErr, n.errors`len, n.errors.messages, n`mallocd
      ensures n.Valid() && status == run.status && n.mallocd == old(n.mallocd) - {ce}
      ensures n.errors.Text() == Feed(old(n.errors.Text()), Texts(run.diags))
      ensures n.layouts == old(n.layouts) + (if status == 0 || run.leavesState then {(c, g)} else {})
    {
      status := n.GvLayout(c, g, Heap(ce), run);
      n.Free(ce);
      DeliveredToWarnSink(run.diags);
    }

    /** The outcome `layout` reports for the channel's text, with the fallback
        message when `reporting` holds. */
    method LayoutOutcome(status: int, run: LayoutRun, reporting: bool) returns (r: Result<()>)
      requires n.errors.Valid() && n.errors.Text() == Captured(run.diags) && status == run.status
      ensures r == (if reporting then LayoutReportedVerdict(run) else LayoutVerdict(run))
    {
      if status != 0 || n.errors.len > 0 {
        var t;
        if reporting {
          t := CapturedOr(LAYOUT_FAILED);
        } else {
          t := ErrorText();
        }
        r := Err(t);
      } else {
        r := Ok(());
      }
    }

    /** The engine name converted, the layout run, and its outcome. */
    method LayoutWith(c: Ptr, g: Ptr, engine: seq<char>, run: LayoutRun, reporting: bool) returns (r: Result<()>)
      requires n.Valid() && c in n.contexts && g in n.graphs && WellFormed(run.diags)
      modifies n.errors`len, n.errors.messages, n`sinkOn, n`threshold, n`maxErr, n`mallocd, n`layouts
      ensures n.Valid() && n.mallocd == old(n.mallocd)
      ensures n.layouts == old(n.layouts) + (if run.status == 0 || run.leavesState then {(c, g)} else {})
      ensures r == (if reporting then LayoutReportedVerdict(run) else LayoutVerdict(run))
    {
      var ce := Prepare(engine);
      var status := RunLayout(c, g, ce, run);
      r := LayoutOutcome(status, run, reporting);
    }

    /** `layout`: the graph laid out in the context; it fails, with the channel's
        text, when the engine fails or anything was captured. */
    method Layout(c: Ptr, g: Ptr, engine: seq<char>, run: LayoutRun) returns (r: Result<()>)
      requires Valid() && c in n.contexts && g in n.graphs && WellFormed(run.diags)
      modifies n.errors`len, n.errors.messages, n`sinkOn, n`threshold, n`maxErr, n`mallocd, n`layouts
      ensures Valid() && n.mallocd == old(n.mallocd)
      ensures n.layouts == old(n.layouts) + (if run.status == 0 || run.leavesState then {(c, g)} else {})
      ensures r == LayoutVerdict(run)
    {
      r := LayoutWith(c, g, engine, run, false);
    }

    /** `layout`, corrected: a failure with nothing captured reports the fixed
        message `render_dot` uses for the same stage. */
    method LayoutReporting(c: Ptr, g: Ptr, engine: seq<char>, run: LayoutRun) returns (r: Result<()>)
      requires Valid() && c in n.contexts && g in n.graphs && WellFormed(run.diags)
      modifies n.errors`len, n.errors.messages, n`sinkOn, n`threshold, n`maxErr, n`mallocd, n`layouts
      ensures Valid() && n.mallocd == old(n.mallocd)
      ensures n.layouts == old(n.layouts) + (if run.status == 0 || run.leavesState then {(c, g)} else {})
      ensures r == LayoutReportedVerdict(run)
    {
      r := LayoutWith(c, g, engine, run, true);
    }

    /** `free_layout`: the layout state of the graph in the context is released. */
    method FreeLayout(c: Ptr, g: Ptr)
      requires Valid() && c in n.contexts && g in n.graphs
      modifies n`layouts
      ensures Valid() && n.layouts == old(n.layouts) - {(c, g)}
    {
      n.GvFreeLayout(c, g);
    }

    // -------------------------------------------------------------------------
    // render

    /** `gvRenderData` with the converted format, and the format's release; the
        diagnostics reach the channel. */
    method RunRender(c: Ptr, g: Ptr, cf: array<char>, run: RenderRun) returns (status: int, data: CPtr)
      requires n.Valid() && c in n.contexts && g in n.graphs && cf in n.mallocd && Readable(Heap(cf))
      requires WellFormed(run.diags) && n.sinkOn && n.threshold == AGWARN
      modifies n`renderBuffers, n`maxErr, n.errors`len, n.errors.messages, n`mallocd
      ensures n.Valid() && status == run.status && n.mallocd == old(n.mallocd) - {cf}
      ensures n.errors.Text() == Feed(old(n.errors.Text()), Texts(run.diags))
      ensures data.Null? <==> run.data.None?
      ensures data.Null? ==> n.renderBuffers == old(n.renderBuffers)
      ensures !data.Null? ==>
        && data.Heap? && data.buf !in old(n.renderBuffers) && n.renderBuffers == old(n.renderBuffers) + {data.buf}
        && Readable(data) && Chars(data) == CView(run.data.value)
    {
      status, data := RenderCall(c, g, Heap(cf), run);
      n.Free(cf);
    }

    /** `gvRenderData` as `render` and `render_dot` call it: the data, if any, in an
        engine buffer holding the engine's output. */
    method RenderCall(c: Ptr, g: Ptr, format: CPtr, run: RenderRun) returns (status: int, data: CPtr)
      requires n.Valid() && c in n.contexts && g in n.graphs && n.Live(format) && Readable(format)
      requires WellFormed(run.diags) && n.sinkOn && n.threshold == AGWARN
      modifies n`renderBuffers, n`maxErr, n.errors`len, n.errors.messages
      ensures n.Valid() && status == run.status
      ensures n.errors.Text() == Feed(old(n.errors.Text()), Texts(run.diags))
      ensures data.Null? <==> run.data.None?
      ensures data.Null? ==> n.renderBuffers == old(n.renderBuffers)
      ensures !data.Null? ==>
        && data.Heap? && data.buf !in old(n.renderBuffers) && n.renderBuffers == old(n.renderBuffers) + {data.buf}
        && Readable(data) && Chars(data) == CView(run.data.value)
    {
      var length;
      status, data, length := n.GvRenderData(c, g, format, run);
      DeliveredToWarnSink(run.diags);
    }

    /** `gvFreeRenderData` when there is data. */
    method ReleaseData(data: CPtr, ghost buffers0: set<array<char>>)
      requires data.Null? ==> n.renderBuffers == buffers0
      requires !data.Null? ==> data.Heap? && data.buf !in buffers0 && n.renderBuffers == buffers0 + {data.buf}
      modifies n`renderBuffers
      ensures n.renderBuffers == buffers0
    {
      if !data.Null? {
        n.GvFreeRenderData(data);
      }
    }

    /** The outcome `render` reports for the channel's text and the data, with the
        fallback message when `reporting` holds; the data is released. */
    method RenderOutcome(status: int, data: CPtr, run: RenderRun, reporting: bool, ghost buffers0: set<array<char>>)
      returns (r: Result<seq<char>>)
      requires n.errors.Valid() && n.errors.Text() == Captured(run.diags) && status == run.status
      requires data.Null? <==> run.data.None?
      requires data.Null? ==> n.renderBuffers == buffers0
      requires !data.Null? ==>
        && data.Heap? && data.buf !in buffers0 && n.renderBuffers == buffers0 + {data.buf}
        && Readable(data) && Chars(data) == CView(run.data.value)
      modifies n`renderBuffers
      ensures n.renderBuffers == buffers0
      ensures r == (if reporting then RenderReportedVerdict(run) else RenderVerdict(run))
    {
      if status != 0 || n.errors.len > 0 {
        ReleaseData(data, buffers0);
        var t;
        if reporting {
          t := CapturedOr(RENDER_FAILED);
        } else {
          t := ErrorText();
        }
        r := Err(t);
      } else if data.Null? {
        var t := CStringToWit(Literal(RENDER_NO_DATA), true);
        r := Err(t);
      } else {
        var t := CStringToWit(data, true);
        ReleaseData(data, buffers0);
        r := Ok(t);
      }
    }

    /** The converted format, the render run, and its outcome. */
    method RenderFrom(c: Ptr, g: Ptr, cf: array<char>, run: RenderRun, reporting: bool) returns (r: Result<seq<char>>)
      requires n.Valid() && c in n.contexts && g in n.graphs && cf in n.mallocd && Readable(Heap(cf))
      requires WellFormed(run.diags) && n.sinkOn && n.threshold == AGWARN && n.errors.Text() == []
      modifies n`renderBuffers, n`maxErr, n.errors`len, n.errors.messages, n`mallocd
      ensures n.Valid() && n.mallocd == old(n.mallocd) - {cf} && n.renderBuffers == old(n.renderBuffers)
      ensures r == (if reporting then RenderReportedVerdict(run) else RenderVerdict(run))
    {
      var status, data := RunRender(c, g, cf, run);
      r := RenderOutcome(status, data, run, reporting, old(n.renderBuffers));
    }

    /** The format converted, then rendered. */
    method RenderWith(c: Ptr, g: Ptr, format: seq<char>, run: RenderRun, reporting: bool) returns (r: Result<seq<char>>)
      requires n.Valid() && c in n.contexts && g in n.graphs && WellFormed(run.diags)
      modifies n.errors`len, n.errors.messages, n`sinkOn, n`threshold, n`maxErr, n`mallocd, n`renderBuffers
      ensures n.Valid() && n.mallocd == old(n.mallocd) && n.renderBuffers == old(n.renderBuffers)
      ensures r == (if reporting then RenderReportedVerdict(run) else RenderVerdict(run))
    {
      var cf := Prepare(format);
      r := RenderFrom(c, g, cf, run, reporting);
    }

    /** `render`: the laid-out graph in the format; it fails, with the channel's
        text, when the engine fails or anything was captured, and with a fixed
        message when no data comes back; no buffer is held afterwards. */
    method Render(c: Ptr, g: Ptr, format: seq<char>, run: RenderRun) returns (r: Result<seq<char>>)
      requires Valid() && c in n.contexts && g in n.graphs && WellFormed(run.diags)
      modifies n.errors`len, n.errors.messages, n`sinkOn, n`threshold, n`maxErr, n`mallocd, n`renderBuffers
      ensures Valid() && n.mallocd == old(n.mallocd) && n.renderBuffers == old(n.renderBuffers)
      ensures r == RenderVerdict(run)
    {
      r := RenderWith(c, g, format, run, false);
    }

    /** `render`, corrected: a failure with nothing captured reports the fixed
        message `render_dot` uses for the same stage. */
    method RenderReporting(c: Ptr, g: Ptr, format: seq<char>, run: RenderRun) returns (r: Result<seq<char>>)
      requires Valid() && c in n.contexts && g in n.graphs && WellFormed(run.diags)
      modifies n.errors`len, n.errors.messages, n`sinkOn, n`threshold, n`maxErr, n`mallocd, n`renderBuffers
      ensures Valid() && n.mallocd == old(n.mallocd) && n.renderBuffers == old(n.renderBuffers)
      ensures r == RenderReportedVerdict(run)
    {
      r := RenderWith(c, g, format, run, true);
    }

    // -------------------------------------------------------------------------
    // render_dot

    /** `gvFreeLayout` and `agclose` on the graph `render_dot` read: the tables are
        as before the read. */
    method DiscardGraph(c: Ptr, g: Ptr, ghost graphs0: map<Ptr, GraphInfo>, ghost p: Parsed, ghost layouts0: set<(Ptr, Ptr)>)
      requires n.Valid() && c in n.contexts
      requires FreshGraph(g, graphs0, n.nodes, n.edges, layouts0) && n.graphs == graphs0[g := RootInfo(g, p)]
      requires n.layouts == layouts0 || n.layouts == layouts0 + {(c, g)}
      modifies n`layouts, n`graphs, n`nodes, n`edges
      ensures n.Valid() && n.graphs == graphs0 && n.layouts == layouts0
      ensures n.nodes == old(n.nodes) && n.edges == old(n.edges)
    {
      n.GvFreeLayout(c, g);
      assert n.layouts == layouts0;
      CloseRead(g, graphs0, p);
    }

    /** The graph discarded and the converted format released. */
    method DiscardGraphAndFree(c: Ptr, g: Ptr, cf: array<char>, ghost graphs0: map<Ptr, GraphInfo>, ghost p: Parsed, ghost layouts0: set<(Ptr, Ptr)>)
      requires n.Valid() && c in n.contexts && cf in n.mallocd
      requires FreshGraph(g, graphs0, n.nodes, n.edges, layouts0) && n.graphs == graphs0[g := RootInfo(g, p)]
      requires n.layouts == layouts0 || n.layouts == layouts0 + {(c, g)}
      modifies n`layouts, n`graphs, n`nodes, n`edges, n`mallocd
      ensures n.Valid() && n.graphs == graphs0 && n.layouts == layouts0 && n.mallocd == old(n.mallocd) - {cf}
      ensures n.nodes == old(n.nodes) && n.edges == old(n.edges)
    {
      DiscardGraph(c, g, graphs0, p, layouts0);
      n.Free(cf);
    }

    /** The rendered data, if any, and the graph released. */
    method ReleaseDataAndGraph(c: Ptr, g: Ptr, data: CPtr, ghost graphs0: map<Ptr, GraphInfo>, ghost p: Parsed,
                               ghost layouts0: set<(Ptr, Ptr)>, ghost buffers0: set<array<char>>)
      requires n.Valid() && c in n.contexts
      requires FreshGraph(g, graphs0, n.nodes, n.edges, layouts0) && n.graphs == graphs0[g := RootInfo(g, p)]
      requires n.layouts == layouts0 || n.layouts == layouts0 + {(c, g)}
      requires data.Null? ==> n.renderBuffers == buffers0
      requires !data.Null? ==> data.Heap? && data.buf !in buffers0 && n.renderBuffers == buffers0 + {data.buf}
      modifies n`layouts, n`graphs, n`nodes, n`edges, n`renderBuffers
      ensures n.Valid() && n.graphs == graphs0 && n.layouts == layouts0 && n.renderBuffers == buffers0
      ensures n.nodes == old(n.nodes) && n.edges == old(n.edges)
    {
      ReleaseData(data, buffers0);
      DiscardGraph(c, g, graphs0, p, layouts0);
    }

    /** Step 3 of `render_dot` after `gvRenderData`: the fallback message on failure
        or missing data, the data otherwise; everything is released. */
    method RenderDotOutcome(c: Ptr, g: Ptr, status: int, data: CPtr, rrun: RenderRun, ghost graphs0: map<Ptr, GraphInfo>,
                            ghost p: Parsed, ghost layouts0: set<(Ptr, Ptr)>, ghost buffers0: set<array<char>>)
      returns (r: Result<seq<char>>)
      requires n.Valid() && c in n.contexts && status == rrun.status
      requires FreshGraph(g, graphs0, n.nodes, n.edges, layouts0) && n.graphs == graphs0[g := RootInfo(g, p)]
      requires n.layouts == layouts0 || n.layouts == layouts0 + {(c, g)}
      requires data.Null? <==> rrun.data.None?
      requires data.Null? ==> n.renderBuffers == buffers0
      requires !data.Null? ==>
        && data.Heap? && data.buf !in buffers0 && n.renderBuffers == buffers0 + {data.buf}
        && Readable(data) && Chars(data) == CView(rrun.data.value)
      modifies n`layouts, n`graphs, n`nodes, n`edges, n`renderBuffers
      ensures n.Valid() && n.graphs == graphs0 && n.layouts == layouts0 && n.renderBuffers == buffers0
      ensures n.nodes == old(n.nodes) && n.edges == old(n.edges)
      ensures r == (if rrun.status != 0 || rrun.data.None? then Err(Fallback(n.errors.Text(), RENDER_FAILED)) else Ok(CView(rrun.data.value)))
    {
      if status != 0 || data.Null? {
        var t := CapturedOr(RENDER_FAILED);
        ReleaseDataAndGraph(c, g, data, graphs0, p, layouts0, buffers0);
        r := Err(t);
      } else {
        var t := CStringToWit(data, true);
        ReleaseDataAndGraph(c, g, data, graphs0, p, layouts0, buffers0);
        r := Ok(t);
      }
    }

    /** Step 3 of `render_dot`: the render run on the laid-out graph, with `before`
        the diagnostics captured so far. */
    method RenderStage(c: Ptr, g: Ptr, cf: array<char>, rrun: RenderRun, ghost before: seq<Diag>,
                       ghost graphs0: map<Ptr, GraphInfo>, ghost p: Parsed, ghost layouts0: set<(Ptr, Ptr)>)
      returns (r: Result<seq<char>>)
      requires n.Valid() && c in n.contexts && cf in n.mallocd && Readable(Heap(cf))
      requires WellFormed(rrun.diags) && n.sinkOn && n.threshold == AGWARN && n.errors.Text() == Captured(before)
      requires FreshGraph(g, graphs0, n.nodes, n.edges, layouts0) && n.graphs == graphs0[g := RootInfo(g, p)]
      requires n.layouts == layouts0 || n.layouts == layouts0 + {(c, g)}
      modifies n`renderBuffers, n`maxErr, n.errors`len, n.errors.messages, n`mallocd, n`layouts, n`graphs, n`nodes, n`edges
      ensures n.Valid() && n.graphs == graphs0 && n.layouts == layouts0 && n.renderBuffers == old(n.renderBuffers)
      ensures n.nodes == old(n.nodes) && n.edges == old(n.edges) && n.mallocd == old(n.mallocd) - {cf}
      ensures r == (if rrun.status != 0 || rrun.data.None? then Err(Fallback(Captured(before + rrun.diags), RENDER_FAILED))
                    else Ok(CView(rrun.data.value)))
    {
      var status, data := RunRender(c, g, cf, rrun);
      CapturedConcat(before, rrun.diags);
      r := RenderDotOutcome(c, g, status, data, rrun, graphs0, p, layouts0, old(n.renderBuffers));
    }

    /** Step 2 of `render_dot` when the graph failed to lay out: the fallback message,
        and the graph and the format released. */
    method LayoutFailedDot(c: Ptr, g: Ptr, cf: array<char>, ghost graphs0: map<Ptr, GraphInfo>, ghost p: Parsed, ghost layouts0: set<(Ptr, Ptr)>)
      returns (r: Result<seq<char>>)
      requires n.Valid() && c in n.contexts && cf in n.mallocd
      requires FreshGraph(g, graphs0, n.nodes, n.edges, layouts0) && n.graphs == graphs0[g := RootInfo(g, p)]
      requires n.layouts == layouts0 || n.layouts == layouts0 + {(c, g)}
      modifies n`layouts, n`graphs, n`nodes, n`edges, n`mallocd
      ensures n.Valid() && n.graphs == graphs0 && n.layouts == layouts0 && n.mallocd == old(n.mallocd) - {cf}
      ensures n.nodes == old(n.nodes) && n.edges == old(n.edges)
      ensures r == Err(Fallback(n.errors.Text(), LAYOUT_FAILED))
    {
      var t := CapturedOr(LAYOUT_FAILED);
      DiscardGraphAndFree(c, g, cf, graphs0, p, layouts0);
      r := Err(t);
    }

    /** Steps 2 and 3 of `render_dot` on the graph it read. */
    method LayoutAndRender(c: Ptr, g: Ptr, ce: array<char>, cf: array<char>, lrun: LayoutRun, rrun: RenderRun,
                           ghost first: seq<Diag>, ghost graphs0: map<Ptr, GraphInfo>, ghost p: Parsed)
      returns (r: Result<seq<char>>)
      requires n.Valid() && c in n.contexts && ce != cf && ce in n.mallocd && cf in n.mallocd
      requires Readable(Heap(ce)) && Readable(Heap(cf))
      requires WellFormed(lrun.diags) && WellFormed(rrun.diags)
      requires n.sinkOn && n.threshold == AGWARN && n.errors.Text() == Captured(first)
      requires FreshGraph(g, graphs0, n.nodes, n.edges, n.layouts) && n.graphs == graphs0[g := RootInfo(g, p)]
      modifies n`layouts, n`maxErr, n.errors`len, n.errors.messages, n`mallocd, n`renderBuffers, n`graphs, n`nodes, n`edges
      ensures n.Valid() && n.graphs == graphs0 && n.layouts == old(n.layouts) && n.renderBuffers == old(n.renderBuffers)
      ensures n.nodes == old(n.nodes) && n.edges == old(n.edges) && n.mallocd == old(n.mallocd) - {ce, cf}
      ensures r == (if lrun.status != 0 then Err(Fallback(Captured(first + lrun.diags), LAYOUT_FAILED))
                    else if rrun.status != 0 || rrun.data.None? then Err(Fallback(Captured(first + lrun.diags + rrun.diags), RENDER_FAILED))
                    else Ok(CView(rrun.data.value)))
    {
      var status := RunLayout(c, g, ce, lrun);
      CapturedConcat(first, lrun.diags);
      r := AfterLayout(c, g, cf, status, lrun, rrun, first, graphs0, p, old(n.layouts));
    }

    /** Step 2 of `render_dot` after `gvLayout`: a failure is reported and the graph
        discarded, otherwise step 3 follows. */
    method AfterLayout(c: Ptr, g: Ptr, cf: array<char>, status: int, lrun: LayoutRun, rrun: RenderRun,
                       ghost first: seq<Diag>, ghost graphs0: map<Ptr, GraphInfo>, ghost p: Parsed, ghost layouts0: set<(Ptr, Ptr)>)
      returns (r: Result<seq<char>>)
      requires n.Valid() && c in n.contexts && cf in n.mallocd && Readable(Heap(cf)) && status == lrun.status
      requires WellFormed(rrun.diags) && n.sinkOn && n.threshold == AGWARN && n.errors.Text() == Captured(first + lrun.diags)
      requires FreshGraph(g, graphs0, n.nodes, n.edges, layouts0) && n.graphs == graphs0[g := RootInfo(g, p)]
      requires n.layouts == layouts0 || n.layouts == layouts0 + {(c, g)}
      modifies n`renderBuffers, n`maxErr, n.errors`len, n.errors.messages, n`mallocd, n`layouts, n`graphs, n`nodes, n`edges
      ensures n.Valid() && n.graphs == graphs0 && n.layouts == layouts0 && n.renderBuffers == old(n.renderBuffers)
      ensures n.nodes == old(n.nodes) && n.edges == old(n.edges) && n.mallocd == old(n.mallocd) - {cf}
      ensures r == (if lrun.status != 0 then Err(Fallback(Captured(first + lrun.diags), LAYOUT_FAILED))
                    else if rrun.status != 0 || rrun.data.None? then Err(Fallback(Captured(first + lrun.diags + rrun.diags), RENDER_FAILED))
                    else Ok(CView(rrun.data.value)))
    {
      if status != 0 {
        r := LayoutFailedDot(c, g, cf, graphs0, p, layouts0);
      } else {
        r := RenderStage(c, g, cf, rrun, first + lrun.diags, graphs0, p, layouts0);
      }
    }

    /** The graph, node, edge, layout and render-buffer tables are the given ones. */
    ghost predicate Tables(graphs0: map<Ptr, GraphInfo>, nodes0: map<Ptr, Ptr>, edges0: map<Ptr, Ptr>,
                           layouts0: set<(Ptr, Ptr)>, buffers0: set<array<char>>)
      reads n
    {
      n.graphs == graphs0 && n.nodes == nodes0 && n.edges == edges0 && n.layouts == layouts0 && n.renderBuffers == buffers0
    }

    /** Step 1 of `render_dot` when no graph was read: the fallback message, and the
        engine name and format released. */
    method ReadFailed(ce: array<char>, cf: array<char>) returns (r: Result<seq<char>>)
      requires n.errors.Valid() && ce != cf && ce in n.mallocd && cf in n.mallocd
      modifies n`mallocd
      ensures n.mallocd == old(n.mallocd) - {ce, cf}
      ensures r == Err(Fallback(n.errors.Text(), READ_DOT_FAILED))
    {
      var t := CapturedOr(READ_DOT_FAILED);
      FreePair(ce, cf);
      r := Err(t);
    }

    /** The graph read from the converted input, then laid out and rendered. */
    method ParseAndRun(c: Ptr, cd: array<char>, ce: array<char>, cf: array<char>, steps: seq<ParseStep>, lrun: LayoutRun, rrun: RenderRun)
      returns (r: Result<seq<char>>)
      requires n.Valid() && c in n.contexts && cd != ce && cd != cf && ce != cf
      requires cd in n.mallocd && ce in n.mallocd && cf in n.mallocd
      requires Readable(Heap(cd)) && Readable(Heap(ce)) && Readable(Heap(cf))
      requires StepsWellFormed(steps) && WellFormed(lrun.diags) && WellFormed(rrun.diags)
      requires n.sinkOn && n.threshold == AGWARN && n.errors.Text() == []
      modifies n`defaults, n`graphs, n`next, n`pending, n`maxErr, n.errors`len, n.errors.messages, n`mallocd
      modifies n`layouts, n`renderBuffers, n`nodes, n`edges
      ensures n.Valid() && n.defaults == WithLabelWorkaround(old(n.defaults))
      ensures n.pending == (if steps == [] then [] else steps[1..])
      ensures Tables(old(n.graphs), old(n.nodes), old(n.edges), old(n.layouts), old(n.renderBuffers))
      ensures n.mallocd == old(n.mallocd) - {cd, ce, cf}
      ensures r == RenderDotVerdict(steps, lrun, rrun)
    {
      var g := ParseFirst(cd, steps);
      r := AfterRead(c, g, ce, cf, steps, lrun, rrun, old(n.graphs));
    }

    /** Step 1 of `render_dot` after `agmemread`: a failure is reported, otherwise
        steps 2 and 3 follow. */
    method AfterRead(c: Ptr, g: Ptr, ce: array<char>, cf: array<char>, steps: seq<ParseStep>, lrun: LayoutRun, rrun: RenderRun,
                     ghost graphs0: map<Ptr, GraphInfo>)
      returns (r: Result<seq<char>>)
      requires n.Valid() && c in n.contexts && ce != cf && ce in n.mallocd && cf in n.mallocd
      requires Readable(Heap(ce)) && Readable(Heap(cf))
      requires WellFormed(lrun.diags) && WellFormed(rrun.diags)
      requires n.sinkOn && n.threshold == AGWARN && n.errors.Text() == Captured(if steps == [] then [] else steps[0].diags)
      requires g == NULL <==> steps == [] || steps[0].result.None?
      requires g == NULL ==> n.graphs == graphs0
      requires g != NULL ==> FreshGraph(g, graphs0, n.nodes, n.edges, n.layouts) && n.graphs == graphs0[g := RootInfo(g, steps[0].result.value)]
      modifies n`layouts, n`maxErr, n.errors`len, n.errors.messages, n`mallocd, n`renderBuffers, n`graphs, n`nodes, n`edges
      ensures n.Valid() && Tables(graphs0, old(n.nodes), old(n.edges), old(n.layouts), old(n.renderBuffers))
      ensures n.mallocd == old(n.mallocd) - {ce, cf}
      ensures r == RenderDotVerdict(steps, lrun, rrun)
    {
      if g == NULL {
        r := ReadFailed(ce, cf);
      } else {
        r := LayoutAndRender(c, g, ce, cf, lrun, rrun, steps[0].diags, graphs0, steps[0].result.value);
      }
    }

    /** The engine name and format converted, then the rest of `render_dot`. */
    method RenderDotFrom(c: Ptr, cd: array<char>, engine: seq<char>, format: seq<char>, steps: seq<ParseStep>, lrun: LayoutRun, rrun: RenderRun)
      returns (r: Result<seq<char>>)
      requires n.Valid() && c in n.contexts && cd in n.mallocd && Readable(Heap(cd))
      requires StepsWellFormed(steps) && WellFormed(lrun.diags) && WellFormed(rrun.diags)
      requires n.sinkOn && n.threshold == AGWARN && n.errors.Text() == []
      modifies n`defaults, n`graphs, n`next, n`pending, n`maxErr, n.errors`len, n.errors.messages, n`mallocd
      modifies n`layouts, n`renderBuffers, n`nodes, n`edges
      ensures n.Valid() && n.defaults == WithLabelWorkaround(old(n.defaults))
      ensures n.pending == (if steps == [] then [] else steps[1..])
      ensures n.graphs == old(n.graphs) && n.nodes == old(n.nodes) && n.edges == old(n.edges)
      ensures n.layouts == old(n.layouts) && n.renderBuffers == old(n.renderBuffers) && n.mallocd == old(n.mallocd) - {cd}
      ensures r == RenderDotVerdict(steps, lrun, rrun)
    {
      var ce, cf := ConvertPair(engine, format);
      r := ParseAndRun(c, cd, ce, cf, steps, lrun, rrun);
    }

    /** `render_dot`: a graph read from DOT text, laid out and rendered in one call;
        the outcome is `RenderDotVerdict`, and no graph, layout, buffer or block
        outlives the call. */
    method RenderDot(c: Ptr, dot: seq<char>, engine: seq<char>, format: seq<char>, steps: seq<ParseStep>, lrun: LayoutRun, rrun: RenderRun)
      returns (r: Result<seq<char>>)
      requires Valid() && c in n.contexts
      requires StepsWellFormed(steps) && WellFormed(lrun.diags) && WellFormed(rrun.diags)
      modifies n.errors`len, n.errors.messages, n`sinkOn, n`threshold, n`maxErr, n`defaults, n`graphs, n`next, n`pending
      modifies n`mallocd, n`layouts, n`renderBuffers, n`nodes, n`edges
      ensures Valid() && n.defaults == WithLabelWorkaround(old(n.defaults))
      ensures n.pending == (if steps == [] then [] else steps[1..])
      ensures n.graphs == old(n.graphs) && n.nodes == old(n.nodes) && n.edges == old(n.edges)
      ensures n.layouts == old(n.layouts) && n.renderBuffers == old(n.renderBuffers) && n.mallocd == old(n.mallocd)
      ensures r == RenderDotVerdict(steps, lrun, rrun)
    {
      var cd := Prepare(dot);
      r := RenderDotFrom(c, cd, engine, format, steps, lrun, rrun);
    }
  }
}
