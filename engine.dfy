/** The Graphviz engine as the binding layer sees it: an abstract state of live
    resources and one method per engine entry point the layer calls. What the
    engine does with the text it parses, lays out or renders is not modelled; each
    call takes an oracle argument describing its outcome (the diagnostics it
    reports, its status, whether it yields a graph or data), and its contract says
    which resources it creates or releases. */
module Engine {
  import opened Wrappers
  import opened CString
  import opened Diagnostics

  /** A native address; 0 is NULL. */
  type Ptr = nat
  const NULL: Ptr := 0

  /** The engine's diagnostic levels that reach a sink. */
  datatype Level = AGWARN | AGERR

  function Rank(l: Level): nat {
    match l
    case AGWARN => 0
    case AGERR => 1
  }

  /** One diagnostic the engine reports through `agerr`. */
  datatype Diag = Diag(level: Level, text: seq<char>)

  /** Every diagnostic text is a C string. */
  predicate WellFormed(ds: seq<Diag>) {
    forall i :: 0 <= i < |ds| ==> NoNul(ds[i].text)
  }

  /** The texts of `ds`, in order. */
  function Texts(ds: seq<Diag>): (t: seq<seq<char>>)
    ensures |t| == |ds| && forall i :: 0 <= i < |ds| ==> t[i] == ds[i].text
  {
    seq(|ds|, i requires 0 <= i < |ds| => ds[i].text)
  }

  /** The lines the registered sink receives when the engine reports `ds`: none
      without a sink, otherwise those at or above the error threshold. */
  function Delivered(ds: seq<Diag>, sinkOn: bool, threshold: Level): seq<seq<char>>
    decreases |ds|
  {
    if ds == [] then []
    else
      var last := ds[|ds| - 1];
      Delivered(ds[..|ds| - 1], sinkOn, threshold)
        + (if sinkOn && Rank(last.level) >= Rank(threshold) then [last.text] else [])
  }

  /** With the sink registered and the threshold at AGWARN, every diagnostic
      reaches the sink. */
  lemma {:induction false} DeliveredToWarnSink(ds: seq<Diag>)
    ensures Delivered(ds, true, AGWARN) == Texts(ds)
    decreases |ds|
  {
    if ds != [] {
      DeliveredToWarnSink(ds[..|ds| - 1]);
      assert Texts(ds) == Texts(ds[..|ds| - 1]) + [ds[|ds| - 1].text];
    }
  }

  /** The text a freshly reset channel holds once the engine has reported `ds`. */
  function Captured(ds: seq<Diag>): seq<char> {
    Accumulate(Texts(ds))
  }

  /** Graph descriptor given to `agopen`. */
  datatype Desc = Desc(directed: bool, strict: bool)

  /** A live (sub)graph: its name, descriptor, root and proper ancestors. */
  datatype GraphInfo = GraphInfo(name: seq<char>, desc: Desc, root: Ptr, ancestors: set<Ptr>)

  /** The object kinds an attribute is declared for. */
  datatype Kind = AGRAPH | AGNODE | AGEDGE

  /** An attribute value as the engine stores it; `html` marks HTML-like strings. */
  datatype AttrText = AttrText(text: seq<char>, html: bool)

  /** The graph one read of the parser yields. */
  datatype Parsed = Parsed(name: seq<char>, desc: Desc)

  /** One `agmemread` call: what the parser reports, and the graph it yields if any. */
  datatype ParseStep = ParseStep(diags: seq<Diag>, result: Option<Parsed>)

  predicate StepsWellFormed(steps: seq<ParseStep>) {
    forall i :: 0 <= i < |steps| ==> WellFormed(steps[i].diags)
  }

  /** One `gvLayout` call: its diagnostics, its status, and whether a failed run
      still left layout state on the graph. */
  datatype LayoutRun = LayoutRun(diags: seq<Diag>, status: int, leavesState: bool)

  /** One `gvRenderData` call: its diagnostics, its status and the data it returns. */
  datatype RenderRun = RenderRun(diags: seq<Diag>, status: int, data: Option<seq<char>>)
  /** The heap blocks a list of C pointers points at. */
  function Bufs(ps: seq<CPtr>): (r: set<object>)
    ensures forall i :: 0 <= i < |ps| && ps[i].Heap? ==> ps[i].buf in r
  {
    if ps == [] then {}
    else Bufs(ps[..|ps| - 1]) + (if ps[|ps| - 1].Heap? then {ps[|ps| - 1].buf as object} else {})
  }

  /** A block none of the pointers targets is not among them. */
  lemma BufsExcludes(ps: seq<CPtr>, o: object)
    requires forall i :: 0 <= i < |ps| && ps[i].Heap? ==> ps[i].buf != o
    ensures o !in Bufs(ps)
    decreases |ps|
  {
    if ps != [] {
      BufsExcludes(ps[..|ps| - 1], o);
    }
  }

  /** Every block in `Bufs(ps)` is the target of one of the pointers. */
  lemma BufsMembers(ps: seq<CPtr>, o: object)
    requires o in Bufs(ps)
    ensures exists i :: 0 <= i < |ps| && ps[i].Heap? && ps[i].buf == o
    decreases |ps|
  {
    if o !in Bufs(ps[..|ps| - 1]) {
      assert ps[|ps| - 1].buf == o;
    } else {
      BufsMembers(ps[..|ps| - 1], o);
      var i :| 0 <= i < |ps| - 1 && ps[..|ps| - 1][i].Heap? && ps[..|ps| - 1][i].buf == o;
      assert ps[i] == ps[..|ps| - 1][i];
    }
  }

  // ---------------------------------------------------------------------------
  // The graph table

  /** A graph is a root when it has no ancestors. */
  predicate IsRoot(graphs: map<Ptr, GraphInfo>, g: Ptr) {
    g in graphs && graphs[g].ancestors == {}
  }

  /** The entry `agopen` or the parser adds for a new root graph. */
  function RootInfo(g: Ptr, p: Parsed): GraphInfo {
    GraphInfo(p.name, p.desc, g, {})
  }

  /** `agclose(g)` on the graph table: g and every subgraph below it are gone,
      every other graph stays as it was. */
  function CloseGraphs(graphs: map<Ptr, GraphInfo>, g: Ptr): (r: map<Ptr, GraphInfo>)
    ensures g !in r
    ensures forall h :: h in r <==> h in graphs && h != g && g !in graphs[h].ancestors
    ensures forall h :: h in r ==> r[h] == graphs[h]
  {
    map h | h in graphs && h != g && g !in graphs[h].ancestors :: graphs[h]
  }

  /** `agclose(g)` on the node or edge table: what belongs to root g is gone. */
  function Detach(m: map<Ptr, Ptr>, g: Ptr): (r: map<Ptr, Ptr>)
    ensures forall x :: x in r <==> x in m && m[x] != g
    ensures forall x :: x in r ==> r[x] == m[x]
  {
    map x | x in m && m[x] != g :: m[x]
  }

  /** Closing a root leaves every other root graph live. */
  lemma CloseKeepsOtherRoots(graphs: map<Ptr, GraphInfo>, g: Ptr, h: Ptr)
    requires IsRoot(graphs, g) && IsRoot(graphs, h) && h != g
    ensures IsRoot(CloseGraphs(graphs, g), h)
  {
  }

  /** Every graph's root is a live root graph: a root is its own root and a
      subgraph's root is one of its ancestors. */
  predicate RootsConsistent(graphs: map<Ptr, GraphInfo>) {
    forall h :: h in graphs ==>
      && IsRoot(graphs, graphs[h].root)
      && (graphs[h].ancestors == {} ==> graphs[h].root == h)
      && (graphs[h].ancestors != {} ==> graphs[h].root in graphs[h].ancestors)
  }

  /** Every node or edge belongs to a live root graph. */
  predicate AttachedToRoots(m: map<Ptr, Ptr>, graphs: map<Ptr, GraphInfo>) {
    forall x :: x in m ==> IsRoot(graphs, m[x])
  }

  /** Closing any graph keeps the graph table consistent. */
  lemma CloseKeepsConsistent(graphs: map<Ptr, GraphInfo>, g: Ptr)
    requires RootsConsistent(graphs)
    ensures RootsConsistent(CloseGraphs(graphs, g))
  {
    var r := CloseGraphs(graphs, g);
    forall h | h in r
      ensures IsRoot(r, r[h].root)
    {
      var t := graphs[h].root;
      assert t != g by {
        if graphs[h].ancestors == {} {
          assert t == h;
        } else {
          assert t in graphs[h].ancestors;
        }
      }
      assert IsRoot(graphs, t);
    }
  }

  /** Closing a graph keeps what is left of a node or edge table attached. */
  lemma CloseKeepsAttached(m: map<Ptr, Ptr>, graphs: map<Ptr, GraphInfo>, g: Ptr)
    requires AttachedToRoots(m, graphs)
    ensures AttachedToRoots(Detach(m, g), CloseGraphs(graphs, g))
  {
    forall x | x in Detach(m, g)
      ensures IsRoot(CloseGraphs(graphs, g), m[x])
    {
      assert IsRoot(graphs, m[x]);
    }
  }

  /** A graph added at an unused address, as a new root or as a subgraph below a
      live graph, keeps the tables consistent and leaves every root a root. */
  lemma AddGraphKeepsConsistent(graphs: map<Ptr, GraphInfo>, s: Ptr, info: GraphInfo)
    requires RootsConsistent(graphs) && s !in graphs
    requires (info.ancestors == {} && info.root == s)
      || (info.ancestors != {} && exists g :: g in graphs && info.root == graphs[g].root && info.ancestors == graphs[g].ancestors + {g})
    ensures RootsConsistent(graphs[s := info])
    ensures forall h :: IsRoot(graphs, h) ==> IsRoot(graphs[s := info], h)
  {
    if info.ancestors != {} {
      var g :| g in graphs && info.root == graphs[g].root && info.ancestors == graphs[g].ancestors + {g};
      assert IsRoot(graphs, info.root);
      assert graphs[g].ancestors == {} ==> graphs[g].root == g;
    }
  }

  /** The engine's lookup of subgraph `key.1` of graph `key.0` finds a live graph
      below it. */
  predicate Below(subgraphs: map<(Ptr, seq<char>), Ptr>, graphs: map<Ptr, GraphInfo>, key: (Ptr, seq<char>)) {
    key in subgraphs && subgraphs[key] in graphs && key.0 in graphs[subgraphs[key]].ancestors
  }

  /** `agnode(g, name, 1)` on the name and node tables, where `key` is g's root and
      the name: an existing node of that name is found, otherwise node `x`, at an
      address no node used, is created in the root. */
  predicate NodeLookup(named0: map<(Ptr, seq<char>), Ptr>, nodes0: map<Ptr, Ptr>, key: (Ptr, seq<char>), x: Ptr,
                       named: map<(Ptr, seq<char>), Ptr>, nodes: map<Ptr, Ptr>) {
    && key in named && named[key] == x && x in nodes
    && (key in named0 && named0[key] in nodes0 ==> x == named0[key] && nodes == nodes0 && named == named0)
    && (!(key in named0 && named0[key] in nodes0) ==> x !in nodes0 && nodes == nodes0[x := key.0] && named == named0[key := x])
  }

  /** `agsubg(g, name, 1)` on the subgraph and graph tables, where `key` is g and the
      name: a live subgraph of that name below g is found, otherwise subgraph `s`, at
      an address no graph used, is created directly below g. */
  predicate SubgraphLookup(subgraphs0: map<(Ptr, seq<char>), Ptr>, graphs0: map<Ptr, GraphInfo>, key: (Ptr, seq<char>), s: Ptr,
                           subgraphs: map<(Ptr, seq<char>), Ptr>, graphs: map<Ptr, GraphInfo>)
    requires key.0 in graphs0
  {
    && s in graphs && key.0 in graphs[s].ancestors
    && (Below(subgraphs0, graphs0, key) ==> s == subgraphs0[key] && graphs == graphs0 && subgraphs == subgraphs0)
    && (!Below(subgraphs0, graphs0, key) ==>
          && s !in graphs0
          && graphs == graphs0[s := GraphInfo(key.1, graphs0[key.0].desc, graphs0[key.0].root, graphs0[key.0].ancestors + {key.0})]
          && subgraphs == subgraphs0[key := s])
  }

  /** No graph has `g` as an ancestor. */
  predicate NotAncestor(graphs: map<Ptr, GraphInfo>, g: Ptr) {
    forall h :: h in graphs ==> g !in graphs[h].ancestors
  }

  /** No node or edge belongs to `g`. */
  predicate NotTarget(m: map<Ptr, Ptr>, g: Ptr) {
    forall x :: x in m ==> m[x] != g
  }

  /** Address g is free for a new graph: no graph, node, edge or layout refers to it. */
  predicate FreshGraph(g: Ptr, graphs: map<Ptr, GraphInfo>, nodes: map<Ptr, Ptr>, edges: map<Ptr, Ptr>, layouts: set<(Ptr, Ptr)>) {
    && g != NULL && g !in graphs && NotAncestor(graphs, g) && NotTarget(nodes, g) && NotTarget(edges, g)
    && forall pr :: pr in layouts ==> pr.1 != g
  }

  /** Address c is free for a new context: no context or layout refers to it. */
  predicate FreshContext(c: Ptr, contexts: map<Ptr, bool>, layouts: set<(Ptr, Ptr)>) {
    c != NULL && c !in contexts && forall pr :: pr in layouts ==> pr.0 != c
  }

  /** Closing a root just added at an unused address restores the graph table. */
  lemma CloseFreshGraph(graphs: map<Ptr, GraphInfo>, g: Ptr, p: Parsed)
    requires g !in graphs && NotAncestor(graphs, g)
    ensures CloseGraphs(graphs[g := RootInfo(g, p)], g) == graphs
  {
    assert forall h :: h in CloseGraphs(graphs[g := RootInfo(g, p)], g) <==> h in graphs;
  }

  /** Closing a graph nothing belongs to leaves a node or edge table alone. */
  lemma DetachFresh(m: map<Ptr, Ptr>, g: Ptr)
    requires NotTarget(m, g)
    ensures Detach(m, g) == m
  {
    assert forall x :: x in Detach(m, g) <==> x in m;
  }

  /** `gvFreeContext(c)` on the layout table: the layouts made through c are gone. */
  function FreeLayouts(layouts: set<(Ptr, Ptr)>, c: Ptr): (r: set<(Ptr, Ptr)>)
    ensures forall pr :: pr in r <==> pr in layouts && pr.0 != c
  {
    set pr | pr in layouts && pr.0 != c
  }

  /** Registering a context at an unused address and removing it again restores
      the table. */
  lemma ContextsRestored(m: map<Ptr, bool>, c: Ptr, v: bool)
    requires c !in m
    ensures m[c := v] - {c} == m
  {
    assert forall d :: d in m[c := v] - {c} <==> d in m;
  }

  predicate GraphsBounded(gs: map<Ptr, GraphInfo>, next: Ptr) {
    forall p :: p in gs ==> 0 < p < next && gs[p].root < next && forall a :: a in gs[p].ancestors ==> a < next
  }

  predicate TargetsBounded(m: map<Ptr, Ptr>, next: Ptr) {
    forall x :: x in m ==> 0 < x < next && m[x] < next
  }

  predicate ContextsBounded(m: map<Ptr, bool>, next: Ptr) {
    forall c :: c in m ==> 0 < c < next
  }

  predicate PairsBounded(s: set<(Ptr, Ptr)>, next: Ptr) {
    forall pr :: pr in s ==> pr.0 < next && pr.1 < next
  }

  /** The collaborator: the engine's resources, its error-reporting globals and its
      entry points.
      graphs: live graphs and subgraphs; nodes, edges: each mapped to its root
      graph; named, subgraphs: the engine's lookup by name; defaults, values:
      declared attribute defaults and per-object values (a NULL graph is the
      prototype graph); contexts: live contexts, with whether `gvFinalize` ran;
      layouts: (context, graph) pairs holding layout state; renderBuffers: buffers
      from `gvRenderData` not yet released; mallocd: live `malloc` blocks;
      strrefs: references from `agstrdup_html` not yet released. `next` is the
      allocator's next address; `errors` is the sink the binding layer registers,
      `sinkOn`, `threshold` and `maxErr` the engine's error-reporting state, and
      `pending` the input the parser has not read yet. */
  class Native {
    const errors: ErrorChannel
    var graphs: map<Ptr, GraphInfo>
    var nodes: map<Ptr, Ptr>
    var edges: map<Ptr, Ptr>
    var named: map<(Ptr, seq<char>), Ptr>
    var subgraphs: map<(Ptr, seq<char>), Ptr>
    var defaults: map<(Ptr, Kind, seq<char>), AttrText>
    var values: map<(Ptr, seq<char>), AttrText>
    var contexts: map<Ptr, bool>
    var layouts: set<(Ptr, Ptr)>
    var renderBuffers: set<array<char>>
    var mallocd: set<object>
    var strrefs: multiset<array<char>>
    var next: Ptr
    var sinkOn: bool
    var threshold: Level
    var maxErr: nat
    var pending: seq<ParseStep>

    /** The channel is well formed and every address in use is below `next`. */
    ghost predicate Valid()
      reads this`next, this`graphs, this`nodes, this`edges, this`contexts, this`layouts, errors, errors.messages
    {
      && errors.Valid() && 0 < next
      && GraphsBounded(graphs, next) && TargetsBounded(nodes, next) && TargetsBounded(edges, next)
      && ContextsBounded(contexts, next) && PairsBounded(layouts, next)
      && RootsConsistent(graphs) && AttachedToRoots(nodes, graphs) && AttachedToRoots(edges, graphs)
    }

    /** No live resource refers to address `p`. */
    ghost predicate Unused(p: Ptr)
      reads this
    {
      && FreshGraph(p, graphs, nodes, edges, layouts) && FreshContext(p, contexts, layouts)
      && p !in nodes && p !in edges
    }

    /** The pointer targets memory that has not been released. */
    ghost predicate Live(p: CPtr)
      reads this
    {
      p.Literal? || (p.Heap? && (p.buf in mallocd || p.buf in strrefs || p.buf in renderBuffers))
    }

    /** Whether the engine treats the string at `p` as HTML-like. */
    predicate IsHtml(p: CPtr)
      reads this
    {
      p.Heap? && p.buf in strrefs
    }

    constructor ()
      ensures Valid() && fresh(errors) && fresh(errors.messages) && errors.Text() == []
      ensures graphs == map[] && nodes == map[] && edges == map[] && contexts == map[] && layouts == {}
      ensures renderBuffers == {} && mallocd == {} && strrefs == multiset{} && !sinkOn && pending == []
    {
      errors := new ErrorChannel();
      graphs, nodes, edges, named, subgraphs := map[], map[], map[], map[], map[];
      defaults, values, contexts := map[], map[], map[];
      layouts, renderBuffers, mallocd, strrefs := {}, {}, {}, multiset{};
      next := 1;
      sinkOn := false;
      threshold := AGWARN;
      maxErr := 0;
      pending := [];
    }

    /** An address no live resource uses. */
    method Allocate() returns (p: Ptr)
      requires Valid()
      modifies this`next
      ensures Valid() && Unused(p) && 0 < p < next
    {
      p := next;
      next := next + 1;
    }

    /** The engine's graph allocation: a new root when `parent` is NULL, otherwise a
        subgraph directly below `parent`, at an address no live resource uses. */
    method AddGraph(name: seq<char>, desc: Desc, parent: Ptr) returns (g: Ptr)
      requires Valid() && (parent == NULL || parent in graphs)
      modifies this`graphs, this`next
      ensures Valid() && old(Unused(g))
      ensures parent == NULL ==> graphs == old(graphs)[g := RootInfo(g, Parsed(name, desc))]
      ensures parent != NULL ==>
        graphs == old(graphs)[g := GraphInfo(name, desc, old(graphs)[parent].root, old(graphs)[parent].ancestors + {parent})]
    {
      g := Allocate();
      var info := if parent == NULL then RootInfo(g, Parsed(name, desc))
        else GraphInfo(name, desc, graphs[parent].root, graphs[parent].ancestors + {parent});
      AddGraphKeepsConsistent(graphs, g, info);
      graphs := graphs[g := info];
    }

    /** A fresh array holding `s` and its terminator. */
    static method NewCString(s: seq<char>) returns (b: array<char>)
      ensures fresh(b) && b[..] == Encode(s)
    {
      b := new char[|s| + 1](k requires 0 <= k <= |s| => if k < |s| then s[k] else NUL);
      assert b[..] == Encode(s);
    }

    /** `malloc(size)`: NULL when the allocator is out of memory, otherwise a fresh block. */
    method Malloc(size: nat, ok: bool) returns (p: array?<char>)
      modifies this`mallocd
      ensures p == null <==> !ok
      ensures p == null ==> mallocd == old(mallocd)
      ensures p != null ==>
        && fresh(p) && p.Length == size && p !in old(mallocd) && p !in strrefs && p !in renderBuffers
        && mallocd == old(mallocd) + {p}
    {
      if !ok {
        return null;
      }
      p := new char[size];
      mallocd := mallocd + {p};
    }

    /** `free(p)`: releases a live block; `free(NULL)` does nothing. */
    method Free(p: object?)
      requires p != null ==> p in mallocd
      modifies this`mallocd
      ensures mallocd == old(mallocd) - {p}
    {
      if p != null {
        mallocd := mallocd - {p};
      } else {
        assert mallocd - {p} == mallocd;
      }
    }

    /** The engine reports `ds` through `agerr`. */
    method Emit(ds: seq<Diag>)
      requires Valid() && WellFormed(ds)
      modifies errors`len, errors.messages, this`maxErr
      ensures Valid()
      ensures errors.Text() == Feed(old(errors.Text()), Delivered(ds, sinkOn, threshold))
    {
      var i := 0;
      while i < |ds|
        invariant 0 <= i <= |ds| && Valid()
        invariant errors.Text() == Feed(old(errors.Text()), Delivered(ds[..i], sinkOn, threshold))
      {
        var d := ds[i];
        if Rank(d.level) > maxErr {
          maxErr := Rank(d.level);
        }
        ghost var sent := if sinkOn && Rank(d.level) >= Rank(threshold) then [d.text] else [];
        assert ds[..i + 1][..i] == ds[..i];
        assert Delivered(ds[..i + 1], sinkOn, threshold) == Delivered(ds[..i], sinkOn, threshold) + sent;
        FeedConcat(old(errors.Text()), Delivered(ds[..i], sinkOn, threshold), sent);
        if sinkOn && Rank(d.level) >= Rank(threshold) {
          var _ := errors.Handler(d.text);
        }
        i := i + 1;
      }
      assert ds[..i] == ds;
    }

    /** `agseterrf(viz_error_handler)`. */
    method AgSetErrf()
      modifies this`sinkOn
      ensures sinkOn
    {
      sinkOn := true;
    }

    /** `agseterr(level)`. */
    method AgSetErr(level: Level)
      modifies this`threshold
      ensures threshold == level
    {
      threshold := level;
    }

    /** `agreseterrors()`: forgets the highest level reported so far. */
    method AgResetErrors()
      modifies this`maxErr
      ensures maxErr == 0
    {
      maxErr := 0;
    }

    /** `agopen(name, desc, NULL)`: a new, empty root graph. */
    method AgOpen(name: CPtr, desc: Desc) returns (g: Ptr)
      requires Valid() && Live(name) && Readable(name)
      modifies this`graphs, this`next
      ensures Valid() && old(Unused(g))
      ensures graphs == old(graphs)[g := RootInfo(g, Parsed(old(Chars(name)), desc))]
    {
      g := AddGraph(Chars(name), desc, NULL);
    }

    /** `agclose(g)`: the graph, its subgraphs and, for a root, its nodes and edges
        are released. */
    method AgClose(g: Ptr)
      requires Valid() && g in graphs
      modifies this`graphs, this`nodes, this`edges
      ensures Valid()
      ensures graphs == CloseGraphs(old(graphs), g) && nodes == Detach(old(nodes), g) && edges == Detach(old(edges), g)
    {
      CloseKeepsConsistent(graphs, g);
      CloseKeepsAttached(nodes, graphs, g);
      CloseKeepsAttached(edges, graphs, g);
      graphs, nodes, edges := CloseGraphs(graphs, g), Detach(nodes, g), Detach(edges, g);
    }

    /** `agmemread(NULL)`: the parser reads the next graph of the pending input;
        NULL once the input is exhausted. */
    method AgMemReadNext() returns (g: Ptr)
      requires Valid() && StepsWellFormed(pending)
      modifies this`graphs, this`next, this`pending, this`maxErr, errors`len, errors.messages
      ensures Valid() && StepsWellFormed(pending)
      ensures old(pending) == [] ==>
        g == NULL && graphs == old(graphs) && pending == [] && errors.Text() == old(errors.Text())
      ensures old(pending) != [] ==>
        && pending == old(pending)[1..]
        && errors.Text() == Feed(old(errors.Text()), Delivered(old(pending)[0].diags, sinkOn, threshold))
        && (g == NULL <==> old(pending)[0].result.None?)
        && (g == NULL ==> graphs == old(graphs))
        && (g != NULL ==> old(Unused(g)) && graphs == old(graphs)[g := RootInfo(g, old(pending)[0].result.value)])
    {
      if pending == [] {
        return NULL;
      }
      var step := pending[0];
      pending := pending[1..];
      assert WellFormed(step.diags) by { assert step == old(pending)[0]; }
      Emit(step.diags);
      if step.result.None? {
        return NULL;
      }
      g := AddGraph(step.result.value.name, step.result.value.desc, NULL);
    }

    /** `agmemread(text)`: the parser starts on `text`, whose successive graphs are
        `steps`, and reads the first one. */
    method AgMemRead(input: CPtr, steps: seq<ParseStep>) returns (g: Ptr)
      requires Valid() && Live(input) && Readable(input) && StepsWellFormed(steps)
      modifies this`graphs, this`next, this`pending, this`maxErr, errors`len, errors.messages
      ensures Valid() && StepsWellFormed(pending)
      ensures steps == [] ==>
        g == NULL && graphs == old(graphs) && pending == [] && errors.Text() == old(errors.Text())
      ensures steps != [] ==>
        && pending == steps[1..]
        && errors.Text() == Feed(old(errors.Text()), Delivered(steps[0].diags, sinkOn, threshold))
        && (g == NULL <==> steps[0].result.None?)
        && (g == NULL ==> graphs == old(graphs))
        && (g != NULL ==> old(Unused(g)) && graphs == old(graphs)[g := RootInfo(g, steps[0].result.value)])
    {
      pending := steps;
      g := AgMemReadNext();
    }

    /** `agnode(g, name, 1)`: the node of that name in g's root, created if absent. */
    method AgNode(g: Ptr, name: CPtr) returns (x: Ptr)
      requires Valid() && g in graphs && Live(name) && Readable(name)
      modifies this`nodes, this`named, this`next
      ensures Valid()
      ensures NodeLookup(old(named), old(nodes), (graphs[g].root, old(Chars(name))), x, named, nodes)
      ensures x !in old(nodes) ==> old(Unused(x))
    {
      var key := (graphs[g].root, Chars(name));
      if key in named && named[key] in nodes {
        return named[key];
      }
      x := Allocate();
      nodes, named := nodes[x := key.0], named[key := x];
    }

    /** `agedge(g, u, v, NULL, 1)`: an edge from u to v in g's root. */
    method AgEdge(g: Ptr, u: Ptr, v: Ptr) returns (e: Ptr)
      requires Valid() && g in graphs && u in nodes && v in nodes
      modifies this`edges, this`next
      ensures Valid() && old(Unused(e)) && edges == old(edges)[e := graphs[g].root]
    {
      e := Allocate();
      edges := edges[e := graphs[g].root];
    }

    /** `agsubg(g, name, 1)`: the subgraph of that name directly under g, created if
        absent. */
    method AgSubg(g: Ptr, name: CPtr) returns (s: Ptr)
      requires Valid() && g in graphs && Live(name) && Readable(name)
      modifies this`graphs, this`subgraphs, this`next
      ensures Valid() && SubgraphLookup(old(subgraphs), old(graphs), (g, old(Chars(name))), s, subgraphs, graphs)
      ensures s !in old(graphs) ==> old(Unused(s))
    {
      var key := (g, Chars(name));
      if Below(subgraphs, graphs, key) {
        return subgraphs[key];
      }
      s := AddGraph(key.1, graphs[g].desc, g);
      subgraphs := subgraphs[key := s];
    }

    /** `agstrdup_html(g, s)`: a reference-counted HTML-like copy of `s`, owned by the
        engine and released with `agstrfree`; NULL for a NULL input. */
    method AgStrdupHtml(g: Ptr, s: CPtr) returns (r: CPtr)
      requires g in graphs && (s.Null? || (Live(s) && Readable(s)))
      modifies this`strrefs
      ensures s.Null? ==> r.Null? && strrefs == old(strrefs)
      ensures !s.Null? ==>
        && r.Heap? && fresh(r.buf) && r.buf[..] == Encode(old(Chars(s)))
        && r.buf !in mallocd && r.buf !in old(strrefs) && r.buf !in renderBuffers
        && strrefs == old(strrefs) + multiset{r.buf}
    {
      if s.Null? {
        return Null;
      }
      var b := NewCString(Chars(s));
      strrefs := strrefs + multiset{b};
      r := Heap(b);
    }

    /** `agstrfree(g, s)`: drops one reference obtained from `agstrdup_html`. */
    method AgStrFree(g: Ptr, s: CPtr)
      requires g in graphs && s.Heap? && s.buf in strrefs
      modifies this`strrefs
      ensures strrefs == old(strrefs) - multiset{s.buf}
    {
      strrefs := strrefs - multiset{s.buf};
    }

    /** `agattr(g, kind, name, value)`: declares the attribute for `kind` in g (the
        prototype graph when g is NULL) with `value` as its default. */
    method AgAttr(g: Ptr, kind: Kind, name: CPtr, value: CPtr)
      requires g == NULL || g in graphs
      requires Live(name) && Readable(name) && Live(value) && Readable(value)
      modifies this`defaults
      ensures defaults == old(defaults)[(g, kind, Chars(name)) := AttrText(Chars(value), IsHtml(value))]
    {
      defaults := defaults[(g, kind, Chars(name)) := AttrText(Chars(value), IsHtml(value))];
    }

    /** `agsafeset(obj, name, value, def)`: declares the attribute in `home` (the graph
        `agraphof(obj)`) with default `def` when it is not declared yet, then sets it
        on `obj`. */
    method AgSafeSet(obj: Ptr, home: Ptr, kind: Kind, name: CPtr, value: CPtr, def: CPtr)
      requires home in graphs
      requires Live(name) && Readable(name) && Live(value) && Readable(value) && Live(def) && Readable(def)
      modifies this`defaults, this`values
      ensures var key := (home, kind, Chars(name));
        && defaults == (if key in old(defaults) then old(defaults) else old(defaults)[key := AttrText(Chars(def), false)])
        && values == old(values)[(obj, Chars(name)) := AttrText(Chars(value), IsHtml(value))]
    {
      var key := (home, kind, Chars(name));
      if key !in defaults {
        defaults := defaults[key := AttrText(Chars(def), false)];
      }
      values := values[(obj, Chars(name)) := AttrText(Chars(value), IsHtml(value))];
    }

    /** `gvContextPlugins(lt_preloaded_symbols, 0)`: a new context with the built-in
        plugins, or NULL when it cannot be created. */
    method GvContextPlugins(ok: bool) returns (c: Ptr)
      requires Valid()
      modifies this`contexts, this`next
      ensures Valid()
      ensures c == NULL <==> !ok
      ensures c == NULL ==> contexts == old(contexts)
      ensures c != NULL ==> old(Unused(c)) && contexts == old(contexts)[c := false]
    {
      if !ok {
        return NULL;
      }
      c := Allocate();
      contexts := contexts[c := false];
    }

    /** `gvFinalize(c)`. */
    method GvFinalize(c: Ptr)
      requires Valid() && c in contexts
      modifies this`contexts
      ensures Valid() && contexts == old(contexts)[c := true]
    {
      contexts := contexts[c := true];
    }

    /** `gvFreeContext(c)` on a finalized context: the context and the layouts made
        through it are gone. */
    method GvFreeContext(c: Ptr)
      requires Valid() && c in contexts && contexts[c]
      modifies this`contexts, this`layouts
      ensures Valid() && contexts == old(contexts) - {c} && layouts == FreeLayouts(old(layouts), c)
    {
      contexts, layouts := contexts - {c}, FreeLayouts(layouts, c);
    }

    /** `gvcVersion(c)`: the version string the context holds. */
    method GvcVersion(c: Ptr, version: seq<char>) returns (v: CPtr)
      requires c in contexts && NoNul(version)
      ensures v == Literal(version) && Readable(v)
    {
      v := Literal(version);
    }

    /** `gvPluginList(c, kind, &count)`: the names of the plugins of that kind in a
        fresh `malloc`'d list of fresh `malloc`'d strings that the caller owns; NULL
        when there are none. */
    method GvPluginList(c: Ptr, kind: CPtr, names: seq<seq<char>>) returns (list: array?<CPtr>, count: int)
      requires c in contexts && Live(kind) && Readable(kind)
      requires forall i :: 0 <= i < |names| ==> NoNul(names[i])
      modifies this`mallocd
      ensures count == |names|
      ensures list == null <==> names == []
      ensures list == null ==> mallocd == old(mallocd)
      ensures list != null ==>
        && fresh(list) && list.Length == |names| && list !in old(mallocd)
        && (forall i :: 0 <= i < |names| ==>
              list[i].Heap? && fresh(list[i].buf) && list[i].buf[..] == Encode(names[i]))
        && (forall i, j :: 0 <= i < j < |names| ==> list[i].buf != list[j].buf)
        && ({list as object} + Bufs(list[..])) !! old(mallocd)
        && mallocd == old(mallocd) + ({list as object} + Bufs(list[..]))
    {
      count := |names|;
      if names == [] {
        return null, count;
      }
      var ps := FreshCopies(names);
      list := new CPtr[|names|](i requires 0 <= i < |names| => ps[i]);
      assert list[..] == ps;
      mallocd := mallocd + ({list as object} + Bufs(ps));
    }

    /** The strings of `gvPluginList`: a fresh copy of each name, in order. */
    method FreshCopies(names: seq<seq<char>>) returns (ps: seq<CPtr>)
      ensures |ps| == |names|
      ensures forall i :: 0 <= i < |names| ==> ps[i].Heap? && fresh(ps[i].buf) && ps[i].buf[..] == Encode(names[i])
      ensures forall i, j :: 0 <= i < j < |names| ==> ps[i].buf != ps[j].buf
      ensures Bufs(ps) !! mallocd
    {
      ps := [];
      while |ps| < |names|
        invariant |ps| <= |names|
        invariant forall k :: 0 <= k < |ps| ==> ps[k].Heap? && fresh(ps[k].buf) && ps[k].buf[..] == Encode(names[k])
        invariant forall k, j :: 0 <= k < j < |ps| ==> ps[k].buf != ps[j].buf
        invariant Bufs(ps) !! mallocd
      {
        var b := NewCString(names[|ps|]);
        assert (ps + [Heap(b)])[..|ps|] == ps;
        ps := ps + [Heap(b)];
      }
    }

    /** `gvLayout(c, g, engine)`: lays g out; layout state is attached on success and,
        when the run says so, on failure. */
    method GvLayout(c: Ptr, g: Ptr, engine: CPtr, run: LayoutRun) returns (status: int)
      requires Valid() && c in contexts && g in graphs && Live(engine) && Readable(engine)
      requires WellFormed(run.diags)
      modifies this`layouts, this`maxErr, errors`len, errors.messages
      ensures Valid() && status == run.status
      ensures errors.Text() == Feed(old(errors.Text()), Delivered(run.diags, sinkOn, threshold))
      ensures layouts == old(layouts) + (if status == 0 || run.leavesState then {(c, g)} else {})
    {
      Emit(run.diags);
      status := run.status;
      if status == 0 || run.leavesState {
        layouts := layouts + {(c, g)};
      }
    }

    /** `gvFreeLayout(c, g)`: releases g's layout state; nothing when there is none. */
    method GvFreeLayout(c: Ptr, g: Ptr)
      requires Valid() && c in contexts && g in graphs
      modifies this`layouts
      ensures Valid() && layouts == old(layouts) - {(c, g)}
    {
      layouts := layouts - {(c, g)};
    }

    /** `gvRenderData(c, g, format, &data, &length)`: the output in an engine buffer
        holding the data and a terminator, or NULL. */
    method GvRenderData(c: Ptr, g: Ptr, format: CPtr, run: RenderRun) returns (status: int, data: CPtr, length: nat)
      requires Valid() && c in contexts && g in graphs && Live(format) && Readable(format)
      requires WellFormed(run.diags)
      modifies this`renderBuffers, this`maxErr, errors`len, errors.messages
      ensures Valid() && status == run.status
      ensures errors.Text() == Feed(old(errors.Text()), Delivered(run.diags, sinkOn, threshold))
      ensures data.Null? <==> run.data.None?
      ensures data.Null? ==> renderBuffers == old(renderBuffers) && length == 0
      ensures !data.Null? ==>
        && data.Heap? && fresh(data.buf) && data.buf[..] == Encode(run.data.value) && length == |run.data.value|
        && data.buf !in old(renderBuffers) && data.buf !in mallocd && data.buf !in strrefs
        && renderBuffers == old(renderBuffers) + {data.buf}
    {
      Emit(run.diags);
      status := run.status;
      if run.data.None? {
        return status, Null, 0;
      }
      var b := NewCString(run.data.value);
      renderBuffers := renderBuffers + {b};
      data, length := Heap(b), |run.data.value|;
    }

    /** `gvFreeRenderData(data)`. */
    method GvFreeRenderData(data: CPtr)
      requires data.Heap? && data.buf in renderBuffers
      modifies this`renderBuffers
      ensures renderBuffers == old(renderBuffers) - {data.buf}
    {
      renderBuffers := renderBuffers - {data.buf};
    }
  }
}
