# A verified model of the graphvism binding layer

graphvism packages the Graphviz engine as a WebAssembly component. The component's
interface (`viz-api`) hands out opaque handles for four kinds of resources: graphs,
layout contexts, nodes and edges. It exchanges length-prefixed strings with the
host. `src/component.c` is the binding layer between that interface and Graphviz,
and it has four parts:

- it converts strings between the two representations;
- it collects the engine's diagnostics into one fixed-size error buffer;
- it wraps engine objects in handles and releases them in the handles' destructors;
- it sequences graph construction, layout, rendering and teardown in every exported
  operation.

This project models that layer in Dafny and proves what each operation does to the
engine's state and what result it reports.

The engine is modelled as a class, `Engine.Native`. Its state is a set of tables:

- live graphs with their root and ancestors;
- nodes and edges with the root they belong to;
- name lookups for nodes and subgraphs;
- attribute defaults and values;
- contexts, and the layout state held for (context, graph) pairs;
- render buffers;
- `malloc` blocks;
- references from `agstrdup_html`;
- the error-reporting state;
- the unread part of the parser's input.

Each Graphviz call the layer makes is a method of `Native`, with the effect Graphviz
documents. What the engine decides on its own becomes a parameter of the operation:

- the diagnostics and results of successive parser reads (`ParseStep`);
- the outcome of a layout run (`LayoutRun`) or a render run (`RenderRun`);
- the plugin names of a context;
- the version string;
- whether a context can be created.

A C `char` is a Dafny `char`, with `'\0'` as the terminator.

Modules:

- `Wrappers`: `Option` and `Result`.
- `CString`: NUL-terminated buffers, `strlen`, `strcat`, and the `CPtr` pointer values.
- `Diagnostics`: the error channel, which is `viz_error_handler` over a
  1024-character buffer, together with the pure functions that describe what it
  accumulates.
- `Marshal`: the two string helpers.
- `Engine`: the abstract engine.
- `Component`: the class `Viz`, which holds the handle table and has one method per
  exported operation and destructor. The module also has the pure functions that
  state each operation's reported outcome (`ReadOneVerdict`, `LayoutVerdict`,
  `RenderVerdict`, `RenderDotVerdict`), and the lemmas about those outcomes and
  about handle ownership.

The handle table of `Viz` carries an ownership invariant, `OwnershipSound`. It
holds three facts:

- every owning graph handle wraps a live root graph;
- every context handle wraps a live context that has not been finalized;
- no two owning handles share a resource.

Every operation that creates or drops a handle preserves it. This is the property
that every handle's destructor runs exactly once on a live resource.

`render_dot` falls back to fixed messages when nothing was captured
(src/component.c:380, 390, 404). `layout` (316-318) and `render` (340-343) do not,
so they can fail with an empty error. The model follows the code and records this
under Findings.

## Model

| member | source | states |
|---|---|---|
| CString.Strlen | src/component.c:37 | `strlen` is the index of the first NUL, and no NUL occurs before it |
| CString.Encode | src/component.c:62-65 | the converted buffer is the string's characters followed by one terminator, one longer than the string |
| CString.ContentOfEncode | src/component.c:61-67 | reading a converted buffer back as a C string yields a prefix of the original, and yields the whole original exactly when it holds no NUL |
| CString.StrlenOf | src/component.c:76 | scanning an array for its terminator finds the first NUL, at the index `Strlen` gives |
| CString.Strcat | src/component.c:40 | `strcat` keeps the destination's text, writes the source and a terminator after it, and leaves the rest of the buffer untouched |
| Diagnostics.FeedBounded | src/component.c:36-47 | whatever the engine reports, the buffered text stays shorter than MAX_ERROR_MESSAGE_LENGTH |
| Diagnostics.FeedExtends | src/component.c:36-47 | later messages only extend the buffer, so text already captured is never disturbed |
| Diagnostics.FeedConcat | src/component.c:36-47 | feeding two batches of messages in turn is the same as feeding their concatenation |
| Diagnostics.CapturedIff | src/component.c:38 | `g_error_len > 0` after a reset exactly when some message is non-empty and fits the buffer on its own |
| Diagnostics.AccumulateIsJoin | src/component.c:39-44 | when nothing is dropped, the buffer holds the messages joined by single newlines, the first one without a separator |
| Diagnostics.ErrorChannel.LenIsStrlen | src/component.c:33-34 | the counter `g_error_len` is `strlen(g_error_messages)`, and the buffer's C string is the captured text |
| Diagnostics.ErrorChannel.Handler | src/component.c:36-47 | a message that fits is appended, behind a newline when the buffer is not empty; a message that does not fit is dropped; the handler always returns 0 |
| Diagnostics.ErrorChannel.Put | src/component.c:40 | one `strcat` of a text that fits extends the buffered text by exactly that text |
| Diagnostics.ErrorChannel.Clear | src/component.c:50-51 | the reset leaves an empty C string and a zero counter |
| Marshal.CViewIsPrefix | src/component.c:64-65 | what the engine sees of a boundary string is a NUL-free prefix of it, and is the whole string exactly when the string holds no NUL |
| Marshal.CViewStopsAtNul | src/component.c:64-65 | the engine's view of a boundary string ends at the string's first NUL |
| Marshal.WitToCString | src/component.c:61-67 | a fresh `malloc` block of length len+1 holding the string and a terminator, now owned by the caller; NULL and no new block when allocation fails |
| Marshal.CStringToWit | src/component.c:71-84 | NULL gives the empty string; otherwise exactly the characters before the terminator are copied; allocation failure gives the empty string |
| Marshal.RoundTrip | src/component.c:61-84 | converting to a C string and back gives the original exactly when it holds no NUL, and otherwise gives it cut at the first NUL |
| Engine.DeliveredToWarnSink | src/component.c:52-53 | with the layer's sink registered at the AGWARN threshold, every diagnostic the engine raises reaches the channel, in order |
| Engine.CloseKeepsOtherRoots | src/component.c:90 | closing one root graph leaves every other root graph live |
| Engine.Native.AgSetErrf | src/component.c:52 | the layer's handler becomes the engine's diagnostic sink |
| Engine.Native.AgSetErr | src/component.c:53 | the reporting threshold becomes the given level |
| Engine.Native.AgResetErrors | src/component.c:54 | the engine forgets the highest error level seen |
| Engine.Native.Malloc | src/component.c:62 | NULL on failure; otherwise a fresh block, distinct from every live block, engine reference and render buffer |
| Engine.Native.Free | src/component.c:169 | the block leaves the set of live `malloc` blocks; only a live block or NULL may be freed |
| Engine.Native.Emit | src/component.c:36-55 | the channel receives exactly the diagnostics that pass the sink and the threshold, in order |
| Engine.Native.AgOpen | src/component.c:168 | a new root graph with the given name and descriptor, at an address no live resource uses |
| Engine.Native.AgClose | src/component.c:90 | the graph and its subgraphs are gone, and for a root its nodes and edges too; the tables stay consistent |
| Engine.Native.AgMemRead | src/component.c:181 | the parser starts on the input: its first read's diagnostics go to the sink, and a graph is returned exactly when that read yields one |
| Engine.Native.AgMemReadNext | src/component.c:187 | the next read of the pending input, or NULL once the input is exhausted |
| Engine.Native.AgNode | src/component.c:211 | the node of that name in g's root: the existing one if present, otherwise a new node at an unused address |
| Engine.Native.AgEdge | src/component.c:222 | a new edge at an unused address, belonging to g's root |
| Engine.Native.AgSubg | src/component.c:231 | the subgraph of that name directly under g: the existing one if present, otherwise a new subgraph with g among its ancestors |
| Engine.Native.AgStrdupHtml | src/component.c:241 | a fresh reference-counted HTML-like copy that is not a `malloc` block; NULL for NULL |
| Engine.Native.AgAttr | src/component.c:253 | the default for the kind in g under the name becomes the value, with its HTML flavour |
| Engine.Native.AgSafeSet | src/component.c:296 | the attribute is declared with the given default only when it is undeclared; the object's value becomes the given value |
| Engine.Native.GvContextPlugins | src/component.c:303 | a new, unfinalized context at an unused address, or NULL when none can be created |
| Engine.Native.GvFinalize | src/component.c:96 | the context is marked finalized |
| Engine.Native.GvFreeContext | src/component.c:97 | a finalized context is gone, together with every layout made through it |
| Engine.Native.GvcVersion | src/component.c:130 | the context's version string |
| Engine.Native.GvPluginList | src/component.c:147 | a fresh list of fresh, distinct string blocks, one per plugin name in order, all now owned by the caller; NULL when there are none |
| Engine.Native.FreshCopies | src/component.c:147 | one fresh terminated copy of each name, in order, all distinct and none of them a live block |
| Engine.Native.GvLayout | src/component.c:313 | the run's status and diagnostics; layout state is attached on success, and on failure when the run leaves it |
| Engine.Native.GvFreeLayout | src/component.c:326 | the layout state of (c, g) is gone; without any, nothing changes |
| Engine.Native.GvRenderData | src/component.c:337 | the run's status and diagnostics; the data in a fresh engine buffer with a terminator, or NULL |
| Engine.Native.GvFreeRenderData | src/component.c:355 | the render buffer is released |
| Component.WithLabelWorkaround | src/component.c:179 | the prototype graph's default node label is `\N`, and every other default is unchanged |
| Component.LabelWorkaroundIdempotent | src/component.c:375 | installing the label workaround again changes nothing |
| Component.ReleaseChangesIffOwns | src/component.c:88-111 | dropping a handle changes the engine's tables exactly when the handle owns its resource, and an owned resource is gone afterwards |
| Component.ReleaseKeepsSound | src/component.c:88-99 | every owning handle of a sound table wraps a live resource, and the table without it is sound for the released state |
| Component.AddRootKeepsSound | src/component.c:170 | an owning handle for a new root graph keeps the table sound |
| Component.AddBorrowedKeepsSound | src/component.c:213 | a handle that owns nothing keeps the table sound |
| Component.SoundAfterAdd | src/component.c:231 | creating a graph at an unused address keeps the table sound |
| Component.AddContextKeepsSound | src/component.c:303-304 | a handle for a new context, or for NULL, keeps the table sound |
| Component.CapturedConcat | src/component.c:376-404 | diagnostics of successive calls after one reset accumulate as the captured text of their concatenation |
| Component.CapturedBounded | src/component.c:32-38 | captured text is always shorter than the buffer |
| Component.CapturedIffFits | src/component.c:193 | something is captured exactly when some diagnostic is non-empty and fits on its own |
| Component.Fallback | src/component.c:380 | a non-empty fallback gives a non-empty message, and captured text, when present, is the message |
| Component.Drained | src/component.c:184-191 | the drain loop consumes a prefix of the remaining reads: every one before the last yields a graph, and it consumes all of them exactly when none fails |
| Component.DrainedStopsAt | src/component.c:186-191 | the drain stops right after the first read that yields no graph, or at the end of the input |
| Component.DrainStep | src/component.c:186-191 | one more read extends the consumed reads by the next one, and the channel by that read's diagnostics |
| Component.DrainAdvance | src/component.c:186-191 | after one pass the loop state advances by one read, and the loop is over exactly when the drain is complete |
| Component.ReadTextSplit | src/component.c:181-191 | after the first read and the drain, the channel holds the captured diagnostics of the whole input |
| Component.ReadOneFailsIff | src/component.c:193-205 | `read_one_graph` fails exactly when the first read yields nothing or some diagnostic of any read is captured; the error is then non-empty and fits; on success the graph is the first one read |
| Component.ReadOneIgnoresOversizedDiagnostic | src/component.c:38 | a diagnostic too long for the buffer is dropped, so a graph with only such a diagnostic reads successfully |
| Component.LayoutFailsIff | src/component.c:316-320 | `layout` fails exactly on a non-zero status or a captured diagnostic, and its error is the captured text |
| Component.LayoutCanFailSilently | src/component.c:316-318 | a failing layout with nothing captured reports an empty error |
| Component.LayoutReportedErrNonEmpty | src/component.c:390 | with the `render_dot` fallback, layout fails in the same cases, never with an empty error, and keeps captured text |
| Component.RenderFailsIff | src/component.c:340-357 | `render` fails exactly on a non-zero status, a captured diagnostic or missing data; missing data alone gives the "no data" message; on success the output is the data cut at its first NUL |
| Component.RenderCanFailSilently | src/component.c:340-343 | a failing render with nothing captured reports an empty error, even when data came back |
| Component.RenderReportedErrNonEmpty | src/component.c:404 | with the render fallback, render fails in the same cases with the same output, never with an empty error, and keeps captured text |
| Component.RenderDotErrNonEmpty | src/component.c:379-409 | a failed `render_dot` always reports a non-empty error that fits the buffer |
| Component.RenderDotSucceedsIff | src/component.c:379-417 | `render_dot` succeeds exactly when the read yields a graph, the layout status is 0, and the render status is 0 with data; its output then agrees with `render` |
| Component.RenderDotToleratesWarnings | src/component.c:376-387 | on an input whose parse only warns, `read_one_graph` fails while `render_dot` succeeds |
| Component.NodeLookupIdempotent | src/component.c:211 | a second `agnode` with the same root and name returns the same node and changes nothing |
| Component.SubgraphLookupIdempotent | src/component.c:231 | a second `agsubg` with the same parent and name returns the same subgraph and changes nothing |
| Component.OwningSubgraphUnsound | src/component.c:233 | no sound table can hold an owning handle for a subgraph |
| Component.SubgraphHandleClosesTwice | src/component.c:88-92 | with a root handle and an owning subgraph handle, dropping the root already releases the subgraph that the second destructor closes |
| Component.Viz.NewHandle | src/component.c:170 | a new handle number, mapped to the resource, with the table otherwise unchanged |
| Component.Viz.GraphDestructor | src/component.c:88-92 | a non-NULL graph is closed with its subgraphs, nodes and edges; NULL changes nothing |
| Component.Viz.ContextDestructor | src/component.c:94-99 | a non-NULL context is finalized and freed, and its layouts go with it; NULL changes nothing |
| Component.Viz.Release | src/component.c:88-111 | the handle's destructor: only an owning graph or context handle changes the engine's tables |
| Component.Viz.Drop | src/component.c:88-111 | dropping a handle runs its destructor, removes it from the table and keeps the table sound |
| Component.Viz.ResetErrors | src/component.c:49-55 | the channel is empty, registered as the engine's sink at the AGWARN threshold, and the engine's error level is reset |
| Component.Viz.ErrorText | src/component.c:195 | the copied-out error is the channel's text |
| Component.Viz.CapturedOr | src/component.c:380 | the channel's text when something was captured, the fixed message otherwise |
| Component.Viz.TransientContextDone | src/component.c:132-133 | finalizing and freeing the query's context restores the context and layout tables |
| Component.Viz.GetGraphvizVersion | src/component.c:124-137 | the version string, or the fixed no-context message; no context outlives the call |
| Component.Viz.CopyPluginNames | src/component.c:152-154 | the copy loop yields the `count` strings of the list, in order |
| Component.Viz.PluginListNames | src/component.c:147 | the strings of a `gvPluginList` list read back as the plugin names |
| Component.Viz.FreePluginList | src/component.c:147-157 | releases the list and each string in it, and nothing else |
| Component.Viz.ListedNames | src/component.c:147-154 | the copied-out list is exactly the engine's plugin names |
| Component.Viz.CopyPluginList | src/component.c:147-154 | the names are returned, and the list and its strings stay allocated as a non-empty leak whenever there are names |
| Component.Viz.CopyPluginListFreeing | src/component.c:147-157 | the same names, with no block left allocated |
| Component.Viz.ListPlugins | src/component.c:145-161 | the names of a transient context, or none without one; the context is gone afterwards; the list leaks as written |
| Component.Viz.ListPluginsFreeing | src/component.c:145-161 | the same, with no block left allocated |
| Component.Viz.GetPluginList | src/component.c:139-163 | the plugin names, or the empty list when no context can be created; the converted kind is freed, but the engine's list and strings leak |
| Component.Viz.GetPluginListFreeing | src/component.c:139-163 | the same names, and no context or block outlives the call |
| Component.Viz.CreateGraph | src/component.c:165-171 | a new root graph named by the converted name with the given descriptor, in a new owning handle; the converted name is freed |
| Component.Viz.Prepare | src/component.c:174-176 | a reset channel and a fresh C string holding the input |
| Component.Viz.ParseInput | src/component.c:181-182 | the first read: a graph exactly when it yields one, its diagnostics in the channel, the remaining input pending, and the input freed |
| Component.Viz.ParseFirst | src/component.c:179-182 | the label workaround installed, then the first read |
| Component.Viz.ReadNextAndClose | src/component.c:187-190 | one more read, whose graph, if any, is closed; the tables are unchanged and the channel gains that read's diagnostics |
| Component.Viz.DrainOnce | src/component.c:186-191 | one pass of the drain loop keeps the loop invariant and either finishes the drain or consumes one more read |
| Component.Viz.DrainRest | src/component.c:184-191 | the drain reads exactly `Drained` of the pending input and closes every graph it reads; the tables are unchanged; the channel gains those reads' diagnostics |
| Component.Viz.ReadFirst | src/component.c:174-182 | reset, conversion, label workaround and first read, with no block left allocated |
| Component.Viz.ReadInput | src/component.c:174-191 | after the drain the channel holds the captured diagnostics of the whole input, and the graph read, if any, is the only graph added |
| Component.Viz.CloseRead | src/component.c:194 | closing the graph just read restores the graph table and leaves nodes and edges as they were |
| Component.Viz.FinishRead | src/component.c:193-205 | the outcome is `ReadOneVerdict`: on an error no handle is created and no graph is left open; on success the first graph is in a new owning handle |
| Component.Viz.ReadOneGraph | src/component.c:173-206 | the outcome is `ReadOneVerdict`; on failure no graph is left open; on success exactly the first graph is added, in a new owning handle; the label workaround is installed; no block outlives the call |
| Component.Viz.NodeAndFree | src/component.c:211-212 | the node found or created, and the name freed |
| Component.Viz.NodeNamed | src/component.c:210-212 | the node of the converted name in g's root, found or created, with no block left allocated |
| Component.Viz.AddNode | src/component.c:208-214 | that node, in a new handle that owns nothing |
| Component.Viz.ConvertPair | src/component.c:218-219 | two distinct fresh C strings holding the two names |
| Component.Viz.FreePair | src/component.c:223-224 | both converted names are freed |
| Component.Viz.Endpoints | src/component.c:220-221 | both endpoint nodes looked up or created, in order |
| Component.Viz.EdgeOf | src/component.c:220-222 | a new edge in g's root between the two endpoint nodes |
| Component.Viz.EdgeAndFree | src/component.c:220-224 | the same, with both names freed |
| Component.Viz.EdgeNamed | src/component.c:218-224 | the edge between the nodes of the two converted names, with no block left allocated |
| Component.Viz.AddEdge | src/component.c:216-226 | a new edge of g's root in a new handle that owns nothing; the tail node and then the head node are found or created by name |
| Component.Viz.SubgAndFree | src/component.c:231-232 | the subgraph found or created, and the name freed |
| Component.Viz.SubgraphNamed | src/component.c:230-232 | the subgraph of the converted name under g, with no block left allocated |
| Component.Viz.AddSubgraphAsWritten | src/component.c:228-234 | the subgraph wrapped as an owning graph handle, which makes the handle table unsound |
| Component.Viz.AddSubgraph | src/component.c:228-234 | the subgraph in a new handle that owns nothing; the table stays sound |
| Component.Viz.StrdupAndFree | src/component.c:241-242 | an engine HTML copy of the converted text, and the converted text freed |
| Component.Viz.HtmlCopy | src/component.c:240-242 | an engine HTML copy of the value, not a `malloc` block, with no block left allocated |
| Component.Viz.AgstrdupHtmlWithFree | src/component.c:237-247 | a C string holding the value, HTML-flavoured exactly for HTML values; an HTML value is an engine reference and not a `malloc` block, a plain value a new `malloc` block |
| Component.Viz.ReleaseValue | src/component.c:255 | `agstrfree` for an HTML value and `free` for a plain one, so each value is released the way it was obtained |
| Component.Viz.ReleaseNameAndValue | src/component.c:254-255 | the name is freed and the value released by its flavour |
| Component.Viz.ApplyDefault | src/component.c:253-255 | the default is declared with the value's text and flavour; name and value are released |
| Component.Viz.DeclareDefault | src/component.c:252-255 | the converted value becomes the default under the converted name, with nothing left allocated |
| Component.Viz.DefaultNamed | src/component.c:251-255 | the default under the converted name is the converted value, with nothing left allocated |
| Component.Viz.SetDefaultAttribute | src/component.c:249-256 | the default for the kind in g under the name becomes the converted value, and no block or reference outlives the call |
| Component.Viz.SetDefaultGraphAttribute | src/component.c:249-256 | the same for AGRAPH |
| Component.Viz.SetDefaultNodeAttribute | src/component.c:258-265 | the same for AGNODE |
| Component.Viz.SetDefaultEdgeAttribute | src/component.c:267-274 | the same for AGEDGE |
| Component.Viz.ApplyDefaultAsWritten | src/component.c:253-255 | the default is declared as intended, but the final `free` is admissible exactly for plain values |
| Component.Viz.DeclareDefaultAsWritten | src/component.c:252-255 | the converted value declared as the default, then passed to `free`, which is admissible exactly for a plain value; for an HTML value the reference table keeps every old reference and gains exactly one new one, `held`, which is never released |
| Component.Viz.DefaultNamedAsWritten | src/component.c:251-255 | the same with the name converted and freed |
| Component.Viz.SetDefaultAttributeAsWritten | src/component.c:249-256 | as written: the same default, but for an HTML value the `free` is not admissible, and the old references stay while exactly one new engine reference, `held`, stays held |
| Component.Viz.ApplyValue | src/component.c:296-298 | corrected release: the attribute is declared with an empty default unless already declared, and the value is set on the object; the name is freed and the value released by its flavour (`agstrfree` for HTML), where line 298 calls `free` |
| Component.Viz.SetValue | src/component.c:295-298 | corrected release: the same with the value converted, and nothing left allocated or held |
| Component.Viz.ValueNamed | src/component.c:294-298 | corrected release: the same with the name converted |
| Component.Viz.SetAttribute | src/component.c:276-300 | corrected release: for a NULL object nothing changes; otherwise the attribute is declared with an empty default for the object's kind in `agraphof(obj)` unless already declared, the object's value becomes the converted value, and no block or engine reference stays held |
| Component.Viz.ApplyValueAsWritten | src/component.c:296-298 | as written: the same attribute update, then `free` on the name and the value, which is admissible exactly for a plain value |
| Component.Viz.SetValueAsWritten | src/component.c:295-298 | as written: the value converted and set, then passed to `free`; for an HTML value the old references stay and exactly one new one, `held`, is never released |
| Component.Viz.ValueNamedAsWritten | src/component.c:294-298 | as written: the same with the name converted and freed |
| Component.Viz.ObjectValueAsWritten | src/component.c:278-299 | as written: nothing for a NULL object; otherwise the value set on the object in its home graph, with the HTML reference left held |
| Component.Viz.SetAttributeAsWritten | src/component.c:276-300 | as written: the same attribute update as `SetAttribute`, but for an HTML value on a non-NULL object the final `free` is not admissible, and exactly one new engine reference, `held`, stays held |
| Component.Viz.CreateContext | src/component.c:302-305 | a new context handle, wrapping a new unfinalized context, or NULL exactly when none can be created |
| Component.Viz.RunLayout | src/component.c:311-314 | the layout run's status and diagnostics in the channel, layout state as the run leaves it, and the engine name freed |
| Component.Viz.LayoutOutcome | src/component.c:316-320 | the reported outcome is `LayoutVerdict`, or `LayoutReportedVerdict` with the fallback |
| Component.Viz.LayoutWith | src/component.c:308-320 | reset, conversion, run and outcome, with no block left allocated |
| Component.Viz.Layout | src/component.c:307-321 | the outcome is `LayoutVerdict` for the run; layout state is attached on success; no block outlives the call |
| Component.Viz.LayoutReporting | src/component.c:307-321 | the same, with `LayoutReportedVerdict` |
| Component.Viz.FreeLayout | src/component.c:323-327 | the layout state of (c, g) is gone, and nothing else changes |
| Component.Viz.RunRender | src/component.c:333-338 | the render run's status and diagnostics, the data in a new engine buffer or NULL, and the format freed |
| Component.Viz.RenderCall | src/component.c:337 | the same before the format is freed |
| Component.Viz.ReleaseData | src/component.c:341 | the render buffer, if any, is released |
| Component.Viz.RenderOutcome | src/component.c:340-357 | the reported outcome is `RenderVerdict`, or `RenderReportedVerdict` with the fallback; the buffer is released on every path |
| Component.Viz.RenderFrom | src/component.c:337-357 | run and outcome, with no render buffer held |
| Component.Viz.RenderWith | src/component.c:330-357 | reset, conversion, run and outcome, with no block or buffer held |
| Component.Viz.Render | src/component.c:329-358 | the outcome is `RenderVerdict` for the run; no block or render buffer outlives the call |
| Component.Viz.RenderReporting | src/component.c:329-358 | the same, with `RenderReportedVerdict` |
| Component.Viz.DiscardGraph | src/component.c:391-392 | freeing the layout and closing the graph read restores the graph and layout tables |
| Component.Viz.DiscardGraphAndFree | src/component.c:391-393 | the same, with the format freed |
| Component.Viz.ReleaseDataAndGraph | src/component.c:405-407 | the buffer, the layout and the graph are released, leaving the tables as before the read |
| Component.Viz.RenderDotOutcome | src/component.c:403-415 | the fallback message on a failed render or missing data, the data otherwise; everything is released |
| Component.Viz.RenderStage | src/component.c:400-415 | the render stage reports its error over all diagnostics captured so far, and releases everything |
| Component.Viz.LayoutFailedDot | src/component.c:389-395 | the layout fallback message; layout state, graph and format are released |
| Component.Viz.LayoutAndRender | src/component.c:387-415 | the layout and render stages on the graph read, releasing everything on every path |
| Component.Viz.AfterLayout | src/component.c:389-415 | a failed layout is reported and cleaned up; otherwise the render stage follows |
| Component.Viz.ReadFailed | src/component.c:379-384 | the read fallback message, and the engine name and format freed |
| Component.Viz.ParseAndRun | src/component.c:375-415 | the outcome is `RenderDotVerdict`, and the graph, node, edge, layout and buffer tables are as before |
| Component.Viz.AfterRead | src/component.c:379-415 | the same, once the first read is done |
| Component.Viz.RenderDotFrom | src/component.c:371-415 | the same, with the engine name and format converted and freed |
| Component.Viz.RenderDot | src/component.c:360-418 | the outcome is `RenderDotVerdict`; the input after the first graph is left in the parser (no drain); no graph, layout, render buffer or block outlives the call |

## Left out

- `set_y_invert` and `set_reduce` (src/component.c:116-122) only store into two engine globals. No modelled operation reads those globals.
- `lt_preloaded_symbols` (src/component.c:24-29) is the static plugin table. It is represented only by the `ctxOk` and `ok` parameters and by the plugin names given to the operations.
- The engine itself is not modelled: parsing, layout algorithms, renderers and the contents of graphs. Their outcomes are parameters of the operations.
- Concurrency is not modelled. The error channel is process-wide, and the model assumes one call in flight at a time.
- Component.Viz.CreateGraph: allocation failure is not modelled at the API level. Every exported operation calls the string helpers with `allocOk` true. `Marshal.WitToCString` and `Marshal.CStringToWit` model the failure paths themselves.
- Diagnostics raised by the construction calls (`agopen`, `agnode`, `agedge`, `agsubg`, `agattr`, `agsafeset`) are not modelled. The next fallible operation resets the channel before reading it.
- C `int` and `size_t` widths are not modelled. The length arithmetic in `viz_error_handler` and `count * sizeof(viz_string_t)` are unbounded integers here.
- Component.Viz.GetPluginList: the boundary list buffer allocated at src/component.c:149 is not modelled as a block. The list is returned as a sequence, and its allocation failure is not modelled.
- Component.Viz.AgstrdupHtmlWithFree: `agstrdup_html` returns a shared reference-counted string. The model gives each call a fresh reference and does not model sharing between equal strings.
- Engine.Native.AgEdge: every call creates a new edge. In a strict graph `agedge` returns the existing edge, and here the model is weaker than the engine.
- Engine.Native.AgEdge: the edge's endpoints are not recorded, only the root the edge belongs to.
- Engine.Native.AgSafeSet: the "already declared" test looks only at the object's own graph. It does not see declarations inherited from enclosing graphs.
- Component.Viz.SetAttribute: a node or edge handle must wrap a live node or edge. For a NULL node or edge the source calls `agraphof(NULL)`, which has no defined result.
- Component.Viz.NodeDestructor: it has no ensures clause because it changes nothing.
- Component.Viz.EdgeDestructor: it has no ensures clause because it changes nothing.
- A handle's validity after its graph is closed (dangling node, edge or subgraph handles) is a caller contract. It is not checked.
- Component.Viz.Layout, Component.Viz.Render, Component.Viz.FreeLayout and Component.Viz.RenderDot require a context handle that wraps a live context. A handle from a failed `create_context` wraps NULL, and the source would then pass NULL to `gvLayout` or `gvRenderData`, which has no defined result. Using such a handle is a caller contract.

## Findings

| source | as written | input that shows it | evidently intended | confidence | as-written member | corrected member |
|---|---|---|---|---|---|---|
| src/component.c:228-234 | `add_subgraph` wraps the subgraph with `graph_new`, an owning handle whose destructor calls `agclose` | a root handle and a subgraph handle; dropping the root closes the subgraph, and then the subgraph handle's destructor closes it again | a borrowed, non-owning graph handle that is released with its root | not executed | Component.Viz.AddSubgraphAsWritten, Component.SubgraphHandleClosesTwice | Component.Viz.AddSubgraph |
| src/component.c:237-256 | for an HTML value, `agstrdup_html_with_free` returns an `agstrdup_html` reference, and the callers pass it to `free` | `set_default_node_attribute(g, "label", html("<b>x</b>"))` | release the HTML value with `agstrfree` and the plain value with `free` | not executed | Component.Viz.SetDefaultAttributeAsWritten | Component.Viz.SetDefaultAttribute, Component.Viz.ReleaseValue |
| src/component.c:294-298 | for an HTML value, `set_attribute` passes the `agstrdup_html` reference from `agstrdup_html_with_free` to `free` | `set_attribute(node "a", "label", html("<b>A</b>"))` | release the HTML value with `agstrfree` and the plain value with `free` | not executed | Component.Viz.SetAttributeAsWritten | Component.Viz.SetAttribute, Component.Viz.ReleaseValue |
| src/component.c:316-318 | `layout` returns the channel's text when the status is non-zero, even when nothing was captured | a layout run with status 1 and no diagnostics, giving `Err("")` | a non-empty fallback message, as `render_dot` uses at line 390 | not executed | Component.Viz.Layout, Component.LayoutCanFailSilently | Component.Viz.LayoutReporting, Component.LayoutReportedErrNonEmpty |
| src/component.c:340-343 | `render` returns the channel's text when the status is non-zero, even when nothing was captured | a render run with status 1, no diagnostics and some data, giving `Err("")` | a non-empty fallback message, as `render_dot` uses at line 404 | not executed | Component.Viz.Render, Component.RenderCanFailSilently | Component.Viz.RenderReporting, Component.RenderReportedErrNonEmpty |
| src/component.c:147-157 | `get_plugin_list` never frees the list `gvPluginList` returns, nor its strings, though the caller owns them | any kind with at least one plugin; the list and each string stay allocated | free each string and then the list after copying | not executed | Component.Viz.GetPluginList | Component.Viz.GetPluginListFreeing |
