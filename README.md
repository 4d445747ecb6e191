# vala-win32 core, modelled in Dafny

vala-win32 is a thin C object layer over Win32, with widgets, containers and a relative layout. This project models three of its parts and proves their properties:

- **The relative layout** (`src/layout.c`).
  - The layout object and its builders; anchors, the layout data of a window, and their reference counts.
  - `configure`: the pass that orders every (window, edge) pair of the children so that whatever an edge depends on comes first. Along the way it writes the default sibling edge into anchors that name none.
  - `recalculate`: the pass that replays that order to compute `_left/_top/_right/_bottom` of every child from its anchors, the spacings, the paddings and the client size, and then moves and resizes each child.
- **The per-window event registry** (`src/window.c`).
  - The zero-terminated event table with its parallel callback / bound-data / release arrays, grown in chunks.
  - The dispatch walk and the WM_DESTROY release walk of the default window procedure.
  - `set_positioning`, the geometry setters and getters, and the window's reference count.
- **The container** (`src/container.c`).
  - The chunked child list: construct, add_child with its configure trigger, get_children, set_layout/get_layout and finalize.

The state the C code updates in place is kept as Dafny classes, with reference-count fields and object references for pointers:

- Widgets: `Anchor`, `LayoutData` and `Window`.
- Layout: `RelativeLayout`, whose edge list is an `array<EdgeItem>`.
- Container: `Container`.

Each imperative method is proved equal to a function on values. The properties are proved about those functions:

- `EdgeOrder`: the configure order. It is generic over the window identity and follows the recursion of `win32_edge_list_prepend_referred_edges`.
- `EdgeGeometry`: the per-edge formulas, the replay and the placement of recalculate.
- `LayoutPass`: configure followed by recalculate, and what a pass guarantees.
- `CallbackQueue`: the event table read as a list of listeners.
- `LayoutExamples`: concrete layouts worked through the model, including the one under "## Findings".

A configure pass is modelled under two prerequisite rules. `AsWritten` is the rule of the source. `TrailingNeedsLeading` is the corrected rule described under Findings. `Layout.RelativeLayout.Configure`, `Container.Container.AddChild` and `Container.Container.ConfigureLayout` take the rule as a parameter; with `AsWritten` they are the source's code.

Two details of recalculate that are easy to misread:

- **Spacing halves.** A left (top) edge anchored to the parent gets `halfSpacing_R`, the smaller half of the spacing (src/layout.c:241, 267), and the placement subtracts that same half again (src/layout.c:334-335). A right (bottom) edge subtracts the larger half `halfSpacing_L` (src/layout.c:293, 316).
- **Window size.** An unanchored edge is computed from the window's `width`/`height` fields (src/layout.c:245, 271, 296, 319), not from the preferred size that `set_width` records.

## Model

| member | source | states |
|---|---|---|
| Widgets.Anchor.ToParent | src/layout.c:367-379 | a parent anchor holds one reference, the given ratio and offset, no reference window and edge 0 |
| Widgets.Anchor.ToSibling | src/layout.c:384-396 | a sibling anchor holds one reference, the sibling and offset, ratio 0 and edge 0 |
| Widgets.Anchor.ToEdge | src/layout.c:401-405 | only the edge field changes, and the same anchor is returned |
| Widgets.Anchor.WithOffset | src/layout.c:410-414 | only the offset changes, and the same anchor is returned |
| Widgets.Anchor.Ref | src/layout.c:419-424 | the count goes up by one, the anchor is returned, and nothing else changes |
| Widgets.Anchor.Unref | src/layout.c:429-435 | the count goes down by one; `freed` holds exactly when it reaches zero |
| Widgets.LayoutData.constructor | src/layout.c:441-450 | new layout data has no anchors, zero coordinates and one reference |
| Widgets.LayoutData.SetAnchor | src/layout.c:454-541 | setting the anchor a side already holds changes nothing; otherwise the old anchor (if any) loses a reference, the new one gains one and is stored, the other sides and the coordinates are kept; both the old and the new anchor keep their reference, ratio, offset and edge |
| Widgets.LayoutData.GetAnchor | src/layout.c:471-474 | returns the anchor held on that side |
| Widgets.LayoutData.SetPos | src/layout.c:225-321 | storing an edge value changes that coordinate only, and no anchor or count |
| Widgets.LayoutData.Ref | src/layout.c:554-559 | the count goes up by one, and anchors and coordinates are kept |
| Widgets.LayoutData.Unref | src/layout.c:564-570 | the count goes down by one; `freed` holds exactly when it reaches zero |
| Widgets.GrowTable | src/window.c:38-42 | growing the event table when `(length+1) % 16 == 0` keeps it well formed and keeps its listeners, with room for one more entry and the zero after it |
| Widgets.PushEntry | src/window.c:51-85 | allocating, growing and storing into an entry keeps its three arrays equally long, in whole chunks, zero after the last callback, and appends exactly the new registration |
| Widgets.PushRegistration | src/window.c:51-85 | the entry keeps the message id, is claimed exactly when it was unused, and its registrations gain the new one at the end |
| Widgets.StoreEntry | src/window.c:76-85 | storing the pushed entry at the searched index is `Register` on the listeners; the count rises by one exactly for a new message |
| Widgets.FindSlot | src/window.c:48-49 | the search stops at the first entry for the message or, when there is none, at the first unused entry |
| Widgets.ReleaseEntry | src/window.c:135-142 | the release calls for one entry are those of the registrations before its first NULL callback that have a release function, in order |
| Widgets.InvokeEntry | src/window.c:162-165 | the callbacks invoked are the registrations up to the first NULL callback; the result is that of the last one |
| Widgets.ReleaseTable | src/window.c:130-150 | the WM_DESTROY walk makes `Releases` of the listeners, entry by entry |
| Widgets.Window.constructor | src/window.c:627-647 | a new window has one reference, no native window, an empty event table of 16 slots and fresh layout data with one reference and no anchors |
| Widgets.Window.InsertIntoCallbackQueue | src/window.c:28-87 | the listeners become `Register(old, id, reg)` and the table stays well formed; `length` rises by one exactly for a new message; the result is always true; no other field changes |
| Widgets.Window.DefaultProcedure | src/window.c:99-172 | WM_NCCREATE attaches the native window. WM_DESTROY on an attached window releases exactly `Releases(old listeners)` and empties the table, and no WM_DESTROY callback runs. Otherwise the callbacks of the first entry for the message run in registration order. The result is STOP_PROPAGATION iff some callback ran and the last one set `handled`, and 0 otherwise |
| Widgets.Window.ReleaseAll | src/window.c:126-150 | the release calls are `Releases` of the old listeners; afterwards the table is empty and keeps its capacity |
| Widgets.Window.Dispatch | src/window.c:153-171 | the callbacks invoked are `Dispatched(listeners, msg)`; as the `handled` test at src/window.c:99-104 decides, the result is STOP_PROPAGATION iff some callback ran and the last one set `handled`, and 0 otherwise |
| Widgets.Window.SetPositioning | src/window.c:177-187 | setting the held layout data changes nothing; otherwise the old data loses a reference, the new gains one and is stored; both the old and the new data keep their anchors and coordinates, and the window's other fields are kept |
| Widgets.Window.GetPositioning | src/window.c:192-195 | returns the held layout data |
| Widgets.Window.SetLeft | src/window.c:200-214 | stores `left` only |
| Widgets.Window.GetLeft | src/window.c:219-229 | without a native window returns the stored `left`; with one, stores and returns the native value (a parameter) |
| Widgets.Window.SetTop | src/window.c:234-248 | stores `top` only |
| Widgets.Window.GetTop | src/window.c:253-262 | as GetLeft, for `top` |
| Widgets.Window.SetWidth | src/window.c:267-280 | records the preferred width only |
| Widgets.Window.GetWidth | src/window.c:285-296 | without a native window returns the preferred width last set; with one, stores the native width in `width` and returns it |
| Widgets.Window.SetHeight | src/window.c:301-314 | records the preferred height only |
| Widgets.Window.GetHeight | src/window.c:319-330 | as GetWidth, for the height |
| Widgets.Window.Move | src/window.c:403-417 | stores exactly `left` and `top` |
| Widgets.Window.Resize | src/window.c:422-433 | stores exactly `width` and `height` |
| Widgets.Window.MoveAndResize | src/window.c:438-451 | stores exactly left, top, width and height, and no other field |
| Widgets.Window.Ref | src/window.c:677-682 | the count goes up by one, the window is returned, and its geometry, table and layout data are kept |
| Widgets.Window.Unref | src/window.c:687-694 | the count goes down by one; `finalize` holds exactly when it reaches zero |
| CallbackQueue.Find | src/window.c:48-49 | the index found holds the message, or is past the end, and no earlier entry holds it |
| CallbackQueue.Walk | src/window.c:136-142 | a walk is a prefix of the registrations with every callback set, stopped by a NULL callback or the end |
| CallbackQueue.WalkLive | src/window.c:162-165 | when every registration has a callback, the walk reaches all of them |
| CallbackQueue.FindFirst | src/window.c:48-49 | in a table with one entry per message, the search finds that entry |
| CallbackQueue.FindAbsent | src/window.c:48-49 | a message with no entry sends the search past the last entry, to the first unused one |
| CallbackQueue.RegisterAppends | src/window.c:76-85 | registering appends to that message's registrations and changes no other message's; the table grows by one entry exactly for a new message |
| CallbackQueue.RegisterWellFormed | src/window.c:48-79 | registering keeps one entry per message and no WM_NULL entry |
| CallbackQueue.DispatchAfterRegister | src/window.c:155-169 | after registering, dispatching the message runs the earlier callbacks and then the new one, in order |
| CallbackQueue.ReleasesOfMembers | src/window.c:136-142 | a release call is made for a registration iff its release function is set, with that registration's own data |
| EdgeOrder.DecodeEdge | src/layout.h:12-15 | a code decodes iff it is 1, 2, 4 or 8, and it decodes to the edge with that code |
| EdgeOrder.ScanEdge | src/layout.c:91 | inner-loop step n visits the edge with code `1 << n` |
| EdgeOrder.WriteBackDefaults | src/layout.c:148-159 | a sibling anchor with edge 0 on LEFT/TOP/RIGHT/BOTTOM gets RIGHT/BOTTOM/LEFT/TOP; other anchors are left as they are |
| EdgeOrder.ResolveCodesKeepsPrereq | src/layout.c:148-163 | the writeback does not change any pair's prerequisite |
| EdgeOrder.ResolveCodes | src/layout.c:148-159 | the writeback keeps the set of windows |
| EdgeOrder.AppendKeeps | src/layout.c:170-181 | appending a new pair whose prerequisite is listed keeps the list free of duplicates and prerequisite-first |
| EdgeOrder.Prepend | src/layout.c:104-165 | prepend_referred_edges only appends, and never past the slots of the list |
| EdgeOrder.Visit | src/layout.c:89-96 | one inner-loop step only appends, and never past the slots of the list |
| EdgeOrder.Scan | src/layout.c:85-98 | the whole scan stays within the `4 * numChildren` slots |
| EdgeOrder.PrependSound | src/layout.c:104-165 | prepend_referred_edges keeps the list duplicate-free and prerequisite-first, adds only pairs ranked below n, and lists n's prerequisite unless the list is full |
| EdgeOrder.VisitSound | src/layout.c:89-96 | one inner-loop step keeps both properties and leaves the pair listed unless the list is full |
| EdgeOrder.ScanSound | src/layout.c:85-98 | the whole scan keeps both properties |
| EdgeOrder.ConfigureOrderSound | src/layout.c:67-99 | configure never appends a pair twice, and every pair's prerequisite comes before it |
| EdgeOrder.PrependWithinRoom | src/layout.c:104-165 | within a prerequisite-closed set that fits in the list, prepending never runs out of slots |
| EdgeOrder.ScanWithinRoom | src/layout.c:85-98 | within such a set, the scan lists every scanned pair and nothing outside the set |
| EdgeOrder.ScanNodesAt | src/layout.c:85-91 | scan position `4i + n` is child i with edge `1 << n` |
| EdgeOrder.ScanNodesCover | src/layout.c:85-91 | the scan visits exactly the edges of the children |
| EdgeOrder.ScanNodesNoDup | src/layout.c:85-91 | distinct children give distinct scanned pairs |
| EdgeOrder.ConfigureComplete | src/layout.c:67-99 | when sibling references are children, every edge of every child is listed, and nothing else |
| EdgeOrder.VisitAppendsOnly | src/layout.c:92-95 | visiting a new pair whose prerequisite is listed appends just that pair |
| EdgeOrder.UnanchoredPrefix | src/layout.c:85-98 | with no anchors, each scan prefix lists exactly the pairs scanned so far |
| EdgeOrder.UnanchoredKeepsScanOrder | src/layout.c:67-99 | with distinct, unanchored children, the order is the scan order: left, top, right, bottom, child by child |
| EdgeOrder.PrependWithin | src/layout.c:145-164 | prepending adds only windows reachable through sibling anchors |
| EdgeOrder.ScanWithin | src/layout.c:85-98 | the scan lists only windows in a reference-closed set |
| EdgeOrder.ConfigureWithin | src/layout.c:67-99 | configure lists only windows reachable from the children |
| EdgeGeometry.HalvesSplitSpacing | src/layout.c:204-207 | `halfSpacing_L + halfSpacing_R` is the spacing, and the two differ by at most one |
| EdgeGeometry.TruncDivTowardZero | src/layout.c:239 | the double-to-int conversion truncates toward zero |
| EdgeGeometry.TruncDivExact | src/layout.c:239 | a multiple of the scale divides exactly |
| EdgeGeometry.EdgeValueReadsDepends | src/layout.c:223-322 | an edge's formula reads no coordinate but the one `Depends` names |
| EdgeGeometry.SameSlotsSameStep | src/layout.c:223-322 | an edge's value depends only on its own anchor and on whether the opposite side is anchored |
| EdgeGeometry.Step | src/layout.c:223-322 | computing one edge keeps the set of windows with coordinates |
| EdgeGeometry.Resolve | src/layout.c:219-323 | the edge loop keeps the set of windows with coordinates |
| EdgeGeometry.ResolveFrom | src/layout.c:219-323 | replaying one more entry of the edge list is one more step |
| EdgeGeometry.ResolveOutside | src/layout.c:219-323 | the replay leaves every pair not in the list as it was |
| EdgeGeometry.StepKeepsSettled | src/layout.c:219-323 | a step that no settled entry reads keeps them settled |
| EdgeGeometry.StepSettles | src/layout.c:219-323 | an entry replayed after its coordinate source holds its formula's value |
| EdgeGeometry.ResolveSettles | src/layout.c:219-323 | replaying a duplicate-free list in which each entry's source comes first leaves every entry equal to its formula on the final coordinates |
| EdgeGeometry.InitStaysSettled | src/layout.c:219-323 | entries settled before a new last entry stay settled after it |
| LayoutPass.DependsIsCorrectedPrereq | src/layout.c:133-164 | under the corrected rule, whatever recalculate reads for an edge is that edge's configure prerequisite |
| LayoutPass.DependsIsWrittenPrereqExceptTrailing | src/layout.c:133-143 | as written, the only coordinate source that is not a prerequisite is the leading edge an unanchored trailing edge reads when the leading edge is unanchored too |
| LayoutPass.DependsFirstFromPrereqFirst | src/layout.c:133-164 | a prerequisite-first list under the corrected rule lists every coordinate source first |
| LayoutPass.CorrectedPassSettles | src/layout.c:67-323 | with the corrected rule, for any acyclic anchor graph whose references are children, one configure and one recalculate settle every edge of every child |
| LayoutPass.EarlierClosed | src/layout.c:133-164 | when every sibling anchor refers to an earlier child, the scanned pairs are closed under prerequisites |
| LayoutPass.AsWrittenPassSettles | src/layout.c:67-323 | as written, the pass settles every edge when every sibling anchor refers to an earlier child |
| LayoutPass.UnanchoredChildAtPadding | src/layout.c:326-337 | a child with no anchors lands at (vPadding, hPadding) with its own width and height |
| LayoutPass.SiblingGapRight | src/layout.c:232-233 | a left edge anchored to a sibling's right (or with no edge chosen) is placed one vertical spacing after the sibling |
| LayoutPass.SiblingGapBelow | src/layout.c:258-259 | a top edge anchored to a sibling's bottom (or with no edge chosen) is placed one horizontal spacing below the sibling |
| LayoutPass.ParentSpanFillsWidth | src/layout.c:239-241 | anchors at ratio 0 and at the full scale span the client width less both paddings, starting at the padding |
| LayoutPass.SharedRatioGap | src/layout.c:237-242 | two neighbours meeting at one parent ratio are one spacing apart, split between them |
| LayoutPass.CorrectedKeepsSize | src/layout.c:133-143 | with the corrected rule, an unanchored right (bottom) edge keeps the child's width (height) whatever the child order |
| LayoutPass.AsWrittenKeepsSize | src/layout.c:296 | as written, the same holds when references point to earlier children |
| Layout.RelativeLayout.constructor | src/layout.c:15-33 | both paddings `padding`, both spacings `spacing`, scale 100, one reference and no edge list |
| Layout.RelativeLayout.SetScale | src/layout.c:38-42 | stores any scale, 0 included, returns the layout and changes nothing else |
| Layout.RelativeLayout.WithSpacing | src/layout.c:47-52 | the horizontal spacing copies the vertical one exactly when given as (UINT)-1; nothing else changes |
| Layout.RelativeLayout.WithPadding | src/layout.c:57-62 | likewise for the paddings |
| Layout.RelativeLayout.Ref | src/layout.c:343-348 | the count goes up by one, and the configuration and list are kept |
| Layout.RelativeLayout.Unref | src/layout.c:353-359 | the count goes down by one; `freed` holds exactly when it reaches zero |
| Layout.RelativeLayout.Append | src/layout.c:170-181 | the pair goes into the first empty slot and nothing else changes; a full list is left as it is; the pairs become `Append(old, pair, capacity)` |
| Layout.FirstFree | src/layout.c:173-176 | the slot found is empty, or past the end, and every slot before it is filled |
| Layout.FillFirstFree | src/layout.c:170-181 | filling the first empty slot of a well-formed list appends exactly that pair |
| Layout.RelativeLayout.Includes | src/layout.c:186-193 | true iff some slot holds exactly (item, edge), i.e. iff the pair is listed |
| Layout.HeldIffListed | src/layout.c:186-193 | a slot holds (w, e) iff pair (w, e) is in the list |
| Layout.PrereqTracked | src/layout.c:110-145 | the prerequisite the pass follows, read from a slot before or after the writeback, is the same |
| Layout.RelativeLayout.ResetList | src/layout.c:75-78 | the old list is dropped for a fresh one of exactly the given number of empty slots |
| Layout.RelativeLayout.Configure | src/layout.c:67-99 | the list has `4 * numChildren` slots and holds `ConfigureOrder` of the anchors configure started from; every listed pair has its default edge written back; every other slot holds its old anchor state or that same written-back default; only the `edge` field of anchors in scope may change, and the layout's configuration and count are kept |
| Layout.RelativeLayout.ConfigureChildren | src/layout.c:85-98 | the outer loop visits all `4 * numChildren` scanned pairs |
| Layout.RelativeLayout.ConfigureChild | src/layout.c:89-96 | the inner loop visits the four edges of one child |
| Layout.RelativeLayout.ConfigureEdge | src/layout.c:91-95 | one inner step is `Visit` of pair (child, `1 << n`) |
| Layout.RelativeLayout.VisitPair | src/layout.c:92-95 | a listed pair is skipped; otherwise its prerequisites and then the pair are appended, as `Visit` says |
| Layout.RelativeLayout.PrependThenAppend | src/layout.c:94-95 | the pair's prerequisites are appended, then the pair |
| Layout.RelativeLayout.AppendListed | src/layout.c:95 | appending leaves the anchors as they are |
| Layout.RelativeLayout.PrependReferredEdges | src/layout.c:104-165 | the list becomes `Prepend(g0, list, pair)`: nothing for a parent anchor or a lone unanchored side, the paired edge for an unanchored side whose pair is anchored, the referenced edge for a sibling anchor; the pair's default edge is written back and earlier writebacks are kept |
| Layout.RelativeLayout.PrependSibling | src/layout.c:145-164 | after the writeback, the referenced pair is visited unless already listed |
| Layout.RelativeLayout.VisitReferenced | src/layout.c:161-164 | visiting the pair a sibling anchor refers to appends what `Prepend` gives for the anchored pair, and keeps every resolution |
| Layout.RelativeLayout.WriteBack | src/layout.c:148-159 | an anchor with edge 0 gets the paired edge of its side, and a non-zero edge is kept; listed pairs stay written back |
| Layout.RelativeLayout.WriteDefaultEdge | src/layout.c:148-159 | the same writeback, on the anchor graph alone |
| Layout.WroteDefault | src/layout.c:148-159 | the writeback resolves every slot holding that anchor and keeps earlier resolutions |
| Layout.RelativeLayout.EdgeValueAt | src/layout.c:223-322 | the value the edge loop stores for (w, e) is `EdgeValue` of the scene and coordinates read from the heap |
| Layout.RelativeLayout.UnanchoredValue | src/layout.c:243-248 | an unanchored side: from the opposite edge and the window's own size, or the outer half spacing |
| Layout.RelativeLayout.ParentValue | src/layout.c:237-242 | a parent anchor: `ratio / scale * extent` truncated, plus or minus a half spacing |
| Layout.RelativeLayout.SiblingValue | src/layout.c:229-236 | a sibling anchor: the named sibling edge of the same axis, one spacing apart when it faces the other way, nothing otherwise |
| Layout.StoreEdge | src/layout.c:225-321 | storing a value changes that window's coordinate only, and no anchor, size or link |
| Layout.RelativeLayout.ResolveItem | src/layout.c:221-322 | one slot of the edge loop is one `Step`; an empty or undecodable slot changes nothing |
| Layout.ReplayedSlot | src/layout.c:219-323 | after slot i the coordinates are the replay of the first `min(i+1, pairs)` pairs |
| Layout.RelativeLayout.ResolveEdges | src/layout.c:219-323 | the edge loop leaves `Resolve(scene, old coordinates, entries)` and changes no anchor |
| Layout.RelativeLayout.PlaceChildren | src/layout.c:325-337 | each child in order gets move_and_resize to `(_left + vPadding - halfSpacing_R, _top + hPadding - halfSpacing_B, _right - _left, _bottom - _top)`; other windows are untouched |
| Layout.RelativeLayout.Recalculate | src/layout.c:198-338 | the coordinates become the replay of the edge list over the effective extent `client - 2*padding + spacing`, and every child is placed from them in list order |
| Layout.StepTracked | src/layout.c:148-159 | a written-back pair steps on the heap's anchors as it does on the written-back anchors configure started from |
| Layout.ResolveTracked | src/layout.c:148-159 | replaying written-back pairs on the heap is replaying them on the written-back start anchors |
| Layout.ConfiguredPass | src/layout.c:67-99 | recalculate after configure computes `Pass` on the anchors configure started from |
| Layout.ScannedAll | src/layout.c:85-98 | once every scanned pair is visited, the list is `ConfigureOrder` |
| Layout.ScanStep | src/layout.c:89-95 | visiting pair `4i + n` extends the list by one `Visit` |
| LayoutExamples.RowPlacement | src/layout.c:198-338 | in a 400 x 300 client area, an unanchored window sits at the origin with its size, and a window anchored after it with its right at the full ratio spans from 100 to 400 |
| LayoutExamples.StaleOrder | src/layout.c:67-99 | children [2, 1], with 2's left anchored to 1: configure lists 1's right edge before 1's left edge |
| LayoutExamples.StaleReplay | src/layout.c:219-323 | replaying that order from zero leaves window 1 with box (1, 0, 100, 30) |
| LayoutExamples.StaleTrailingEdge | src/layout.c:133-143 | as written, window 1 is placed 99 wide though its width is 100, and its right edge is not settled |
| LayoutExamples.StaleCorrected | src/layout.c:133-143 | with the corrected rule, the same scene keeps window 1 100 wide |
| Container.ChildrenOf | src/container.c:37-39 | the children are the first `length` slots, in order |
| Container.Appended | src/container.c:52-59 | growing when `(length+1) % 16 == 0`, then storing at `length`, keeps a NULL after the last child and appends the child |
| Container.HeldNext | src/container.c:37-39 | one more slot holds one more reference on its own window and none on the others |
| Container.HeldCounts | src/container.c:116-118 | the references a list holds on a window are its number of copies |
| Container.Container.constructor | src/container.c:16-27 | a new container window with one reference, no native window, an empty list of 16 slots and no layout |
| Container.Container.AddChild | src/container.c:46-64 | the child is appended after the others and gains one reference. The layout configures itself over the new list, under the given rule, iff the container has a native window and a layout: a fresh list of `4 * length` slots, with the layout's paddings, spacings, scale and count kept; otherwise no anchor changes |
| Container.Container.Push | src/container.c:52-59 | the list grows when needed, the child is stored at `length`, and `length` rises by one |
| Container.Container.ConfigureLayout | src/container.c:62 | the layout's list becomes `ConfigureOrder` of the children under the given rule, in a fresh list of `4 * length` slots; the layout's paddings, spacings, scale and count are kept |
| Container.StillConfigurable | src/container.c:58-62 | taking a reference on the child does not change the anchors configure reads |
| Container.Container.GetChildren | src/container.c:32-41 | returns the `length` children in order and reports `length`; each returned window gains one reference per copy |
| Container.Container.SetLayout | src/container.c:69-81 | setting the current layout changes nothing; otherwise the old one loses a reference and the new one gains one and is stored; the old layout keeps its configuration and edge list; no configure or recalculate runs |
| Container.Container.Finalize | src/container.c:108-122 | each of the `length` children loses one reference per copy, and no other field of theirs changes |

## Left out

- The Win32 calls (`GetClientRect`, `MapWindowPoints`, `MoveWindow`, `GetWindowRect`, `SetWindowLongPtr`, `CreateWindow`).
  - The client rectangle of recalculate is a parameter of `Layout.RelativeLayout.Recalculate`.
  - The native values the getters read are parameters.
  - `MoveWindow` is not modelled; move_and_resize stores the fields, and the placements are returned in order.
- Layout.RelativeLayout.ParentValue: the ratio is divided in `double` and truncated on assignment; the model divides exactly and truncates toward zero. Floating-point rounding is not modelled.
- Layout.RelativeLayout.Recalculate: requires a positive scale. `set_scale` accepts 0 (modelled); the source divides by zero only when it reads a parent anchor, but the model demands a positive scale even when no parent anchor exists.
- Layout.RelativeLayout.Recalculate: padding, spacing, sizes and coordinates are mathematical integers. The UINT/int mixing and wrap-around in the source are not modelled.
- Layout.RelativeLayout.Recalculate: requires that no two windows share their layout data; shared data would alias coordinates. It modifies the layout data of every window in scope, not only the children's.
- Layout.RelativeLayout.Configure: requires the whole anchor graph in scope to be acyclic, given as a ranking function, with references that stay in scope. Scope includes every window a referenced sibling anchors to. The source needs acyclicity only among the pairs it reaches from the children, and recurses without bound only on a cycle it reaches; a cycle among pairs it never visits is harmless there but excluded here.
- Layout.RelativeLayout.Configure: requires that an anchor with edge 0 is shared only by sides of the same kind; otherwise the first writeback decides the edge for every side holding it.
- Layout.RelativeLayout.Configure: requires every sibling anchor in scope to have edge 0, 1, 2, 4 or 8. The source reads uninitialised locals (src/layout.c:111-128, 161-164) only when an anchor it actually visits has another code. The model gives that no meaning, and it also excludes other codes on anchors configure never reaches. The same requirement binds Container.Container.AddChild and Container.Container.ConfigureLayout.
- Layout.RelativeLayout.Configure: does not state that a slot outside the listed pairs keeps its edge. A shared anchor written back through a listed pair changes for every side holding it, as in the source, so only the weaker "old state or its written-back default" is promised there.
- Widgets.Window.DefaultProcedure / Widgets.Window.Dispatch: a callback is modelled as a pure predicate `handles` on its registration, which says whether it set `handled`. The walk at src/window.c:162-165 re-reads the table on every turn. A callback that registers listeners, destroys the window, releases data or otherwise changes the window during the walk is not modelled: it could extend the walk, leave it reading a reallocated or freed table, or re-enter the WM_DESTROY branch (src/window.c:122-149). `invoked == Dispatched(listeners, msg)` and the unchanged listeners hold only for callbacks without such effects.
- Widgets.Window.InsertIntoCallbackQueue: requires a non-zero message id. On id 0 the source claims the first unused entry and counts it in `length`, but the entry keeps id 0 and so still reads as unused; the next new message then takes that entry and inherits its callbacks.
- The anchor `offset` is stored and never read, as in the source.
- Reference counts are plain integers.
  - Atomic updates are not modelled.
  - Freeing at zero is reported (`freed`, `finalize`) rather than performed.
  - `malloc`/`realloc`/`free` are modelled as sequence capacity.
- win32_window_finalize is not part of this model. It is what `Unref` reaching zero and container finalize hand on to.
- Container.Container.GetChildren: returns exactly `length` windows. The spare slot the source allocates after them is neither modelled nor initialised by the source.
- GObject type registration, class/instance init, GValue functions, window text, enabled state and painting are not modelled.
- The widgets (button, label, edit, application window), the clipboard and the utilities are not modelled.
- `win32_container_get_layout` is the field read `Container.Container.GetLayout` and states nothing beyond it.
- Helper members (for example Push, VisitReferenced and ResolveItem) split one source function into smaller proved steps.

## Findings

| source | as written | input that shows it | evidently intended | confidence | as-written member | corrected member |
|---|---|---|---|---|---|---|
| src/layout.c:133-143 | An unanchored right (bottom) edge is computed from the window's left (top) coordinate. Configure lists the left (top) edge before it only when that edge is anchored. If both are unanchored and the right edge is pulled in early, as a sibling's prerequisite, recalculate reads a stale left edge. | Children [2, 1]; window 2's left anchored to window 1 with no edge; window 1 unanchored, width 100; vertical spacing 2; all coordinates 0 at first. Window 1 is placed 99 wide. | An unanchored trailing edge waits for its leading edge, so every window with an unanchored right (bottom) side keeps its width (height). | not executed | LayoutExamples.StaleTrailingEdge | LayoutPass.CorrectedKeepsSize |
