/*
 * The objects the layout and the container work on: anchors and layout data
 * (src/layout.c:363-570) and windows (src/window.c). They refer to each other (an anchor
 * names a sibling window, a window holds its layout data, layout data holds anchors), so
 * they share one module.
 *
 * Reference counts are plain integer fields; an object whose count reaches zero is freed by
 * the source, which the model reports instead of doing.
 */
module Widgets {
  import opened EdgeOrder
  import opened CallbackQueue

  /** INITIAL_LIST_SIZE and INITIAL_QUEUE_SIZE (src/vala-win32.h:21-22): the initial size and
      the growth step of the event table (and the child list), and of a callback queue. */
  const ListChunk: nat := 16
  const QueueChunk: nat := 2

  // =========================================================================================
  // Anchor

  /** One side's anchor: to the parent at `ratio` (reference NULL), or to a sibling window and
      one of its edges (0 until configure writes the default in). */
  class Anchor {
    var refCount: int
    var reference: Window?
    var ratio: nat
    var offset: int
    var edge: int

    /** win32_anchor_to_parent */
    constructor ToParent(ratio: nat, offset: int)
      ensures refCount == 1 && reference == null && this.ratio == ratio && this.offset == offset && edge == 0
    {
      refCount := 1;
      reference := null;
      this.ratio := ratio;
      this.offset := offset;
      edge := 0;
    }

    /** win32_anchor_to_sibling */
    constructor ToSibling(sibling: Window?, offset: int)
      ensures refCount == 1 && reference == sibling && ratio == 0 && this.offset == offset && edge == 0
    {
      refCount := 1;
      reference := sibling;
      ratio := 0;
      this.offset := offset;
      edge := 0;
    }

    /** win32_anchor_to_edge: choose the sibling edge; returns the anchor itself. */
    method ToEdge(edge: int) returns (self: Anchor)
      modifies this
      ensures self == this && this.edge == edge
      ensures refCount == old(refCount) && reference == old(reference)
      ensures ratio == old(ratio) && offset == old(offset)
    {
      this.edge := edge;
      self := this;
    }

    /** win32_anchor_with_offset */
    method WithOffset(offset: int) returns (self: Anchor)
      modifies this
      ensures self == this && this.offset == offset
      ensures refCount == old(refCount) && reference == old(reference)
      ensures ratio == old(ratio) && edge == old(edge)
    {
      this.offset := offset;
      self := this;
    }

    /** win32_anchor_ref */
    method Ref() returns (self: Anchor)
      modifies this
      ensures self == this && refCount == old(refCount) + 1
      ensures reference == old(reference) && ratio == old(ratio) && offset == old(offset) && edge == old(edge)
    {
      refCount := refCount + 1;
      self := this;
    }

    /** win32_anchor_unref: `freed` tells that the count reached zero. */
    method Unref() returns (freed: bool)
      modifies this
      ensures refCount == old(refCount) - 1 && freed == (refCount == 0)
      ensures reference == old(reference) && ratio == old(ratio) && offset == old(offset) && edge == old(edge)
    {
      refCount := refCount - 1;
      freed := refCount == 0;
    }

    /** The reference, ratio, offset and edge are as they were. */
    twostate predicate Kept()
      reads this
    {
      reference == old(reference) && ratio == old(ratio) && offset == old(offset) && edge == old(edge)
    }
  }

  // =========================================================================================
  // Layout data

  /** A window's four anchors and the edge coordinates the last recalculate left in it. */
  class LayoutData {
    var refCount: int
    var left: Anchor?
    var top: Anchor?
    var right: Anchor?
    var bottom: Anchor?
    var leftPos: int
    var topPos: int
    var rightPos: int
    var bottomPos: int

    /** win32_layout_data_new: no anchors, zero coordinates, one reference. */
    constructor ()
      ensures refCount == 1 && left == null && top == null && right == null && bottom == null
      ensures leftPos == 0 && topPos == 0 && rightPos == 0 && bottomPos == 0
    {
      refCount := 1;
      left, top, right, bottom := null, null, null, null;
      leftPos, topPos, rightPos, bottomPos := 0, 0, 0, 0;
    }

    function AnchorAt(e: Edge): Anchor?
      reads this
    {
      match e
      case Left => left
      case Top => top
      case Right => right
      case Bottom => bottom
    }

    /** The anchors the four sides hold. */
    function AnchorSet(): (s: set<Anchor>)
      reads this
      ensures forall e | AnchorAt(e) != null :: AnchorAt(e) in s
    {
      (if left != null then {left} else {}) + (if top != null then {top} else {})
      + (if right != null then {right} else {}) + (if bottom != null then {bottom} else {})
    }

    function Pos(e: Edge): int
      reads this
    {
      match e
      case Left => leftPos
      case Top => topPos
      case Right => rightPos
      case Bottom => bottomPos
    }

    /** win32_layout_data_set_left/_top/_right/_bottom. Setting the anchor already held does
        nothing; otherwise the old anchor loses a reference, the new one gains one and is
        stored on that side. */
    method SetAnchor(e: Edge, anchor: Anchor)
      modifies this, anchor, AnchorAt(e)
      ensures old(AnchorAt(e)) == anchor ==> unchanged(this) && unchanged(anchor)
      ensures old(AnchorAt(e)) != anchor ==>
        && AnchorAt(e) == anchor
        && anchor.refCount == old(anchor.refCount) + 1
        && (old(AnchorAt(e)) != null ==> old(AnchorAt(e)).refCount == old(AnchorAt(e).refCount) - 1)
      ensures forall f | f != e :: AnchorAt(f) == old(AnchorAt(f))
      ensures refCount == old(refCount)
      ensures leftPos == old(leftPos) && topPos == old(topPos) && rightPos == old(rightPos) && bottomPos == old(bottomPos)
      ensures anchor.Kept() && (old(AnchorAt(e)) != null ==> old(AnchorAt(e)).Kept())
    {
      var current := AnchorAt(e);
      if current != null {
        if current == anchor {
          return;
        }
        var _ := current.Unref();
      }
      var _ := anchor.Ref();
      match e
      case Left => left := anchor;
      case Top => top := anchor;
      case Right => right := anchor;
      case Bottom => bottom := anchor;
    }

    /** Writing one of the coordinates, as the edge loop of recalculate does. */
    method SetPos(e: Edge, v: int)
      modifies this
      ensures Pos(e) == v && forall f | f != e :: Pos(f) == old(Pos(f))
      ensures refCount == old(refCount) && left == old(left) && top == old(top) && right == old(right) && bottom == old(bottom)
    {
      match e
      case Left => leftPos := v;
      case Top => topPos := v;
      case Right => rightPos := v;
      case Bottom => bottomPos := v;
    }

    /** win32_layout_data_get_left/_top/_right/_bottom */
    method GetAnchor(e: Edge) returns (a: Anchor?)
      ensures a == AnchorAt(e)
    {
      a := AnchorAt(e);
    }

    /** win32_layout_data_ref */
    method Ref() returns (self: LayoutData)
      modifies this
      ensures self == this && refCount == old(refCount) + 1
      ensures forall e :: AnchorAt(e) == old(AnchorAt(e)) && Pos(e) == old(Pos(e))
    {
      refCount := refCount + 1;
      self := this;
    }

    /** win32_layout_data_unref: `freed` tells that the count reached zero. */
    method Unref() returns (freed: bool)
      modifies this
      ensures refCount == old(refCount) - 1 && freed == (refCount == 0)
      ensures forall e :: AnchorAt(e) == old(AnchorAt(e)) && Pos(e) == old(Pos(e))
    {
      refCount := refCount - 1;
      freed := refCount == 0;
    }
  }

  // =========================================================================================
  // Window

  /** One entry of a window's event table (Win32EventListItem): the message, three parallel
      arrays (empty while unallocated) and the number of callbacks in use. */
  datatype EventEntry = EventEntry(eventID: nat, callbacks: seq<Handle>, boundData: seq<Handle>,
                                   releaseData: seq<Handle>, numCallbacks: nat)

  const Unused := EventEntry(WM_NULL, [], [], [], 0)

  function Zeros(n: nat): (z: seq<Handle>)
    ensures |z| == n && forall k | 0 <= k < n :: z[k] == 0
  {
    seq(n, _ => 0)
  }

  function UnusedEntries(n: nat): (z: seq<EventEntry>)
    ensures |z| == n && forall k | 0 <= k < n :: z[k] == Unused
  {
    seq(n, _ => Unused)
  }

  /** A used entry: the three arrays have the same length, a multiple of the chunk, larger
      than the number of callbacks, and are zero from that number on. */
  ghost predicate EntryValid(e: EventEntry) {
    && e.eventID != WM_NULL
    && |e.callbacks| == |e.boundData| == |e.releaseData|
    && e.numCallbacks < |e.callbacks| && |e.callbacks| % QueueChunk == 0
    && (forall k | e.numCallbacks <= k < |e.callbacks| ::
          e.callbacks[k] == 0 && e.boundData[k] == 0 && e.releaseData[k] == 0)
  }

  /** The registrations an entry holds. */
  ghost function RegsOf(e: EventEntry): (r: seq<Registration>)
    requires EntryValid(e)
    ensures |r| == e.numCallbacks
  {
    seq(e.numCallbacks, k requires 0 <= k < e.numCallbacks =>
      Registration(e.callbacks[k], e.boundData[k], e.releaseData[k]))
  }

  /** One step of a walk that stops at the first NULL callback. */
  lemma WalkFrom(regs: seq<Registration>, n: nat)
    requires n < |regs|
    ensures Walk(regs[n..]) == if regs[n].callback == 0 then [] else [regs[n]] + Walk(regs[n + 1..])
  {
    assert regs[n..][1..] == regs[n + 1..];
  }

  /** A walk that has reached a live callback at n goes on past it. */
  lemma WalkStep(regs: seq<Registration>, n: nat, walked: seq<Registration>)
    requires n < |regs| && regs[n].callback != 0
    requires Walk(regs) == walked + Walk(regs[n..])
    ensures Walk(regs) == (walked + [regs[n]]) + Walk(regs[n + 1..])
  {
    WalkFrom(regs, n);
  }

  /** A walk stops at a NULL callback or at the end of the registrations. */
  lemma WalkEnd(regs: seq<Registration>, n: nat)
    requires n <= |regs| && (n < |regs| ==> regs[n].callback == 0)
    ensures Walk(regs[n..]) == []
  {
    if n < |regs| {
      WalkFrom(regs, n);
    }
  }

  /** The table release goes on with listener i. */
  lemma ReleasesStep(ls: seq<Listener>, i: nat, done: seq<Release>)
    requires i < |ls| && Releases(ls) == done + Releases(ls[i..])
    ensures Releases(ls) == (done + ReleasesOf(Walk(ls[i].regs))) + Releases(ls[i + 1..])
  {
    var mine := ReleasesOf(Walk(ls[i].regs));
    var rest := Releases(ls[i + 1..]);
    assert ls[i..][0] == ls[i] && ls[i..][1..] == ls[i + 1..];
    assert Releases(ls[i..]) == mine + rest;
    assert done + (mine + rest) == (done + mine) + rest;
  }

  lemma ReleasesOfCons(reg: Registration, rest: seq<Registration>)
    ensures ReleasesOf([reg] + rest) ==
      (if reg.releaseData != 0 then [Release(reg.releaseData, reg.boundData)] else []) + ReleasesOf(rest)
  {
    assert ([reg] + rest)[1..] == rest;
  }

  /** The event table: the used entries come first, are valid and have distinct messages;
      after them at least one entry is unused, so walks that stop at the first WM_NULL entry
      stay in bounds. The capacity is a multiple of the chunk. */
  ghost predicate TableOk(evs: seq<EventEntry>, count: nat) {
    && count < |evs| && |evs| % ListChunk == 0
    && (forall i | 0 <= i < count :: EntryValid(evs[i]))
    && (forall i | count <= i < |evs| :: evs[i] == Unused)
    && (forall i, j | 0 <= i < j < count :: evs[i].eventID != evs[j].eventID)
  }

  ghost function ListenersOf(evs: seq<EventEntry>, count: nat): (ls: seq<Listener>)
    requires TableOk(evs, count)
    ensures |ls| == count && WellFormed(ls)
    ensures forall i | 0 <= i < count :: ls[i] == Listener(evs[i].eventID, RegsOf(evs[i]))
  {
    seq(count, i requires 0 <= i < count => Listener(evs[i].eventID, RegsOf(evs[i])))
  }

  /** Growing the table before it fills up keeps it well formed and leaves room for a new
      entry and the zero after it. */
  lemma GrowTable(evs: seq<EventEntry>, count: nat, grown: seq<EventEntry>)
    requires TableOk(evs, count)
    requires grown == if (count + 1) % ListChunk == 0 then evs[..count + 1] + UnusedEntries(ListChunk) else evs
    ensures TableOk(grown, count) && count + 1 < |grown| && ListenersOf(grown, count) == ListenersOf(evs, count)
  {
    if (count + 1) % ListChunk == 0 {
      assert grown[..count] == evs[..count];
      assert forall i | count <= i < |grown| :: grown[i] == Unused by {
        forall i | count <= i < |grown| ensures grown[i] == Unused {
          if i == count {
            assert grown[i] == evs[count];
          }
        }
      }
    }
  }

  /** Appending a registration to an entry (the entry after allocation, growth and the
      message id, then after the store) keeps the entry valid and adds that registration. */
  lemma PushEntry(e0: EventEntry, before: EventEntry, after: EventEntry, reg: Registration)
    requires EntryValid(e0) || e0 == Unused
    requires before.eventID != WM_NULL && before.numCallbacks == e0.numCallbacks
    requires var n := e0.numCallbacks;
      var c0 := if e0.callbacks == [] then Zeros(QueueChunk) else e0.callbacks;
      var b0 := if e0.callbacks == [] then Zeros(QueueChunk) else e0.boundData;
      var r0 := if e0.callbacks == [] then Zeros(QueueChunk) else e0.releaseData;
      && before.callbacks == (if (n + 1) % QueueChunk == 0 then c0[..n + 1] + Zeros(QueueChunk) else c0)
      && before.boundData == (if (n + 1) % QueueChunk == 0 then b0[..n + 1] + Zeros(QueueChunk) else b0)
      && before.releaseData == (if (n + 1) % QueueChunk == 0 then r0[..n + 1] + Zeros(QueueChunk) else r0)
    requires after == before.(callbacks := before.callbacks[e0.numCallbacks := reg.callback],
                              boundData := before.boundData[e0.numCallbacks := reg.boundData],
                              releaseData := before.releaseData[e0.numCallbacks := reg.releaseData],
                              numCallbacks := e0.numCallbacks + 1)
    ensures EntryValid(after)
    ensures RegsOf(after) == (if e0 == Unused then [] else RegsOf(e0)) + [reg]
  {
    var n := e0.numCallbacks;
    assert n + 1 < |after.callbacks|;
    var old0 := if e0 == Unused then [] else RegsOf(e0);
    assert |old0| == n;
    forall k | 0 <= k < n
      ensures RegsOf(after)[k] == old0[k]
    {
    }
  }

  /** The entry part of win32_window_insert_into_callback_queue: an entry without arrays gets
      them, the arrays grow by a chunk when the next slot is their last, an unused entry takes
      the message id (`claimed`), and the registration goes after the last one. */
  method PushRegistration(e0: EventEntry, eventID: nat, reg: Registration) returns (entry: EventEntry, claimed: bool)
    requires eventID != WM_NULL
    requires (EntryValid(e0) && e0.eventID == eventID) || e0 == Unused
    ensures EntryValid(entry) && entry.eventID == eventID && claimed == (e0 == Unused)
    ensures RegsOf(entry) == (if e0 == Unused then [] else RegsOf(e0)) + [reg]
  {
    entry := e0;
    if entry.callbacks == [] {
      entry := entry.(callbacks := Zeros(QueueChunk), boundData := Zeros(QueueChunk), releaseData := Zeros(QueueChunk));
    }
    var numCb := entry.numCallbacks;
    if (numCb + 1) % QueueChunk == 0 {
      entry := entry.(callbacks := entry.callbacks[..numCb + 1] + Zeros(QueueChunk),
                      boundData := entry.boundData[..numCb + 1] + Zeros(QueueChunk),
                      releaseData := entry.releaseData[..numCb + 1] + Zeros(QueueChunk));
    }
    claimed := false;
    if entry.eventID == WM_NULL {
      entry := entry.(eventID := eventID);
      claimed := true;
    }
    ghost var before := entry;
    entry := entry.(callbacks := entry.callbacks[numCb := reg.callback],
                    boundData := entry.boundData[numCb := reg.boundData],
                    releaseData := entry.releaseData[numCb := reg.releaseData],
                    numCallbacks := numCb + 1);
    PushEntry(e0, before, entry, reg);
  }

  /** Storing the pushed entry at the index the search found completes Register. */
  lemma StoreEntry(evs: seq<EventEntry>, count: nat, i: nat, entry: EventEntry, id: nat, reg: Registration)
    requires TableOk(evs, count) && count + 1 < |evs| && id != WM_NULL
    requires i <= count && i == Find(ListenersOf(evs, count), id)
    requires EntryValid(entry) && entry.eventID == id
    requires RegsOf(entry) == (if i < count then RegsOf(evs[i]) else []) + [reg]
    ensures var count' := if i < count then count else count + 1;
      && TableOk(evs[i := entry], count')
      && ListenersOf(evs[i := entry], count') == Register(ListenersOf(evs, count), id, reg)
  {
    var ls := ListenersOf(evs, count);
    var count' := if i < count then count else count + 1;
    var evs' := evs[i := entry];
    assert TableOk(evs', count') by {
      forall a, b | 0 <= a < b < count'
        ensures evs'[a].eventID != evs'[b].eventID
      {
        if b == i {
          assert ls[a].eventID != id;
        } else if a == i {
          assert ls[b].eventID == evs[b].eventID;
        }
      }
    }
    var r := Register(ls, id, reg);
    var got := ListenersOf(evs', count');
    assert |got| == |r|;
    forall k | 0 <= k < count'
      ensures got[k] == r[k]
    {
    }
  }

  /** The search of win32_window_insert_into_callback_queue: the first entry for `id` or,
      when there is none, the first unused one. */
  method FindSlot(evs: seq<EventEntry>, count: nat, id: nat) returns (i: nat)
    requires TableOk(evs, count) && id != WM_NULL
    ensures i <= count && i == Find(ListenersOf(evs, count), id)
  {
    ghost var ls := ListenersOf(evs, count);
    i := 0;
    while evs[i].eventID != WM_NULL && evs[i].eventID != id
      invariant 0 <= i <= count
      invariant forall j | 0 <= j < i :: ls[j].eventID != id
      decreases count - i
    {
      i := i + 1;
    }
    if i < count {
      FindFirst(ls, id, i);
    } else {
      FindAbsent(ls, id);
    }
  }

  /** The WM_DESTROY walk over one entry: the release calls for the registrations before the
      first NULL callback whose release function is set. */
  method ReleaseEntry(e: EventEntry) returns (mine: seq<Release>)
    requires EntryValid(e)
    ensures mine == ReleasesOf(Walk(RegsOf(e)))
  {
    ghost var regs := RegsOf(e);
    mine := [];
    var n := 0;
    while e.callbacks[n] != 0
      invariant 0 <= n <= e.numCallbacks
      invariant ReleasesOf(Walk(regs)) == mine + ReleasesOf(Walk(regs[n..]))
      decreases e.numCallbacks - n
    {
      WalkFrom(regs, n);
      ReleasesOfCons(regs[n], Walk(regs[n + 1..]));
      if e.releaseData[n] != 0 {
        mine := mine + [Release(e.releaseData[n], e.boundData[n])];
      }
      n := n + 1;
    }
    if n < e.numCallbacks {
      WalkFrom(regs, n);
    }
  }

  /** The dispatch walk over one entry: invoke_callback for each registration before the
      first NULL callback, keeping the last result. */
  method InvokeEntry(e: EventEntry, handles: Registration -> bool) returns (result: int, invoked: seq<Registration>)
    requires EntryValid(e)
    ensures invoked == Walk(RegsOf(e)) && result == Outcome(invoked, handles)
  {
    ghost var regs := RegsOf(e);
    result := 0;
    invoked := [];
    var n := 0;
    while e.callbacks[n] != 0
      invariant 0 <= n <= e.numCallbacks
      invariant Walk(regs) == invoked + Walk(regs[n..])
      invariant result == Outcome(invoked, handles)
      decreases e.numCallbacks - n
    {
      var reg := Registration(e.callbacks[n], e.boundData[n], e.releaseData[n]);
      WalkStep(regs, n, invoked);
      result := if handles(reg) then STOP_PROPAGATION else 0;
      invoked := invoked + [reg];
      n := n + 1;
    }
    WalkEnd(regs, n);
  }

  /** The WM_DESTROY walk over the whole table, entry by entry up to the first unused one. */
  method ReleaseTable(evs: seq<EventEntry>, count: nat) returns (released: seq<Release>)
    requires TableOk(evs, count)
    ensures released == Releases(ListenersOf(evs, count))
  {
    ghost var ls := ListenersOf(evs, count);
    released := [];
    var i := 0;
    while evs[i].eventID != WM_NULL
      invariant 0 <= i <= count
      invariant Releases(ls) == released + Releases(ls[i..])
      decreases count - i
    {
      var mine := ReleaseEntry(evs[i]);
      ReleasesStep(ls, i, released);
      released := released + mine;
      i := i + 1;
    }
    assert ls[i..] == [];
  }

  class Window {
    var refCount: int
    /** Whether the native window exists (hwnd != NULL): set by WM_NCCREATE. */
    var hasHwnd: bool
    var left: int
    var top: int
    var width: int
    var height: int
    var prefWidth: int
    var prefHeight: int
    var positioning: LayoutData
    /** attachedEvents.items; its length is the allocated capacity. */
    var events: seq<EventEntry>
    /** attachedEvents.length */
    var eventCount: nat

    /** The event table is well formed (see TableOk). */
    ghost predicate TableValid()
      reads this
    {
      TableOk(events, eventCount)
    }

    /** The event table as a list of listeners. */
    ghost function Listeners(): (ls: seq<Listener>)
      requires TableValid()
      reads this
      ensures |ls| == eventCount && WellFormed(ls)
    {
      ListenersOf(events, eventCount)
    }

    /** win32_window_construct with instance_init: one reference, no native window, an empty
        event table of the initial size and fresh layout data. */
    constructor ()
      ensures refCount == 1 && !hasHwnd && TableValid() && Listeners() == [] && |events| == ListChunk
      ensures fresh(positioning) && positioning.refCount == 1
      ensures forall e :: positioning.AnchorAt(e) == null
      ensures left == 0 && top == 0 && width == 0 && height == 0 && prefWidth == 0 && prefHeight == 0
    {
      refCount := 1;
      hasHwnd := false;
      left, top, width, height, prefWidth, prefHeight := 0, 0, 0, 0, 0, 0;
      positioning := new LayoutData();
      events := UnusedEntries(ListChunk);
      eventCount := 0;
    }

    /** win32_window_insert_into_callback_queue: find the entry for the message or take the
        first unused one, then append the registration. Both arrays grow by their chunk just
        before they would lose the zero after the last used slot. */
    method InsertIntoCallbackQueue(eventID: nat, callback: Handle, boundData: Handle, releaseData: Handle)
      returns (r: bool)
      requires TableValid() && eventID != WM_NULL
      modifies this
      ensures TableValid() && r
      ensures Listeners() == Register(old(Listeners()), eventID, Registration(callback, boundData, releaseData))
      ensures eventCount == old(eventCount) + (if Find(old(Listeners()), eventID) < old(eventCount) then 0 else 1)
      ensures refCount == old(refCount) && hasHwnd == old(hasHwnd) && positioning == old(positioning)
      ensures left == old(left) && top == old(top) && width == old(width) && height == old(height)
      ensures prefWidth == old(prefWidth) && prefHeight == old(prefHeight)
    {
      ghost var ls := Listeners();
      var evs := events;
      var numEv := eventCount;
      if (numEv + 1) % ListChunk == 0 {
        evs := evs[..numEv + 1] + UnusedEntries(ListChunk);
      }
      assert TableOk(evs, numEv) && numEv + 1 < |evs| && ListenersOf(evs, numEv) == ls by {
        GrowTable(events, numEv, evs);
      }
      var i := FindSlot(evs, numEv, eventID);
      var entry, claimed := PushRegistration(evs[i], eventID, Registration(callback, boundData, releaseData));
      var count := if claimed then numEv + 1 else numEv;
      StoreEntry(evs, numEv, i, entry, eventID, Registration(callback, boundData, releaseData));
      events, eventCount := evs[i := entry], count;
      r := true;
    }

    /** The walks of win32_window_default_procedure. A window is attached to its native window
        (so the procedure finds its event table) once WM_NCCREATE has been handled. On
        WM_DESTROY the table is released and emptied first, so no WM_DESTROY callback runs.
        Otherwise the first entry for the message is walked and its callbacks invoked in
        order; the result is that of the last one. `handles` tells which callbacks set
        `handled` for their bound data. */
    method DefaultProcedure(msg: nat, handles: Registration -> bool)
      returns (result: int, invoked: seq<Registration>, released: seq<Release>)
      requires TableValid()
      modifies this
      ensures TableValid()
      ensures hasHwnd == (old(hasHwnd) || msg == WM_NCCREATE)
      ensures released == if old(hasHwnd) && msg == WM_DESTROY then Releases(old(Listeners())) else []
      ensures Listeners() == if old(hasHwnd) && msg == WM_DESTROY then [] else old(Listeners())
      ensures invoked == if old(hasHwnd) then Dispatched(Listeners(), msg) else []
      ensures msg == WM_DESTROY ==> invoked == []
      ensures result == STOP_PROPAGATION <==> invoked != [] && handles(invoked[|invoked| - 1])
      ensures result != STOP_PROPAGATION ==> result == 0
      ensures refCount == old(refCount) && positioning == old(positioning)
      ensures left == old(left) && top == old(top) && width == old(width) && height == old(height)
      ensures prefWidth == old(prefWidth) && prefHeight == old(prefHeight)
    {
      var attached := hasHwnd;
      released := [];
      if msg == WM_NCCREATE {
        hasHwnd := true;
      } else if msg == WM_DESTROY && attached {
        released := ReleaseAll();
      }
      result := 0;
      invoked := [];
      if attached {
        result, invoked := Dispatch(msg, handles);
      }
    }

    /** The WM_DESTROY branch: release the bound data of every registration the walks reach,
        then zero the table. */
    method ReleaseAll() returns (released: seq<Release>)
      requires TableValid()
      modifies this
      ensures TableValid() && Listeners() == [] && released == Releases(old(Listeners()))
      ensures |events| == old(|events|)
      ensures hasHwnd == old(hasHwnd) && refCount == old(refCount) && positioning == old(positioning)
      ensures left == old(left) && top == old(top) && width == old(width) && height == old(height)
      ensures prefWidth == old(prefWidth) && prefHeight == old(prefHeight)
    {
      var count := eventCount;
      released := ReleaseTable(events, count);
      events := UnusedEntries(count) + events[count..];
      eventCount := 0;
      assert TableOk(events, 0);
    }

    /** The dispatch walk: find the first entry for the message and invoke its callbacks up to
        the first NULL one. */
    method Dispatch(msg: nat, handles: Registration -> bool) returns (result: int, invoked: seq<Registration>)
      requires TableValid()
      ensures invoked == Dispatched(Listeners(), msg)
      ensures result == STOP_PROPAGATION <==> invoked != [] && handles(invoked[|invoked| - 1])
      ensures result != STOP_PROPAGATION ==> result == 0
    {
      ghost var ls := Listeners();
      var evs := events;
      var count := eventCount;
      result := 0;
      invoked := [];
      var i := 0;
      while evs[i].eventID != WM_NULL
        invariant 0 <= i <= count
        invariant forall j | 0 <= j < i :: ls[j].eventID != msg
        decreases count - i
      {
        if evs[i].eventID == msg {
          FindFirst(ls, msg, i);
          result, invoked := InvokeEntry(evs[i], handles);
          return;
        }
        i := i + 1;
      }
      FindAbsent(ls, msg);
    }

    /** win32_window_set_positioning: setting the layout data already held does nothing;
        otherwise the old one loses a reference, the new one gains one and is stored. */
    method SetPositioning(layoutData: LayoutData)
      modifies this, positioning, layoutData
      ensures old(positioning) == layoutData ==> unchanged(this) && unchanged(layoutData)
      ensures old(positioning) != layoutData ==>
        && positioning == layoutData
        && layoutData.refCount == old(layoutData.refCount) + 1
        && old(positioning).refCount == old(positioning.refCount) - 1
      ensures forall e :: layoutData.AnchorAt(e) == old(layoutData.AnchorAt(e)) && layoutData.Pos(e) == old(layoutData.Pos(e))
      ensures forall e :: old(positioning).AnchorAt(e) == old(positioning.AnchorAt(e)) && old(positioning).Pos(e) == old(positioning.Pos(e))
      ensures refCount == old(refCount) && hasHwnd == old(hasHwnd) && events == old(events) && eventCount == old(eventCount)
      ensures left == old(left) && top == old(top) && width == old(width) && height == old(height)
      ensures prefWidth == old(prefWidth) && prefHeight == old(prefHeight)
    {
      if positioning == layoutData {
        return;
      }
      var _ := positioning.Unref();
      positioning := layoutData.Ref();
    }

    /** win32_window_get_positioning */
    method GetPositioning() returns (p: LayoutData)
      ensures p == positioning
    {
      p := positioning;
    }

    // ---------------------------------------------------------------------------------------
    // Geometry. The setters store the field and, with a native window, also move it (a
    // Win32 call left out). The getters return the stored field without a native window;
    // with one they read the native geometry, which the model takes as an argument.

    /** win32_window_set_left */
    method SetLeft(x: int)
      modifies this
      ensures left == x && Bounds() == old(Bounds()).(left := x) && Unmoved()
    {
      left := x;
    }

    /** win32_window_get_left */
    method GetLeft(nativeLeft: int) returns (x: int)
      modifies this
      ensures x == (if hasHwnd then nativeLeft else old(left)) && left == x
      ensures Bounds() == old(Bounds()).(left := x) && Unmoved()
    {
      if hasHwnd {
        left := nativeLeft;
      }
      x := left;
    }

    /** win32_window_set_top */
    method SetTop(y: int)
      modifies this
      ensures top == y && Bounds() == old(Bounds()).(top := y) && Unmoved()
    {
      top := y;
    }

    /** win32_window_get_top */
    method GetTop(nativeTop: int) returns (y: int)
      modifies this
      ensures y == (if hasHwnd then nativeTop else old(top)) && top == y
      ensures Bounds() == old(Bounds()).(top := y) && Unmoved()
    {
      if hasHwnd {
        top := nativeTop;
      }
      y := top;
    }

    /** win32_window_set_width: records the preferred width. */
    method SetWidth(w: int)
      modifies this
      ensures prefWidth == w && Bounds() == old(Bounds()).(prefWidth := w) && Unmoved()
    {
      prefWidth := w;
    }

    /** win32_window_get_width: the preferred width without a native window; otherwise the
        native width, which is also stored as `width`. */
    method GetWidth(nativeWidth: int) returns (w: int)
      modifies this
      ensures w == if hasHwnd then nativeWidth else prefWidth
      ensures Bounds() == (if hasHwnd then old(Bounds()).(width := nativeWidth) else old(Bounds()))
      ensures Unmoved()
    {
      if hasHwnd {
        width := nativeWidth;
        return width;
      }
      w := prefWidth;
    }

    /** win32_window_set_height: records the preferred height. */
    method SetHeight(h: int)
      modifies this
      ensures prefHeight == h && Bounds() == old(Bounds()).(prefHeight := h) && Unmoved()
    {
      prefHeight := h;
    }

    /** win32_window_get_height */
    method GetHeight(nativeHeight: int) returns (h: int)
      modifies this
      ensures h == if hasHwnd then nativeHeight else prefHeight
      ensures Bounds() == (if hasHwnd then old(Bounds()).(height := nativeHeight) else old(Bounds()))
      ensures Unmoved()
    {
      if hasHwnd {
        height := nativeHeight;
        return height;
      }
      h := prefHeight;
    }

    /** win32_window_move */
    method Move(x: int, y: int)
      modifies this
      ensures Bounds() == old(Bounds()).(left := x, top := y) && Unmoved()
    {
      left := x;
      top := y;
    }

    /** win32_window_resize */
    method Resize(w: int, h: int)
      modifies this
      ensures Bounds() == old(Bounds()).(width := w, height := h) && Unmoved()
    {
      width := w;
      height := h;
    }

    /** win32_window_move_and_resize: stores exactly the four values. */
    method MoveAndResize(x: int, y: int, w: int, h: int)
      modifies this
      ensures Bounds() == old(Bounds()).(left := x, top := y, width := w, height := h) && Unmoved()
    {
      left := x;
      top := y;
      width := w;
      height := h;
    }

    function Bounds(): Geometry
      reads this
    {
      Geometry(left, top, width, height, prefWidth, prefHeight)
    }

    /** Everything but the geometry fields is as it was. */
    twostate predicate Unmoved()
      reads this
    {
      && refCount == old(refCount) && hasHwnd == old(hasHwnd) && positioning == old(positioning)
      && events == old(events) && eventCount == old(eventCount)
    }

    /** win32_window_ref */
    method Ref() returns (self: Window)
      modifies this
      ensures self == this && refCount == old(refCount) + 1
      ensures Bounds() == old(Bounds()) && hasHwnd == old(hasHwnd) && positioning == old(positioning)
      ensures events == old(events) && eventCount == old(eventCount)
    {
      refCount := refCount + 1;
      self := this;
    }

    /** win32_window_unref: `finalize` tells that the count reached zero, when the source runs
        the class's finalize and frees the instance. */
    method Unref() returns (finalize: bool)
      modifies this
      ensures refCount == old(refCount) - 1 && finalize == (refCount == 0)
      ensures Bounds() == old(Bounds()) && hasHwnd == old(hasHwnd) && positioning == old(positioning)
      ensures events == old(events) && eventCount == old(eventCount)
    {
      refCount := refCount - 1;
      finalize := refCount == 0;
    }
  }

  /** The geometry fields of a window. */
  datatype Geometry = Geometry(left: int, top: int, width: int, height: int, prefWidth: int, prefHeight: int)
}
