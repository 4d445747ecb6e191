/*
 * The relative layout of src/layout.c on the heap: the layout object with its builders, the
 * edge list (a fixed-size array of window/edge pairs), configure with its recursive
 * prerequisite walk, and recalculate. Each operation is proved to do what the value-level
 * definitions of EdgeOrder and EdgeGeometry say, on the anchor graph read from the heap.
 */
module Layout {
  import opened EdgeOrder
  import opened EdgeGeometry
  import opened LayoutPass
  import opened Widgets

  /** (UINT)-1: with_spacing and with_padding copy the vertical value when given it. */
  const Unset: nat := 0xFFFF_FFFF

  /** One slot of the edge list; an empty slot holds (NULL, 0). */
  datatype EdgeItem = EdgeItem(window: Window?, edge: int)

  const Empty := EdgeItem(null, 0)

  // =========================================================================================
  // The anchor graph as the heap holds it

  /** The objects configure and recalculate work on: the windows, the layout data they are
      positioned by and the anchors that layout data holds. */
  datatype Scope = Scope(windows: set<Window>, data: set<LayoutData>, anchors: set<Anchor>, sides: map<Anchor, Edge>)

  /** Every window's layout data, and every anchor in it, belongs to the scope. */
  ghost predicate Closed(sc: Scope)
    reads sc.windows, sc.data
  {
    forall w | w in sc.windows :: w.positioning in sc.data && w.positioning.AnchorSet() <= sc.anchors
  }

  /** What one anchor pointer stands for. */
  ghost function SlotOf(a: Anchor?): Slot<Window>
    reads a
  {
    if a == null then Unanchored
    else if a.reference == null then ToParent(a.ratio)
    else ToSibling(a.reference as Window, a.edge)
  }

  ghost function AnchorsOf(d: LayoutData): (r: Anchors<Window>)
    reads d, d.AnchorSet()
    ensures forall e :: r.At(e) == SlotOf(d.AnchorAt(e))
  {
    Anchors(SlotOf(d.left), SlotOf(d.top), SlotOf(d.right), SlotOf(d.bottom))
  }

  /** The anchor graph of the windows of the scope. */
  ghost function GraphOf(sc: Scope): (g: Graph<Window>)
    requires Closed(sc)
    reads sc.windows, sc.data, sc.anchors
    ensures g.Keys == sc.windows
    ensures forall w, e | w in sc.windows :: g[w].At(e) == SlotOf(w.positioning.AnchorAt(e))
  {
    map w | w in sc.windows :: AnchorsOf(w.positioning)
  }

  /** g holds the anchors of g0, some of them with the default edge written back. */
  ghost predicate Tracks(g: Graph<Window>, g0: Graph<Window>) {
    && g.Keys == g0.Keys
    && forall w, e | w in g0 :: g[w].At(e) == g0[w].At(e) || g[w].At(e) == ResolveSlot(g0[w].At(e), e)
  }

  /** In g, pair n has its default edge written back. */
  ghost predicate Resolved(g: Graph<Window>, g0: Graph<Window>, n: Node<Window>) {
    n.window in g && n.window in g0 && g[n.window].At(n.edge) == ResolveSlot(g0[n.window].At(n.edge), n.edge)
  }

  ghost predicate AllResolved(g: Graph<Window>, g0: Graph<Window>, list: seq<Node<Window>>) {
    forall x | x in list :: Resolved(g, g0, x)
  }

  /** Every pair resolved in g1 is still resolved in g2. */
  ghost predicate Keeps(g0: Graph<Window>, g1: Graph<Window>, g2: Graph<Window>) {
    forall w, e | w in g1 && Resolved(g1, g0, Node(w, e)) :: Resolved(g2, g0, Node(w, e))
  }

  lemma KeepsRefl(g0: Graph<Window>, g: Graph<Window>)
    ensures Keeps(g0, g, g)
  {
  }

  /** Pairs resolved before a step that keeps resolutions are resolved after it. */
  lemma KeepsAll(g0: Graph<Window>, g1: Graph<Window>, g2: Graph<Window>, list: seq<Node<Window>>)
    requires Keeps(g0, g1, g2) && AllResolved(g1, g0, list)
    ensures AllResolved(g2, g0, list)
  {
    forall x | x in list ensures Resolved(g2, g0, x) {
      assert Resolved(g1, g0, Node(x.window, x.edge));
    }
  }

  lemma ListedResolved(g: Graph<Window>, g0: Graph<Window>, list: seq<Node<Window>>, n: Node<Window>)
    requires AllResolved(g, g0, list) && n in list
    ensures Resolved(g, g0, n)
  {
  }

  /** A pair already listed is resolved, and skipping it keeps every resolution. */
  lemma ListedKept(g: Graph<Window>, g0: Graph<Window>, list: seq<Node<Window>>, n: Node<Window>)
    requires AllResolved(g, g0, list) && n in list
    ensures Resolved(g, g0, n) && Keeps(g0, g, g)
  {
    ListedResolved(g, g0, list, n);
  }

  /** A slot already naming a sibling edge is its own resolution. */
  lemma ResolvedAlready(g: Graph<Window>, g0: Graph<Window>, n: Node<Window>)
    requires Tracks(g, g0) && n.window in g0
    requires g[n.window].At(n.edge).ToSibling? && g[n.window].At(n.edge).code != 0
    ensures Resolved(g, g0, n)
  {
  }

  lemma KeepsTrans(g0: Graph<Window>, g1: Graph<Window>, g2: Graph<Window>, g3: Graph<Window>)
    requires Keeps(g0, g1, g2) && Keeps(g0, g2, g3)
    ensures Keeps(g0, g1, g3)
  {
  }

  /** An anchor object that will get a default edge written into it sits on one kind of side
      only, the one `sc.sides` names, so the edge written for one of its slots is right for
      all of them. */
  ghost predicate DefaultsUnshared(sc: Scope, g0: Graph<Window>)
    reads sc.windows, sc.data
  {
    && Closed(sc)
    && forall w, e {:trigger g0[w].At(e)} | w in sc.windows && w in g0 && g0[w].At(e).ToSibling? && g0[w].At(e).code == 0
         :: var a := w.positioning.AnchorAt(e); a != null ==> a in sc.sides && sc.sides[a] == e
  }

  ghost predicate Configurable(sc: Scope, g0: Graph<Window>, rule: Rule, rank: Node<Window> -> nat)
    reads sc.windows, sc.data, sc.anchors
  {
    && Closed(sc) && Tracks(GraphOf(sc), g0) && DefaultsUnshared(sc, g0)
    && WellCoded(g0) && ReferencesWithin(g0, sc.windows) && Ranked(g0, rule, rank)
  }

  /** The prerequisite configure follows from pair n, read from slots that track g0. */
  lemma PrereqTracked(g0: Graph<Window>, rule: Rule, n: Node<Window>, s: Slot<Window>, p: Slot<Window>)
    requires n.window in g0 && WellCoded(g0)
    requires s == g0[n.window].At(n.edge) || s == ResolveSlot(g0[n.window].At(n.edge), n.edge)
    requires p == g0[n.window].At(n.edge.Paired()) || p == ResolveSlot(g0[n.window].At(n.edge.Paired()), n.edge.Paired())
    ensures s.Unanchored? ==>
      Prereq(g0, rule, n) == (if !p.Unanchored? || (rule == TrailingNeedsLeading && n.edge.Trailing()) then Some(Node(n.window, n.edge.Paired())) else None)
    ensures s.ToParent? ==> Prereq(g0, rule, n) == None
    ensures s.ToSibling? ==>
      && DecodeEdge(ResolvedCode(s.code, n.edge)).Some?
      && Prereq(g0, rule, n) == Some(Node(s.reference, DecodeEdge(ResolvedCode(s.code, n.edge)).value))
  {
    if s.ToSibling? {
      var c := g0[n.window].At(n.edge).code;
      assert c == 0 || DecodeEdge(c).Some?;
      assert DecodeEdge(n.edge.Paired().Code()).Some?;
    }
  }

  // =========================================================================================
  // The edge list as an array

  /** The index of the first empty slot, or |a| when there is none. */
  function FirstFree(a: seq<EdgeItem>): (k: nat)
    ensures k <= |a| && (k < |a| ==> a[k].window == null)
    ensures forall i | 0 <= i < k :: a[i].window != null
  {
    if a == [] then 0
    else if a[0].window == null then 0
    else 1 + FirstFree(a[1..])
  }

  lemma FirstFreeIs(a: seq<EdgeItem>, k: nat)
    requires k <= |a| && (k < |a| ==> a[k].window == null)
    requires forall i | 0 <= i < k :: a[i].window != null
    ensures FirstFree(a) == k
  {
  }

  /** The list fills a prefix of the array with pairs naming one of the four edges; every slot
      after it is empty. */
  ghost predicate Shaped(a: seq<EdgeItem>) {
    && (forall i | 0 <= i < FirstFree(a) :: DecodeEdge(a[i].edge).Some?)
    && (forall i | FirstFree(a) <= i < |a| :: a[i] == Empty)
  }

  /** The filled prefix as pairs. */
  ghost function NodesOf(a: seq<EdgeItem>): (ns: seq<Node<Window>>)
    requires Shaped(a)
    ensures |ns| == FirstFree(a)
    ensures forall i | 0 <= i < |ns| :: ns[i].window == a[i].window && ns[i].edge.Code() == a[i].edge
  {
    seq(FirstFree(a), i requires 0 <= i < FirstFree(a) => Node(a[i].window, DecodeEdge(a[i].edge).value))
  }

  /** Filling the first empty slot appends to the list. */
  lemma FillFirstFree(a: seq<EdgeItem>, w: Window, e: Edge)
    requires Shaped(a) && FirstFree(a) < |a|
    ensures var b := a[FirstFree(a) := EdgeItem(w, e.Code())];
      Shaped(b) && FirstFree(b) == FirstFree(a) + 1 && NodesOf(b) == NodesOf(a) + [Node(w, e)]
  {
    var k := FirstFree(a);
    var b := a[k := EdgeItem(w, e.Code())];
    FirstFreeIs(b, k + 1);
    assert DecodeEdge(e.Code()) == Some(e);
  }

  /** A slot holds (w, e) exactly when the list has pair (w, e). */
  lemma HeldIffListed(a: seq<EdgeItem>, w: Window, e: Edge)
    requires Shaped(a)
    ensures (exists i | 0 <= i < |a| :: a[i] == EdgeItem(w, e.Code())) <==> Node(w, e) in NodesOf(a)
  {
    var ns := NodesOf(a);
    if exists i | 0 <= i < |a| :: a[i] == EdgeItem(w, e.Code()) {
      var i :| 0 <= i < |a| && a[i] == EdgeItem(w, e.Code());
      assert i < FirstFree(a);
      assert DecodeEdge(a[i].edge) == Some(e);
      assert ns[i] == Node(w, e);
    }
    if Node(w, e) in ns {
      var i :| 0 <= i < |ns| && ns[i] == Node(w, e);
      assert a[i] == EdgeItem(w, e.Code());
    }
  }

  // =========================================================================================
  // The coordinates and sizes recalculate works on

  /** The coordinates `_left`, `_top`, `_right`, `_bottom` one layout data object holds. */
  function BoxOf(d: LayoutData): Box
    reads d
  {
    Box(d.leftPos, d.topPos, d.rightPos, d.bottomPos)
  }

  /** No two windows of the scope share their layout data, so each has coordinates of its
      own. */
  ghost predicate OwnData(sc: Scope)
    reads sc.windows
  {
    forall v, w | v in sc.windows && w in sc.windows && v != w :: v.positioning != w.positioning
  }

  /** The coordinates of the windows of the scope. */
  ghost function CoordsOf(sc: Scope): (m: map<Window, Box>)
    requires Closed(sc)
    reads sc.windows, sc.data
    ensures m.Keys == sc.windows
  {
    map w | w in sc.windows :: BoxOf(w.positioning)
  }

  /** The `width` and `height` fields of the windows of the scope. */
  ghost function SizesOf(sc: Scope): (m: map<Window, Size>)
    reads sc.windows
    ensures m.Keys == sc.windows
  {
    map w | w in sc.windows :: Size(w.width, w.height)
  }

  /** What win32_window_move_and_resize leaves in a window's geometry fields. */
  function Moved(b: Geometry, p: Placement): Geometry {
    b.(left := p.x, top := p.y, width := p.width, height := p.height)
  }

  /** Everything a layout data object holds besides its coordinates. */
  datatype Links = Links(refCount: int, left: Anchor?, top: Anchor?, right: Anchor?, bottom: Anchor?)

  /** What the layout data of the scope hold besides their coordinates. */
  ghost function LinksOf(sc: Scope): map<LayoutData, Links>
    reads sc.data
  {
    map d | d in sc.data :: Links(d.refCount, d.left, d.top, d.right, d.bottom)
  }

  // =========================================================================================
  // The layout object

  class RelativeLayout {
    var refCount: int
    var vPadding: nat
    var hPadding: nat
    var vSpacing: nat
    var hSpacing: nat
    var scale: nat
    /** edgeList.items; its length is edgeList.length. */
    var items: array<EdgeItem>

    /** The paddings, spacings and scale recalculate reads. */
    function Cfg(): Config
      reads this
    {
      Config(vPadding, hPadding, vSpacing, hSpacing, scale)
    }

    ghost predicate ListShaped()
      reads this, items
    {
      Shaped(items[..])
    }

    /** The pairs the edge list holds, in order. */
    ghost function Entries(): seq<Node<Window>>
      requires ListShaped()
      reads this, items
    {
      NodesOf(items[..])
    }

    /** win32_relative_layout_new: both paddings `padding`, both spacings `spacing`, scale
        100, one reference and an empty edge list. */
    constructor (padding: nat, spacing: nat)
      ensures refCount == 1 && scale == 100
      ensures vPadding == padding && hPadding == padding && vSpacing == spacing && hSpacing == spacing
      ensures fresh(items) && items.Length == 0
    {
      refCount := 1;
      vPadding, hPadding := padding, padding;
      vSpacing, hSpacing := spacing, spacing;
      scale := 100;
      items := new EdgeItem[0];
    }

    /** win32_relative_layout_set_scale: any value, 0 included, is stored. */
    method SetScale(scale: nat) returns (self: RelativeLayout)
      modifies this
      ensures self == this && this.scale == scale
      ensures vPadding == old(vPadding) && hPadding == old(hPadding) && vSpacing == old(vSpacing) && hSpacing == old(hSpacing)
      ensures refCount == old(refCount) && items == old(items)
    {
      this.scale := scale;
      self := this;
    }

    /** win32_relative_layout_with_spacing: the horizontal spacing copies the vertical one
        exactly when it is given as (UINT)-1. */
    method WithSpacing(vSpacing: nat, hSpacing: nat) returns (self: RelativeLayout)
      modifies this
      ensures self == this && this.vSpacing == vSpacing
      ensures this.hSpacing == if hSpacing == Unset then vSpacing else hSpacing
      ensures vPadding == old(vPadding) && hPadding == old(hPadding) && scale == old(scale)
      ensures refCount == old(refCount) && items == old(items)
    {
      this.vSpacing := vSpacing;
      this.hSpacing := if hSpacing == Unset then vSpacing else hSpacing;
      self := this;
    }

    /** win32_relative_layout_with_padding: likewise for the paddings. */
    method WithPadding(vPadding: nat, hPadding: nat) returns (self: RelativeLayout)
      modifies this
      ensures self == this && this.vPadding == vPadding
      ensures this.hPadding == if hPadding == Unset then vPadding else hPadding
      ensures vSpacing == old(vSpacing) && hSpacing == old(hSpacing) && scale == old(scale)
      ensures refCount == old(refCount) && items == old(items)
    {
      this.vPadding := vPadding;
      this.hPadding := if hPadding == Unset then vPadding else hPadding;
      self := this;
    }

    /** win32_layout_ref */
    method Ref() returns (self: RelativeLayout)
      modifies this
      ensures self == this && refCount == old(refCount) + 1
      ensures Cfg() == old(Cfg()) && items == old(items)
    {
      refCount := refCount + 1;
      self := this;
    }

    /** win32_layout_unref: `freed` tells that the count reached zero. */
    method Unref() returns (freed: bool)
      modifies this
      ensures refCount == old(refCount) - 1 && freed == (refCount == 0)
      ensures Cfg() == old(Cfg()) && items == old(items)
    {
      refCount := refCount - 1;
      freed := refCount == 0;
    }

    // ---------------------------------------------------------------------------------------
    // Edge-list primitives

    /** win32_edge_list_append: write the pair into the first empty slot; a full list is left
        as it is. */
    method Append(item: Window, edge: Edge)
      requires ListShaped()
      modifies items
      ensures ListShaped()
      ensures Entries() == EdgeOrder.Append(old(Entries()), Node(item, edge), items.Length)
      ensures var k := FirstFree(old(items[..]));
        items[..] == if k < items.Length then old(items[..])[k := EdgeItem(item, edge.Code())] else old(items[..])
    {
      var i := 0;
      while i < items.Length
        invariant 0 <= i <= items.Length
        invariant forall j | 0 <= j < i :: items[j].window != null
        invariant items[..] == old(items[..])
      {
        if items[i].window == null {
          FirstFreeIs(items[..], i);
          FillFirstFree(items[..], item, edge);
          items[i] := EdgeItem(item, edge.Code());
          return;
        }
        i := i + 1;
      }
      FirstFreeIs(items[..], items.Length);
    }

    /** win32_edge_list_includes: whether some slot holds exactly (item, edge). */
    method Includes(item: Window, edge: Edge) returns (b: bool)
      ensures b <==> EdgeItem(item, edge.Code()) in items[..]
      ensures ListShaped() ==> (b <==> Node(item, edge) in Entries())
    {
      if ListShaped() {
        HeldIffListed(items[..], item, edge);
      }
      var i := 0;
      while i < items.Length
        invariant 0 <= i <= items.Length
        invariant forall j | 0 <= j < i :: items[j] != EdgeItem(item, edge.Code())
      {
        if items[i].window == item && items[i].edge == edge.Code() {
          return true;
        }
        i := i + 1;
      }
      return false;
    }

    // ---------------------------------------------------------------------------------------
    // Configure

    /** Configure's working state: the edge list is well formed and holds `list`, the heap
        tracks g0 and every listed pair has its default edge written back. */
    ghost predicate Configuring(sc: Scope, g0: Graph<Window>, rule: Rule, rank: Node<Window> -> nat,
                                list: seq<Node<Window>>)
      reads this, items, sc.windows, sc.data, sc.anchors
    {
      && ListShaped() && Configurable(sc, g0, rule, rank)
      && Entries() == list && AllResolved(GraphOf(sc), g0, list)
    }

    /** Configure's working state once the first k pairs of the scan over `children` are
        visited. */
    ghost predicate ScannedUpTo(sc: Scope, g0: Graph<Window>, rule: Rule, rank: Node<Window> -> nat,
                                children: seq<Window>, k: nat)
      reads this, items, sc.windows, sc.data, sc.anchors
    {
      && Ranked(g0, rule, rank) && k <= 4 * |children|
      && Configuring(sc, g0, rule, rank, Scanned(g0, rule, rank, items.Length, ScanNodes(children), k))
    }

    /** win32_edge_list_prepend_referred_edges: append the prerequisite chain of (item, edge)
        deepest first, stopping at a pair already listed, after writing the default edge into
        a sibling anchor that has none. As written the source follows AsWritten; with
        TrailingNeedsLeading an unanchored trailing edge also waits for its leading edge. */
    method PrependReferredEdges(item: Window, edge: Edge, rule: Rule, ghost sc: Scope,
                                ghost g0: Graph<Window>, ghost rank: Node<Window> -> nat, ghost list: seq<Node<Window>>)
      returns (ghost list': seq<Node<Window>>)
      requires item in sc.windows && Configuring(sc, g0, rule, rank, list)
      modifies items, sc.anchors`edge
      ensures list' == Prepend(g0, rule, rank, items.Length, list, Node(item, edge))
      ensures Configuring(sc, g0, rule, rank, list')
      ensures Resolved(GraphOf(sc), g0, Node(item, edge))
      ensures Keeps(g0, old(GraphOf(sc)), GraphOf(sc))
      decreases rank(Node(item, edge)), 2
    {
      ghost var g := GraphOf(sc);
      var pos := item.positioning;
      var anchor := pos.AnchorAt(edge);
      var pair := pos.AnchorAt(edge.Paired());
      PrereqTracked(g0, rule, Node(item, edge), g[item].At(edge), g[item].At(edge.Paired()));
      if anchor == null {
        if pair != null || (rule == TrailingNeedsLeading && edge.Trailing()) {
          PrependStep(g0, rule, rank, items.Length, list, Node(item, edge), Node(item, edge.Paired()));
          list' := VisitPair(item, edge.Paired(), rule, sc, g0, rank, list);
        } else {
          list' := list;
          KeepsRefl(g0, g);
        }
        return;
      }
      if anchor.reference == null {
        list' := list;
        KeepsRefl(g0, g);
        return;
      }
      list' := PrependSibling(item, edge, anchor, rule, sc, g0, rank, list);
    }

    /** The sibling case of win32_edge_list_prepend_referred_edges: after the writeback, the
        referenced pair is visited. */
    method PrependSibling(item: Window, edge: Edge, anchor: Anchor, rule: Rule, ghost sc: Scope,
                          ghost g0: Graph<Window>, ghost rank: Node<Window> -> nat, ghost list: seq<Node<Window>>)
      returns (ghost list': seq<Node<Window>>)
      requires item in sc.windows && Configuring(sc, g0, rule, rank, list)
      requires item.positioning.AnchorAt(edge) == anchor && anchor.reference != null
      modifies items, sc.anchors`edge
      ensures list' == Prepend(g0, rule, rank, items.Length, list, Node(item, edge))
      ensures Configuring(sc, g0, rule, rank, list')
      ensures Resolved(GraphOf(sc), g0, Node(item, edge))
      ensures Keeps(g0, old(GraphOf(sc)), GraphOf(sc))
      decreases rank(Node(item, edge)), 1
    {
      ghost var g := GraphOf(sc);
      PrereqTracked(g0, rule, Node(item, edge), g[item].At(edge), g[item].At(edge.Paired()));
      WriteBack(item, edge, anchor, rule, sc, g0, rank, list);
      ghost var g1 := GraphOf(sc);
      var target := DecodeEdge(anchor.edge).value;
      list' := VisitReferenced(item, edge, anchor.reference, target, rule, sc, g0, rank, list);
      KeepsTrans(g0, g, g1, GraphOf(sc));
    }

    /** The rest of the sibling case: the pair the written-back anchor refers to is visited. */
    method VisitReferenced(item: Window, edge: Edge, reference: Window, target: Edge, rule: Rule, ghost sc: Scope,
                           ghost g0: Graph<Window>, ghost rank: Node<Window> -> nat, ghost list: seq<Node<Window>>)
      returns (ghost list': seq<Node<Window>>)
      requires reference in sc.windows && Configuring(sc, g0, rule, rank, list)
      requires Prereq(g0, rule, Node(item, edge)) == Some(Node(reference, target))
      requires Resolved(GraphOf(sc), g0, Node(item, edge))
      modifies items, sc.anchors`edge
      ensures list' == Prepend(g0, rule, rank, items.Length, list, Node(item, edge))
      ensures Configuring(sc, g0, rule, rank, list')
      ensures Resolved(GraphOf(sc), g0, Node(item, edge))
      ensures Keeps(g0, old(GraphOf(sc)), GraphOf(sc))
      decreases rank(Node(item, edge)), 0
    {
      PrependStep(g0, rule, rank, items.Length, list, Node(item, edge), Node(reference, target));
      list' := VisitPair(reference, target, rule, sc, g0, rank, list);
    }

    /** The writeback inside configure's working state: the list and every listed pair's
        resolution are kept. */
    method WriteBack(item: Window, edge: Edge, anchor: Anchor, rule: Rule, ghost sc: Scope,
                     ghost g0: Graph<Window>, ghost rank: Node<Window> -> nat, ghost list: seq<Node<Window>>)
      requires item in sc.windows && Configuring(sc, g0, rule, rank, list)
      requires item.positioning.AnchorAt(edge) == anchor && anchor.reference != null
      modifies anchor`edge
      ensures anchor.edge == ResolvedCode(old(anchor.edge), edge) && anchor.reference == old(anchor.reference)
      ensures Configuring(sc, g0, rule, rank, list)
      ensures Resolved(GraphOf(sc), g0, Node(item, edge))
      ensures Keeps(g0, old(GraphOf(sc)), GraphOf(sc))
    {
      ghost var g := GraphOf(sc);
      WriteDefaultEdge(item, edge, anchor, sc, g0);
      KeepsAll(g0, g, GraphOf(sc), list);
    }

    /** The writeback in win32_edge_list_prepend_referred_edges: a sibling anchor with no
        edge gets the edge paired with the side it sits on. */
    method WriteDefaultEdge(item: Window, edge: Edge, anchor: Anchor, ghost sc: Scope, ghost g0: Graph<Window>)
      requires item in sc.windows && Closed(sc) && Tracks(GraphOf(sc), g0) && DefaultsUnshared(sc, g0)
      requires item.positioning.AnchorAt(edge) == anchor && anchor.reference != null
      modifies anchor`edge
      ensures anchor.edge == ResolvedCode(old(anchor.edge), edge) && anchor.reference == old(anchor.reference)
      ensures Closed(sc) && Tracks(GraphOf(sc), g0) && DefaultsUnshared(sc, g0)
      ensures Resolved(GraphOf(sc), g0, Node(item, edge))
      ensures Keeps(g0, old(GraphOf(sc)), GraphOf(sc))
    {
      if anchor.edge == 0 {
        anchor.edge := edge.Paired().Code();
        WroteDefault(sc, g0, item, edge, anchor);
      } else {
        ResolvedAlready(GraphOf(sc), g0, Node(item, edge));
        KeepsRefl(g0, GraphOf(sc));
      }
    }

    /** The step configure takes for each pair and prepend_referred_edges for each
        prerequisite: a pair already listed is skipped, otherwise its prerequisites are
        appended and then the pair itself. */
    method VisitPair(item: Window, edge: Edge, rule: Rule, ghost sc: Scope,
                     ghost g0: Graph<Window>, ghost rank: Node<Window> -> nat, ghost list: seq<Node<Window>>)
      returns (ghost list': seq<Node<Window>>)
      requires item in sc.windows && Configuring(sc, g0, rule, rank, list)
      modifies items, sc.anchors`edge
      ensures list' == Visit(g0, rule, rank, items.Length, list, Node(item, edge))
      ensures Configuring(sc, g0, rule, rank, list')
      ensures Resolved(GraphOf(sc), g0, Node(item, edge))
      ensures Keeps(g0, old(GraphOf(sc)), GraphOf(sc))
      decreases rank(Node(item, edge)), 4
    {
      var present := Includes(item, edge);
      if !present {
        list' := PrependThenAppend(item, edge, rule, sc, g0, rank, list);
      } else {
        list' := list;
        SkipListed(sc, g0, rule, rank, list, Node(item, edge));
      }
    }

    /** Visiting a pair already listed leaves the list and the heap graph as they are. */
    lemma SkipListed(sc: Scope, g0: Graph<Window>, rule: Rule, rank: Node<Window> -> nat,
                     list: seq<Node<Window>>, n: Node<Window>)
      requires Configuring(sc, g0, rule, rank, list) && n in list
      ensures Visit(g0, rule, rank, items.Length, list, n) == list
      ensures Resolved(GraphOf(sc), g0, n) && Keeps(g0, GraphOf(sc), GraphOf(sc))
    {
      ListedKept(GraphOf(sc), g0, list, n);
    }

    /** Append the prerequisites of a pair, then the pair. */
    method PrependThenAppend(item: Window, edge: Edge, rule: Rule, ghost sc: Scope,
                             ghost g0: Graph<Window>, ghost rank: Node<Window> -> nat, ghost list: seq<Node<Window>>)
      returns (ghost list': seq<Node<Window>>)
      requires item in sc.windows && Configuring(sc, g0, rule, rank, list)
      modifies items, sc.anchors`edge
      ensures list' == EdgeOrder.Append(Prepend(g0, rule, rank, items.Length, list, Node(item, edge)), Node(item, edge), items.Length)
      ensures Configuring(sc, g0, rule, rank, list')
      ensures Resolved(GraphOf(sc), g0, Node(item, edge))
      ensures Keeps(g0, old(GraphOf(sc)), GraphOf(sc))
      decreases rank(Node(item, edge)), 3
    {
      var list1 := PrependReferredEdges(item, edge, rule, sc, g0, rank, list);
      list' := AppendListed(item, edge, rule, sc, g0, rank, list1);
    }

    /** Append a pair whose default edge is written back: the heap graph is left as it is. */
    method AppendListed(item: Window, edge: Edge, rule: Rule, ghost sc: Scope,
                        ghost g0: Graph<Window>, ghost rank: Node<Window> -> nat, ghost list: seq<Node<Window>>)
      returns (ghost list': seq<Node<Window>>)
      requires Configuring(sc, g0, rule, rank, list) && Resolved(GraphOf(sc), g0, Node(item, edge))
      modifies items
      ensures list' == EdgeOrder.Append(list, Node(item, edge), items.Length)
      ensures Configuring(sc, g0, rule, rank, list')
      ensures GraphOf(sc) == old(GraphOf(sc))
    {
      Append(item, edge);
      GraphKept(sc);
      list' := EdgeOrder.Append(list, Node(item, edge), items.Length);
      AppendResolved(GraphOf(sc), g0, list, Node(item, edge), items.Length);
    }

    /** The start of win32_relative_layout_configure: the old list is dropped and a new one
        of `length` empty slots takes its place. */
    method ResetList(length: nat, rule: Rule, ghost sc: Scope, ghost rank: Node<Window> -> nat)
      requires Closed(sc) && Configurable(sc, GraphOf(sc), rule, rank)
      modifies this
      ensures fresh(items) && items.Length == length
      ensures Closed(sc) && GraphOf(sc) == old(GraphOf(sc))
      ensures Configuring(sc, GraphOf(sc), rule, rank, [])
      ensures Cfg() == old(Cfg()) && refCount == old(refCount)
    {
      items := new EdgeItem[length](_ => Empty);
      FirstFreeIs(items[..], 0);
      GraphKept(sc);
    }

    /** win32_relative_layout_configure: a fresh list of 4 * |children| empty slots, then every
        child in list order and its edges 1, 2, 4, 8: a pair already listed is skipped,
        otherwise its prerequisites are appended and then the pair itself. */
    method Configure(children: seq<Window>, rule: Rule, ghost sc: Scope, ghost rank: Node<Window> -> nat)
      requires forall c | c in children :: c in sc.windows
      requires Closed(sc) && Configurable(sc, GraphOf(sc), rule, rank)
      modifies this, sc.anchors`edge
      ensures fresh(items) && items.Length == 4 * |children|
      ensures Configuring(sc, old(GraphOf(sc)), rule, rank, ConfigureOrder(old(GraphOf(sc)), rule, rank, children))
      ensures Cfg() == old(Cfg()) && refCount == old(refCount)
    {
      ghost var g0 := GraphOf(sc);
      ResetList(4 * |children|, rule, sc, rank);
      ConfigureChildren(children, rule, sc, g0, rank);
      ScannedAll(g0, rule, rank, children);
    }

    /** The outer loop of win32_relative_layout_configure, over the children in list order. */
    method ConfigureChildren(children: seq<Window>, rule: Rule, ghost sc: Scope,
                             ghost g0: Graph<Window>, ghost rank: Node<Window> -> nat)
      requires forall c | c in children :: c in sc.windows
      requires ScannedUpTo(sc, g0, rule, rank, children, 0)
      modifies items, sc.anchors`edge
      ensures ScannedUpTo(sc, g0, rule, rank, children, 4 * |children|)
    {
      var i := 0;
      ghost var k := 0;
      while i < |children|
        invariant 0 <= i <= |children| && k == 4 * i
        invariant ScannedUpTo(sc, g0, rule, rank, children, k)
      {
        k := ConfigureChild(children, i, rule, sc, g0, rank, k);
        i := i + 1;
      }
    }

    /** The inner loop of win32_relative_layout_configure: the edges 1, 2, 4, 8 of child i,
        each visited in turn; k counts the pairs scanned before child i. */
    method ConfigureChild(children: seq<Window>, i: nat, rule: Rule, ghost sc: Scope,
                          ghost g0: Graph<Window>, ghost rank: Node<Window> -> nat, ghost k: nat)
      returns (ghost k': nat)
      requires i < |children| && children[i] in sc.windows && k == 4 * i
      requires ScannedUpTo(sc, g0, rule, rank, children, k)
      modifies items, sc.anchors`edge
      ensures k' == k + 4 && ScannedUpTo(sc, g0, rule, rank, children, k')
    {
      var n := 0;
      k' := k;
      while n < 4
        invariant 0 <= n <= 4 && k' == k + n
        invariant ScannedUpTo(sc, g0, rule, rank, children, k')
      {
        k' := ConfigureEdge(children, i, n, rule, sc, g0, rank, k');
        n := n + 1;
      }
    }

    /** One step of the inner loop: edge 1 << n of child i, pair m of the scan. */
    method ConfigureEdge(children: seq<Window>, i: nat, n: nat, rule: Rule, ghost sc: Scope,
                         ghost g0: Graph<Window>, ghost rank: Node<Window> -> nat, ghost m: nat)
      returns (ghost m': nat)
      requires i < |children| && children[i] in sc.windows && n < 4 && m == 4 * i + n
      requires ScannedUpTo(sc, g0, rule, rank, children, m)
      modifies items, sc.anchors`edge
      ensures m' == m + 1 && ScannedUpTo(sc, g0, rule, rank, children, m')
    {
      m' := m + 1;
      var edge := ScanEdge(n);
      ScanStep(g0, rule, rank, items.Length, children, i, n, m, m');
      var _ := VisitPair(children[i], edge, rule, sc, g0, rank, Scanned(g0, rule, rank, items.Length, ScanNodes(children), m));
    }

    // ---------------------------------------------------------------------------------------
    // Recalculate

    /** The scene recalculate sees: the heap's anchor graph, the windows' sizes, this
        layout's paddings, spacings and scale, and the effective client extent. */
    ghost function SceneOf(sc: Scope, extent: Extent): Scene<Window>
      requires Closed(sc)
      reads this, sc.windows, sc.data, sc.anchors
    {
      Scene(GraphOf(sc), SizesOf(sc), Cfg(), extent)
    }

    /** What recalculate needs of the heap: a well formed edge list whose windows belong to
        the scope, sibling anchors that refer within it, layout data of each window's own
        and a positive scale. */
    ghost predicate Recalculable(sc: Scope)
      reads this, items, sc.windows, sc.data, sc.anchors
    {
      Listed(sc) && Closed(sc) && ReferencesWithin(GraphOf(sc), sc.windows)
    }

    /** The part of Recalculable that does not look into the layout data. */
    ghost predicate Listed(sc: Scope)
      reads this, items, sc.windows
    {
      && ListShaped() && OwnData(sc) && scale > 0
      && forall x | x in Entries() :: x.window in sc.windows
    }

    /** The value the edge loop of win32_relative_layout_recalculate stores for edge e of
        window w, or None when it stores nothing: by the kind of anchor on that side. */
    function EdgeValueAt(w: Window, e: Edge, extent: Extent, ghost sc: Scope): (v: Option<int>)
      reads this, sc.windows, sc.data, sc.anchors
      requires Closed(sc) && scale > 0 && w in sc.windows && ReferencesWithin(GraphOf(sc), sc.windows)
      ensures Covers(SceneOf(sc, extent), CoordsOf(sc))
      ensures v == EdgeValue(SceneOf(sc, extent), CoordsOf(sc), Node(w, e))
    {
      var d := w.positioning;
      var a := d.AnchorAt(e);
      assert SceneOf(sc, extent).anchors[w].At(e) == SlotOf(a);
      assert SceneOf(sc, extent).anchors[w].At(e.Paired()) == SlotOf(d.AnchorAt(e.Paired()));
      assert CoordsOf(sc)[w] == BoxOf(d) && SceneOf(sc, extent).sizes[w] == Size(w.width, w.height);
      if a == null then
        UnanchoredValue(w, e, SceneOf(sc, extent), CoordsOf(sc))
      else if a.reference == null then
        ParentValue(e, a, extent, SceneOf(sc, extent), CoordsOf(sc), w)
      else
        assert a.reference in sc.windows;
        assert CoordsOf(sc)[a.reference] == BoxOf(a.reference.positioning);
        SiblingValue(e, a, a.reference, SceneOf(sc, extent), CoordsOf(sc), w)
    }

    /** A side with no anchor: the trailing edge from the leading one and the width or
        height; the leading edge from the trailing one when that is anchored, else the
        outer half spacing. */
    function UnanchoredValue(w: Window, e: Edge, ghost s: Scene<Window>, ghost coords: map<Window, Box>): (v: Option<int>)
      reads this, w, w.positioning
      requires Covers(s, coords) && w in s.anchors && s.cfg == Cfg()
      requires w.positioning.AnchorAt(e) == null && s.anchors[w].At(e) == Unanchored
      requires s.anchors[w].At(e.Paired()).Unanchored? == (w.positioning.AnchorAt(e.Paired()) == null)
      requires coords[w] == BoxOf(w.positioning) && s.sizes[w] == Size(w.width, w.height)
      ensures v == EdgeValue(s, coords, Node(w, e))
    {
      var d := w.positioning;
      match e
      case Left => if d.right != null then Some(d.rightPos - w.width) else Some(HalfDown(vSpacing))
      case Top => if d.bottom != null then Some(d.bottomPos - w.height) else Some(HalfDown(hSpacing))
      case Right => Some(d.leftPos + w.width)
      case Bottom => Some(d.topPos + w.height)
    }

    /** A side anchored to the parent: the ratio of the effective extent, pulled in by a half
        spacing. */
    function ParentValue(e: Edge, a: Anchor, extent: Extent, ghost s: Scene<Window>, ghost coords: map<Window, Box>,
                         ghost w: Window): (v: Option<int>)
      reads this, a
      requires Covers(s, coords) && w in s.anchors && s.cfg == Cfg() && s.extent == extent
      requires a.reference == null && s.anchors[w].At(e) == ToParent(a.ratio)
      ensures v == EdgeValue(s, coords, Node(w, e))
    {
      match e
      case Left => Some(RatioOf(a.ratio, scale, extent.width) + HalfDown(vSpacing))
      case Top => Some(RatioOf(a.ratio, scale, extent.height) + HalfDown(hSpacing))
      case Right => Some(RatioOf(a.ratio, scale, extent.width) - HalfUp(vSpacing))
      case Bottom => Some(RatioOf(a.ratio, scale, extent.height) - HalfUp(hSpacing))
    }

    /** A side anchored to a sibling: the sibling's edge of the same axis that the anchor
        names, one spacing apart when it faces the other way; nothing for any other code. */
    function SiblingValue(e: Edge, a: Anchor, sibling: Window, ghost s: Scene<Window>, ghost coords: map<Window, Box>,
                          ghost w: Window): (v: Option<int>)
      reads this, a, sibling, sibling.positioning
      requires Covers(s, coords) && w in s.anchors && s.cfg == Cfg()
      requires a.reference == sibling && s.anchors[w].At(e) == ToSibling(sibling, a.edge)
      requires sibling in coords && coords[sibling] == BoxOf(sibling.positioning)
      ensures v == EdgeValue(s, coords, Node(w, e))
    {
      var r := sibling.positioning;
      match e
      case Left =>
        if a.edge == Right.Code() then Some(r.rightPos + vSpacing)
        else if a.edge == Left.Code() then Some(r.leftPos) else None
      case Top =>
        if a.edge == Bottom.Code() then Some(r.bottomPos + hSpacing)
        else if a.edge == Top.Code() then Some(r.topPos) else None
      case Right =>
        if a.edge == Right.Code() then Some(r.rightPos)
        else if a.edge == Left.Code() then Some(r.leftPos - vSpacing) else None
      case Bottom =>
        if a.edge == Bottom.Code() then Some(r.bottomPos)
        else if a.edge == Top.Code() then Some(r.topPos - hSpacing) else None
    }

    /** One iteration of the edge loop: a slot holding one of the four edge codes stores the
        edge's value, when it has one, into the window's layout data; any other slot (an
        empty one holds 0) stores nothing. */
    method ResolveItem(item: EdgeItem, extent: Extent, ghost sc: Scope, ghost s: Scene<Window>,
                       ghost links: map<LayoutData, Links>, ghost coords: map<Window, Box>)
      requires Recalculable(sc) && SceneOf(sc, extent) == s && LinksOf(sc) == links && CoordsOf(sc) == coords
      requires DecodeEdge(item.edge).Some? ==> item.window != null && item.window in sc.windows
      modifies sc.data
      ensures Recalculable(sc) && Entries() == old(Entries())
      ensures SceneOf(sc, extent) == s && LinksOf(sc) == links && Covers(s, coords)
      ensures CoordsOf(sc) == match DecodeEdge(item.edge)
        case Some(e) => Step(s, coords, Node(item.window as Window, e))
        case None => coords
    {
      match DecodeEdge(item.edge)
      case None =>
      case Some(e) =>
        var w: Window := item.window;
        var v := EdgeValueAt(w, e, extent, sc);
        if v.Some? {
          StoreEdge(w, e, v.value, sc, s.anchors, s.sizes, links, coords);
        }
    }

    /** The edge loop of win32_relative_layout_recalculate: every slot of the edge list in
        order, the empty ones included. */
    method ResolveEdges(extent: Extent, ghost sc: Scope)
      requires Recalculable(sc)
      modifies sc.data
      ensures Recalculable(sc) && SceneOf(sc, extent) == old(SceneOf(sc, extent)) && LinksOf(sc) == old(LinksOf(sc))
      ensures Covers(SceneOf(sc, extent), old(CoordsOf(sc))) && InScene(SceneOf(sc, extent), Entries())
      ensures CoordsOf(sc) == Resolve(SceneOf(sc, extent), old(CoordsOf(sc)), Entries())
    {
      ghost var s := SceneOf(sc, extent);
      ghost var start := CoordsOf(sc);
      ghost var links := LinksOf(sc);
      ghost var list := Entries();
      assert Covers(s, start) && InScene(s, list);
      assert list[..Done(0, |list|)] == [];
      var i := 0;
      while i < items.Length
        invariant i <= items.Length
        invariant Recalculable(sc)
        invariant SceneOf(sc, extent) == s
        invariant LinksOf(sc) == links
        invariant Entries() == list
        invariant CoordsOf(sc) == Resolve(s, start, list[..Done(i, |list|)])
      {
        ghost var before := CoordsOf(sc);
        SlotIsEntry(items[..], i);
        ResolveItem(items[i], extent, sc, s, links, before);
        ReplayedSlot(s, start, list, i, before, CoordsOf(sc));
        i := i + 1;
      }
      FirstFreeBound(items[..]);
      assert list[..Done(i, |list|)] == list;
    }

    /** The placement loop of win32_relative_layout_recalculate: each child in list order is
        moved and resized to its box, shifted by the padding less the outer half spacing. */
    method PlaceChildren(children: seq<Window>, ghost sc: Scope, ghost coords: map<Window, Box>) returns (placed: seq<Placement>)
      requires forall c | c in children :: c in sc.windows && c in coords && coords[c] == BoxOf(c.positioning)
      modifies sc.windows
      ensures |placed| == |children|
      ensures forall i | 0 <= i < |children| :: placed[i] == Place(Cfg(), coords[children[i]])
      ensures forall w | w in sc.windows :: w.Unmoved()
      ensures forall w | w in sc.windows ::
        w.Bounds() == if w in children then Moved(old(w.Bounds()), Place(Cfg(), coords[w])) else old(w.Bounds())
    {
      ghost var cfg := Cfg();
      placed := [];
      var i := 0;
      while i < |children|
        invariant i <= |children| && |placed| == i
        invariant forall j | 0 <= j < i :: placed[j] == Place(cfg, coords[children[j]])
        invariant forall w | w in sc.windows :: w.Unmoved()
        invariant forall w | w in sc.windows ::
          w.Bounds() == if w in children[..i] then Moved(old(w.Bounds()), Place(cfg, coords[w])) else old(w.Bounds())
      {
        var child := children[i];
        var d := child.positioning;
        assert d == old(child.positioning);
        var p := Placement(d.leftPos + vPadding - HalfDown(vSpacing), d.topPos + hPadding - HalfDown(hSpacing),
                           d.rightPos - d.leftPos, d.bottomPos - d.topPos);
        assert p == Place(cfg, coords[child]);
        child.MoveAndResize(p.x, p.y, p.width, p.height);
        placed := placed + [p];
        assert children[..i + 1] == children[..i] + [child];
        i := i + 1;
      }
      assert children[..i] == children;
    }

    /** win32_relative_layout_recalculate: the effective client extent from the client size
        (what GetClientRect reports, given here), the edge loop, then the placement loop;
        `placed` lists the move_and_resize calls in order. */
    method Recalculate(children: seq<Window>, clientWidth: int, clientHeight: int, ghost sc: Scope)
      returns (placed: seq<Placement>)
      requires Recalculable(sc) && forall c | c in children :: c in sc.windows
      modifies sc.data, sc.windows
      ensures Closed(sc) && GraphOf(sc) == old(GraphOf(sc)) && LinksOf(sc) == old(LinksOf(sc))
      ensures Covers(old(SceneOf(sc, EffectiveExtent(Cfg(), clientWidth, clientHeight))), old(CoordsOf(sc)))
      ensures InScene(old(SceneOf(sc, EffectiveExtent(Cfg(), clientWidth, clientHeight))), Entries())
      ensures CoordsOf(sc) == Resolve(old(SceneOf(sc, EffectiveExtent(Cfg(), clientWidth, clientHeight))), old(CoordsOf(sc)), Entries())
      ensures |placed| == |children| && forall i | 0 <= i < |children| :: placed[i] == Place(Cfg(), CoordsOf(sc)[children[i]])
      ensures forall w | w in sc.windows :: w.Unmoved()
      ensures forall w | w in sc.windows ::
        w.Bounds() == if w in children then Moved(old(w.Bounds()), Place(Cfg(), CoordsOf(sc)[w])) else old(w.Bounds())
    {
      var extent := Extent(clientWidth - 2 * vPadding + vSpacing, clientHeight - 2 * hPadding + hSpacing);
      ghost var s := SceneOf(sc, extent);
      ghost var start := CoordsOf(sc);
      assert extent == EffectiveExtent(Cfg(), clientWidth, clientHeight);
      ResolveEdges(extent, sc);
      ghost var list := Entries();
      ghost var coords := CoordsOf(sc);
      assert coords == Resolve(s, start, list);
      label resolved:
      placed := PlaceChildren(children, sc, coords);
      WindowsMoved@resolved(sc);
      assert Entries() == list && CoordsOf(sc) == coords;
    }
  }

  /** Writing the default edge into a sibling anchor that had none resolves every slot that
      holds that anchor and keeps the heap tracking g0. */
  twostate lemma WroteDefault(sc: Scope, new g0: Graph<Window>, new item: Window, new edge: Edge, new anchor: Anchor)
    requires item in sc.windows && anchor in sc.anchors
    requires old(Closed(sc)) && Tracks(old(GraphOf(sc)), g0) && DefaultsUnshared(sc, g0)
    requires unchanged(sc.windows) && unchanged(sc.data) && unchanged(sc.anchors - {anchor})
    requires item.positioning.AnchorAt(edge) == anchor
    requires old(anchor.edge) == 0
    requires anchor.edge == edge.Paired().Code() && anchor.reference != null
    requires old(anchor.reference) == anchor.reference
    ensures Closed(sc) && Tracks(GraphOf(sc), g0) && DefaultsUnshared(sc, g0)
    ensures Keeps(g0, old(GraphOf(sc)), GraphOf(sc))
    ensures Resolved(GraphOf(sc), g0, Node(item, edge))
  {
    assert Closed(sc);
    var g1 := old(GraphOf(sc));
    var g2 := GraphOf(sc);
    assert g1[item].At(edge) == ToSibling(anchor.reference as Window, 0);
    forall w, e | w in sc.windows
      ensures g2[w].At(e) == g0[w].At(e) || g2[w].At(e) == ResolveSlot(g0[w].At(e), e)
      ensures Resolved(g1, g0, Node(w, e)) ==> Resolved(g2, g0, Node(w, e))
    {
      WroteSlot(sc, g0, item, edge, anchor, w, e);
    }
  }

  /** One slot after the writeback: only a slot holding the written anchor changes, and it
      sits on the same side as the pair that was resolved. */
  twostate lemma WroteSlot(sc: Scope, new g0: Graph<Window>, new item: Window, new edge: Edge, new anchor: Anchor,
                           new w: Window, new e: Edge)
    requires item in sc.windows && anchor in sc.anchors && w in sc.windows
    requires old(Closed(sc)) && Closed(sc) && Tracks(old(GraphOf(sc)), g0) && DefaultsUnshared(sc, g0)
    requires unchanged(sc.windows) && unchanged(sc.data) && unchanged(sc.anchors - {anchor})
    requires item.positioning.AnchorAt(edge) == anchor
    requires old(anchor.edge) == 0
    requires anchor.edge == edge.Paired().Code() && anchor.reference != null
    requires old(anchor.reference) == anchor.reference
    ensures GraphOf(sc)[w].At(e) == g0[w].At(e) || GraphOf(sc)[w].At(e) == ResolveSlot(g0[w].At(e), e)
    ensures Resolved(old(GraphOf(sc)), g0, Node(w, e)) ==> Resolved(GraphOf(sc), g0, Node(w, e))
  {
    if w.positioning.AnchorAt(e) == anchor {
      WroteSameAnchor(sc, g0, item, edge, anchor, w, e);
    } else {
      WroteOtherAnchor(sc, g0, item, edge, anchor, w, e);
    }
  }

  twostate lemma WroteSameAnchor(sc: Scope, new g0: Graph<Window>, new item: Window, new edge: Edge, new anchor: Anchor,
                           new w: Window, new e: Edge)
    requires item in sc.windows && anchor in sc.anchors && w in sc.windows
    requires old(Closed(sc)) && Closed(sc) && Tracks(old(GraphOf(sc)), g0) && DefaultsUnshared(sc, g0)
    requires unchanged(sc.windows) && unchanged(sc.data) && unchanged(sc.anchors - {anchor})
    requires item.positioning.AnchorAt(edge) == anchor
    requires old(anchor.edge) == 0
    requires anchor.edge == edge.Paired().Code() && anchor.reference != null
    requires old(anchor.reference) == anchor.reference
    requires w.positioning.AnchorAt(e) == anchor
    ensures GraphOf(sc)[w].At(e) == g0[w].At(e) || GraphOf(sc)[w].At(e) == ResolveSlot(g0[w].At(e), e)
    ensures Resolved(old(GraphOf(sc)), g0, Node(w, e)) ==> Resolved(GraphOf(sc), g0, Node(w, e))
  {
    var r: Window := anchor.reference;
    SharedDefault(sc, g0, item, edge, anchor, w, e);
    assert GraphOf(sc)[w].At(e) == ToSibling(r, edge.Paired().Code());
  }

  /** An anchor with no edge chosen belongs to one side only: a window reaching it through
      side e reaches it through the side being resolved, and g0 has it undecided there. */
  twostate lemma SharedDefault(sc: Scope, new g0: Graph<Window>, new item: Window, new edge: Edge, new anchor: Anchor,
                               new w: Window, new e: Edge)
    requires item in sc.windows && anchor in sc.anchors && w in sc.windows
    requires old(Closed(sc)) && Tracks(old(GraphOf(sc)), g0) && DefaultsUnshared(sc, g0)
    requires unchanged(sc.windows) && unchanged(sc.data)
    requires item.positioning.AnchorAt(edge) == anchor && w.positioning.AnchorAt(e) == anchor
    requires old(anchor.edge) == 0 && old(anchor.reference) != null
    ensures e == edge && g0[w].At(e) == ToSibling(old(anchor.reference) as Window, 0)
  {
    var r: Window := old(anchor.reference);
    assert old(GraphOf(sc))[item].At(edge) == ToSibling(r, 0);
    assert g0[item].At(edge) == ToSibling(r, 0);
    assert old(GraphOf(sc))[w].At(e) == ToSibling(r, 0);
    assert g0[w].At(e) == ToSibling(r, 0);
  }

  twostate lemma WroteOtherAnchor(sc: Scope, new g0: Graph<Window>, new item: Window, new edge: Edge, new anchor: Anchor,
                           new w: Window, new e: Edge)
    requires item in sc.windows && anchor in sc.anchors && w in sc.windows
    requires old(Closed(sc)) && Closed(sc) && Tracks(old(GraphOf(sc)), g0) && DefaultsUnshared(sc, g0)
    requires unchanged(sc.windows) && unchanged(sc.data) && unchanged(sc.anchors - {anchor})
    requires item.positioning.AnchorAt(edge) == anchor
    requires old(anchor.edge) == 0
    requires anchor.edge == edge.Paired().Code() && anchor.reference != null
    requires old(anchor.reference) == anchor.reference
    requires w.positioning.AnchorAt(e) != anchor
    ensures GraphOf(sc)[w].At(e) == g0[w].At(e) || GraphOf(sc)[w].At(e) == ResolveSlot(g0[w].At(e), e)
    ensures Resolved(old(GraphOf(sc)), g0, Node(w, e)) ==> Resolved(GraphOf(sc), g0, Node(w, e))
  {
    var a := w.positioning.AnchorAt(e);
    if a != null {
      assert a in sc.anchors - {anchor};
      assert SlotOf(a) == old(SlotOf(a));
    }
  }

  /** A step that writes neither the windows, their layout data nor the anchors leaves the
      anchor graph as it was. */
  twostate lemma GraphKept(sc: Scope)
    requires old(Closed(sc)) && unchanged(sc.windows) && unchanged(sc.data) && unchanged(sc.anchors)
    ensures Closed(sc) && GraphOf(sc) == old(GraphOf(sc))
  {
  }

  /** Unfolding prepend_referred_edges once: the pair's prerequisite p is visited. */
  lemma PrependStep(g0: Graph<Window>, rule: Rule, rank: Node<Window> -> nat, cap: nat,
                    list: seq<Node<Window>>, n: Node<Window>, p: Node<Window>)
    requires Ranked(g0, rule, rank) && Prereq(g0, rule, n) == Some(p)
    ensures Prepend(g0, rule, rank, cap, list, n) == Visit(g0, rule, rank, cap, list, p)
  {
  }

  lemma AppendResolved(g: Graph<Window>, g0: Graph<Window>, list: seq<Node<Window>>, n: Node<Window>, cap: nat)
    requires AllResolved(g, g0, list) && Resolved(g, g0, n)
    ensures AllResolved(g, g0, EdgeOrder.Append(list, n, cap))
  {
  }

  /** The list after the first k pairs of ns are visited. */
  ghost function Scanned(g0: Graph<Window>, rule: Rule, rank: Node<Window> -> nat, cap: nat,
                         ns: seq<Node<Window>>, k: nat): seq<Node<Window>>
    requires Ranked(g0, rule, rank) && k <= |ns|
  {
    if k == 0 then [] else Visit(g0, rule, rank, cap, Scanned(g0, rule, rank, cap, ns, k - 1), ns[k - 1])
  }

  lemma {:induction false} ScannedIsScan(g0: Graph<Window>, rule: Rule, rank: Node<Window> -> nat, cap: nat,
                                         ns: seq<Node<Window>>, k: nat)
    requires Ranked(g0, rule, rank) && k <= |ns|
    ensures Scanned(g0, rule, rank, cap, ns, k) == Scan(g0, rule, rank, cap, ns[..k])
  {
    if k > 0 {
      ScannedIsScan(g0, rule, rank, cap, ns, k - 1);
      assert ns[..k][..k - 1] == ns[..k - 1];
    }
  }

  /** Once every pair of the scan is visited the list is configure's order. */
  lemma ScannedAll(g0: Graph<Window>, rule: Rule, rank: Node<Window> -> nat, children: seq<Window>)
    requires Ranked(g0, rule, rank)
    ensures Scanned(g0, rule, rank, 4 * |children|, ScanNodes(children), 4 * |children|) == ConfigureOrder(g0, rule, rank, children)
  {
    var ns := ScanNodes(children);
    ScannedIsScan(g0, rule, rank, 4 * |children|, ns, |ns|);
    assert ns[..|ns|] == ns;
  }

  /** Visiting pair k = 4i+n of the scan, (children[i], 1 << n), extends the list by one step. */
  lemma ScanStep(g0: Graph<Window>, rule: Rule, rank: Node<Window> -> nat, cap: nat,
                 children: seq<Window>, i: nat, n: nat, k: nat, k': nat)
    requires Ranked(g0, rule, rank) && i < |children| && n < 4 && k == 4 * i + n && k' == k + 1
    ensures k < |ScanNodes(children)|
    ensures Scanned(g0, rule, rank, cap, ScanNodes(children), k')
      == Visit(g0, rule, rank, cap, Scanned(g0, rule, rank, cap, ScanNodes(children), k), Node(children[i], ScanEdge(n)))
  {
    var ns := ScanNodes(children);
    ScanNodeAt(children, i, n, k);
    assert Scanned(g0, rule, rank, cap, ns, k') == Visit(g0, rule, rank, cap, Scanned(g0, rule, rank, cap, ns, k), ns[k]);
  }

  /** Slot k = 4i+n of the scan holds child i with edge 1 << n. */
  lemma ScanNodeAt(children: seq<Window>, i: nat, n: nat, k: nat)
    requires i < |children| && n < 4 && k == 4 * i + n
    ensures k < |ScanNodes(children)| && ScanNodes(children)[k] == Node(children[i], ScanEdge(n))
  {
    QuotRem(i, n, k);
  }

  /** Slot k = 4i+n of the scan belongs to child i, edge n. */
  lemma QuotRem(i: nat, n: nat, k: nat)
    requires n < 4 && k == 4 * i + n
    ensures k / 4 == i && k % 4 == n
  {
  }

  /** The number of slots the edge loop has replayed pairs from: the pairs sit in the first
      slots, the rest are empty. */
  function Done(i: nat, n: nat): nat {
    if i < n then i else n
  }

  /** One more slot of the edge loop: the next pair replayed, or nothing past the pairs. */
  lemma ReplayedSlot<W>(s: Scene<W>, start: map<W, Box>, list: seq<Node<W>>, i: nat, before: map<W, Box>, after: map<W, Box>)
    requires Covers(s, start) && InScene(s, list)
    requires before == Resolve(s, start, list[..Done(i, |list|)])
    requires i < |list| ==> after == Step(s, before, list[i])
    requires |list| <= i ==> after == before
    ensures after == Resolve(s, start, list[..Done(i + 1, |list|)])
  {
    if i < |list| {
      ResolveFrom(s, start, list, i, before, after);
    }
  }

  /** Slot i of a well formed list holds pair i, or is empty past the pairs. */
  lemma SlotIsEntry(a: seq<EdgeItem>, i: nat)
    requires Shaped(a) && i < |a|
    ensures i < |NodesOf(a)| ==> a[i].window == NodesOf(a)[i].window && DecodeEdge(a[i].edge) == Some(NodesOf(a)[i].edge)
    ensures i >= |NodesOf(a)| ==> a[i] == Empty
  {
    if i < |NodesOf(a)| {
      assert DecodeEdge(a[i].edge).Some?;
    }
  }

  lemma FirstFreeBound(a: seq<EdgeItem>)
    requires Shaped(a)
    ensures |NodesOf(a)| <= |a|
  {
  }

  /** A box is its four edges. */
  lemma BoxAt(b1: Box, b2: Box)
    requires forall e :: b1.At(e) == b2.At(e)
    ensures b1 == b2
  {
    assert b1.At(Left) == b2.At(Left) && b1.At(Top) == b2.At(Top);
    assert b1.At(Right) == b2.At(Right) && b1.At(Bottom) == b2.At(Bottom);
  }

  /** The store of one edge value into the window's layout data (`*left = ...` and its
      three counterparts in recalculate). */
  method StoreEdge(w: Window, e: Edge, v: int, ghost sc: Scope, ghost g: Graph<Window>, ghost sizes: map<Window, Size>,
                   ghost links: map<LayoutData, Links>, ghost coords: map<Window, Box>)
    requires Closed(sc) && OwnData(sc) && w in sc.windows
    requires GraphOf(sc) == g && SizesOf(sc) == sizes && LinksOf(sc) == links && CoordsOf(sc) == coords
    modifies w.positioning
    ensures Closed(sc) && OwnData(sc) && GraphOf(sc) == g && SizesOf(sc) == sizes && LinksOf(sc) == links
    ensures CoordsOf(sc) == coords[w := coords[w].With(e, v)]
  {
    w.positioning.SetPos(e, v);
    StoredBox(w.positioning, e, v);
    StoredFrame(sc, w);
    StoredCoords(sc, w, e, v);
  }

  /** Storing into the coordinates of a window's layout data leaves the anchor graph and the
      sizes as they were. */
  twostate lemma StoredFrame(sc: Scope, new w: Window)
    requires old(Closed(sc)) && w in sc.windows
    requires unchanged(sc.windows) && unchanged(sc.anchors) && unchanged(sc.data - {w.positioning})
    requires w.positioning.refCount == old(w.positioning.refCount)
    requires w.positioning.left == old(w.positioning.left) && w.positioning.top == old(w.positioning.top)
    requires w.positioning.right == old(w.positioning.right) && w.positioning.bottom == old(w.positioning.bottom)
    ensures Closed(sc) && GraphOf(sc) == old(GraphOf(sc)) && SizesOf(sc) == old(SizesOf(sc)) && LinksOf(sc) == old(LinksOf(sc))
  {
    assert Closed(sc);
  }

  /** Storing v into one coordinate changes that edge of the box. */
  twostate lemma StoredBox(d: LayoutData, new e: Edge, new v: int)
    requires d.Pos(e) == v && forall f | f != e :: d.Pos(f) == old(d.Pos(f))
    ensures BoxOf(d) == old(BoxOf(d)).With(e, v)
  {
    forall f ensures BoxOf(d).At(f) == old(BoxOf(d)).With(e, v).At(f) {
      assert BoxOf(d).At(f) == d.Pos(f) && old(BoxOf(d).At(f)) == old(d.Pos(f)) by {
        match f
        case Left =>
        case Top =>
        case Right =>
        case Bottom =>
      }
    }
    BoxAt(BoxOf(d), old(BoxOf(d)).With(e, v));
  }

  /** With layout data of their own, storing into window w's box changes w's coordinates
      only. */
  twostate lemma StoredCoords(sc: Scope, new w: Window, new e: Edge, new v: int)
    requires old(Closed(sc)) && Closed(sc) && OwnData(sc) && w in sc.windows
    requires unchanged(sc.windows) && unchanged(sc.data - {w.positioning})
    requires BoxOf(w.positioning) == old(BoxOf(w.positioning)).With(e, v)
    ensures CoordsOf(sc) == old(CoordsOf(sc))[w := old(CoordsOf(sc))[w].With(e, v)]
  {
    var m := old(CoordsOf(sc))[w := old(CoordsOf(sc))[w].With(e, v)];
    forall u | u in sc.windows ensures CoordsOf(sc)[u] == m[u] {
      if u != w {
        assert u.positioning != w.positioning;
      }
    }
  }

  /** Moving windows leaves their layout data, hence the anchor graph and the coordinates,
      as they were. */
  twostate lemma WindowsMoved(sc: Scope)
    requires old(Closed(sc)) && unchanged(sc.data) && unchanged(sc.anchors)
    requires forall w | w in sc.windows :: w.positioning == old(w.positioning)
    ensures Closed(sc) && GraphOf(sc) == old(GraphOf(sc)) && CoordsOf(sc) == old(CoordsOf(sc))
  {
    assert Closed(sc);
    assert GraphOf(sc) == old(GraphOf(sc));
  }

  /** A pair with its default edge written back reads, in a graph tracking g0, what it reads
      in the written-back g0: the same slot, and a partner slot of the same kind. */
  lemma StepTracked(g: Graph<Window>, g0: Graph<Window>, sizes: map<Window, Size>, cfg: Config, extent: Extent,
                    coords: map<Window, Box>, n: Node<Window>)
    requires Tracks(g, g0) && Resolved(g, g0, n)
    requires Covers(Scene(g, sizes, cfg, extent), coords) && Covers(Written(Scene(g0, sizes, cfg, extent)), coords)
    ensures Step(Scene(g, sizes, cfg, extent), coords, n) == Step(Written(Scene(g0, sizes, cfg, extent)), coords, n)
  {
    var w := n.window;
    var h := ResolveCodes(g0);
    assert h[w] == ResolveAnchors(g0[w]);
    assert h[w].At(n.edge) == ResolveSlot(g0[w].At(n.edge), n.edge) == g[w].At(n.edge);
    assert h[w].At(n.edge.Paired()) == ResolveSlot(g0[w].At(n.edge.Paired()), n.edge.Paired());
    SameSlotsSameStep(Scene(g, sizes, cfg, extent), Written(Scene(g0, sizes, cfg, extent)), coords, n);
  }

  /** Replaying a list of written-back pairs on a graph tracking g0 is replaying it on the
      written-back g0. */
  lemma {:induction false} ResolveTracked(g: Graph<Window>, g0: Graph<Window>, sizes: map<Window, Size>, cfg: Config,
                                          extent: Extent, start: map<Window, Box>, list: seq<Node<Window>>)
    requires Tracks(g, g0) && AllResolved(g, g0, list)
    requires Covers(Scene(g, sizes, cfg, extent), start) && Covers(Written(Scene(g0, sizes, cfg, extent)), start)
    requires InScene(Scene(g, sizes, cfg, extent), list)
    ensures InScene(Written(Scene(g0, sizes, cfg, extent)), list)
    ensures Resolve(Scene(g, sizes, cfg, extent), start, list) == Resolve(Written(Scene(g0, sizes, cfg, extent)), start, list)
    decreases |list|
  {
    if list != [] {
      var init := list[..|list| - 1];
      var last := list[|list| - 1];
      assert forall x | x in init :: x in list;
      ResolveTracked(g, g0, sizes, cfg, extent, start, init);
      var mid := Resolve(Scene(g, sizes, cfg, extent), start, init);
      StepTracked(g, g0, sizes, cfg, extent, mid, last);
    }
  }

  /** Configure then the edge loop of recalculate, on the heap: once configure has listed its
      order and written the default edges of the listed pairs back, the edge loop on the
      heap's anchors computes the pass on the anchors configure started from. */
  lemma ConfiguredPass(g: Graph<Window>, g0: Graph<Window>, rule: Rule, rank: Node<Window> -> nat, children: seq<Window>,
                       sizes: map<Window, Size>, cfg: Config, extent: Extent, start: map<Window, Box>)
    requires Tracks(g, g0) && Ranked(g0, rule, rank) && AllResolved(g, g0, ConfigureOrder(g0, rule, rank, children))
    requires Covers(Scene(g0, sizes, cfg, extent), start) && forall c | c in children :: c in g0
    ensures Covers(Scene(g, sizes, cfg, extent), start)
    ensures InScene(Scene(g, sizes, cfg, extent), ConfigureOrder(g0, rule, rank, children))
    ensures Resolve(Scene(g, sizes, cfg, extent), start, ConfigureOrder(g0, rule, rank, children))
      == Pass(Scene(g0, sizes, cfg, extent), rule, rank, children, start)
  {
    var s := Scene(g0, sizes, cfg, extent);
    forall w, e | w in g && g[w].At(e).ToSibling? ensures g[w].At(e).reference in g {
      assert g0[w].At(e).ToSibling?;
    }
    ConfigureWithin(g0, rule, rank, children, g0.Keys);
    WrittenCovers(s, start);
    ResolveTracked(g, g0, sizes, cfg, extent, start, ConfigureOrder(g0, rule, rank, children));
  }
}
