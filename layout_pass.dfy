/*
 * What configure followed by recalculate achieves (src/layout.c:67-99, 104-165, 198-338):
 * when the order configure builds lists every coordinate source before the edge that reads
 * it, the single replay in recalculate leaves every child's edges consistent with their
 * formulas, and the placements then show the padding and spacing gaps between windows.
 */
module LayoutPass {
  import opened EdgeOrder
  import opened EdgeGeometry

  /** The scene recalculate sees after configure wrote the default sibling edges back. */
  function Written<W>(s: Scene<W>): (r: Scene<W>)
    ensures r.anchors.Keys == s.anchors.Keys
  {
    s.(anchors := ResolveCodes(s.anchors))
  }

  lemma WrittenCovers<W>(s: Scene<W>, coords: map<W, Box>)
    requires Covers(s, coords)
    ensures Covers(Written(s), coords)
  {
    var g := ResolveCodes(s.anchors);
    forall w, e | w in g && g[w].At(e).ToSibling?
      ensures g[w].At(e).reference in g
    {
      assert g[w].At(e) == ResolveSlot(s.anchors[w].At(e), e);
    }
  }

  /** Configure on the scene's anchors, then the edge loop of recalculate on the written-back
      anchors, starting from the coordinates left by the previous pass. */
  function Pass<W>(s: Scene<W>, rule: Rule, rank: Node<W> -> nat, children: seq<W>, start: map<W, Box>): map<W, Box>
    requires Ranked(s.anchors, rule, rank) && Covers(s, start)
    requires forall c | c in children :: c in s.anchors
  {
    var order := ConfigureOrder(s.anchors, rule, rank, children);
    ConfigureWithin(s.anchors, rule, rank, children, s.anchors.Keys);
    WrittenCovers(s, start);
    Resolve(Written(s), start, order)
  }

  /** Each sibling anchor of the i-th child refers to a child placed before it in the list. */
  ghost predicate ReferencesEarlier<W>(g: Graph<W>, children: seq<W>) {
    forall i, e | 0 <= i < |children| && children[i] in g && g[children[i]].At(e).ToSibling? ::
      g[children[i]].At(e).reference in children[..i]
  }

  // ---------------------------------------------------------------------------------------
  // Coordinate sources versus prerequisites

  /** Under the corrected rule, whatever recalculate reads is a prerequisite of configure. */
  lemma DependsIsCorrectedPrereq<W>(g: Graph<W>, n: Node<W>)
    ensures Depends(ResolveCodes(g), n).Some? ==> Depends(ResolveCodes(g), n) == Prereq(g, TrailingNeedsLeading, n)
  {
    if n.window in g {
      var a := g[n.window];
      assert ResolveCodes(g)[n.window] == ResolveAnchors(a);
      assert ResolveAnchors(a).At(n.edge) == ResolveSlot(a.At(n.edge), n.edge);
      assert ResolveAnchors(a).At(n.edge.Paired()) == ResolveSlot(a.At(n.edge.Paired()), n.edge.Paired());
    }
  }

  /** As written, the one coordinate source that is not a prerequisite is the leading edge an
      unanchored trailing edge reads when the leading edge is unanchored too. */
  lemma DependsIsWrittenPrereqExceptTrailing<W>(g: Graph<W>, n: Node<W>)
    requires Depends(ResolveCodes(g), n).Some?
    ensures Depends(ResolveCodes(g), n) == Prereq(g, AsWritten, n)
      || (n.window in g && n.edge.Trailing() && g[n.window].At(n.edge).Unanchored?
          && g[n.window].At(n.edge.Paired()).Unanchored?)
  {
    DependsIsCorrectedPrereq(g, n);
  }

  lemma DependsFirstFromPrereqFirst<W>(g: Graph<W>, list: seq<Node<W>>)
    requires PrereqFirst(g, TrailingNeedsLeading, list)
    ensures DependsFirst(ResolveCodes(g), list)
  {
    forall i | 0 <= i < |list| && Depends(ResolveCodes(g), list[i]).Some?
      ensures Depends(ResolveCodes(g), list[i]).value in list[..i]
    {
      DependsIsCorrectedPrereq(g, list[i]);
    }
  }

  /** Corrected rule: for any acyclic anchor graph whose sibling references are children,
      one configure and one recalculate settle every edge of every child. */
  lemma CorrectedPassSettles<W>(s: Scene<W>, rank: Node<W> -> nat, children: seq<W>, start: map<W, Box>)
    requires Ranked(s.anchors, TrailingNeedsLeading, rank) && Covers(s, start)
    requires forall c | c in children :: c in s.anchors
    requires ReferencesWithin(s.anchors, set c | c in children)
    ensures Covers(Written(s), start)
    ensures forall c, e | c in children ::
      Settled(Written(s), start, Pass(s, TrailingNeedsLeading, rank, children, start), Node(c, e))
  {
    var order := ConfigureOrder(s.anchors, TrailingNeedsLeading, rank, children);
    ConfigureOrderSound(s.anchors, TrailingNeedsLeading, rank, children);
    ConfigureComplete(s.anchors, TrailingNeedsLeading, rank, children);
    DependsFirstFromPrereqFirst(s.anchors, order);
    WrittenCovers(s, start);
    ResolveSettles(Written(s), start, order);
  }

  // ---------------------------------------------------------------------------------------
  // The rule as written, when siblings refer only to earlier children

  lemma DependsFirstAppend<W>(g: Graph<W>, list: seq<Node<W>>, x: Node<W>)
    requires DependsFirst(g, list)
    requires Depends(g, x).Some? ==> Depends(g, x).value in list
    ensures DependsFirst(g, list + [x])
  {
    var r := list + [x];
    forall i | 0 <= i < |r| && Depends(g, r[i]).Some? ensures Depends(g, r[i]).value in r[..i] {
      if i < |list| {
        assert r[..i] == list[..i];
      } else {
        assert r[..i] == list;
      }
    }
  }

  /** Every edge of the children before child i has been scanned by step 4i. */
  lemma EarlierNodesScanned<W>(children: seq<W>, i: nat, k: nat, r: W, e: Edge)
    requires i < |children| && 4 * i <= k <= 4 * |children| && r in children[..i]
    ensures Node(r, e) in ScanNodes(children)[..k]
  {
    var j :| 0 <= j < i && children[j] == r;
    ScanNodesAt(children, j, e);
    assert ScanNodes(children)[..k][4 * j + EdgeIndex(e)] == Node(r, e);
  }

  /** The sibling references of child i point at edges already scanned at step k >= 4i. */
  lemma EarlierReferencesScanned<W>(g: Graph<W>, children: seq<W>, i: nat, k: nat, e: Edge, f: Edge)
    requires ReferencesEarlier(g, children)
    requires i < |children| && 4 * i <= k <= 4 * |children|
    requires children[i] in g && g[children[i]].At(e).ToSibling?
    ensures Node(g[children[i]].At(e).reference, f) in ScanNodes(children)[..k]
  {
    EarlierNodesScanned(children, i, k, g[children[i]].At(e).reference, f);
  }

  /** The scanned pairs are closed under prerequisites when references point backwards. */
  lemma EarlierClosed<W>(g: Graph<W>, children: seq<W>)
    requires ReferencesEarlier(g, children)
    ensures ClosedUnder(g, AsWritten, set x | x in ScanNodes(children))
  {
    var ns := ScanNodes(children);
    forall x | x in ns && Prereq(g, AsWritten, x).Some?
      ensures Prereq(g, AsWritten, x).value in ns
    {
      ScanNodesCover(children, x);
      var p := Prereq(g, AsWritten, x).value;
      if p.window != x.window {
        var i :| 0 <= i < |children| && children[i] == x.window;
        EarlierReferencesScanned(g, children, i, 4 * i, x.edge, p.edge);
      }
      ScanNodesCover(children, p);
    }
  }

  /** The partner appended before an unanchored edge has all it needs already listed. */
  lemma EarlierPartner<W>(g: Graph<W>, rank: Node<W> -> nat, children: seq<W>, k: nat,
                          list: seq<Node<W>>, p: Node<W>)
    requires Ranked(g, AsWritten, rank) && ReferencesEarlier(g, children)
    requires k < 4 * |children| && p.window == children[k / 4]
    requires p.window in g && !g[p.window].At(p.edge).Unanchored?
    requires forall x | x in ScanNodes(children)[..k] :: x in list
    ensures Prepend(g, AsWritten, rank, 4 * |children|, list, p) == list
    ensures Depends(ResolveCodes(g), p).Some? ==> Depends(ResolveCodes(g), p).value in list
  {
    var i := k / 4;
    if g[p.window].At(p.edge).ToSibling? {
      EarlierReferencesScanned(g, children, i, k, p.edge, Left);
      EarlierReferencesScanned(g, children, i, k, p.edge, Top);
      EarlierReferencesScanned(g, children, i, k, p.edge, Right);
      EarlierReferencesScanned(g, children, i, k, p.edge, Bottom);
    }
    DependsIsCorrectedPrereq(g, p);
  }

  /** Prepending for the scanned edge at step k, as written, appends at most its own anchored
      partner, whose coordinate source is already listed. */
  lemma EarlierPrepend<W>(g: Graph<W>, rank: Node<W> -> nat, children: seq<W>, k: nat, list: seq<Node<W>>)
    requires Ranked(g, AsWritten, rank) && ReferencesEarlier(g, children)
    requires k < 4 * |children|
    requires NoDup(list) && PrereqFirst(g, AsWritten, list)
    requires forall x | x in ScanNodes(children)[..k] :: x in list
    requires forall x | x in list :: x in ScanNodes(children)
    requires DependsFirst(ResolveCodes(g), list)
    requires ScanNodes(children)[k] !in list
    ensures var m := Prepend(g, AsWritten, rank, 4 * |children|, list, ScanNodes(children)[k]);
      && DependsFirst(ResolveCodes(g), m) && list <= m
      && (forall x | x in m :: x in ScanNodes(children))
  {
    var ns := ScanNodes(children);
    var cap := 4 * |children|;
    var space := set x | x in ns;
    SeqSetCard(ns);
    var v := ns[k];
    var i := k / 4;
    assert v == Node(children[i], ScanEdge(k % 4));
    EarlierClosed(g, children);
    SeqSetCard(list);
    SubsetCard((set x | x in list), space);
    var m := Prepend(g, AsWritten, rank, cap, list, v);
    PrependWithinRoom(g, AsWritten, rank, cap, list, v, space);
    if Prereq(g, AsWritten, v).Some? && Prereq(g, AsWritten, v).value !in list {
      var p := Prereq(g, AsWritten, v).value;
      if g[v.window].At(v.edge).ToSibling? {
        EarlierReferencesScanned(g, children, i, k, v.edge, p.edge);
      }
      assert p == Node(children[i], v.edge.Paired());
      EarlierPartner(g, rank, children, k, list, p);
      RoomLeft(list, p, space, cap);
      assert m == list + [p];
      DependsFirstAppend(ResolveCodes(g), list, p);
    } else {
      assert m == list;
    }
  }

  /** The coordinate source of the edge scanned at step k is listed by then. */
  lemma EarlierSource<W>(g: Graph<W>, children: seq<W>, k: nat, m: seq<Node<W>>)
    requires ReferencesEarlier(g, children)
    requires k < 4 * |children|
    requires forall x | x in ScanNodes(children)[..k] :: x in m
    requires var v := ScanNodes(children)[k];
      Prereq(g, AsWritten, v).Some? ==> Prereq(g, AsWritten, v).value in m
    ensures var v := ScanNodes(children)[k];
      Depends(ResolveCodes(g), v).Some? ==> Depends(ResolveCodes(g), v).value in m
  {
    var ns := ScanNodes(children);
    var g' := ResolveCodes(g);
    var v := ns[k];
    var i := k / 4;
    assert v == Node(children[i], ScanEdge(k % 4));
    DependsIsCorrectedPrereq(g, v);
    if Depends(g', v).Some? {
      var d := Depends(g', v).value;
      if g[v.window].At(v.edge).ToSibling? {
        EarlierReferencesScanned(g, children, i, k, v.edge, d.edge);
      } else if v.edge.Trailing() {
        ScanNodesAt(children, i, d.edge);
        assert ns[..k][4 * i + EdgeIndex(d.edge)] == d;
      }
    }
  }

  /** What the scan step at k appends, as written: possibly the scanned edge's anchored
      partner, then the scanned edge; each with its coordinate source already listed. */
  lemma EarlierVisit<W>(g: Graph<W>, rank: Node<W> -> nat, children: seq<W>, k: nat, list: seq<Node<W>>)
    requires Ranked(g, AsWritten, rank) && ReferencesEarlier(g, children)
    requires k < 4 * |children|
    requires NoDup(list) && PrereqFirst(g, AsWritten, list)
    requires forall x | x in ScanNodes(children)[..k] :: x in list
    requires forall x | x in list :: x in ScanNodes(children)
    requires DependsFirst(ResolveCodes(g), list)
    ensures DependsFirst(ResolveCodes(g), Visit(g, AsWritten, rank, 4 * |children|, list, ScanNodes(children)[k]))
  {
    var ns := ScanNodes(children);
    var cap := 4 * |children|;
    var v := ns[k];
    if v !in list {
      var space := set x | x in ns;
      SeqSetCard(ns);
      EarlierClosed(g, children);
      SeqSetCard(list);
      SubsetCard((set x | x in list), space);
      EarlierPrepend(g, rank, children, k, list);
      PrependWithinRoom(g, AsWritten, rank, cap, list, v, space);
      PrependSound(g, AsWritten, rank, cap, list, v);
      var m := Prepend(g, AsWritten, rank, cap, list, v);
      RoomLeft(m, v, space, cap);
      EarlierSource(g, children, k, m);
      DependsFirstAppend(ResolveCodes(g), m, v);
    }
  }

  /** One step of the scan, as written, keeps coordinate sources first. */
  lemma EarlierStep<W>(g: Graph<W>, rank: Node<W> -> nat, children: seq<W>, k: nat)
    requires Ranked(g, AsWritten, rank) && ReferencesEarlier(g, children)
    requires k < 4 * |children|
    requires DependsFirst(ResolveCodes(g), Scan(g, AsWritten, rank, 4 * |children|, ScanNodes(children)[..k]))
    ensures DependsFirst(ResolveCodes(g), Scan(g, AsWritten, rank, 4 * |children|, ScanNodes(children)[..k + 1]))
  {
    var ns := ScanNodes(children);
    var cap := 4 * |children|;
    var space := set x | x in ns;
    SeqSetCard(ns);
    EarlierClosed(g, children);
    assert forall x | x in ns[..k] :: x in space;
    ScanWithinRoom(g, AsWritten, rank, cap, ns[..k], space);
    ScanSound(g, AsWritten, rank, cap, ns[..k]);
    assert ns[..k + 1][..k] == ns[..k];
    assert ns[..k + 1][k] == ns[k];
    EarlierVisit(g, rank, children, k, Scan(g, AsWritten, rank, cap, ns[..k]));
  }

  lemma {:induction false} EarlierPrefix<W>(g: Graph<W>, rank: Node<W> -> nat, children: seq<W>, k: nat)
    requires Ranked(g, AsWritten, rank) && ReferencesEarlier(g, children)
    requires k <= 4 * |children|
    ensures DependsFirst(ResolveCodes(g), Scan(g, AsWritten, rank, 4 * |children|, ScanNodes(children)[..k]))
  {
    if k > 0 {
      EarlierPrefix(g, rank, children, k - 1);
      EarlierStep(g, rank, children, k - 1);
    }
  }

  /** As written: when every sibling anchor refers to a child added earlier, configure lists
      every coordinate source before the edge that reads it, and one recalculate settles every
      edge of every child. */
  lemma AsWrittenPassSettles<W>(s: Scene<W>, rank: Node<W> -> nat, children: seq<W>, start: map<W, Box>)
    requires Ranked(s.anchors, AsWritten, rank) && Covers(s, start)
    requires forall c | c in children :: c in s.anchors
    requires ReferencesEarlier(s.anchors, children)
    ensures Covers(Written(s), start)
    ensures forall c, e | c in children ::
      Settled(Written(s), start, Pass(s, AsWritten, rank, children, start), Node(c, e))
  {
    var g := s.anchors;
    var order := ConfigureOrder(g, AsWritten, rank, children);
    assert ReferencesWithin(g, set c | c in children) by {
      forall w, e | w in (set c | c in children) && w in g && g[w].At(e).ToSibling?
        ensures g[w].At(e).reference in (set c | c in children)
      {
        var i :| 0 <= i < |children| && children[i] == w;
        assert g[w].At(e).reference in children[..i];
      }
    }
    ConfigureOrderSound(g, AsWritten, rank, children);
    ConfigureComplete(g, AsWritten, rank, children);
    EarlierPrefix(g, rank, children, 4 * |children|);
    assert ScanNodes(children)[..4 * |children|] == ScanNodes(children);
    WrittenCovers(s, start);
    ResolveSettles(Written(s), start, order);
  }

  // ---------------------------------------------------------------------------------------
  // What the settled layout looks like

  /** The inputs the as-written theorem needs. */
  ghost predicate Arranged<W>(s: Scene<W>, rank: Node<W> -> nat, children: seq<W>, start: map<W, Box>) {
    && Ranked(s.anchors, AsWritten, rank) && Covers(s, start)
    && (forall c | c in children :: c in s.anchors)
    && ReferencesEarlier(s.anchors, children)
  }

  /** A child without anchors lands at the padding, with its own width and height. */
  lemma UnanchoredChildAtPadding<W>(s: Scene<W>, rank: Node<W> -> nat, children: seq<W>, start: map<W, Box>, c: W)
    requires Arranged(s, rank, children, start)
    requires c in children && s.anchors[c] == Anchors(Unanchored, Unanchored, Unanchored, Unanchored)
    ensures Place(s.cfg, Pass(s, AsWritten, rank, children, start)[c])
         == Placement(s.cfg.vPadding, s.cfg.hPadding, s.sizes[c].width, s.sizes[c].height)
  {
    AsWrittenPassSettles(s, rank, children, start);
    assert Written(s).anchors[c] == s.anchors[c];
    var final := Pass(s, AsWritten, rank, children, start);
    assert Settled(Written(s), start, final, Node(c, Left));
    assert Settled(Written(s), start, final, Node(c, Top));
    assert Settled(Written(s), start, final, Node(c, Right));
    assert Settled(Written(s), start, final, Node(c, Bottom));
  }

  /** A left edge anchored to a sibling with no edge given, or to its right edge, lands one
      vertical spacing after the sibling's placed right side. */
  lemma SiblingGapRight<W>(s: Scene<W>, rank: Node<W> -> nat, children: seq<W>, start: map<W, Box>, a: W, b: W)
    requires Arranged(s, rank, children, start)
    requires b in children && (s.anchors[b].left == ToSibling(a, 0) || s.anchors[b].left == ToSibling(a, Right.Code()))
    ensures var final := Pass(s, AsWritten, rank, children, start);
      a in final && Place(s.cfg, final[b]).x == Place(s.cfg, final[a]).x + Place(s.cfg, final[a]).width + s.cfg.vSpacing
  {
    AsWrittenPassSettles(s, rank, children, start);
    assert s.anchors[b].At(Left).ToSibling?;
    assert Written(s).anchors[b].left == ToSibling(a, Right.Code());
    var final := Pass(s, AsWritten, rank, children, start);
    assert Settled(Written(s), start, final, Node(b, Left));
  }

  /** A top edge anchored to a sibling with no edge given, or to its bottom edge, lands one
      horizontal spacing below the sibling's placed bottom side. */
  lemma SiblingGapBelow<W>(s: Scene<W>, rank: Node<W> -> nat, children: seq<W>, start: map<W, Box>, a: W, b: W)
    requires Arranged(s, rank, children, start)
    requires b in children && (s.anchors[b].top == ToSibling(a, 0) || s.anchors[b].top == ToSibling(a, Bottom.Code()))
    ensures var final := Pass(s, AsWritten, rank, children, start);
      a in final && Place(s.cfg, final[b]).y == Place(s.cfg, final[a]).y + Place(s.cfg, final[a]).height + s.cfg.hSpacing
  {
    AsWrittenPassSettles(s, rank, children, start);
    assert s.anchors[b].At(Top).ToSibling?;
    assert Written(s).anchors[b].top == ToSibling(a, Bottom.Code());
    var final := Pass(s, AsWritten, rank, children, start);
    assert Settled(Written(s), start, final, Node(b, Top));
  }

  /** A child anchored to the parent at ratio 0 on the left and the full scale on the right
      spans the client width less both paddings. */
  lemma ParentSpanFillsWidth<W>(s: Scene<W>, rank: Node<W> -> nat, children: seq<W>, start: map<W, Box>,
                                c: W, clientWidth: int, clientHeight: int)
    requires Arranged(s, rank, children, start)
    requires s.extent == EffectiveExtent(s.cfg, clientWidth, clientHeight)
    requires c in children && s.anchors[c].left == ToParent(0) && s.anchors[c].right == ToParent(s.cfg.scale)
    ensures var p := Place(s.cfg, Pass(s, AsWritten, rank, children, start)[c]);
      p.x == s.cfg.vPadding && p.width == clientWidth - 2 * s.cfg.vPadding
  {
    AsWrittenPassSettles(s, rank, children, start);
    assert Written(s).anchors[c] == ResolveAnchors(s.anchors[c]);
    var final := Pass(s, AsWritten, rank, children, start);
    assert Settled(Written(s), start, final, Node(c, Left));
    assert Settled(Written(s), start, final, Node(c, Right));
    TruncDivExact(0, s.cfg.scale);
    TruncDivExact(s.extent.width, s.cfg.scale);
    assert s.cfg.scale * s.extent.width == s.extent.width * s.cfg.scale;
    HalvesSplitSpacing(s.cfg.vSpacing);
  }

  /** Two neighbours that meet at the same parent ratio, one with its right edge and the other
      with its left edge, are one vertical spacing apart: the spacing is split between them. */
  lemma SharedRatioGap<W>(s: Scene<W>, rank: Node<W> -> nat, children: seq<W>, start: map<W, Box>,
                          a: W, b: W, ratio: nat)
    requires Arranged(s, rank, children, start)
    requires a in children && b in children
    requires s.anchors[a].right == ToParent(ratio) && s.anchors[b].left == ToParent(ratio)
    ensures var final := Pass(s, AsWritten, rank, children, start);
      Place(s.cfg, final[b]).x == Place(s.cfg, final[a]).x + Place(s.cfg, final[a]).width + s.cfg.vSpacing
  {
    AsWrittenPassSettles(s, rank, children, start);
    assert Written(s).anchors[a] == ResolveAnchors(s.anchors[a]);
    assert Written(s).anchors[b] == ResolveAnchors(s.anchors[b]);
    var final := Pass(s, AsWritten, rank, children, start);
    assert Settled(Written(s), start, final, Node(a, Right));
    assert Settled(Written(s), start, final, Node(b, Left));
    HalvesSplitSpacing(s.cfg.vSpacing);
  }

  /** Under the corrected rule, a child whose right (bottom) edge is unanchored keeps its own
      width (height), whatever the order of the child list. */
  lemma CorrectedKeepsSize<W>(s: Scene<W>, rank: Node<W> -> nat, children: seq<W>, start: map<W, Box>, c: W)
    requires Ranked(s.anchors, TrailingNeedsLeading, rank) && Covers(s, start)
    requires forall c | c in children :: c in s.anchors
    requires ReferencesWithin(s.anchors, set c | c in children)
    requires c in children
    ensures var p := Place(s.cfg, Pass(s, TrailingNeedsLeading, rank, children, start)[c]);
      && (s.anchors[c].right.Unanchored? ==> p.width == s.sizes[c].width)
      && (s.anchors[c].bottom.Unanchored? ==> p.height == s.sizes[c].height)
  {
    CorrectedPassSettles(s, rank, children, start);
    assert Written(s).anchors[c] == ResolveAnchors(s.anchors[c]);
    var final := Pass(s, TrailingNeedsLeading, rank, children, start);
    assert Settled(Written(s), start, final, Node(c, Right));
    assert Settled(Written(s), start, final, Node(c, Bottom));
  }

  /** The same holds for the pass as written when every sibling anchor refers to an earlier
      child. */
  lemma AsWrittenKeepsSize<W>(s: Scene<W>, rank: Node<W> -> nat, children: seq<W>, start: map<W, Box>, c: W)
    requires Arranged(s, rank, children, start)
    requires c in children
    ensures var p := Place(s.cfg, Pass(s, AsWritten, rank, children, start)[c]);
      && (s.anchors[c].right.Unanchored? ==> p.width == s.sizes[c].width)
      && (s.anchors[c].bottom.Unanchored? ==> p.height == s.sizes[c].height)
  {
    AsWrittenPassSettles(s, rank, children, start);
    assert Written(s).anchors[c] == ResolveAnchors(s.anchors[c]);
    var final := Pass(s, AsWritten, rank, children, start);
    assert Settled(Written(s), start, final, Node(c, Right));
    assert Settled(Written(s), start, final, Node(c, Bottom));
  }
}
