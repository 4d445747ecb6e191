/*
 * The recalculate pass of the relative layout (src/layout.c, win32_relative_layout_recalculate),
 * stated on values: the per-edge formulas, the replay of the edge list, and the final placement.
 */
module EdgeGeometry {
  import opened EdgeOrder

  /** The resolved coordinates `_left`, `_top`, `_right`, `_bottom` of one window. */
  datatype Box = Box(left: int, top: int, right: int, bottom: int) {
    function At(e: Edge): int {
      match e
      case Left => left
      case Top => top
      case Right => right
      case Bottom => bottom
    }

    function With(e: Edge, v: int): (b: Box)
      ensures b.At(e) == v
      ensures forall f | f != e :: b.At(f) == At(f)
    {
      match e
      case Left => this.(left := v)
      case Top => this.(top := v)
      case Right => this.(right := v)
      case Bottom => this.(bottom := v)
    }
  }

  /** A window's current `width` and `height` fields. */
  datatype Size = Size(width: int, height: int)

  /** The layout fields recalculate reads: paddings and spacings (UINT) and the scale. */
  datatype Config = Config(vPadding: nat, hPadding: nat, vSpacing: nat, hSpacing: nat, scale: nat)

  /** halfSpacing_L and halfSpacing_T: the larger half of an odd spacing. */
  function HalfUp(s: nat): nat {
    s / 2 + s % 2
  }

  /** halfSpacing_R and halfSpacing_B: the smaller half. */
  function HalfDown(s: nat): nat {
    s / 2
  }

  /** The two halves always add up to the whole spacing, and differ by at most one. */
  lemma HalvesSplitSpacing(s: nat)
    ensures HalfUp(s) + HalfDown(s) == s
    ensures HalfDown(s) <= HalfUp(s) <= HalfDown(s) + 1
  {
  }

  /** Division truncating toward zero, as a double-to-int conversion does. */
  function TruncDiv(a: int, b: int): int
    requires b > 0
  {
    if a >= 0 then a / b else -((-a) / b)
  }

  function Abs(a: int): nat {
    if a < 0 then -a else a
  }

  /** TruncDiv rounds toward zero: the quotient has the sign of `a`, and `q * b` is the
      multiple of b nearest to `a` on the side of zero. */
  lemma TruncDivTowardZero(a: int, b: int)
    requires b > 0
    ensures var q := TruncDiv(a, b);
      && (a >= 0 ==> q >= 0) && (a <= 0 ==> q <= 0)
      && Abs(q) * b <= Abs(a) < Abs(q) * b + b
  {
    var m := Abs(a);
    var p := m / b;
    assert m == p * b + m % b;
    assert p >= 0;
    assert Abs(TruncDiv(a, b)) == p;
  }

  lemma DivMultiple(m: nat, b: int)
    requires b > 0
    ensures (m * b) / b == m
  {
    var q := (m * b) / b;
    var r := (m * b) % b;
    assert m * b == q * b + r && 0 <= r < b;
    assert (m - q) * b == r;
    ZeroFactor(m - q, b, r);
  }

  lemma ZeroFactor(x: int, b: int, r: int)
    requires b > 0 && x * b == r && 0 <= r < b
    ensures x == 0
  {
    assert x <= 0 || x * b >= b by {
      if x > 0 { assert x * b == (x - 1) * b + b; }
    }
  }

  /** A multiple of b divides exactly. */
  lemma TruncDivExact(k: int, b: int)
    requires b > 0
    ensures TruncDiv(k * b, b) == k
  {
    if k >= 0 {
      DivMultiple(k, b);
    } else {
      DivMultiple(-k, b);
      assert (-k) * b == -(k * b);
    }
  }

  /** `ratio / scale * extent`, truncated on assignment to an int. */
  function RatioOf(ratio: nat, scale: nat, extent: int): int
    requires scale > 0
  {
    TruncDiv(ratio * extent, scale)
  }

  /** containerWidth and containerHeight: the client size less twice the padding, plus one
      spacing (the two outer half spacings are taken back by the edge formulas). */
  datatype Extent = Extent(width: int, height: int)

  function EffectiveExtent(cfg: Config, clientWidth: int, clientHeight: int): Extent {
    Extent(clientWidth - 2 * cfg.vPadding + cfg.vSpacing, clientHeight - 2 * cfg.hPadding + cfg.hSpacing)
  }

  /** Everything recalculate reads besides the coordinates: the anchors, the windows' sizes,
      the configuration and the effective client extent. */
  datatype Scene<W> = Scene(anchors: Graph<W>, sizes: map<W, Size>, cfg: Config, extent: Extent)

  /** The scene describes every window it mentions and the coordinates cover them. */
  ghost predicate Covers<W>(s: Scene<W>, coords: map<W, Box>) {
    && s.cfg.scale > 0
    && s.anchors.Keys <= s.sizes.Keys
    && s.anchors.Keys <= coords.Keys
    && ReferencesWithin(s.anchors, s.anchors.Keys)
  }

  /** The coordinate recalculate reads to compute edge n, if any: the referenced sibling edge
      (when the anchor names an edge of the same axis), or the window's own opposite edge. */
  function Depends<W>(g: Graph<W>, n: Node<W>): Option<Node<W>> {
    if n.window !in g then None
    else
      var a := g[n.window];
      match a.At(n.edge)
      case ToSibling(r, code) =>
        if code == n.edge.Code() || code == n.edge.Paired().Code() then
          Some(Node(r, DecodeEdge(code).value))
        else None
      case ToParent(_) => None
      case Unanchored =>
        if n.edge.Trailing() || !a.At(n.edge.Paired()).Unanchored? then Some(Node(n.window, n.edge.Paired()))
        else None
  }

  /** The value recalculate stores for edge n, or None when it leaves the coordinate as it
      was (a sibling anchor naming neither edge of its own axis). */
  function EdgeValue<W>(s: Scene<W>, coords: map<W, Box>, n: Node<W>): Option<int>
    requires Covers(s, coords) && n.window in s.anchors
  {
    var a := s.anchors[n.window];
    var own := coords[n.window];
    var size := s.sizes[n.window];
    var cfg := s.cfg;
    match n.edge
    case Left =>
      (match a.At(Left)
       case ToSibling(r, code) =>
         if code == Right.Code() then Some(coords[r].right + cfg.vSpacing)
         else if code == Left.Code() then Some(coords[r].left)
         else None
       case ToParent(ratio) => Some(RatioOf(ratio, cfg.scale, s.extent.width) + HalfDown(cfg.vSpacing))
       case Unanchored =>
         if !a.At(Right).Unanchored? then Some(own.right - size.width) else Some(HalfDown(cfg.vSpacing)))
    case Top =>
      (match a.At(Top)
       case ToSibling(r, code) =>
         if code == Bottom.Code() then Some(coords[r].bottom + cfg.hSpacing)
         else if code == Top.Code() then Some(coords[r].top)
         else None
       case ToParent(ratio) => Some(RatioOf(ratio, cfg.scale, s.extent.height) + HalfDown(cfg.hSpacing))
       case Unanchored =>
         if !a.At(Bottom).Unanchored? then Some(own.bottom - size.height) else Some(HalfDown(cfg.hSpacing)))
    case Right =>
      (match a.At(Right)
       case ToSibling(r, code) =>
         if code == Right.Code() then Some(coords[r].right)
         else if code == Left.Code() then Some(coords[r].left - cfg.vSpacing)
         else None
       case ToParent(ratio) => Some(RatioOf(ratio, cfg.scale, s.extent.width) - HalfUp(cfg.vSpacing))
       case Unanchored => Some(own.left + size.width))
    case Bottom =>
      (match a.At(Bottom)
       case ToSibling(r, code) =>
         if code == Bottom.Code() then Some(coords[r].bottom)
         else if code == Top.Code() then Some(coords[r].top - cfg.hSpacing)
         else None
       case ToParent(ratio) => Some(RatioOf(ratio, cfg.scale, s.extent.height) - HalfUp(cfg.hSpacing))
       case Unanchored => Some(own.top + size.height))
  }

  /** EdgeValue reads no coordinate but the one Depends names. */
  lemma EdgeValueReadsDepends<W>(s: Scene<W>, c1: map<W, Box>, c2: map<W, Box>, n: Node<W>)
    requires Covers(s, c1) && Covers(s, c2) && n.window in s.anchors
    requires Depends(s.anchors, n).None? || Coord(c1, Depends(s.anchors, n).value) == Coord(c2, Depends(s.anchors, n).value)
    ensures EdgeValue(s, c1, n) == EdgeValue(s, c2, n)
  {
  }

  function Coord<W>(coords: map<W, Box>, n: Node<W>): int
    requires n.window in coords
  {
    coords[n.window].At(n.edge)
  }

  /** One iteration of the edge loop of recalculate. */
  function Step<W>(s: Scene<W>, coords: map<W, Box>, n: Node<W>): (r: map<W, Box>)
    requires Covers(s, coords) && n.window in s.anchors
    ensures r.Keys == coords.Keys
  {
    match EdgeValue(s, coords, n)
    case None => coords
    case Some(v) => coords[n.window := coords[n.window].With(n.edge, v)]
  }

  /** An edge's value reads only its own slot and whether the opposite slot is anchored, so
      two scenes that agree there (and on sizes, configuration and extent) step alike. */
  lemma SameSlotsSameStep<W>(s1: Scene<W>, s2: Scene<W>, coords: map<W, Box>, n: Node<W>)
    requires Covers(s1, coords) && Covers(s2, coords) && n.window in s1.anchors && n.window in s2.anchors
    requires s1.sizes == s2.sizes && s1.cfg == s2.cfg && s1.extent == s2.extent
    requires s1.anchors[n.window].At(n.edge) == s2.anchors[n.window].At(n.edge)
    requires s1.anchors[n.window].At(n.edge.Paired()).Unanchored? == s2.anchors[n.window].At(n.edge.Paired()).Unanchored?
    ensures Step(s1, coords, n) == Step(s2, coords, n)
  {
    match n.edge
    case Left =>
    case Top =>
    case Right =>
    case Bottom =>
  }

  ghost predicate InScene<W>(s: Scene<W>, list: seq<Node<W>>) {
    forall x | x in list :: x.window in s.anchors
  }

  /** The edge loop of recalculate: replay the edge list in order. */
  function Resolve<W>(s: Scene<W>, coords: map<W, Box>, list: seq<Node<W>>): (r: map<W, Box>)
    requires Covers(s, coords) && InScene(s, list)
    ensures r.Keys == coords.Keys
    decreases |list|
  {
    if list == [] then coords
    else Step(s, Resolve(s, coords, list[..|list| - 1]), list[|list| - 1])
  }

  /** Every entry's coordinate source comes earlier in the list. */
  ghost predicate DependsFirst<W>(g: Graph<W>, list: seq<Node<W>>) {
    forall i | 0 <= i < |list| :: Depends(g, list[i]).Some? ==> Depends(g, list[i]).value in list[..i]
  }

  /** Edge n of `final` holds what its formula gives on `final` itself, or its value in
      `start` when the formula leaves it alone. */
  ghost predicate Settled<W>(s: Scene<W>, start: map<W, Box>, final: map<W, Box>, n: Node<W>)
    requires Covers(s, start) && Covers(s, final) && n.window in s.anchors
  {
    Coord(final, n) == match EdgeValue(s, final, n) case Some(v) => v case None => Coord(start, n)
  }

  /** The final placement of a child: move_and_resize arguments. */
  datatype Placement = Placement(x: int, y: int, width: int, height: int)

  function Place(cfg: Config, b: Box): Placement {
    Placement(b.left + cfg.vPadding - HalfDown(cfg.vSpacing), b.top + cfg.hPadding - HalfDown(cfg.hSpacing),
              b.right - b.left, b.bottom - b.top)
  }

  // ---------------------------------------------------------------------------------------
  // Lemmas

  /** Replaying one more pair of a list is one more step. */
  lemma ResolveFrom<W>(s: Scene<W>, coords: map<W, Box>, list: seq<Node<W>>, k: nat,
                       before: map<W, Box>, after: map<W, Box>)
    requires Covers(s, coords) && InScene(s, list) && k < |list|
    requires Resolve(s, coords, list[..k]) == before
    requires Step(s, before, list[k]) == after
    ensures Resolve(s, coords, list[..k + 1]) == after
  {
    assert list[..k + 1][..k] == list[..k];
  }

  /** Replaying a list leaves every pair outside it as it was. */
  lemma {:induction false} ResolveOutside<W>(s: Scene<W>, coords: map<W, Box>, list: seq<Node<W>>, n: Node<W>)
    requires Covers(s, coords) && InScene(s, list)
    requires n !in list && n.window in coords
    ensures Coord(Resolve(s, coords, list), n) == Coord(coords, n)
    decreases |list|
  {
    if list != [] {
      var init := list[..|list| - 1];
      assert InScene(s, init) by { forall x | x in init ensures x in list { } }
      ResolveOutside(s, coords, init, n);
    }
  }

  /** Settled entries stay settled when a later entry that none of them reads is replayed. */
  lemma StepKeepsSettled<W>(s: Scene<W>, start: map<W, Box>, mid: map<W, Box>, m: Node<W>, n: Node<W>)
    requires Covers(s, start) && Covers(s, mid) && m.window in s.anchors && n.window in s.anchors
    requires mid.Keys == start.Keys
    requires n != m && Depends(s.anchors, n) != Some(m)
    requires Settled(s, start, mid, n)
    ensures Settled(s, start, Step(s, mid, m), n)
  {
    EdgeValueReadsDepends(s, mid, Step(s, mid, m), n);
  }

  /** The replayed entry settles when its coordinate source was replayed before it and it
      was not replayed before. */
  lemma StepSettles<W>(s: Scene<W>, start: map<W, Box>, init: seq<Node<W>>, m: Node<W>)
    requires Covers(s, start) && InScene(s, init) && m.window in s.anchors
    requires m !in init
    requires Depends(s.anchors, m).Some? ==> Depends(s.anchors, m).value in init
    ensures Settled(s, start, Step(s, Resolve(s, start, init), m), m)
  {
    var mid := Resolve(s, start, init);
    ResolveOutside(s, start, init, m);
    if Depends(s.anchors, m).Some? {
      assert Depends(s.anchors, m).value != m;
    }
    EdgeValueReadsDepends(s, mid, Step(s, mid, m), m);
  }

  /** When the list has no duplicates and each entry's coordinate source precedes it, one
      replay settles every entry: the stored value satisfies its own formula on the final
      coordinates. */
  lemma {:induction false} ResolveSettles<W>(s: Scene<W>, start: map<W, Box>, list: seq<Node<W>>)
    requires Covers(s, start) && InScene(s, list)
    requires NoDup(list) && DependsFirst(s.anchors, list)
    ensures forall n | n in list :: Settled(s, start, Resolve(s, start, list), n)
    decreases |list|
  {
    if list != [] {
      var init := list[..|list| - 1];
      var m := list[|list| - 1];
      assert init + [m] == list;
      LastSplit(s, init, m);
      ResolveSettles(s, start, init);
      StepSettles(s, start, init, m);
      InitStaysSettled(s, start, init, m);
    }
  }

  /** The conditions of ResolveSettles hold of a list without its last entry, and that entry
      is new and depends only on earlier ones. */
  lemma LastSplit<W>(s: Scene<W>, init: seq<Node<W>>, m: Node<W>)
    requires InScene(s, init + [m]) && NoDup(init + [m]) && DependsFirst(s.anchors, init + [m])
    ensures InScene(s, init) && NoDup(init) && DependsFirst(s.anchors, init)
    ensures m.window in s.anchors && m !in init
    ensures Depends(s.anchors, m).Some? ==> Depends(s.anchors, m).value in init
  {
    var list := init + [m];
    assert list[|init|] == m;
    forall x | x in init ensures x in list { }
    forall i, j | 0 <= i < j < |init| ensures init[i] != init[j] {
      assert list[i] == init[i] && list[j] == init[j];
    }
    forall i | 0 <= i < |init| && Depends(s.anchors, init[i]).Some?
      ensures Depends(s.anchors, init[i]).value in init[..i]
    {
      assert list[i] == init[i];
      assert list[..i] == init[..i];
    }
    assert list[..|init|] == init;
  }

  lemma InitStaysSettled<W>(s: Scene<W>, start: map<W, Box>, init: seq<Node<W>>, m: Node<W>)
    requires Covers(s, start) && InScene(s, init + [m]) && InScene(s, init)
    requires NoDup(init + [m]) && DependsFirst(s.anchors, init + [m])
    requires forall n | n in init :: Settled(s, start, Resolve(s, start, init), n)
    ensures forall n | n in init :: Settled(s, start, Resolve(s, start, init + [m]), n)
  {
    var list := init + [m];
    assert list[..|list| - 1] == init;
    var mid := Resolve(s, start, init);
    forall n | n in init ensures Settled(s, start, Resolve(s, start, list), n) {
      var i :| 0 <= i < |init| && init[i] == n;
      assert list[i] == n;
      if Depends(s.anchors, n).Some? {
        assert Depends(s.anchors, n).value in list[..i];
        assert list[..i] == init[..i];
      }
      StepKeepsSettled(s, start, mid, m, n);
    }
  }
}
