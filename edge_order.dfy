/*
 * The configure pass of the relative layout (src/layout.c, win32_relative_layout_configure
 * and win32_edge_list_prepend_referred_edges), stated on values.
 *
 * A window is any value of type W; the anchors of the windows involved form a Graph, and
 * the pass produces the order in which (window, edge) pairs are appended to the edge list.
 * The imperative model in layout.dfy is proved to produce exactly ConfigureOrder.
 */
module EdgeOrder {

  datatype Option<+T> = None | Some(value: T)

  /** The four sides of a window, in the order the configure pass scans them. */
  datatype Edge = Left | Top | Right | Bottom {
    /** EDGE_LEFT, EDGE_TOP, EDGE_RIGHT, EDGE_BOTTOM of src/layout.h. */
    function Code(): int {
      match this
      case Left => 1
      case Top => 2
      case Right => 4
      case Bottom => 8
    }

    /** Left and right, top and bottom form pairs; this is also the "opposite" edge that a
        sibling anchor without an explicit edge is pinned to. */
    function Paired(): Edge {
      match this
      case Left => Right
      case Top => Bottom
      case Right => Left
      case Bottom => Top
    }

    /** The right and bottom edges are computed from their leading partner when unanchored. */
    predicate Trailing() {
      this == Right || this == Bottom
    }
  }

  /** Decodes an edge code as stored in an anchor or an edge-list slot. */
  function DecodeEdge(code: int): (r: Option<Edge>)
    ensures r.Some? <==> code == 1 || code == 2 || code == 4 || code == 8
    ensures r.Some? ==> r.value.Code() == code
  {
    if code == 1 then Some(Left)
    else if code == 2 then Some(Top)
    else if code == 4 then Some(Right)
    else if code == 8 then Some(Bottom)
    else None
  }

  function Pow2(n: nat): nat {
    if n == 0 then 1 else 2 * Pow2(n - 1)
  }

  /** The edge `1 << n` visited at step n of the inner loop of configure. */
  function ScanEdge(n: nat): (e: Edge)
    requires n < 4
    ensures e.Code() == Pow2(n)
  {
    [Left, Top, Right, Bottom][n]
  }

  /** What one side of a window's layout data holds: nothing (a NULL anchor), an anchor to
      the parent (reference NULL) with its ratio, or an anchor to a sibling with the edge code
      it names (0 when no edge was chosen). The offset is never read by either pass. */
  datatype Slot<W> = Unanchored | ToParent(ratio: nat) | ToSibling(reference: W, code: int)

  /** The four anchor slots of one window's layout data. */
  datatype Anchors<W> = Anchors(left: Slot<W>, top: Slot<W>, right: Slot<W>, bottom: Slot<W>) {
    function At(e: Edge): Slot<W> {
      match e
      case Left => left
      case Top => top
      case Right => right
      case Bottom => bottom
    }
  }

  type Graph<W(==)> = map<W, Anchors<W>>

  /** One entry of the edge list: a window and one of its edges. */
  datatype Node<W> = Node(window: W, edge: Edge)

  /** The sibling edge a sibling anchor stands for: the code it holds, or the paired edge
      of the side it sits on when it holds 0 (the code the pass writes back). */
  function ResolvedCode(code: int, e: Edge): int {
    if code == 0 then e.Paired().Code() else code
  }

  /** Which prerequisite rule the pass follows. AsWritten is the rule of the source;
      TrailingNeedsLeading also makes an unanchored right (bottom) edge wait for its left
      (top) edge, which recalculate reads to compute it (see README, Findings). */
  datatype Rule = AsWritten | TrailingNeedsLeading

  /** The one pair that must be resolved before n: the referenced sibling edge, or the
      window's own paired edge when n is unanchored and its partner is anchored. */
  function Prereq<W(==)>(g: Graph<W>, rule: Rule, n: Node<W>): Option<Node<W>> {
    if n.window !in g then None
    else
      match g[n.window].At(n.edge)
      case Unanchored =>
        if !g[n.window].At(n.edge.Paired()).Unanchored? || (rule == TrailingNeedsLeading && n.edge.Trailing())
        then Some(Node(n.window, n.edge.Paired()))
        else None
      case ToParent(_) => None
      case ToSibling(r, code) =>
        match DecodeEdge(ResolvedCode(code, n.edge))
        case Some(e) => Some(Node(r, e))
        case None => None
  }

  /** The anchor graph is acyclic: following prerequisites strictly decreases `rank`. */
  ghost predicate Ranked<W>(g: Graph<W>, rule: Rule, rank: Node<W> -> nat) {
    forall w, e | w in g ::
      Prereq(g, rule, Node(w, e)).Some? ==> rank(Prereq(g, rule, Node(w, e)).value) < rank(Node(w, e))
  }

  /** Every sibling anchor holds 0 or one of the four edge codes. */
  ghost predicate WellCoded<W>(g: Graph<W>) {
    forall w, e | w in g && g[w].At(e).ToSibling? ::
      var c := g[w].At(e).code; c == 0 || DecodeEdge(c).Some?
  }

  /** Every sibling anchor of a window in `ws` refers to a window in `ws`. */
  ghost predicate ReferencesWithin<W>(g: Graph<W>, ws: set<W>) {
    forall w, e | w in ws && w in g && g[w].At(e).ToSibling? :: g[w].At(e).reference in ws
  }

  predicate NoDup<T(==)>(s: seq<T>) {
    forall i, j | 0 <= i < j < |s| :: s[i] != s[j]
  }

  /** Every entry's prerequisite occurs earlier in the list. */
  ghost predicate PrereqFirst<W>(g: Graph<W>, rule: Rule, list: seq<Node<W>>) {
    forall i | 0 <= i < |list| ::
      Prereq(g, rule, list[i]).Some? ==> Prereq(g, rule, list[i]).value in list[..i]
  }

  /** win32_edge_list_append on the filled part of a list of `cap` slots. */
  function Append<W>(list: seq<Node<W>>, n: Node<W>, cap: nat): seq<Node<W>> {
    if |list| < cap then list + [n] else list
  }

  /** win32_edge_list_prepend_referred_edges: append the prerequisite chain of n, deepest
      first, stopping at the first pair already present. */
  function Prepend<W(==)>(g: Graph<W>, rule: Rule, rank: Node<W> -> nat, cap: nat,
                          list: seq<Node<W>>, n: Node<W>): (r: seq<Node<W>>)
    requires Ranked(g, rule, rank)
    ensures list <= r
    ensures |list| <= cap ==> |r| <= cap
    decreases rank(n)
  {
    match Prereq(g, rule, n)
    case None => list
    case Some(p) =>
      if p in list then list
      else Append(Prepend(g, rule, rank, cap, list, p), p, cap)
  }

  /** One step of the inner loop of configure: skip a pair already present, otherwise append
      its prerequisites and then the pair itself. */
  function Visit<W(==)>(g: Graph<W>, rule: Rule, rank: Node<W> -> nat, cap: nat,
                        list: seq<Node<W>>, n: Node<W>): (r: seq<Node<W>>)
    requires Ranked(g, rule, rank)
    ensures list <= r
    ensures |list| <= cap ==> |r| <= cap
  {
    if n in list then list
    else Append(Prepend(g, rule, rank, cap, list, n), n, cap)
  }

  /** The pairs in the order configure scans them: children in list order, and for each
      child its edges 1, 2, 4, 8. */
  function ScanNodes<W>(children: seq<W>): (ns: seq<Node<W>>)
    ensures |ns| == 4 * |children|
  {
    seq(4 * |children|, k requires 0 <= k < 4 * |children| => Node(children[k / 4], ScanEdge(k % 4)))
  }

  /** Visit every pair of `ns` in order, starting from an empty list of `cap` slots. */
  function Scan<W(==)>(g: Graph<W>, rule: Rule, rank: Node<W> -> nat, cap: nat,
                       ns: seq<Node<W>>): (r: seq<Node<W>>)
    requires Ranked(g, rule, rank)
    ensures |r| <= cap
    decreases |ns|
  {
    if ns == [] then []
    else Visit(g, rule, rank, cap, Scan(g, rule, rank, cap, ns[..|ns| - 1]), ns[|ns| - 1])
  }

  /** The edge list that configure leaves behind: 4 * numChildren slots, filled by Scan. */
  function ConfigureOrder<W(==)>(g: Graph<W>, rule: Rule, rank: Node<W> -> nat,
                                 children: seq<W>): seq<Node<W>>
    requires Ranked(g, rule, rank)
  {
    Scan(g, rule, rank, 4 * |children|, ScanNodes(children))
  }

  /** The graph after the pass has written the default edge back into every sibling anchor
      that held 0. */
  function ResolveCodes<W(==)>(g: Graph<W>): (r: Graph<W>)
    ensures r.Keys == g.Keys
  {
    map w | w in g :: ResolveAnchors(g[w])
  }

  function ResolveAnchors<W>(a: Anchors<W>): Anchors<W> {
    Anchors(ResolveSlot(a.left, Left), ResolveSlot(a.top, Top),
            ResolveSlot(a.right, Right), ResolveSlot(a.bottom, Bottom))
  }

  function ResolveSlot<W>(s: Slot<W>, e: Edge): Slot<W> {
    match s
    case ToSibling(r, code) => ToSibling(r, ResolvedCode(code, e))
    case _ => s
  }

  // ---------------------------------------------------------------------------------------
  // Lemmas

  /** A sibling anchor with no edge on LEFT/TOP/RIGHT/BOTTOM is written back as
      RIGHT/BOTTOM/LEFT/TOP; an explicit edge and every other slot are left as they are. */
  lemma WriteBackDefaults<W>(g: Graph<W>, w: W, e: Edge)
    requires w in g
    ensures var s := g[w].At(e); var t := ResolveCodes(g)[w].At(e);
      && (s.ToSibling? && s.code == 0 ==> t == ToSibling(s.reference, [4, 8, 1, 2][EdgeIndex(e)]))
      && (s.ToSibling? && s.code != 0 ==> t == s)
      && (!s.ToSibling? ==> t == s)
  {
  }

  function EdgeIndex(e: Edge): nat {
    match e
    case Left => 0
    case Top => 1
    case Right => 2
    case Bottom => 3
  }

  /** Writing the default edges back does not change any prerequisite: the pass resolves a
      0 code exactly as the written-back code. */
  lemma ResolveCodesKeepsPrereq<W>(g: Graph<W>, rule: Rule, n: Node<W>)
    ensures Prereq(ResolveCodes(g), rule, n) == Prereq(g, rule, n)
  {
    if n.window in g {
      var a := g[n.window];
      assert ResolveCodes(g)[n.window] == ResolveAnchors(a);
      assert ResolveAnchors(a).At(n.edge) == ResolveSlot(a.At(n.edge), n.edge);
      assert ResolveAnchors(a).At(n.edge.Paired()) == ResolveSlot(a.At(n.edge.Paired()), n.edge.Paired());
    }
  }

  lemma AppendKeeps<W>(g: Graph<W>, rule: Rule, list: seq<Node<W>>, p: Node<W>)
    requires NoDup(list) && PrereqFirst(g, rule, list)
    requires p !in list
    requires Prereq(g, rule, p).Some? ==> Prereq(g, rule, p).value in list
    ensures NoDup(list + [p]) && PrereqFirst(g, rule, list + [p])
  {
    var r := list + [p];
    forall i | 0 <= i < |r| && Prereq(g, rule, r[i]).Some?
      ensures Prereq(g, rule, r[i]).value in r[..i]
    {
      if i < |list| {
        assert r[..i] == list[..i];
      } else {
        assert r[..i] == list;
      }
    }
  }

  /** Prepending keeps the list free of duplicates and prerequisite-first; it adds only pairs
      strictly below n in the ranking (so never n itself), and it leaves n's prerequisite in
      the list unless the list ran out of slots. */
  lemma {:induction false} PrependSound<W>(g: Graph<W>, rule: Rule, rank: Node<W> -> nat, cap: nat,
                                             list: seq<Node<W>>, n: Node<W>)
    requires Ranked(g, rule, rank)
    requires NoDup(list) && PrereqFirst(g, rule, list) && |list| <= cap
    ensures var r := Prepend(g, rule, rank, cap, list, n);
      && NoDup(r) && PrereqFirst(g, rule, r)
      && (forall x | x in r && x !in list :: rank(x) < rank(n))
      && (Prereq(g, rule, n).Some? ==> Prereq(g, rule, n).value in r || |r| == cap)
    decreases rank(n)
  {
    match Prereq(g, rule, n)
    case None =>
    case Some(p) =>
      if p !in list {
        PrependSound(g, rule, rank, cap, list, p);
        var m := Prepend(g, rule, rank, cap, list, p);
        if |m| < cap {
          AppendKeeps(g, rule, m, p);
        }
      }
  }

  lemma VisitSound<W>(g: Graph<W>, rule: Rule, rank: Node<W> -> nat, cap: nat,
                          list: seq<Node<W>>, n: Node<W>)
    requires Ranked(g, rule, rank)
    requires NoDup(list) && PrereqFirst(g, rule, list) && |list| <= cap
    ensures var r := Visit(g, rule, rank, cap, list, n);
      NoDup(r) && PrereqFirst(g, rule, r) && (n in r || |r| == cap)
  {
    if n !in list {
      PrependSound(g, rule, rank, cap, list, n);
      var m := Prepend(g, rule, rank, cap, list, n);
      if |m| < cap {
        AppendKeeps(g, rule, m, n);
      }
    }
  }

  lemma {:induction false} ScanSound<W>(g: Graph<W>, rule: Rule, rank: Node<W> -> nat, cap: nat,
                                          ns: seq<Node<W>>)
    requires Ranked(g, rule, rank)
    ensures NoDup(Scan(g, rule, rank, cap, ns)) && PrereqFirst(g, rule, Scan(g, rule, rank, cap, ns))
    decreases |ns|
  {
    if ns != [] {
      ScanSound(g, rule, rank, cap, ns[..|ns| - 1]);
      VisitSound(g, rule, rank, cap, Scan(g, rule, rank, cap, ns[..|ns| - 1]), ns[|ns| - 1]);
    }
  }

  /** Configure never appends a (window, edge) pair twice, and every pair's prerequisite
      (referenced sibling edge, or own anchored partner) comes before it. */
  lemma ConfigureOrderSound<W>(g: Graph<W>, rule: Rule, rank: Node<W> -> nat, children: seq<W>)
    requires Ranked(g, rule, rank)
    ensures NoDup(ConfigureOrder(g, rule, rank, children))
    ensures PrereqFirst(g, rule, ConfigureOrder(g, rule, rank, children))
  {
    ScanSound(g, rule, rank, 4 * |children|, ScanNodes(children));
  }

  /** The pairs of `s` form a set no larger than `s`, and exactly as large when `s` has no
      duplicates. */
  lemma {:induction false} SeqSetCard<T>(s: seq<T>)
    ensures |set x | x in s| <= |s|
    ensures NoDup(s) ==> |set x | x in s| == |s|
  {
    if s != [] {
      var t := s[..|s| - 1];
      SeqSetCard(t);
      assert (set x | x in s) == (set x | x in t) + {s[|s| - 1]} by {
        forall x | x in s ensures x in t || x == s[|s| - 1] {
          var k :| 0 <= k < |s| && s[k] == x;
          if k < |s| - 1 { assert t[k] == x; }
        }
      }
      if NoDup(s) {
        assert s[|s| - 1] !in t;
      }
    }
  }

  lemma RoomLeft<T>(list: seq<T>, p: T, space: set<T>, cap: nat)
    requires NoDup(list) && (forall x | x in list :: x in space)
    requires p in space && p !in list && |space| <= cap
    ensures |list| < cap
  {
    SeqSetCard(list);
    var inList := set x | x in list;
    SubsetCard(inList, space - {p});
  }

  lemma {:induction false} SubsetCard<T>(a: set<T>, b: set<T>)
    requires a <= b
    ensures |a| <= |b|
    decreases |a|
  {
    if a != {} {
      var x :| x in a;
      SubsetCard(a - {x}, b - {x});
    }
  }

  /** `space` holds the prerequisite of each of its pairs. */
  ghost predicate ClosedUnder<W>(g: Graph<W>, rule: Rule, space: set<Node<W>>) {
    forall x | x in space && Prereq(g, rule, x).Some? :: Prereq(g, rule, x).value in space
  }

  /** Within a closed set of pairs that fits in the list, prepending never runs out of slots:
      the prerequisite of n always ends up in the list. */
  lemma {:induction false} PrependWithinRoom<W>(g: Graph<W>, rule: Rule, rank: Node<W> -> nat, cap: nat,
                                              list: seq<Node<W>>, n: Node<W>, space: set<Node<W>>)
    requires Ranked(g, rule, rank)
    requires NoDup(list) && PrereqFirst(g, rule, list)
    requires ClosedUnder(g, rule, space) && |space| <= cap
    requires n in space && forall x | x in list :: x in space
    ensures var r := Prepend(g, rule, rank, cap, list, n);
      && (forall x | x in r :: x in space)
      && (Prereq(g, rule, n).Some? ==> Prereq(g, rule, n).value in r)
    decreases rank(n)
  {
    SeqSetCard(list);
    var inList := set x | x in list;
    SubsetCard(inList, space);
    match Prereq(g, rule, n)
    case None =>
    case Some(p) =>
      if p !in list {
        PrependWithinRoom(g, rule, rank, cap, list, p, space);
        PrependSound(g, rule, rank, cap, list, p);
        var m := Prepend(g, rule, rank, cap, list, p);
        assert p !in m;
        RoomLeft(m, p, space, cap);
      }
  }

  lemma {:induction false} ScanWithinRoom<W>(g: Graph<W>, rule: Rule, rank: Node<W> -> nat, cap: nat,
                                           ns: seq<Node<W>>, space: set<Node<W>>)
    requires Ranked(g, rule, rank)
    requires ClosedUnder(g, rule, space) && |space| <= cap
    requires forall x | x in ns :: x in space
    ensures forall x | x in ns :: x in Scan(g, rule, rank, cap, ns)
    ensures forall x | x in Scan(g, rule, rank, cap, ns) :: x in space
    decreases |ns|
  {
    if ns != [] {
      var init := ns[..|ns| - 1];
      var n := ns[|ns| - 1];
      assert forall x | x in init :: x in ns;
      ScanWithinRoom(g, rule, rank, cap, init, space);
      ScanSound(g, rule, rank, cap, init);
      var list := Scan(g, rule, rank, cap, init);
      if n !in list {
        PrependWithinRoom(g, rule, rank, cap, list, n, space);
        PrependSound(g, rule, rank, cap, list, n);
        var m := Prepend(g, rule, rank, cap, list, n);
        RoomLeft(m, n, space, cap);
      }
      forall x | x in ns ensures x in Scan(g, rule, rank, cap, ns) {
        if x != n { assert x in init; }
      }
    }
  }

  lemma ScanNodesAt<W>(children: seq<W>, i: nat, e: Edge)
    requires i < |children|
    ensures 4 * i + EdgeIndex(e) < 4 * |children|
    ensures ScanNodes(children)[4 * i + EdgeIndex(e)] == Node(children[i], e)
  {
    var k := 4 * i + EdgeIndex(e);
    assert k / 4 == i && k % 4 == EdgeIndex(e);
  }

  lemma ScanNodesCover<W>(children: seq<W>, x: Node<W>)
    ensures x in ScanNodes(children) <==> x.window in children
  {
    if x.window in children {
      var i :| 0 <= i < |children| && children[i] == x.window;
      ScanNodesAt(children, i, x.edge);
    }
  }

  /** When every sibling anchor of a child refers to a child, configure appends every edge
      of every child, and nothing else. */
  lemma ConfigureComplete<W>(g: Graph<W>, rule: Rule, rank: Node<W> -> nat, children: seq<W>)
    requires Ranked(g, rule, rank)
    requires ReferencesWithin(g, set c | c in children)
    ensures forall c, e | c in children :: Node(c, e) in ConfigureOrder(g, rule, rank, children)
    ensures forall x | x in ConfigureOrder(g, rule, rank, children) :: x.window in children
  {
    var ns := ScanNodes(children);
    var space := set x | x in ns;
    SeqSetCard(ns);
    forall x | x in space && Prereq(g, rule, x).Some?
      ensures Prereq(g, rule, x).value in space
    {
      ScanNodesCover(children, x);
      ScanNodesCover(children, Prereq(g, rule, x).value);
    }
    ScanWithinRoom(g, rule, rank, 4 * |children|, ns, space);
    forall c, e | c in children ensures Node(c, e) in ConfigureOrder(g, rule, rank, children) {
      ScanNodesCover(children, Node(c, e));
    }
    forall x | x in ConfigureOrder(g, rule, rank, children) ensures x.window in children {
      ScanNodesCover(children, x);
    }
  }

  lemma ScanNodesNoDup<W>(children: seq<W>)
    requires NoDup(children)
    ensures NoDup(ScanNodes(children))
  {
    var ns := ScanNodes(children);
    forall a, b | 0 <= a < b < |ns| ensures ns[a] != ns[b] {
      if a / 4 != b / 4 {
        assert children[a / 4] != children[b / 4];
      } else {
        assert a % 4 != b % 4;
        assert ScanEdge(a % 4) != ScanEdge(b % 4);
      }
    }
  }

  /** A child with no anchors at all. */
  ghost predicate Unanchored4<W>(g: Graph<W>, c: W) {
    c in g ==> g[c] == Anchors(Unanchored, Unanchored, Unanchored, Unanchored)
  }

  /** Visiting a new pair whose prerequisite is already listed appends just that pair. */
  lemma VisitAppendsOnly<W>(g: Graph<W>, rule: Rule, rank: Node<W> -> nat, cap: nat,
                            list: seq<Node<W>>, v: Node<W>)
    requires Ranked(g, rule, rank)
    requires v !in list && |list| < cap
    requires Prereq(g, rule, v).Some? ==> Prereq(g, rule, v).value in list
    ensures Visit(g, rule, rank, cap, list, v) == list + [v]
  {
  }

  lemma UnanchoredPrereq<W>(g: Graph<W>, rule: Rule, children: seq<W>, k: nat)
    requires forall c | c in children :: Unanchored4(g, c)
    requires k < 4 * |children|
    ensures var v := ScanNodes(children)[k];
      Prereq(g, rule, v).Some? ==> Prereq(g, rule, v).value in ScanNodes(children)[..k]
  {
    var ns := ScanNodes(children);
    var v := ns[k];
    var i := k / 4;
    assert v == Node(children[i], ScanEdge(k % 4));
    if Prereq(g, rule, v).Some? {
      var p := Prereq(g, rule, v).value;
      assert Unanchored4(g, children[i]);
      assert g[children[i]].At(v.edge).Unanchored? && g[children[i]].At(v.edge.Paired()).Unanchored?;
      assert p == Node(children[i], v.edge.Paired()) && v.edge.Trailing();
      ScanNodesAt(children, i, p.edge);
      assert ns[4 * i + EdgeIndex(p.edge)] == p;
      assert 4 * i + EdgeIndex(p.edge) < k;
    }
  }

  lemma {:induction false} UnanchoredPrefix<W>(g: Graph<W>, rule: Rule, rank: Node<W> -> nat,
                                             children: seq<W>, k: nat)
    requires Ranked(g, rule, rank)
    requires NoDup(children) && forall c | c in children :: Unanchored4(g, c)
    requires k <= 4 * |children|
    ensures Scan(g, rule, rank, 4 * |children|, ScanNodes(children)[..k]) == ScanNodes(children)[..k]
  {
    var ns := ScanNodes(children);
    if k > 0 {
      UnanchoredPrefix(g, rule, rank, children, k - 1);
      assert ns[..k][..k - 1] == ns[..k - 1];
      ScanNodesNoDup(children);
      assert ns[k - 1] !in ns[..k - 1];
      UnanchoredPrereq(g, rule, children, k - 1);
      VisitAppendsOnly(g, rule, rank, 4 * |children|, ns[..k - 1], ns[k - 1]);
      assert ns[..k - 1] + [ns[k - 1]] == ns[..k];
    }
  }

  /** With distinct children and no anchors, configure lists every child's edges in scan
      order: left, top, right, bottom, child by child. */
  lemma UnanchoredKeepsScanOrder<W>(g: Graph<W>, rule: Rule, rank: Node<W> -> nat, children: seq<W>)
    requires Ranked(g, rule, rank)
    requires NoDup(children) && forall c | c in children :: Unanchored4(g, c)
    ensures ConfigureOrder(g, rule, rank, children) == ScanNodes(children)
  {
    UnanchoredPrefix(g, rule, rank, children, 4 * |children|);
    assert ScanNodes(children)[..4 * |children|] == ScanNodes(children);
  }

  lemma {:induction false} PrependWithin<W>(g: Graph<W>, rule: Rule, rank: Node<W> -> nat, cap: nat,
                                          list: seq<Node<W>>, n: Node<W>, ws: set<W>)
    requires Ranked(g, rule, rank) && ReferencesWithin(g, ws) && n.window in ws
    ensures forall x | x in Prepend(g, rule, rank, cap, list, n) :: x in list || x.window in ws
    decreases rank(n)
  {
    match Prereq(g, rule, n)
    case None =>
    case Some(p) =>
      assert p.window in ws;
      PrependWithin(g, rule, rank, cap, list, p, ws);
  }

  lemma {:induction false} ScanWithin<W>(g: Graph<W>, rule: Rule, rank: Node<W> -> nat, cap: nat,
                                       ns: seq<Node<W>>, ws: set<W>)
    requires Ranked(g, rule, rank) && ReferencesWithin(g, ws)
    requires forall x | x in ns :: x.window in ws
    ensures forall x | x in Scan(g, rule, rank, cap, ns) :: x.window in ws
    decreases |ns|
  {
    if ns != [] {
      var init := ns[..|ns| - 1];
      assert forall x | x in init :: x in ns;
      ScanWithin(g, rule, rank, cap, init, ws);
      PrependWithin(g, rule, rank, cap, Scan(g, rule, rank, cap, init), ns[|ns| - 1], ws);
    }
  }

  /** Configure lists only windows reachable from the children through sibling anchors. */
  lemma ConfigureWithin<W>(g: Graph<W>, rule: Rule, rank: Node<W> -> nat, children: seq<W>, ws: set<W>)
    requires Ranked(g, rule, rank) && ReferencesWithin(g, ws)
    requires forall c | c in children :: c in ws
    ensures forall x | x in ConfigureOrder(g, rule, rank, children) :: x.window in ws
  {
    forall x | x in ScanNodes(children) ensures x.window in ws {
      ScanNodesCover(children, x);
    }
    ScanWithin(g, rule, rank, 4 * |children|, ScanNodes(children), ws);
  }
}
