/*
 * Concrete layouts worked through the model of configure and recalculate
 * (src/layout.c:67-165, 198-338), and the unanchored trailing edge that the order built
 * by configure can leave stale.
 *
 * Windows are plain integers here; padding, spacing and scale are small numbers so every
 * coordinate can be read off.
 */
module LayoutExamples {
  import opened EdgeOrder
  import opened EdgeGeometry
  import opened LayoutPass

  const U: Slot<int> := Unanchored

  // ---------------------------------------------------------------------------------------
  // A toolbar-like row: window 1 has no anchors; window 2 starts after it and stretches to
  // the right side of a 400 x 300 client area.

  function RowScene(): Scene<int> {
    Scene(map[1 := Anchors(U, U, U, U), 2 := Anchors(ToSibling(1, 0), U, ToParent(100), U)],
          map[1 := Size(100, 30), 2 := Size(10, 30)],
          Config(0, 0, 0, 0, 100),
          EffectiveExtent(Config(0, 0, 0, 0, 100), 400, 300))
  }

  function RowRank(n: Node<int>): nat {
    if n == Node(2, Left) then 1 else 0
  }

  lemma RowArranged(start: map<int, Box>)
    requires 1 in start && 2 in start
    ensures Arranged(RowScene(), RowRank, [1, 2], start)
  {
    var g := RowScene().anchors;
    forall w, e | w in g && Prereq(g, AsWritten, Node(w, e)).Some?
      ensures RowRank(Prereq(g, AsWritten, Node(w, e)).value) < RowRank(Node(w, e))
    {
      assert w == 1 || w == 2;
    }
    forall i, e | 0 <= i < 2 && [1, 2][i] in g && g[[1, 2][i]].At(e).ToSibling?
      ensures g[[1, 2][i]].At(e).reference in [1, 2][..i]
    {
      assert i == 1 && e == Left;
      assert [1, 2][..1] == [1];
    }
  }

  /** Window 1 sits at the origin with its own size; window 2 starts where it ends and
      reaches the right side of the client area. */
  lemma RowPlacement(start: map<int, Box>)
    requires 1 in start && 2 in start
    ensures Arranged(RowScene(), RowRank, [1, 2], start)
    ensures var final := Pass(RowScene(), AsWritten, RowRank, [1, 2], start);
      && Place(RowScene().cfg, final[1]) == Placement(0, 0, 100, 30)
      && Place(RowScene().cfg, final[2]).x == 100
      && Place(RowScene().cfg, final[2]).width == 300
  {
    var s := RowScene();
    RowArranged(start);
    UnanchoredChildAtPadding(s, RowRank, [1, 2], start, 1);
    SiblingGapRight(s, RowRank, [1, 2], start, 1, 2);
    RowRight(start);
  }

  lemma RowRight(start: map<int, Box>)
    requires 1 in start && 2 in start
    ensures Arranged(RowScene(), RowRank, [1, 2], start)
    ensures Pass(RowScene(), AsWritten, RowRank, [1, 2], start)[2].right == 400
  {
    var s := RowScene();
    RowArranged(start);
    AsWrittenPassSettles(s, RowRank, [1, 2], start);
    var final := Pass(s, AsWritten, RowRank, [1, 2], start);
    assert Written(s).anchors[2].right == ToParent(100);
    assert Settled(Written(s), start, final, Node(2, Right));
    TruncDivExact(400, 100);
    assert 100 * 400 == 400 * 100;
  }

  // ---------------------------------------------------------------------------------------
  // The stale trailing edge. Window 2 comes first in the child list and its left edge is
  // anchored to window 1 with no edge given (so to window 1's right edge); window 1 has no
  // anchors at all. Configure then appends (1, Right) before (1, Left), and recalculate
  // computes window 1's right edge from the left edge of the previous pass.

  function StaleScene(): Scene<int> {
    Scene(map[1 := Anchors(U, U, U, U), 2 := Anchors(ToSibling(1, 0), U, U, U)],
          map[1 := Size(100, 30), 2 := Size(50, 30)],
          Config(0, 0, 2, 0, 100),
          EffectiveExtent(Config(0, 0, 2, 0, 100), 400, 300))
  }

  function StaleStart(): map<int, Box> {
    map[1 := Box(0, 0, 0, 0), 2 := Box(0, 0, 0, 0)]
  }

  function StaleRank(n: Node<int>): nat {
    if n == Node(2, Left) then 1 else if n == Node(2, Right) then 2 else 0
  }

  /** Scanning one more pair is one more Visit. */
  lemma ScanSnoc<W>(g: Graph<W>, rule: Rule, rank: Node<W> -> nat, cap: nat, ns: seq<Node<W>>, k: nat)
    requires Ranked(g, rule, rank) && k < |ns|
    ensures Scan(g, rule, rank, cap, ns[..k + 1]) == Visit(g, rule, rank, cap, Scan(g, rule, rank, cap, ns[..k]), ns[k])
  {
    assert ns[..k + 1][..k] == ns[..k];
  }

  /** Visiting a pair that is not yet listed and whose prerequisite (if any) is listed
      appends just that pair. */
  lemma VisitFresh<W>(g: Graph<W>, rule: Rule, rank: Node<W> -> nat, cap: nat, list: seq<Node<W>>, n: Node<W>)
    requires Ranked(g, rule, rank) && n !in list && |list| < cap
    requires Prereq(g, rule, n).None? || Prereq(g, rule, n).value in list
    ensures Visit(g, rule, rank, cap, list, n) == list + [n]
  {
  }

  lemma ScanFresh<W>(g: Graph<W>, rule: Rule, rank: Node<W> -> nat, cap: nat, ns: seq<Node<W>>, k: nat,
                     l: seq<Node<W>>)
    requires Ranked(g, rule, rank) && k < |ns| && Scan(g, rule, rank, cap, ns[..k]) == l
    requires ns[k] !in l && |l| < cap
    requires Prereq(g, rule, ns[k]).None? || Prereq(g, rule, ns[k]).value in l
    ensures Scan(g, rule, rank, cap, ns[..k + 1]) == l + [ns[k]]
  {
    ScanSnoc(g, rule, rank, cap, ns, k);
    VisitFresh(g, rule, rank, cap, l, ns[k]);
  }

  lemma ScanSkip<W>(g: Graph<W>, rule: Rule, rank: Node<W> -> nat, cap: nat, ns: seq<Node<W>>, k: nat,
                    l: seq<Node<W>>)
    requires Ranked(g, rule, rank) && k < |ns| && Scan(g, rule, rank, cap, ns[..k]) == l
    requires ns[k] in l
    ensures Scan(g, rule, rank, cap, ns[..k + 1]) == l
  {
    ScanSnoc(g, rule, rank, cap, ns, k);
  }

  lemma StaleRanked()
    ensures Ranked(StaleScene().anchors, AsWritten, StaleRank)
  {
    var g := StaleScene().anchors;
    forall w, e | w in g && Prereq(g, AsWritten, Node(w, e)).Some?
      ensures StaleRank(Prereq(g, AsWritten, Node(w, e)).value) < StaleRank(Node(w, e))
    {
      assert w == 1 || w == 2;
    }
  }

  /** Scanning pair k appends entry m of the order: the pair is new and its prerequisite, if
      any, is listed. */
  lemma StaleScanFresh(k: nat, m: nat)
    requires k < 8 && m < 8
    requires Ranked(StaleScene().anchors, AsWritten, StaleRank)
    requires Scan(StaleScene().anchors, AsWritten, StaleRank, 8, ScanNodes([2, 1])[..k]) == StaleList()[..m]
    requires ScanNodes([2, 1])[k] == StaleList()[m] && StaleList()[m] !in StaleList()[..m]
    requires var p := Prereq(StaleScene().anchors, AsWritten, StaleList()[m]); p.None? || p.value in StaleList()[..m]
    ensures Scan(StaleScene().anchors, AsWritten, StaleRank, 8, ScanNodes([2, 1])[..k + 1]) == StaleList()[..m + 1]
  {
    ScanFresh(StaleScene().anchors, AsWritten, StaleRank, 8, ScanNodes([2, 1]), k, StaleList()[..m]);
    assert StaleList()[..m] + [StaleList()[m]] == StaleList()[..m + 1];
  }

  /** The first pair, (2, Left), brings window 1's right edge in ahead of it. */
  lemma StaleScan1()
    ensures Ranked(StaleScene().anchors, AsWritten, StaleRank)
    ensures Scan(StaleScene().anchors, AsWritten, StaleRank, 8, ScanNodes([2, 1])[..1]) == StaleList()[..2]
  {
    StaleRanked();
    var g := StaleScene().anchors;
    var ns := ScanNodes([2, 1]);
    assert ns[0] == Node(2, Left);
    assert Prereq(g, AsWritten, Node(2, Left)) == Some(Node(1, Right));
    assert Prepend(g, AsWritten, StaleRank, 8, [], Node(1, Right)) == [];
    ScanSnoc(g, AsWritten, StaleRank, 8, ns, 0);
    assert ns[..0] == [];
    assert StaleList()[..2] == [Node(1, Right), Node(2, Left)];
  }

  lemma StaleScan2()
    ensures Ranked(StaleScene().anchors, AsWritten, StaleRank)
    ensures Scan(StaleScene().anchors, AsWritten, StaleRank, 8, ScanNodes([2, 1])[..2]) == StaleList()[..3]
  {
    StaleScan1();
    assert ScanNodes([2, 1])[1] == Node(2, Top);
    StaleScanFresh(1, 2);
  }

  lemma StaleScan3()
    ensures Ranked(StaleScene().anchors, AsWritten, StaleRank)
    ensures Scan(StaleScene().anchors, AsWritten, StaleRank, 8, ScanNodes([2, 1])[..3]) == StaleList()[..4]
  {
    StaleScan2();
    assert ScanNodes([2, 1])[2] == Node(2, Right);
    StaleScanFresh(2, 3);
  }

  /** The first child of the list, window 2, brings window 1's right edge in ahead of it. */
  lemma StaleFirstChild()
    ensures Ranked(StaleScene().anchors, AsWritten, StaleRank)
    ensures Scan(StaleScene().anchors, AsWritten, StaleRank, 8, ScanNodes([2, 1])[..4]) == StaleList()[..5]
  {
    StaleScan3();
    assert ScanNodes([2, 1])[3] == Node(2, Bottom);
    StaleScanFresh(3, 4);
  }

  lemma StaleScan5()
    ensures Ranked(StaleScene().anchors, AsWritten, StaleRank)
    ensures Scan(StaleScene().anchors, AsWritten, StaleRank, 8, ScanNodes([2, 1])[..5]) == StaleList()[..6]
  {
    StaleFirstChild();
    assert ScanNodes([2, 1])[4] == Node(1, Left);
    assert Prereq(StaleScene().anchors, AsWritten, Node(1, Left)).None?;
    StaleScanFresh(4, 5);
  }

  lemma StaleScan6()
    ensures Ranked(StaleScene().anchors, AsWritten, StaleRank)
    ensures Scan(StaleScene().anchors, AsWritten, StaleRank, 8, ScanNodes([2, 1])[..6]) == StaleList()[..7]
  {
    StaleScan5();
    assert ScanNodes([2, 1])[5] == Node(1, Top);
    assert Prereq(StaleScene().anchors, AsWritten, Node(1, Top)).None?;
    StaleScanFresh(5, 6);
  }

  /** Window 1's right edge is already listed and is skipped. */
  lemma StaleScan7()
    ensures Ranked(StaleScene().anchors, AsWritten, StaleRank)
    ensures Scan(StaleScene().anchors, AsWritten, StaleRank, 8, ScanNodes([2, 1])[..7]) == StaleList()[..7]
  {
    StaleScan6();
    assert ScanNodes([2, 1])[6] == Node(1, Right);
    assert StaleList()[..7][0] == Node(1, Right);
    ScanSkip(StaleScene().anchors, AsWritten, StaleRank, 8, ScanNodes([2, 1]), 6, StaleList()[..7]);
  }

  /** The second child, window 1, finds its right edge already listed. */
  lemma StaleSecondChild()
    ensures Ranked(StaleScene().anchors, AsWritten, StaleRank)
    ensures Scan(StaleScene().anchors, AsWritten, StaleRank, 8, ScanNodes([2, 1])[..8]) == StaleList()
  {
    StaleScan7();
    assert ScanNodes([2, 1])[7] == Node(1, Bottom);
    assert Prereq(StaleScene().anchors, AsWritten, Node(1, Bottom)).None?;
    StaleScanFresh(7, 7);
    assert StaleList()[..8] == StaleList();
  }

  /** The order configure builds for children [2, 1], as the source writes it: window 1's
      right edge comes before its left edge. */
  lemma StaleOrder()
    ensures Ranked(StaleScene().anchors, AsWritten, StaleRank)
    ensures ConfigureOrder(StaleScene().anchors, AsWritten, StaleRank, [2, 1]) == StaleList()
  {
    StaleSecondChild();
    var ns := ScanNodes([2, 1]);
    assert ns[..8] == ns;
  }

  /** The pass is the replay of the order configure builds. */
  lemma PassIs<W>(s: Scene<W>, rule: Rule, rank: Node<W> -> nat, children: seq<W>, start: map<W, Box>,
                  order: seq<Node<W>>)
    requires Ranked(s.anchors, rule, rank) && Covers(s, start) && forall c | c in children :: c in s.anchors
    requires ConfigureOrder(s.anchors, rule, rank, children) == order
    ensures Covers(Written(s), start) && InScene(Written(s), order)
    ensures Pass(s, rule, rank, children, start) == Resolve(Written(s), start, order)
  {
    ConfigureWithin(s.anchors, rule, rank, children, s.anchors.Keys);
    WrittenCovers(s, start);
  }

  lemma StaleCovers()
    ensures Covers(StaleScene(), StaleStart()) && Covers(Written(StaleScene()), StaleStart())
  {
    var g := StaleScene().anchors;
    forall w, e | w in g && g[w].At(e).ToSibling?
      ensures g[w].At(e).reference in g
    {
      assert w == 1 || w == 2;
    }
    WrittenCovers(StaleScene(), StaleStart());
  }

  function Z(): Box { Box(0, 0, 0, 0) }

  /** The order configure builds for children [2, 1]. */
  function StaleList(): seq<Node<int>> {
    [Node(1, Right), Node(2, Left), Node(2, Top), Node(2, Right), Node(2, Bottom),
     Node(1, Left), Node(1, Top), Node(1, Bottom)]
  }

  /** The coordinates after each entry of the replay. */
  function Stage(k: nat): map<int, Box>
    requires k <= 8
  {
    if k == 0 then StaleStart()
    else if k == 1 then map[1 := Box(0, 0, 100, 0), 2 := Z()]
    else if k == 2 then map[1 := Box(0, 0, 100, 0), 2 := Box(102, 0, 0, 0)]
    else if k == 3 then map[1 := Box(0, 0, 100, 0), 2 := Box(102, 0, 0, 0)]
    else if k == 4 then map[1 := Box(0, 0, 100, 0), 2 := Box(102, 0, 152, 0)]
    else if k == 5 then map[1 := Box(0, 0, 100, 0), 2 := Box(102, 0, 152, 30)]
    else if k == 6 then map[1 := Box(1, 0, 100, 0), 2 := Box(102, 0, 152, 30)]
    else if k == 7 then map[1 := Box(1, 0, 100, 0), 2 := Box(102, 0, 152, 30)]
    else map[1 := Box(1, 0, 100, 30), 2 := Box(102, 0, 152, 30)]
  }

  lemma StaleStep0()
    ensures Covers(Written(StaleScene()), Stage(0))
    ensures Step(Written(StaleScene()), Stage(0), Node(1, Right)) == Stage(1)
  {
    StaleCovers();
    assert Written(StaleScene()).anchors[1] == Anchors(U, U, U, U);
  }

  lemma StaleStep1()
    ensures Covers(Written(StaleScene()), Stage(1))
    ensures Step(Written(StaleScene()), Stage(1), Node(2, Left)) == Stage(2)
  {
    StaleCovers();
    assert Written(StaleScene()).anchors[2] == Anchors(ToSibling(1, 4), U, U, U);
  }

  lemma StaleStep2()
    ensures Covers(Written(StaleScene()), Stage(2))
    ensures Step(Written(StaleScene()), Stage(2), Node(2, Top)) == Stage(3)
  {
    StaleCovers();
    assert Written(StaleScene()).anchors[2] == Anchors(ToSibling(1, 4), U, U, U);
  }

  lemma StaleStep3()
    ensures Covers(Written(StaleScene()), Stage(3))
    ensures Step(Written(StaleScene()), Stage(3), Node(2, Right)) == Stage(4)
  {
    StaleCovers();
    assert Written(StaleScene()).anchors[2] == Anchors(ToSibling(1, 4), U, U, U);
  }

  lemma StaleStep4()
    ensures Covers(Written(StaleScene()), Stage(4))
    ensures Step(Written(StaleScene()), Stage(4), Node(2, Bottom)) == Stage(5)
  {
    StaleCovers();
    assert Written(StaleScene()).anchors[2] == Anchors(ToSibling(1, 4), U, U, U);
  }

  lemma StaleStep5()
    ensures Covers(Written(StaleScene()), Stage(5))
    ensures Step(Written(StaleScene()), Stage(5), Node(1, Left)) == Stage(6)
  {
    StaleCovers();
    assert Written(StaleScene()).anchors[1] == Anchors(U, U, U, U);
  }

  lemma StaleStep6()
    ensures Covers(Written(StaleScene()), Stage(6))
    ensures Step(Written(StaleScene()), Stage(6), Node(1, Top)) == Stage(7)
  {
    StaleCovers();
    assert Written(StaleScene()).anchors[1] == Anchors(U, U, U, U);
  }

  lemma StaleStep7()
    ensures Covers(Written(StaleScene()), Stage(7))
    ensures Step(Written(StaleScene()), Stage(7), Node(1, Bottom)) == Stage(8)
  {
    StaleCovers();
    assert Written(StaleScene()).anchors[1] == Anchors(U, U, U, U);
  }

  /** Entry k of the replay takes Stage(k) to Stage(k + 1). */
  lemma StaleStepAt(k: nat)
    requires k < 8
    ensures Covers(Written(StaleScene()), Stage(k))
    ensures Step(Written(StaleScene()), Stage(k), StaleList()[k]) == Stage(k + 1)
  {
    if k == 0 { StaleStep0(); }
    else if k == 1 { StaleStep1(); }
    else if k == 2 { StaleStep2(); }
    else if k == 3 { StaleStep3(); }
    else if k == 4 { StaleStep4(); }
    else if k == 5 { StaleStep5(); }
    else if k == 6 { StaleStep6(); }
    else { StaleStep7(); }
  }

  /** The replay, entry by entry: after the first k entries the coordinates are Stage(k). */
  lemma {:induction false} StaleReplayUpTo(k: nat)
    requires k <= 8
    ensures Covers(Written(StaleScene()), StaleStart()) && InScene(Written(StaleScene()), StaleList())
    ensures Resolve(Written(StaleScene()), StaleStart(), StaleList()[..k]) == Stage(k)
  {
    StaleCovers();
    if k == 0 {
      assert StaleList()[..0] == [];
    } else {
      StaleReplayUpTo(k - 1);
      StaleStepAt(k - 1);
      ResolveFrom(Written(StaleScene()), StaleStart(), StaleList(), k - 1, Stage(k - 1), Stage(k));
    }
  }

  /** Replaying that order from zeroed coordinates leaves window 1 with left edge 1 (half the
      spacing) but right edge 100, computed from the left edge it had before. */
  lemma StaleReplay()
    ensures Ranked(StaleScene().anchors, AsWritten, StaleRank) && Covers(StaleScene(), StaleStart())
    ensures Pass(StaleScene(), AsWritten, StaleRank, [2, 1], StaleStart())[1] == Box(1, 0, 100, 30)
  {
    StaleOrder();
    StaleCovers();
    PassIs(StaleScene(), AsWritten, StaleRank, [2, 1], StaleStart(), StaleList());
    StaleReplayed();
  }

  lemma StaleReplayed()
    ensures Covers(Written(StaleScene()), StaleStart()) && InScene(Written(StaleScene()), StaleList())
    ensures Resolve(Written(StaleScene()), StaleStart(), StaleList()) == Stage(8)
  {
    StaleReplayUpTo(8);
    assert StaleList()[..8] == StaleList();
  }

  /** As written, window 1 is placed 99 wide although its width is 100, and its right edge
      does not satisfy its own formula (left edge plus width) on the coordinates the pass
      leaves behind. */
  lemma StaleTrailingEdge()
    ensures Ranked(StaleScene().anchors, AsWritten, StaleRank) && Covers(StaleScene(), StaleStart())
    ensures Covers(Written(StaleScene()), StaleStart())
    ensures var final := Pass(StaleScene(), AsWritten, StaleRank, [2, 1], StaleStart());
      && StaleScene().sizes[1].width == 100
      && Place(StaleScene().cfg, final[1]).width == 99
      && Covers(Written(StaleScene()), final)
      && !Settled(Written(StaleScene()), StaleStart(), final, Node(1, Right))
  {
    StaleReplay();
    StaleCovers();
    assert Written(StaleScene()).anchors[1] == Anchors(U, U, U, U);
  }

  function CorrectedRank(n: Node<int>): nat {
    match n
    case Node(1, e) => if e.Trailing() then 1 else 0
    case Node(_, Left) => 2
    case Node(_, Right) => 3
    case Node(_, Top) => 0
    case Node(_, Bottom) => 1
  }

  /** With the corrected rule, the same scene keeps window 1 at its width of 100. */
  lemma StaleCorrected()
    ensures Ranked(StaleScene().anchors, TrailingNeedsLeading, CorrectedRank) && Covers(StaleScene(), StaleStart())
    ensures Place(StaleScene().cfg, Pass(StaleScene(), TrailingNeedsLeading, CorrectedRank, [2, 1], StaleStart())[1]).width == 100
  {
    var g := StaleScene().anchors;
    forall w, e | w in g && Prereq(g, TrailingNeedsLeading, Node(w, e)).Some?
      ensures CorrectedRank(Prereq(g, TrailingNeedsLeading, Node(w, e)).value) < CorrectedRank(Node(w, e))
    {
      assert w == 1 || w == 2;
    }
    StaleCovers();
    assert ReferencesWithin(g, set c | c in [2, 1]) by {
      forall w, e | w in (set c | c in [2, 1]) && w in g && g[w].At(e).ToSibling?
        ensures g[w].At(e).reference in (set c | c in [2, 1])
      {
        assert w == 1 || w == 2;
        assert 1 in [2, 1];
      }
    }
    CorrectedKeepsSize(StaleScene(), CorrectedRank, [2, 1], StaleStart(), 1);
  }
}
