/*
 * The container of src/container.c: a window that owns a list of child windows and an
 * optional layout. The child list is a NULL-terminated array grown in chunks of
 * INITIAL_LIST_SIZE; adding a child to a container that has its native window asks the
 * layout to configure itself over the new list.
 */
module Container {
  import opened Widgets
  import opened EdgeOrder
  import opened Layout

  // =========================================================================================
  // The child list as a value

  /** A well formed child list: `length` children in the first slots, NULL in all the others,
      at least one NULL after the last child, and a whole number of chunks. */
  ghost predicate ListOk(items: seq<Window?>, length: nat) {
    && length < |items| && |items| % ListChunk == 0
    && (forall i | 0 <= i < length :: items[i] != null)
    && (forall i | length <= i < |items| :: items[i] == null)
  }

  /** n zeroed slots, as memset leaves them. */
  function Nulls(n: nat): (r: seq<Window?>)
    ensures |r| == n && forall i | 0 <= i < n :: r[i] == null
  {
    seq(n, _ => null)
  }

  /** The children the first `length` slots hold, in order. */
  function ChildrenOf(items: seq<Window?>, length: nat): (r: seq<Window>)
    requires length <= |items| && forall i | 0 <= i < length :: items[i] != null
    ensures |r| == length && forall i | 0 <= i < length :: r[i] == items[i]
  {
    if length == 0 then [] else ChildrenOf(items, length - 1) + [items[length - 1]]
  }

  /** The growth check of win32_container_add_child: when the slot after the new child would
      be the last one, the list is reallocated to (length + 1) + 16 slots and the new ones
      zeroed. */
  function Grown(items: seq<Window?>, length: nat): seq<Window?>
    requires length < |items|
  {
    if (length + 1) % ListChunk == 0 then items[..length + 1] + Nulls(ListChunk) else items
  }

  /** Growing then storing the new child in slot `length` keeps the list well formed, with a
      NULL still after the last child, and appends the child to the children. */
  lemma Appended(items: seq<Window?>, length: nat, child: Window)
    requires ListOk(items, length)
    ensures length < |Grown(items, length)|
    ensures ListOk(Grown(items, length)[length := child], length + 1)
    ensures ChildrenOf(Grown(items, length)[length := child], length + 1) == ChildrenOf(items, length) + [child]
  {
    var g := Grown(items, length);
    if (length + 1) % ListChunk != 0 {
      assert length + 1 != |items|;
    }
    var a := g[length := child];
    assert forall i | 0 <= i < length :: a[i] == items[i];
    var r := ChildrenOf(a, length + 1);
    assert ChildrenOf(a, length) == ChildrenOf(items, length);
  }

  /** The reference count a list of windows holds on w: one per slot that holds it. */
  function Held(ws: seq<Window>, w: Window): nat {
    if ws == [] then 0 else Held(ws[..|ws| - 1], w) + (if ws[|ws| - 1] == w then 1 else 0)
  }

  /** One more slot holds one more reference on its own window and none on the others. */
  lemma HeldNext(ws: seq<Window>, i: nat)
    requires i < |ws|
    ensures Held(ws[..i + 1], ws[i]) == Held(ws[..i], ws[i]) + 1
    ensures forall w | w != ws[i] :: Held(ws[..i + 1], w) == Held(ws[..i], w)
  {
    assert ws[..i + 1][..i] == ws[..i];
  }

  /** A list holds as many references on w as it has copies of it. */
  lemma {:induction false} HeldCounts(ws: seq<Window>, w: Window)
    ensures Held(ws, w) == multiset(ws)[w]
  {
    if ws != [] {
      HeldCounts(ws[..|ws| - 1], w);
      assert ws == ws[..|ws| - 1] + [ws[|ws| - 1]];
    }
  }

  /** Only the reference count of a window changed. */
  twostate predicate Recounted(w: Window)
    reads w
  {
    && w.Bounds() == old(w.Bounds()) && w.hasHwnd == old(w.hasHwnd) && w.positioning == old(w.positioning)
    && w.events == old(w.events) && w.eventCount == old(w.eventCount)
  }

  /** Changing only windows' fields other than `positioning` leaves configure's precondition
      as it was. */
  twostate lemma StillConfigurable(sc: Scope, new rule: Rule, new rank: Node<Window> -> nat)
    requires old(Closed(sc) && Configurable(sc, GraphOf(sc), rule, rank)) && unchanged(sc.data) && unchanged(sc.anchors)
    requires forall w | w in sc.windows :: w.positioning == old(w.positioning)
    ensures Closed(sc) && GraphOf(sc) == old(GraphOf(sc)) && Configurable(sc, GraphOf(sc), rule, rank)
  {
    WindowsMoved(sc);
  }

  // =========================================================================================
  // The container object

  class Container {
    /** The window a container is: Win32Container extends Win32Window. */
    const window: Window
    /** childWindows.items; its length is the allocated capacity. */
    var items: seq<Window?>
    /** childWindows.length */
    var length: nat
    var layout: RelativeLayout?

    ghost predicate Valid()
      reads this
    {
      ListOk(items, length)
    }

    /** The children, in the order they were added. */
    function Children(): (r: seq<Window>)
      requires Valid()
      reads this
      ensures |r| == length
    {
      ChildrenOf(items, length)
    }

    /** The windows the container holds a reference on. */
    ghost function ChildSet(): set<Window>
      requires Valid()
      reads this
    {
      set c | c in Children()
    }

    /** win32_container_construct: a new window with an empty child list of one chunk and no
        layout. */
    constructor ()
      ensures fresh(window) && window.refCount == 1 && !window.hasHwnd
      ensures Valid() && Children() == [] && |items| == ListChunk && layout == null
    {
      window := new Window();
      items := Nulls(ListChunk);
      length := 0;
      layout := null;
    }

    /** win32_container_add_child: the list grows if needed, a new reference on the child is
        stored after the others, and when the container has its native window and a layout,
        the layout configures itself over the new list. With `rule` AsWritten this is the
        source's configure; TrailingNeedsLeading is the leading-edge correction. */
    method AddChild(child: Window, rule: Rule, ghost sc: Scope, ghost rank: Node<Window> -> nat)
      requires Valid()
      requires window.hasHwnd && layout != null ==>
        (forall c | c in Children() + [child] :: c in sc.windows)
        && Closed(sc) && Configurable(sc, GraphOf(sc), rule, rank)
      modifies this, child, layout, sc.anchors`edge
      ensures Valid() && Children() == old(Children()) + [child] && layout == old(layout)
      ensures child.refCount == old(child.refCount) + 1 && Recounted(child)
      ensures old(window.hasHwnd) && layout != null ==>
        && layout.Configuring(sc, old(GraphOf(sc)), rule, rank, ConfigureOrder(old(GraphOf(sc)), rule, rank, Children()))
        && fresh(layout.items) && layout.items.Length == 4 * |Children()|
        && layout.Cfg() == old(layout.Cfg()) && layout.refCount == old(layout.refCount)
      ensures !(old(window.hasHwnd) && layout != null) ==> unchanged(sc.anchors) && (layout != null ==> unchanged(layout))
    {
      var configure := window.hasHwnd && layout != null;
      Push(child);
      if configure {
        StillConfigurable(sc, rule, rank);
        ConfigureLayout(rule, sc, rank, old(GraphOf(sc)));
      }
    }

    /** The list part of win32_container_add_child: grow if needed, then store a new reference
        on the child in slot `length` and count it. */
    method Push(child: Window)
      requires Valid()
      modifies this, child
      ensures Valid() && Children() == old(Children()) + [child] && layout == old(layout)
      ensures child.refCount == old(child.refCount) + 1 && Recounted(child)
    {
      Appended(items, length, child);
      var grown := Grown(items, length);
      var stored := child.Ref();
      items := grown[length := stored];
      length := length + 1;
    }

    /** `self->layout->configure(self)`: the layout configures itself over the children. */
    method ConfigureLayout(rule: Rule, ghost sc: Scope, ghost rank: Node<Window> -> nat, ghost g0: Graph<Window>)
      requires Valid() && layout != null && forall c | c in Children() :: c in sc.windows
      requires Closed(sc) && GraphOf(sc) == g0 && Configurable(sc, g0, rule, rank)
      modifies layout, sc.anchors`edge
      ensures layout.Configuring(sc, g0, rule, rank, ConfigureOrder(g0, rule, rank, Children()))
      ensures fresh(layout.items) && layout.items.Length == 4 * |Children()|
      ensures layout.Cfg() == old(layout.Cfg()) && layout.refCount == old(layout.refCount)
    {
      layout.Configure(Children(), rule, sc, rank);
    }

    /** win32_container_get_children: a new list of the `length` children in order, each with
        one more reference, and its length. */
    method GetChildren() returns (children: seq<Window>, count: nat)
      requires Valid()
      modifies ChildSet()
      ensures children == Children() && count == |children|
      ensures forall w | w in children :: w.refCount == old(w.refCount) + Held(children, w) && Recounted(w)
    {
      ghost var all := Children();
      children := [];
      var i := 0;
      while i < length
        invariant i <= length && children == all[..i]
        invariant forall w | w in all :: w.refCount == old(w.refCount) + Held(all[..i], w)
        invariant forall w | w in all :: Recounted(w)
      {
        var child := items[i];
        assert child == all[i];
        HeldNext(all, i);
        var r := child.Ref();
        children := children + [r];
        assert all[..i + 1] == all[..i] + [child];
        i := i + 1;
      }
      assert all[..i] == all;
      count := length;
    }

    /** win32_container_set_layout: setting the layout it already has changes nothing;
        otherwise the old layout, if any, loses a reference, the new one gains one and is
        stored. */
    method SetLayout(l: RelativeLayout)
      modifies this, layout, l
      ensures GetLayout() == l && items == old(items) && length == old(length)
      ensures old(layout) == l ==> l.refCount == old(l.refCount)
      ensures old(layout) != l ==> l.refCount == old(l.refCount) + 1
      ensures old(layout) != l && old(layout) != null ==> old(layout).refCount == old(layout.refCount) - 1
      ensures l.Cfg() == old(l.Cfg()) && l.items == old(l.items)
      ensures old(layout) != null ==> old(layout).Cfg() == old(layout.Cfg()) && old(layout).items == old(layout.items)
    {
      if layout != null {
        if layout == l {
          return;
        }
        var freed := layout.Unref();
      }
      var self := l.Ref();
      layout := l;
    }

    /** win32_container_get_layout */
    function GetLayout(): RelativeLayout?
      reads this
    {
      layout
    }

    /** win32_container_finalize: each of the `length` children loses one reference, in
        order. */
    method Finalize()
      requires Valid()
      modifies ChildSet()
      ensures forall w | w in old(Children()) :: w.refCount == old(w.refCount) - Held(old(Children()), w) && Recounted(w)
    {
      ghost var all := Children();
      var i := 0;
      while i < length
        invariant i <= length
        invariant forall w | w in all :: w.refCount == old(w.refCount) - Held(all[..i], w)
        invariant forall w | w in all :: Recounted(w)
      {
        var child := items[i];
        assert child == all[i];
        HeldNext(all, i);
        var last := child.Unref();
        i := i + 1;
      }
      assert all[..i] == all;
    }
  }
}
