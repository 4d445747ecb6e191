/*
 * The per-window event registry of src/window.c, stated on values: the event table of a
 * window seen as the list of its listeners, each with the registrations made for one
 * message, in registration order.
 *
 * The imperative table (parallel, zero-terminated arrays that grow in chunks) is the
 * Window class in widgets.dfy; it is proved to behave as these functions say.
 */
module CallbackQueue {

  /** A function or data pointer; 0 stands for NULL. */
  type Handle = nat

  /** WM_NULL, WM_DESTROY and WM_NCCREATE. */
  const WM_NULL: nat := 0
  const WM_DESTROY: nat := 2
  const WM_NCCREATE: nat := 0x81

  /** The value a callback that sets `handled` makes the window procedure return
      (src/window.h:45). */
  const STOP_PROPAGATION: int := 8000

  /** One call to add_listener: the callback, the data bound to it and the function that
      releases that data. */
  datatype Registration = Registration(callback: Handle, boundData: Handle, releaseData: Handle)

  /** One used entry of the event table. */
  datatype Listener = Listener(eventID: nat, regs: seq<Registration>)

  /** The release call WM_DESTROY makes: the release function and the data it is given. */
  datatype Release = Release(releaseData: Handle, boundData: Handle)

  /** The event table keeps at most one entry per message, and no entry for WM_NULL
      (which terminates the table). */
  predicate WellFormed(ls: seq<Listener>) {
    && (forall i | 0 <= i < |ls| :: ls[i].eventID != WM_NULL)
    && (forall i, j | 0 <= i < j < |ls| :: ls[i].eventID != ls[j].eventID)
  }

  /** The index of the first entry for `id`, or |ls| when there is none. */
  function Find(ls: seq<Listener>, id: nat): (i: nat)
    ensures i <= |ls|
    ensures i < |ls| ==> ls[i].eventID == id
    ensures forall j | 0 <= j < i :: ls[j].eventID != id
  {
    if ls == [] then 0
    else if ls[0].eventID == id then 0
    else 1 + Find(ls[1..], id)
  }

  /** The registrations made for `id`, in order; none when the table has no entry. */
  function Lookup(ls: seq<Listener>, id: nat): seq<Registration> {
    var i := Find(ls, id);
    if i < |ls| then ls[i].regs else []
  }

  /** add_listener: find the entry for `id` or start a new one at the end, then append. */
  function Register(ls: seq<Listener>, id: nat, reg: Registration): seq<Listener> {
    var i := Find(ls, id);
    if i < |ls| then ls[i := ls[i].(regs := ls[i].regs + [reg])]
    else ls + [Listener(id, [reg])]
  }

  /** The registrations a walk up to the first NULL callback reaches. */
  function Walk(regs: seq<Registration>): (r: seq<Registration>)
    ensures |r| <= |regs|
    ensures r == regs[..|r|]
    ensures forall k | 0 <= k < |r| :: r[k].callback != 0
    ensures |r| < |regs| ==> regs[|r|].callback == 0
  {
    if regs == [] then []
    else if regs[0].callback == 0 then []
    else [regs[0]] + Walk(regs[1..])
  }

  /** The callbacks a message reaches: only the first entry for it is walked. */
  function Dispatched(ls: seq<Listener>, msg: nat): seq<Registration> {
    if msg == WM_NULL then [] else Walk(Lookup(ls, msg))
  }

  /** What the window procedure returns after invoking `invoked`, given which callbacks set
      `handled`: the outcome of the last one, 0 when none ran. */
  function Outcome(invoked: seq<Registration>, handles: Registration -> bool): int {
    if invoked == [] then 0
    else if handles(invoked[|invoked| - 1]) then STOP_PROPAGATION
    else 0
  }

  /** The release calls WM_DESTROY makes for one entry. */
  function ReleasesOf(regs: seq<Registration>): seq<Release> {
    if regs == [] then []
    else
      var rest := ReleasesOf(regs[1..]);
      if regs[0].releaseData != 0 then [Release(regs[0].releaseData, regs[0].boundData)] + rest else rest
  }

  /** The release calls WM_DESTROY makes, entry by entry. */
  function Releases(ls: seq<Listener>): seq<Release> {
    if ls == [] then []
    else ReleasesOf(Walk(ls[0].regs)) + Releases(ls[1..])
  }

  /** Every registration whose callback is set. */
  predicate Live(regs: seq<Registration>) {
    forall k | 0 <= k < |regs| :: regs[k].callback != 0
  }

  // ---------------------------------------------------------------------------------------
  // Lemmas

  lemma {:induction false} FindAbsent(ls: seq<Listener>, id: nat)
    requires forall i | 0 <= i < |ls| :: ls[i].eventID != id
    ensures Find(ls, id) == |ls|
  {
    if ls != [] {
      FindAbsent(ls[1..], id);
    }
  }

  lemma FindFirst(ls: seq<Listener>, id: nat, i: nat)
    requires WellFormed(ls) && i < |ls| && ls[i].eventID == id
    ensures Find(ls, id) == i
  {
  }

  /** Registering appends to the registrations for `id` and changes no other message's. */
  lemma RegisterAppends(ls: seq<Listener>, id: nat, reg: Registration, other: nat)
    requires WellFormed(ls) && id != WM_NULL
    ensures Lookup(Register(ls, id, reg), id) == Lookup(ls, id) + [reg]
    ensures other != id ==> Lookup(Register(ls, id, reg), other) == Lookup(ls, other)
    ensures |Register(ls, id, reg)| == if Find(ls, id) < |ls| then |ls| else |ls| + 1
  {
    var r := Register(ls, id, reg);
    var i := Find(ls, id);
    RegisterWellFormed(ls, id, reg);
    if i < |ls| {
      FindFirst(r, id, i);
      if other != id {
        var k := Find(ls, other);
        if k < |ls| {
          FindFirst(r, other, k);
        } else {
          FindAbsent(r, other);
        }
      }
    } else {
      FindFirst(r, id, |ls|);
      if other != id {
        var k := Find(ls, other);
        if k < |ls| {
          FindFirst(r, other, k);
        } else {
          FindAbsent(r, other);
        }
      }
    }
  }

  /** Registering keeps one entry per message and no WM_NULL entry. */
  lemma RegisterWellFormed(ls: seq<Listener>, id: nat, reg: Registration)
    requires WellFormed(ls) && id != WM_NULL
    ensures WellFormed(Register(ls, id, reg))
  {
    var i := Find(ls, id);
    if i == |ls| {
      var r := Register(ls, id, reg);
      forall a, b | 0 <= a < b < |r|
        ensures r[a].eventID != r[b].eventID
      {
        if b == |ls| {
          assert r[a] == ls[a];
        }
      }
    }
  }

  lemma {:induction false} WalkLive(regs: seq<Registration>)
    requires Live(regs)
    ensures Walk(regs) == regs
  {
    if regs != [] {
      WalkLive(regs[1..]);
      assert [regs[0]] + regs[1..] == regs;
    }
  }

  /** Callbacks are invoked in registration order: a message whose registrations all have a
      callback reaches every one of them, the newest last. */
  lemma DispatchAfterRegister(ls: seq<Listener>, id: nat, reg: Registration)
    requires WellFormed(ls) && id != WM_NULL
    requires Live(Lookup(ls, id)) && reg.callback != 0
    ensures Dispatched(Register(ls, id, reg), id) == Lookup(ls, id) + [reg]
  {
    RegisterAppends(ls, id, reg, id);
    WalkLive(Lookup(ls, id) + [reg]);
  }

  /** A release call is made for a registration exactly when its release function is set,
      and each is made with the registration's own data. */
  lemma {:induction false} ReleasesOfMembers(regs: seq<Registration>, r: Release)
    ensures r in ReleasesOf(regs) <==>
      exists k | 0 <= k < |regs| :: regs[k].releaseData != 0 && r == Release(regs[k].releaseData, regs[k].boundData)
  {
    if regs != [] {
      ReleasesOfMembers(regs[1..], r);
      if exists k | 0 <= k < |regs| :: regs[k].releaseData != 0 && r == Release(regs[k].releaseData, regs[k].boundData) {
        var k :| 0 <= k < |regs| && regs[k].releaseData != 0 && r == Release(regs[k].releaseData, regs[k].boundData);
        if k > 0 {
          assert regs[1..][k - 1] == regs[k];
        }
      }
      if r in ReleasesOf(regs[1..]) {
        var k :| 0 <= k < |regs[1..]| && regs[1..][k].releaseData != 0 && r == Release(regs[1..][k].releaseData, regs[1..][k].boundData);
        assert regs[k + 1] == regs[1..][k];
      }
    }
  }
}
