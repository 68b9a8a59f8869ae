/** The timers of src/events_driver.hpp: a table of file descriptors over the heap of expiry times.  Locks and
    epoll_ctl are parameters that say whether the call succeeds; the current time is a parameter. */
module EventsDrivers {
  import opened Options
  import opened Heaps

  datatype EventTimeo = EventTimeo(expireTimeMs: int, fd: int)

  /** signTimeo is the heap handle of the descriptor's timer, or null (0 in the source). */
  datatype EventCtx<C> = EventCtx(context: Option<C>, signTimeo: Node?<EventTimeo>)

  datatype Op = AddEvent | ModEvent

  type Contents = map<Node<EventTimeo>, EventTimeo>

  // ----- Agreement of table, heap and the map of expiry times -----

  /** If the entry of fd names a handle, that is live and holds the timer of fd; else fd has no timer. */
  ghost predicate EntryOk<C>(table: seq<EventCtx<C>>, m: Contents, timers: map<int, int>, fd: int) {
    if 0 <= fd < |table| && table[fd].signTimeo != null then
      var h := table[fd].signTimeo;
      h in m && m[h].fd == fd && fd in timers && timers[fd] == m[h].expireTimeMs
    else
      fd !in timers
  }

  /** A live handle is named by the entry of its descriptor. */
  ghost predicate HandleOk<C>(table: seq<EventCtx<C>>, m: Contents, h: Node<EventTimeo>)
    requires h in m
  {
    0 <= m[h].fd < |table| && table[m[h].fd].signTimeo == h
  }

  /** Entries with a timer and live handles are in bijection; timers are the expiry times by descriptor. */
  ghost predicate Agree<C>(table: seq<EventCtx<C>>, m: Contents, timers: map<int, int>) {
    && (forall fd {:trigger EntryOk(table, m, timers, fd)} :: EntryOk(table, m, timers, fd))
    && (forall h {:trigger HandleOk(table, m, h)} :: h in m ==> HandleOk(table, m, h))
  }

  /** A new handle for a descriptor keeps the agreement exactly if the descriptor had no timer. */
  lemma AddAgreesIff<C>(table: seq<EventCtx<C>>, m: Contents, timers: map<int, int>, fd: nat, h: Node<EventTimeo>,
        timeo: EventTimeo)
    requires Agree(table, m, timers) && fd < |table| && h !in m && timeo.fd == fd
    ensures var t, n := table[fd := table[fd].(signTimeo := h)], m[h := timeo];
            if table[fd].signTimeo == null then Agree(t, n, timers[fd := timeo.expireTimeMs])
            else forall any :: !Agree(t, n, any)
  {
    var t, n, s := table[fd := table[fd].(signTimeo := h)], m[h := timeo], timers[fd := timeo.expireTimeMs];
    assert EntryOk(table, m, timers, fd);
    if table[fd].signTimeo == null {
      forall g ensures EntryOk(t, n, s, g) { assert EntryOk(table, m, timers, g); }
      forall x | x in n ensures HandleOk(t, n, x) { assert x != h ==> HandleOk(table, m, x); }
    } else {
      assert !HandleOk(t, n, table[fd].signTimeo);
    }
  }

  /** Forgetting the handle of a descriptor keeps the agreement exactly if there was none. */
  lemma ForgetAgreesIff<C>(table: seq<EventCtx<C>>, m: Contents, timers: map<int, int>, fd: nat)
    requires Agree(table, m, timers) && fd < |table|
    ensures var t := table[fd := table[fd].(signTimeo := null)];
            if table[fd].signTimeo == null then Agree(t, m, timers) else forall any :: !Agree(t, m, any)
  {
    assert EntryOk(table, m, timers, fd);
    var t := table[fd := table[fd].(signTimeo := null)];
    if table[fd].signTimeo == null {
      assert t == table;
    } else {
      assert !HandleOk(t, m, table[fd].signTimeo);
    }
  }

  /** Lines 176-179 on table and heap contents. */
  ghost function Cancelled<C>(table: seq<EventCtx<C>>, m: Contents, fd: nat): (seq<EventCtx<C>>, Contents)
    requires fd < |table|
  {
    if table[fd].signTimeo == null then (table, m)
    else (table[fd := table[fd].(signTimeo := null)], m - {table[fd].signTimeo})
  }

  /** The same for several descriptors, one after the other. */
  ghost function CancelledAll<C>(table: seq<EventCtx<C>>, m: Contents, fds: seq<nat>): (seq<EventCtx<C>>, Contents)
    requires forall i :: 0 <= i < |fds| ==> fds[i] < |table|
    decreases |fds|
  {
    if fds == [] then (table, m)
    else var (t, n) := Cancelled(table, m, fds[0]); CancelledAll(t, n, fds[1..])
  }

  /** A live handle that no entry names is never taken out, whatever descriptors are deleted. */
  lemma {:induction false} OrphanStays<C>(table: seq<EventCtx<C>>, m: Contents, o: Node<EventTimeo>, fds: seq<nat>)
    requires o in m && forall fd :: 0 <= fd < |table| ==> table[fd].signTimeo != o
    requires forall i :: 0 <= i < |fds| ==> fds[i] < |table|
    ensures var (t, n) := CancelledAll(table, m, fds); o in n && n[o] == m[o]
    decreases |fds|
  {
    if fds != [] {
      var (t, n) := Cancelled(table, m, fds[0]);
      OrphanStays(t, n, o, fds[1..]);
    }
  }

  /** An addition for a descriptor with a live timer leaves the old timer in the heap for good: however many
      rounds RemoveTimeouts makes, a timer with that expiry time is still there, so it does not end once that time is
      past. */
  lemma AddOverLiveTimer<C>(table: seq<EventCtx<C>>, m: Contents, timers: map<int, int>, fd: nat,
                            h: Node<EventTimeo>, timeo: EventTimeo, fds: seq<nat>)
    requires Agree(table, m, timers) && fd in timers && fd < |table| && h !in m && timeo.fd == fd
    requires forall i :: 0 <= i < |fds| ==> fds[i] < |table|
    ensures var (t, n) := CancelledAll(table[fd := table[fd].(signTimeo := h)], m[h := timeo], fds);
            exists o :: o in n && n[o].expireTimeMs == timers[fd]
  {
    assert EntryOk(table, m, timers, fd);
    var o := table[fd].signTimeo;
    var t := table[fd := table[fd].(signTimeo := h)];
    forall g | 0 <= g < |t| ensures t[g].signTimeo != o {
      assert EntryOk(table, m, timers, g);
    }
    OrphanStays(t, m[h := timeo], o, fds);
  }

  /** Removing the timer of a descriptor from heap and table. */
  /** With a node in the heap that is nobody's, table and heap agree on no assignment of timers. */
  lemma OrphanDisagrees<C>(table: seq<EventCtx<C>>, m: Contents, o: Node<EventTimeo>)
    requires o in m && forall g :: 0 <= g < |table| ==> table[g].signTimeo != o
    ensures forall any :: !Agree(table, m, any)
  {
    assert !HandleOk(table, m, o);
  }

  /** In agreement, no other descriptor has the handle of fd. */
  lemma OnlyHandle<C>(table: seq<EventCtx<C>>, m: Contents, timers: map<int, int>, fd: nat)
    requires Agree(table, m, timers) && fd < |table| && table[fd].signTimeo != null
    ensures table[fd].signTimeo in m
    ensures forall g :: 0 <= g < |table| && g != fd ==> table[g].signTimeo != table[fd].signTimeo
  {
    assert EntryOk(table, m, timers, fd);
    forall g | 0 <= g < |table| && g != fd ensures table[g].signTimeo != table[fd].signTimeo {
      assert EntryOk(table, m, timers, g);
    }
  }

  lemma CancelAgrees<C>(table: seq<EventCtx<C>>, m: Contents, timers: map<int, int>, fd: nat)
    requires Agree(table, m, timers) && fd < |table|
    ensures var (t, n) := Cancelled(table, m, fd); Agree(t, n, timers - {fd})
  {
    var (t, n) := Cancelled(table, m, fd);
    var s := timers - {fd};
    forall g ensures EntryOk(t, n, s, g) {
      assert EntryOk(table, m, timers, g) && EntryOk(table, m, timers, fd);
    }
    forall x | x in n ensures HandleOk(t, n, x) { assert HandleOk(table, m, x); }
  }

  /** Changing the timer of a descriptor. */
  lemma UpdateAgrees<C>(table: seq<EventCtx<C>>, m: Contents, timers: map<int, int>, fd: nat, timeo: EventTimeo)
    requires Agree(table, m, timers) && fd < |table| && table[fd].signTimeo != null && timeo.fd == fd
    ensures Agree(table, m[table[fd].signTimeo := timeo], timers[fd := timeo.expireTimeMs])
  {
    var n, s := m[table[fd].signTimeo := timeo], timers[fd := timeo.expireTimeMs];
    assert EntryOk(table, m, timers, fd);
    forall g ensures EntryOk(table, n, s, g) { assert EntryOk(table, m, timers, g); }
    forall x | x in n ensures HandleOk(table, n, x) { assert HandleOk(table, m, x); }
  }

  /** Contexts do not matter for the timers, nor do empty entries at the end. */
  lemma SameTimers<C>(table: seq<EventCtx<C>>, t: seq<EventCtx<C>>, m: Contents, timers: map<int, int>)
    requires Agree(table, m, timers) && |table| <= |t|
    requires forall fd :: 0 <= fd < |t| ==> t[fd].signTimeo == if fd < |table| then table[fd].signTimeo else null
    ensures Agree(t, m, timers)
  {
    forall g ensures EntryOk(t, m, timers, g) { assert EntryOk(table, m, timers, g); }
    forall x | x in m ensures HandleOk(t, m, x) { assert HandleOk(table, m, x); }
  }

  // ----- Timeouts -----

  /** The contexts of the given descriptors, those that have one. */
  function ContextsOf<C>(table: seq<EventCtx<C>>, fds: seq<int>): seq<C>
    requires forall i :: 0 <= i < |fds| ==> 0 <= fds[i] < |table|
  {
    if fds == [] then []
    else
      var n := |fds| - 1;
      ContextsOf(table, fds[..n])
      + match table[fds[n]].context { case None => [] case Some(c) => [c] }
  }

  /** The indices picks are those below n whose descriptors have a context, in their order; cs are these contexts. */
  ghost predicate Picked<C>(table: seq<EventCtx<C>>, fds: seq<int>, n: nat, picks: seq<nat>, cs: seq<C>)
    requires n <= |fds| && forall i :: 0 <= i < |fds| ==> 0 <= fds[i] < |table|
  {
    && |cs| == |picks|
    && (forall k :: 0 <= k < |picks| ==> picks[k] < n && table[fds[picks[k]]].context == Some(cs[k]))
    && (forall j, k :: 0 <= j < k < |picks| ==> picks[j] < picks[k])
    && (forall i: nat :: i < n && table[fds[i]].context.Some? ==> i in picks)
  }

  /** The contexts handed out are those of the descriptors that have one, one each, in their order. */
  lemma ContextsPicked<C>(table: seq<EventCtx<C>>, fds: seq<int>) returns (picks: seq<nat>)
    requires forall i :: 0 <= i < |fds| ==> 0 <= fds[i] < |table|
    ensures Picked(table, fds, |fds|, picks, ContextsOf(table, fds))
  {
    picks := PickedUpto(table, fds, |fds|);
    assert fds[..|fds|] == fds;
  }

  lemma {:induction false} PickedUpto<C>(table: seq<EventCtx<C>>, fds: seq<int>, n: nat) returns (picks: seq<nat>)
    requires n <= |fds| && forall i :: 0 <= i < |fds| ==> 0 <= fds[i] < |table|
    ensures Picked(table, fds, n, picks, ContextsOf(table, fds[..n]))
  {
    picks := [];
    if n > 0 {
      picks := PickedUpto(table, fds, n - 1);
      assert fds[..n][..n - 1] == fds[..n - 1];
      if table[fds[n - 1]].context.Some? { picks := picks + [n - 1]; }
    }
  }

  /** fds lists exactly the timers that expire before now, each once, in order of expiry. */
  ghost predicate ExpiredInOrder(timers: map<int, int>, now: int, fds: seq<int>) {
    && (forall i :: 0 <= i < |fds| ==> fds[i] in timers && timers[fds[i]] < now)
    && (forall fd :: fd in timers && timers[fd] < now ==> fd in fds)
    && (forall i, j :: 0 <= i < j < |fds| ==> fds[i] != fds[j] && timers[fds[i]] <= timers[fds[j]])
  }

  function Elements(fds: seq<int>): set<int> { set fd | fd in fds }

  /** The i-th descriptor taken: its timer had expired, later than those taken before and before those left. */
  ghost predicate TakenAt(before: map<int, int>, now: int, fds: seq<int>, left: map<int, int>, i: nat)
    requires i < |fds|
  {
    && fds[i] in before && before[fds[i]] < now
    && (forall j :: 0 <= j < i ==> fds[j] != fds[i] && fds[j] in before && before[fds[j]] <= before[fds[i]])
    && (forall fd :: fd in left ==> before[fds[i]] <= left[fd])
  }

  /** The timers left after taking some of those before, earliest first. */
  ghost predicate Taken(before: map<int, int>, now: int, fds: seq<int>, left: map<int, int>) {
    && left == before - Elements(fds)
    && (forall i: nat {:trigger TakenAt(before, now, fds, left, i)} :: i < |fds| ==> TakenAt(before, now, fds, left, i))
  }

  /** Taking one more, which none of those left precedes. */
  lemma TakeOne(before: map<int, int>, now: int, fds: seq<int>, left: map<int, int>, fd: int)
    requires Taken(before, now, fds, left) && fd in left && left[fd] < now
    requires forall g :: g in left ==> left[fd] <= left[g]
    ensures Taken(before, now, fds + [fd], left - {fd}) && |left - {fd}| < |left| && fd !in fds
  {
    var more := fds + [fd];
    assert Elements(more) == Elements(fds) + {fd};
    assert fd !in Elements(fds);
    assert left.Keys == (left - {fd}).Keys + {fd};
    forall i: nat | i < |more| ensures TakenAt(before, now, more, left - {fd}, i) {
      if i < |fds| { assert TakenAt(before, now, fds, left, i); }
      forall j | 0 <= j < i ensures more[j] != more[i] && more[j] in before && before[more[j]] <= before[more[i]] {
        assert TakenAt(before, now, fds, left, j);
      }
    }
  }

  lemma AllTaken(before: map<int, int>, now: int, fds: seq<int>, left: map<int, int>)
    requires Taken(before, now, fds, left) && forall fd :: fd in left ==> left[fd] >= now
    ensures ExpiredInOrder(before, now, fds)
  {
    forall i: nat | i < |fds|
      ensures fds[i] in before && before[fds[i]] < now
      ensures forall j :: 0 <= j < i ==> fds[j] != fds[i] && fds[j] in before && before[fds[j]] <= before[fds[i]]
    {
      assert TakenAt(before, now, fds, left, i);
    }
    forall fd | fd in before && before[fd] < now ensures fd in fds {
      assert fd in left || fd in Elements(fds);
    }
  }

  /** What Top says about the timers. */
  ghost predicate TopOk<C>(top: Option<EventTimeo>, table: seq<EventCtx<C>>, timers: map<int, int>) {
    match top
    case None => timers == map[]
    case Some(t) =>
      && 0 <= t.fd < |table| && t.fd in timers && timers[t.fd] == t.expireTimeMs
      && forall fd :: fd in timers ==> t.expireTimeMs <= timers[fd]
  }

  /** Entries of descriptors outside fds are as they were. */
  ghost predicate OthersKept<C>(was: seq<EventCtx<C>>, table: seq<EventCtx<C>>, fds: seq<int>) {
    && |table| == |was|
    && (forall i :: 0 <= i < |fds| ==> 0 <= fds[i] < |was|)
    && (forall fd: nat {:trigger Kept(was, table, fd)} :: fd < |table| && fd !in fds ==> Kept(was, table, fd))
  }

  /** One more descriptor is dealt with. */
  lemma OneLessKept<C>(was: seq<EventCtx<C>>, table: seq<EventCtx<C>>, fds: seq<int>, fd: nat, e: EventCtx<C>)
    requires OthersKept(was, table, fds) && fd < |table| && fd !in fds
    ensures OthersKept(was, table[fd := e], fds + [fd])
    ensures forall i :: 0 <= i < |fds + [fd]| ==> 0 <= (fds + [fd])[i] < |was|
    ensures ContextsOf(was, fds + [fd]) ==
            ContextsOf(was, fds) + match table[fd].context { case None => [] case Some(c) => [c] }
  {
    assert Kept(was, table, fd);
    assert (fds + [fd])[..|fds|] == fds;
    forall g: nat | g < |was| && g !in fds + [fd] ensures Kept(was, table[fd := e], g) {
      assert Kept(was, table, g);
    }
  }

  /** An entry after RegEventDel. */
  function Deleted<C>(e: EventCtx<C>, ok: bool): EventCtx<C> { EventCtx(if ok then None else e.context, null) }

  /** The entries of the descriptors fds are deleted, as far as each deletion succeeded. */
  ghost predicate AllDeleted<C>(was: seq<EventCtx<C>>, table: seq<EventCtx<C>>, fds: seq<int>,
                                lockOk: nat -> bool, ctlOk: nat -> bool) {
    && |table| == |was|
    && forall k :: 0 <= k < |fds| ==>
         0 <= fds[k] < |was| && table[fds[k]] == Deleted(was[fds[k]], lockOk(k) && ctlOk(k))
  }

  lemma OneMoreDeleted<C>(was: seq<EventCtx<C>>, table: seq<EventCtx<C>>, fds: seq<int>, fd: nat,
                          lockOk: nat -> bool, ctlOk: nat -> bool)
    requires OthersKept(was, table, fds) && fd < |table| && fd !in fds && AllDeleted(was, table, fds, lockOk, ctlOk)
    ensures var ok := lockOk(|fds|) && ctlOk(|fds|);
            AllDeleted(was, table[fd := Deleted(table[fd], ok)], fds + [fd], lockOk, ctlOk)
  {
    assert Kept(was, table, fd);
  }

  ghost predicate Kept<C>(was: seq<EventCtx<C>>, table: seq<EventCtx<C>>, fd: nat) {
    fd < |was| == |table| && table[fd] == was[fd]
  }

  class EventsDriver<C> {
    const heap: Heap<EventTimeo>
    var fdToEventCtx: seq<EventCtx<C>>
    ghost var timers: map<int, int>   // the expiry time of each descriptor that has a timer
    var tmpTimeoContexts: seq<C>
    var tmpAllContexts: seq<C>

    /** A min heap on the expiry time. */
    ghost predicate HeapOk()
      reads heap, heap.heapItems, heap.heapItems[..], heap.live
    {
      && heap.Valid() && !heap.isMaxHeap
      && (forall t :: heap.feature(t) == t.expireTimeMs)
    }

    ghost predicate Valid()
      reads this, heap, heap.heapItems, heap.heapItems[..], heap.live
    {
      HeapOk() && Agree(fdToEventCtx, heap.Contents(), timers)
    }

    predicate HasTimer(fd: int)
      reads this
    {
      0 <= fd < |fdToEventCtx| && fdToEventCtx[fd].signTimeo != null
    }

    constructor ()
      ensures Valid() && timers == map[] && fdToEventCtx == []
    {
      heap := new Heap<EventTimeo>((t: EventTimeo) => t.expireTimeMs, false, 1024);
      fdToEventCtx, timers, tmpTimeoContexts, tmpAllContexts := [], map[], [], [];
    }

    /** The table after a descriptor got a context, whatever its timer is now. */
    static ghost predicate ContextSet(table: seq<EventCtx<C>>, was: seq<EventCtx<C>>, fd: nat, context: Option<C>) {
      && fd < |was| == |table| && table[fd].context == context
      && forall i {:trigger table[i]} :: 0 <= i < |table| && i != fd ==> table[i] == was[i]
    }

    /** Every change of the table goes through here. */
    method StoreTable(table: seq<EventCtx<C>>, ghost times: map<int, int>)
      requires HeapOk() && Agree(table, heap.Contents(), times)
      modifies this`fdToEventCtx, this`timers
      ensures Valid() && fdToEventCtx == table
      ensures timers == times
    {
      ghost var m, r := heap.Contents(), heap.Ranks();
      fdToEventCtx, timers := table, times;
      assert heap.Contents() == m && heap.Ranks() == r;
    }

    /** Lines 176-179: takes the timer of a descriptor, if there is one, out of the heap. */
    method CancelTimer(fd: nat)
      requires Valid() && fd < |fdToEventCtx|
      modifies this`fdToEventCtx, this`timers, heap, heap.heapItems, heap.live`index
      ensures Valid() && heap.heapItems == old(heap.heapItems) && heap.live <= old(heap.live)
      ensures timers == old(timers) - {fd}
      ensures fdToEventCtx == old(fdToEventCtx)[fd := EventCtx(old(fdToEventCtx[fd].context), null)]
    {
      ghost var times := timers - {fd};
      CancelAgrees(fdToEventCtx, heap.Contents(), timers, fd);
      assert EntryOk(fdToEventCtx, heap.Contents(), timers, fd);
      if fdToEventCtx[fd].signTimeo != null {
        heap.Erase(fdToEventCtx[fd].signTimeo);
        StoreTable(fdToEventCtx[fd := fdToEventCtx[fd].(signTimeo := null)], times);
      }
    }

    /** Changes a context; no timer changes. */
    method SetContext(fd: nat, context: Option<C>)
      requires Valid() && fd < |fdToEventCtx|
      modifies this`fdToEventCtx, this`timers
      ensures Valid() && timers == old(timers)
      ensures fdToEventCtx == old(fdToEventCtx)[fd := EventCtx(context, old(fdToEventCtx[fd].signTimeo))]
    {
      var table := fdToEventCtx[fd := fdToEventCtx[fd].(context := context)];
      SameTimers(fdToEventCtx, table, heap.Contents(), timers);
      StoreTable(table, timers);
    }

    /** Removes the timer of a descriptor whatever epoll_ctl says; its context only if that succeeds. */
    method RegEventDel(fd: nat, lockOk: bool, ctlOk: bool) returns (ok: bool)
      requires Valid() && fd < |fdToEventCtx|
      modifies this`fdToEventCtx, this`timers, heap, heap.heapItems, heap.live`index
      ensures Valid() && heap.heapItems == old(heap.heapItems) && heap.live <= old(heap.live)
      ensures ok <==> lockOk && ctlOk
      ensures timers == old(timers) - {fd}
      ensures fdToEventCtx == old(fdToEventCtx)[fd := EventCtx(if ok then None else old(fdToEventCtx[fd].context),
                null)]
    {
      CancelTimer(fd);
      if !lockOk || !ctlOk {
        return false;
      }
      SetContext(fd, None);
      return true;
    }

    /** A timer for a descriptor that has none. */
    method AddTimer(fd: nat, expire: int)
      requires Valid() && fd < |fdToEventCtx| && fdToEventCtx[fd].signTimeo == null
      modifies this`fdToEventCtx, this`timers, heap, heap.heapItems, heap.Nodes()
      ensures Valid() && timers == old(timers)[fd := expire]
      ensures (heap.heapItems == old(heap.heapItems) || fresh(heap.heapItems))
                && fresh(heap.Nodes() - old(heap.Nodes()))
      ensures ContextSet(fdToEventCtx, old(fdToEventCtx), fd, old(fdToEventCtx)[fd].context)
    {
      ghost var table, m := fdToEventCtx, heap.Contents();
      var sign := heap.Insert(EventTimeo(expire, fd));
      AddAgreesIff(table, m, timers, fd, sign, EventTimeo(expire, fd));
      StoreTable(fdToEventCtx[fd := fdToEventCtx[fd].(signTimeo := sign)], timers[fd := expire]);
    }

    /** A new expiry for a descriptor that has a timer. */
    method MoveTimer(fd: nat, expire: int)
      requires Valid() && fd < |fdToEventCtx| && fdToEventCtx[fd].signTimeo != null
      modifies this`timers, heap.heapItems, heap.live
      ensures Valid() && timers == old(timers)[fd := expire] && heap.Nodes() <= old(heap.Nodes())
    {
      ghost var m := heap.Contents();
      assert EntryOk(fdToEventCtx, m, timers, fd);
      UpdateAgrees(fdToEventCtx, m, timers, fd, EventTimeo(expire, fd));
      heap.LiveInNodes();
      heap.Update(fdToEventCtx[fd].signTimeo, EventTimeo(expire, fd));
      timers := timers[fd := expire];
    }

    /** The table, made to reach fd with entries that have neither context nor timer (lines 115-121). */
    static function Padded(table: seq<EventCtx<C>>, fd: nat): (t: seq<EventCtx<C>>)
      ensures fd < |t| && forall i :: 0 <= i < |t| ==> t[i] == if i < |table| then table[i] else EventCtx(None, null)
    {
      if fd < |table| then table else table + seq(fd + 1 - |table|, _ => EventCtx(None, null))
    }

    method Reach(fd: nat)
      requires Valid()
      modifies this`fdToEventCtx, this`timers
      ensures Valid() && timers == old(timers) && fdToEventCtx == Padded(old(fdToEventCtx), fd)
    {
      SameTimers(fdToEventCtx, Padded(fdToEventCtx, fd), heap.Contents(), timers);
      StoreTable(Padded(fdToEventCtx, fd), timers);
    }

    /** The effect of RegEvent on the timers if epoll_ctl succeeds. */
    static function Armed(timers: map<int, int>, fd: int, timeoMs: int, now: int): map<int, int> {
      if timeoMs >= 0 then timers[fd := now + timeoMs] else timers
    }

    /** RegEvent up to epoll_ctl, for an addition. */
    method SetForAdd(fd: nat, context: C, timeoMs: int, now: int)
      requires Valid() && fd < |fdToEventCtx| && fdToEventCtx[fd].signTimeo == null
      modifies this`fdToEventCtx, this`timers, heap, heap.heapItems, heap.Nodes()
      ensures Valid() && timers == Armed(old(timers), fd, timeoMs, now)
      ensures (heap.heapItems == old(heap.heapItems) || fresh(heap.heapItems))
                && fresh(heap.Nodes() - old(heap.Nodes()))
      ensures ContextSet(fdToEventCtx, old(fdToEventCtx), fd, Some(context))
    {
      SetContext(fd, Some(context));
      if timeoMs >= 0 {
        AddTimer(fd, now + timeoMs);
      } else {
        var table := fdToEventCtx[fd := fdToEventCtx[fd].(signTimeo := null)];
        assert table == fdToEventCtx;
        StoreTable(table, timers);
      }
    }

    /** RegEvent up to epoll_ctl, for a modification. */
    method SetForMod(fd: nat, timeoMs: int, now: int)
      requires Valid() && fd < |fdToEventCtx|
      modifies this`fdToEventCtx, this`timers, heap, heap.heapItems, heap.Nodes()
      ensures Valid() && timers == Armed(old(timers), fd, timeoMs, now)
      ensures (heap.heapItems == old(heap.heapItems) || fresh(heap.heapItems))
                && fresh(heap.Nodes() - old(heap.Nodes()))
      ensures fd < |fdToEventCtx| && ContextSet(fdToEventCtx, old(fdToEventCtx), fd, old(fdToEventCtx)[fd].context)
    {
      if timeoMs < 0 {
        return;
      }
      if fdToEventCtx[fd].signTimeo != null {
        heap.LiveInNodes();
        MoveTimer(fd, now + timeoMs);
      } else {
        AddTimer(fd, now + timeoMs);
      }
    }

    /** RegEvent up to epoll_ctl, for an addition over a live timer: the old node stays in the heap, and no
        descriptor has it any more. */
    method SetOverTimer(fd: nat, context: C, timeoMs: int, now: int)
      requires Valid() && HasTimer(fd)
      modifies this`fdToEventCtx, heap, heap.heapItems, heap.Nodes()
      ensures HeapOk() && Orphaned(old(fdToEventCtx[fd].signTimeo), fd)
      ensures (heap.heapItems == old(heap.heapItems) || fresh(heap.heapItems))
                && fresh(heap.Nodes() - old(heap.Nodes()))
      ensures ContextSet(fdToEventCtx, old(fdToEventCtx), fd, Some(context))
    {
      ghost var table, m := fdToEventCtx, heap.Contents();
      ghost var o := table[fd].signTimeo;
      OnlyHandle(table, m, timers, fd);
      if timeoMs >= 0 {
        var sign := heap.Insert(EventTimeo(now + timeoMs, fd));
        ghost var n, r := heap.Contents(), heap.Ranks();
        assert o in n && sign != o && sign in n;
        fdToEventCtx := fdToEventCtx[fd := EventCtx(Some(context), sign)];
        assert heap.Contents() == n && heap.Ranks() == r;
        assert forall g :: 0 <= g < |fdToEventCtx| ==> fdToEventCtx[g].signTimeo != o;
      } else {
        ghost var r := heap.Ranks();
        fdToEventCtx := fdToEventCtx[fd := EventCtx(Some(context), null)];
        assert heap.Contents() == m && heap.Ranks() == r;
      }
    }

    /** The node o is in the heap and nobody's; the handle of fd, if there is one, is another live node. */
    ghost predicate Orphaned(o: Node?<EventTimeo>, fd: nat)
      reads this, heap, heap.live
    {
      && o != null && o in heap.Contents() && fd < |fdToEventCtx|
      && (forall g :: 0 <= g < |fdToEventCtx| ==> fdToEventCtx[g].signTimeo != o)
      && (fdToEventCtx[fd].signTimeo != null ==> fdToEventCtx[fd].signTimeo in heap.live)
    }

    /** RegEventDel in the presence of an orphan: the orphan stays. */
    method DelBesideOrphan(ghost o: Node?<EventTimeo>, fd: nat, lockOk: bool, ctlOk: bool)
      requires HeapOk() && Orphaned(o, fd)
      modifies this`fdToEventCtx, heap, heap.heapItems, heap.live`index
      ensures HeapOk() && Orphaned(o, fd) && heap.heapItems == old(heap.heapItems) && heap.live <= old(heap.live)
      ensures ContextSet(fdToEventCtx, old(fdToEventCtx), fd,
                if lockOk && ctlOk then None else old(fdToEventCtx[fd].context))
    {
      var context := if lockOk && ctlOk then None else fdToEventCtx[fd].context;
      if fdToEventCtx[fd].signTimeo != null {
        heap.Erase(fdToEventCtx[fd].signTimeo);
      }
      ghost var m, r := heap.Contents(), heap.Ranks();
      fdToEventCtx := fdToEventCtx[fd := EventCtx(context, null)];
      assert heap.Contents() == m && heap.Ranks() == r;
    }

    /** Adds or modifies the registration of a descriptor.  Table and heap agree afterwards unless it was an addition
        for a
        descriptor that had a live timer; then they agree on no assignment of timers. */
    method RegEvent(fd: nat, op: Op, context: C, timeoMs: int, now: int,
                    lockOk: bool, ctlOk: bool, delLockOk: bool, delCtlOk: bool) returns (ok: bool)
      requires Valid()
      modifies this`fdToEventCtx, this`timers, heap, heap.heapItems, heap.Nodes()
      ensures HeapOk() && (ok <==> lockOk && ctlOk)
      ensures (heap.heapItems == old(heap.heapItems) || fresh(heap.heapItems)) && fresh(heap.live - old(heap.Nodes()))
      ensures if op.AddEvent? && old(HasTimer(fd)) then
                forall any :: !Agree(fdToEventCtx, heap.Contents(), any)
              else
                && Valid()
                && timers == if !ok then old(timers) - {fd}
                             else if timeoMs >= 0 then old(timers)[fd := now + timeoMs] else old(timers)
      ensures var was := Padded(old(fdToEventCtx), fd);
              ContextSet(fdToEventCtx, was, fd,
                if !ok && delLockOk && delCtlOk then None else if op.AddEvent? then Some(context) else was[fd].context)
    {
      if op.AddEvent? && HasTimer(fd) {
        ok := RegOverTimer(fd, context, timeoMs, now, lockOk, ctlOk, delLockOk, delCtlOk);
        return;
      }
      Reach(fd);
      if op.AddEvent? {
        SetForAdd(fd, context, timeoMs, now);
      } else {
        SetForMod(fd, timeoMs, now);
      }
      heap.LiveInNodes();
      if !lockOk || !ctlOk {
        var deleted := RegEventDel(fd, delLockOk, delCtlOk);
        return false;
      }
      return true;
    }

    method RegOverTimer(fd: nat, context: C, timeoMs: int, now: int,
                        lockOk: bool, ctlOk: bool, delLockOk: bool, delCtlOk: bool) returns (ok: bool)
      requires Valid() && HasTimer(fd)
      modifies this`fdToEventCtx, heap, heap.heapItems, heap.Nodes()
      ensures HeapOk() && (ok <==> lockOk && ctlOk)
      ensures (heap.heapItems == old(heap.heapItems) || fresh(heap.heapItems)) && fresh(heap.live - old(heap.Nodes()))
      ensures forall any :: !Agree(fdToEventCtx, heap.Contents(), any)
      ensures ContextSet(fdToEventCtx, old(fdToEventCtx), fd, if !ok && delLockOk
                && delCtlOk then None else Some(context))
    {
      ghost var o := fdToEventCtx[fd].signTimeo;
      SetOverTimer(fd, context, timeoMs, now);
      ok := lockOk && ctlOk;
      heap.LiveInNodes();
      if !ok {
        DelBesideOrphan(o, fd, delLockOk, delCtlOk);
      }
      OrphanDisagrees(fdToEventCtx, heap.Contents(), o);
    }

    /** The timer at the top of the heap belongs to a descriptor, and no timer expires earlier. */
    method TopTimer() returns (r: Option<EventTimeo>)
      requires Valid()
      ensures Valid() && TopOk(r, fdToEventCtx, timers)
    {
      r := heap.Top();
      ghost var m := heap.Contents();
      if r.Some? {
        assert HandleOk(fdToEventCtx, m, heap.heapItems[1]);
        assert EntryOk(fdToEventCtx, m, timers, r.value.fd);
      }
      forall fd | fd in timers ensures r.Some? && r.value.expireTimeMs <= timers[fd] {
        assert EntryOk(fdToEventCtx, m, timers, fd);
        assert fdToEventCtx[fd].signTimeo in heap.live;
      }
    }

    /** One round of the loop of RemoveTimeouts. */
    method RemoveTop(top: EventTimeo, lockOk: bool, ctlOk: bool, ghost table: seq<EventCtx<C>>, ghost fds: seq<int>)
      requires Valid() && TopOk(Some(top), fdToEventCtx, timers) && top.fd !in fds
      requires OthersKept(table, fdToEventCtx, fds) && tmpTimeoContexts == ContextsOf(table, fds)
      modifies this`fdToEventCtx, this`timers, this`tmpTimeoContexts, heap, heap.heapItems, heap.live`index
      ensures Valid() && heap.heapItems == old(heap.heapItems) && heap.live <= old(heap.live)
      ensures timers == old(timers) - {top.fd}
      ensures OthersKept(table, fdToEventCtx, fds + [top.fd])
      ensures fdToEventCtx == old(fdToEventCtx)[top.fd := Deleted(old(fdToEventCtx)[top.fd], lockOk && ctlOk)]
      ensures tmpTimeoContexts == ContextsOf(table, fds + [top.fd])
    {
      hide OthersKept, ContextsOf, Agree;
      var fd := top.fd;
      var context := fdToEventCtx[fd].context;
      OneLessKept(table, fdToEventCtx, fds, fd, EventCtx(if lockOk && ctlOk then None else context, null));
      if context.Some? {
        tmpTimeoContexts := tmpTimeoContexts + [context.value];
      }
      var ok := RegEventDel(fd, lockOk, ctlOk);
    }

    method Restart()
      requires Valid()
      modifies this`tmpTimeoContexts
      ensures Valid() && tmpTimeoContexts == []
    {
      tmpTimeoContexts := [];
    }

    /** Takes the contexts of all timers that have expired.  Timers go even if epoll_ctl fails for them. */
    method RemoveTimeouts(now: int, lockOk: nat -> bool, ctlOk: nat -> bool) returns (ghost fds: seq<int>)
      requires Valid()
      modifies this`fdToEventCtx, this`timers, this`tmpTimeoContexts, heap, heap.heapItems, heap.live`index
      ensures Valid() && ExpiredInOrder(old(timers), now, fds)
      ensures timers == old(timers) - Elements(fds)
      ensures OthersKept(old(fdToEventCtx), fdToEventCtx, fds)
      ensures forall k :: 0 <= k < |fds| ==>
                var e := old(fdToEventCtx)[fds[k]];
                fdToEventCtx[fds[k]] == EventCtx(if lockOk(k) && ctlOk(k) then None else e.context, null)
      ensures tmpTimeoContexts == ContextsOf(old(fdToEventCtx), fds)
    {
      ghost var was, before := fdToEventCtx, timers;
      Restart();
      fds := [];
      var top := TopTimer();
      var round := 0;
      while top.Some? && top.value.expireTimeMs < now
        invariant Valid() && heap.heapItems == old(heap.heapItems) && heap.live <= old(heap.live)
        invariant round == |fds| && RoundsDone(was, before, now, fds, lockOk, ctlOk)
        invariant TopOk(top, fdToEventCtx, timers)
        decreases |timers|
      {
        hide RoundsDone, TopOk, Valid;
        OneRound(top.value, round, now, lockOk, ctlOk, was, before, fds);
        round := round + 1;
        fds := fds + [top.value.fd];
        top := TopTimer();
      }
      AllTaken(before, now, fds, timers);
    }

    /** What the loop of RemoveTimeouts has done for the descriptors fds. */
    ghost predicate RoundsDone(was: seq<EventCtx<C>>, before: map<int, int>, now: int, fds: seq<int>,
                               lockOk: nat -> bool, ctlOk: nat -> bool)
      reads this
    {
      && OthersKept(was, fdToEventCtx, fds) && AllDeleted(was, fdToEventCtx, fds, lockOk, ctlOk)
      && Taken(before, now, fds, timers) && tmpTimeoContexts == ContextsOf(was, fds)
    }

    method OneRound(top: EventTimeo, round: nat, now: int, lockOk: nat -> bool, ctlOk: nat -> bool,
                    ghost was: seq<EventCtx<C>>, ghost before: map<int, int>, ghost fds: seq<int>)
      requires Valid() && TopOk(Some(top), fdToEventCtx, timers) && top.expireTimeMs < now && round == |fds|
      requires RoundsDone(was, before, now, fds, lockOk, ctlOk)
      modifies this`fdToEventCtx, this`timers, this`tmpTimeoContexts, heap, heap.heapItems, heap.live`index
      ensures Valid() && heap.heapItems == old(heap.heapItems) && heap.live <= old(heap.live)
      ensures RoundsDone(was, before, now, fds + [top.fd], lockOk, ctlOk) && |timers| < |old(timers)|
    {
      hide OthersKept, ContextsOf, Agree, AllDeleted, Taken;
      TakeOne(before, now, fds, timers, top.fd);
      OneMoreDeleted(was, fdToEventCtx, fds, top.fd, lockOk, ctlOk);
      RemoveTop(top, lockOk(round), ctlOk(round), was, fds);
    }

    /** One round of the loop of ClearAll. */
    method ClearOne(i: nat, lockOk: bool, ctlOk: bool)
      requires Valid() && i < |fdToEventCtx|
      modifies this`fdToEventCtx, this`timers, this`tmpAllContexts, heap, heap.heapItems, heap.live`index
      ensures Valid() && heap.heapItems == old(heap.heapItems) && heap.live <= old(heap.live)
      ensures timers == if old(fdToEventCtx)[i].context.Some? then old(timers) - {i} else old(timers)
      ensures fdToEventCtx == old(fdToEventCtx)[i := Cleared(old(fdToEventCtx)[i], lockOk && ctlOk)]
      ensures tmpAllContexts ==
                old(tmpAllContexts) + match old(fdToEventCtx)[i].context { case None => [] case Some(c) => [c] }
    {
      if fdToEventCtx[i].context.Some? {
        tmpAllContexts := tmpAllContexts + [fdToEventCtx[i].context.value];
        var ok := RegEventDel(i, lockOk, ctlOk);
      }
    }

    /** What becomes of an entry, by the success of the deletion. */
    static function Cleared(e: EventCtx<C>, ok: bool): EventCtx<C> {
      if e.context.Some? then EventCtx(if ok then None else e.context, null) else e
    }

    /** The descriptors below n that have a context. */
    static function Registered(table: seq<EventCtx<C>>, n: nat): set<int>
      requires n <= |table|
    {
      set fd | 0 <= fd < n && table[fd].context.Some?
    }

    /** Hands out every context, in order of descriptors, and removes their timers. */
    method ClearAll(lockOk: nat -> bool, ctlOk: nat -> bool)
      requires Valid()
      modifies this`fdToEventCtx, this`timers, this`tmpAllContexts, heap, heap.heapItems, heap.live`index
      ensures Valid() && |fdToEventCtx| == |old(fdToEventCtx)|
      ensures forall i :: 0 <= i < |fdToEventCtx| ==>
                var e := old(fdToEventCtx)[i];
                fdToEventCtx[i] == if e.context.None? then e
                                   else EventCtx(if lockOk(i) && ctlOk(i) then None else e.context, null)
      ensures timers == old(timers) - Registered(old(fdToEventCtx), |old(fdToEventCtx)|)
      ensures tmpAllContexts == ContextsOf(old(fdToEventCtx), Upto(|old(fdToEventCtx)|))
    {
      RestartAll();
      ghost var was, times := fdToEventCtx, timers;
      var i := 0;
      while i < |fdToEventCtx|
        invariant Valid() && heap.heapItems == old(heap.heapItems) && heap.live <= old(heap.live)
        invariant i <= |fdToEventCtx| && ClearedUpto(was, fdToEventCtx, times, timers, tmpAllContexts, i, lockOk, ctlOk)
      {
        ClearedNext(was, fdToEventCtx, times, timers, tmpAllContexts, i, lockOk, ctlOk);
        ClearOne(i, lockOk(i), ctlOk(i));
        i := i + 1;
      }
    }

    /** The loop of ClearAll has dealt with the descriptors below i. */
    static ghost predicate ClearedUpto(was: seq<EventCtx<C>>, table: seq<EventCtx<C>>, times: map<int, int>,
                                       timers: map<int, int>, contexts: seq<C>, i: nat,
                                       lockOk: nat -> bool, ctlOk: nat -> bool) {
      && i <= |was| == |table|
      && (forall k :: 0 <= k < i ==> table[k] == Cleared(was[k], lockOk(k) && ctlOk(k)))
      && (forall k :: i <= k < |was| ==> table[k] == was[k])
      && timers == times - Registered(was, i)
      && contexts == ContextsOf(was, Upto(i))
    }

    /** What ClearOne does deals with one more. */
    static lemma ClearedNext(was: seq<EventCtx<C>>, table: seq<EventCtx<C>>, times: map<int, int>, timers: map<int,
          int>,
                             contexts: seq<C>, i: nat, lockOk: nat -> bool, ctlOk: nat -> bool)
      requires ClearedUpto(was, table, times, timers, contexts, i, lockOk, ctlOk) && i < |was|
      ensures table[i] == was[i]
      ensures ClearedUpto(was, table[i := Cleared(was[i], lockOk(i) && ctlOk(i))], times,
                          if was[i].context.Some? then timers - {i} else timers,
                          contexts + match was[i].context { case None => [] case Some(c) => [c] }, i + 1, lockOk, ctlOk)
    {
      var reg := Registered(was, i);
      assert Registered(was, i + 1) == if was[i].context.Some? then reg + {i} else reg;
      assert Upto(i + 1)[..i] == Upto(i);
    }

    method RestartAll()
      requires Valid()
      modifies this`tmpAllContexts
      ensures Valid() && tmpAllContexts == []
    {
      tmpAllContexts := [];
    }
  }

  /** A descriptor that is registered with a timeout is timed out later if and only if its time is up by then. */
  method RegisterAndExpire<C>(d: EventsDriver<C>, fd: nat, op: Op, context: C, timeoMs: int, now: int, later: int,
                              lockOk: nat -> bool, ctlOk: nat -> bool) returns (ghost fds: seq<int>)
    requires d.Valid() && timeoMs >= 0 && (op.AddEvent? ==> !d.HasTimer(fd))
    modifies d`fdToEventCtx, d`timers, d`tmpTimeoContexts, d.heap, d.heap.heapItems, d.heap.Nodes()
    ensures d.Valid() && ExpiredInOrder(old(d.timers)[fd := now + timeoMs], later, fds)
    ensures fd in fds <==> now + timeoMs < later
    ensures fd in d.timers <==> later <= now + timeoMs
  {
    var ok := d.RegEvent(fd, op, context, timeoMs, now, true, true, true, true);
    fds := d.RemoveTimeouts(later, lockOk, ctlOk);
  }

  function Upto(n: nat): seq<int> { seq(n, i => i) }
}
