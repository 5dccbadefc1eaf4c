/** timeout.go: a hashed timing wheel of singly linked lists, with a cache of list items. */
module TimerWheel {
  import opened Options
  import opened TimerSpec

  const TIMER_CACHE_MAX: nat := 50000

  class TimeoutItem<T> {
    var Item: T
    var Next: TimeoutItem?<T>

    constructor (v: T)
      ensures Item == v && Next == null
    {
      Item, Next := v, null;
    }
  }

  class TimeoutList<T> {
    var Head: TimeoutItem?<T>
    var Tail: TimeoutItem?<T>

    constructor ()
      ensures Head == null && Tail == null
    {
      Head, Tail := null, null;
    }

    /** Links ti in at the tail. */
    method Append(ti: TimeoutItem<T>, ghost nodes: seq<TimeoutItem<T>>, ghost entries: seq<Entry<T>>, ghost e: Entry<T>)
      requires ListOk(this, nodes, entries) && NoRepeats(nodes) && ti !in nodes && ti.Next == null && ti.Item == e.item
      modifies this, nodes
      ensures ListOk(this, nodes + [ti], entries + [e])
      ensures forall n: TimeoutItem<T> :: n in nodes ==> n.Item == old(n.Item)
    {
      if Tail == null {
        Head := ti;
        Tail := ti;
      } else {
        Tail.Next := ti;
        Tail := ti;
      }
      ghost var all := nodes + [ti];
      forall k {:trigger all[k].Next} | 0 <= k < |all| ensures all[k].Next == if k + 1 < |all| then all[k + 1] else null {
        if k + 1 < |nodes| { assert nodes[k] != nodes[|nodes| - 1]; }
      }
    }

    /** Unlinks the head. */
    method TakeHead(ghost nodes: seq<TimeoutItem<T>>, ghost entries: seq<Entry<T>>) returns (ti: TimeoutItem<T>)
      requires ListOk(this, nodes, entries) && Head != null
      modifies this
      ensures nodes != [] && ti == nodes[0] && ti.Item == entries[0].item
      ensures ListOk(this, nodes[1..], entries[1..])
    {
      ChainTail(nodes);
      CarriesTail(nodes, entries);
      ti := Head;
      Head := ti.Next;
      if Head == null {
        Tail := null;
      }
    }

    /** Moves all of the other list, if it has any items, to the end of this one. */
    method Splice(
      other: TimeoutList<T>,
      ghost nodes: seq<TimeoutItem<T>>, ghost entries: seq<Entry<T>>,
      ghost nodes': seq<TimeoutItem<T>>, ghost entries': seq<Entry<T>>)
      requires this != other && ListOk(this, nodes, entries) && ListOk(other, nodes', entries')
      requires NoRepeats(nodes) && forall n :: n in nodes ==> n !in nodes'
      modifies this, other, nodes
      ensures ListOk(this, nodes + nodes', entries + entries') && ListOk(other, [], [])
    {
      if other.Head != null {
        if Tail == null {
          Head := other.Head;
          Tail := other.Tail;
        } else {
          Tail.Next := other.Head;
          Tail := other.Tail;
        }
        other.Head := null;
        other.Tail := null;
      }
      ghost var all := nodes + nodes';
      forall k {:trigger all[k].Next} | 0 <= k < |all| ensures all[k].Next == if k + 1 < |all| then all[k + 1] else null {
        if k + 1 < |nodes| {
          assert nodes[k] != nodes[|nodes| - 1];
        } else if k >= |nodes| {
          ghost var n := nodes'[k - |nodes|];
          assert all[k] == n && n in nodes';
          assert n.Next == old(n.Next);
          assert old(nodes'[k - |nodes|].Next) == if k + 1 < |all| then nodes'[k - |nodes| + 1] else null;
        }
      }
      forall k {:trigger all[k].Item} | 0 <= k < |all| ensures all[k].Item == (entries + entries')[k].item {
        if k < |nodes| { assert old(nodes[k].Item) == entries[k].item; }
        else { assert old(nodes'[k - |nodes|].Item) == entries'[k - |nodes|].item; }
      }
    }
  }

  /** Where an item is linked: in which list, and how far down it.  The expired list is numbered
      on from what has left its head, the cache up from its bottom, so that taking an item off
      either renumbers no other. */
  datatype Place = Place(list: int, pos: int)

  const EXPIRED: int := -1
  const CACHE: int := -2

  /** The items form a chain through Next, ending in null. */
  ghost predicate Chain<T>(nodes: seq<TimeoutItem<T>>)
    reads nodes
  {
    forall k {:trigger nodes[k].Next} :: 0 <= k < |nodes| ==> nodes[k].Next == if k + 1 < |nodes| then nodes[k + 1] else null
  }

  ghost predicate Carries<T>(nodes: seq<TimeoutItem<T>>, entries: seq<Entry<T>>)
    reads nodes
  {
    |nodes| == |entries| && forall k {:trigger nodes[k].Item} :: 0 <= k < |nodes| ==> nodes[k].Item == entries[k].item
  }

  ghost predicate Ends<T>(list: TimeoutList<T>, nodes: seq<TimeoutItem<T>>)
    reads list
  {
    if nodes == [] then list.Head == null && list.Tail == null
    else list.Head == nodes[0] && list.Tail == nodes[|nodes| - 1]
  }

  /** The heap list runs through exactly these items, carrying exactly these entries. */
  ghost predicate ListOk<T>(list: TimeoutList<T>, nodes: seq<TimeoutItem<T>>, entries: seq<Entry<T>>)
    reads list, nodes
  {
    Ends(list, nodes) && Chain(nodes) && Carries(nodes, entries)
  }

  lemma CarriesTail<T>(nodes: seq<TimeoutItem<T>>, entries: seq<Entry<T>>)
    requires nodes != [] && Carries(nodes, entries)
    ensures nodes[0].Item == entries[0].item && Carries(nodes[1..], entries[1..])
  {
    var rest := nodes[1..];
    forall k {:trigger rest[k].Item} | 0 <= k < |rest| ensures rest[k].Item == entries[1..][k].item {
      assert rest[k] == nodes[k + 1];
      assert nodes[k + 1].Item == entries[k + 1].item;
    }
  }

  ghost predicate NoRepeats<T>(nodes: seq<TimeoutItem<T>>) {
    forall j, k :: 0 <= j < k < |nodes| ==> nodes[j] != nodes[k]
  }

  /** Every node of the list knows it is there: no two lists, and no two positions of one list,
      can share an item. */
  ghost predicate Placed<T>(where: map<TimeoutItem<T>, Place>, nodes: seq<TimeoutItem<T>>, list: int, base: int) {
    forall k :: 0 <= k < |nodes| ==> nodes[k] in where && where[nodes[k]] == Place(list, base + k)
  }

  ghost predicate Placement<T>(
    where: map<TimeoutItem<T>, Place>, slots: seq<seq<TimeoutItem<T>>>,
    due: seq<TimeoutItem<T>>, purged: nat, cache: seq<TimeoutItem<T>>)
  {
    && (forall s :: 0 <= s < |slots| ==> Placed(where, slots[s], s, 0))
    && Placed(where, due, EXPIRED, purged)
    && Placed(where, cache, CACHE, -|cache|)
  }

  /** Taking the top item off the cache leaves the places of all others alone. */
  lemma PlacementPop<T>(
    where: map<TimeoutItem<T>, Place>, slots: seq<seq<TimeoutItem<T>>>,
    due: seq<TimeoutItem<T>>, purged: nat, cache: seq<TimeoutItem<T>>)
    requires Placement(where, slots, due, purged, cache) && cache != []
    ensures Placement(where - {cache[0]}, slots, due, purged, cache[1..])
    ensures forall s :: 0 <= s < |slots| ==> cache[0] !in slots[s]
    ensures cache[0] !in due && cache[0] !in cache[1..]
  {
    var where', ti := where - {cache[0]}, cache[0];
    assert where[ti] == Place(CACHE, -|cache|);
    forall s | 0 <= s < |slots| ensures Placed(where', slots[s], s, 0) && ti !in slots[s] {
      assert Placed(where, slots[s], s, 0);
    }
  }

  /** The items of one slot are all different, and in no other list. */
  lemma PlacementApart<T>(
    where: map<TimeoutItem<T>, Place>, slots: seq<seq<TimeoutItem<T>>>,
    due: seq<TimeoutItem<T>>, purged: nat, cache: seq<TimeoutItem<T>>, i: int)
    requires Placement(where, slots, due, purged, cache) && 0 <= i < |slots|
    ensures NoRepeats(slots[i])
    ensures forall s, x :: 0 <= s < |slots| && s != i && x in slots[i] ==> x !in slots[s]
    ensures forall x :: x in slots[i] ==> x in where && x !in due && x !in cache
  {
    forall s, x | 0 <= s < |slots| && s != i && x in slots[i] ensures x !in slots[s] {
      assert where[x].list == i;
      assert Placed(where, slots[s], s, 0);
    }
  }

  /** Linking an item that is nowhere yet onto the end of slot i. */
  lemma PlacementLink<T>(
    where: map<TimeoutItem<T>, Place>, slots: seq<seq<TimeoutItem<T>>>,
    due: seq<TimeoutItem<T>>, purged: nat, cache: seq<TimeoutItem<T>>, i: int, ti: TimeoutItem<T>)
    requires Placement(where, slots, due, purged, cache) && 0 <= i < |slots| && ti !in where
    ensures Placement(where[ti := Place(i, |slots[i]|)], slots[i := slots[i] + [ti]], due, purged, cache)
    ensures forall s :: 0 <= s < |slots| ==> ti !in slots[s]
    ensures ti !in due && ti !in cache
  {
    var where', slots' := where[ti := Place(i, |slots[i]|)], slots[i := slots[i] + [ti]];
    forall s | 0 <= s < |slots'| ensures Placed(where', slots'[s], s, 0) && ti !in slots[s] {
      assert Placed(where, slots[s], s, 0);
    }
  }

  /** The same for the expired list. */
  lemma PlacementDue<T>(
    where: map<TimeoutItem<T>, Place>, slots: seq<seq<TimeoutItem<T>>>,
    due: seq<TimeoutItem<T>>, purged: nat, cache: seq<TimeoutItem<T>>)
    requires Placement(where, slots, due, purged, cache)
    ensures NoRepeats(due)
    ensures forall s, x :: 0 <= s < |slots| && x in due ==> x !in slots[s]
    ensures forall x :: x in due ==> x in where && x !in cache
  {
    forall s, x | 0 <= s < |slots| && x in due ensures x !in slots[s] {
      assert where[x].list == EXPIRED;
      assert Placed(where, slots[s], s, 0);
    }
  }

  lemma PlacementPurge<T>(
    where: map<TimeoutItem<T>, Place>, slots: seq<seq<TimeoutItem<T>>>,
    due: seq<TimeoutItem<T>>, purged: nat, cache: seq<TimeoutItem<T>>)
    requires Placement(where, slots, due, purged, cache) && due != []
    ensures Placement(where - {due[0]}, slots, due[1..], purged + 1, cache)
  {
    var where', ti := where - {due[0]}, due[0];
    assert where[ti] == Place(EXPIRED, purged);
    forall s | 0 <= s < |slots| ensures Placed(where', slots[s], s, 0) {
      assert Placed(where, slots[s], s, 0);
    }
  }

  lemma PlacementPush<T>(
    where: map<TimeoutItem<T>, Place>, slots: seq<seq<TimeoutItem<T>>>,
    due: seq<TimeoutItem<T>>, purged: nat, cache: seq<TimeoutItem<T>>, ti: TimeoutItem<T>)
    requires Placement(where, slots, due, purged, cache) && ti !in where
    ensures Placement(where[ti := Place(CACHE, -|cache| - 1)], slots, due, purged, [ti] + cache)
    ensures forall s :: 0 <= s < |slots| ==> ti !in slots[s]
    ensures ti !in due && ti !in cache
  {
    var where' := where[ti := Place(CACHE, -|cache| - 1)];
    forall s | 0 <= s < |slots| ensures Placed(where', slots[s], s, 0) && ti !in slots[s] {
      assert Placed(where, slots[s], s, 0);
    }
  }

  /** All of list i renumbered to the end of the expired list. */
  ghost function Moved<T>(where: map<TimeoutItem<T>, Place>, i: int, base: int): map<TimeoutItem<T>, Place> {
    map x | x in where :: if where[x].list == i then Place(EXPIRED, base + where[x].pos) else where[x]
  }

  lemma PlacementMove<T>(
    where: map<TimeoutItem<T>, Place>, slots: seq<seq<TimeoutItem<T>>>,
    due: seq<TimeoutItem<T>>, purged: nat, cache: seq<TimeoutItem<T>>, i: int)
    requires Placement(where, slots, due, purged, cache) && 0 <= i < |slots|
    ensures Placement(Moved(where, i, purged + |due|), slots[i := []], due + slots[i], purged, cache)
  {
    var where', slots' := Moved(where, i, purged + |due|), slots[i := []];
    forall s | 0 <= s < |slots'| ensures Placed(where', slots'[s], s, 0) {
      assert Placed(where, slots[s], s, 0);
    }
    assert Placed(where, slots[i], i, 0);
    var due' := due + slots[i];
    forall k | 0 <= k < |due'| ensures due'[k] in where' && where'[due'[k]] == Place(EXPIRED, purged + k) {
      if k >= |due| { assert due'[k] == slots[i][k - |due|]; }
    }
  }

  lemma ChainTail<T>(nodes: seq<TimeoutItem<T>>)
    requires nodes != [] && Chain(nodes)
    ensures Chain(nodes[1..])
    ensures nodes[0].Next == if |nodes| > 1 then nodes[1..][0] else null
  {
    var rest := nodes[1..];
    forall k {:trigger rest[k].Next} | 0 <= k < |rest|
      ensures rest[k].Next == if k + 1 < |rest| then rest[k + 1] else null
    {
      assert rest[k] == nodes[k + 1];
      assert nodes[k + 1].Next == if k + 2 < |nodes| then nodes[k + 2] else null;
    }
  }

  /** How many ticks until slot s comes round, less one. */
  function Ahead(s: int, current: int, wheelLen: int): int
  {
    if s > current then s - current - 1 else s - current - 1 + wheelLen
  }

  /** The wheel's contents at both levels: the timers it stands for, the items linked in each
      slot, in the expired list and in the cache, and the place of every item. */
  datatype Layout<T> = Layout(
    timers: Timers<T>, slots: seq<seq<TimeoutItem<T>>>, due: seq<TimeoutItem<T>>,
    cache: seq<TimeoutItem<T>>, where: map<TimeoutItem<T>, Place>)

  ghost predicate Apart<T>(g: Layout<T>) {
    Placement(g.where, g.slots, g.due, |g.timers.purged|, g.cache)
  }

  /** Entry e, carried by ti, joins slot i and with it bucket n. */
  ghost function Linked<T>(g: Layout<T>, i: int, n: int, ti: TimeoutItem<T>, e: Entry<T>): Layout<T>
    requires 0 <= i < |g.slots| && 0 <= n < |g.timers.waiting|
  {
    g.(where := g.where[ti := Place(i, |g.slots[i]|)],
       slots := g.slots[i := g.slots[i] + [ti]],
       timers := Filed(g.timers, n, e))
  }

  ghost function Filed<T>(t: Timers<T>, n: int, e: Entry<T>): Timers<T>
    requires 0 <= n < |t.waiting|
  {
    t.(waiting := t.waiting[n := t.waiting[n] + [e]], arrivals := t.arrivals + 1)
  }

  lemma AddedIsFiled<T>(t: Timers<T>, v: T, timeout: int, n: int)
    requires Configured(t) && n == TicksFor(timeout, t.tick, t.longest)
    ensures 0 <= n < |t.waiting| && Added(t, v, timeout) == Filed(t, n, NewEntry(t, v, timeout))
  {
    TicksForIsCeiling(timeout, t.tick, t.longest);
  }

  ghost function Popped<T>(g: Layout<T>): Layout<T>
    requires g.cache != []
  {
    g.(cache := g.cache[1..], where := g.where - {g.cache[0]})
  }

  /** The head of the expired list is handed out. */
  ghost function Dropped<T>(g: Layout<T>): Layout<T>
    requires g.due != []
  {
    g.(due := g.due[1..], where := g.where - {g.due[0]}, timers := Purged(g.timers))
  }

  ghost function Cached<T>(g: Layout<T>, ti: TimeoutItem<T>): Layout<T> {
    g.(cache := [ti] + g.cache, where := g.where[ti := Place(CACHE, -|g.cache| - 1)])
  }

  /** Slot i comes round: its items move to the end of the expired list. */
  ghost function CameRound<T>(g: Layout<T>, i: int): Layout<T>
    requires 0 <= i < |g.slots| && |g.timers.waiting| > 0
  {
    g.(slots := g.slots[i := []], due := g.due + g.slots[i],
       where := Moved(g.where, i, |g.timers.purged| + |g.due|), timers := Ticked(g.timers))
  }

  class TimerWheel<T> {
    var current: int
    const wheelLen: int
    var lastTick: Option<int>
    const tickDuration: int
    const wheelDuration: int
    const wheel: array<TimeoutList<T>>
    const expired: TimeoutList<T>
    var itemCache: TimeoutItem?<T>
    var itemsCached: int
    ghost var g: Layout<T>

    /** NewTimerWheel made the wheel the right size for its durations, which never change. */
    ghost predicate Sized() {
      tickDuration > 0 && wheelDuration >= 0 && wheelLen == Slots(tickDuration, wheelDuration)
    }

    ghost predicate Frame()
      reads this, wheel
    {
      && g.timers.tick == tickDuration && g.timers.longest == wheelDuration && g.timers.lastTick == lastTick
      && wheelLen == |g.timers.waiting| == |g.slots| == wheel.Length && 0 <= current < wheelLen
      && (forall s :: 0 <= s < wheelLen ==> wheel[s] != expired)
      && (forall s, r :: 0 <= s < r < wheelLen ==> wheel[s] != wheel[r])
    }

    /** The slot lists, the expired list and the item cache are disjoint, acyclic and end where
        their tails say; slot s holds the bucket of the tick at which it comes round. */
    ghost predicate Valid()
      reads this, wheel, expired, wheel[..], g.where.Keys
    {
      && Frame() && Apart(g)
      && (forall s :: 0 <= s < wheelLen ==> ListOk(wheel[s], g.slots[s], g.timers.waiting[Ahead(s, current, wheelLen)]))
      && ListOk(expired, g.due, g.timers.expired)
      && CacheOk()
    }

    ghost predicate CacheOk()
      reads this, g.cache
    {
      && Chain(g.cache) && itemCache == (if g.cache == [] then null else g.cache[0])
      && itemsCached == |g.cache| <= TIMER_CACHE_MAX
    }

    constructor (min: int, max: int)
      requires min > 0 && max >= 0
      ensures Sized() && Valid() && g.where == map[]
      ensures fresh(wheel) && fresh(expired) && forall s :: 0 <= s < wheel.Length ==> fresh(wheel[s])
      ensures g.timers == Empty(min, max)
    {
      EmptyIsSound<T>(min, max);
      ConfiguredHasSlots(Empty<T>(min, max));
      var wLen := TruncDiv(max, min) + 2;
      current, wheelLen, lastTick, tickDuration, wheelDuration := 0, wLen, None, min, max;
      itemCache, itemsCached := null, 0;
      g := Layout(Empty(min, max), seq(wLen, _ => []), [], [], map[]);
      var none := new TimeoutList();
      var lists := new TimeoutList<T>[wLen](_ => none);
      for i := 0 to wLen
        invariant forall s :: 0 <= s < i ==> fresh(lists[s]) && lists[s] != none && lists[s].Head == null && lists[s].Tail == null
        invariant forall s, r :: 0 <= s < r < i ==> lists[s] != lists[r]
        modifies lists
      {
        lists[i] := new TimeoutList();
      }
      wheel, expired := lists, none;
    }

    /** findWheel: the slot an item with this timeout belongs in. */
    method FindWheel(timeout0: int) returns (i: int)
      requires Sized() && Frame()
      ensures 0 <= i < wheelLen
      ensures Ahead(i, current, wheelLen) == TicksFor(timeout0, tickDuration, wheelDuration)
    {
      TicksForIsCeiling(timeout0, tickDuration, wheelDuration);
      var timeout := timeout0;
      if timeout < tickDuration {
        timeout := tickDuration;
      } else if timeout > wheelDuration {
        timeout := wheelDuration;
      }
      var tick := TruncDiv(timeout - 1, tickDuration) + 1;
      tick := tick + current + 1;
      if tick >= wheelLen {
        tick := tick - wheelLen;
      }
      return tick;
    }

    method Add(v: T, timeout: int) returns (ti: TimeoutItem<T>)
      requires Sized() && Valid()
      modifies this, expired, wheel[..], g.where.Keys
      ensures Valid() && fresh(g.where.Keys - old(g.where.Keys))
      ensures g.timers == Added(old(g.timers), v, timeout) && ti.Item == v
    {
      var i := FindWheel(timeout);
      AddedIsFiled(g.timers, v, timeout, Ahead(i, current, wheelLen));
      ghost var e, keys := NewEntry(g.timers, v, timeout), g.where.Keys;
      ti := TakeItem(v);
      Link(i, ti, e);
      KeysLess(keys, ti, g.where.Keys);
    }

    /** The first half of Add: an item off the cache, or a new one if the cache is empty. */
    method TakeItem(v: T) returns (ti: TimeoutItem<T>)
      requires Valid()
      modifies this`itemCache, this`itemsCached, this`g, g.where.Keys
      ensures Valid() && ti !in g.where && g.timers == old(g.timers)
      ensures (fresh(ti) || ti in old(g.where)) && g.where.Keys == old(g.where.Keys) - {ti}
      ensures ti.Item == v && ti.Next == null
    {
      if itemCache != null {
        ti := itemCache;
        PopCache();
        ti.Next := null;
        ti.Item := v;
      } else {
        ti := new TimeoutItem(v);
      }
    }

    method PopCache()
      requires Valid() && g.cache != []
      modifies this`itemCache, this`itemsCached, this`g
      ensures Valid() && g == Popped(old(g))
    {
      PlacementPop(g.where, g.slots, g.due, |g.timers.purged|, g.cache);
      ChainTail(g.cache);
      itemCache := itemCache.Next;
      itemsCached := itemsCached - 1;
      g := Popped(g);
    }

    /** Everything but slot i is in order. */
    ghost predicate ValidBut(i: int)
      reads this, wheel, expired, wheel[..], g.where.Keys
    {
      && Frame() && Apart(g)
      && (forall s :: 0 <= s < wheelLen && s != i ==>
            ListOk(wheel[s], g.slots[s], g.timers.waiting[Ahead(s, current, wheelLen)]))
      && ListOk(expired, g.due, g.timers.expired)
      && CacheOk()
    }

    /** The second half of Add: ti goes to the tail of slot i. */
    method Link(i: int, ti: TimeoutItem<T>, ghost e: Entry<T>)
      requires Valid() && 0 <= i < wheelLen && ti !in g.where && ti.Next == null && ti.Item == e.item
      modifies this`g, wheel[i], g.slots[i]
      ensures Valid() && g.timers == Filed(old(g.timers), Ahead(i, current, wheelLen), e)
      ensures g.where.Keys == old(g.where.Keys) + {ti} && ti.Item == old(ti.Item)
    {
      PlacementLink(g.where, g.slots, g.due, |g.timers.purged|, g.cache, i, ti);
      AppendToSlot(i, ti, e);
      RecordLink(i, ti, e);
    }

    method AppendToSlot(i: int, ti: TimeoutItem<T>, ghost e: Entry<T>)
      requires Valid() && 0 <= i < wheelLen && ti !in g.where && ti !in g.slots[i] && ti.Next == null && ti.Item == e.item
      modifies wheel[i], g.slots[i]
      ensures ValidBut(i)
      ensures ListOk(wheel[i], g.slots[i] + [ti], g.timers.waiting[Ahead(i, current, wheelLen)] + [e])
      ensures ti.Item == old(ti.Item)
    {
      PlacementApart(g.where, g.slots, g.due, |g.timers.purged|, g.cache, i);
      wheel[i].Append(ti, g.slots[i], g.timers.waiting[Ahead(i, current, wheelLen)], e);
      forall s | 0 <= s < wheelLen && s != i
        ensures ListOk(wheel[s], g.slots[s], g.timers.waiting[Ahead(s, current, wheelLen)])
      {
        assert old(ListOk(wheel[s], g.slots[s], g.timers.waiting[Ahead(s, current, wheelLen)]));
      }
    }

    ghost method RecordLink(i: int, ti: TimeoutItem<T>, e: Entry<T>)
      requires ValidBut(i) && 0 <= i < wheelLen && ti !in g.where
      requires ListOk(wheel[i], g.slots[i] + [ti], g.timers.waiting[Ahead(i, current, wheelLen)] + [e])
      modifies this`g
      ensures Valid() && g == Linked(old(g), i, Ahead(i, current, wheelLen), ti, e)
    {
      PlacementLink(g.where, g.slots, g.due, |g.timers.purged|, g.cache, i, ti);
      g := Linked(g, i, Ahead(i, current, wheelLen), ti, e);
      forall s | 0 <= s < wheelLen
        ensures ListOk(wheel[s], g.slots[s], g.timers.waiting[Ahead(s, current, wheelLen)])
      {
        if s != i {
          assert Ahead(s, current, wheelLen) != Ahead(i, current, wheelLen);
          assert old(ListOk(wheel[s], g.slots[s], g.timers.waiting[Ahead(s, current, wheelLen)]));
        }
      }
    }

    /** Removes and returns the first expired item, keeping the list item for reuse if the cache
        has room. */
    method Purge() returns (r: Option<T>)
      requires Valid()
      modifies this, expired, wheel[..], g.where.Keys
      ensures Valid() && g.where.Keys <= old(g.where.Keys)
      ensures g.timers == Purged(old(g.timers))
      ensures r == if old(g.timers.expired) == [] then None else Some(old(g.timers.expired)[0].item)
    {
      if expired.Head == null {
        return None;
      }
      var ti := TakeExpired();
      ti.Next := null;
      if itemsCached < TIMER_CACHE_MAX {
        PushCache(ti);
      }
      return Some(ti.Item);
    }

    method TakeExpired() returns (ti: TimeoutItem<T>)
      requires Valid() && expired.Head != null
      modifies this`g, expired
      ensures Valid() && g.timers == Purged(old(g.timers)) && ti !in g.where && ti in old(g.where)
      ensures g.where == old(g.where) - {ti}
      ensures old(g.timers.expired) != [] && ti.Item == old(g.timers.expired)[0].item
    {
      PlacementPurge(g.where, g.slots, g.due, |g.timers.purged|, g.cache);
      ti := expired.TakeHead(g.due, g.timers.expired);
      g := Dropped(g);
      forall s | 0 <= s < wheelLen
        ensures ListOk(wheel[s], g.slots[s], g.timers.waiting[Ahead(s, current, wheelLen)])
      {
        assert old(ListOk(wheel[s], g.slots[s], g.timers.waiting[Ahead(s, current, wheelLen)]));
      }
    }

    method PushCache(ti: TimeoutItem<T>)
      requires Valid() && ti !in g.where && itemsCached < TIMER_CACHE_MAX
      modifies this`itemCache, this`itemsCached, this`g, ti`Next
      ensures Valid() && g == Cached(old(g), ti)
    {
      PlacementPush(g.where, g.slots, g.due, |g.timers.purged|, g.cache, ti);
      LinkCache(ti);
      g := Cached(g, ti);
    }

    /** Every list is in order; the item cache may not be. */
    ghost predicate ListsOk()
      reads this, wheel, expired, wheel[..], g.where.Keys
    {
      && Frame() && Apart(g)
      && (forall s :: 0 <= s < wheelLen ==> ListOk(wheel[s], g.slots[s], g.timers.waiting[Ahead(s, current, wheelLen)]))
      && ListOk(expired, g.due, g.timers.expired)
    }

    method LinkCache(ti: TimeoutItem<T>)
      requires Valid() && ti !in g.where
      modifies this`itemCache, this`itemsCached, ti`Next
      ensures ListsOk() && Chain([ti] + g.cache) && itemCache == ti && itemsCached == old(itemsCached) + 1
    {
      ti.Next := itemCache;
      itemCache := ti;
      itemsCached := itemsCached + 1;
      forall s | 0 <= s < wheelLen
        ensures ListOk(wheel[s], g.slots[s], g.timers.waiting[Ahead(s, current, wheelLen)])
      {
        assert old(ListOk(wheel[s], g.slots[s], g.timers.waiting[Ahead(s, current, wheelLen)]));
      }
    }

    /** One turn of Advance's loop: the next slot comes round and its list joins the expired one. */
    method Tick(ghost lists: seq<TimeoutList<T>>, ghost items: set<TimeoutItem<T>>)
      requires Valid() && lists == wheel[..] && items == g.where.Keys
      modifies this`current, this`g, expired, lists, items
      ensures Valid() && g.timers == Ticked(old(g.timers)) && g.where.Keys == items
    {
      var next := current + 1;
      if next >= wheelLen {
        next := 0;
      }
      SpliceSlot(next);
      RecordTick(next);
    }

    /** The list surgery of a tick. */
    method SpliceSlot(i: int)
      requires Valid() && 0 <= i < wheelLen && Ahead(i, current, wheelLen) == 0
      modifies wheel[i], expired, g.due
      ensures Frame() && Apart(g) && CacheOk()
      ensures forall s :: 0 <= s < wheelLen && s != i ==>
                ListOk(wheel[s], g.slots[s], g.timers.waiting[Ahead(s, current, wheelLen)])
      ensures ListOk(wheel[i], [], [])
      ensures ListOk(expired, g.due + g.slots[i], g.timers.expired + g.timers.waiting[0])
    {
      PlacementDue(g.where, g.slots, g.due, |g.timers.purged|, g.cache);
      assert ListOk(wheel[i], g.slots[i], g.timers.waiting[0]);
      expired.Splice(wheel[i], g.due, g.timers.expired, g.slots[i], g.timers.waiting[0]);
      forall s | 0 <= s < wheelLen && s != i
        ensures ListOk(wheel[s], g.slots[s], g.timers.waiting[Ahead(s, current, wheelLen)])
      {
        assert old(ListOk(wheel[s], g.slots[s], g.timers.waiting[Ahead(s, current, wheelLen)]));
      }
    }

    /** The wheel has turned to slot i. */
    method RecordTick(i: int)
      requires Frame() && Apart(g) && CacheOk() && 0 <= i < wheelLen && Ahead(i, current, wheelLen) == 0
      requires forall s :: 0 <= s < wheelLen && s != i ==>
                 ListOk(wheel[s], g.slots[s], g.timers.waiting[Ahead(s, current, wheelLen)])
      requires ListOk(wheel[i], [], []) && ListOk(expired, g.due + g.slots[i], g.timers.expired + g.timers.waiting[0])
      modifies this`current, this`g
      ensures Valid() && g == CameRound(old(g), i)
    {
      PlacementMove(g.where, g.slots, g.due, |g.timers.purged|, g.cache, i);
      current := i;
      g := CameRound(g, i);
      forall s | 0 <= s < wheelLen
        ensures ListOk(wheel[s], g.slots[s], g.timers.waiting[Ahead(s, current, wheelLen)])
      {
        TurnedSlot(old(g), i, s, old(current), wheelLen);
      }
    }

    /** Moves the wheel on by as many ticks as the clock says, at most once round, and the clock by
        the full number of ticks. */
    method Advance(now: int)
      requires Sized() && Valid() && NotBackwards(g.timers, now)
      modifies this, expired, wheel[..], g.where.Keys
      ensures Valid() && g.timers == Advanced(old(g.timers), now) && g.where.Keys == old(g.where.Keys)
    {
      var ticks, clock := TicksUntil(now);
      ghost var skipped := Advanced(g.timers, now).now - TickedBy(g.timers, ticks).now;
      AdvanceBy(ticks, clock, skipped, g.where.Keys);
    }

    /** How often the loop of Advance turns, at most once round, and where the clock is left: the wheel then is as
        after all the ticks, but for their count. */
    method TicksUntil(now: int) returns (ticks: nat, clock: int)
      requires Sized() && Frame() && NotBackwards(g.timers, now)
      ensures Configured(g.timers) && |g.timers.waiting| > 0 && ticks <= wheelLen
      ensures Advanced(g.timers, now) == TickedBy(g.timers, ticks).(now := Advanced(g.timers, now).now, lastTick := Some(clock))
    {
      var last := if lastTick.None? then now else lastTick.value;
      var adv := (now - last) / tickDuration;
      var turns := adv;
      if turns > wheelLen {
        turns := wheelLen;
      }
      AdvancedAs(g.timers, now, last, adv, turns);
      ticks, clock := turns, last + tickDuration * adv;
    }

    /** The loop of Advance, and the clock set after it. */
    method AdvanceBy(ticks: nat, clock: int, ghost skipped: int, ghost items: set<TimeoutItem<T>>)
      requires Valid() && items == g.where.Keys
      modifies this`current, this`lastTick, this`g, expired, wheel[..], items
      ensures Valid() && g.where.Keys == items && |old(g.timers.waiting)| > 0
      ensures g.timers == TickedBy(old(g.timers), ticks).(now := TickedBy(old(g.timers), ticks).now + skipped, lastTick := Some(clock))
    {
      TickUpTo(ticks, wheel[..], items);
      SetClock(clock, skipped);
    }

    method TickUpTo(ticks: nat, ghost lists: seq<TimeoutList<T>>, ghost items: set<TimeoutItem<T>>)
      requires Valid() && lists == wheel[..] && items == g.where.Keys
      modifies this`current, this`g, expired, lists, items
      ensures Valid() && g.timers == TickedBy(old(g.timers), ticks) && g.where.Keys == items
    {
      ghost var was := g.timers;
      for i := 0 to ticks
        invariant Valid() && g.timers == TickedBy(was, i) && lists == wheel[..] && g.where.Keys == items
      {
        Tick(lists, items);
        TickedByNext(was, i);
      }
    }

    /** The clock moves on, and with it the count of ticks that the cap on the loop skipped. */
    method SetClock(clock: int, ghost skipped: int)
      requires Valid()
      modifies this`lastTick, this`g
      ensures Valid() && g == old(g).(timers := g.timers)
      ensures g.timers == old(g.timers).(now := old(g.timers.now) + skipped, lastTick := Some(clock))
    {
      lastTick := Some(clock);
      g := g.(timers := g.timers.(now := g.timers.now + skipped, lastTick := Some(clock)));
      forall s | 0 <= s < wheelLen
        ensures ListOk(wheel[s], g.slots[s], g.timers.waiting[Ahead(s, current, wheelLen)])
      {
        assert old(ListOk(wheel[s], g.slots[s], g.timers.waiting[Ahead(s, current, wheelLen)]));
      }
    }
  }

  lemma KeysLess<T>(keys: set<TimeoutItem<T>>, ti: TimeoutItem<T>, keys': set<TimeoutItem<T>>)
    requires keys' == keys - {ti} + {ti}
    ensures keys' - keys == if ti in keys then {} else {ti}
  {}

  /** What slot s is owed once slot i has come round. */
  lemma TurnedSlot<T>(g: Layout<T>, i: int, s: int, current: int, wheelLen: int)
    requires |g.slots| == |g.timers.waiting| == wheelLen && 0 <= current < wheelLen
    requires 0 <= i < wheelLen && 0 <= s < wheelLen && Ahead(i, current, wheelLen) == 0
    ensures var g' := CameRound(g, i); var n := Ahead(s, i, wheelLen);
      && 0 <= n < wheelLen
      && (s == i ==> g'.slots[s] == [] && g'.timers.waiting[n] == [])
      && (s != i ==> g'.slots[s] == g.slots[s] && Ahead(s, current, wheelLen) == n + 1 < wheelLen
                     && g'.timers.waiting[n] == g.timers.waiting[n + 1])
  {}

  lemma TickedByNext<T>(t: Timers<T>, n: nat)
    requires |t.waiting| > 0
    ensures TickedBy(t, n + 1) == Ticked(TickedBy(t, n))
  {}

  /** Stopping the loop after a full turn loses nothing: the ticks left out only count. */
  lemma AdvancedAs<T>(t: Timers<T>, now: int, last: int, adv: int, ticks: int)
    requires Configured(t) && NotBackwards(t, now) && last == (if t.lastTick.None? then now else t.lastTick.value)
    requires adv == (now - last) / t.tick && ticks == (if adv > |t.waiting| then |t.waiting| else adv)
    ensures |t.waiting| > 0 && 0 <= ticks
    ensures Advanced(t, now)
         == TickedBy(t, ticks).(now := TickedBy(t, ticks).now + (adv - ticks), lastTick := Some(last + t.tick * adv))
  {
    ConfiguredHasSlots(t);
    ElapsedIsNat(t, now);
    if t.lastTick.None? { assert 0 / t.tick == 0; }
    TickedByFields(t, ticks);
    if adv > |t.waiting| { CapIsHarmless(t, adv); }
  }
}
