/**
 * The fixed-capacity object pool of mcachedqueue.c (`mcached_queue_t`),
 * over slot indices instead of raw memory: the storage block is an arena of
 * `capacity` slots, and the idle and used intrusive lists are the sequences
 * of the slots they link, head first. The recursive mutex is left out; the
 * ready event is the `Event.ReadyEvent` object the pool owns.
 *
 * The bookkeeping is specified by step functions on a `QueueView` value and
 * implemented by the class `MCachedQueue`, whose methods update the lists and
 * counters in place and are proved to follow the step functions.
 */
module MCachedQueue {
  import opened Uint16
  import opened SlotLists
  import Event

  /** A slot pointer that may be NULL. */
  datatype Option<T> = None | Some(value: T)

  /** The lists and counters of `mcached_queue_t`, with the ready event's counter. */
  datatype QueueView = QueueView(
    idle: seq<Slot>,
    used: seq<Slot>,
    maxItemCnt: int,
    usedItemCnt: int,
    nready: u16)

  /**
   * The pool invariant for a pool of `n` slots: the two lists partition the
   * slots, `used_item_cnt` counts the used list, `max_item_cnt` (which starts
   * at 0 and moves against `used_item_cnt`) is its negation, and the ready
   * counter is `used_item_cnt` in 16 bits.
   */
  ghost predicate QueueInv(v: QueueView, n: nat) {
    && Partition(v.idle, v.used, n)
    && v.usedItemCnt == |v.used|
    && v.maxItemCnt == -v.usedItemCnt
    && v.nready == Wrap(v.usedItemCnt)
  }

  /**
   * `IS_IDLE_LIST_EMPTY`, as the macro writes it; whatever the counters say,
   * it never reports an empty idle list while a slot is still idle.
   */
  predicate IdleListEmpty(v: QueueView): (b: bool)
    ensures b ==> v.idle == []
  {
    v.usedItemCnt >= v.maxItemCnt && v.idle == []
  }

  // ---------------------------------------------------------------------------
  // Step functions
  // ---------------------------------------------------------------------------

  /** The pool as `mcached_queue_init` leaves it: every slot idle in index order. */
  function Initial(n: nat): (r: QueueView)
    ensures QueueInv(r, n)
    ensures r.idle == Range(n) && r.used == []
    ensures r.maxItemCnt == 0 && r.usedItemCnt == 0 && r.nready == 0
  {
    assert Range(n) + [] == Range(n);
    QueueView(Range(n), [], 0, 0, 0)
  }

  /**
   * What init leaves: `n` slots idle in index order, none used, no counts
   * and a ready counter at 0. A failed init is the case `n == 0`.
   */
  lemma FreshPool(v: QueueView, n: nat)
    requires v.idle == Range(n) && v.used == []
    requires v.maxItemCnt == 0 && v.usedItemCnt == 0 && v.nready == 0
    ensures v == Initial(n)
  {
  }

  /** `mcached_queue_add`: `list_move` to the head of the used list, then the counters and the ready event. */
  function AfterAdd(v: QueueView, s: Slot): (r: QueueView)
    ensures r.used == [s] + v.used
    ensures r.usedItemCnt == v.usedItemCnt + 1 && r.maxItemCnt == v.maxItemCnt - 1
    ensures r.nready == Inc(v.nready)
  {
    QueueView(Without(v.idle, s), [s] + v.used, v.maxItemCnt - 1, v.usedItemCnt + 1, Inc(v.nready))
  }

  /** `mcached_queue_del`: `list_move` to the head of the idle list, then the counters and the ready event. */
  function AfterDel(v: QueueView, s: Slot): (r: QueueView)
    ensures r.idle == [s] + v.idle
    ensures r.usedItemCnt == v.usedItemCnt - 1 && r.maxItemCnt == v.maxItemCnt + 1
    ensures r.nready == Dec(v.nready)
  {
    QueueView([s] + v.idle, Without(v.used, s), v.maxItemCnt + 1, v.usedItemCnt - 1, Dec(v.nready))
  }

  // ---------------------------------------------------------------------------
  // Properties
  // ---------------------------------------------------------------------------

  /**
   * Adding an idle slot keeps the invariant; the slot leaves the idle list
   * and every other slot stays in the list it was in.
   */
  lemma AddPreservesInv(v: QueueView, n: nat, s: Slot)
    requires QueueInv(v, n) && s in v.idle
    ensures QueueInv(AfterAdd(v, s), n)
    ensures s !in AfterAdd(v, s).idle && |AfterAdd(v, s).idle| == |v.idle| - 1
    ensures forall x :: x != s ==> (x in AfterAdd(v, s).idle <==> x in v.idle)
    ensures forall x :: x != s ==> (x in AfterAdd(v, s).used <==> x in v.used)
  {
    var r := AfterAdd(v, s);
    MovePreservesPartition(v.idle, v.used, n, s);
    WrapSucc(v.usedItemCnt);
    PartitionAt(r.idle, r.used, n, s);
    WithoutKeepsOthers(v.idle, s);
  }

  /**
   * Deleting a used slot keeps the invariant; the slot leaves the used list
   * and every other slot stays in the list it was in.
   */
  lemma DelPreservesInv(v: QueueView, n: nat, s: Slot)
    requires QueueInv(v, n) && s in v.used
    ensures QueueInv(AfterDel(v, s), n)
    ensures s !in AfterDel(v, s).used && |AfterDel(v, s).used| == |v.used| - 1
    ensures forall x :: x != s ==> (x in AfterDel(v, s).idle <==> x in v.idle)
    ensures forall x :: x != s ==> (x in AfterDel(v, s).used <==> x in v.used)
  {
    var r := AfterDel(v, s);
    MovePreservesPartition(v.idle, v.used, n, s);
    WrapSucc(v.usedItemCnt);
    PartitionAt(r.idle, r.used, n, s);
    WithoutKeepsOthers(v.used, s);
  }

  /**
   * Publishing the slot that `get_idle_item` offers and then deleting it
   * restores the pool exactly, ready counter included.
   */
  lemma AddThenDel(v: QueueView, n: nat)
    requires QueueInv(v, n) && v.idle != []
    ensures AfterDel(AfterAdd(v, v.idle[0]), v.idle[0]) == v
  {
    var s := v.idle[0];
    assert v.idle == [s] + v.idle[1..];
    assert Without(v.idle, s) == v.idle[1..];
    assert Without([s] + v.used, s) == v.used;
    DecInc(v.nready);
  }

  /**
   * `max_item_cnt` never exceeds `used_item_cnt`, so the counter half of
   * `IS_IDLE_LIST_EMPTY` is always true and the macro holds exactly when the
   * idle list is empty.
   */
  lemma IdleListEmptyIff(v: QueueView, n: nat)
    requires QueueInv(v, n)
    ensures v.usedItemCnt >= v.maxItemCnt
    ensures IdleListEmpty(v) <==> v.idle == []
  {
  }

  /** The two lists always hold `n` slots between them, each slot once. */
  lemma PoolSize(v: QueueView, n: nat)
    requires QueueInv(v, n)
    ensures |v.idle| + v.usedItemCnt == n
    ensures forall x: Slot :: x < n ==> x in v.idle || x in v.used
    ensures forall x :: x in v.idle ==> x < n && x !in v.used
  {
    PartitionSize(v.idle, v.used, n);
    PartitionCovers(v.idle, v.used, n);
  }

  /**
   * For a pool of fewer than 2^16 slots, the ready counter is non-zero
   * exactly when the used list is non-empty.
   */
  lemma ReadyTracksUsed(v: QueueView, n: nat)
    requires QueueInv(v, n) && n < MODULUS
    ensures v.nready != 0 <==> v.used != []
  {
    PartitionSize(v.idle, v.used, n);
  }

  /**
   * Once 2^16 slots are in use the 16-bit ready counter has wrapped to zero,
   * so a traversal would block although the used list is not empty.
   */
  lemma ReadyWrapsWhenFull(v: QueueView, n: nat)
    requires QueueInv(v, n) && |v.used| == MODULUS
    ensures v.used != [] && v.nready == 0
  {
  }

  /**
   * A traversal deciding by `del` has walked the first `j` slots of the used
   * list `u` it started from: the kept ones, then the slots not yet visited,
   * are the used list, and the deleted ones sit in front of the idle list
   * `idle0` it started from.
   */
  ghost predicate Walked(v: QueueView, u: seq<Slot>, idle0: seq<Slot>, j: nat, del: Slot -> bool) {
    && j <= |u|
    && v.used == Kept(u[..j], del) + u[j..]
    && v.idle == Deleted(u[..j], del) + idle0
  }

  /** Before the first step the walk has kept and deleted nothing. */
  lemma WalkStart(v: QueueView, del: Slot -> bool)
    ensures Walked(v, v.used, v.idle, 0, del)
  {
    assert v.used[..0] == [] && v.used[0..] == v.used;
  }

  /** The live used list holds what the walk has kept followed by the slots it has not reached. */
  lemma WalkRemaining(v: QueueView, u: seq<Slot>, idle0: seq<Slot>, j: nat, del: Slot -> bool)
    requires Walked(v, u, idle0, j, del)
    ensures |v.used| == |Kept(u[..j], del)| + (|u| - j)
  {
  }

  /** A walk that has passed the last slot has kept and deleted the whole list. */
  lemma WalkDone(v: QueueView, u: seq<Slot>, idle0: seq<Slot>, j: nat, del: Slot -> bool)
    requires Walked(v, u, idle0, j, del) && |v.used| <= |Kept(u[..j], del)|
    ensures j == |u| && u[..j] == u
    ensures v.used == Kept(u, del) && v.idle == Deleted(u, del) + idle0
  {
    assert u[..|u|] == u;
    assert Kept(u, del) + [] == Kept(u, del);
  }

  /**
   * A step of `list_for_each_safe` in a traversal that deletes the slots
   * `del` holds of, at the moment the handler deletes the slot `u[j]` under
   * the cursor. The slot is in the used list exactly once, so unlinking it
   * moves it to the idle head and leaves the cursor on its successor: the
   * lists then match the walk after `j + 1` slots.
   */
  lemma TraverseDelStep(v: QueueView, n: nat, u: seq<Slot>, idle0: seq<Slot>, j: nat, del: Slot -> bool)
    requires QueueInv(v, n) && j < |u| && del(u[j])
    requires v.used == Kept(u[..j], del) + u[j..]
    requires v.idle == Deleted(u[..j], del) + idle0
    ensures u[j] in v.used
    ensures AfterDel(v, u[j]).used == Kept(u[..j + 1], del) + u[j + 1..]
    ensures AfterDel(v, u[j]).idle == Deleted(u[..j + 1], del) + idle0
    ensures Kept(u[..j + 1], del) == Kept(u[..j], del)
  {
    UnlinkInTraverse(v, n, u, j, del);
    DelStep(u, j, del);
    assert [u[j]] + (Deleted(u[..j], del) + idle0) == ([u[j]] + Deleted(u[..j], del)) + idle0;
  }

  /**
   * After a traversal, a slot that was used is still used exactly when the
   * handler kept it, and idle exactly when the handler deleted it.
   */
  lemma TraverseOutcome(idle: seq<Slot>, used: seq<Slot>, n: nat, del: Slot -> bool)
    requires Partition(idle, used, n)
    ensures forall x :: x in used ==> (x in Kept(used, del) <==> !del(x))
    ensures forall x :: x in used ==> (x in Deleted(used, del) + idle <==> del(x))
  {
    KeptDeletedSplit(used, del);
    PartitionCovers(idle, used, n);
  }

  /** A step of the traversal at which the handler keeps the slot under the cursor. */
  lemma TraverseKeepStep(v: QueueView, u: seq<Slot>, idle0: seq<Slot>, j: nat, del: Slot -> bool)
    requires j < |u| && !del(u[j])
    requires v.used == Kept(u[..j], del) + u[j..]
    requires v.idle == Deleted(u[..j], del) + idle0
    ensures v.used == Kept(u[..j + 1], del) + u[j + 1..]
    ensures v.idle == Deleted(u[..j + 1], del) + idle0
    ensures |Kept(u[..j + 1], del)| == |Kept(u[..j], del)| + 1
  {
    KeepStep(u, j, del);
  }

  /** The used-list half of a deleting step of the traversal. */
  lemma UnlinkInTraverse(v: QueueView, n: nat, u: seq<Slot>, j: nat, del: Slot -> bool)
    requires QueueInv(v, n) && j < |u| && del(u[j])
    requires v.used == Kept(u[..j], del) + u[j..]
    ensures u[j] in v.used
    ensures AfterDel(v, u[j]).used == Kept(u[..j + 1], del) + u[j + 1..]
  {
    assert v.used[|Kept(u[..j], del)|] == u[j];
    PartitionAt(v.idle, v.used, n, u[j]);
    UnlinkAtCursor(Kept(u[..j], del), u, j);
    DelStep(u, j, del);
  }

  // ---------------------------------------------------------------------------
  // The pool, updated in place
  // ---------------------------------------------------------------------------

  /**
   * The loop of `mcached_queue_init` that threads the slots of the fresh
   * storage block onto the idle list with `list_add_tail`, one per pass.
   */
  method LinkSlots(itemCnt: int) returns (list: seq<Slot>, count: nat)
    ensures count == (if itemCnt < 0 then 0 else itemCnt)
    ensures list == Range(count)
  {
    list := [];
    count := 0;
    while count < itemCnt
      invariant count <= (if itemCnt < 0 then 0 else itemCnt)
      invariant list == Range(count)
    {
      list := list + [count];
      count := count + 1;
    }
  }

  /** `mcached_queue_t` without its mutex. */
  class MCachedQueue {
    var idle: seq<Slot>
    var used: seq<Slot>
    var maxItemCnt: int
    var usedItemCnt: int
    var readyEvent: Event.ReadyEvent?
    /** `mem_cached != NULL`: the storage block is allocated. */
    var memCached: bool
    /** The `item_cnt` the pool was initialised with; the C struct does not keep it. */
    ghost var capacity: nat

    /**
     * The caller's `mcached_queue_t` before `mcached_queue_init`: no storage
     * and no ready event. C leaves the fields indeterminate; here they are empty.
     */
    constructor()
      ensures idle == [] && used == [] && maxItemCnt == 0 && usedItemCnt == 0
      ensures readyEvent == null && !memCached && capacity == 0
    {
      idle := [];
      used := [];
      maxItemCnt := 0;
      usedItemCnt := 0;
      readyEvent := null;
      memCached := false;
      capacity := 0;
    }

    function View(): QueueView
      reads this, readyEvent
      requires readyEvent != null
    {
      QueueView(idle, used, maxItemCnt, usedItemCnt, readyEvent.nready)
    }

    ghost predicate Valid()
      reads this, readyEvent
    {
      readyEvent != null && memCached && QueueInv(View(), capacity)
    }

    /**
     * `mcached_queue_init`: `callocOk` says whether the storage block could
     * be allocated. On success every slot is idle, in index order.
     */
    method Init(itemSize: int, itemCnt: int, callocOk: bool) returns (ret: int)
      modifies this
      ensures ret == 0 || ret == -1
      ensures ret == 0 <==> callocOk
      ensures readyEvent != null && fresh(readyEvent) && readyEvent.nready == 0
      ensures used == [] && maxItemCnt == 0 && usedItemCnt == 0
      ensures callocOk ==> Valid() && capacity == (if itemCnt < 0 then 0 else itemCnt)
      ensures callocOk ==> View() == Initial(capacity)
      ensures !callocOk ==> idle == [] && !memCached && capacity == 0
      ensures QueueInv(View(), capacity)
    {
      idle := [];
      used := [];
      maxItemCnt := 0;
      usedItemCnt := 0;
      var ready := new Event.ReadyEvent();
      readyEvent := ready;
      if !callocOk {
        memCached := false;
        capacity := 0;
        FreshPool(View(), 0);
        return -1;
      }
      memCached := true;
      var slots, count := LinkSlots(itemCnt);
      idle := slots;
      capacity := count;
      FreshPool(View(), capacity);
      ret := 0;
    }

    /** `mcached_queue_destroy`: counters cleared and storage freed; the lists are not touched. */
    method Destroy() returns (ret: int)
      modifies this
      ensures ret == 0
      ensures maxItemCnt == 0 && usedItemCnt == 0 && !memCached
      ensures idle == old(idle) && used == old(used) && readyEvent == old(readyEvent)
    {
      maxItemCnt := 0;
      usedItemCnt := 0;
      memCached := false;
      ret := 0;
    }

    /** `mcached_queue_add`: publishes an idle slot at the head of the used list. */
    method Add(newItem: Slot) returns (ret: int)
      requires Valid() && newItem in idle
      modifies this, readyEvent
      ensures Valid() && ret == 0
      ensures View() == AfterAdd(old(View()), newItem)
      ensures capacity == old(capacity) && readyEvent == old(readyEvent)
    {
      AddPreservesInv(View(), capacity, newItem);
      idle := Without(idle, newItem);
      used := [newItem] + used;
      usedItemCnt := usedItemCnt + 1;
      maxItemCnt := maxItemCnt - 1;
      var status := readyEvent.Active();
      ret := 0;
    }

    /** `mcached_queue_del`: returns a used slot to the head of the idle list. */
    method Del(delItem: Slot)
      requires Valid() && delItem in used
      modifies this, readyEvent
      ensures Valid()
      ensures View() == AfterDel(old(View()), delItem)
      ensures capacity == old(capacity) && readyEvent == old(readyEvent)
    {
      DelPreservesInv(View(), capacity, delItem);
      used := Without(used, delItem);
      idle := [delItem] + idle;
      usedItemCnt := usedItemCnt - 1;
      maxItemCnt := maxItemCnt + 1;
      var status := readyEvent.Update();
    }

    /**
     * `mcached_queue_get_idle_item`: offers the head of the idle list without
     * taking it off, or NULL and -1 when `IS_IDLE_LIST_EMPTY` holds. It does
     * not look at the storage block, so it also answers after a failed init.
     */
    method GetIdleItem() returns (ret: int, item: Option<Slot>)
      requires readyEvent != null && QueueInv(View(), capacity)
      ensures ret == -1 <==> IdleListEmpty(View())
      ensures ret == -1 <==> idle == []
      ensures ret == -1 ==> item == None
      ensures ret != -1 ==> ret == 0 && item == Some(idle[0])
    {
      IdleListEmptyIff(View(), capacity);
      if IdleListEmpty(View()) {
        return -1, None;
      }
      return 0, Some(idle[0]);
    }

    /**
     * `mcached_queue_find`: the first slot of the used list, from the head,
     * for which `compared(slot, findIndex)` holds, or NULL when there is none.
     */
    method Find<K>(findIndex: K, compared: (Slot, K) -> bool) returns (ret: int, findItem: Option<Slot>)
      ensures ret == 0
      ensures findItem == None <==> forall i :: 0 <= i < |used| ==> !compared(used[i], findIndex)
      ensures findItem != None ==>
                exists i :: 0 <= i < |used| && used[i] == findItem.value && compared(used[i], findIndex) &&
                            forall j :: 0 <= j < i ==> !compared(used[j], findIndex)
    {
      var i := 0;
      while i < |used|
        invariant 0 <= i <= |used|
        invariant forall j :: 0 <= j < i ==> !compared(used[j], findIndex)
      {
        if compared(used[i], findIndex) {
          return 0, Some(used[i]);
        }
        i := i + 1;
      }
      return 0, None;
    }

    /**
     * `mcached_queue_traverse` with a handler that deletes the slot it is
     * given exactly when `del` holds of it. It waits on the ready event, then
     * walks the used list with `list_for_each_safe`.
     *
     * Every used slot is visited once, in list order; the kept ones stay in
     * order and the deleted ones are at the front of the idle list, the last
     * one deleted first.
     */
    method Traverse(del: Slot -> bool) returns (ghost visited: seq<Slot>)
      requires Valid() && readyEvent.nready != 0
      modifies this, readyEvent
      ensures visited == old(used)
      ensures Valid()
      ensures used == Kept(old(used), del)
      ensures idle == Deleted(old(used), del) + old(idle)
      ensures forall x :: x in old(used) ==> (x in used <==> !del(x)) && (x in idle <==> del(x))
      ensures capacity == old(capacity) && readyEvent == old(readyEvent)
    {
      var status := readyEvent.Wait();
      visited := WalkUsed(del);
      TraverseOutcome(old(idle), old(used), capacity, del);
    }

    /**
     * The `list_for_each_safe` loop of `mcached_queue_traverse`. `visited`
     * records the slot the handler is called on in each pass.
     */
    method WalkUsed(del: Slot -> bool) returns (ghost visited: seq<Slot>)
      requires Valid()
      modifies this, readyEvent
      ensures visited == old(used)
      ensures Valid() && capacity == old(capacity) && readyEvent == old(readyEvent)
      ensures used == Kept(old(used), del) && idle == Deleted(old(used), del) + old(idle)
    {
      ghost var u := used;
      ghost var idle0 := idle;
      ghost var j := 0;
      var k := 0;
      visited := [];
      WalkStart(View(), del);
      while k < |used|
        invariant Valid() && capacity == old(capacity) && readyEvent == old(readyEvent)
        invariant Walked(View(), u, idle0, j, del) && k == |Kept(u[..j], del)|
        invariant visited == u[..j]
        decreases |u| - j
      {
        WalkRemaining(View(), u, idle0, j, del);
        var pos;
        k, pos := Visit(k, del, u, idle0, j);
        visited := visited + [pos];
        j := j + 1;
      }
      WalkDone(View(), u, idle0, j, del);
    }

    /**
     * One iteration of `list_for_each_safe` in a traversal: the handler runs
     * on the slot `pos` at the cursor `k` (its position in the live used
     * list), and the cursor moves to the cached successor `n`, which stands
     * at `k` when the handler deleted `pos` and at `k + 1` otherwise.
     */
    method Visit(k: nat, del: Slot -> bool, ghost u: seq<Slot>, ghost idle0: seq<Slot>, ghost j: nat) returns (next: nat, pos: Slot)
      requires Valid() && j < |u|
      requires Walked(View(), u, idle0, j, del) && k == |Kept(u[..j], del)|
      modifies this, readyEvent
      ensures Valid() && capacity == old(capacity) && readyEvent == old(readyEvent)
      ensures Walked(View(), u, idle0, j + 1, del) && next == |Kept(u[..j + 1], del)|
      ensures pos == u[j]
      ensures u[..j] + [pos] == u[..j + 1]
    {
      CursorAt(u, j, del, used);
      PrefixSnoc(u, j);
      pos := used[k];
      if del(pos) {
        TraverseDelStep(View(), capacity, u, idle0, j, del);
        Del(pos);
        next := k;
      } else {
        TraverseKeepStep(View(), u, idle0, j, del);
        next := k + 1;
      }
    }
  }

  /** After `i` rounds of the driver's loop: slots `i-1 .. 0` used, `i .. n-1` idle. */
  ghost predicate DriverStage(v: QueueView, n: nat, i: nat) {
    && i <= n
    && |v.used| == i && (forall k :: 0 <= k < i ==> v.used[k] == i - 1 - k)
    && |v.idle| == n - i && (forall k :: 0 <= k < n - i ==> v.idle[k] == i + k)
  }

  /** One round of the driver's loop: slot `i` is offered, and adding it reaches the next stage. */
  lemma DriverStep(v: QueueView, n: nat, i: nat)
    requires DriverStage(v, n, i) && i < n
    ensures v.idle != [] && v.idle[0] == i
    ensures DriverStage(AfterAdd(v, i), n, i + 1)
  {
    assert v.idle == [i] + v.idle[1..];
    assert Without(v.idle, i) == v.idle[1..];
  }

  /**
   * One round of the loop of the driver in main.c: take the slot that
   * `get_idle_item` offers (never NULL here), stamp its payload `a` with the
   * round number and add it. `payload` is the `a` field of every slot
   * stamped so far, indexed by slot.
   */
  method DriverRound(q: MCachedQueue, itemCnt: nat, i: nat, payload: seq<int>) returns (next: seq<int>)
    requires q.Valid() && q.capacity == itemCnt && i < itemCnt
    requires DriverStage(q.View(), itemCnt, i)
    requires |payload| == i && forall s :: 0 <= s < i ==> payload[s] == s
    modifies q, q.readyEvent
    ensures q.Valid() && q.capacity == itemCnt && q.readyEvent == old(q.readyEvent)
    ensures DriverStage(q.View(), itemCnt, i + 1)
    ensures |next| == i + 1 && forall s :: 0 <= s < i + 1 ==> next[s] == s
  {
    DriverStep(q.View(), itemCnt, i);
    var got, item := q.GetIdleItem();
    assert item == Some(i);
    next := payload + [i];
    var ret := q.Add(item.value);
  }

  /** The loop of the driver in main.c over a fresh pool of `itemCnt` slots. */
  method FillPool(itemCnt: nat) returns (q: MCachedQueue, payload: seq<int>)
    ensures fresh(q) && fresh(q.readyEvent)
    ensures q.Valid() && q.capacity == itemCnt
    ensures DriverStage(q.View(), itemCnt, itemCnt)
    ensures |payload| == itemCnt && forall s :: 0 <= s < itemCnt ==> payload[s] == s
  {
    q := new MCachedQueue();
    var ret := q.Init(8, itemCnt, true);
    payload := [];
    var i := 0;
    while i < itemCnt
      invariant q.Valid() && q.capacity == itemCnt && fresh(q.readyEvent)
      invariant DriverStage(q.View(), itemCnt, i)
      invariant |payload| == i && forall s :: 0 <= s < i ==> payload[s] == s
      decreases itemCnt - i
    {
      payload := DriverRound(q, itemCnt, i, payload);
      i := i + 1;
    }
  }

  /** The used list the driver's loop leaves, written out. */
  lemma DriverUsedList(used: seq<Slot>)
    requires |used| == 10 && forall k :: 0 <= k < 10 ==> used[k] == 9 - k
    ensures used == [9, 8, 7, 6, 5, 4, 3, 2, 1, 0]
  {
  }

  /**
   * The traversal in main.c: over slots `9 .. 0`, stamped with their own
   * index, a handler that deletes the item whose payload is 5 keeps the
   * other nine in order and deletes slot 5 alone.
   */
  lemma DriverTraversal(used: seq<Slot>, payload: seq<int>, del: Slot -> bool)
    requires |used| == 10 && forall k :: 0 <= k < 10 ==> used[k] == 9 - k
    requires |payload| == 10 && forall s :: 0 <= s < 10 ==> payload[s] == s
    requires forall s: Slot :: del(s) <==> s < |payload| && payload[s] == 5
    ensures Kept(used, del) == [9, 8, 7, 6, 4, 3, 2, 1, 0]
    ensures Deleted(used, del) == [5]
  {
    KeptAllBut(used, 4, del);
    assert used[..4] == [9, 8, 7, 6];
    assert used[5..] == [4, 3, 2, 1, 0];
  }

  /**
   * main.c: ten slots filled, then one traversal whose handler deletes the
   * item whose payload is 5. The handler is called on slots 9 down to 0,
   * most recent first. The other nine stay in the used list, most
   * recent first, and slot 5 is the only idle one.
   */
  method MainScenario() returns (q: MCachedQueue, ghost visited: seq<Slot>)
    ensures visited == [9, 8, 7, 6, 5, 4, 3, 2, 1, 0]
    ensures q.used == [9, 8, 7, 6, 4, 3, 2, 1, 0] && q.idle == [5]
  {
    var payload;
    q, payload := FillPool(10);
    var del := (s: Slot) => s < |payload| && payload[s] == 5;
    DriverTraversal(q.used, payload, del);
    DriverUsedList(q.used);
    assert q.idle == [] && q.readyEvent.nready == 10;
    visited := q.Traverse(del);
  }

  /**
   * main.c ignores what `mcached_queue_init` returns. When the storage block
   * cannot be allocated, both lists are empty and `get_idle_item` reports
   * that no slot is idle.
   */
  method FailedInitScenario() returns (q: MCachedQueue, ret: int, item: Option<Slot>)
    ensures !q.memCached && q.idle == [] && q.used == []
    ensures ret == -1 && item == None
  {
    q := new MCachedQueue();
    var initRet := q.Init(8, 10, false);
    ret, item := q.GetIdleItem();
  }
}
