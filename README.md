# mcachedqueue in Dafny

A model of the two sequential cores of mcachedqueue, a small C library for
embedded Linux. The model covers these two cores:

- **The event object** (`embed_event_t` in event.c). It has a state (off,
  set, pulsed), a reset mode (auto or manual) and two 16-bit counters:
  `threads_waiting` and `threads_to_release`. The operations are create,
  wait, trywait, set, pulse and reset, plus the release policy
  `event_on_one_release`. Alongside it is the **ready event**
  (`embed_ready_event_t`), a bare 16-bit counter with wait, active and
  update.
- **The fixed-capacity object pool** (`mcached_queue_t` in mcachedqueue.c).
  Its storage block holds `item_cnt` slots. The slots are threaded onto two
  intrusive lists, idle and used. Two counters, `used_item_cnt` and
  `max_item_cnt`, go with them, and so does the ready event. The operations
  are init, destroy, add, del, get_idle_item, find and traverse.

Files:

- `uint16.dfy` (module `Uint16`): `unsigned short` with C's wrap-around
  written out. `++` at 0xFFFF gives 0 and `--` at 0 gives 0xFFFF.
- `event.dfy` (module `Event`): one step function per event operation on an
  `EventView` value, with the event invariant and lemmas about runs of
  operations. The classes `EmbedEvent` and `ReadyEvent` update their fields
  in place, and each method is proved to follow its step function.
- `slot_lists.dfy` (module `SlotLists`): the two lists as sequences of slot
  indices, read from the list head, with Linux `list.h` semantics:
  - `Without` unlinks the node holding a slot. `list_move` is `Without` on
    one list plus a prepend to the other, in `MCachedQueue.AfterAdd` and
    `MCachedQueue.AfterDel`;
  - `Kept`/`Deleted` give what a `list_for_each_safe` walk leaves behind.
  `list_add_tail` appears inline, as the append in
  `MCachedQueue.LinkSlots`.
- `mcachedqueue.dfy` (module `MCachedQueue`): step functions on a
  `QueueView` value, the pool invariant and its lemmas, and the class
  `MCachedQueue`, whose methods update the lists and counters in place.
  The driver in main.c is modelled at the end as a scenario with a proved
  outcome.

How blocking is modelled. `embed_event_wait` is split into an arrival step
(`threads_waiting++`) and a wake step. The wake step may only be taken when
the event is not off, which is what the `pthread_cond_wait` loop
guarantees. `embed_ready_event_wait` becomes a method that requires
`nready != 0`. A woken waiter that finds the event off again goes back to
sleep: in `Event.Step` it changes nothing.

Points where the code does something easy to misread; the model follows
the code:

- `embed_event_trywait` is documented as "Try wait for event to be
  signaled" (event.c:97-98), and a pulse sets the event "to signaled
  state" (event.c:145). Yet trywait succeeds only on a **set** event
  (event.c:110), so on a pulsed event it fails.
- `mcached_queue_get_idle_item` hands back the idle head
  (mcachedqueue.c:142) and leaves it on the idle list. Only a later
  `mcached_queue_add` moves it.
- `mcached_queue_add` moves the slot to the **head** of the used list with
  `list_move` (mcachedqueue.c:97). So the used list reads most recent
  first, and a traversal visits the newest item first.
- For a manual-reset event, `embed_event_pulse` is documented as "this
  function will release all waiting threads" (event.c:147). The pulse does
  not reserve its releases for those threads, though. A thread that
  arrives while the event is still pulsed skips the wait loop (event.c:89)
  and uses up a share (event.c:69-72). The last share can then switch the
  event off while one of the original waiters is still blocked.
  `LateArrivalTakesShare` states this for every pulsed event, and
  `LateArrivalStrandsWaiter` shows it with two waiters.

The 16-bit counters are modelled with explicit modulo-65536 arithmetic, and
`ReadyEvent.Update` decrements with no floor, as the code does. In the pool,
though, `Del` requires its slot to be in the used list, so the pool's ready
counter never wraps below zero there (see "## Left out"). Upwards it can
wrap: the pool invariant states
`nready == used_item_cnt mod 65536`, and `ReadyWrapsWhenFull` shows that
with 65536 slots in use the ready counter reads 0. A traversal would then
block although the used list is not empty.

## Model

| member | source | states |
|---|---|---|
| Uint16.DecInc | event.c:88-91 | `threads_waiting++` followed by `--` (and the reverse) restores the 16-bit counter, wrap-around included |
| Uint16.WrapSucc | event.c:269-282 | incrementing or decrementing a 16-bit counter agrees with counting in unbounded integers taken modulo 2^16 |
| Event.Created | event.c:38-47 | `auto_reset` is the negation of `manual_reset` and nobody waits; initial gives set with one release pending, otherwise off with none; the invariant holds |
| Event.AfterRelease | event.c:53-75 | auto-reset always ends off with 0; manual-reset set is unchanged; manual-reset pulsed loses exactly one share and is off exactly when that was the last one; the `>= 0` assertion at line 70 tests an unsigned counter and so can never fire, and it is the invariant alone that keeps the decrement from wrapping to 0xFFFF; the invariant is kept from any non-off state |
| Event.AfterArrive | event.c:88 | only `threads_waiting` changes, by one in 16 bits; the invariant is kept |
| Event.AfterWake | event.c:89-92 | a wake (only from a non-off state) gives back the waiting count taken on arrival, keeps the invariant, and in auto-reset mode ends off |
| Event.TryWaitResult | event.c:104-116 | success exactly when the state is set; on failure nothing changes; the invariant is kept |
| Event.AfterSet | event.c:129-142 | set with one release pending, whatever the state before; mode and waiters unchanged |
| Event.AfterPulse | event.c:154-170 | with no waiters nothing changes; otherwise pulsed with 1 (auto-reset) or `threads_waiting` (manual) releases pending; the invariant is kept |
| Event.AfterReset | event.c:179-188 | off with nothing to release, whatever the state before; mode and waiters unchanged |
| Event.Step | event.c:84-188 | every operation keeps the event invariant and never changes the reset mode |
| Event.RunPreservesInv | event.c:38-188 | every state reachable by any sequence of operations from a valid state satisfies `threads_to_release == 0 <==> state == OFF` and, in auto-reset mode, `threads_to_release <= 1` |
| Event.SetResetIdempotent | event.c:133-184 | `set` twice equals `set` once; `reset` twice equals `reset` once |
| Event.UncontendedWait | event.c:84-95 | a wait on an event that is on goes through at once and amounts to exactly one release, with `threads_waiting` as it was before arrival |
| Event.TryWaitVersusWait | event.c:104-116 | on a set event trywait does what an uncontended wait does; on a pulsed event it fails and changes nothing, although a wait would pass |
| Event.AutoResetReleasesOne | event.c:56-67 | for an auto-reset event, any number of woken waiters lets exactly one through: the first switches it off and the rest stay blocked |
| Event.ManualSetPersists | event.c:56-62 | a manual-reset set event stays set with one release pending through any operations other than reset and pulse, so every later trywait succeeds |
| Event.PulseDrains | event.c:64-73 | each wake of a pulsed manual-reset event uses one share and one waiter; the event is off exactly after the last share |
| Event.ManualPulseReleasesExactlyN | event.c:154-170 | a pulse with N waiters on a manual-reset event sets pulsed/N, stays pulsed for fewer than N wakes, is off with no waiters after exactly N wakes, and a further wake changes nothing |
| Event.LateArrivalTakesShare | event.c:64-92 | a thread arriving at a pulsed manual-reset event passes straight through, uses up one share and leaves the waiting count as it found it |
| Event.LateArrivalStrandsWaiter | event.c:64-170 | with two waiters at a manual-reset pulse, a late arrival and one wake switch the event off with one of the two still waiting |
| Event.PulseWithoutWaiters | event.c:158-167 | a pulse with nobody waiting leaves every field unchanged, whatever the state; once a waiter has arrived it pulses |
| Event.EmbedEvent.constructor | event.c:38-47 | the fields are those of `Created` and the invariant holds |
| Event.EmbedEvent.Create | event.c:15-51 | success exactly when the allocation succeeds, with a fresh event as `Created` describes that satisfies the invariant; otherwise failure and no event |
| Event.EmbedEvent.OnOneRelease | event.c:53-75 | the fields are updated in place as `AfterRelease` describes; the invariant is kept when the event was on |
| Event.EmbedEvent.WaitArrive | event.c:87-88 | the fields are updated in place as `AfterArrive` describes; the invariant is kept |
| Event.EmbedEvent.WaitWake | event.c:89-94 | callable only when the event is not off; the fields are updated as `AfterWake` describes and the status is success; the invariant is kept |
| Event.EmbedEvent.TryWait | event.c:104-116 | status and fields are as `TryWaitResult` describes; the invariant is kept |
| Event.EmbedEvent.SetEvent | event.c:129-142 | the fields are updated as `AfterSet` describes; the status is success; the invariant is kept |
| Event.EmbedEvent.Pulse | event.c:154-170 | the fields are updated as `AfterPulse` describes; the status is success; the invariant is kept |
| Event.EmbedEvent.Reset | event.c:179-188 | the fields are updated as `AfterReset` describes; the status is success; the invariant is kept |
| Event.ReadyEvent.constructor | event.c:215-239 | a new ready event has `nready == 0` |
| Event.ReadyEvent.Wait | event.c:248-257 | returns only when `nready != 0` and consumes nothing |
| Event.ReadyEvent.Active | event.c:262-273 | `nready` goes up by one, wrapping at 2^16 |
| Event.ReadyEvent.Update | event.c:278-286 | `nready` goes down by one with no floor check, wrapping at 0 |
| SlotLists.RangeMultiplicity | mcachedqueue.c:55-60 | the slots linked by init, `0 .. n-1`, each occur exactly once, and no other value occurs |
| SlotLists.Without | mcachedqueue.c:97 | the unlink half of `list_move`: the first node holding the slot is removed, so a list without the slot is unchanged and a list with it gets one shorter |
| SlotLists.WithoutKeepsOthers | mcachedqueue.c:97 | unlinking a node leaves every other slot in the list it was in |
| SlotLists.WithoutRemovesOne | mcachedqueue.c:116 | unlinking a node of a list shortens it by one and removes exactly one occurrence of its slot |
| SlotLists.WithoutMiddle | mcachedqueue.c:116 | unlinking a node whose slot does not occur earlier removes exactly that position and keeps the order of the rest |
| SlotLists.KeptDeletedSplit | mcachedqueue.c:160-162 | a walk splits the list: a slot is kept exactly when the handler keeps it and deleted exactly when it deletes it, and the two parts hold every slot of the list once |
| SlotLists.KeptAppend | mcachedqueue.c:160-162 | walking two lists back to back keeps and deletes what the two walks do |
| SlotLists.PartitionCovers | mcachedqueue.c:55-60 | under the partition every slot below `n` is in one of the two lists and none is in both |
| SlotLists.MovePreservesPartition | mcachedqueue.c:97-116 | `list_move` of a slot from one list to the head of the other keeps the partition, and each list changes length by one |
| MCachedQueue.Initial | mcachedqueue.c:16-60 | after init every slot is idle in index order, the used list is empty, both counters are 0, and the pool invariant holds |
| MCachedQueue.IdleListEmpty | mcachedqueue.h:35-40 | the macro as written, both conditions; it never reports an empty idle list while a slot is idle (the converse, under the invariant, is `IdleListEmptyIff`) |
| MCachedQueue.AfterAdd | mcachedqueue.c:97-102 | the slot goes to the head of the used list; `used_item_cnt` up by one, `max_item_cnt` down by one, the ready counter up by one in 16 bits |
| MCachedQueue.AfterDel | mcachedqueue.c:116-121 | the slot goes to the head of the idle list; `used_item_cnt` down by one, `max_item_cnt` up by one, the ready counter down by one in 16 bits |
| MCachedQueue.AddPreservesInv | mcachedqueue.c:97-102 | adding an idle slot keeps the pool invariant; the slot leaves the idle list and every other slot stays in the list it was in |
| MCachedQueue.DelPreservesInv | mcachedqueue.c:116-121 | deleting a used slot keeps the pool invariant; the slot leaves the used list and every other slot stays in the list it was in |
| MCachedQueue.AddThenDel | mcachedqueue.c:97-121 | adding the slot get_idle_item offers and then deleting it restores the pool exactly, ready counter included |
| MCachedQueue.IdleListEmptyIff | mcachedqueue.h:35-40 | under the invariant `used_item_cnt >= max_item_cnt` always holds, so `IS_IDLE_LIST_EMPTY` holds exactly when the idle list is empty |
| MCachedQueue.PoolSize | mcachedqueue.c:55-60 | the two lists hold `n` slots between them; every slot below `n` is in one of them and none is in both |
| MCachedQueue.ReadyTracksUsed | event.c:262-286 | with fewer than 2^16 slots the ready counter is non-zero exactly when the used list is non-empty |
| MCachedQueue.ReadyWrapsWhenFull | event.c:262-273 | with 2^16 used slots the 16-bit ready counter reads 0 although the used list is not empty |
| MCachedQueue.WalkStart | mcachedqueue.c:160 | before the first step the walk has kept and deleted nothing |
| MCachedQueue.WalkDone | mcachedqueue.c:160-162 | a walk whose cursor has passed the end has kept and deleted exactly what a walk of the whole list does |
| MCachedQueue.TraverseDelStep | mcachedqueue.c:160-162 | when the handler deletes the slot under the cursor, that slot is in the used list once; `list_move` puts it at the idle head and the cursor is then on the cached successor |
| MCachedQueue.TraverseKeepStep | mcachedqueue.c:160-162 | when the handler keeps the slot under the cursor the lists are unchanged and the cursor moves one place on |
| MCachedQueue.TraverseOutcome | mcachedqueue.c:149-165 | after a traversal a formerly used slot is used exactly when the handler kept it and idle exactly when it deleted it |
| MCachedQueue.LinkSlots | mcachedqueue.c:55-60 | the init loop links slots `0 .. item_cnt-1` onto the idle list in index order; a negative count links nothing |
| MCachedQueue.MCachedQueue.constructor | main.c:27-29 | the caller's pool before init: empty lists, zero counters, no storage and no ready event |
| MCachedQueue.MCachedQueue.Init | mcachedqueue.c:8-63 | returns 0 exactly when the storage allocation succeeds, and then the pool is `Initial(item_cnt)` and valid; on failure it returns -1 with empty lists, zero counters, a ready event at 0 and no storage; in both cases the pool invariant holds |
| MCachedQueue.MCachedQueue.Destroy | mcachedqueue.c:65-82 | both counters become 0 and the storage is freed; the lists and the ready event are left as they were |
| MCachedQueue.MCachedQueue.Add | mcachedqueue.c:90-107 | for an idle slot the pool becomes `AfterAdd` of the old one and stays valid; returns 0 |
| MCachedQueue.MCachedQueue.Del | mcachedqueue.c:109-124 | for a used slot the pool becomes `AfterDel` of the old one and stays valid |
| MCachedQueue.MCachedQueue.GetIdleItem | mcachedqueue.c:126-147 | callable on any pool that satisfies the invariant, including one whose init failed; -1 and NULL exactly when `IS_IDLE_LIST_EMPTY` holds, which is exactly when the idle list is empty; otherwise 0 and the idle head; nothing changes, so two calls in a row return the same slot |
| MCachedQueue.MCachedQueue.Find | mcachedqueue.c:183-209 | returns 0 and the first used slot, from the head, that matches; NULL exactly when none matches; nothing changes |
| MCachedQueue.MCachedQueue.Traverse | mcachedqueue.c:149-165 | with a handler that deletes the slots `del` holds of: the handler is called on every slot of the old used list once, in list order; the used list becomes the kept slots in their order, the deleted slots go to the front of the idle list (last deleted first), each formerly used slot ends in exactly one list according to `del`, and the pool stays valid |
| MCachedQueue.MCachedQueue.WalkUsed | mcachedqueue.c:160-162 | the `list_for_each_safe` loop calls the handler on every slot of the used list once, in order (the slots visited are exactly the old used list), surviving deletion of the current slot, and leaves the lists as `Kept` and `Deleted` describe |
| MCachedQueue.MCachedQueue.Visit | mcachedqueue.c:160-161 | one iteration: the handler runs on the next slot of the walk, `u[j]`, found at the cursor, and the walk advances by exactly that slot |
| MCachedQueue.DriverStep | main.c:41-58 | in each round of the driver the offered slot is slot `i`, and adding it gives used `i .. 0` and idle `i+1 ..` |
| MCachedQueue.DriverRound | main.c:42-57 | one round of the driver: get_idle_item offers slot `i`, its payload is stamped `i`, and it is added |
| MCachedQueue.FillPool | main.c:32-58 | after init with 10 slots and the loop, the used list is `9 .. 0`, the idle list is empty, and slot `s` holds payload `s` |
| MCachedQueue.DriverTraversal | main.c:8-23 | the handler that deletes the item with payload 5 keeps `9,8,7,6,4,3,2,1,0` in order and deletes slot 5 alone |
| MCachedQueue.DriverUsedList | main.c:41-58 | after the driver's loop the used list is `[9,8,...,0]` |
| MCachedQueue.FailedInitScenario | main.c:32 | when the storage allocation fails, the return of init is ignored and get_idle_item returns -1 and NULL on the empty pool |
| MCachedQueue.MainScenario | main.c:25-64 | the handler is called on slots 9 down to 0 in that order, and the whole driver ends with used `[9,8,7,6,4,3,2,1,0]` and idle `[5]` |

## Left out

- Mutexes, condition variables, the recursive pool mutex and the lock
  macros are left out. Blocking appears only as a precondition: the wake
  step of `embed_event_wait` and `embed_ready_event_wait` both require the
  condition their wait loop waits for. Signal and broadcast have no effect
  in the model beyond the state change.
- The reader/writer lock wrapper (event.c:302-381) is left out. It passes
  calls straight through to `pthread_rwlock_*` and has no logic of its own.
- `embed_event_destroy` and `embed_ready_event_destroy` are left out. They
  only release the mutex, the condition variable and the memory.
- Allocation is a boolean parameter (`callocOk`) of `Init` and
  `EmbedEvent.Create`. `embed_ready_event_create` does not return when its
  `calloc` fails (event.c:223-225) and then dereferences NULL. The model
  assumes that allocation succeeds.
- The failures of `pthread_mutexattr_init`, `pthread_mutexattr_settype` and
  `pthread_mutex_init` in init (mcachedqueue.c:25-38) are left out. Init
  failure is modelled only for the storage allocation.
- Slot storage is left out. The bytes, `item_size`, the pointer
  arithmetic at mcachedqueue.c:56 and the casts are not modelled: a slot is
  its index. The driver's payload field `a` is a sequence indexed by slot.
- The traverse handler and the find comparator are functions:
  - the handler is a keep/delete decision per slot, and deleting calls
    `Del`;
  - `compared` is a pure predicate.
  Arbitrary re-entrant callback code is not modelled.
- Debug output (`printf`, `strerror`) is left out.
- MCachedQueue.MCachedQueue.Destroy: the model keeps the lists as they
  were. In C their nodes point into the freed block, and the ready event
  is never destroyed (it leaks). Neither dangling pointers nor leaks are
  modelled.
- MCachedQueue.MCachedQueue.Traverse: the handler can only delete the
  slot it is given. Adding slots or deleting other slots from inside the
  handler is not modelled.
- MCachedQueue.MCachedQueue.Del: requires the slot to be in the used list.
  The C code checks only that its pointers are non-NULL. Given an idle slot,
  `list_move` moves it to the head of the idle list, while `used_item_cnt`
  goes down, `max_item_cnt` goes up and `nready` is decremented. The
  counters then no longer match the lists, and at 0 `nready` wraps to
  0xFFFF. This misuse and the drift it causes are not modelled.
- After a failed init the model can call `GetIdleItem`, `Find` and
  `Destroy`. `Add` and `Del` need a slot in a list, and both lists are
  empty. `Traverse` needs `nready != 0`, where C would block forever.
- Event.ReadyEvent.Wait: the `while (nready == 0)` loop is a precondition,
  not a loop.
