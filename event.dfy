/**
 * The event object (`embed_event_t`) and the ready event
 * (`embed_ready_event_t`) of event.c, with the mutexes and condition
 * variables taken away.
 *
 * The event object is specified by step functions on an `EventView` value,
 * one per operation, and implemented by the class `EmbedEvent`, whose
 * methods update the fields in place and are proved to follow the step
 * functions. Blocking in `embed_event_wait` is not modelled as a loop:
 * the wait is split into an arrival step and a wake step, and the wake step
 * may only be taken when the event is not `Off`, which is what the
 * `while (state == EV_STATE_OFF) pthread_cond_wait(...)` loop guarantees.
 */
module Event {
  import opened Uint16

  /** `embed_status_t`: EMBED_SUCCESS or EMBED_FAILD. */
  datatype Status = Success | Failed

  /** `embed_event_state`: EV_STATE_OFF, EV_STATE_SET, EV_STATE_PULSED. */
  datatype EventState = Off | Set | Pulsed

  /** The fields of `embed_event_t` that the event logic reads and writes. */
  datatype EventView = EventView(
    state: EventState,
    autoReset: bool,
    threadsWaiting: u16,
    threadsToRelease: u16)

  /**
   * The event invariant: some waiter may still be released exactly when the
   * event is signalled, and an auto-reset event never lets more than one through.
   */
  predicate Inv(v: EventView) {
    && (v.threadsToRelease == 0 <==> v.state == Off)
    && (v.autoReset ==> v.threadsToRelease <= 1)
  }

  // ---------------------------------------------------------------------------
  // Step functions: one per operation of event.c
  // ---------------------------------------------------------------------------

  /** `embed_event_create` once the allocation has succeeded. */
  function Created(manualReset: bool, initial: bool): (r: EventView)
    ensures Inv(r)
    ensures r.autoReset == !manualReset && r.threadsWaiting == 0
    ensures initial ==> r.state == Set && r.threadsToRelease == 1
    ensures !initial ==> r.state == Off && r.threadsToRelease == 0
  {
    if initial then EventView(Set, !manualReset, 0, 1)
    else EventView(Off, !manualReset, 0, 0)
  }

  /**
   * `event_on_one_release`: the release policy applied by a thread that has
   * just got through the event.
   */
  function AfterRelease(v: EventView): (r: EventView)
    ensures r.autoReset == v.autoReset && r.threadsWaiting == v.threadsWaiting
    ensures Inv(v) && v.state != Off ==> Inv(r)
    // auto-reset: the one release always switches the event off
    ensures v.autoReset ==> r.state == Off && r.threadsToRelease == 0
    // manual-reset and set: the event stays on for every later waiter
    ensures !v.autoReset && v.state == Set ==> r == v
    // manual-reset and pulsed: one share of the pulse is used up. The counter
    // is unsigned, so the `>= 0` assertion after the decrement is vacuous and
    // a decrement from 0 would wrap to 0xFFFF unnoticed; only the invariant
    // (a pulsed event has a share left) keeps the decrement from wrapping
    ensures Inv(v) && !v.autoReset && v.state == Pulsed ==>
              r.threadsToRelease == v.threadsToRelease - 1 &&
              (r.state == Off <==> v.threadsToRelease == 1)
  {
    if v.state == Set then
      if v.autoReset then v.(threadsToRelease := 0, state := Off)
      else v
    else if v.autoReset then
      v.(threadsToRelease := 0, state := Off)
    else
      var left := Dec(v.threadsToRelease);
      if left == 0 then v.(threadsToRelease := left, state := Off)
      else v.(threadsToRelease := left)
  }

  /** First half of `embed_event_wait`: the caller is counted as waiting. */
  function AfterArrive(v: EventView): (r: EventView)
    ensures r.state == v.state && r.autoReset == v.autoReset
    ensures r.threadsToRelease == v.threadsToRelease
    ensures Dec(r.threadsWaiting) == v.threadsWaiting
    ensures Inv(v) ==> Inv(r)
  {
    v.(threadsWaiting := Inc(v.threadsWaiting))
  }

  /**
   * Second half of `embed_event_wait`: a waiter that finds the event on stops
   * waiting and applies the release policy.
   */
  function AfterWake(v: EventView): (r: EventView)
    requires v.state != Off
    ensures r.autoReset == v.autoReset
    ensures Inc(r.threadsWaiting) == v.threadsWaiting
    ensures Inv(v) ==> Inv(r)
    ensures v.autoReset ==> r.state == Off
  {
    AfterRelease(v.(threadsWaiting := Dec(v.threadsWaiting)))
  }

  /** `embed_event_trywait`: the status and the event afterwards. */
  function TryWaitResult(v: EventView): (r: (Status, EventView))
    ensures r.0 == Success <==> v.state == Set
    ensures r.0 == Failed ==> r.1 == v
    ensures r.1.threadsWaiting == v.threadsWaiting && r.1.autoReset == v.autoReset
    ensures Inv(v) ==> Inv(r.1)
  {
    if v.state == Set then (Success, AfterRelease(v)) else (Failed, v)
  }

  /** `embed_event_set`: signalled with one release pending, whatever came before. */
  function AfterSet(v: EventView): (r: EventView)
    ensures Inv(r)
    ensures r.state == Set && r.threadsToRelease == 1
    ensures r.autoReset == v.autoReset && r.threadsWaiting == v.threadsWaiting
  {
    v.(threadsToRelease := 1, state := Set)
  }

  /** `embed_event_pulse`: releases the threads waiting now, if there are any. */
  function AfterPulse(v: EventView): (r: EventView)
    ensures v.threadsWaiting == 0 ==> r == v
    ensures v.threadsWaiting != 0 ==>
              && r.state == Pulsed
              && r.threadsToRelease == (if v.autoReset then 1 else v.threadsWaiting)
              && r.autoReset == v.autoReset && r.threadsWaiting == v.threadsWaiting
    ensures Inv(v) ==> Inv(r)
  {
    if v.threadsWaiting != 0 then
      v.(threadsToRelease := if v.autoReset then 1 else v.threadsWaiting, state := Pulsed)
    else v
  }

  /** `embed_event_reset`: off with nothing to release, whatever came before. */
  function AfterReset(v: EventView): (r: EventView)
    ensures Inv(r)
    ensures r.state == Off && r.threadsToRelease == 0
    ensures r.autoReset == v.autoReset && r.threadsWaiting == v.threadsWaiting
  {
    v.(state := Off, threadsToRelease := 0)
  }

  // ---------------------------------------------------------------------------
  // Runs: any interleaving of the operations above
  // ---------------------------------------------------------------------------

  /** One operation performed on the event by some thread. */
  datatype EventOp = OpArrive | OpWake | OpTryWait | OpSet | OpPulse | OpReset

  /** The event after one operation; a woken waiter that finds the event off goes back to sleep. */
  function Step(v: EventView, op: EventOp): (r: EventView)
    ensures r.autoReset == v.autoReset
    ensures Inv(v) ==> Inv(r)
  {
    match op
    case OpArrive => AfterArrive(v)
    case OpWake => if v.state == Off then v else AfterWake(v)
    case OpTryWait => TryWaitResult(v).1
    case OpSet => AfterSet(v)
    case OpPulse => AfterPulse(v)
    case OpReset => AfterReset(v)
  }

  /** The event after a sequence of operations. */
  function Run(v: EventView, ops: seq<EventOp>): EventView
    decreases |ops|
  {
    if ops == [] then v else Run(Step(v, ops[0]), ops[1..])
  }

  /** `k` blocked waiters woken one after the other; a waiter that finds the event off stays blocked. */
  function WakeN(v: EventView, k: nat): EventView
    decreases k
  {
    if k == 0 || v.state == Off then v else WakeN(AfterWake(v), k - 1)
  }

  // ---------------------------------------------------------------------------
  // Properties
  // ---------------------------------------------------------------------------

  /** Every reachable state keeps the invariant, and the reset mode never changes. */
  lemma {:induction false} RunPreservesInv(v: EventView, ops: seq<EventOp>)
    requires Inv(v)
    ensures Inv(Run(v, ops)) && Run(v, ops).autoReset == v.autoReset
    decreases |ops|
  {
    if ops != [] {
      RunPreservesInv(Step(v, ops[0]), ops[1..]);
    }
  }

  /** `set` and `reset` are idempotent. */
  lemma SetResetIdempotent(v: EventView)
    ensures AfterSet(AfterSet(v)) == AfterSet(v)
    ensures AfterReset(AfterReset(v)) == AfterReset(v)
  {
  }

  /**
   * A wait on an event that is already on takes it through exactly one
   * release, and leaves the number of waiting threads as it found it.
   */
  lemma UncontendedWait(v: EventView)
    requires v.state != Off
    ensures AfterArrive(v).state != Off
    ensures AfterWake(AfterArrive(v)) == AfterRelease(v)
  {
    DecInc(v.threadsWaiting);
  }

  /**
   * `trywait` succeeds exactly where an uncontended wait would go through
   * on a set event, and fails on a pulsed one although a wait would pass.
   */
  lemma TryWaitVersusWait(v: EventView)
    requires v.state != Off
    ensures v.state == Set ==> TryWaitResult(v) == (Success, AfterWake(AfterArrive(v)))
    ensures v.state == Pulsed ==> TryWaitResult(v) == (Failed, v)
  {
    UncontendedWait(v);
  }

  /**
   * An auto-reset event lets exactly one of any number of woken waiters
   * through: the first one switches it off and the others stay blocked.
   */
  lemma {:induction false} AutoResetReleasesOne(v: EventView, k: nat)
    requires v.autoReset && v.state != Off && k >= 1
    ensures WakeN(v, k) == AfterWake(v)
    ensures AfterWake(v).state == Off && AfterWake(v).threadsToRelease == 0
  {
    assert AfterWake(v).state == Off;
    assert WakeN(AfterWake(v), k - 1) == AfterWake(v);
  }

  /**
   * A manual-reset event that is set stays set, with one release pending,
   * through any operations other than `reset` and `pulse`: every wait and
   * every `trywait` goes through.
   */
  lemma {:induction false} ManualSetPersists(v: EventView, ops: seq<EventOp>)
    requires !v.autoReset && v.state == Set && v.threadsToRelease == 1
    requires forall i :: 0 <= i < |ops| ==> ops[i] != OpReset && ops[i] != OpPulse
    ensures Run(v, ops).state == Set && Run(v, ops).threadsToRelease == 1
    ensures !Run(v, ops).autoReset
    ensures TryWaitResult(Run(v, ops)).0 == Success
    decreases |ops|
  {
    if ops != [] {
      var w := Step(v, ops[0]);
      assert w.state == Set && w.threadsToRelease == 1 && !w.autoReset;
      ManualSetPersists(w, ops[1..]);
    }
  }

  /** Draining a manual-reset pulse: each wake uses up one share, and the last one switches the event off. */
  lemma {:induction false} PulseDrains(v: EventView, k: nat)
    requires !v.autoReset && v.state == Pulsed && Inv(v)
    requires k <= v.threadsToRelease && k <= v.threadsWaiting
    ensures WakeN(v, k).threadsToRelease == v.threadsToRelease - k
    ensures WakeN(v, k).threadsWaiting == v.threadsWaiting - k
    ensures WakeN(v, k).state == if k == v.threadsToRelease then Off else Pulsed
    ensures WakeN(v, k).autoReset == v.autoReset
    decreases k
  {
    if k > 0 {
      var w := AfterWake(v);
      assert w.threadsToRelease == v.threadsToRelease - 1;
      assert w.threadsWaiting == v.threadsWaiting - 1;
      if w.state == Off {
        assert k == 1;
        assert WakeN(v, k) == w;
      } else {
        PulseDrains(w, k - 1);
        assert WakeN(v, k) == WakeN(w, k - 1);
      }
    }
  }

  /**
   * A pulse on a manual-reset event with `N` waiters allows exactly `N`
   * wakes: after fewer than `N` it is still pulsed, after `N` it is off, and
   * a further waiter stays blocked. The wakes need not be those of the `N`
   * threads that were waiting: see `LateArrivalTakesShare`.
   */
  lemma ManualPulseReleasesExactlyN(v: EventView)
    requires !v.autoReset && Inv(v) && v.threadsWaiting > 0
    ensures AfterPulse(v).state == Pulsed
    ensures AfterPulse(v).threadsToRelease == v.threadsWaiting
    ensures forall k: nat :: k < v.threadsWaiting ==> WakeN(AfterPulse(v), k).state == Pulsed
    ensures WakeN(AfterPulse(v), v.threadsWaiting) == v.(state := Off, threadsToRelease := 0, threadsWaiting := 0)
    ensures Step(WakeN(AfterPulse(v), v.threadsWaiting), OpWake) == WakeN(AfterPulse(v), v.threadsWaiting)
  {
    var p := AfterPulse(v);
    forall k: nat | k < v.threadsWaiting
      ensures WakeN(p, k).state == Pulsed
    {
      PulseDrains(p, k);
    }
    PulseDrains(p, v.threadsWaiting);
  }

  /**
   * A thread that arrives while a manual-reset pulse is still in progress
   * finds the event on, passes straight through and uses up one share of the
   * pulse, so one of the threads that were waiting when the pulse came is
   * left without a share.
   */
  lemma LateArrivalTakesShare(v: EventView)
    requires !v.autoReset && v.state == Pulsed && Inv(v)
    ensures AfterArrive(v).state != Off
    ensures AfterWake(AfterArrive(v)).threadsToRelease == v.threadsToRelease - 1
    ensures AfterWake(AfterArrive(v)).threadsWaiting == v.threadsWaiting
  {
    DecInc(v.threadsWaiting);
  }

  /**
   * With two waiters at a manual-reset pulse, a third thread arriving
   * before either is woken takes a share, and after one of the two wakes
   * the event is off with the other still counted as waiting.
   */
  lemma LateArrivalStrandsWaiter()
    ensures var p := AfterPulse(EventView(Off, false, 2, 0));
            var late := AfterWake(AfterArrive(p));
            && p == EventView(Pulsed, false, 2, 2)
            && late == EventView(Pulsed, false, 2, 1)
            && AfterWake(late) == EventView(Off, false, 1, 0)
  {
  }

  /** A pulse with nobody waiting is not remembered: later waiters find the event as it was. */
  lemma PulseWithoutWaiters(v: EventView)
    requires v.threadsWaiting == 0
    ensures AfterPulse(v) == v
    ensures AfterPulse(AfterArrive(v)).state == Pulsed
  {
  }

  // ---------------------------------------------------------------------------
  // The event object, updated in place
  // ---------------------------------------------------------------------------

  /** `embed_event_t` without its mutex and condition variable. */
  class EmbedEvent {
    var state: EventState
    var autoReset: bool
    var threadsWaiting: u16
    var threadsToRelease: u16

    function View(): EventView
      reads this
    {
      EventView(state, autoReset, threadsWaiting, threadsToRelease)
    }

    ghost predicate Valid()
      reads this
    {
      Inv(View())
    }

    constructor (manualReset: bool, initial: bool)
      ensures View() == Created(manualReset, initial) && Valid()
    {
      autoReset := !manualReset;
      threadsWaiting := 0;
      if initial {
        state := Set;
        threadsToRelease := 1;
      } else {
        state := Off;
        threadsToRelease := 0;
      }
    }

    /** `embed_event_create`: `callocOk` says whether the allocation succeeded. */
    static method Create(manualReset: bool, initial: bool, callocOk: bool)
      returns (status: Status, event: EmbedEvent?)
      ensures status == Success <==> callocOk
      ensures callocOk ==> event != null && fresh(event) && event.View() == Created(manualReset, initial)
      ensures callocOk ==> event.Valid()
      ensures !callocOk ==> event == null
    {
      if !callocOk {
        return Failed, null;
      }
      event := new EmbedEvent(manualReset, initial);
      status := Success;
    }

    /** `event_on_one_release`. */
    method OnOneRelease()
      modifies this
      ensures View() == AfterRelease(old(View()))
      ensures old(Valid()) && old(state) != Off ==> Valid()
    {
      if state == Set {
        if autoReset {
          threadsToRelease := 0;
          state := Off;
        }
      } else {
        if autoReset {
          threadsToRelease := 0;
          state := Off;
        } else {
          threadsToRelease := Dec(threadsToRelease);
          if threadsToRelease == 0 {
            state := Off;
          }
        }
      }
    }

    /** `embed_event_wait` up to the blocking loop: `threads_waiting++`. */
    method WaitArrive()
      modifies this
      ensures View() == AfterArrive(old(View()))
      ensures old(Valid()) ==> Valid()
    {
      threadsWaiting := Inc(threadsWaiting);
    }

    /** `embed_event_wait` after the blocking loop, once the event is found on. */
    method WaitWake() returns (status: Status)
      requires state != Off
      modifies this
      ensures status == Success
      ensures View() == AfterWake(old(View()))
      ensures old(Valid()) ==> Valid()
    {
      threadsWaiting := Dec(threadsWaiting);
      OnOneRelease();
      status := Success;
    }

    /** `embed_event_trywait`. */
    method TryWait() returns (status: Status)
      modifies this
      ensures (status, View()) == TryWaitResult(old(View()))
      ensures old(Valid()) ==> Valid()
    {
      status := if state == Set then Success else Failed;
      if status == Success {
        OnOneRelease();
      }
    }

    /** `embed_event_set`. */
    method SetEvent() returns (status: Status)
      modifies this
      ensures status == Success
      ensures View() == AfterSet(old(View()))
      ensures old(Valid()) ==> Valid()
    {
      threadsToRelease := 1;
      state := Set;
      status := Success;
    }

    /** `embed_event_pulse`. */
    method Pulse() returns (status: Status)
      modifies this
      ensures status == Success
      ensures View() == AfterPulse(old(View()))
      ensures old(Valid()) ==> Valid()
    {
      if threadsWaiting != 0 {
        threadsToRelease := if autoReset then 1 else threadsWaiting;
        state := Pulsed;
      }
      status := Success;
    }

    /** `embed_event_reset`. */
    method Reset() returns (status: Status)
      modifies this
      ensures status == Success
      ensures View() == AfterReset(old(View()))
      ensures old(Valid()) ==> Valid()
    {
      state := Off;
      threadsToRelease := 0;
      status := Success;
    }
  }

  // ---------------------------------------------------------------------------
  // The ready event: a 16-bit counter of outstanding notifications
  // ---------------------------------------------------------------------------

  /** `embed_ready_event_t` without its mutex and condition variable. */
  class ReadyEvent {
    var nready: u16

    /** `embed_ready_event_create`: `calloc` leaves the counter at zero. */
    constructor ()
      ensures nready == 0
    {
      nready := 0;
    }

    /**
     * `embed_ready_event_wait` once its blocking loop has ended: it returns
     * only when the counter is not zero, and does not consume anything.
     */
    method Wait() returns (status: Status)
      requires nready != 0
      ensures status == Success
    {
      status := Success;
    }

    /** `embed_ready_event_active`: one more notification, wrapping at 2^16. */
    method Active() returns (status: Status)
      modifies this
      ensures status == Success
      ensures nready == Inc(old(nready))
    {
      nready := Inc(nready);
      status := Success;
    }

    /** `embed_ready_event_update`: one notification fewer, with no floor check, wrapping at 0. */
    method Update() returns (status: Status)
      modifies this
      ensures status == Success
      ensures nready == Dec(old(nready))
    {
      nready := Dec(nready);
      status := Success;
    }
  }
}
