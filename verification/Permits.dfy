/** The compute semaphore of `src/semantic.rs` as steps of any number of threads.
    A condition variable moves waiting threads to the woken set, from where they retake the lock and look again. */
module Permits {

  datatype State = State(
    available: nat,
    holding: set<nat>,    // threads with a permit
    releasing: set<nat>,  // permit given back, notify still to come
    waiting: set<nat>,    // parked on the condition variable
    woken: set<nat>)      // notified, not yet looked again

  datatype Event =
    | Acquire(t: nat)
    | Release(t: nat)
    | Notify(t: nat, target: nat)
    | Recheck(t: nat)
    | Spurious(t: nat)

  /** `ComputePermits::new`: never fewer than one permit. */
  function Permits(requested: nat): (permits: nat)
    ensures permits >= 1 && permits >= requested && (permits == 1 || permits == requested)
  {
    if requested == 0 then 1 else requested
  }

  function New(requested: nat): State {
    State(Permits(requested), {}, {}, {}, {})
  }

  predicate Idle(s: State, t: nat) {
    t !in s.holding && t !in s.releasing && t !in s.waiting && t !in s.woken
  }

  /** Each case is one critical section of the mutex, except that a notification happens outside it. */
  predicate Step(s: State, ev: Event, s': State) {
    match ev
    case Acquire(t) =>
      && Idle(s, t)
      && s' == if s.available == 0 then s.(waiting := s.waiting + {t})
               else s.(available := s.available - 1, holding := s.holding + {t})
    case Release(t) =>
      && t in s.holding
      && s' == s.(available := s.available + 1, holding := s.holding - {t}, releasing := s.releasing + {t})
    case Notify(t, target) =>
      && t in s.releasing
      && (s.waiting == {} ==> s' == s.(releasing := s.releasing - {t}))
      && (s.waiting != {} ==>
            target in s.waiting
            && s' == s.(releasing := s.releasing - {t}, waiting := s.waiting - {target}, woken := s.woken + {target}))
    case Recheck(t) =>
      && t in s.woken
      && s' == if s.available == 0 then s.(woken := s.woken - {t}, waiting := s.waiting + {t})
               else s.(available := s.available - 1, woken := s.woken - {t}, holding := s.holding + {t})
    case Spurious(t) =>
      t in s.waiting && s' == s.(waiting := s.waiting - {t}, woken := s.woken + {t})
  }

  /** No permit is lost or invented, and while a thread waits every free permit is accounted for by a
      notification still to come or a woken thread still to look. */
  ghost predicate Inv(s: State, permits: nat) {
    && s.available + |s.holding| == permits
    && (s.waiting != {} ==> s.available <= |s.releasing| + |s.woken|)
    && s.holding !! s.releasing && s.holding !! s.waiting && s.holding !! s.woken
    && s.releasing !! s.waiting && s.releasing !! s.woken && s.waiting !! s.woken
  }

  lemma StepKeepsInv(s: State, ev: Event, s': State, permits: nat)
    requires Inv(s, permits) && Step(s, ev, s')
    ensures Inv(s', permits)
  {}

  ghost predicate Run(states: seq<State>, events: seq<Event>, requested: nat) {
    && |states| == |events| + 1
    && states[0] == New(requested)
    && forall i :: 0 <= i < |events| ==> Step(states[i], events[i], states[i + 1])
  }

  lemma {:induction false} RunsKeepInv(states: seq<State>, events: seq<Event>, requested: nat, i: nat)
    requires Run(states, events, requested) && i < |states|
    ensures Inv(states[i], Permits(requested))
  {
    if i > 0 {
      RunsKeepInv(states, events, requested, i - 1);
      assert Step(states[i - 1], events[i - 1], states[i]);
      StepKeepsInv(states[i - 1], events[i - 1], states[i], Permits(requested));
    }
  }

  /** Mutual exclusion: never more holders than permits. */
  lemma AtMostPermitsHold(states: seq<State>, events: seq<Event>, requested: nat, i: nat)
    requires Run(states, events, requested) && i < |states|
    ensures |states[i].holding| <= Permits(requested)
  {
    RunsKeepInv(states, events, requested, i);
  }

  // ----- No lost wake-up -----

  /** A step that neither starts a new acquisition nor wakes a thread for no reason. */
  predicate Draining(ev: Event) {
    ev.Release? || ev.Notify? || ev.Recheck?
  }

  /** Whatever threads are left in, someone other than a newcomer can move. */
  lemma NoLostWakeUp(s: State, permits: nat) returns (ev: Event, s': State)
    requires Inv(s, permits) && permits >= 1
    requires s.holding != {} || s.releasing != {} || s.waiting != {} || s.woken != {}
    ensures Draining(ev) && Step(s, ev, s')
  {
    if t :| t in s.holding {
      ev := Release(t);
      s' := s.(available := s.available + 1, holding := s.holding - {t}, releasing := s.releasing + {t});
    } else if t :| t in s.releasing {
      if target :| target in s.waiting {
        ev := Notify(t, target);
        s' := s.(releasing := s.releasing - {t}, waiting := s.waiting - {target}, woken := s.woken + {target});
      } else {
        ev := Notify(t, 0);
        s' := s.(releasing := s.releasing - {t});
      }
    } else if t :| t in s.woken {
      ev := Recheck(t);
      s' := if s.available == 0 then s.(woken := s.woken - {t}, waiting := s.waiting + {t})
            else s.(available := s.available - 1, woken := s.woken - {t}, holding := s.holding + {t});
    } else {
      assert false;
    }
  }

  function Work(s: State): nat {
    3 * (|s.holding| + |s.waiting| + |s.woken|) + 2 * |s.releasing| + |s.woken|
  }

  lemma DrainingDecreasesWork(s: State, ev: Event, s': State, permits: nat)
    requires Inv(s, permits) && Draining(ev) && Step(s, ev, s')
    ensures Work(s') < Work(s)
  {}

  /** Every run of draining steps is finite, and where it cannot go on every waiting thread has had its
      permit and all permits are back. */
  lemma {:induction false} DrainsCompletely(states: seq<State>, events: seq<Event>, permits: nat)
    requires |states| == |events| + 1 && permits >= 1 && Inv(states[0], permits)
    requires forall i :: 0 <= i < |events| ==> Draining(events[i]) && Step(states[i], events[i], states[i + 1])
    ensures |events| <= Work(states[0])
    ensures (forall ev, s' :: Draining(ev) ==> !Step(states[|events|], ev, s')) ==>
              states[|events|] == State(permits, {}, {}, {}, {})
    decreases |events|
  {
    if events == [] {
      var s := states[0];
      if forall ev, s' :: Draining(ev) ==> !Step(s, ev, s') {
        if s.holding != {} || s.releasing != {} || s.waiting != {} || s.woken != {} {
          var ev, s' := NoLostWakeUp(s, permits);
          assert false;
        }
      }
    } else {
      assert Step(states[0], events[0], states[1]);
      StepKeepsInv(states[0], events[0], states[1], permits);
      DrainingDecreasesWork(states[0], events[0], states[1], permits);
      DrainsCompletely(states[1..], events[1..], permits);
    }
  }
}
