/** The circuit breaker as an object: rolling windows and an event log updated in place, refining `Breaker`. */
module ResilientVerifiers {
  import opened HealthWindows
  import opened Breaker

  class ResilientVerifier<R> {
    const settings: Settings
    var health: map<string, HealthWindow>
    var events: seq<HealthEvent>
    ghost var state: State // the abstract state the fields represent

    ghost predicate Valid()
      reads this, health.Values
    {
      && settings.primary in health
      && (settings.conservative.Some? ==> settings.conservative.value in health)
      && events == state.events
      && health.Keys == state.windows.Keys
      && (forall name <- health :: Represents(health[name], state.windows[name]))
      && (forall m <- health, n <- health :: m != n ==> health[m] != health[n])
    }

    /** A window object holds the history its abstract window says it does. */
    ghost predicate Represents(window: HealthWindow, w: Window)
      reads window
    {
      window.Valid() && window.capacity == w.capacity && window.history == w.history
    }

    constructor (settings: Settings)
      ensures Valid() && fresh(health.Values)
      ensures this.settings == settings && state == Initial(settings)
    {
      this.settings := settings;
      var window := new HealthWindow(settings.capacity);
      var windows := map[settings.primary := window];
      if settings.conservative.Some? {
        var second := new HealthWindow(settings.capacity);
        windows := windows[settings.conservative.value := second];
      }
      health := windows;
      events := [];
      state := Initial(settings);
    }

    /** The window kept for a mechanism; an unknown mechanism is given one of the default capacity. */
    method Health(mechanism: string) returns (window: HealthWindow)
      requires Valid()
      modifies this`health, this`state
      ensures Valid() && mechanism in health && window == health[mechanism]
      ensures state == Touch(old(state), mechanism)
      ensures mechanism in old(health) ==> health == old(health)
      ensures mechanism !in old(health) ==> fresh(window)
      ensures health == old(health)[mechanism := window]
      ensures fresh(health.Values - old(health.Values))
    {
      if mechanism in health {
        TouchKnown(state, mechanism);
        window := health[mechanism];
      } else {
        window := new HealthWindow(DEFAULT_CAPACITY);
        health := health[mechanism := window];
        state := Touch(state, mechanism);
      }
    }

    /** Asking about a mechanism may create its window, and answers from the outcomes that window holds. */
    method IsTripped(mechanism: string) returns (tripped: bool)
      requires Valid()
      modifies this`health, this`state
      ensures Valid()
      ensures state == Touch(old(state), mechanism)
      ensures mechanism in old(health) ==> health == old(health) && state == old(state)
      ensures tripped == Tripped(settings, old(state), mechanism)
    {
      if mechanism in health { TouchKnown(state, mechanism); }
      var window := Health(mechanism);
      if |window.outcomes| < settings.minObservations {
        tripped := false;
      } else {
        var rate := window.Rate();
        tripped := rate > settings.threshold;
      }
    }

    /** Records one outcome in the mechanism's window. */
    method Observe(mechanism: string, faulted: bool)
      requires Valid() && mechanism in health
      modifies this`state, health[mechanism]
      ensures Valid() && state == Breaker.Observe(old(state), mechanism, faulted)
    {
      health[mechanism].Record(faulted);
      state := Breaker.Observe(state, mechanism, faulted);
    }

    /** Appends an event carrying the mechanism's present fault rate and observation count. */
    method Announce(mechanism: string, kind: EventKind)
      requires Valid() && mechanism in health
      modifies this`events, this`state
      ensures Valid() && state == Breaker.Announce(old(state), mechanism, kind)
    {
      var window := health[mechanism];
      var rate := window.Rate();
      events := events + [HealthEvent(mechanism, kind, rate, |window.outcomes|)];
      state := Breaker.Announce(state, mechanism, kind);
    }

    method RecordFault(mechanism: string, kind: EventKind)
      requires Valid() && mechanism in health
      modifies this`events, this`state, health[mechanism]
      ensures Valid() && state == Breaker.RecordFault(old(state), mechanism, kind)
    {
      Observe(mechanism, true);
      Announce(mechanism, kind);
    }

    /** Asks one candidate; a fault that trips the primary escalates. */
    method Invoke(c: Candidate<R>) returns (outcome: Outcome<R>)
      requires Valid() && c.name in health
      modifies this, health[c.name]
      ensures Valid() && health == old(health)
      ensures Routed(state, outcome, [c]) == Breaker.Invoke(settings, old(state), c)
    {
      match c.probe.attempt {
        case Faults(code) =>
          RecordFault(c.name, Fault);
          var nowTripped := IsTripped(c.name);
          if nowTripped && c.isPrimary {
            Announce(c.name, Escalated);
          }
          outcome := Failed(code);
        case Answers(response) =>
          Observe(c.name, false);
          outcome := Responded(response);
      }
    }

    /** Considers one candidate: passes it over when it is tripped or reports itself unhealthy. */
    method Consider(c: Candidate<R>) returns (serves: bool)
      requires Valid() && c.name in health
      modifies this, health[c.name]
      ensures Valid() && health == old(health)
      ensures serves == Serves(settings, old(state), c)
      ensures state == if serves then old(state) else PassOver(settings, old(state), c)
    {
      var tripped := IsTripped(c.name);
      if tripped {
        serves := false;
      } else if !c.probe.healthy {
        RecordFault(c.name, ReportedUnhealthy);
        serves := false;
      } else {
        serves := true;
      }
    }

    /** Verifies through the first permitted mechanism, or refuses. Each probe says what its mechanism would do. */
    method Verify(primary: Probe<R>, conservative: Probe<R>)
      returns (outcome: Outcome<R>, invoked: seq<Candidate<R>>)
      requires Valid()
      modifies this, health.Values
      ensures Valid() && health == old(health)
      ensures Routed(state, outcome, invoked) == Call(settings, old(state), primary, conservative)
    {
      var candidates := Candidates(settings, primary, conservative);
      invoked := [];
      for i := 0 to |candidates|
        invariant Valid() && health == old(health) && invoked == []
        invariant Route(settings, state, candidates[i..]) == Route(settings, old(state), candidates)
      {
        var c := candidates[i];
        RouteFrom(settings, state, candidates, i);
        var serves := Consider(c);
        if serves {
          invoked := invoked + [c];
          outcome := Invoke(c);
          return;
        }
      }
      RouteFrom(settings, state, candidates, |candidates|);
      outcome := Unavailable;
    }

    /** Clears one mechanism's window. */
    method Reset(mechanism: string)
      requires Valid()
      modifies this, if mechanism in health then {health[mechanism]} else {}
      ensures Valid() && fresh(health.Values - old(health.Values))
      ensures mechanism in health && health == old(health)[mechanism := health[mechanism]]
      ensures mechanism in old(health) ==> health == old(health)
      ensures state == Clear(old(state), mechanism)
    {
      ClearTouched(state, mechanism);
      var _ := Health(mechanism);
      ForgetKnown(mechanism);
    }

    method ForgetKnown(mechanism: string)
      requires Valid() && mechanism in health
      modifies this`state, health[mechanism]
      ensures Valid() && health == old(health) && state == Clear(old(state), mechanism)
    {
      health[mechanism].Reset();
      state := Clear(state, mechanism);
    }
  }

  /** Asking for a window that exists changes nothing. */
  lemma TouchKnown(s: State, name: string)
    requires name in s.windows
    ensures Touch(s, name) == s
  {
    assert s.windows[name := s.windows[name]] == s.windows;
  }

  lemma ClearTouched(s: State, name: string)
    ensures Clear(Touch(s, name), name) == Clear(s, name)
  {
    assert Clear(Touch(s, name), name).windows == Clear(s, name).windows;
  }
}
