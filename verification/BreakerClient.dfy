/** The breaker object in use: whatever a client does with it, its state is that of the corresponding run. */
module BreakerClients {
  import opened Breaker
  import opened ResilientVerifiers

  method Perform<R>(verifier: ResilientVerifier<R>, a: Action<R>)
    requires verifier.Valid()
    modifies verifier, verifier.health.Values
    ensures verifier.Valid() && fresh(verifier.health.Values - old(verifier.health.Values))
    ensures verifier.state == Step(verifier.settings, old(verifier.state), a)
  {
    match a {
      case Verify(primary, conservative) =>
        var _, _ := verifier.Verify(primary, conservative);
      case Reset(mechanism) =>
        verifier.Reset(mechanism);
    }
  }

  /** A new breaker taken through any sequence of calls and resets ends in the state of the specified run. */
  method Exercise<R>(settings: Settings, actions: seq<Action<R>>) returns (verifier: ResilientVerifier<R>)
    ensures fresh(verifier) && verifier.Valid()
    ensures verifier.state == Run(settings, Initial(settings), actions)
  {
    verifier := new ResilientVerifier<R>(settings);
    for i := 0 to |actions|
      invariant fresh(verifier) && fresh(verifier.health.Values)
      invariant verifier.Valid() && verifier.settings == settings
      invariant Run(settings, verifier.state, actions[i..]) == Run(settings, Initial(settings), actions)
    {
      assert actions[i..][1..] == actions[i + 1..];
      Perform(verifier, actions[i]);
    }
  }
}
