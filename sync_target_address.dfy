/**
 * The stateful side of `useSyncTargetAddress`: the redux store the hook dispatches
 * `setTargetAddressHex` into, and the effect machinery with one `cancelled` flag per run,
 * the cleanup React holds, and the asynchronous Solana and Near branches suspended at
 * their awaits. Each await's completion is a method of its own, so any interleaving of
 * re-runs, cleanups and completions can be expressed.
 */
module SyncTargetAddress {
  import opened Wrappers
  import opened Chains
  import opened TargetAddress

  /** The `targetAddressHex` of the transfer slice and of the NFT slice. */
  class Store {
    var transferTargetAddressHex: Option<string>
    var nftTargetAddressHex: Option<string>

    constructor ()
      ensures transferTargetAddressHex == None && nftTargetAddressHex == None
    {
      transferTargetAddressHex := None;
      nftTargetAddressHex := None;
    }

    function TargetAddressHex(nft: bool): Option<string>
      reads this
    {
      if nft then nftTargetAddressHex else transferTargetAddressHex
    }

    /** `dispatch(setTargetAddressHex(hex))` with the setter of the chosen slice. */
    method SetTargetAddressHex(nft: bool, hex: Option<string>)
      modifies this
      ensures TargetAddressHex(nft) == hex
      ensures TargetAddressHex(!nft) == old(TargetAddressHex(!nft))
    {
      if nft {
        nftTargetAddressHex := hex;
      } else {
        transferTargetAddressHex := hex;
      }
    }
  }

  /** A suspended branch: the slice its closure dispatches into and where it waits. */
  datatype Task = Task(nft: bool, step: Step)

  /** Runs the cleanup of `run`, if there is one: it sets that run's `cancelled` flag. */
  function CancelRun(cancelled: seq<bool>, run: Option<nat>): (r: seq<bool>)
    ensures |r| == |cancelled|
    ensures forall i :: 0 <= i < |r| ==> r[i] == (cancelled[i] || run == Some(i))
  {
    if run.Some? && run.value < |cancelled| then cancelled[run.value := true] else cancelled
  }

  class Resolver {
    const store: Store
    const lib: Foreign
    /** The `cancelled` flag of every run that got as far as declaring it, by run number. */
    var cancelled: seq<bool>
    /** The run whose cleanup React holds, to call before the next run or on unmount. */
    var armed: Option<nat>
    /** The asynchronous branches still suspended, by run number. */
    var pending: map<nat, Task>
    /** The calls sent to the Near token bridge contract, in order. */
    var nearCalls: seq<NearCall>
    /** The runs that have dispatched into the store. */
    ghost var dispatched: set<nat>
    /** The runs whose effect body threw before returning its cleanup. */
    ghost var threw: set<nat>

    /** A run that may still dispatch or already has: neither cancelled nor thrown. */
    ghost predicate Live(run: nat)
      reads this
    {
      run < |cancelled| && !cancelled[run] && run !in threw
    }

    ghost predicate Valid()
      reads this
    {
      (armed.Some? ==> armed.value == |cancelled| - 1 && armed.value !in threw) &&
      (forall run :: run in pending ==> run < |cancelled| && run !in threw && run !in dispatched) &&
      (forall run :: run in threw ==> run < |cancelled| && run !in dispatched) &&
      (forall run :: run in dispatched ==> run < |cancelled|) &&
      // only the held run, and runs that threw, can be uncancelled
      (forall run :: 0 <= run < |cancelled| && run !in threw && armed != Some(run) ==> cancelled[run]) &&
      // a finished run that was never cancelled and did not throw has dispatched
      (forall run :: 0 <= run < |cancelled| && run !in pending && run !in threw && !cancelled[run] ==>
         run in dispatched)
    }

    constructor (store: Store, lib: Foreign)
      ensures this.store == store && this.lib == lib
      ensures Valid()
      ensures cancelled == [] && armed == None && pending == map[] && nearCalls == []
      ensures dispatched == {} && threw == {}
    {
      this.store := store;
      this.lib := lib;
      cancelled := [];
      armed := None;
      pending := map[];
      nearCalls := [];
      dispatched := {};
      threw := {};
    }

    /** At most one run is live, and it is the one whose cleanup is held. */
    lemma OneLiveRun()
      requires Valid()
      ensures forall run: nat :: Live(run) ==> armed == Some(run)
      ensures forall r1: nat, r2: nat :: Live(r1) && Live(r2) ==> r1 == r2
    {
    }

    /**
     * A run's one dispatch. Only an uncancelled run dispatches, and the precondition
     * on `dispatched` is what makes it the only one.
     */
    method Publish(run: nat, nft: bool, hex: Option<string>)
      requires run < |cancelled| && !cancelled[run]
      requires run !in dispatched
      modifies this`dispatched, store
      ensures dispatched == old(dispatched) + {run}
      ensures store.TargetAddressHex(nft) == hex
      ensures store.TargetAddressHex(!nft) == old(store.TargetAddressHex(!nft))
    {
      store.SetTargetAddressHex(nft, hex);
      dispatched := dispatched + {run};
    }

    /**
     * One run of the effect. React first calls the cleanup of the previous run, if it
     * holds one; then the body runs the branch `Decide` picks, dispatching at once, throwing,
     * or suspending an async branch, and returns its cleanup unless it skipped or threw.
     */
    method Start(inp: Inputs) returns (action: Action)
      requires Valid()
      modifies this, store
      ensures Valid()
      ensures action == Decide(inp, lib)
      ensures action.Skip? ==> cancelled == CancelRun(old(cancelled), old(armed)) && armed == None
      ensures !action.Skip? ==> cancelled == CancelRun(old(cancelled), old(armed)) + [false]
      ensures !action.Skip? ==> armed == if action.Throw? then None else Some(|old(cancelled)|)
      ensures pending == if action.Await? then old(pending)[|old(cancelled)| := Task(inp.nft, action.step)]
                         else old(pending)
      ensures dispatched == if action.PublishNow? then old(dispatched) + {|old(cancelled)|} else old(dispatched)
      ensures threw == if action.Throw? then old(threw) + {|old(cancelled)|} else old(threw)
      ensures nearCalls == old(nearCalls)
      ensures action.PublishNow? ==> store.TargetAddressHex(inp.nft) == action.value
      ensures action.PublishNow? ==> store.TargetAddressHex(!inp.nft) == old(store.TargetAddressHex(!inp.nft))
      ensures !action.PublishNow? ==> unchanged(store)
    {
      cancelled := CancelRun(cancelled, armed);
      armed := None;
      action := Decide(inp, lib);
      if !action.Skip? {
        Begin(inp.nft, action);
      }
    }

    /** The body of a run that fires, once `Decide` has picked its action. */
    method Begin(nft: bool, action: Action)
      requires Valid() && armed == None && !action.Skip?
      modifies this, store
      ensures Valid()
      ensures cancelled == old(cancelled) + [false]
      ensures armed == if action.Throw? then None else Some(|old(cancelled)|)
      ensures pending == if action.Await? then old(pending)[|old(cancelled)| := Task(nft, action.step)]
                         else old(pending)
      ensures dispatched == if action.PublishNow? then old(dispatched) + {|old(cancelled)|} else old(dispatched)
      ensures threw == if action.Throw? then old(threw) + {|old(cancelled)|} else old(threw)
      ensures nearCalls == old(nearCalls)
      ensures action.PublishNow? ==> store.TargetAddressHex(nft) == action.value
      ensures action.PublishNow? ==> store.TargetAddressHex(!nft) == old(store.TargetAddressHex(!nft))
      ensures !action.PublishNow? ==> unchanged(store)
    {
      var run := |cancelled|;
      cancelled := cancelled + [false];
      match action {
        case PublishNow(hex) =>
          Publish(run, nft, hex);
          armed := Some(run);
        case Throw =>
          threw := threw + {run};
        case Await(step) =>
          pending := pending[run := Task(nft, step)];
          armed := Some(run);
      }
    }

    /** The cleanup React calls on unmount: `cancelled = true` for the run it holds. */
    method Cleanup()
      requires Valid()
      modifies this`cancelled, this`armed
      ensures Valid()
      ensures cancelled == CancelRun(old(cancelled), old(armed)) && armed == None
    {
      cancelled := CancelRun(cancelled, armed);
      armed := None;
    }

    /** The Solana derivation settles: dispatch its result unless the run was cancelled. */
    method CompleteDerivation(run: nat)
      requires Valid() && run in pending && pending[run].step.Derivation?
      modifies this`pending, this`dispatched, store
      ensures Valid()
      ensures pending == old(pending) - {run}
      ensures cancelled[run] ==> dispatched == old(dispatched) && unchanged(store)
      ensures !cancelled[run] ==>
                var task := old(pending)[run];
                dispatched == old(dispatched) + {run} &&
                store.TargetAddressHex(task.nft) == DerivedTarget(lib, task.step.mint, task.step.owner) &&
                store.TargetAddressHex(!task.nft) == old(store.TargetAddressHex(!task.nft))
    {
      var task := pending[run];
      pending := pending - {run};
      if !cancelled[run] {
        Publish(run, task.nft, DerivedTarget(lib, task.step.mint, task.step.owner));
      }
    }

    /**
     * `makeNearAccount` settles (`made`: it resolved). The view call follows at once,
     * cancelled or not; a rejection dispatches `undefined` unless the run was cancelled.
     */
    method CompleteAccountSetup(run: nat, made: bool)
      requires Valid() && run in pending && pending[run].step.AccountSetup?
      modifies this`pending, this`dispatched, this`nearCalls, store
      ensures Valid()
      ensures made ==>
                var task := old(pending)[run];
                pending == old(pending)[run := Task(task.nft, HashAccountView(task.step.account))] &&
                nearCalls == old(nearCalls) + [HashAccount(task.step.account)] &&
                dispatched == old(dispatched) && unchanged(store)
      ensures !made ==> pending == old(pending) - {run} && nearCalls == old(nearCalls)
      ensures !made && cancelled[run] ==> dispatched == old(dispatched) && unchanged(store)
      ensures !made && !cancelled[run] ==>
                var task := old(pending)[run];
                dispatched == old(dispatched) + {run} &&
                store.TargetAddressHex(task.nft) == None &&
                store.TargetAddressHex(!task.nft) == old(store.TargetAddressHex(!task.nft))
    {
      var task := pending[run];
      if made {
        nearCalls := nearCalls + [HashAccount(task.step.account)];
        pending := pending[run := Task(task.nft, HashAccountView(task.step.account))];
      } else {
        pending := pending - {run};
        if !cancelled[run] {
          Publish(run, task.nft, None);
        }
      }
    }

    /**
     * The `hash_account` view settles (None: it threw). A cancelled run stops here.
     * Otherwise a registered account's hash is dispatched; an unregistered one is
     * registered and the run waits again; a failure dispatches `undefined`.
     */
    method CompleteHashAccount(run: nat, view: Option<(bool, string)>)
      requires Valid() && run in pending && pending[run].step.HashAccountView?
      modifies this`pending, this`dispatched, this`nearCalls, store
      ensures Valid()
      ensures cancelled[run] ==>
                pending == old(pending) - {run} && dispatched == old(dispatched) &&
                nearCalls == old(nearCalls) && unchanged(store)
      ensures !cancelled[run] && view.Some? && !view.value.0 ==>
                var task := old(pending)[run];
                pending == old(pending)[run := Task(task.nft, Registration(task.step.account, view.value.1))] &&
                nearCalls == old(nearCalls) + [RegisterAccount(task.step.account, RegisterGas, RegisterDeposit)] &&
                dispatched == old(dispatched) && unchanged(store)
      ensures !cancelled[run] && !(view.Some? && !view.value.0) ==>
                var task := old(pending)[run];
                pending == old(pending) - {run} && nearCalls == old(nearCalls) &&
                dispatched == old(dispatched) + {run} &&
                store.TargetAddressHex(task.nft) == (if view.Some? then Some(view.value.1) else None) &&
                store.TargetAddressHex(!task.nft) == old(store.TargetAddressHex(!task.nft))
    {
      var task := pending[run];
      if cancelled[run] {
        pending := pending - {run};
      } else if view.None? {
        pending := pending - {run};
        Publish(run, task.nft, None);
      } else {
        var (registered, hash) := view.value;
        if !registered {
          nearCalls := nearCalls + [RegisterAccount(task.step.account, RegisterGas, RegisterDeposit)];
          pending := pending[run := Task(task.nft, Registration(task.step.account, hash))];
        } else {
          pending := pending - {run};
          Publish(run, task.nft, Some(hash));
        }
      }
    }

    /**
     * `register_account` settles (None: the transaction or reading its result threw). Its
     * result is not used: unless the run was cancelled meanwhile, the view call's hash is
     * dispatched on success and `undefined` on failure.
     */
    method CompleteRegistration(run: nat, result: Option<string>)
      requires Valid() && run in pending && pending[run].step.Registration?
      modifies this`pending, this`dispatched, store
      ensures Valid()
      ensures pending == old(pending) - {run}
      ensures cancelled[run] ==> dispatched == old(dispatched) && unchanged(store)
      ensures !cancelled[run] ==>
                var task := old(pending)[run];
                dispatched == old(dispatched) + {run} &&
                store.TargetAddressHex(task.nft) == (if result.Some? then Some(task.step.hash) else None) &&
                store.TargetAddressHex(!task.nft) == old(store.TargetAddressHex(!task.nft))
    {
      var task := pending[run];
      pending := pending - {run};
      if !cancelled[run] {
        Publish(run, task.nft, if result.Some? then Some(task.step.hash) else None);
      }
    }

    /**
     * Every await of `run` settles, with no cleanup in between. A cancelled run still
     * sends the view call if its account was made, and dispatches nothing.
     */
    method Settle(run: nat, near: NearView, registration: Option<string>)
      requires Valid()
      modifies this`pending, this`dispatched, this`nearCalls, store
      ensures Valid()
      ensures pending == old(pending) - {run}
      ensures run !in old(pending) ==> nearCalls == old(nearCalls)
      ensures run in old(pending) && cancelled[run] ==>
                nearCalls == old(nearCalls) + ViewCalls(old(pending)[run].step, near)
      ensures !(run in old(pending) && !cancelled[run]) ==> dispatched == old(dispatched) && unchanged(store)
      ensures run in old(pending) && !cancelled[run] ==>
                var task := old(pending)[run];
                dispatched == old(dispatched) + {run} &&
                nearCalls == old(nearCalls) + SettleCalls(task.step, near) &&
                store.TargetAddressHex(task.nft) == Settled(lib, task.step, near, registration) &&
                store.TargetAddressHex(!task.nft) == old(store.TargetAddressHex(!task.nft))
    {
      if run !in pending {
        return;
      }
      match pending[run].step {
        case Derivation(_, _) =>
          CompleteDerivation(run);
        case Registration(_, _) =>
          CompleteRegistration(run, registration);
        case AccountSetup(_) =>
          CompleteNearRun(run, near, registration);
        case HashAccountView(_) =>
          CompleteViewAndRegistration(run, near, registration);
      }
    }

    /** A Near branch settles from `makeNearAccount` on. */
    method CompleteNearRun(run: nat, near: NearView, registration: Option<string>)
      requires Valid() && run in pending && pending[run].step.AccountSetup?
      modifies this`pending, this`dispatched, this`nearCalls, store
      ensures Valid()
      ensures pending == old(pending) - {run}
      ensures cancelled[run] ==>
                nearCalls == old(nearCalls) + ViewCalls(old(pending)[run].step, near) &&
                dispatched == old(dispatched) && unchanged(store)
      ensures !cancelled[run] ==>
                var task := old(pending)[run];
                dispatched == old(dispatched) + {run} &&
                nearCalls == old(nearCalls) + SettleCalls(task.step, near) &&
                store.TargetAddressHex(task.nft) == ViewedHash(near, registration) &&
                store.TargetAddressHex(!task.nft) == old(store.TargetAddressHex(!task.nft))
    {
      CompleteAccountSetup(run, !near.AccountFailed?);
      if run in pending {
        CompleteViewAndRegistration(run, near, registration);
      }
    }

    /** The view call and, for an unregistered account, the registration settle. */
    method CompleteViewAndRegistration(run: nat, near: NearView, registration: Option<string>)
      requires Valid() && run in pending && pending[run].step.HashAccountView?
      modifies this`pending, this`dispatched, this`nearCalls, store
      ensures Valid()
      ensures pending == old(pending) - {run}
      ensures cancelled[run] ==> dispatched == old(dispatched) && nearCalls == old(nearCalls) && unchanged(store)
      ensures !cancelled[run] ==>
                var task := old(pending)[run];
                dispatched == old(dispatched) + {run} &&
                nearCalls == old(nearCalls) + RegistrationCalls(task.step, near) &&
                store.TargetAddressHex(task.nft) == ViewedHash(near, registration) &&
                store.TargetAddressHex(!task.nft) == old(store.TargetAddressHex(!task.nft))
    {
      CompleteHashAccount(run, if near.Viewed? then Some((near.registered, near.hash)) else None);
      if run in pending {
        CompleteRegistration(run, registration);
      }
    }
  }

  // ---------------------------------------------------------------------------------
  // Whole scenarios, each on a fresh store

  /** One run, its suspended branch settled: the store ends up with the run's resolution. */
  method ResolveOnce(lib: Foreign, inp: Inputs, near: NearView, registration: Option<string>)
    returns (published: Option<string>, calls: seq<NearCall>)
    ensures published == ResolvedValue(Resolution(inp, lib, near, registration))
    ensures calls == NearCalls(inp, lib, near)
  {
    var store := new Store();
    var resolver := new Resolver(store, lib);
    var _ := resolver.Start(inp);
    resolver.Settle(0, near, registration);
    published := store.TargetAddressHex(inp.nft);
    calls := resolver.nearCalls;
  }

  /** Resolving the same inputs twice leaves the same value in the store. */
  method ResolveTwice(lib: Foreign, inp: Inputs, near: NearView, registration: Option<string>)
    returns (first: Option<string>, second: Option<string>)
    ensures first == second == ResolvedValue(Resolution(inp, lib, near, registration))
  {
    var store := new Store();
    var resolver := new Resolver(store, lib);
    var _ := resolver.Start(inp);
    resolver.Settle(0, near, registration);
    first := store.TargetAddressHex(inp.nft);
    var action := resolver.Start(inp);
    if !action.Skip? {
      resolver.Settle(|resolver.cancelled| - 1, near, registration);
    }
    second := store.TargetAddressHex(inp.nft);
  }

  /**
   * Inputs change while the first run is suspended: the second run's result is what the
   * store holds, even when the first run's awaits settle after the second run finished.
   */
  method Supersede(
    lib: Foreign, first: Inputs, second: Inputs,
    near1: NearView, registration1: Option<string>,
    near2: NearView, registration2: Option<string>)
    returns (published: Option<string>)
    requires Decide(first, lib).Await?
    requires second.nft == first.nft
    ensures published == ResolvedValue(Resolution(second, lib, near2, registration2))
  {
    var store := new Store();
    var resolver := new Resolver(store, lib);
    var _ := resolver.Start(first);
    var _ := resolver.Start(second);
    resolver.Settle(1, near2, registration2);
    resolver.Settle(0, near1, registration1);
    published := store.TargetAddressHex(first.nft);
  }

  /**
   * The component unmounts while a Near account is being registered: the registration
   * has been sent and stays sent, but nothing is dispatched.
   */
  method CancelDuringRegistration(lib: Foreign, inp: Inputs, hash: string, result: Option<string>)
    returns (published: Option<string>, calls: seq<NearCall>)
    requires inp.shouldFire && inp.targetChain == Near
    requires inp.nearAccountId != "" && inp.nearWalletConnected
    ensures published == None
    ensures calls == [HashAccount(inp.nearAccountId), RegisterAccount(inp.nearAccountId, RegisterGas, RegisterDeposit)]
  {
    var store := new Store();
    var resolver := new Resolver(store, lib);
    var _ := resolver.Start(inp);
    resolver.CompleteAccountSetup(0, true);
    resolver.CompleteHashAccount(0, Some((false, hash)));
    resolver.Cleanup();
    resolver.CompleteRegistration(0, result);
    published := store.TargetAddressHex(inp.nft);
    calls := resolver.nearCalls;
  }
}
