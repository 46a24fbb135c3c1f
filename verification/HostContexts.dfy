/**
 Host contexts: the stacks guest code runs on. Exactly one is current; a switch makes another
 one current, and what is left stays suspended until something switches back to it.
 */
module HostContexts {
  class Host {
    var current: nat              // 0: no context
    var live: set<nat>
    var argument: map<nat, nat>   // what a context's entry was given

    ghost predicate Valid()
      reads this
    {
      && 0 !in live
      && (current == 0 || current in live)
    }

    constructor ()
      ensures Valid() && current == 0 && live == {} && argument == map[]
    {
      current, live, argument := 0, {}, map[];
    }

    /** Makes the running thread the context `handle`, the host's choice of a new one. */
    method InitializeScheduler(handle: nat)
      requires Valid() && handle != 0 && handle !in live
      modifies this`live, this`current
      ensures Valid() && current == handle && live == old(live) + {handle}
    {
      live := live + {handle};
      current := handle;
    }

    method ShutdownScheduler(handle: nat)
      requires Valid() && handle in live
      modifies this`live, this`current
      ensures Valid() && live == old(live) - {handle}
      ensures current == if old(current) == handle then 0 else old(current)
    {
      live := live - {handle};
      if current == handle {
        current := 0;
      }
    }

    /** A context that will run its entry when first switched to; 0 is the host's refusal. */
    method Create(handle: nat, given: nat)
      requires Valid() && handle !in live
      modifies this`live, this`argument
      ensures Valid()
      ensures live == if handle == 0 then old(live) else old(live) + {handle}
      ensures argument == if handle == 0 then old(argument) else old(argument)[handle := given]
    {
      if handle != 0 {
        live := live + {handle};
        argument := argument[handle := given];
      }
    }

    predicate IsCurrent(handle: nat)
      reads this
    {
      handle != 0 && handle == current
    }

    /** Frees a context: it must be one, and nothing may be running on its stack. */
    method Destroy(handle: nat)
      requires Valid() && handle in live && handle != current
      modifies this`live
      ensures Valid()
      ensures live == old(live) - {handle}
    {
      live := live - {handle};
    }

    /** Leaves the current context for another. */
    method Switch(target: nat)
      requires Valid() && (target == 0 || target in live)
      modifies this`current
      ensures Valid() && current == if target == 0 then old(current) else target
    {
      if target == 0 || target == current {
        return;
      }
      current := target;
    }
  }
}
