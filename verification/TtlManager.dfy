/** The timers of manager/ttl.go. */
module TtlManager {
  /** A one-shot timer: running until it is stopped or fires. */
  class Timer {
    const vmID: string
    ghost const number: nat                // how many were made before it
    var running: bool

    constructor (vmID: string, ghost number: nat)
      ensures this.vmID == vmID && this.number == number && running
    {
      this.vmID, this.number := vmID, number;
      running := true;
    }

    method Stop()
      modifies this
      ensures !running
    {
      running := false;
    }
  }

  /** `running` without the timer stored for `id`. */
  ghost function Without(running: map<nat, string>, stored: map<string, nat>, id: string): map<nat, string> {
    if id in stored then running - {stored[id]} else running
  }

  class TTLManager {
    var timers: map<string, Timer>
    ghost var created: set<Timer>          // every timer there ever was
    ghost var made: nat                    // how many there were
    ghost var stored: map<string, nat>     // the numbers of the stored timers
    ghost var running: map<nat, string>    // the numbers of the running timers, with their VMs

    /** A timer is known by its number. */
    ghost predicate Numbered()
      reads this
    {
      && (forall t :: t in created ==> t.number < made)
      && (forall t, u :: t in created && u in created && t.number == u.number ==> t == u)
      && stored.Keys == timers.Keys
      && (forall id :: id in timers ==>
            timers[id] in created && timers[id].vmID == id && timers[id].number == stored[id])
      && (forall n :: n in running ==> running[n] in timers && timers[running[n]].number == n)
    }

    /** A running timer is the one stored under its VM's id. */
    ghost predicate Valid()
      reads this, created
    {
      && Numbered()
      && (forall t :: t in created ==> (t.running <==> t.number in running))
      && (forall t :: t in created && t.running ==>
            running[t.number] == t.vmID && t.vmID in timers && timers[t.vmID] == t)
    }

    constructor ()
      ensures Valid() && timers == map[] && created == {} && made == 0 && stored == map[] && running == map[]
    {
      timers, created, made, stored, running := map[], {}, 0, map[], map[];
    }

    /** Stops the VM's timer, if there is one; its entry stays. */
    method StopStored(vmID: string)
      requires Valid()
      modifies this`running, created
      ensures Valid() && running == Without(old(running), old(stored), vmID)
      ensures forall t :: t in created ==> t.running == (old(t.running) && t.vmID != vmID)
    {
      if vmID in timers {
        timers[vmID].Stop();
        running := running - {stored[vmID]};
      }
    }

    /** Starts a timer in the place of one that does not run. */
    method Start(vmID: string) returns (timer: Timer)
      requires Valid() && forall t :: t in created && t.running ==> t.vmID != vmID
      modifies this
      ensures Valid() && fresh(timer) && created == old(created) + {timer} && timers == old(timers)[vmID := timer]
      ensures timer.vmID == vmID && timer.running && timer.number == old(made) && made == old(made) + 1
      ensures stored == old(stored)[vmID := old(made)] && running == old(running)[old(made) := vmID]
    {
      timer := new Timer(vmID, made);
      timers := timers[vmID := timer];
      running := running[made := vmID];
      stored := stored[vmID := made];
      created := created + {timer};
      made := made + 1;
    }

    /** Replaces the VM's timer: the new one runs, the old one no longer does, the others are as before. */
    method SetTTL(vmID: string) returns (timer: Timer)
      requires Valid()
      modifies this, created
      ensures Valid() && fresh(timer) && created == old(created) + {timer} && timers == old(timers)[vmID := timer]
      ensures timer.vmID == vmID && timer.running && timer.number == old(made) && made == old(made) + 1
      ensures forall t :: t in old(created) ==> t.running == (old(t.running) && t.vmID != vmID)
      ensures stored == old(stored)[vmID := old(made)]
      ensures running == Without(old(running), old(stored), vmID)[old(made) := vmID]
    {
      StopStored(vmID);
      timer := Start(vmID);
    }

    /** No timer of the VM runs afterwards. This is also what the function returned by the setter does. */
    method CancelTTL(vmID: string)
      requires Valid()
      modifies this, created
      ensures Valid() && created == old(created) && made == old(made) && timers == old(timers) - {vmID}
      ensures forall t :: t in created ==> t.running == (old(t.running) && t.vmID != vmID)
      ensures stored == old(stored) - {vmID} && running == Without(old(running), old(stored), vmID)
    {
      StopStored(vmID);
      timers := timers - {vmID};
      stored := stored - {vmID};
    }

    /** No timer runs afterwards. */
    method CancelAll()
      requires Valid()
      modifies this, created
      ensures Valid() && created == old(created) && made == old(made)
      ensures timers == map[] && stored == map[] && running == map[]
      ensures forall t :: t in created ==> !t.running
    {
      while timers != map[]
        invariant Valid() && created == old(created) && made == old(made)
        decreases |timers|
      {
        var vmID :| vmID in timers;
        assert (timers - {vmID}).Keys == timers.Keys - {vmID};
        CancelTTL(vmID);
      }
    }

    /** The timer goes off; its entry stays until somebody cancels it. */
    method Fire(timer: Timer)
      requires Valid() && timer in created && timer.running
      modifies this`running, timer
      ensures Valid() && !timer.running && running == old(running) - {timer.number}
      ensures timer.vmID in timers && timers[timer.vmID] == timer
    {
      timer.running := false;
      running := running - {timer.number};
    }
  }

  /** At most one timer runs for each VM. */
  lemma OneRunningTimerPerVM(m: TTLManager, t1: Timer, t2: Timer)
    requires m.Valid() && t1 in m.created && t2 in m.created
    requires t1.running && t2.running && t1.vmID == t2.vmID
    ensures t1 == t2
  {
  }
}
