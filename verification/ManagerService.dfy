/**
 The shared state of manager/service.go as an object. Each method is one critical section of the
 source, proved to take its step of `VmManager`, so an object is always where the run of the steps it
 has taken leads, and what holds of every run holds of it.
 */
module ManagerService {
  import opened TtlManager
  import opened VmManager

  /** A persisted VM: whether its process is alive, and whether the manager can reattach to it. */
  datatype Persisted = Persisted(id: Id, alive: bool, attaches: bool)

  /** What a removal does to the fields of the object. */
  ghost predicate Removes(m: Manager, m': Manager, id: Id, stopOk: bool) {
    && m'.vms == (if RemovalOf(m.vms, id, stopOk) == Gone then m.vms - {id} else m.vms)
    && m'.timers == m.timers - {id} && m'.running == Without(m.running, m.timers, id)
    && m'.limit == m.limit && m'.nextTimer == m.nextTimer
  }

  lemma RemovesRight(m: Manager, id: Id, stopOk: bool)
    ensures Removes(m, Remove(m, id, stopOk), id, stopOk)
  {
    assert id !in m.timers ==> m.timers - {id} == m.timers;
  }

  lemma RemovalStep(m: Manager, id: Id, stopOk: bool)
    requires !m.crashed
    ensures Removes(m, Do(m, RemoveVM(id, stopOk)), id, stopOk)
    ensures id in m.callbacks ==> Removes(m, Do(m, RunCallback(id, stopOk)), id, stopOk)
  {
    hide Remove;
    RemovesRight(m, id, stopOk);
    RemovesRight(m.(callbacks := m.callbacks - multiset{id}), id, stopOk);
  }

  lemma ArmingStep(m: Manager, t: nat, parses: bool)
    requires !m.crashed && AtPhase(m, t, Phase.Registered)
    ensures var m', id := Do(m, ApplyTtl(t, parses)), m.creators[t].id;
            && m'.vms == m.vms && m'.limit == m.limit
            && (if m.creators[t].hasTtl && parses then
                  && m'.timers == m.timers[id := m.nextTimer]
                  && m'.running == Without(m.running, m.timers, id)[m.nextTimer := id]
                  && m'.nextTimer == m.nextTimer + 1
                else m'.timers == m.timers && m'.running == m.running && m'.nextTimer == m.nextTimer)
  {
    var id := m.creators[t].id;
    assert (m.timers - {id})[id := m.nextTimer] == m.timers[id := m.nextTimer];
  }

  lemma RegisterStep(m: Manager, t: nat)
    requires !m.crashed && AtPhase(m, t, Booted)
    ensures var m' := Do(m, Register(t));
            && m' == m.(vms := m'.vms, creators := m'.creators, replaced := m'.replaced)
            && m'.vms == (if Full(m.limit, m.vms) then m.vms else m.vms + {m.creators[t].id})
            && AtPhase(m', t, Phase.Registered) == !Full(m.limit, m.vms)
  {
  }

  class ManagerService {
    const maxVMs: int
    const ttl: TTLManager
    var vms: set<Id>
    ghost var restored: set<Id>            // registered at the start
    ghost var trace: seq<Step>             // the steps taken so far
    ghost var model: Manager               // where they lead

    /** The fields are those of the model. */
    ghost predicate Linked()
      reads this, ttl, ttl.created
    {
      && ttl.Valid() && vms == model.vms && maxVMs == model.limit
      && ttl.stored == model.timers && ttl.running == model.running && ttl.made == model.nextTimer
    }

    ghost predicate Valid()
      reads this, ttl, ttl.created
    {
      Linked() && model == Run(Restored(maxVMs, restored), trace)
    }

    /** The object has taken `step` and no other, and is where the run of all its steps leads. */
    twostate predicate Took(new step: Step)
      reads this, ttl, ttl.created
    {
      Valid() && restored == old(restored) && trace == old(trace) + [step] && model == Do(old(model), step)
    }

    constructor (maxVMs: int)
      ensures Valid() && this.maxVMs == maxVMs && vms == {} && restored == {} && trace == []
      ensures fresh(ttl) && ttl.created == {}
    {
      this.maxVMs := maxVMs;
      vms, restored, trace := {}, {}, [];
      model := Restored(maxVMs, {});
      var t := new TTLManager();
      ttl := t;
    }

    /** Registers every persisted VM whose process is alive and could be reattached. */
    method Reattach(states: seq<Persisted>)
      modifies this`vms
      ensures vms == old(vms) + set i | 0 <= i < |states| && states[i].alive && states[i].attaches :: states[i].id
    {
      var k := 0;
      while k < |states|
        invariant 0 <= k <= |states|
        invariant vms == old(vms) + set i | 0 <= i < k && states[i].alive && states[i].attaches :: states[i].id
      {
        if states[k].alive {
          if states[k].attaches {
            vms := vms + {states[k].id};
          }
        }
        k := k + 1;
      }
    }

    /** What the manager does before it serves. */
    method RestoreVMs(states: seq<Persisted>)
      requires Valid() && trace == []
      modifies this
      ensures Valid() && trace == [] && restored == vms
      ensures vms == old(vms) + set i | 0 <= i < |states| && states[i].alive && states[i].attaches :: states[i].id
    {
      Reattach(states);
      restored := vms;
      model := Restored(maxVMs, vms);
    }

    /** The step that is about to be taken; the fields follow. */
    ghost method Record(step: Step)
      requires model == Run(Restored(maxVMs, restored), trace)
      modifies this`model, this`trace
      ensures trace == old(trace) + [step] && model == Do(old(model), step)
      ensures model == Run(Restored(maxVMs, restored), trace)
    {
      hide Do, Run;
      RunThen(Restored(maxVMs, restored), trace, step);
      model := Do(model, step);
      trace := trace + [step];
    }

    predicate MayCreate()
      reads this
    {
      !(maxVMs > 0 && |vms| >= maxVMs)
    }

    /** The check before the VM is booted. */
    method BeginCreate(ghost thread: nat, id: Id, hasTtl: bool, paramsOk: bool) returns (ok: bool)
      requires Valid() && !model.crashed && thread !in model.creators
      modifies this
      ensures Took(Step.BeginCreate(thread, id, hasTtl, paramsOk))
      ensures ok == (!Full(maxVMs, vms) && paramsOk) == AtPhase(model, thread, Preparing)
    {
      hide Run;
      Record(Step.BeginCreate(thread, id, hasTtl, paramsOk));
      ok := MayCreate() && paramsOk;
    }

    /** The VM is booted, without the lock. */
    ghost method Boots(thread: nat, ok: bool)
      requires Valid() && !model.crashed
      modifies this
      ensures Took(StartVm(thread, ok))
    {
      hide Run;
      Record(StartVm(thread, ok));
    }

    /** The check and insertion after the VM was booted, under one lock. */
    method RegisterVM(ghost thread: nat, id: Id) returns (ok: bool)
      requires Valid() && !model.crashed && AtPhase(model, thread, Booted) && model.creators[thread].id == id
      modifies this
      ensures Took(Register(thread))
      ensures ok == !Full(maxVMs, old(vms)) == AtPhase(model, thread, Phase.Registered)
      ensures vms == if ok then old(vms) + {id} else old(vms)
      ensures ok && maxVMs > 0 ==> |vms| <= maxVMs
    {
      hide Run, Do, AtPhase;
      RegisterStep(model, thread);
      Record(Register(thread));
      ok := MayCreate();
      CardinalityBounds(vms, id);
      if ok {
        vms := vms + {id};
      }
    }

    /** A VM that was refused is stopped, without the lock. */
    ghost method StopsRefused(thread: nat)
      requires Valid() && !model.crashed
      modifies this
      ensures Took(StopRejected(thread))
    {
      hide Run;
      Record(StopRejected(thread));
    }

    /** Sets the TTL if there is one and it parses. */
    method ArmTimer(ghost thread: nat, id: Id, hasTtl: bool, parses: bool)
      requires Valid() && !model.crashed && AtPhase(model, thread, Phase.Registered)
      requires model.creators[thread].id == id && model.creators[thread].hasTtl == hasTtl
      modifies this, ttl, ttl.created
      ensures Took(ApplyTtl(thread, parses))
    {
      hide Run, Do, Without;
      ArmingStep(model, thread, parses);
      Record(ApplyTtl(thread, parses));
      if hasTtl && parses {
        var _ := ttl.SetTTL(id);
      }
    }

    /** The final transition; false: it is called on a missing entry. */
    method Conclude(ghost thread: nat, id: Id) returns (ok: bool)
      requires Valid() && !model.crashed && AtPhase(model, thread, Finishing) && model.creators[thread].id == id
      modifies this
      ensures Took(Step.Finish(thread))
      ensures ok == !model.crashed
    {
      hide Run;
      Record(Step.Finish(thread));
      ok := id in vms;
    }

    /** Cancels the TTL, then stops and deletes the VM. */
    method Drop(id: Id, stopOk: bool) returns (r: Removal)
      requires ttl.Valid()
      modifies this`vms, ttl, ttl.created
      ensures ttl.Valid() && r == RemovalOf(old(vms), id, stopOk)
      ensures (r == Gone <==> id in old(vms) && stopOk) && (r == StopFailed <==> id in old(vms) && !stopOk)
      ensures vms == if r == Gone then old(vms) - {id} else old(vms)
      ensures ttl.created == old(ttl.created) && ttl.timers == old(ttl.timers) - {id} && ttl.made == old(ttl.made)
      ensures ttl.stored == old(ttl.stored) - {id} && ttl.running == Without(old(ttl.running), old(ttl.stored), id)
      ensures forall t :: t in ttl.created ==> t.running == (old(t.running) && t.vmID != id)
    {
      ttl.CancelTTL(id);
      if id !in vms {
        return NotFound;
      }
      if !stopOk {
        return StopFailed;
      }
      vms := vms - {id};
      return Gone;
    }

    method RemoveVM(id: Id, stopOk: bool) returns (r: Removal)
      requires Valid() && !model.crashed
      modifies this, ttl, ttl.created
      ensures Took(Step.RemoveVM(id, stopOk))
      ensures r == RemovalOf(old(vms), id, stopOk)
      ensures (r == Gone <==> id in old(vms) && stopOk) && (r == StopFailed <==> id in old(vms) && !stopOk)
      ensures vms == if r == Gone then old(vms) - {id} else old(vms)
      ensures ttl.created == old(ttl.created)
      ensures forall t :: t in ttl.created ==> t.running == (old(t.running) && t.vmID != id)
    {
      hide Run, Do, Without, RemovalOf;
      RemovalStep(model, id, stopOk);
      Record(Step.RemoveVM(id, stopOk));
      r := Drop(id, stopOk);
    }

    /** A timer goes off; its callback is to run. */
    method Expire(timer: Timer)
      requires Valid() && !model.crashed && timer in ttl.created && timer.running
      modifies this, ttl, timer
      ensures Took(TimerFires(timer.number))
    {
      hide Run;
      Record(TimerFires(timer.number));
      ttl.Fire(timer);
    }

    /** The callback of a timer that went off. */
    method OnExpiry(id: Id, stopOk: bool) returns (r: Removal)
      requires Valid() && !model.crashed && id in model.callbacks
      modifies this, ttl, ttl.created
      ensures Took(RunCallback(id, stopOk))
      ensures r == RemovalOf(old(vms), id, stopOk)
      ensures (r == Gone <==> id in old(vms) && stopOk) && (r == StopFailed <==> id in old(vms) && !stopOk)
      ensures vms == if r == Gone then old(vms) - {id} else old(vms)
      ensures ttl.created == old(ttl.created)
      ensures forall t :: t in ttl.created ==> t.running == (old(t.running) && t.vmID != id)
    {
      hide Run, Do, Without, RemovalOf;
      RemovalStep(model, id, stopOk);
      Record(RunCallback(id, stopOk));
      r := Drop(id, stopOk);
    }

    /** The first half of a shutdown. */
    method CancelTimers()
      requires Valid() && !model.crashed
      modifies this, ttl, ttl.created
      ensures Took(ShutdownCancels) && ttl.timers == map[] && ttl.created == old(ttl.created)
      ensures forall t :: t in ttl.created ==> !t.running
    {
      hide Run;
      Record(ShutdownCancels);
      ttl.CancelAll();
    }

    /** The second half, under the lock. */
    method ClearVMs()
      requires Valid() && !model.crashed
      modifies this
      ensures Took(ShutdownClears) && vms == {}
    {
      hide Run;
      Record(ShutdownClears);
      vms := {};
    }

    method Shutdown()
      requires Valid() && !model.crashed
      modifies this, ttl, ttl.created
      ensures Valid() && trace == old(trace) + [ShutdownCancels, ShutdownClears]
      ensures vms == {} && ttl.timers == map[] && forall t :: t in ttl.created ==> !t.running
    {
      hide Run, Do;
      CancelTimers();
      CancellingIsNoCrash(old(model));
      ClearVMs();
    }
  }

  lemma CancellingIsNoCrash(m: Manager)
    ensures Do(m, ShutdownCancels).crashed == m.crashed
  {
  }

  lemma RunThen(m: Manager, steps: seq<Step>, step: Step)
    ensures Run(m, steps + [step]) == Do(Run(m, steps), step)
  {
    RunInTwo(m, steps, [step]);
    hide Do;
    assert [step][1..] == [];
  }

  /** Whatever calls have been made on the object, its limit holds. */
  lemma ObjectKeepsLimit(manager: ManagerService)
    requires manager.Valid() && manager.maxVMs > 0
    ensures |manager.vms| <= manager.maxVMs || |manager.vms| <= |manager.restored|
  {
    hide Run;
    LimitIsNeverExceeded(manager.maxVMs, manager.restored, manager.trace);
  }

  /** Without a shutdown, no id started through the object is lost, and with fresh ids no VM. */
  lemma ObjectLosesNoVm(manager: ManagerService)
    requires manager.Valid() && ShutdownClears !in manager.trace
    ensures forall id :: id in manager.model.started ==>
              id in manager.vms || id in manager.model.stopCalled || InFlight(manager.model.creators, id)
    ensures FreshIds(Restored(manager.maxVMs, manager.restored), manager.trace) ==> manager.model.replaced == {}
  {
    hide Run, InFlight, FreshIds, Restored;
    NoIdIsLost(manager.maxVMs, manager.restored, manager.trace);
    forall id | id in manager.model.started
      ensures id in manager.vms || id in manager.model.stopCalled || InFlight(manager.model.creators, id)
    {
      assert !Lost(manager.model, id);
    }
    if FreshIds(Restored(manager.maxVMs, manager.restored), manager.trace) {
      NoVmIsLost(manager.maxVMs, manager.restored, manager.trace);
    }
  }
}
