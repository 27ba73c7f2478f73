/**
 The VM manager under concurrency: manager/service.go.

 Each creator runs through its own program counter: it checks the limit, boots its VM without the
 lock, checks again and registers, sets the TTL, and makes the final state transition. Removals,
 timers going off, their callbacks, and the two halves of a shutdown come in between.
 */
module VmManager {
  type Id = string

  datatype Phase =
    | Preparing                            // past the first check, VM not started
    | Booted                               // VM started, not registered
    | Rejected                             // the second check failed, Stop not yet called
    | Registered                           // in the map, TTL not yet set
    | Finishing                            // about to make the final transition

  datatype Creator = Creator(id: Id, phase: Phase, hasTtl: bool)

  datatype Manager = Manager(
    limit: int,
    restored: nat,                         // number of VMs registered at the start
    vms: set<Id>,
    creators: map<nat, Creator>,           // by thread
    timers: map<Id, nat>,                  // the stored timer of each VM
    running: map<nat, Id>,                 // the timers that have not been stopped or gone off
    nextTimer: nat,
    callbacks: multiset<Id>,               // expiries whose removal has not run yet
    used: set<Id>,                         // ids ever drawn or restored
    started: set<Id>,
    stopCalled: set<Id>,
    removed: multiset<Id>,                 // successful removals
    forgotten: set<Id>,                    // registered when a shutdown emptied the map
    replaced: set<Id>,                     // a registration found another VM under the id and dropped it
    crashed: bool)                         // a transition was called on a missing VM

  // ---------------------------------------------------------------- critical sections

  /** The limit check, made before booting and again before registering. */
  predicate Full(limit: int, vms: set<Id>) {
    limit > 0 && |vms| >= limit
  }

  function CancelTtl(m: Manager, id: Id): (m': Manager)
    ensures m' == m.(timers := m'.timers, running := m'.running)
  {
    if id in m.timers then m.(timers := m.timers - {id}, running := m.running - {m.timers[id]}) else m
  }

  function SetTtl(m: Manager, id: Id): (m': Manager)
    ensures m' == m.(timers := m'.timers, running := m'.running, nextTimer := m'.nextTimer)
  {
    var c := CancelTtl(m, id);
    m.(timers := c.timers[id := m.nextTimer], running := c.running[m.nextTimer := id], nextTimer := m.nextTimer + 1)
  }

  datatype Removal = Gone | NotFound | StopFailed

  /** What removing `id` does to the map. */
  function RemovalOf(vms: set<Id>, id: Id, stopOk: bool): Removal {
    if id !in vms then NotFound else if stopOk then Gone else StopFailed
  }

  /** Cancels the TTL first, found or not; a VM whose stop fails stays registered. */
  function Remove(m: Manager, id: Id, stopOk: bool): (m': Manager)
    ensures m' == m.(vms := m'.vms, stopCalled := m'.stopCalled, removed := m'.removed, timers := m'.timers,
              running := m'.running)
    ensures m'.vms == if RemovalOf(m.vms, id, stopOk) == Gone then m.vms - {id} else m.vms
    ensures m'.removed == if RemovalOf(m.vms, id, stopOk) == Gone then m.removed + multiset{id} else m.removed
    ensures m'.stopCalled == if RemovalOf(m.vms, id, stopOk) == NotFound then m.stopCalled else m.stopCalled + {id}
  {
    var c := CancelTtl(m, id);
    match RemovalOf(m.vms, id, stopOk)
    case NotFound => c
    case StopFailed => c.(stopCalled := c.stopCalled + {id})
    case Gone => c.(vms := c.vms - {id}, stopCalled := c.stopCalled + {id}, removed := c.removed + multiset{id})
  }

  // ---------------------------------------------------------------- steps

  datatype Step =
    | BeginCreate(thread: nat, id: Id, hasTtl: bool, paramsOk: bool)
    | StartVm(thread: nat, ok: bool)
    | Register(thread: nat)
    | StopRejected(thread: nat)
    | ApplyTtl(thread: nat, parses: bool)
    | Finish(thread: nat)
    | RemoveVM(id: Id, stopOk: bool)
    | TimerFires(timer: nat)
    | RunCallback(id: Id, stopOk: bool)
    | ShutdownCancels
    | ShutdownClears

  predicate AtPhase(m: Manager, thread: nat, phase: Phase) {
    thread in m.creators && m.creators[thread].phase == phase
  }

  function Goto(m: Manager, thread: nat, phase: Phase): Manager
    requires thread in m.creators
  {
    m.(creators := m.creators[thread := m.creators[thread].(phase := phase)])
  }

  function Return(m: Manager, thread: nat): Manager {
    m.(creators := m.creators - {thread})
  }

  /** A step of creator `t` touches no other creator and no id but its own. */
  ghost predicate OwnStep(m: Manager, m': Manager, t: nat) {
    && (t !in m.creators ==> m' == m)
    && (t in m.creators ==>
          && m.vms <= m'.vms <= m.vms + {m.creators[t].id}
          && m.started <= m'.started <= m.started + {m.creators[t].id}
          && m.stopCalled <= m'.stopCalled <= m.stopCalled + {m.creators[t].id}
          && (t in m'.creators ==> m'.creators[t].id == m.creators[t].id))
    && (forall u :: u in m.creators && u != t ==> u in m'.creators && m'.creators[u] == m.creators[u])
    && m'.creators.Keys <= m.creators.Keys
    && m'.removed == m.removed && m'.forgotten == m.forgotten
    && m'.limit == m.limit && m'.restored == m.restored && m'.used == m.used
  }

  function Boot(m: Manager, t: nat, ok: bool): (m': Manager)
    ensures OwnStep(m, m', t) && m'.vms == m.vms
  {
    if !AtPhase(m, t, Preparing) then m
    else if ok then Goto(m.(started := m.started + {m.creators[t].id}), t, Booted)
    else Return(m, t)
  }

  function Enroll(m: Manager, t: nat): (m': Manager)
    ensures OwnStep(m, m', t)
    ensures m'.vms != m.vms ==> t in m.creators && !Full(m.limit, m.vms) && m'.vms == m.vms + {m.creators[t].id}
  {
    if !AtPhase(m, t, Booted) then m
    else if Full(m.limit, m.vms) then Goto(m, t, Rejected)
    else
      var id := m.creators[t].id;
      Goto(m.(vms := m.vms + {id}, replaced := if id in m.vms then m.replaced + {id} else m.replaced), t, Registered)
  }

  function StopUnregistered(m: Manager, t: nat): (m': Manager)
    ensures OwnStep(m, m', t) && m'.vms == m.vms
  {
    if !AtPhase(m, t, Rejected) then m
    else Return(m.(stopCalled := m.stopCalled + {m.creators[t].id}), t)
  }

  /** A TTL that does not parse makes the create fail with its VM registered. */
  function ArmTtl(m: Manager, t: nat, parses: bool): (m': Manager)
    ensures OwnStep(m, m', t) && m'.vms == m.vms
  {
    if !AtPhase(m, t, Registered) then m
    else if !m.creators[t].hasTtl then Goto(m, t, Finishing)
    else if !parses then Return(m, t)
    else Goto(SetTtl(m, m.creators[t].id), t, Finishing)
  }

  /** The final transition looks the VM up again; on a missing entry it is a call on nil. */
  function Conclude(m: Manager, t: nat): (m': Manager)
    ensures OwnStep(m, m', t) && m'.vms == m.vms
  {
    if !AtPhase(m, t, Finishing) then m
    else if m.creators[t].id in m.vms then Return(m, t)
    else m.(crashed := true)
  }

  /** One step; a step that is not enabled changes nothing, and nothing happens after a crash. */
  function Do(m: Manager, step: Step): Manager {
    if m.crashed then m else
    match step
    case BeginCreate(t, id, hasTtl, paramsOk) =>
      if t in m.creators then m
      else if Full(m.limit, m.vms) || !paramsOk then m.(used := m.used + {id})
      else m.(used := m.used + {id}, creators := m.creators[t := Creator(id, Preparing, hasTtl)])
    case StartVm(t, ok) => Boot(m, t, ok)
    case Register(t) => Enroll(m, t)
    case StopRejected(t) => StopUnregistered(m, t)
    case ApplyTtl(t, parses) => ArmTtl(m, t, parses)
    case Finish(t) => Conclude(m, t)
    case RemoveVM(id, stopOk) => Remove(m, id, stopOk)
    case TimerFires(timer) =>
      if timer !in m.running then m
      else m.(callbacks := m.callbacks + multiset{m.running[timer]}, running := m.running - {timer})
    case RunCallback(id, stopOk) =>
      if id !in m.callbacks then m
      else Remove(m.(callbacks := m.callbacks - multiset{id}), id, stopOk)
    case ShutdownCancels => m.(timers := map[], running := m.running - (set id | id in m.timers :: m.timers[id]))
    case ShutdownClears => m.(vms := {}, forgotten := m.forgotten + m.vms)
  }

  function Run(m: Manager, steps: seq<Step>): Manager
    decreases |steps|
  {
    if steps == [] then m else Run(Do(m, steps[0]), steps[1..])
  }

  /** A manager that has restored the VMs in `ids` and has done nothing else. */
  function Restored(limit: int, ids: set<Id>): Manager {
    Manager(limit, |ids|, ids, map[], map[], map[], 0, multiset{}, ids, ids, {}, multiset{}, {}, {}, false)
  }

  // ---------------------------------------------------------------- what single operations do

  /** What a removal, asked for or by a due callback, does to the map, found or not, stopped or not. */
  lemma RemovalExactly(m: Manager, id: Id, stopOk: bool)
    requires !m.crashed
    ensures var m' := Do(m, RemoveVM(id, stopOk));
            && m'.vms == (if id in m.vms && stopOk then m.vms - {id} else m.vms)
            && m'.removed == (if id in m.vms && stopOk then m.removed + multiset{id} else m.removed)
            && m'.stopCalled == (if id in m.vms then m.stopCalled + {id} else m.stopCalled)
            && m'.creators == m.creators && m'.started == m.started
    ensures id in m.callbacks ==>
              && Do(m, RunCallback(id, stopOk)).vms == Do(m, RemoveVM(id, stopOk)).vms
              && Do(m, RunCallback(id, stopOk)).callbacks == m.callbacks - multiset{id}
    ensures RemovalOf(m.vms, id, stopOk) == Gone <==> id in m.vms && stopOk
    ensures RemovalOf(m.vms, id, stopOk) == StopFailed <==> id in m.vms && !stopOk
  {
    hide CancelTtl;
  }

  /** The step removes `id` after a successful stop, or empties the map. */
  predicate TakesOut(step: Step, id: Id) {
    step in {RemoveVM(id, true), RunCallback(id, true), ShutdownClears}
  }

  lemma StepTakesOut(m: Manager, step: Step, id: Id)
    requires id in m.vms && id !in Do(m, step).vms
    ensures TakesOut(step, id)
  {
    hide CancelTtl, SetTtl, Full;
  }

  /** A VM leaves the map only by a removal whose stop succeeded, or by a shutdown. */
  lemma {:induction false} LeavesOnlyWhenStopped(m: Manager, steps: seq<Step>, id: Id)
    requires id in m.vms && id !in Run(m, steps).vms
    ensures exists k :: 0 <= k < |steps| && TakesOut(steps[k], id)
    decreases |steps|
  {
    hide Do, TakesOut;
    if steps != [] {
      if id in Do(m, steps[0]).vms {
        LeavesOnlyWhenStopped(Do(m, steps[0]), steps[1..], id);
        var k :| 0 <= k < |steps| - 1 && TakesOut(steps[1..][k], id);
        assert steps[k + 1] == steps[1..][k];
      } else {
        StepTakesOut(m, steps[0], id);
      }
    }
  }

  /** A create that nothing comes in between of. */
  function CreatedAlone(m: Manager, t: nat, id: Id, hasTtl: bool, paramsOk: bool, boots: bool, parses: bool): Manager {
    var m1 := Do(m, BeginCreate(t, id, hasTtl, paramsOk));
    var m2 := Do(Do(m1, StartVm(t, boots)), Register(t));
    Do(Do(m2, ApplyTtl(t, parses)), Finish(t))
  }

  lemma CreateStarts(m: Manager, t: nat, id: Id, hasTtl: bool)
    requires !m.crashed && t !in m.creators && !Full(m.limit, m.vms)
    ensures var m1 := Do(m, BeginCreate(t, id, hasTtl, true));
            && m1 == m.(used := m1.used, creators := m.creators[t := Creator(id, Preparing, hasTtl)])
            && Do(m1, StartVm(t, true)) ==
               m1.(started := m.started + {id}, creators := m.creators[t := Creator(id, Booted, hasTtl)])
            && Do(m1, StartVm(t, false)) == m1.(creators := m1.creators - {t})
  {
  }

  lemma CreateRefused(m: Manager, t: nat, id: Id, hasTtl: bool, paramsOk: bool)
    requires !m.crashed && t !in m.creators && (Full(m.limit, m.vms) || !paramsOk)
    ensures Do(m, BeginCreate(t, id, hasTtl, paramsOk)) == m.(used := m.used + {id})
  {
  }

  /** A thread that has returned takes no steps. */
  lemma NothingLeftToDo(m: Manager, t: nat, ok: bool)
    requires t !in m.creators
    ensures Do(m, StartVm(t, ok)) == Do(m, Register(t)) == Do(m, ApplyTtl(t, ok)) == Do(m, Finish(t)) == m
  {
  }

  lemma CreateEnrolls(m: Manager, t: nat)
    requires !m.crashed && AtPhase(m, t, Booted) && !Full(m.limit, m.vms)
    ensures var m' := Do(m, Register(t));
            && m' == m.(vms := m.vms + {m.creators[t].id}, replaced := m'.replaced,
                        creators := m.creators[t := m.creators[t].(phase := Registered)])
  {
  }

  lemma CreateArms(m: Manager, t: nat, parses: bool)
    requires !m.crashed && AtPhase(m, t, Registered)
    ensures var m', id := Do(m, ApplyTtl(t, parses)), m.creators[t].id;
            && m' == m.(creators := m'.creators, timers := m'.timers, running := m'.running, nextTimer := m'.nextTimer)
            && m'.creators == (if m.creators[t].hasTtl && !parses then m.creators - {t}
                               else m.creators[t := m.creators[t].(phase := Finishing)])
            && (if m.creators[t].hasTtl && parses then Armed(m', id, m.nextTimer)
                else m'.running == m.running && m'.timers == m.timers)
  {
    hide CancelTtl;
  }

  /** `timer` runs for `id`. */
  predicate Armed(m: Manager, id: Id, timer: nat) {
    timer in m.running && m.running[timer] == id && id in m.timers && m.timers[id] == timer
  }

  lemma CreateReturns(m: Manager, t: nat)
    requires !m.crashed && AtPhase(m, t, Finishing) && m.creators[t].id in m.vms
    ensures Do(m, Finish(t)) == m.(creators := m.creators - {t})
  {
  }

  lemma CreateFinishes(m: Manager, t: nat, parses: bool)
    requires !m.crashed && AtPhase(m, t, Booted) && !Full(m.limit, m.vms)
    ensures var m', c := Do(Do(Do(m, Register(t)), ApplyTtl(t, parses)), Finish(t)), m.creators[t];
            && m'.vms == m.vms + {c.id} && m'.started == m.started && m'.stopCalled == m.stopCalled
            && m'.creators == m.creators - {t} && !m'.crashed
            && (if c.hasTtl && parses then Armed(m', c.id, m.nextTimer)
                else m'.running == m.running && m'.timers == m.timers)
  {
    hide Do, Full;
    CreateEnrolls(m, t);
    var m1 := Do(m, Register(t));
    CreateArms(m1, t, parses);
    var m2 := Do(m1, ApplyTtl(t, parses));
    if t in m2.creators {
      CreateReturns(m2, t);
    } else {
      NothingLeftToDo(m2, t, parses);
    }
  }

  /**
   It registers its VM exactly when there is room, the parameters hold and the VM boots; with a TTL that
   parses a new timer then runs for it, and in no other case.
   */
  lemma CreateExactly(m: Manager, t: nat, id: Id, hasTtl: bool, paramsOk: bool, boots: bool, parses: bool)
    requires !m.crashed && t !in m.creators
    ensures var m' := CreatedAlone(m, t, id, hasTtl, paramsOk, boots, parses);
            var goes := (m.limit <= 0 || |m.vms| < m.limit) && paramsOk && boots;
            && m'.vms == (if goes then m.vms + {id} else m.vms)
            && m'.started == (if goes then m.started + {id} else m.started)
            && m'.stopCalled == m.stopCalled && m'.creators == m.creators && !m'.crashed
            && (if goes && hasTtl && parses then Armed(m', id, m.nextTimer)
                else m'.running == m.running && m'.timers == m.timers)
  {
    hide Do, Armed;
    var m1 := Do(m, BeginCreate(t, id, hasTtl, paramsOk));
    if Full(m.limit, m.vms) || !paramsOk {
      CreateRefused(m, t, id, hasTtl, paramsOk);
      NothingLeftToDo(m1, t, boots);
      NothingLeftToDo(m1, t, parses);
    } else {
      CreateStarts(m, t, id, hasTtl);
      var m2 := Do(m1, StartVm(t, boots));
      if boots {
        CreateFinishes(m2, t, parses);
      } else {
        NothingLeftToDo(m2, t, parses);
      }
      assert m2.creators - {t} == m.creators;
    }
  }

  /** A VM that finds the map full after booting is stopped and never registered. */
  lemma RefusedIsStopped(m: Manager, t: nat)
    requires !m.crashed && AtPhase(m, t, Booted) && 0 < m.limit <= |m.vms|
    ensures var m' := Do(Do(m, Register(t)), StopRejected(t));
            m' == m.(stopCalled := m.stopCalled + {m.creators[t].id}, creators := m.creators - {t})
  {
    assert m.creators[t := m.creators[t].(phase := Rejected)] - {t} == m.creators - {t};
  }

  // ---------------------------------------------------------------- the limit

  predicate WithinLimit(limit: int, restored: nat, vms: set<Id>) {
    limit > 0 ==> |vms| <= limit || |vms| <= restored
  }

  lemma CardinalityBounds(vms: set<Id>, id: Id)
    ensures |vms - {id}| <= |vms| && |vms + {id}| <= |vms| + 1
  {
    assert vms == if id in vms then (vms - {id}) + {id} else vms - {id};
    assert id in vms ==> vms + {id} == vms;
  }

  lemma NoneIsWithinLimit(limit: int, restored: nat)
    ensures WithinLimit(limit, restored, {})
  {
  }

  lemma RemovingKeepsLimit(m: Manager, id: Id)
    requires WithinLimit(m.limit, m.restored, m.vms)
    ensures WithinLimit(m.limit, m.restored, m.vms - {id})
  {
    CardinalityBounds(m.vms, id);
  }

  lemma RegisteringKeepsLimit(m: Manager, id: Id)
    requires WithinLimit(m.limit, m.restored, m.vms) && !Full(m.limit, m.vms)
    ensures WithinLimit(m.limit, m.restored, m.vms + {id})
  {
    CardinalityBounds(m.vms, id);
  }

  lemma OwnStepKeepsLimit(m: Manager, m': Manager, t: nat)
    requires OwnStep(m, m', t)
    ensures m'.limit == m.limit && m'.restored == m.restored
  {
  }

  lemma StepKeepsLimit(m: Manager, step: Step)
    requires WithinLimit(m.limit, m.restored, m.vms)
    ensures var m' := Do(m, step);
            WithinLimit(m'.limit, m'.restored, m'.vms) && m'.limit == m.limit && m'.restored == m.restored
  {
    hide CancelTtl, SetTtl, Remove, Boot, Enroll, StopUnregistered, ArmTtl, Conclude, OwnStep, WithinLimit, Full;
    NoneIsWithinLimit(m.limit, m.restored);
    match step
    case StartVm(t, ok) => OwnStepKeepsLimit(m, Boot(m, t, ok), t);
    case Register(t) =>
      OwnStepKeepsLimit(m, Enroll(m, t), t);
      if Enroll(m, t).vms != m.vms { RegisteringKeepsLimit(m, m.creators[t].id); }
    case StopRejected(t) => OwnStepKeepsLimit(m, StopUnregistered(m, t), t);
    case ApplyTtl(t, parses) => OwnStepKeepsLimit(m, ArmTtl(m, t, parses), t);
    case Finish(t) => OwnStepKeepsLimit(m, Conclude(m, t), t);
    case RemoveVM(id, stopOk) => RemovingKeepsLimit(m, id);
    case RunCallback(id, stopOk) => RemovingKeepsLimit(m, id);
    case _ =>
  }

  lemma {:induction false} RunKeepsLimit(m: Manager, steps: seq<Step>)
    requires WithinLimit(m.limit, m.restored, m.vms)
    ensures var m' := Run(m, steps);
            WithinLimit(m'.limit, m'.restored, m'.vms) && m'.limit == m.limit && m'.restored == m.restored
    decreases |steps|
  {
    hide Do, WithinLimit;
    if steps != [] {
      StepKeepsLimit(m, steps[0]);
      RunKeepsLimit(Do(m, steps[0]), steps[1..]);
    }
  }

  /**
   However creates, removals, expiries and shutdowns interleave, a positive limit is never exceeded,
   except that more VMs than that may have been restored at the start.
   */
  lemma LimitIsNeverExceeded(limit: int, ids: set<Id>, steps: seq<Step>)
    requires limit > 0
    ensures |Run(Restored(limit, ids), steps).vms| <= limit || |Run(Restored(limit, ids), steps).vms| <= |ids|
  {
    RunKeepsLimit(Restored(limit, ids), steps);
  }

  // ---------------------------------------------------------------- ids

  /** Ids are drawn at random from a space too large to repeat. */
  predicate DrawsFreshId(m: Manager, step: Step) {
    step.BeginCreate? ==> step.id !in m.used
  }

  predicate Unregistered(phase: Phase) {
    phase == Preparing || phase == Booted || phase == Rejected
  }

  /** Each creator has an id of its own, which is registered once, by it, and removed at most once. */
  ghost predicate IdsAreOwned(creators: map<nat, Creator>, used: set<Id>, vms: set<Id>, removed: multiset<Id>) {
    && (forall t :: t in creators ==> creators[t].id in used)
    && (forall t, u :: t in creators && u in creators && t != u ==> creators[t].id != creators[u].id)
    && (forall t :: t in creators && Unregistered(creators[t].phase) ==>
          creators[t].id !in vms && removed[creators[t].id] == 0)
    && vms <= used
    && (forall id :: removed[id] > 0 ==> removed[id] == 1 && id in used && id !in vms)
  }

  lemma GotoKeepsIds(m: Manager, t: nat, phase: Phase)
    requires IdsAreOwned(m.creators, m.used, m.vms, m.removed) && t in m.creators
    requires Unregistered(phase) ==> Unregistered(m.creators[t].phase)
    ensures IdsAreOwned(Goto(m, t, phase).creators, m.used, m.vms, m.removed)
  {
  }

  lemma ReturnKeepsIds(m: Manager, t: nat)
    requires IdsAreOwned(m.creators, m.used, m.vms, m.removed)
    ensures IdsAreOwned(Return(m, t).creators, m.used, m.vms, m.removed)
  {
  }

  lemma SpawnKeepsIds(m: Manager, t: nat, id: Id, hasTtl: bool)
    requires IdsAreOwned(m.creators, m.used, m.vms, m.removed) && id !in m.used && t !in m.creators
    ensures IdsAreOwned(m.creators, m.used + {id}, m.vms, m.removed)
    ensures IdsAreOwned(m.creators[t := Creator(id, Preparing, hasTtl)], m.used + {id}, m.vms, m.removed)
  {
  }

  lemma RegisterKeepsIds(m: Manager, t: nat)
    requires IdsAreOwned(m.creators, m.used, m.vms, m.removed) && t in m.creators && Unregistered(m.creators[t].phase)
    ensures IdsAreOwned(Goto(m, t, Registered).creators, m.used, m.vms + {m.creators[t].id}, m.removed)
  {
  }

  lemma RemoveKeepsIds(m: Manager, id: Id)
    requires IdsAreOwned(m.creators, m.used, m.vms, m.removed) && id in m.vms
    ensures IdsAreOwned(m.creators, m.used, m.vms - {id}, m.removed + multiset{id})
  {
  }

  lemma ClearKeepsIds(m: Manager)
    requires IdsAreOwned(m.creators, m.used, m.vms, m.removed)
    ensures IdsAreOwned(m.creators, m.used, {}, m.removed)
  {
  }

  lemma StepKeepsIds(m: Manager, step: Step)
    requires IdsAreOwned(m.creators, m.used, m.vms, m.removed) && DrawsFreshId(m, step)
    ensures var m' := Do(m, step); IdsAreOwned(m'.creators, m'.used, m'.vms, m'.removed)
  {
    hide CancelTtl, SetTtl, Remove, Full, IdsAreOwned;
    match step
    case BeginCreate(t, id, hasTtl, paramsOk) => if t !in m.creators { SpawnKeepsIds(m, t, id, hasTtl); }
    case StartVm(t, ok) =>
      if AtPhase(m, t, Preparing) {
        GotoKeepsIds(m, t, Booted);
        ReturnKeepsIds(m, t);
      }
    case Register(t) =>
      if AtPhase(m, t, Booted) {
        GotoKeepsIds(m, t, Rejected);
        RegisterKeepsIds(m, t);
      }
    case StopRejected(t) => ReturnKeepsIds(m, t);
    case ApplyTtl(t, parses) =>
      if AtPhase(m, t, Registered) {
        GotoKeepsIds(m, t, Finishing);
        ReturnKeepsIds(m, t);
      }
    case Finish(t) => ReturnKeepsIds(m, t);
    case RemoveVM(id, stopOk) => if id in m.vms { RemoveKeepsIds(m, id); }
    case TimerFires(timer) =>
    case RunCallback(id, stopOk) => if id in m.vms { RemoveKeepsIds(m, id); }
    case ShutdownCancels =>
    case ShutdownClears => ClearKeepsIds(m);
  }

  // ---------------------------------------------------------------- timers

  /** A running timer is the one stored under its VM's id. */
  ghost predicate TimersAreStored(timers: map<Id, nat>, running: map<nat, Id>, nextTimer: nat) {
    && (forall t :: t in running ==> t < nextTimer && running[t] in timers && timers[running[t]] == t)
    && (forall id :: id in timers ==> timers[id] < nextTimer)
  }

  lemma CancelKeepsTimers(m: Manager, id: Id)
    requires TimersAreStored(m.timers, m.running, m.nextTimer)
    ensures var m' := CancelTtl(m, id);
            && TimersAreStored(m'.timers, m'.running, m'.nextTimer)
            && (forall t :: t in m'.running ==> m'.running[t] != id)
  {
  }

  lemma SetKeepsTimers(m: Manager, id: Id)
    requires TimersAreStored(m.timers, m.running, m.nextTimer)
    ensures var m' := SetTtl(m, id); TimersAreStored(m'.timers, m'.running, m'.nextTimer)
  {
    CancelKeepsTimers(m, id);
    hide CancelTtl;
  }

  lemma RemoveCancelsTimer(m: Manager, id: Id, stopOk: bool)
    requires TimersAreStored(m.timers, m.running, m.nextTimer)
    ensures var m' := Remove(m, id, stopOk);
            && TimersAreStored(m'.timers, m'.running, m'.nextTimer)
            && (forall t :: t in m'.running ==> m'.running[t] != id)
  {
    CancelKeepsTimers(m, id);
    hide CancelTtl, TimersAreStored;
  }

  /** Every step keeps the running timers stored; so at most one timer runs for each VM. */
  lemma StepKeepsTimers(m: Manager, step: Step)
    requires TimersAreStored(m.timers, m.running, m.nextTimer)
    ensures var m' := Do(m, step); TimersAreStored(m'.timers, m'.running, m'.nextTimer)
  {
    hide CancelTtl, SetTtl, Remove, Full;
    match step
    case ApplyTtl(t, parses) => if t in m.creators { SetKeepsTimers(m, m.creators[t].id); }
    case RemoveVM(id, stopOk) => RemoveCancelsTimer(m, id, stopOk);
    case RunCallback(id, stopOk) => RemoveCancelsTimer(m.(callbacks := m.callbacks - multiset{id}), id, stopOk);
    case TimerFires(timer) =>
    case ShutdownCancels =>
    case _ => hide TimersAreStored;
  }

  /** After the first half of a shutdown no timer runs. */
  lemma ShutdownStopsTimers(m: Manager)
    requires TimersAreStored(m.timers, m.running, m.nextTimer) && !m.crashed
    ensures Do(m, ShutdownCancels).running == map[]
  {
    forall t | t in m.running
      ensures t in set id | id in m.timers :: m.timers[id]
    {
      assert m.running[t] in m.timers;
    }
  }

  // ---------------------------------------------------------------- no VM is lost

  /** A creator that has started its VM and still answers for it. */
  predicate AnswersFor(creators: map<nat, Creator>, t: nat, id: Id) {
    t in creators && creators[t].id == id && (creators[t].phase == Booted || creators[t].phase == Rejected)
  }

  predicate InFlight(creators: map<nat, Creator>, id: Id) {
    exists t :: t in creators && AnswersFor(creators, t, id)
  }

  /** Every started VM is in flight, registered, has had its stop called, or was forgotten by a shutdown. */
  ghost predicate Accounted(started: set<Id>, vms: set<Id>, stopCalled: set<Id>, forgotten: set<Id>,
                            creators: map<nat, Creator>)
  {
    forall id :: id in started ==> id in vms || id in stopCalled || id in forgotten || InFlight(creators, id)
  }

  /** One creator moves on; its own VM must be accounted for again, the others still are. */
  lemma CreatorMoves(m: Manager, m': Manager, t: nat, own: Id)
    requires Accounted(m.started, m.vms, m.stopCalled, m.forgotten, m.creators)
    requires m.vms <= m'.vms && m.stopCalled <= m'.stopCalled && m'.started <= m.started + {own}
    requires m'.forgotten == m.forgotten
    requires t in m.creators ==> m.creators[t].id == own
    requires forall u :: u in m.creators && u != t ==> u in m'.creators && m'.creators[u] == m.creators[u]
    requires own in m'.started && (own !in m.started || AnswersFor(m.creators, t, own)) ==>
               own in m'.vms || own in m'.stopCalled || AnswersFor(m'.creators, t, own)
    ensures Accounted(m'.started, m'.vms, m'.stopCalled, m'.forgotten, m'.creators)
  {
    forall id | id in m'.started
      ensures id in m'.vms || id in m'.stopCalled || id in m'.forgotten || InFlight(m'.creators, id)
    {
      if id in m.started && InFlight(m.creators, id) {
        var u :| u in m.creators && AnswersFor(m.creators, u, id);
        if u != t {
          assert AnswersFor(m'.creators, u, id);
        }
      }
    }
  }

  lemma RemoveAccounts(m: Manager, id: Id, stopOk: bool)
    requires Accounted(m.started, m.vms, m.stopCalled, m.forgotten, m.creators)
    ensures var m' := Remove(m, id, stopOk); Accounted(m'.started, m'.vms, m'.stopCalled, m'.forgotten, m'.creators)
  {
    hide Remove, InFlight;
  }

  /** The steps of a create after its first check. */
  predicate OfCreator(step: Step, t: nat) {
    match step
    case StartVm(u, _) => u == t
    case Register(u) => u == t
    case StopRejected(u) => u == t
    case ApplyTtl(u, _) => u == t
    case Finish(u) => u == t
    case _ => false
  }

  lemma CreatorStepOwn(m: Manager, step: Step, t: nat)
    requires OfCreator(step, t) && t in m.creators
    ensures var m', own := Do(m, step), m.creators[t].id;
            && (own in m'.started && (own !in m.started || AnswersFor(m.creators, t, own)) ==>
                  own in m'.vms || own in m'.stopCalled || AnswersFor(m'.creators, t, own))
            && (t in m'.creators && !Unregistered(m'.creators[t].phase) && Unregistered(m.creators[t].phase) ==>
                own in m'.vms)
  {
    hide SetTtl, Full;
  }

  lemma StepAccounts(m: Manager, step: Step)
    requires Accounted(m.started, m.vms, m.stopCalled, m.forgotten, m.creators)
    ensures var m' := Do(m, step); Accounted(m'.started, m'.vms, m'.stopCalled, m'.forgotten, m'.creators)
  {
    hide CancelTtl, SetTtl, Remove, Full, InFlight, Accounted;
    match step
    case BeginCreate(t, id, hasTtl, paramsOk) => if t !in m.creators { CreatorMoves(m, Do(m, step), t, id); }
    case RemoveVM(id, stopOk) => RemoveAccounts(m, id, stopOk);
    case TimerFires(timer) =>
    case RunCallback(id, stopOk) => RemoveAccounts(m.(callbacks := m.callbacks - multiset{id}), id, stopOk);
    case ShutdownCancels =>
    case ShutdownClears => ClearAccounts(m);
    case _ =>
      var t := step.thread;
      if t in m.creators {
        assert OwnStep(m, Do(m, step), t);
        CreatorStepOwn(m, step, t);
        CreatorMoves(m, Do(m, step), t, m.creators[t].id);
      }
  }

  lemma ClearAccounts(m: Manager)
    requires Accounted(m.started, m.vms, m.stopCalled, m.forgotten, m.creators)
    ensures Accounted(m.started, {}, m.stopCalled, m.forgotten + m.vms, m.creators)
  {
    hide InFlight;
  }

  // ---------------------------------------------------------------- what a shutdown forgets

  /** What was forgotten was started, and is nobody's to register or to stop any more. */
  ghost predicate ForgottenForGood(creators: map<nat, Creator>, used: set<Id>, started: set<Id>, vms: set<Id>,
          forgotten: set<Id>) {
    && vms <= started <= used && forgotten <= started && forgotten !! vms
    && (forall t :: t in creators && creators[t].phase != Preparing ==> creators[t].id in started)
    && (forall t :: t in creators && Unregistered(creators[t].phase) ==> creators[t].id !in forgotten)
  }

  /** What a create does to its own id. */
  ghost predicate OwnPhase(m: Manager, m': Manager, t: nat)
    requires t in m.creators
  {
    var own, phase := m.creators[t].id, m.creators[t].phase;
    && (own in m'.vms ==> own in m.vms || phase == Booted)
    && (t in m'.creators && m'.creators[t].phase != Preparing ==> phase != Preparing || own in m'.started)
    && (t in m'.creators && Unregistered(m'.creators[t].phase) ==> Unregistered(phase))
  }

  lemma CreatorStepPhase(m: Manager, step: Step, t: nat)
    requires OfCreator(step, t) && t in m.creators
    ensures OwnPhase(m, Do(m, step), t)
  {
    hide SetTtl, Full;
  }

  lemma CreatorKeepsForgotten(m: Manager, m': Manager, t: nat)
    requires IdsAreOwned(m.creators, m.used, m.vms, m.removed) && t in m.creators
    requires ForgottenForGood(m.creators, m.used, m.started, m.vms, m.forgotten)
    requires OwnStep(m, m', t) && OwnPhase(m, m', t)
    ensures ForgottenForGood(m'.creators, m'.used, m'.started, m'.vms, m'.forgotten)
  {
  }

  lemma SpawnKeepsForgotten(m: Manager, t: nat, id: Id, hasTtl: bool)
    requires ForgottenForGood(m.creators, m.used, m.started, m.vms, m.forgotten) && id !in m.used && t !in m.creators
    ensures ForgottenForGood(m.creators, m.used + {id}, m.started, m.vms, m.forgotten)
    ensures ForgottenForGood(m.creators[t := Creator(id, Preparing, hasTtl)], m.used + {id}, m.started, m.vms,
              m.forgotten)
  {
  }

  lemma FewerKeepForgotten(m: Manager, vms: set<Id>)
    requires ForgottenForGood(m.creators, m.used, m.started, m.vms, m.forgotten) && vms <= m.vms
    ensures ForgottenForGood(m.creators, m.used, m.started, vms, m.forgotten)
  {
  }

  lemma ClearKeepsForgotten(m: Manager)
    requires IdsAreOwned(m.creators, m.used, m.vms, m.removed)
    requires ForgottenForGood(m.creators, m.used, m.started, m.vms, m.forgotten)
    ensures ForgottenForGood(m.creators, m.used, m.started, {}, m.forgotten + m.vms)
  {
  }

  lemma StepKeepsForgotten(m: Manager, step: Step)
    requires IdsAreOwned(m.creators, m.used, m.vms, m.removed) && DrawsFreshId(m, step)
    requires ForgottenForGood(m.creators, m.used, m.started, m.vms, m.forgotten)
    ensures var m' := Do(m, step); ForgottenForGood(m'.creators, m'.used, m'.started, m'.vms, m'.forgotten)
  {
    hide CancelTtl, SetTtl, Remove, Full, ForgottenForGood, IdsAreOwned, OwnPhase;
    match step
    case BeginCreate(t, id, hasTtl, paramsOk) => if t !in m.creators { SpawnKeepsForgotten(m, t, id, hasTtl); }
    case RemoveVM(id, stopOk) => FewerKeepForgotten(m, m.vms - {id});
    case TimerFires(timer) =>
    case RunCallback(id, stopOk) => FewerKeepForgotten(m, m.vms - {id});
    case ShutdownCancels =>
    case ShutdownClears => ClearKeepsForgotten(m);
    case _ =>
      var t := step.thread;
      if t in m.creators {
        assert OwnStep(m, Do(m, step), t);
        CreatorStepPhase(m, step, t);
        CreatorKeepsForgotten(m, Do(m, step), t);
      }
  }

  // ---------------------------------------------------------------- the final transition

  /** A creator past registration finds its VM, or the VM has been removed or forgotten. */
  ghost predicate RegisteredOrGone(creators: map<nat, Creator>, vms: set<Id>, removed: multiset<Id>,
          forgotten: set<Id>) {
    forall t :: t in creators && !Unregistered(creators[t].phase) ==>
      creators[t].id in vms || removed[creators[t].id] > 0 || creators[t].id in forgotten
  }

  lemma CreatorStepKeepsRegistered(m: Manager, step: Step, t: nat)
    requires RegisteredOrGone(m.creators, m.vms, m.removed, m.forgotten) && OfCreator(step, t) && t in m.creators
    ensures var m' := Do(m, step); RegisteredOrGone(m'.creators, m'.vms, m'.removed, m'.forgotten)
  {
    assert OwnStep(m, Do(m, step), t);
    CreatorStepOwn(m, step, t);
    hide Do;
  }

  lemma RemoveKeepsRegistered(m: Manager, id: Id, stopOk: bool)
    requires RegisteredOrGone(m.creators, m.vms, m.removed, m.forgotten)
    ensures var m' := Remove(m, id, stopOk); RegisteredOrGone(m'.creators, m'.vms, m'.removed, m'.forgotten)
  {
    hide Remove;
  }

  lemma StepKeepsRegistered(m: Manager, step: Step)
    requires RegisteredOrGone(m.creators, m.vms, m.removed, m.forgotten)
    ensures var m' := Do(m, step); RegisteredOrGone(m'.creators, m'.vms, m'.removed, m'.forgotten)
  {
    hide CancelTtl, SetTtl, Remove, Full;
    match step
    case BeginCreate(t, id, hasTtl, paramsOk) =>
    case RemoveVM(id, stopOk) => RemoveKeepsRegistered(m, id, stopOk);
    case TimerFires(timer) =>
    case RunCallback(id, stopOk) => RemoveKeepsRegistered(m.(callbacks := m.callbacks - multiset{id}), id, stopOk);
    case ShutdownCancels =>
    case ShutdownClears =>
    case _ => if step.thread in m.creators { CreatorStepKeepsRegistered(m, step, step.thread); }
  }

  // ---------------------------------------------------------------- every run

  /** The run draws fresh ids only. */
  ghost predicate FreshIds(m: Manager, steps: seq<Step>)
    decreases |steps|
  {
    steps == [] || (DrawsFreshId(m, steps[0]) && FreshIds(Do(m, steps[0]), steps[1..]))
  }

  ghost predicate Inv(m: Manager) {
    && IdsAreOwned(m.creators, m.used, m.vms, m.removed)
    && ForgottenForGood(m.creators, m.used, m.started, m.vms, m.forgotten)
    && RegisteredOrGone(m.creators, m.vms, m.removed, m.forgotten)
  }

  lemma StepKeepsInv(m: Manager, step: Step)
    requires Inv(m) && DrawsFreshId(m, step)
    ensures Inv(Do(m, step))
  {
    hide Do, IdsAreOwned, ForgottenForGood, RegisteredOrGone;
    StepKeepsIds(m, step);
    StepKeepsForgotten(m, step);
    StepKeepsRegistered(m, step);
  }

  lemma {:induction false} RunKeepsInv(m: Manager, steps: seq<Step>)
    requires Inv(m) && FreshIds(m, steps)
    ensures Inv(Run(m, steps))
    decreases |steps|
  {
    hide Do, Inv, DrawsFreshId;
    if steps != [] {
      StepKeepsInv(m, steps[0]);
      RunKeepsInv(Do(m, steps[0]), steps[1..]);
    }
  }

  lemma {:induction false} RunAccounts(m: Manager, steps: seq<Step>)
    requires Accounted(m.started, m.vms, m.stopCalled, m.forgotten, m.creators)
    ensures var m' := Run(m, steps); Accounted(m'.started, m'.vms, m'.stopCalled, m'.forgotten, m'.creators)
    decreases |steps|
  {
    hide Do, Accounted;
    if steps != [] {
      StepAccounts(m, steps[0]);
      RunAccounts(Do(m, steps[0]), steps[1..]);
    }
  }

  lemma {:induction false} RunKeepsTimers(m: Manager, steps: seq<Step>)
    requires TimersAreStored(m.timers, m.running, m.nextTimer)
    ensures var m' := Run(m, steps); TimersAreStored(m'.timers, m'.running, m'.nextTimer)
    decreases |steps|
  {
    hide Do, TimersAreStored;
    if steps != [] {
      StepKeepsTimers(m, steps[0]);
      RunKeepsTimers(Do(m, steps[0]), steps[1..]);
    }
  }

  lemma ForgetsOnlyInShutdown(m: Manager, step: Step)
    ensures Do(m, step).forgotten == if step == ShutdownClears && !m.crashed then m.forgotten + m.vms else m.forgotten
  {
    hide CancelTtl, SetTtl, Remove, Full;
  }

  lemma {:induction false} RunForgetsNothing(m: Manager, steps: seq<Step>)
    requires ShutdownClears !in steps
    ensures Run(m, steps).forgotten == m.forgotten
    decreases |steps|
  {
    hide Do;
    if steps != [] {
      ForgetsOnlyInShutdown(m, steps[0]);
      RunForgetsNothing(Do(m, steps[0]), steps[1..]);
    }
  }

  /** Started, and nobody's: no create answers for it, it is not registered, its stop was never called. */
  predicate Lost(m: Manager, id: Id) {
    id in m.started && id !in m.vms && id !in m.stopCalled && !InFlight(m.creators, id)
  }

  /** Without a shutdown no started id is ever lost, even when ids repeat. */
  lemma NoIdIsLost(limit: int, ids: set<Id>, steps: seq<Step>)
    requires ShutdownClears !in steps
    ensures forall id :: !Lost(Run(Restored(limit, ids), steps), id)
  {
    hide Run, InFlight;
    RunAccounts(Restored(limit, ids), steps);
    RunForgetsNothing(Restored(limit, ids), steps);
  }

  /** A registration drops a VM exactly when it finds one under its id. */
  lemma ReplacesExactly(m: Manager, step: Step)
    ensures var drops := && !m.crashed && step.Register? && AtPhase(m, step.thread, Booted) && !Full(m.limit, m.vms)
                         && m.creators[step.thread].id in m.vms;
            Do(m, step).replaced == if drops then m.replaced + {m.creators[step.thread].id} else m.replaced
  {
    hide CancelTtl, SetTtl, Remove, Full;
  }

  lemma {:induction false} RunReplacesNothing(m: Manager, steps: seq<Step>)
    requires IdsAreOwned(m.creators, m.used, m.vms, m.removed) && FreshIds(m, steps)
    ensures Run(m, steps).replaced == m.replaced
    decreases |steps|
  {
    hide Do, Full, DrawsFreshId;
    if steps != [] {
      StepKeepsIds(m, steps[0]);
      ReplacesExactly(m, steps[0]);
      RunReplacesNothing(Do(m, steps[0]), steps[1..]);
    }
  }

  /** With fresh ids a VM is known by its id, so no VM is lost: none is dropped for another either. */
  lemma NoVmIsLost(limit: int, ids: set<Id>, steps: seq<Step>)
    requires ShutdownClears !in steps && FreshIds(Restored(limit, ids), steps)
    ensures var m := Run(Restored(limit, ids), steps);
            m.replaced == {} && forall id :: !Lost(m, id)
  {
    hide Run, Lost, FreshIds;
    NoIdIsLost(limit, ids, steps);
    RestoredInv(limit, ids);
    RunReplacesNothing(Restored(limit, ids), steps);
  }

  function CreateTwice(id: Id): seq<Step> {
    CreateSteps(0, id) + CreateSteps(1, id)
  }

  function CreateSteps(t: nat, id: Id): seq<Step> {
    [BeginCreate(t, id, false, true), StartVm(t, true), Register(t)]
  }

  lemma ThreeSteps(m: Manager, t: nat, id: Id)
    ensures Run(m, CreateSteps(t, id)) == Do(Do(Do(m, BeginCreate(t, id, false, true)), StartVm(t, true)), Register(t))
  {
    hide Do;
    var steps := CreateSteps(t, id);
    assert steps[1..] == [StartVm(t, true), Register(t)] && steps[2..] == [Register(t)];
    assert steps[1..][1..] == steps[2..] && steps[2..][1..] == [];
    var m1 := Do(m, steps[0]);
    var m2 := Do(m1, steps[1]);
    assert Run(m2, steps[2..]) == Do(m2, Register(t));
    assert Run(m1, steps[1..]) == Run(m2, steps[2..]);
  }

  lemma {:induction false} RunInTwo(m: Manager, xs: seq<Step>, ys: seq<Step>)
    ensures Run(m, xs + ys) == Run(Run(m, xs), ys)
    decreases |xs|
  {
    hide Do;
    if xs == [] {
      assert xs + ys == ys;
    } else {
      assert (xs + ys)[0] == xs[0] && (xs + ys)[1..] == xs[1..] + ys;
      RunInTwo(Do(m, xs[0]), xs[1..], ys);
    }
  }

  lemma CreateRegisters(m: Manager, t: nat, id: Id)
    requires !m.crashed && t !in m.creators
    ensures var m' := Run(m, CreateSteps(t, id));
            && m'.limit == m.limit && !m'.crashed
            && m'.vms == (if Full(m.limit, m.vms) then m.vms else m.vms + {id})
            && m'.replaced == (if !Full(m.limit, m.vms) && id in m.vms then m.replaced + {id} else m.replaced)
            && m'.creators.Keys <= m.creators.Keys + {t}
  {
    hide Full, Run;
    ThreeSteps(m, t, id);
    if Full(m.limit, m.vms) {
      var m1 := m.(used := m.used + {id});
      assert Do(m, BeginCreate(t, id, false, true)) == m1;
      assert Do(m1, StartVm(t, true)) == m1 && Do(m1, Register(t)) == m1;
    } else {
      var m1 := m.(used := m.used + {id}, creators := m.creators[t := Creator(id, Preparing, false)]);
      assert Do(m, BeginCreate(t, id, false, true)) == m1;
      var m2 := Goto(m1.(started := m.started + {id}), t, Booted);
      assert Do(m1, StartVm(t, true)) == m2;
    }
  }

  /** Two creates that draw the same id drop a VM exactly when the limit lets both register. */
  lemma RepeatedIdReplaces(limit: int, id: Id)
    ensures id in Run(Restored(limit, {}), CreateTwice(id)).replaced <==> limit != 1
  {
    hide Run;
    var m := Restored(limit, {});
    CreateRegisters(m, 0, id);
    var m' := Run(m, CreateSteps(0, id));
    RunInTwo(m, CreateSteps(0, id), CreateSteps(1, id));
    CreateRegisters(m', 1, id);
    assert {} + {id} == {id} && |{id}| == 1;
  }

  /** In every run, the lost VMs are those that a shutdown forgot and whose stop had not been called. */
  lemma LostExactly(limit: int, ids: set<Id>, steps: seq<Step>, id: Id)
    requires FreshIds(Restored(limit, ids), steps)
    ensures var m := Run(Restored(limit, ids), steps);
            Lost(m, id) <==> id in m.forgotten && id !in m.stopCalled
  {
    hide Run, IdsAreOwned, RegisteredOrGone;
    RestoredInv(limit, ids);
    RunKeepsInv(Restored(limit, ids), steps);
    RunAccounts(Restored(limit, ids), steps);
  }

  /** At any point of any run, a shutdown loses exactly the registered VMs whose stop was never called. */
  lemma ShutdownLosesExactly(limit: int, ids: set<Id>, steps: seq<Step>, id: Id)
    requires FreshIds(Restored(limit, ids), steps) && !Run(Restored(limit, ids), steps).crashed
    ensures var m := Run(Restored(limit, ids), steps);
            Lost(Do(m, ShutdownClears), id) && !Lost(m, id) <==> id in m.vms && id !in m.stopCalled
  {
    hide Run, RegisteredOrGone;
    RestoredInv(limit, ids);
    RunKeepsInv(Restored(limit, ids), steps);
  }

  lemma RestoredInv(limit: int, ids: set<Id>)
    ensures Inv(Restored(limit, ids))
  {
  }

  function CreateThenShutdown(id: Id): seq<Step> {
    [BeginCreate(0, id, false, true), StartVm(0, true), Register(0), ShutdownClears]
  }

  /** It does happen, under any limit: create a VM, register it, shut down. */
  lemma ShutdownLosesAVm(limit: int, id: Id)
    ensures FreshIds(Restored(limit, {}), CreateThenShutdown(id))
    ensures Lost(Run(Restored(limit, {}), CreateThenShutdown(id)), id)
  {
    hide FreshIds, Run;
    var m0 := Restored(limit, {});
    var m1 := Do(m0, BeginCreate(0, id, false, true));
    assert m1.creators == map[0 := Creator(id, Preparing, false)] && m1.vms == {} && m1.stopCalled == {};
    var m2 := Do(m1, StartVm(0, true));
    assert m2.creators == map[0 := Creator(id, Booted, false)] && id in m2.started;
    assert m2.vms == {} && m2.stopCalled == {};
    var m3 := Do(m2, Register(0));
    assert m3.creators == map[0 := Creator(id, Registered, false)] && m3.vms == {id} && m3.stopCalled == {};
    var m4 := Do(m3, ShutdownClears);
    assert Lost(m4, id);
    FourSteps(m0, CreateThenShutdown(id));
  }

  lemma FourSteps(m: Manager, steps: seq<Step>)
    requires |steps| == 4
    ensures Run(m, steps) == Do(Do(Do(Do(m, steps[0]), steps[1]), steps[2]), steps[3])
    ensures (steps[0].BeginCreate? && steps[0].id !in m.used && !steps[1].BeginCreate? && !steps[2].BeginCreate?
             && !steps[3].BeginCreate?) ==> FreshIds(m, steps)
  {
    hide Do;
    var m1 := Do(m, steps[0]);
    var m2 := Do(m1, steps[1]);
    var m3 := Do(m2, steps[2]);
    assert steps[1..][0] == steps[1] && steps[2..][0] == steps[2] && steps[3..][0] == steps[3];
    assert steps[1..][1..] == steps[2..] && steps[2..][1..] == steps[3..] && steps[3..][1..] == [];
    assert Run(m3, steps[3..]) == Do(m3, steps[3]);
    assert Run(m2, steps[2..]) == Run(m3, steps[3..]);
    assert Run(m1, steps[1..]) == Run(m2, steps[2..]);
    assert !steps[3].BeginCreate? ==> FreshIds(m3, steps[3..]);
    assert !steps[3].BeginCreate? && !steps[2].BeginCreate? ==> FreshIds(m2, steps[2..]);
  }

  /** For each VM at most one removal, asked for or by expiry, ever succeeds. */
  lemma RemovedAtMostOnce(limit: int, ids: set<Id>, steps: seq<Step>)
    requires FreshIds(Restored(limit, ids), steps)
    ensures forall id :: Run(Restored(limit, ids), steps).removed[id] <= 1
  {
    hide Run;
    RestoredInv(limit, ids);
    RunKeepsInv(Restored(limit, ids), steps);
  }

  /** In every run a running timer is the stored one, so no VM has two. */
  lemma RunningTimersAreStored(limit: int, ids: set<Id>, steps: seq<Step>)
    ensures var m := Run(Restored(limit, ids), steps);
            && (forall t :: t in m.running ==> m.running[t] in m.timers && m.timers[m.running[t]] == t)
            && (forall t, u :: t in m.running && u in m.running && m.running[t] == m.running[u] ==> t == u)
  {
    hide Run;
    RunKeepsTimers(Restored(limit, ids), steps);
  }

  /**
   The last step of a create dereferences the map entry again. It crashes exactly when, since the
   registration, a removal of that VM has succeeded, asked for or by expiry, or a shutdown has
   emptied the map.
   */
  lemma CreateCrashesExactly(limit: int, ids: set<Id>, steps: seq<Step>, t: nat)
    requires FreshIds(Restored(limit, ids), steps)
    requires AtPhase(Run(Restored(limit, ids), steps), t, Finishing) && !Run(Restored(limit, ids), steps).crashed
    ensures var m := Run(Restored(limit, ids), steps);
            Do(m, Finish(t)).crashed <==> m.removed[m.creators[t].id] > 0 || m.creators[t].id in m.forgotten
  {
    hide Run;
    RestoredInv(limit, ids);
    RunKeepsInv(Restored(limit, ids), steps);
  }

  lemma ArmedTimer(m: Manager, t: nat)
    requires AtPhase(m, t, Registered) && m.creators[t].hasTtl && !m.crashed
    ensures var m', id := Do(m, ApplyTtl(t, true)), m.creators[t].id;
            && AtPhase(m', t, Finishing) && m'.creators[t].id == id && m'.vms == m.vms && !m'.crashed
            && m.nextTimer in m'.running && m'.running[m.nextTimer] == id
  {
    hide CancelTtl;
  }

  lemma ExpiryRemoves(m: Manager, timer: nat, id: Id)
    requires timer in m.running && m.running[timer] == id && !m.crashed
    ensures var m' := Do(Do(m, TimerFires(timer)), RunCallback(id, true));
            m'.creators == m.creators && id !in m'.vms && !m'.crashed
  {
    var m1 := Do(m, TimerFires(timer));
    assert id in m1.callbacks && m1.creators == m.creators && !m1.crashed;
    hide Remove;
  }

  /** It does happen, from any state: a TTL that expires before its create has returned. */
  lemma ExpiryBeforeReturnCrashes(m: Manager, t: nat)
    requires AtPhase(m, t, Registered) && m.creators[t].hasTtl && !m.crashed
    ensures Do(Do(Do(Do(m, ApplyTtl(t, true)), TimerFires(m.nextTimer)), RunCallback(m.creators[t].id, true)),
              Finish(t)).crashed
  {
    ArmedTimer(m, t);
    var m1, id := Do(m, ApplyTtl(t, true)), m.creators[t].id;
    ExpiryRemoves(m1, m.nextTimer, id);
    var m3 := Do(Do(m1, TimerFires(m.nextTimer)), RunCallback(id, true));
    MissingVmCrashes(m3, t);
    hide Do;
  }

  lemma MissingVmCrashes(m: Manager, t: nat)
    requires AtPhase(m, t, Finishing) && m.creators[t].id !in m.vms && !m.crashed
    ensures Do(m, Finish(t)).crashed
  {
  }
}
