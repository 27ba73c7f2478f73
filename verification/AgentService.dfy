/**
 The agent and its state machine as the objects of agent/service.go and agent/statemachine/state.go.
 Every handler, action and handled event is proved to take its step of `AgentMachine`, so an object is
 always where the run of the steps it has taken leads, and what holds of every run holds of it.
 */
module AgentService {
  import opened Results
  import opened AgentMachine
  import opened AgentSafety

  class StateMachine {
    var currentState: State
    var transitions: Table
    var loop: Loop

    constructor (initialState: State)
      ensures currentState == initialState && transitions == map[] && loop == Waiting
    {
      currentState, transitions, loop := initialState, map[], Waiting;
    }

    method AddTransition(t: Transition)
      modifies this
      ensures transitions == Add(old(transitions), t)
      ensures currentState == old(currentState) && loop == old(loop)
    {
      if t.from !in transitions {
        transitions := transitions[t.from := map[]];
      }
      transitions := transitions[t.from := transitions[t.from][t.event := t.to]];
    }

    method AddTransitions(ts: seq<Transition>)
      modifies this
      ensures transitions == AddAll(old(transitions), ts)
      ensures currentState == old(currentState) && loop == old(loop)
    {
      hide Add;
      var k := 0;
      assert ts[0..] == ts;
      while k < |ts|
        invariant 0 <= k <= |ts|
        invariant AddAll(transitions, ts[k..]) == AddAll(old(transitions), ts)
        invariant currentState == old(currentState) && loop == old(loop)
      {
        AddAllUnfold(transitions, ts[k..], ts[k], ts[k + 1..]);
        AddTransition(ts[k]);
        k := k + 1;
      }
      assert ts[k..] == [];
    }

    /** A select with a default case: only a waiting loop can receive, and it need not be scheduled. */
    method SendEvent(e: Event, delivered: bool)
      modifies this
      ensures currentState == old(currentState) && transitions == old(transitions)
      ensures loop == if delivered && old(loop) == Waiting then Handling(e) else old(loop)
    {
      if delivered && loop == Waiting {
        loop := Handling(e);
      }
    }

    /** Moves to the next state; the result says which, or that there is no transition. */
    method HandleEvent(e: Event) returns (entered: Option<State>)
      modifies this
      ensures transitions == old(transitions) && loop == old(loop)
      ensures entered == Target(transitions, old(currentState), e)
      ensures currentState == if entered.Some? then entered.value else old(currentState)
    {
      if currentState in transitions && e in transitions[currentState] {
        currentState := transitions[currentState][e];
        return Some(currentState);
      }
      return None;
    }

    /** What handling its event does to the loop: it waits again, or returns the error. */
    method LoopGoesOn(goesOn: bool)
      modifies this
      ensures currentState == old(currentState) && transitions == old(transitions)
      ensures loop == if goesOn then Waiting else Dead
    {
      loop := if goesOn then Waiting else Dead;
    }

    /** Back to the initial state with a new loop; the table stays. */
    method Reset(initialState: State)
      modifies this
      ensures currentState == initialState && loop == Waiting && transitions == old(transitions)
    {
      currentState, loop := initialState, Waiting;
    }
  }

  /** What the proofs remember beside the fields: the manifest as it arrived, and what became of it. */
  datatype History = History(received: Manifest, configured: bool, stored: seq<(Dataset, Content)>,
                             stale: multiset<Event>, resultOf: nat, epoch: nat, handled: nat)

  ghost function Moved(a: Agent, e: Event): Agent {
    match Target(a.table, a.state, e)
    case Some(s) => Enter(a, s)
    case None => a
  }

  lemma HeldMoves(a: Agent)
    requires a.loop.Handling?
    ensures var next := Target(a.table, a.state, a.loop.event);
            Handle(a) == Moved(a, a.loop.event).(loop := if next.Some? then Waiting else Dead)
  {
    hide Target, ActionsOn;
  }

  lemma OutlivedMoves(a: Agent, e: Event)
    requires e in a.stale
    ensures HandleStale(a, e) == Moved(a.(stale := a.stale - multiset{e}), e)
  {
    hide Target, ActionsOn;
  }

  class AgentService {
    const H: Content -> Digest
    const sm: StateMachine
    var computation: Manifest              // its datasets are those still expected
    var algo: Option<Content>
    var settings: Settings
    var runError: bool
    var result: Option<Content>
    var resultsConsumed: bool
    ghost var actions: multiset<Action>    // started goroutines that have not run yet
    ghost var history: History
    ghost var trace: seq<Step>             // the steps taken so far

    /** The datasets that were taken out of the computation are the only difference to the manifest. */
    ghost predicate Consistent()
      reads this
    {
      computation == history.received.(datasets := computation.datasets)
    }

    ghost predicate Valid()
      reads this, sm
    {
      Consistent() && Snapshot() == Run(H, Fresh(), trace)
    }

    ghost function Snapshot(): Agent
      reads this, sm
    {
      Agent(sm.currentState, sm.transitions, sm.loop, history.stale, actions, history.received, history.configured,
            computation.datasets, algo, settings, history.stored, runError, result, history.resultOf, resultsConsumed,
            history.epoch, history.handled)
    }

    /** The object has taken `step` and no other, and is where the run of all its steps leads. */
    twostate predicate Took(new step: Step)
      reads this, sm
    {
      Valid() && trace == old(trace) + [step] && Snapshot() == Do(H, old(Snapshot()), step)
    }

    constructor (H: Content -> Digest, delivered: bool)
      ensures Valid() && fresh(sm) && this.H == H && trace == [SendStart(delivered)]
    {
      this.H := H;
      var machine := new StateMachine(Idle);
      sm := machine;
      computation, algo, settings, runError := NO_MANIFEST, None, NO_SETTINGS, false;
      result, resultsConsumed, actions := None, false, multiset{};
      history := History(NO_MANIFEST, false, [], multiset{}, 0, 0, 0);
      trace := [SendStart(delivered)];
      new;
      hide AddAll, Add, Zeros, Run;
      sm.AddTransitions(INITIAL_TRANSITIONS);
      sm.SendEvent(Start, delivered);
      RunNow(H, Fresh(), SendStart(delivered));
    }

    /** The step that is about to be taken. */
    ghost method Record(step: Step)
      requires Valid()
      modifies this`trace
      ensures trace == old(trace) + [step]
      ensures Run(H, Fresh(), trace) == Do(H, old(Snapshot()), step)
    {
      hide Run, Do, Fresh;
      RunConcat(H, Fresh(), trace, [step]);
      RunNow(H, Run(H, Fresh(), trace), step);
      trace := trace + [step];
    }

    method Notify(e: Event, delivered: bool)
      modifies sm
      ensures Snapshot() == Send(old(Snapshot()), e, delivered)
    {
      sm.SendEvent(e, delivered);
    }

    /** The machine moves, and the action of the state it enters is started. */
    method Move(e: Event) returns (moved: bool)
      modifies this, sm
      ensures computation == old(computation) && trace == old(trace) && history.received == old(history.received)
      ensures moved == Target(old(sm.transitions), old(sm.currentState), e).Some?
      ensures Snapshot() == Moved(old(Snapshot()), e)
    {
      hide Target, ActionsOn;
      var entered := sm.HandleEvent(e);
      moved := entered.Some?;
      if moved {
        actions := actions + ActionsOn(entered.value, history.epoch);
        history := history.(handled := history.handled + 1);
      }
    }

    /** The loop handles the event it received; without a transition it returns. */
    method HandleEvent()
      requires Valid() && sm.loop.Handling?
      modifies this, sm
      ensures Took(HandleHeld)
    {
      hide Run, Fresh, Target, Enter;
      Record(HandleHeld);
      HeldMoves(Snapshot());
      var moved := Move(sm.loop.event);
      sm.LoopGoesOn(moved);
    }

    /** A loop that a stop has replaced handles the event it still holds. */
    method HandleOutlivedEvent(e: Event)
      requires Valid() && e in history.stale
      modifies this, sm
      ensures Took(HandleOutlived(e))
    {
      hide Run, Fresh, Target, Enter, Moved;
      Record(HandleOutlived(e));
      OutlivedMoves(Snapshot(), e);
      history := history.(stale := history.stale - multiset{e});
      var _ := Move(e);
    }

    /** The loop's context is cancelled while it waits. */
    method EndLoop()
      requires Valid() && sm.loop == Waiting
      modifies this, sm
      ensures Took(LoopEnds)
    {
      hide Run, Fresh;
      Record(LoopEnds);
      sm.LoopGoesOn(false);
    }

    /** The manifest and its transitions. */
    method Configure(cmp: Manifest)
      modifies this, sm
      ensures Consistent() && trace == old(trace)
      ensures Snapshot() == old(Snapshot()).(
        manifest := cmp, configured := true, pending := cmp.datasets, stored := [],
        table := AddAll(old(sm.transitions), ManifestTransitions(cmp)))
    {
      hide AddAll, Add;
      computation := cmp;
      history := history.(received := cmp, configured := true, stored := []);
      var transitions: seq<Transition> := [];
      if |cmp.datasets| == 0 {
        transitions := transitions + [Transition(ReceivingAlgorithm, AlgorithmReceived, Running)];
      } else {
        transitions := transitions + [Transition(ReceivingAlgorithm, AlgorithmReceived, ReceivingData)];
        transitions := transitions + [Transition(ReceivingData, DataReceived, Running)];
      }
      assert transitions == ManifestTransitions(cmp);
      sm.AddTransitions(transitions);
    }

    method InitComputation(cmp: Manifest, delivered: bool) returns (reply: Reply)
      requires Valid()
      modifies this, sm
      ensures Took(Init(cmp, delivered))
      ensures reply == AgentMachine.InitComputation(old(Snapshot()), cmp, delivered).1
    {
      hide AddAll, ManifestTransitions, Send, Run, Fresh;
      Record(Init(cmp, delivered));
      if sm.currentState != ReceivingManifest {
        return StateNotReady;
      }
      Configure(cmp);
      Notify(ManifestReceived, delivered);
      return Done;
    }

    method StopComputation(cleaned: bool, delivered: bool) returns (reply: Reply)
      requires Valid()
      modifies this, sm
      ensures Took(Stop(cleaned, delivered))
      ensures reply == AgentMachine.StopComputation(old(Snapshot()), cleaned, delivered).1
    {
      hide Send, Cleared, Run, Fresh;
      Record(Stop(cleaned, delivered));
      if !cleaned {
        return FileError;
      }
      Clear();
      Notify(Start, delivered);
      return Done;
    }

    method Clear()
      modifies this, sm
      ensures Consistent() && trace == old(trace) && Snapshot() == Cleared(old(Snapshot()))
    {
      hide Zeros;
      ResetMachine();
      Forget();
    }

    method ResetMachine()
      modifies this, sm
      ensures computation == old(computation) && trace == old(trace) && history.received == NO_MANIFEST
      ensures Snapshot() == old(Snapshot()).(
        state := Idle, loop := Waiting, manifest := NO_MANIFEST, configured := false, stored := [],
        stale := if old(sm.loop).Handling? then old(history.stale) + multiset{old(sm.loop).event}
            else old(history.stale),
        epoch := old(history.epoch) + 1, handled := 0)
    {
      hide Zeros;
      history := History(NO_MANIFEST, false, [],
                         if sm.loop.Handling? then history.stale + multiset{sm.loop.event} else history.stale,
                         history.resultOf, history.epoch + 1, 0);
      sm.Reset(Idle);
    }

    method Forget()
      modifies this
      ensures computation == NO_MANIFEST && trace == old(trace) && history == old(history)
      ensures Snapshot() == old(Snapshot()).(
        pending := [], algo := None, settings := NO_SETTINGS, runError := false, result := None,
        resultsConsumed := false)
    {
      hide Zeros;
      computation, algo, settings := NO_MANIFEST, None, NO_SETTINGS;
      result, runError, resultsConsumed := None, false, false;
    }

    method Algo(upload: Upload, w: World) returns (reply: Reply)
      requires Valid()
      modifies this, sm
      ensures Took(Step.Algo(upload, w))
      ensures reply == AlgoRpc(H, old(Snapshot()), upload, w).1
    {
      hide Run, Fresh, Send;
      Record(Step.Algo(upload, w));
      if sm.currentState != ReceivingAlgorithm {
        return StateNotReady;
      }
      if algo.Some? {
        return AllManifestItemsReceived;
      }
      var data := upload.content;
      if computation.algoHasSource && computation.kbs {
        if w.download.None? {
          return DownloadFailed;
        }
        data := w.download.value;
        settings := settings.(requirements := w.requirements);
      }
      if H(data) != computation.algoHash {
        return HashMismatch;
      }
      if !w.filesOk {
        return FileError;
      }
      settings := Settings(upload.settings.requirements, KindOf(upload.settings.kind), upload.settings.args);
      algo := Some(data);
      if !w.mkdirOk {
        return FileError;
      }
      Notify(AlgorithmReceived, w.delivered);
      return Done;
    }

    /** The first dataset with a remote source, or the number of datasets. */
    method FindRemote() returns (r: nat)
      requires Consistent()
      ensures r == FirstRemote(computation.datasets, history.received.kbs)
    {
      var ds := computation.datasets;
      r := 0;
      while r < |ds|
        invariant 0 <= r <= |ds|
        invariant forall i :: 0 <= i < r ==> !IsRemote(ds[i], computation.kbs)
      {
        if ds[r].hasSource && computation.kbs {
          break;
        }
        r := r + 1;
      }
    }

    method FindHash(h: Digest) returns (k: nat)
      ensures k == FirstWithHash(computation.datasets, h)
    {
      var ds := computation.datasets;
      k := 0;
      while k < |ds|
        invariant 0 <= k <= |ds|
        invariant forall i :: 0 <= i < k ==> ds[i].hash != h
      {
        if ds[k].hash == h {
          break;
        }
        k := k + 1;
      }
    }

    method Data(upload: Content, filename: string, w: World) returns (reply: Reply)
      requires Valid()
      modifies this, sm
      ensures Took(Step.Data(upload, filename, w))
      ensures reply == DataRpc(H, old(Snapshot()), upload, filename, w).1
    {
      hide FirstRemote, FirstWithHash, Send, Stored, Run, Fresh;
      Record(Step.Data(upload, filename, w));
      if sm.currentState != ReceivingData {
        return StateNotReady;
      }
      if |computation.datasets| == 0 {
        return AllManifestItemsReceived;
      }
      var data, name := upload, filename;
      var r := FindRemote();
      if r < |computation.datasets| {
        if w.download.None? {
          return DownloadFailed;
        }
        data, name := w.download.value, computation.datasets[r].filename;
      }
      var k := FindHash(H(data));
      if k == |computation.datasets| {
        return UndeclaredDataset;
      }
      var d := computation.datasets[k];
      if d.filename != "" && d.filename != name {
        return FileNameMismatch;
      }
      if !w.filesOk {
        return FileError;
      }
      Store(k, data);
      if |computation.datasets| == 0 {
        Notify(DataReceived, w.delivered);
      }
      return Done;
    }

    /** slices.Delete on the dataset list. */
    method Store(k: nat, data: Content)
      requires Consistent() && k < |computation.datasets|
      modifies this
      ensures Consistent() && history.received == old(history.received) && trace == old(trace)
      ensures Snapshot() == Stored(old(Snapshot()), k, data)
    {
      history := history.(stored := history.stored + [(computation.datasets[k], data)]);
      computation := computation.(datasets := computation.datasets[..k] + computation.datasets[k + 1..]);
    }

    method Result(index: Option<int>, delivered: bool) returns (reply: Reply)
      requires Valid()
      modifies this, sm
      ensures Took(Step.Result(index, delivered))
      ensures reply == ResultRpc(old(Snapshot()), index, delivered).1
    {
      hide Run, Fresh, Send;
      Record(Step.Result(index, delivered));
      var state := sm.currentState;
      if state != ConsumingResults && state != Complete && state != Failed {
        return ResultsNotReady;
      }
      if index.None? || index.value < 0 || index.value >= computation.consumers {
        return UndeclaredConsumer;
      }
      if !resultsConsumed && state == ConsumingResults {
        resultsConsumed := true;
        Notify(ResultsConsumed, delivered);
      }
      return Results(result, runError);
    }

    method Abort(delivered: bool)
      modifies this, sm
      ensures computation == old(computation) && history.received == old(history.received) && trace == old(trace)
      ensures Snapshot() == Fail(old(Snapshot()), delivered)
    {
      runError := true;
      Notify(RunFailed, delivered);
    }

    /** The started action begins to run. */
    ghost method Begin(act: Action)
      requires act in actions
      modifies this
      ensures computation == old(computation) && history == old(history) && trace == old(trace)
      ensures Snapshot() == AgentMachine.Took(old(Snapshot()), act)
    {
      actions := actions - multiset{act};
    }

    method DownloadAlgorithmIfRemote(w: World)
      requires Valid() && DownloadAlgorithm in actions
      modifies this, sm
      ensures Took(DoDownloadAlgorithm(w))
    {
      hide Run, Fresh, RunDownloadAlgorithm;
      Record(DoDownloadAlgorithm(w));
      Begin(DownloadAlgorithm);
      FetchAlgorithm(w);
    }

    /** The body of the action, under the lock. */
    method FetchAlgorithm(w: World)
      requires Consistent()
      modifies this, sm
      ensures Consistent() && trace == old(trace)
      ensures Snapshot() == RunDownloadAlgorithm(H, old(Snapshot()), w)
    {
      hide Send, Fail;
      if !(computation.algoHasSource && computation.kbs) {
        return;
      }
      if w.download.None? || H(w.download.value) != computation.algoHash || !w.filesOk {
        Abort(w.delivered);
        return;
      }
      algo := Some(w.download.value);
      settings := settings.(requirements := w.requirements);
      if !w.mkdirOk {
        Abort(w.delivered);
        return;
      }
      settings := settings.(kind := KindOf(computation.algoType), args := computation.algoArgs);
      Notify(AlgorithmReceived, w.delivered);
    }

    /** One pass of the loop: the dataset at `i` is fetched and deleted, left alone, or stops the loop. */
    method FetchOne(i: nat, got: Option<Content>) returns (ok: bool)
      requires Consistent() && i < |computation.datasets|
      modifies this
      ensures Consistent() && history.received == old(history.received) && trace == old(trace)
      ensures var d, kbs := old(computation.datasets[i]), history.received.kbs;
              && ok == (!IsRemote(d, kbs) || Fetched(H, d, got))
              && Snapshot() == if IsRemote(d, kbs) && ok then Stored(old(Snapshot()), i, got.value) else old(Snapshot())
    {
      var d := computation.datasets[i];
      if d.hasSource && computation.kbs {
        if got.None? || H(got.value) != d.hash {
          return false;
        }
        Store(i, got.value);
      }
      return true;
    }

    /**
     The loop over the datasets from the last to the first, deleting each one it stores from the
     list it walks; false when it stopped early.
     */
    method FetchLoop(got: Fetches) returns (ok: bool)
      requires Consistent()
      modifies this
      ensures Consistent() && history.received == old(history.received) && trace == old(trace)
      ensures Fetching(computation.datasets, history.stored, ok) ==
              FetchFrom(H, old(computation.datasets), old(history.stored), history.received.kbs, got,
                        |old(computation.datasets)|)
      ensures Snapshot() == old(Snapshot()).(pending := computation.datasets, stored := history.stored)
    {
      hide Fetched, IsRemote;
      ghost var n, kbs := |computation.datasets|, history.received.kbs;
      var i := |computation.datasets| - 1;
      while i >= 0
        invariant -1 <= i < |computation.datasets|
        invariant Consistent() && history.received == old(history.received) && trace == old(trace)
        invariant FetchFrom(H, computation.datasets, history.stored, kbs, got, i + 1)
                  == FetchFrom(H, old(computation.datasets), old(history.stored), kbs, got, n)
        invariant Snapshot() == old(Snapshot()).(pending := computation.datasets, stored := history.stored)
      {
        ok := FetchOne(i, got(i));
        if !ok {
          return;
        }
        i := i - 1;
      }
      return true;
    }

    /** What the loop comes to: the remote datasets behind the stopping point have moved, and nothing else. */
    method FetchBackwards(got: Fetches) returns (ok: bool)
      requires Consistent()
      modifies this
      ensures Consistent() && history.received == old(history.received) && trace == old(trace)
      ensures var ds, kbs := old(computation.datasets), history.received.kbs;
              var k := Stopped(H, ds, kbs, got, 0);
              && ok == (k == 0)
              && computation.datasets == ds[..k] + NotRemote(ds[k..], kbs)
              && history.stored == old(history.stored) + Harvest(ds[k..], kbs, got, k)
      ensures Snapshot() == old(Snapshot()).(pending := computation.datasets, stored := history.stored)
    {
      hide Stopped, Harvest, NotRemote, FetchFrom;
      FetchesAll(H, computation.datasets, history.stored, history.received.kbs, got);
      ok := FetchLoop(got);
    }

    method DownloadDatasetsIfRemote(got: Fetches, delivered: bool)
      requires Valid() && DownloadDatasets in actions
      modifies this, sm
      ensures Took(DoDownloadDatasets(got, delivered))
    {
      hide Run, Fresh, Send, Fail, Stopped, NotRemote, Harvest;
      Record(DoDownloadDatasets(got, delivered));
      Begin(DownloadDatasets);
      var r := FindRemote();
      if r == |computation.datasets| {
        return;
      }
      assert AnyRemote(computation.datasets, history.received.kbs);
      var ok := FetchBackwards(got);
      if !ok {
        Abort(delivered);
        return;
      }
      if |computation.datasets| == 0 {
        Notify(DataReceived, delivered);
      }
    }

    /** The action that was started for the computation `of`, the current one or an earlier. */
    method RunComputation(ghost of: nat, outcome: Option<Content>, delivered: bool)
      requires Valid() && Action.RunComputation(of) in actions
      modifies this, sm
      ensures Took(DoRun(of, outcome, delivered))
    {
      hide Run, Fresh, FinishRun;
      Record(DoRun(of, outcome, delivered));
      Begin(Action.RunComputation(of));
      Finish(of, outcome, delivered);
    }

    /** The end of a run, under the lock: an error from any earlier point turns it into a failure. */
    method Finish(ghost of: nat, outcome: Option<Content>, delivered: bool)
      requires Consistent()
      modifies this, sm
      ensures Consistent() && trace == old(trace)
      ensures Snapshot() == FinishRun(old(Snapshot()), of, outcome, delivered)
    {
      hide Send;
      if outcome.Some? {
        result := outcome;
        history := history.(resultOf := of);
      } else {
        runError := true;
      }
      Notify(if runError then RunFailed else RunComplete, delivered);
    }
  }

  /** Whatever has happened to the object, its datasets are the manifest's, and contents match hashes. */
  lemma ObjectConservesDatasets(agent: AgentService)
    requires agent.Valid()
    ensures multiset(agent.computation.datasets) + multiset(Declared(agent.history.stored))
            == multiset(agent.history.received.datasets)
    ensures Matching(agent.H, agent.history.stored)
  {
    hide Run, Fresh, Declared;
    DatasetsAreConserved(agent.H, agent.trace);
  }

  /** An object that runs a computation has its algorithm and all its datasets. */
  lemma ObjectRunsOnlyWhatWasDeclared(agent: AgentService)
    requires agent.Valid() && !Harmed(agent.H, Fresh(), agent.trace, false)
    ensures Started(agent.sm.currentState) ==>
              && agent.algo.Some? && agent.H(agent.algo.value) == agent.computation.algoHash
              && agent.computation.datasets == []
              && multiset(Declared(agent.history.stored)) == multiset(agent.history.received.datasets)
  {
    hide Run, Fresh, Declared, Harmed;
    RunsOnlyWhatWasDeclared(agent.H, agent.trace);
  }

  // ---------------------------------------------------------------- the backwards loop

  datatype Fetching = Fetching(pending: seq<Dataset>, stored: seq<(Dataset, Content)>, ok: bool)

  /** The passes at i - 1, ..., 0 of the loop that deletes from the list it walks. */
  ghost function FetchFrom(H: Content -> Digest, pending: seq<Dataset>, stored: seq<(Dataset, Content)>, kbs: bool,
                           got: Fetches, i: nat): Fetching
    requires i <= |pending|
    decreases i
  {
    if i == 0 then Fetching(pending, stored, true)
    else
      var d := pending[i - 1];
      if !IsRemote(d, kbs) then FetchFrom(H, pending, stored, kbs, got, i - 1)
      else if !Fetched(H, d, got(i - 1)) then Fetching(pending, stored, false)
      else FetchFrom(H, Without(pending, i - 1), stored + [(d, got(i - 1).value)], kbs, got, i - 1)
  }

  /** Deleting while walking backwards leaves the members before the current one in their places. */
  lemma FetchesAll(H: Content -> Digest, ds: seq<Dataset>, stored: seq<(Dataset, Content)>, kbs: bool, got: Fetches)
    ensures var k := Stopped(H, ds, kbs, got, 0);
            FetchFrom(H, ds, stored, kbs, got, |ds|) ==
            Fetching(ds[..k] + NotRemote(ds[k..], kbs), stored + Harvest(ds[k..], kbs, got, k), k == 0)
  {
    hide FetchFrom, Stopped, Harvest, NotRemote;
    assert ds[..|ds|] == ds && ds[|ds|..] == [];
    EmptyPass(H, kbs, got, |ds|);
    assert ds + [] == ds && stored + [] == stored;
    FetchesFrom(H, ds, stored, kbs, got, |ds|);
  }

  lemma {:induction false} FetchesFrom(H: Content -> Digest, ds: seq<Dataset>, stored: seq<(Dataset, Content)>,
                                       kbs: bool, got: Fetches, i: nat)
    requires i <= |ds| && Stopped(H, ds[i..], kbs, got, i) == 0
    ensures var k := Stopped(H, ds, kbs, got, 0);
            FetchFrom(H, ds[..i] + NotRemote(ds[i..], kbs), stored + Harvest(ds[i..], kbs, got, i), kbs, got, i) ==
            Fetching(ds[..k] + NotRemote(ds[k..], kbs), stored + Harvest(ds[k..], kbs, got, k), k == 0)
    decreases i
  {
    hide Stopped, Harvest, NotRemote, IsRemote;
    if i == 0 {
      assert ds[0..] == ds;
    } else {
      var j := i - 1;
      var d, left, more := ds[j], NotRemote(ds[i..], kbs), Harvest(ds[i..], kbs, got, i);
      PassUnfold(H, ds, kbs, got, j);
      DeleteBefore(ds, j, left);
      if IsRemote(d, kbs) && !Fetched(H, d, got(j)) {
        StoppedHere(H, ds, kbs, got, j, 0);
      } else {
        FetchesFrom(H, ds, stored, kbs, got, j);
        FetchesOne(d, ds[..j], left, stored, more, if got(j).Some? then got(j).value else []);
      }
    }
  }

  /** Moving brackets. */
  lemma FetchesOne(d: Dataset, before: seq<Dataset>, left: seq<Dataset>, stored: seq<(Dataset, Content)>,
                   more: seq<(Dataset, Content)>, data: Content)
    ensures before + ([] + left) == before + left
    ensures stored + (more + []) == stored + more
    ensures stored + (more + [(d, data)]) == stored + more + [(d, data)]
  {
  }

  /** Walking backwards, the members before `i` have kept their places. */
  lemma DeleteBefore(ds: seq<Dataset>, i: nat, left: seq<Dataset>)
    requires i < |ds|
    ensures (ds[..i + 1] + left)[i] == ds[i]
    ensures Without(ds[..i + 1] + left, i) == ds[..i] + ([] + left)
    ensures ds[..i + 1] + left == ds[..i] + ([ds[i]] + left)
  {
  }

  lemma EmptyPass(H: Content -> Digest, kbs: bool, got: Fetches, base: nat)
    ensures Stopped(H, [], kbs, got, base) == 0 && Harvest([], kbs, got, base) == [] && NotRemote([], kbs) == []
  {
  }

  /** One pass of the backwards loop, when the dataset at `i` does not stop it. */
  lemma PassUnfold(H: Content -> Digest, ds: seq<Dataset>, kbs: bool, got: Fetches, i: nat)
    requires i < |ds|
    ensures ds[i..] == [ds[i]] + ds[i + 1..]
    ensures NotRemote(ds[i..], kbs) == (if IsRemote(ds[i], kbs) then [] else [ds[i]]) + NotRemote(ds[i + 1..], kbs)
    ensures Harvest(ds[i..], kbs, got, i) ==
            Harvest(ds[i + 1..], kbs, got, i + 1)
            + if IsRemote(ds[i], kbs) && got(i).Some? then [(ds[i], got(i).value)] else []
    ensures Stopped(H, ds[i + 1..], kbs, got, i + 1) == 0 ==>
              (Stopped(H, ds[i..], kbs, got, i) == 0 <==> !IsRemote(ds[i], kbs) || Fetched(H, ds[i], got(i)))
  {
    assert ds[i..][0] == ds[i] && ds[i..][1..] == ds[i + 1..];
  }

  /** The pass stops at `i` when everything after `i` was fetched and the dataset at `i` was not. */
  lemma {:induction false} StoppedHere(H: Content -> Digest, ds: seq<Dataset>, kbs: bool, got: Fetches, i: nat,
          base: nat)
    requires base <= i < |ds| && Stopped(H, ds[i + 1..], kbs, got, i + 1) == 0
    requires IsRemote(ds[i], kbs) && !Fetched(H, ds[i], got(i))
    ensures Stopped(H, ds[base..], kbs, got, base) == i + 1 - base
    ensures base == 0 ==> Stopped(H, ds, kbs, got, 0) == i + 1
    decreases i - base
  {
    assert ds[base..][1..] == ds[base + 1..];
    if base < i {
      StoppedHere(H, ds, kbs, got, i, base + 1);
    }
    assert ds[0..] == ds;
  }
}
