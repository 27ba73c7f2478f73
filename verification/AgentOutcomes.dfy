/** What consumers get, and what an upload can leave behind: two promises that need a condition. */
module AgentOutcomes {
  import opened Results
  import opened AgentMachine
  import opened AgentSafety

  // ---------------------------------------------------------------- results for consumers

  /** The run has ended well. */
  predicate Ended(s: State) {
    s == ConsumingResults || s == Complete
  }

  /**
   A consumer that is let through gets a file: an error would be returned in its place. With `own`,
   the file is the result of the current computation and not of an earlier one's run.
   */
  predicate Delivers(a: Agent, own: bool) {
    a.result.Some? && !a.runError && (own ==> a.resultOf == a.epoch)
  }

  predicate Serves(a: Agent, own: bool) {
    Ended(a.state) ==> Delivers(a, own)
  }

  /** Once the run has ended well, a declared consumer gets a file if and only if the agent delivers. */
  lemma ConsumerGetsFileExactly(a: Agent, index: Option<int>, delivered: bool)
    requires Ended(a.state)
    ensures var reply := ResultRpc(a, index, delivered).1;
            if index.Some? && 0 <= index.value < a.manifest.consumers
            then reply.Results? && (reply.result.Some? && !reply.runError <==> Delivers(a, false))
            else reply == UndeclaredConsumer
  {
  }

  predicate AlgorithmDownloadFails(H: Content -> Digest, a: Agent, w: World) {
    AlgoIsRemote(a) &&
    (w.download.None? || H(w.download.value) != a.manifest.algoHash || !w.filesOk || !w.mkdirOk)
  }

  predicate DatasetDownloadFails(H: Content -> Digest, a: Agent, got: Fetches) {
    AnyRemote(a.pending, a.manifest.kbs) && !AllFetched(H, a.pending, a.manifest.kbs, got, 0)
  }

  /**
   A step that takes the result away from the consumers: after the run has ended well, a download that
   fails or another run that ends without a result, or with a foreign one; before, the handling of
   the event that ends the run while there is nothing to deliver.
   */
  predicate Spoils(H: Content -> Digest, a: Agent, step: Step, own: bool) {
    match step
    case DoDownloadAlgorithm(w) =>
      Ended(a.state) && DownloadAlgorithm in a.actions && AlgorithmDownloadFails(H, a, w)
    case DoDownloadDatasets(got, _) =>
      Ended(a.state) && DownloadDatasets in a.actions && DatasetDownloadFails(H, a, got)
    case DoRun(of, outcome, _) =>
      Ended(a.state) && RunComputation(of) in a.actions && (outcome.None? || (own && of != a.epoch))
    case HandleHeld => a.state == Running && a.loop == Handling(RunComplete) && !Delivers(a, own)
    case HandleOutlived(e) => e in a.stale && a.state == Running && e == RunComplete && !Delivers(a, own)
    case _ => false
  }

  /** The run has ended well, or the loop holds the event that says so. */
  predicate Exposed(a: Agent) {
    Ended(a.state) || a.loop == Handling(RunComplete)
  }

  /** For the consumers `a'` differs from `a` at most in an error. */
  predicate SameButError(a: Agent, a': Agent, error: bool) {
    && a'.state == a.state && Exposed(a') == Exposed(a) && a'.runError == (a.runError || error)
    && a'.result == a.result && a'.resultOf == a.resultOf && a'.epoch == a.epoch
  }

  lemma AlgorithmDownloadMarks(H: Content -> Digest, a: Agent, w: World)
    ensures SameButError(a, RunDownloadAlgorithm(H, a, w), AlgorithmDownloadFails(H, a, w))
  {
    hide AlgoIsRemote;
  }

  lemma DatasetDownloadMarks(H: Content -> Digest, a: Agent, got: Fetches, delivered: bool)
    ensures SameButError(a, RunDownloadDatasets(H, a, got, delivered), DatasetDownloadFails(H, a, got))
  {
    hide AllFetched, Stopped, Harvest, NotRemote, AnyRemote;
    CleanPassNotStopped(H, a.pending, a.manifest.kbs, got, 0);
  }

  lemma AlgorithmDownloadServesExactly(H: Content -> Digest, a: Agent, w: World, own: bool)
    requires Serves(a, own)
    ensures Serves(Do(H, a, DoDownloadAlgorithm(w)), own) <==> !Spoils(H, a, DoDownloadAlgorithm(w), own)
  {
    hide RunDownloadAlgorithm;
    AlgorithmDownloadMarks(H, Took(a, DownloadAlgorithm), w);
  }

  lemma DatasetDownloadServesExactly(H: Content -> Digest, a: Agent, got: Fetches, delivered: bool, own: bool)
    requires Serves(a, own)
    ensures var step := DoDownloadDatasets(got, delivered);
            Serves(Do(H, a, step), own) <==> !Spoils(H, a, step, own)
  {
    hide RunDownloadDatasets, AnyRemote, AllFetched;
    DatasetDownloadMarks(H, Took(a, DownloadDatasets), got, delivered);
  }

  lemma OutlivedServesExactly(H: Content -> Digest, a: Agent, e: Event, own: bool)
    requires Shaped(a.table) && Serves(a, own)
    ensures Serves(HandleStale(a, e), own) <==> !Spoils(H, a, HandleOutlived(e), own)
  {
    hide Target, Shaped, ActionsOn, HandleStale;
    OnlyRunsEnd(a.table, a.state, e);
    if e in a.stale {
      StaleMoves(a, e);
    } else {
      NotStale(a, e);
    }
  }

  lemma HeldServesExactly(H: Content -> Digest, a: Agent, own: bool)
    requires Shaped(a.table) && Serves(a, own)
    ensures Serves(Handle(a), own) <==> !Spoils(H, a, HandleHeld, own)
  {
    hide Target, Shaped, ActionsOn;
    if a.loop.Handling? {
      OnlyRunsEnd(a.table, a.state, a.loop.event);
    }
  }

  /** The states past a run are entered from Running by its end, and from one another. */
  lemma OnlyRunsEnd(table: Table, s: State, e: Event)
    requires Shaped(table)
    ensures Target(table, s, e).Some? ==>
              (Ended(Target(table, s, e).value) <==> (s == Running && e == RunComplete) || Ended(s))
    ensures s == Running && e == RunComplete ==> Target(table, s, e) == Some(ConsumingResults)
  {
    hide Target;
    if !AddedByManifest(s, e) {
      FixedTarget(table, s, e);
    }
  }

  lemma OthersServe(H: Content -> Digest, a: Agent, step: Step, own: bool)
    requires Serves(a, own)
    requires step.SendStart? || step.Init? || step.Stop? || step.Algo? || step.Data? || step.Result? || step.LoopEnds?
    ensures Serves(Do(H, a, step), own)
  {
    hide AddAll, ManifestTransitions, FirstRemote, FirstWithHash, Zeros, AlgoIsRemote, HandleStale, Handle,
      RunDownloadAlgorithm, RunDownloadDatasets, FinishRun;
  }

  lemma RunServesExactly(H: Content -> Digest, a: Agent, step: Step, own: bool)
    requires Serves(a, own) && step.DoRun?
    ensures Serves(Do(H, a, step), own) <==> !Spoils(H, a, step, own)
  {
  }

  /** One step keeps the promise to the consumers exactly when it does not spoil the result. */
  lemma StepServesExactly(H: Content -> Digest, a: Agent, step: Step, own: bool)
    requires Shaped(a.table) && Serves(a, own)
    ensures Serves(Do(H, a, step), own) <==> !Spoils(H, a, step, own)
  {
    hide Serves, Shaped, Delivers, InitComputation, StopComputation, AlgoRpc, DataRpc, ResultRpc, Send, Ended,
      RunDownloadAlgorithm, RunDownloadDatasets, FinishRun, Handle, HandleStale, AlgorithmDownloadFails,
      DatasetDownloadFails;
    match step
    case DoDownloadAlgorithm(w) => AlgorithmDownloadServesExactly(H, a, w, own);
    case DoDownloadDatasets(got, delivered) => DatasetDownloadServesExactly(H, a, got, delivered, own);
    case DoRun(of, outcome, delivered) => RunServesExactly(H, a, step, own);
    case HandleOutlived(e) => OutlivedServesExactly(H, a, e, own);
    case HandleHeld => HeldServesExactly(H, a, own);
    case _ => OthersServe(H, a, step, own);
  }

  predicate Unspoilt(H: Content -> Digest, a: Agent, steps: seq<Step>, own: bool)
    decreases |steps|
  {
    steps == [] || (!Spoils(H, a, steps[0], own) && Unspoilt(H, Do(H, a, steps[0]), steps[1..], own))
  }

  /** At every point of the run at which it has ended well, the agent delivers. */
  predicate ServesThroughout(H: Content -> Digest, a: Agent, steps: seq<Step>, own: bool)
    decreases |steps|
  {
    Serves(a, own) && (steps == [] || ServesThroughout(H, Do(H, a, steps[0]), steps[1..], own))
  }

  lemma {:induction false} ServesExactlyFrom(H: Content -> Digest, a: Agent, steps: seq<Step>, own: bool)
    requires Base(H, a) && Serves(a, own)
    ensures ServesThroughout(H, a, steps, own) <==> Unspoilt(H, a, steps, own)
    decreases |steps|
  {
    hide Base, Serves, Do, Spoils, Shaped;
    if steps != [] {
      BaseShapes(H, a);
      StepServesExactly(H, a, steps[0], own);
      StepKeepsBase(H, a, steps[0]);
      if !Spoils(H, a, steps[0], own) {
        ServesExactlyFrom(H, Do(H, a, steps[0]), steps[1..], own);
      }
    }
  }

  /** A run serves its consumers throughout exactly when none of its steps spoils the result. */
  lemma ServesThroughoutExactly(H: Content -> Digest, steps: seq<Step>, own: bool)
    ensures ServesThroughout(H, Fresh(), steps, own) <==> Unspoilt(H, Fresh(), steps, own)
  {
    hide Base, ServesThroughout, Unspoilt, AddAll, Zeros;
    FreshBase(H);
    ServesExactlyFrom(H, Fresh(), steps, own);
  }

  /** A step has spoilt the result since the last clean stop; `before`: one had when the run began. */
  predicate Spoilt(H: Content -> Digest, a: Agent, steps: seq<Step>, own: bool, before: bool)
    decreases |steps|
  {
    if steps == [] then before
    else
      var now := !CleanStop(steps[0]) && (before || Spoils(H, a, steps[0], own));
      Spoilt(H, Do(H, a, steps[0]), steps[1..], own, now)
  }

  lemma CleanStopServes(H: Content -> Digest, a: Agent, step: Step, own: bool)
    requires CleanStop(step)
    ensures Serves(Do(H, a, step), own)
  {
    hide Zeros;
  }

  lemma {:induction false} ServesUnlessSpoilt(H: Content -> Digest, a: Agent, steps: seq<Step>, own: bool, before: bool)
    requires Base(H, a) && (before || Serves(a, own)) && !Spoilt(H, a, steps, own, before)
    ensures Serves(Run(H, a, steps), own)
    decreases |steps|
  {
    hide Base, Serves, Do, Spoils, Shaped, CleanStop;
    if steps != [] {
      var step := steps[0];
      BaseShapes(H, a);
      StepKeepsBase(H, a, step);
      if CleanStop(step) {
        CleanStopServes(H, a, step, own);
      } else if !before {
        StepServesExactly(H, a, step, own);
      }
      ServesUnlessSpoilt(H, Do(H, a, step), steps[1..], own, !CleanStop(step) && (before || Spoils(H, a, step, own)));
    }
  }

  // ---------------------------------------------------------------- why there is a result

  predicate Promised(a: Agent, own: bool) {
    Exposed(a) ==> Delivers(a, own)
  }

  /** The result of a run for another computation is exposed, or becomes so. */
  predicate ForeignShows(a: Agent, of: nat, delivered: bool) {
    of != a.epoch && (Exposed(a) || (a.loop == Waiting && delivered && !a.runError))
  }

  /**
   A step that can take the result away: while exposed, a download that fails or a second run without
   a result; with `own`, a run of another computation whose result shows; an outlived event that ends a
   computation which is not exposed. Handling the event that the loop holds is never one.
   */
  predicate Endangers(H: Content -> Digest, a: Agent, step: Step, own: bool) {
    match step
    case DoDownloadAlgorithm(w) =>
      Exposed(a) && DownloadAlgorithm in a.actions && AlgorithmDownloadFails(H, a, w)
    case DoDownloadDatasets(got, _) =>
      Exposed(a) && DownloadDatasets in a.actions && DatasetDownloadFails(H, a, got)
    case DoRun(of, outcome, delivered) =>
      && RunComputation(of) in a.actions
      && (if outcome.None? then Exposed(a) else own && ForeignShows(a, of, delivered))
    case HandleOutlived(e) => e in a.stale && e == RunComplete && a.state == Running && !Exposed(a)
    case _ => false
  }

  lemma AlgorithmDownloadKeepsPromise(H: Content -> Digest, a: Agent, w: World, own: bool)
    requires Promised(a, own)
    ensures Promised(Do(H, a, DoDownloadAlgorithm(w)), own) <==> !Endangers(H, a, DoDownloadAlgorithm(w), own)
  {
    hide RunDownloadAlgorithm;
    AlgorithmDownloadMarks(H, Took(a, DownloadAlgorithm), w);
  }

  lemma DatasetDownloadKeepsPromise(H: Content -> Digest, a: Agent, got: Fetches, delivered: bool, own: bool)
    requires Promised(a, own)
    ensures var step := DoDownloadDatasets(got, delivered);
            Promised(Do(H, a, step), own) <==> !Endangers(H, a, step, own)
  {
    hide RunDownloadDatasets, AnyRemote, AllFetched;
    DatasetDownloadMarks(H, Took(a, DownloadDatasets), got, delivered);
  }

  /** The event that ends a run well is sent with a result and without an error. */
  lemma RunKeepsPromise(H: Content -> Digest, a: Agent, step: Step, own: bool)
    requires Promised(a, own) && step.DoRun?
    ensures Promised(Do(H, a, step), own) <==> !Endangers(H, a, step, own)
  {
  }

  lemma OutlivedKeepsPromise(H: Content -> Digest, a: Agent, e: Event, own: bool)
    requires Shaped(a.table) && Promised(a, own) && !Endangers(H, a, HandleOutlived(e), own)
    ensures Promised(HandleStale(a, e), own)
  {
    hide Target, Shaped, ActionsOn, HandleStale;
    OnlyRunsEnd(a.table, a.state, e);
    if e in a.stale {
      StaleMoves(a, e);
    } else {
      NotStale(a, e);
    }
  }

  lemma HeldKeepsPromise(a: Agent, own: bool)
    requires Shaped(a.table) && Promised(a, own)
    ensures Promised(Handle(a), own)
  {
    hide Target, Shaped, ActionsOn;
    if a.loop.Handling? {
      OnlyRunsEnd(a.table, a.state, a.loop.event);
    }
  }

  lemma CallsKeepPromise(H: Content -> Digest, a: Agent, step: Step, own: bool)
    requires Promised(a, own) && (step.Algo? || step.Data? || step.Result?)
    ensures Promised(Do(H, a, step), own)
  {
    hide FirstRemote, FirstWithHash, AlgoIsRemote, InitComputation, StopComputation, HandleStale, Handle,
      RunDownloadAlgorithm, RunDownloadDatasets, FinishRun;
  }

  lemma OthersKeepPromise(H: Content -> Digest, a: Agent, step: Step, own: bool)
    requires Promised(a, own) && (step.SendStart? || step.Init? || step.Stop? || step.LoopEnds?)
    ensures Promised(Do(H, a, step), own)
  {
    hide AddAll, ManifestTransitions, Zeros, AlgoRpc, DataRpc, ResultRpc, HandleStale, Handle, RunDownloadAlgorithm,
      RunDownloadDatasets, FinishRun;
  }

  /** One step keeps the promise unless it endangers it; but for outlived events, exactly then. */
  lemma StepKeepsPromise(H: Content -> Digest, a: Agent, step: Step, own: bool)
    requires Shaped(a.table) && Promised(a, own)
    ensures !Endangers(H, a, step, own) ==> Promised(Do(H, a, step), own)
    ensures !step.HandleOutlived? && Promised(Do(H, a, step), own) ==> !Endangers(H, a, step, own)
  {
    hide Promised, Exposed, ForeignShows, Shaped, InitComputation, StopComputation, AlgoRpc, DataRpc, ResultRpc, Send,
      RunDownloadAlgorithm, RunDownloadDatasets, FinishRun, Handle, HandleStale, AlgorithmDownloadFails,
      DatasetDownloadFails;
    match step
    case DoDownloadAlgorithm(w) => AlgorithmDownloadKeepsPromise(H, a, w, own);
    case DoDownloadDatasets(got, delivered) => DatasetDownloadKeepsPromise(H, a, got, delivered, own);
    case DoRun(of, outcome, delivered) => RunKeepsPromise(H, a, step, own);
    case HandleOutlived(e) =>
      if !Endangers(H, a, step, own) { OutlivedKeepsPromise(H, a, e, own); }
    case HandleHeld => HeldKeepsPromise(a, own);
    case Algo(upload, w) => CallsKeepPromise(H, a, step, own);
    case Data(upload, filename, w) => CallsKeepPromise(H, a, step, own);
    case Result(index, delivered) => CallsKeepPromise(H, a, step, own);
    case _ => OthersKeepPromise(H, a, step, own);
  }

  /** What spoils the result endangers it: in particular, handling a held event never spoils it. */
  lemma SpoilingEndangers(H: Content -> Digest, a: Agent, step: Step, own: bool)
    requires Promised(a, own) && Spoils(H, a, step, own)
    ensures Endangers(H, a, step, own)
  {
    hide AlgorithmDownloadFails, DatasetDownloadFails;
  }

  /** A step has endangered the result since the last clean stop; `before`: one had when the run began. */
  predicate Endangered(H: Content -> Digest, a: Agent, steps: seq<Step>, own: bool, before: bool)
    decreases |steps|
  {
    if steps == [] then before
    else
      var now := !CleanStop(steps[0]) && (before || Endangers(H, a, steps[0], own));
      Endangered(H, Do(H, a, steps[0]), steps[1..], own, now)
  }

  lemma CleanStopPromises(H: Content -> Digest, a: Agent, step: Step, own: bool)
    requires CleanStop(step)
    ensures Promised(Do(H, a, step), own)
  {
    hide Zeros;
  }

  /** A run that never endangers its result never spoils it either. */
  lemma {:induction false} UnendangeredIsUnspoilt(H: Content -> Digest, a: Agent, steps: seq<Step>, own: bool,
                                                  endangered: bool, spoilt: bool)
    requires Base(H, a) && (endangered || Promised(a, own)) && (spoilt ==> endangered)
    requires !Endangered(H, a, steps, own, endangered)
    ensures !Spoilt(H, a, steps, own, spoilt)
    decreases |steps|
  {
    hide Base, Promised, Do, Spoils, Endangers, Shaped, CleanStop;
    if steps != [] {
      var step := steps[0];
      BaseShapes(H, a);
      StepKeepsBase(H, a, step);
      if CleanStop(step) {
        CleanStopPromises(H, a, step, own);
      } else if !endangered {
        StepKeepsPromise(H, a, step, own);
        if Spoils(H, a, step, own) { SpoilingEndangers(H, a, step, own); }
      }
      UnendangeredIsUnspoilt(H, Do(H, a, step), steps[1..], own,
                             !CleanStop(step) && (endangered || Endangers(H, a, step, own)),
                             !CleanStop(step) && (spoilt || Spoils(H, a, step, own)));
    }
  }

  /**
   When the run has ended well and nothing has endangered its result since the last clean stop, every
   declared consumer gets a file; with `own`, the file of the current computation.
   */
  lemma ConsumersGetTheResult(H: Content -> Digest, steps: seq<Step>, own: bool, index: int, delivered: bool)
    requires !Endangered(H, Fresh(), steps, own, false)
    ensures var a := Run(H, Fresh(), steps);
            Ended(a.state) && 0 <= index < a.manifest.consumers ==>
              && a.result.Some? && ResultRpc(a, Some(index), delivered).1 == Results(a.result, false)
              && (own ==> a.resultOf == a.epoch)
  {
    hide Run, Spoilt, Endangered, Base, AddAll, Zeros;
    FreshBase(H);
    UnendangeredIsUnspoilt(H, Fresh(), steps, own, false, false);
    ServesUnlessSpoilt(H, Fresh(), steps, own, false);
  }

  // ---------------------------------------------------------------- runs that spoil it

  /** No datasets and one consumer; `remote`: the algorithm is to be downloaded. */
  function Simple(H: Content -> Digest, remote: bool): Manifest {
    Manifest([], H([]), remote, "", [], remote, 1)
  }

  /** An upload of the empty algorithm, fetched by the handler itself where it is remote. */
  const EMPTY_UPLOAD := Algo(Upload([], NO_SETTINGS), World(Some([]), [], true, true, true))

  const FAILED_DOWNLOAD := DoDownloadAlgorithm(World(None, [], true, true, true))

  /** The agent waits for the algorithm of a simple manifest. */
  ghost predicate Awaits(H: Content -> Digest, a: Agent, remote: bool) {
    && a.state == ReceivingAlgorithm && a.loop == Waiting && a.algo == None && a.manifest == Simple(H, remote)
    && Shaped(a.table) && Configured(a.table, a.manifest) && !a.runError
  }

  /** The agent runs it. */
  ghost predicate Runs(H: Content -> Digest, a: Agent, remote: bool) {
    a.state == Running && a.loop == Waiting && a.manifest == Simple(H, remote) && Shaped(a.table) && !a.runError
  }

  function FirstRound(H: Content -> Digest, remote: bool): seq<Step> {
    [SendStart(true)] + RoundSteps(Simple(H, remote))
  }

  lemma Begins(H: Content -> Digest, remote: bool)
    ensures var a := Run(H, Fresh(), FirstRound(H, remote));
            Awaits(H, a, remote) && a.epoch == 0 && a.actions == multiset{DownloadAlgorithm} && a.stale == multiset{}
  {
    hide Do, Run, Fresh, Shaped, Configured;
    var a0 := Do(H, Fresh(), SendStart(true));
    FreshStarted(H);
    RunCons(H, Fresh(), FirstRound(H, remote), SendStart(true), RoundSteps(Simple(H, remote)));
    NextRound(H, a0, remote);
  }

  lemma NextRound(H: Content -> Digest, a: Agent, remote: bool)
    requires Shaped(a.table) && a.state == Idle && a.loop == Handling(Start) && a.algo == None && !a.runError
    ensures var a' := Run(H, a, RoundSteps(Simple(H, remote)));
            && Awaits(H, a', remote) && a'.epoch == a.epoch && a'.stale == a.stale
            && a'.actions == a.actions + multiset{DownloadAlgorithm}
  {
    hide Do, Run, Shaped, Configured;
    var m := Simple(H, remote);
    Round(H, a, m);
    RunRound(H, a, m, []);
    assert RoundSteps(m) + [] == RoundSteps(m);
    RunNone(H, AfterRound(H, a, m));
  }

  lemma RunNone(H: Content -> Digest, a: Agent)
    ensures Run(H, a, []) == a
  {
  }

  const UPLOAD_AND_RUN := [EMPTY_UPLOAD, HandleHeld]

  lemma UploadStarts(H: Content -> Digest, a: Agent, remote: bool)
    requires Awaits(H, a, remote)
    ensures var b := Run(H, a, UPLOAD_AND_RUN);
            Runs(H, b, remote) && b.epoch == a.epoch && b.actions == a.actions + multiset{RunComputation(a.epoch)}
  {
    hide Run, Target, Shaped;
    RunTwo(H, a, EMPTY_UPLOAD, HandleHeld);
  }

  function EndRun(of: nat, out: Content): seq<Step> {
    [DoRun(of, Some(out), true), HandleHeld]
  }

  lemma RunEnds(H: Content -> Digest, a: Agent, remote: bool, of: nat, out: Content)
    requires Runs(H, a, remote) && RunComputation(of) in a.actions
    ensures var b := Run(H, a, EndRun(of, out));
            && b.state == ConsumingResults && b.manifest == a.manifest && b.result == Some(out) && !b.runError
            && b.resultOf == of && b.epoch == a.epoch && b.actions == a.actions - multiset{RunComputation(of)}
  {
    hide Run, Target, Shaped;
    RunTwo(H, a, DoRun(of, Some(out), true), HandleHeld);
    FixedTarget(a.table, Running, RunComplete);
  }

  lemma DownloadComesTooLate(H: Content -> Digest, a: Agent)
    requires Ended(a.state) && a.manifest == Simple(H, true) && DownloadAlgorithm in a.actions
    ensures var b := Run(H, a, [FAILED_DOWNLOAD]);
            b.state == a.state && b.runError && b.manifest == a.manifest
  {
    hide Run;
    RunNow(H, a, FAILED_DOWNLOAD);
  }

  /**
   It does happen, without a stop: the upload handler fetches a remote algorithm itself, the run ends
   well, and then the download action that was started for the same algorithm fails. The declared
   consumer gets an error instead of the result.
   */
  lemma LateDownloadSpoilsResult(H: Content -> Digest, out: Content, delivered: bool)
    ensures exists steps: seq<Step> ::
              && (forall s :: s in steps ==> !s.Stop? && !s.HandleOutlived?)
              && Ended(Run(H, Fresh(), steps).state)
              && ResultRpc(Run(H, Fresh(), steps), Some(0), delivered).1.Results?
              && ResultRpc(Run(H, Fresh(), steps), Some(0), delivered).1.runError
  {
    hide Do, Run, Fresh, Awaits, Runs;
    Begins(H, true);
    var a1 := Run(H, Fresh(), FirstRound(H, true));
    UploadStarts(H, a1, true);
    var a2 := Run(H, a1, UPLOAD_AND_RUN);
    RunEnds(H, a2, true, 0, out);
    SimpleIs(H, a2, true);
    DownloadComesTooLate(H, Run(H, a2, EndRun(0, out)));
    var late := EndRun(0, out) + [FAILED_DOWNLOAD];
    var steps := FirstRound(H, true) + (UPLOAD_AND_RUN + late);
    RunConcat(H, Fresh(), FirstRound(H, true), UPLOAD_AND_RUN + late);
    RunConcat(H, a1, UPLOAD_AND_RUN, late);
    RunConcat(H, a2, EndRun(0, out), [FAILED_DOWNLOAD]);
    assert forall s :: s in steps ==> !s.Stop? && !s.HandleOutlived?;
    assert Run(H, Fresh(), steps).runError;
  }

  lemma SimpleIs(H: Content -> Digest, a: Agent, remote: bool)
    requires Runs(H, a, remote)
    ensures a.manifest == Simple(H, remote) && a.manifest.consumers == 1
  {
  }

  lemma StopInARun(H: Content -> Digest, a: Agent, remote: bool)
    requires Runs(H, a, remote)
    ensures var b := Run(H, a, [Stop(true, true)]);
            && Shaped(b.table) && b.state == Idle && b.loop == Handling(Start) && b.algo == None && !b.runError
            && b.epoch == a.epoch + 1 && b.actions == a.actions
  {
    hide Run, Zeros, Shaped;
    RunNow(H, a, Stop(true, true));
  }

  function StopAndStartAgain(H: Content -> Digest): seq<Step> {
    [Stop(true, true)] + (RoundSteps(Simple(H, false)) + UPLOAD_AND_RUN)
  }

  lemma RunsAgain(H: Content -> Digest, a: Agent)
    requires Runs(H, a, false)
    ensures var b := Run(H, a, StopAndStartAgain(H));
            && Runs(H, b, false) && b.epoch == a.epoch + 1
            && forall act :: act in a.actions ==> act in b.actions
  {
    hide Run, Do, Awaits, Runs;
    var restart := RoundSteps(Simple(H, false));
    StopInARun(H, a, false);
    var a1 := Run(H, a, [Stop(true, true)]);
    NextRound(H, a1, false);
    var a2 := Run(H, a1, restart);
    UploadStarts(H, a2, false);
    RunConcat(H, a, [Stop(true, true)], restart + UPLOAD_AND_RUN);
    RunConcat(H, a1, restart, UPLOAD_AND_RUN);
  }

  /**
   A run outlives a clean stop: it was started for one computation, the agent is stopped while it goes
   on, and its result is handed to the declared consumer of the next computation.
   */
  lemma ForeignResultIsServed(H: Content -> Digest, out: Content, delivered: bool)
    ensures exists steps: seq<Step> ::
              && Ended(Run(H, Fresh(), steps).state)
              && Run(H, Fresh(), steps).resultOf != Run(H, Fresh(), steps).epoch
              && ResultRpc(Run(H, Fresh(), steps), Some(0), delivered).1 == Results(Some(out), false)
  {
    hide Do, Run, Fresh, Awaits, Runs;
    Begins(H, false);
    var a1 := Run(H, Fresh(), FirstRound(H, false));
    UploadStarts(H, a1, false);
    var a2 := Run(H, a1, UPLOAD_AND_RUN);
    RunsAgain(H, a2);
    var a3 := Run(H, a2, StopAndStartAgain(H));
    RunEnds(H, a3, false, 0, out);
    SimpleIs(H, a3, false);
    var again := StopAndStartAgain(H) + EndRun(0, out);
    var steps := FirstRound(H, false) + (UPLOAD_AND_RUN + again);
    RunConcat(H, Fresh(), FirstRound(H, false), UPLOAD_AND_RUN + again);
    RunConcat(H, a1, UPLOAD_AND_RUN, again);
    RunConcat(H, a2, StopAndStartAgain(H), EndRun(0, out));
    assert Ended(Run(H, Fresh(), steps).state);
  }

  // ---------------------------------------------------------------- stuck without a directory

  /**
   The algorithm is marked as received, and nothing is under way that would say so to the machine:
   neither a held nor an outlived event, nor a download.
   */
  ghost predicate Stuck(a: Agent) {
    && Shaped(a.table)
    && (a.state == Failed || (a.state == ReceivingAlgorithm && a.algo.Some?))
    && a.loop != Handling(AlgorithmReceived) && AlgorithmReceived !in a.stale && DownloadAlgorithm !in a.actions
  }

  lemma StuckTargets(table: Table, s: State, e: Event)
    requires Shaped(table) && (s == Failed || s == ReceivingAlgorithm) && e != AlgorithmReceived
    ensures Target(table, s, e) == None || Target(table, s, e) == Some(Failed)
  {
    hide Target;
    FixedTarget(table, s, e);
  }

  lemma StuckHandles(a: Agent)
    requires Stuck(a)
    ensures Stuck(Handle(a))
  {
    hide Target, Shaped;
    if a.loop.Handling? {
      StuckTargets(a.table, a.state, a.loop.event);
    }
  }

  lemma StuckOutlives(a: Agent, e: Event)
    requires Stuck(a)
    ensures Stuck(HandleStale(a, e))
  {
    hide Target, Shaped, HandleStale;
    if e in a.stale {
      StaleMoves(a, e);
      StuckTargets(a.table, a.state, e);
    } else {
      NotStale(a, e);
    }
  }

  lemma StuckDownloads(H: Content -> Digest, a: Agent, step: Step)
    requires Stuck(a) && (step.DoDownloadAlgorithm? || step.DoDownloadDatasets?)
    ensures Stuck(Do(H, a, step))
  {
    hide Target, Shaped, AnyRemote, Stopped, Harvest, NotRemote, RunDownloadAlgorithm;
  }

  lemma StuckRuns(H: Content -> Digest, a: Agent, step: Step)
    requires Stuck(a) && step.DoRun?
    ensures Stuck(Do(H, a, step))
  {
    hide Target, Shaped;
  }

  lemma StuckCalls(H: Content -> Digest, a: Agent, step: Step)
    requires Stuck(a) && !CleanStop(step)
    requires step.SendStart? || step.Init? || step.Stop? || step.Algo? || step.Data? || step.Result? || step.LoopEnds?
    ensures Stuck(Do(H, a, step))
  {
    hide Target, Shaped, FirstRemote, FirstWithHash, AlgoIsRemote, AddAll, ManifestTransitions, Cleared;
  }

  lemma {:induction false} StuckStays(H: Content -> Digest, a: Agent, steps: seq<Step>)
    requires Stuck(a) && forall s :: s in steps ==> !CleanStop(s)
    ensures Stuck(Run(H, a, steps))
    decreases |steps|
  {
    hide Stuck, Send, InitComputation, StopComputation, AlgoRpc, DataRpc, ResultRpc, RunDownloadAlgorithm,
      RunDownloadDatasets, FinishRun, Handle, HandleStale;
    if steps != [] {
      var step := steps[0];
      assert step in steps;
      if step.HandleHeld? {
        StuckHandles(a);
      } else if step.HandleOutlived? {
        StuckOutlives(a, step.event);
      } else if step.DoDownloadAlgorithm? || step.DoDownloadDatasets? {
        StuckDownloads(H, a, step);
      } else if step.DoRun? {
        StuckRuns(H, a, step);
      } else {
        StuckCalls(H, a, step);
      }
      StuckStays(H, Do(H, a, step), steps[1..]);
    }
  }

  /** Such an upload, with neither an event nor a download under way that would tell the machine. */
  predicate MarksUnnoticed(H: Content -> Digest, a: Agent, upload: Upload, w: World) {
    && MarksWithoutDirectory(H, a, upload, w)
    && a.loop != Handling(AlgorithmReceived) && AlgorithmReceived !in a.stale && DownloadAlgorithm !in a.actions
  }

  /**
   After an upload that got everything done but the datasets directory, with nothing else under way,
   the agent waits for the algorithm for good: no run without a clean stop leaves ReceivingAlgorithm
   but for Failed, and every upload is refused.
   */
  lemma StuckWithoutDirectory(H: Content -> Digest, before: seq<Step>, upload: Upload, w: World, steps: seq<Step>,
                              again: Upload, w': World)
    requires MarksUnnoticed(H, Run(H, Fresh(), before), upload, w)
    requires forall s :: s in steps ==> !CleanStop(s)
    ensures var a := Run(H, Do(H, Run(H, Fresh(), before), Algo(upload, w)), steps);
            && (a.state == ReceivingAlgorithm || a.state == Failed)
            && AlgoRpc(H, a, again, w') ==
               (a, if a.state == Failed then StateNotReady else AllManifestItemsReceived)
  {
    hide Run, Shaped, Base, Fresh;
    var a := Run(H, Fresh(), before);
    ReachableBase(H, before);
    BaseShapes(H, a);
    var marked := Do(H, a, Algo(upload, w));
    assert Stuck(marked);
    StuckStays(H, marked, steps);
  }

  /** It does happen: start, a local manifest, the download action that finds nothing to do, then the upload. */
  lemma StuckIsReachable(H: Content -> Digest)
    ensures exists before, upload, w :: MarksUnnoticed(H, Run(H, Fresh(), before), upload, w)
  {
    hide Run, Fresh, Shaped, Configured;
    var quiet := DoDownloadAlgorithm(World(None, [], true, true, true));
    Begins(H, false);
    var a := Run(H, Fresh(), FirstRound(H, false));
    RunConcat(H, Fresh(), FirstRound(H, false), [quiet]);
    RunNow(H, a, quiet);
    var before := FirstRound(H, false) + [quiet];
    assert MarksUnnoticed(H, Run(H, Fresh(), before), Upload([], NO_SETTINGS), World(None, [], true, false, true));
  }
}
