/**
 The agent's computation lifecycle as a state machine over values: agent/service.go on top of
 agent/statemachine/state.go.

 Every RPC, every critical section of a state action, and every handled event is one step. A sent
 event is delivered or silently dropped; a delivered event is held by the event loop until a later
 step handles it, so other steps come in between. An event without a transition ends the loop. The
 goroutines of state actions survive a stop and may run under a later manifest.
 */
module AgentMachine {
  import opened Results
  import opened BigEndian

  type Content = Bytes
  type Digest = Bytes

  datatype State =
    | Idle | ReceivingManifest | ReceivingAlgorithm | ReceivingData
    | Running | ConsumingResults | Complete | Failed

  datatype Event =
    | Start | ManifestReceived | AlgorithmReceived | DataReceived
    | RunComplete | ResultsConsumed | RunFailed

  // ---------------------------------------------------------------- the transition table

  type Table = map<State, map<Event, State>>

  datatype Transition = Transition(from: State, event: Event, to: State)

  /** Adds a transition, replacing one with the same source state and event. */
  function Add(table: Table, t: Transition): Table {
    var row: map<Event, State> := if t.from in table then table[t.from] else map[];
    table[t.from := row[t.event := t.to]]
  }

  function AddAll(table: Table, ts: seq<Transition>): Table
    decreases |ts|
  {
    if ts == [] then table else AddAll(Add(table, ts[0]), ts[1..])
  }

  function Target(table: Table, s: State, e: Event): Option<State> {
    if s in table && e in table[s] then Some(table[s][e]) else None
  }

  /** The transitions that are there from the start. */
  const INITIAL_TRANSITIONS: seq<Transition> := [
    Transition(Idle, Start, ReceivingManifest),
    Transition(ReceivingManifest, ManifestReceived, ReceivingAlgorithm),
    Transition(ReceivingAlgorithm, RunFailed, Failed),
    Transition(ReceivingData, RunFailed, Failed),
    Transition(Running, RunComplete, ConsumingResults),
    Transition(Running, RunFailed, Failed),
    Transition(ConsumingResults, ResultsConsumed, Complete)
  ]

  /** The transitions that a manifest adds; they stay in the table through every reset. */
  function ManifestTransitions(m: Manifest): seq<Transition> {
    if m.datasets == [] then
      [Transition(ReceivingAlgorithm, AlgorithmReceived, Running)]
    else
      [Transition(ReceivingAlgorithm, AlgorithmReceived, ReceivingData),
       Transition(ReceivingData, DataReceived, Running)]
  }

  // ---------------------------------------------------------------- the agent

  datatype Dataset = Dataset(hash: Digest, filename: string, hasSource: bool)

  datatype Manifest = Manifest(datasets: seq<Dataset>, algoHash: Digest, algoHasSource: bool, algoType: string,
                               algoArgs: seq<string>, kbs: bool, consumers: nat)

  /** How the algorithm is to be run. */
  datatype Settings = Settings(requirements: Content, kind: string, args: seq<string>)

  const NO_SETTINGS := Settings([], "", [])

  function KindOf(kind: string): string {
    if kind == "" then "bin" else kind
  }

  datatype Upload = Upload(content: Content, settings: Settings)

  function Zeros(n: nat): (d: Digest)
    ensures |d| == n
  {
    if n == 0 then [] else Zeros(n - 1) + [0]
  }

  /** The zero value of the manifest record. */
  const NO_MANIFEST := Manifest([], Zeros(32), false, "", [], false, 0)

  /** The event loop: in its select, between receiving an event and handling it, or returned. */
  datatype Loop = Waiting | Handling(event: Event) | Dead

  /** What entering a state starts; a run is marked with the computation that it was started for. */
  datatype Action = DownloadAlgorithm | DownloadDatasets | RunComputation(of: nat)

  datatype Agent = Agent(
    state: State,
    table: Table,
    loop: Loop,
    stale: multiset<Event>,                // events held by loops that a stop has replaced
    actions: multiset<Action>,             // started goroutines that have not run yet
    manifest: Manifest,                    // as received; NO_MANIFEST before that
    configured: bool,                      // a manifest arrived since the last reset
    pending: seq<Dataset>,                 // computation.Datasets
    algo: Option<Content>,                 // Some once algoReceived is set
    settings: Settings,                    // algoRequirements, algoType, algoArgs
    stored: seq<(Dataset, Content)>,       // what was taken out of `pending`, with its data
    runError: bool,
    result: Option<Content>,
    resultOf: nat,                         // the computation whose run produced the last result
    resultsConsumed: bool,
    epoch: nat,                            // resets so far: the number of the current computation
    handled: nat)                          // events handled since the last reset

  datatype Reply =
    | Done
    | Results(result: Option<Content>, runError: bool)
    | StateNotReady | AllManifestItemsReceived | DownloadFailed | HashMismatch | FileError
    | FileNameMismatch | UndeclaredDataset | ResultsNotReady | UndeclaredConsumer

  /** The agent before its first event. */
  function Fresh(): Agent {
    Agent(Idle, AddAll(map[], INITIAL_TRANSITIONS), Waiting, multiset{}, multiset{},
          NO_MANIFEST, false, [], None, NO_SETTINGS, [], false, None, 0, false, 0, 0)
  }

  /** What no RPC and no action touches: only a handled event or a stop moves the machine. */
  predicate MachineUntouched(a: Agent, a': Agent) {
    a'.state == a.state && a'.stale == a.stale && a'.handled == a.handled
  }

  /** The table and the account of the datasets stay as they are. */
  predicate BooksUntouched(a: Agent, a': Agent) {
    && a'.table == a.table && a'.configured == a.configured && a'.manifest == a.manifest
    && a'.pending == a.pending && a'.stored == a.stored
  }

  /** SendEvent: an unbuffered send with a default case. It can only be received by a waiting loop. */
  function Send(a: Agent, e: Event, delivered: bool): (a': Agent)
    ensures MachineUntouched(a, a') && BooksUntouched(a, a')
  {
    if delivered && a.loop == Waiting then a.(loop := Handling(e)) else a
  }

  function ActionsOn(s: State, epoch: nat): multiset<Action> {
    match s
    case ReceivingAlgorithm => multiset{DownloadAlgorithm}
    case ReceivingData => multiset{DownloadDatasets}
    case Running => multiset{RunComputation(epoch)}
    case _ => multiset{}
  }

  function Enter(a: Agent, s: State): Agent {
    a.(state := s, actions := a.actions + ActionsOn(s, a.epoch), handled := a.handled + 1)
  }

  /** The loop handles the event it holds; an event without a transition ends the loop. */
  function Handle(a: Agent): Agent {
    if a.loop.Handling? then
      match Target(a.table, a.state, a.loop.event)
      case Some(s) => Enter(a, s).(loop := Waiting)
      case None => a.(loop := Dead)
    else
      a
  }

  /** A loop that a stop has replaced handles the event it still holds. */
  function HandleStale(a: Agent, e: Event): Agent {
    if e in a.stale then
      var a' := a.(stale := a.stale - multiset{e});
      match Target(a.table, a.state, e)
      case Some(s) => Enter(a', s)
      case None => a'
    else
      a
  }

  function InitComputation(a: Agent, m: Manifest, delivered: bool): (r: (Agent, Reply))
    ensures MachineUntouched(a, r.0)
  {
    if a.state != ReceivingManifest then
      (a, StateNotReady)
    else
      (Send(a.(manifest := m, configured := true, pending := m.datasets, stored := [],
               table := AddAll(a.table, ManifestTransitions(m))), ManifestReceived, delivered), Done)
  }

  /** `cleaned` is false when removing a directory failed: then nothing is reset. */
  function StopComputation(a: Agent, cleaned: bool, delivered: bool): (Agent, Reply) {
    if !cleaned then
      (a, FileError)
    else
      (Send(Cleared(a), Start, delivered), Done)
  }

  /** Everything forgotten but the table, the started actions, and an event that the loop still holds. */
  function Cleared(a: Agent): Agent {
    a.(state := Idle, loop := Waiting, manifest := NO_MANIFEST, configured := false, pending := [], algo := None,
       settings := NO_SETTINGS, stored := [], runError := false, result := None, resultsConsumed := false,
       epoch := a.epoch + 1, handled := 0,
       stale := if a.loop.Handling? then a.stale + multiset{a.loop.event} else a.stale)
  }

  /**
   What the environment decides during one call: the download and the requirements that come with it,
   whether the files before and after the algorithm is marked received could be written, and whether
   the sent event is received.
   */
  datatype World = World(download: Option<Content>, requirements: Content, filesOk: bool, mkdirOk: bool,
          delivered: bool)

  predicate AlgoIsRemote(a: Agent) {
    a.manifest.algoHasSource && a.manifest.kbs
  }

  /** A download brings its requirements at once, whatever becomes of the call. */
  function WithRequirements(a: Agent, w: World): Agent {
    a.(settings := a.settings.(requirements := w.requirements))
  }

  function AlgoRpc(H: Content -> Digest, a: Agent, upload: Upload, w: World): (r: (Agent, Reply))
    ensures MachineUntouched(a, r.0) && BooksUntouched(a, r.0)
  {
    if a.state != ReceivingAlgorithm then
      (a, StateNotReady)
    else if a.algo.Some? then
      (a, AllManifestItemsReceived)
    else if AlgoIsRemote(a) && w.download.None? then
      (a, DownloadFailed)
    else
      var data := if AlgoIsRemote(a) then w.download.value else upload.content;
      var refused := if AlgoIsRemote(a) then WithRequirements(a, w) else a;
      if H(data) != a.manifest.algoHash then
        (refused, HashMismatch)
      else if !w.filesOk then
        (refused, FileError)
      else
        var marked := Marked(a, data, upload.settings);
        if !w.mkdirOk then (marked, FileError) else (Send(marked, AlgorithmReceived, w.delivered), Done)
  }

  function Marked(a: Agent, data: Content, settings: Settings): Agent {
    a.(algo := Some(data), settings := settings.(kind := KindOf(settings.kind)))
  }

  predicate IsRemote(d: Dataset, kbs: bool) {
    d.hasSource && kbs
  }

  predicate AnyRemote(ds: seq<Dataset>, kbs: bool) {
    exists i :: 0 <= i < |ds| && IsRemote(ds[i], kbs)
  }

  /** The first dataset that is fetched remotely, or |ds|. */
  function FirstRemote(ds: seq<Dataset>, kbs: bool): (k: nat)
    ensures k <= |ds|
    ensures k < |ds| ==> IsRemote(ds[k], kbs)
    ensures forall i :: 0 <= i < k ==> !IsRemote(ds[i], kbs)
  {
    if ds == [] || IsRemote(ds[0], kbs) then 0 else 1 + FirstRemote(ds[1..], kbs)
  }

  /** The first dataset declared with hash `h`, or |ds|. */
  function FirstWithHash(ds: seq<Dataset>, h: Digest): (k: nat)
    ensures k <= |ds|
    ensures k < |ds| ==> ds[k].hash == h
    ensures forall i :: 0 <= i < k ==> ds[i].hash != h
  {
    if ds == [] || ds[0].hash == h then 0 else 1 + FirstWithHash(ds[1..], h)
  }

  function Without<T>(s: seq<T>, k: nat): seq<T>
    requires k < |s|
  {
    s[..k] + s[k + 1..]
  }

  function DataRpc(H: Content -> Digest, a: Agent, upload: Content, filename: string, w: World): (r: (Agent, Reply))
    ensures MachineUntouched(a, r.0)
  {
    if a.state != ReceivingData then
      (a, StateNotReady)
    else if a.pending == [] then
      (a, AllManifestItemsReceived)
    else
      var r := FirstRemote(a.pending, a.manifest.kbs);
      if r < |a.pending| && w.download.None? then
        (a, DownloadFailed)
      else
        var data := if r < |a.pending| then w.download.value else upload;
        var name := if r < |a.pending| then a.pending[r].filename else filename;
        var k := FirstWithHash(a.pending, H(data));
        if k == |a.pending| then
          (a, UndeclaredDataset)
        else if a.pending[k].filename != "" && a.pending[k].filename != name then
          (a, FileNameMismatch)
        else if !w.filesOk then
          (a, FileError)
        else
          var a' := Stored(a, k, data);
          (if a'.pending == [] then Send(a', DataReceived, w.delivered) else a', Done)
  }

  /** The pending dataset at `k` is taken out and recorded with its content. */
  function Stored(a: Agent, k: nat, data: Content): (a': Agent)
    requires k < |a.pending|
    ensures MachineUntouched(a, a')
  {
    a.(pending := Without(a.pending, k), stored := a.stored + [(a.pending[k], data)])
  }

  function ResultRpc(a: Agent, index: Option<int>, delivered: bool): (r: (Agent, Reply))
    ensures MachineUntouched(a, r.0) && BooksUntouched(a, r.0)
  {
    if a.state != ConsumingResults && a.state != Complete && a.state != Failed then
      (a, ResultsNotReady)
    else if index.None? || index.value < 0 || index.value >= a.manifest.consumers then
      (a, UndeclaredConsumer)
    else if !a.resultsConsumed && a.state == ConsumingResults then
      (Send(a.(resultsConsumed := true), ResultsConsumed, delivered), Results(a.result, a.runError))
    else
      (a, Results(a.result, a.runError))
  }

  // ---------------------------------------------------------------- state actions

  function Fail(a: Agent, delivered: bool): (a': Agent)
    ensures MachineUntouched(a, a') && BooksUntouched(a, a')
  {
    Send(a.(runError := true), RunFailed, delivered)
  }

  function RunDownloadAlgorithm(H: Content -> Digest, a: Agent, w: World): (a': Agent)
    ensures MachineUntouched(a, a') && BooksUntouched(a, a')
  {
    if !AlgoIsRemote(a) then
      a
    else if w.download.None? || H(w.download.value) != a.manifest.algoHash || !w.filesOk then
      Fail(a, w.delivered)
    else if !w.mkdirOk then
      Fail(WithRequirements(a, w).(algo := Some(w.download.value)), w.delivered)
    else
      Send(Marked(a, w.download.value, Settings(w.requirements, a.manifest.algoType, a.manifest.algoArgs)),
           AlgorithmReceived, w.delivered)
  }

  /** For the dataset at each index: its download, or None when downloading or storing it fails. */
  type Fetches = nat -> Option<Content>

  /** `d` was fetched with its declared hash and stored. */
  predicate Fetched(H: Content -> Digest, d: Dataset, got: Option<Content>) {
    got.Some? && H(got.value) == d.hash
  }

  /** A backwards pass over `ds`, whose first member has index `base`, gets through. */
  predicate AllFetched(H: Content -> Digest, ds: seq<Dataset>, kbs: bool, got: Fetches, base: nat) {
    ds == [] ||
    ((IsRemote(ds[0], kbs) ==> Fetched(H, ds[0], got(base))) && AllFetched(H, ds[1..], kbs, got, base + 1))
  }

  /** Where the pass stops: one past the last remote dataset that is not fetched, or 0. */
  function Stopped(H: Content -> Digest, ds: seq<Dataset>, kbs: bool, got: Fetches, base: nat): (k: nat)
    ensures k <= |ds|
  {
    if ds == [] then
      0
    else
      var k := Stopped(H, ds[1..], kbs, got, base + 1);
      if k > 0 then k + 1
      else if IsRemote(ds[0], kbs) && !Fetched(H, ds[0], got(base)) then 1
      else 0
  }

  /** The datasets that are left for uploads. */
  function NotRemote(ds: seq<Dataset>, kbs: bool): seq<Dataset> {
    if ds == [] then []
    else if IsRemote(ds[0], kbs) then NotRemote(ds[1..], kbs)
    else [ds[0]] + NotRemote(ds[1..], kbs)
  }

  /** The remote datasets with what was fetched for them, last one first. */
  function Harvest(ds: seq<Dataset>, kbs: bool, got: Fetches, base: nat): seq<(Dataset, Content)> {
    if ds == [] then []
    else
      Harvest(ds[1..], kbs, got, base + 1)
      + if IsRemote(ds[0], kbs) && got(base).Some? then [(ds[0], got(base).value)] else []
  }

  /**
   Fetches the remote datasets from the last to the first and stops at the first failure: the
   datasets before that point stay as they were, those after it lose their remote members.
   */
  function RunDownloadDatasets(H: Content -> Digest, a: Agent, got: Fetches, delivered: bool): (a': Agent)
    ensures MachineUntouched(a, a')
  {
    var ds, kbs := a.pending, a.manifest.kbs;
    if !AnyRemote(ds, kbs) then
      a
    else
      var k := Stopped(H, ds, kbs, got, 0);
      var moved := a.(pending := ds[..k] + NotRemote(ds[k..], kbs),
                      stored := a.stored + Harvest(ds[k..], kbs, got, k));
      if k > 0 then Fail(moved, delivered)
      else if moved.pending == [] then Send(moved, DataReceived, delivered)
      else moved
  }

  /** The end of a run: `outcome` is the zipped result, or None when the run went wrong. */
  function FinishRun(a: Agent, of: nat, outcome: Option<Content>, delivered: bool): (a': Agent)
    ensures MachineUntouched(a, a') && BooksUntouched(a, a')
  {
    var done := if outcome.Some? then a.(result := outcome, resultOf := of) else a.(runError := true);
    Send(done, if done.runError then RunFailed else RunComplete, delivered)
  }

  // ---------------------------------------------------------------- runs

  datatype Step =
    | SendStart(delivered: bool)
    | Init(manifest: Manifest, delivered: bool)
    | Stop(cleaned: bool, delivered: bool)
    | Algo(upload: Upload, world: World)
    | Data(dataset: Content, filename: string, world: World)
    | Result(index: Option<int>, delivered: bool)
    | DoDownloadAlgorithm(world: World)
    | DoDownloadDatasets(got: Fetches, delivered: bool)
    | DoRun(of: nat, outcome: Option<Content>, delivered: bool)
    | HandleHeld
    | HandleOutlived(event: Event)
    | LoopEnds                             // the loop's context is cancelled while it waits

  function Took(a: Agent, act: Action): Agent {
    a.(actions := a.actions - multiset{act})
  }

  /** One step; a step that is not enabled changes nothing. */
  function Do(H: Content -> Digest, a: Agent, step: Step): Agent {
    match step
    case SendStart(delivered) => if a.state == Idle then Send(a, Start, delivered) else a
    case Init(m, delivered) => InitComputation(a, m, delivered).0
    case Stop(cleaned, delivered) => StopComputation(a, cleaned, delivered).0
    case Algo(upload, w) => AlgoRpc(H, a, upload, w).0
    case Data(upload, filename, w) => DataRpc(H, a, upload, filename, w).0
    case Result(index, delivered) => ResultRpc(a, index, delivered).0
    case DoDownloadAlgorithm(w) =>
      if DownloadAlgorithm in a.actions then RunDownloadAlgorithm(H, Took(a, DownloadAlgorithm), w) else a
    case DoDownloadDatasets(got, delivered) =>
      if DownloadDatasets in a.actions then RunDownloadDatasets(H, Took(a, DownloadDatasets), got, delivered) else a
    case DoRun(of, outcome, delivered) =>
      if RunComputation(of) in a.actions then FinishRun(Took(a, RunComputation(of)), of, outcome, delivered) else a
    case HandleHeld => Handle(a)
    case HandleOutlived(e) => HandleStale(a, e)
    case LoopEnds => if a.loop == Waiting then a.(loop := Dead) else a
  }

  function Run(H: Content -> Digest, a: Agent, steps: seq<Step>): Agent
    decreases |steps|
  {
    if steps == [] then a else Run(H, Do(H, a, steps[0]), steps[1..])
  }
}
