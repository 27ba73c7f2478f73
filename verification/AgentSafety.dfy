/** What every run of the agent keeps. */
module AgentSafety {
  import opened Results
  import opened AgentMachine

  // ---------------------------------------------------------------- the invariant

  /** The transition that is there whatever manifests have come and gone. */
  function Fixed(s: State, e: Event): Option<State> {
    match s
    case Idle => if e == Start then Some(ReceivingManifest) else None
    case ReceivingManifest => if e == ManifestReceived then Some(ReceivingAlgorithm) else None
    case ReceivingAlgorithm => if e == RunFailed then Some(Failed) else None
    case ReceivingData => if e == RunFailed then Some(Failed) else None
    case Running => if e == RunComplete then Some(ConsumingResults) else if e == RunFailed then Some(Failed) else None
    case ConsumingResults => if e == ResultsConsumed then Some(Complete) else None
    case Complete => None
    case Failed => None
  }

  predicate AddedByManifest(s: State, e: Event) {
    (s == ReceivingAlgorithm && e == AlgorithmReceived) || (s == ReceivingData && e == DataReceived)
  }

  /** The table is the initial one, except where manifests write; there it only ever leads forward. */
  ghost predicate Shaped(table: Table) {
    && (forall s, e :: !AddedByManifest(s, e) ==> Target(table, s, e) == Fixed(s, e))
    && (var s := Target(table, ReceivingAlgorithm, AlgorithmReceived); s.Some? ==>
        s.value == ReceivingData || s.value == Running)
    && (var s := Target(table, ReceivingData, DataReceived); s.Some? ==> s.value == Running)
  }

  /** The manifest's own entries of the table are those of the current manifest. */
  predicate Configured(table: Table, m: Manifest) {
    && Target(table, ReceivingAlgorithm, AlgorithmReceived)
         == Some(if m.datasets == [] then Running else ReceivingData)
    && (m.datasets != [] ==> Target(table, ReceivingData, DataReceived) == Some(Running))
  }

  predicate HasAlgorithm(H: Content -> Digest, a: Agent) {
    a.algo.Some? && H(a.algo.value) == a.manifest.algoHash
  }

  /** The declarations of the stored datasets. */
  function Declared(stored: seq<(Dataset, Content)>): (ds: seq<Dataset>)
    ensures |ds| == |stored|
    ensures forall i :: 0 <= i < |ds| ==> ds[i] == stored[i].0
  {
    seq(|stored|, i requires 0 <= i < |stored| => stored[i].0)
  }

  /** Every stored dataset has the content that its declared hash stands for. */
  predicate Matching(H: Content -> Digest, stored: seq<(Dataset, Content)>) {
    forall i :: 0 <= i < |stored| ==> H(stored[i].1) == stored[i].0.hash
  }

  /** No dataset is lost, duplicated or stored with other content than its declared hash stands for. */
  ghost predicate Conserved(H: Content -> Digest, pending: seq<Dataset>, stored: seq<(Dataset, Content)>,
          declared: seq<Dataset>) {
    && multiset(pending) + multiset(Declared(stored)) == multiset(declared)
    && Matching(H, stored)
  }

  function Rank(s: State): (r: nat)
    ensures r <= 6
  {
    match s
    case Idle => 0
    case ReceivingManifest => 1
    case ReceivingAlgorithm => 2
    case ReceivingData => 3
    case Running => 4
    case ConsumingResults => 5
    case Complete => 6
    case Failed => 6
  }

  /** What every run keeps: the table's shape, the account of the datasets, and the count of events. */
  ghost predicate Base(H: Content -> Digest, a: Agent) {
    Books(H, a.table, a.configured, a.manifest, a.pending, a.stored) && a.handled <= Rank(a.state)
  }

  ghost predicate Books(H: Content -> Digest, table: Table, configured: bool, m: Manifest, pending: seq<Dataset>,
                        stored: seq<(Dataset, Content)>)
  {
    && Shaped(table)
    && (configured ==> Configured(table, m))
    && (!configured ==> m.datasets == [])
    && Conserved(H, pending, stored, m.datasets)
  }

  /** `e` may be handled now: what it announces is the case. */
  predicate Justified(H: Content -> Digest, a: Agent, e: Event) {
    && (a.state == ReceivingAlgorithm && e == AlgorithmReceived ==> HasAlgorithm(H, a))
    && (a.state == ReceivingData && e == DataReceived ==> a.pending == [])
  }

  predicate PastAlgorithm(s: State) {
    s == ReceivingData || Started(s)
  }

  /** The computation has been started. */
  predicate Started(s: State) {
    s == Running || s == ConsumingResults || s == Complete
  }

  /** The state has been earned, and so has the event that the loop holds. */
  predicate Earned(H: Content -> Digest, a: Agent) {
    && (PastAlgorithm(a.state) ==> HasAlgorithm(H, a))
    && (Started(a.state) ==> a.pending == [])
    && (a.loop.Handling? ==> Justified(H, a, a.loop.event))
  }

  ghost predicate Inv(H: Content -> Digest, a: Agent) {
    Base(H, a) && Earned(H, a)
  }

  // ---------------------------------------------------------------- the table

  lemma AddTarget(table: Table, t: Transition)
    ensures forall s, e :: Target(Add(table, t), s, e) ==
                           if s == t.from && e == t.event then Some(t.to) else Target(table, s, e)
  {
  }

  lemma AddAllUnfold(table: Table, ts: seq<Transition>, t: Transition, rest: seq<Transition>)
    requires ts == [t] + rest
    ensures AddAll(table, ts) == AddAll(Add(table, t), rest)
  {
    assert ts[0] == t && ts[1..] == rest;
  }

  /** The first `n` initial transitions are in the table, and nothing else. */
  ghost predicate HasFirst(table: Table, n: nat)
    requires n <= 7
  {
    forall s, e :: Target(table, s, e) ==
      if exists i :: 0 <= i < n && INITIAL_TRANSITIONS[i].from == s && INITIAL_TRANSITIONS[i].event == e
      then Fixed(s, e) else None
  }

  lemma AddNext(table: Table, n: nat)
    requires n < 7 && HasFirst(table, n)
    ensures HasFirst(Add(table, INITIAL_TRANSITIONS[n]), n + 1)
  {
    AddTarget(table, INITIAL_TRANSITIONS[n]);
    assert Fixed(INITIAL_TRANSITIONS[n].from, INITIAL_TRANSITIONS[n].event) == Some(INITIAL_TRANSITIONS[n].to);
    hide Add, Target, Fixed;
  }

  lemma {:induction false} AddRest(table: Table, n: nat)
    requires n <= 7 && HasFirst(table, n)
    ensures HasFirst(AddAll(table, INITIAL_TRANSITIONS[n..]), 7)
    decreases 7 - n
  {
    hide HasFirst, Add;
    if n < 7 {
      var ts := INITIAL_TRANSITIONS;
      AddNext(table, n);
      AddAllUnfold(table, ts[n..], ts[n], ts[n + 1..]);
      AddRest(Add(table, ts[n]), n + 1);
    }
  }

  function IndexOf(s: State, e: Event): (i: nat)
    ensures i < 7
  {
    match s
    case Idle => 0
    case ReceivingManifest => 1
    case ReceivingAlgorithm => 2
    case ReceivingData => 3
    case Running => if e == RunComplete then 4 else 5
    case _ => 6
  }

  lemma FixedIsInitial(s: State, e: Event)
    requires Fixed(s, e).Some?
    ensures INITIAL_TRANSITIONS[IndexOf(s, e)].from == s && INITIAL_TRANSITIONS[IndexOf(s, e)].event == e
  {
  }

  lemma AllInitialIsFixed(table: Table)
    requires HasFirst(table, 7)
    ensures forall s, e :: Target(table, s, e) == Fixed(s, e)
  {
    hide Target, Fixed;
    forall s, e
      ensures Target(table, s, e) == Fixed(s, e)
    {
      if Fixed(s, e).Some? {
        FixedIsInitial(s, e);
      }
    }
  }

  /** The initial table holds the seven transitions and no other. */
  lemma InitialTableExactly()
    ensures var table := AddAll(map[], INITIAL_TRANSITIONS);
            Shaped(table) && forall s, e :: Target(table, s, e) == Fixed(s, e)
  {
    hide Target, AddAll, HasFirst, Shaped;
    EmptyHasNone();
    AddRest(map[], 0);
    assert INITIAL_TRANSITIONS[0..] == INITIAL_TRANSITIONS;
    var table := AddAll(map[], INITIAL_TRANSITIONS);
    AllInitialIsFixed(table);
    FixedIsShaped(table);
  }

  lemma EmptyHasNone()
    ensures HasFirst(map[], 0)
  {
  }

  lemma FixedIsShaped(table: Table)
    requires forall s, e :: Target(table, s, e) == Fixed(s, e)
    ensures Shaped(table)
  {
    hide Target;
  }

  predicate WrittenBy(m: Manifest, s: State, e: Event) {
    (s == ReceivingAlgorithm && e == AlgorithmReceived) || (m.datasets != [] && s == ReceivingData && e == DataReceived)
  }

  /** A manifest rewrites its own entries and nothing else, whatever earlier manifests left there. */
  lemma ManifestTable(table: Table, m: Manifest)
    requires Shaped(table)
    ensures var table' := AddAll(table, ManifestTransitions(m));
            && Shaped(table') && Configured(table', m)
            && forall s, e :: !WrittenBy(m, s, e) ==> Target(table', s, e) == Target(table, s, e)
  {
    hide Target, Add, Fixed;
    var ts := ManifestTransitions(m);
    AddAllUnfold(table, ts, ts[0], ts[1..]);
    AddTarget(table, ts[0]);
    if m.datasets != [] {
      AddAllUnfold(Add(table, ts[0]), ts[1..], ts[1], []);
      AddTarget(Add(table, ts[0]), ts[1]);
    }
  }

  // ---------------------------------------------------------------- moving datasets

  lemma DeclaredOfConcat(x: seq<(Dataset, Content)>, y: seq<(Dataset, Content)>)
    ensures Declared(x + y) == Declared(x) + Declared(y)
  {
  }

  lemma WithoutMultiset<T>(s: seq<T>, k: nat)
    requires k < |s|
    ensures multiset(Without(s, k)) + multiset{s[k]} == multiset(s)
  {
    assert s == s[..k] + [s[k]] + s[k + 1..];
  }

  /** After the point where the pass stops, everything was fetched; the dataset at that point was not. */
  lemma {:induction false} StoppedMeans(H: Content -> Digest, ds: seq<Dataset>, kbs: bool, got: Fetches, base: nat)
    ensures var k := Stopped(H, ds, kbs, got, base);
            && AllFetched(H, ds[k..], kbs, got, base + k)
            && (k > 0 ==> IsRemote(ds[k - 1], kbs) && !Fetched(H, ds[k - 1], got(base + k - 1)))
    decreases |ds|
  {
    if ds != [] {
      StoppedMeans(H, ds[1..], kbs, got, base + 1);
      var k := Stopped(H, ds[1..], kbs, got, base + 1);
      if k > 0 {
        assert ds[1..][k..] == ds[k + 1..];
        assert ds[1..][k - 1] == ds[k];
      } else {
        assert ds[1..][0..] == ds[1..];
        assert ds[0..] == ds;
      }
    }
  }

  /** The backwards pass takes out of the list exactly what it stores... */
  lemma {:induction false} PassMoves(H: Content -> Digest, ds: seq<Dataset>, kbs: bool, got: Fetches, base: nat)
    requires AllFetched(H, ds, kbs, got, base)
    ensures multiset(NotRemote(ds, kbs)) + multiset(Declared(Harvest(ds, kbs, got, base))) == multiset(ds)
    decreases |ds|
  {
    if ds != [] {
      PassMoves(H, ds[1..], kbs, got, base + 1);
      var rest := Harvest(ds[1..], kbs, got, base + 1);
      assert ds == [ds[0]] + ds[1..];
      if IsRemote(ds[0], kbs) {
        DeclaredOfConcat(rest, [(ds[0], got(base).value)]);
        assert Declared([(ds[0], got(base).value)]) == [ds[0]];
      } else {
        assert rest + [] == rest;
      }
    }
  }

  lemma MatchingConcat(H: Content -> Digest, x: seq<(Dataset, Content)>, y: seq<(Dataset, Content)>)
    requires Matching(H, x) && Matching(H, y)
    ensures Matching(H, x + y)
  {
  }

  /** ... and stores only content with the declared hash. */
  lemma {:induction false} PassMatches(H: Content -> Digest, ds: seq<Dataset>, kbs: bool, got: Fetches, base: nat)
    requires AllFetched(H, ds, kbs, got, base)
    ensures Matching(H, Harvest(ds, kbs, got, base))
    decreases |ds|
  {
    if ds != [] {
      PassMatches(H, ds[1..], kbs, got, base + 1);
      var rest := Harvest(ds[1..], kbs, got, base + 1);
      if IsRemote(ds[0], kbs) {
        MatchingConcat(H, rest, [(ds[0], got(base).value)]);
      } else {
        MatchingConcat(H, rest, []);
      }
    }
  }

  lemma {:induction false} CleanPassNotStopped(H: Content -> Digest, ds: seq<Dataset>, kbs: bool, got: Fetches,
          base: nat)
    ensures AllFetched(H, ds, kbs, got, base) <==> Stopped(H, ds, kbs, got, base) == 0
    decreases |ds|
  {
    if ds != [] {
      CleanPassNotStopped(H, ds[1..], kbs, got, base + 1);
    }
  }

  /** When nothing fails, what is left is the non-remote datasets, in their original order. */
  lemma CleanPassLeavesUploads(H: Content -> Digest, a: Agent, got: Fetches, delivered: bool)
    requires AnyRemote(a.pending, a.manifest.kbs)
    requires AllFetched(H, a.pending, a.manifest.kbs, got, 0)
    ensures var a' := RunDownloadDatasets(H, a, got, delivered);
            a'.pending == NotRemote(a.pending, a.manifest.kbs) && a'.runError == a.runError
  {
    var ds := a.pending;
    CleanPassNotStopped(H, ds, a.manifest.kbs, got, 0);
    assert ds[0..] == ds && ds[..0] == [];
  }

  // ---------------------------------------------------------------- what every run keeps

  lemma EmptyManifestNothingPending(H: Content -> Digest, a: Agent)
    requires Conserved(H, a.pending, a.stored, []) && a.manifest.datasets == []
    ensures a.pending == []
  {
    assert |multiset(a.pending) + multiset(Declared(a.stored))| == 0;
  }

  lemma DatasetsStored(H: Content -> Digest, a: Agent, pending: seq<Dataset>, more: seq<(Dataset, Content)>)
    requires Base(H, a)
    requires multiset(pending) + multiset(Declared(more)) == multiset(a.pending)
    requires Matching(H, more)
    ensures Base(H, a.(pending := pending, stored := a.stored + more))
  {
    hide Shaped, Configured, Rank, Declared, Matching;
    MatchingConcat(H, a.stored, more);
    DeclaredOfConcat(a.stored, more);
  }

  lemma InitKeepsBase(H: Content -> Digest, a: Agent, m: Manifest, delivered: bool)
    requires Base(H, a)
    ensures Base(H, InitComputation(a, m, delivered).0)
  {
    hide Shaped, Configured, Conserved, AddAll, ManifestTransitions, Rank;
    BaseShapes(H, a);
    ManifestTable(a.table, m);
    NothingStored(H, m.datasets);
  }

  lemma NothingStored(H: Content -> Digest, ds: seq<Dataset>)
    ensures Conserved(H, ds, [], ds)
  {
  }

  lemma StopKeepsBase(H: Content -> Digest, a: Agent, cleaned: bool, delivered: bool)
    requires Base(H, a)
    ensures Base(H, StopComputation(a, cleaned, delivered).0)
  {
    hide Shaped, Configured, Conserved, Zeros;
    NothingStored(H, []);
  }

  lemma DataKeepsBase(H: Content -> Digest, a: Agent, upload: Content, filename: string, w: World)
    requires Base(H, a)
    ensures Base(H, DataRpc(H, a, upload, filename, w).0)
  {
    hide Books, Without, Rank;
    var (a', reply) := DataRpc(H, a, upload, filename, w);
    if reply == Done {
      var r := FirstRemote(a.pending, a.manifest.kbs);
      var data := if r < |a.pending| then w.download.value else upload;
      var k := FirstWithHash(a.pending, H(data));
      var more := [(a.pending[k], data)];
      WithoutMultiset(a.pending, k);
      assert Declared(more) == [a.pending[k]];
      DatasetsStored(H, a, Without(a.pending, k), more);
    }
  }

  lemma Rebalance<T>(all: seq<T>, k: nat, left: seq<T>, moved: seq<T>)
    requires k <= |all| && multiset(left) + multiset(moved) == multiset(all[k..])
    ensures multiset(all[..k] + left) + multiset(moved) == multiset(all)
  {
    assert all == all[..k] + all[k..];
  }

  lemma PassBalance(H: Content -> Digest, ds: seq<Dataset>, kbs: bool, got: Fetches, k: nat)
    requires k <= |ds| && AllFetched(H, ds[k..], kbs, got, k)
    ensures multiset(ds[..k] + NotRemote(ds[k..], kbs)) + multiset(Declared(Harvest(ds[k..], kbs, got, k))) ==
              multiset(ds)
    ensures Matching(H, Harvest(ds[k..], kbs, got, k))
  {
    hide AllFetched, Harvest, NotRemote, Declared, Matching;
    PassMatches(H, ds[k..], kbs, got, k);
    PassMoves(H, ds[k..], kbs, got, k);
    Rebalance(ds, k, NotRemote(ds[k..], kbs), Declared(Harvest(ds[k..], kbs, got, k)));
  }

  lemma PassStored(H: Content -> Digest, a: Agent, got: Fetches)
    requires Base(H, a)
    ensures var ds, kbs := a.pending, a.manifest.kbs;
            var k := Stopped(H, ds, kbs, got, 0);
            Base(H, a.(pending := ds[..k] + NotRemote(ds[k..], kbs),
                stored := a.stored + Harvest(ds[k..], kbs, got, k)))
  {
    hide Base, Harvest, Matching, Declared, AllFetched, Stopped, NotRemote;
    var ds, kbs := a.pending, a.manifest.kbs;
    var k := Stopped(H, ds, kbs, got, 0);
    StoppedMeans(H, ds, kbs, got, 0);
    PassBalance(H, ds, kbs, got, k);
    DatasetsStored(H, a, ds[..k] + NotRemote(ds[k..], kbs), Harvest(ds[k..], kbs, got, k));
  }

  lemma DownloadDatasetsKeepsBase(H: Content -> Digest, a: Agent, got: Fetches, delivered: bool)
    requires Base(H, a)
    ensures Base(H, RunDownloadDatasets(H, a, got, delivered))
  {
    hide Books, Rank, Stopped, Harvest, NotRemote;
    PassStored(H, a, got);
  }

  /** Every transition leads to a state of higher rank. */
  lemma TransitionsRaiseRank(table: Table, s: State, e: Event)
    requires Shaped(table) && Target(table, s, e).Some?
    ensures Rank(Target(table, s, e).value) > Rank(s)
  {
    hide Target;
    if !AddedByManifest(s, e) {
      FixedTarget(table, s, e);
    }
  }

  lemma BaseShapes(H: Content -> Digest, a: Agent)
    requires Base(H, a)
    ensures Shaped(a.table)
  {
    hide Shaped, Configured, Conserved, Rank;
  }

  lemma FixedTarget(table: Table, s: State, e: Event)
    requires Shaped(table) && !AddedByManifest(s, e)
    ensures Target(table, s, e) == Fixed(s, e)
  {
    hide Target, Fixed;
  }

  lemma MoveKeepsBase(H: Content -> Digest, a: Agent, step: Step)
    requires Base(H, a) && (step.HandleHeld? || step.HandleOutlived?)
    ensures Base(H, Do(H, a, step))
  {
    hide Books, Target, Shaped, Rank, ActionsOn;
    var e := if step.HandleOutlived? then step.event else if a.loop.Handling? then a.loop.event else Start;
    BaseShapes(H, a);
    if Target(a.table, a.state, e).Some? {
      TransitionsRaiseRank(a.table, a.state, e);
    }
  }

  /** No step of any kind, an outlived event included, touches the account. */
  lemma StepKeepsBase(H: Content -> Digest, a: Agent, step: Step)
    requires Base(H, a)
    ensures Base(H, Do(H, a, step))
  {
    hide Books, Rank, InitComputation, StopComputation, DataRpc, RunDownloadDatasets, AlgoRpc, RunDownloadAlgorithm,
      ResultRpc, FinishRun, Handle, HandleStale;
    match step
    case Init(m, delivered) => InitKeepsBase(H, a, m, delivered);
    case Stop(cleaned, delivered) => StopKeepsBase(H, a, cleaned, delivered);
    case Data(upload, filename, w) => DataKeepsBase(H, a, upload, filename, w);
    case DoDownloadDatasets(got, delivered) =>
      DownloadDatasetsKeepsBase(H, Took(a, DownloadDatasets), got, delivered);
    case HandleHeld => MoveKeepsBase(H, a, step);
    case HandleOutlived(e) => MoveKeepsBase(H, a, step);
    case _ =>
      BooksStay(H, a, step);
  }

  lemma BooksStay(H: Content -> Digest, a: Agent, step: Step)
    requires Base(H, a)
    requires step.SendStart? || step.Algo? || step.Result? || step.DoDownloadAlgorithm? || step.DoRun? || step.LoopEnds?
    ensures Base(H, Do(H, a, step))
  {
    hide Books, Rank, Send, AlgoRpc, ResultRpc, RunDownloadAlgorithm, FinishRun, InitComputation, StopComputation,
         DataRpc,
      RunDownloadDatasets, Handle, HandleStale;
  }

  lemma {:induction false} RunKeepsBase(H: Content -> Digest, a: Agent, steps: seq<Step>)
    requires Base(H, a)
    ensures Base(H, Run(H, a, steps))
    decreases |steps|
  {
    hide Base, Do;
    if steps != [] {
      StepKeepsBase(H, a, steps[0]);
      RunKeepsBase(H, Do(H, a, steps[0]), steps[1..]);
    }
  }

  lemma FreshBase(H: Content -> Digest)
    ensures Base(H, Fresh())
  {
    hide Shaped, Configured, Conserved, AddAll, Zeros;
    InitialTableExactly();
    NothingStored(H, []);
  }

  lemma ReachableBase(H: Content -> Digest, steps: seq<Step>)
    ensures Base(H, Run(H, Fresh(), steps))
  {
    hide Base, Run;
    FreshBase(H);
    RunKeepsBase(H, Fresh(), steps);
  }

  /** In every run pending and stored datasets together are the manifest's, and contents match hashes. */
  lemma DatasetsAreConserved(H: Content -> Digest, steps: seq<Step>)
    ensures var a := Run(H, Fresh(), steps);
            && multiset(a.pending) + multiset(Declared(a.stored)) == multiset(a.manifest.datasets)
            && (forall i :: 0 <= i < |a.stored| ==> H(a.stored[i].1) == a.stored[i].0.hash)
  {
    hide Run, Shaped, Configured;
    ReachableBase(H, steps);
  }

  /**
   The table keeps entries of old manifests, but once a manifest has arrived the received algorithm
   leads where that manifest says; in every run.
   */
  lemma AlgorithmLeadsWhereManifestSays(H: Content -> Digest, steps: seq<Step>)
    ensures var a := Run(H, Fresh(), steps);
            a.configured ==>
              (Target(a.table, ReceivingAlgorithm, AlgorithmReceived) == Some(Running) <==> a.manifest.datasets == [])
  {
    hide Run, Shaped, Target, Conserved;
    ReachableBase(H, steps);
  }

  /** In every run at most six events are handled between two resets. */
  lemma AtMostSixEvents(H: Content -> Digest, steps: seq<Step>)
    ensures Run(H, Fresh(), steps).handled <= Rank(Run(H, Fresh(), steps).state) <= 6
  {
    hide Run, Shaped, Conserved;
    ReachableBase(H, steps);
  }

  /** In every run Complete and Failed are left only by a stop that gets to its reset. */
  lemma FinalStatesAbsorb(H: Content -> Digest, steps: seq<Step>, step: Step)
    requires !(step.Stop? && step.cleaned)
    ensures var a := Run(H, Fresh(), steps);
            a.state == Complete || a.state == Failed ==> Do(H, a, step).state == a.state
  {
    hide Base, Run, Shaped, Do;
    ReachableBase(H, steps);
    BaseShapes(H, Run(H, Fresh(), steps));
    FinalStateStays(H, Run(H, Fresh(), steps), step);
  }

  lemma FinalStateStays(H: Content -> Digest, a: Agent, step: Step)
    requires Shaped(a.table) && !(step.Stop? && step.cleaned)
    ensures a.state == Complete || a.state == Failed ==> Do(H, a, step).state == a.state
  {
    hide Shaped, Send, InitComputation, AlgoRpc, DataRpc, ResultRpc, RunDownloadAlgorithm, RunDownloadDatasets,
      FinishRun, Target;
    if a.state == Complete || a.state == Failed {
      forall e
        ensures Target(a.table, a.state, e) == None
      {
        FixedTarget(a.table, a.state, e);
      }
    }
  }

  // ---------------------------------------------------------------- every step earns its state

  lemma SendKeeps(H: Content -> Digest, a: Agent, e: Event, delivered: bool)
    requires Earned(H, a) && Justified(H, a, e)
    ensures Earned(H, Send(a, e, delivered))
  {
  }

  lemma FailKeeps(H: Content -> Digest, a: Agent, delivered: bool)
    requires Earned(H, a)
    ensures Earned(H, Fail(a, delivered))
  {
  }

  lemma AlgorithmStored(H: Content -> Digest, a: Agent, data: Content, settings: Settings)
    requires Earned(H, a) && H(data) == a.manifest.algoHash
    ensures var b := a.(algo := Some(data), settings := settings); Earned(H, b) && HasAlgorithm(H, b)
  {
  }

  lemma SettingsAreApart(H: Content -> Digest, a: Agent, settings: Settings)
    requires Earned(H, a)
    ensures Earned(H, a.(settings := settings))
  {
  }

  lemma DatasetsTaken(H: Content -> Digest, a: Agent, pending: seq<Dataset>, stored: seq<(Dataset, Content)>)
    requires Earned(H, a) && (a.pending == [] ==> pending == [])
    ensures Earned(H, a.(pending := pending, stored := stored))
  {
  }

  lemma InitKeeps(H: Content -> Digest, a: Agent, m: Manifest, delivered: bool)
    requires Earned(H, a)
    ensures Earned(H, InitComputation(a, m, delivered).0)
  {
    hide AddAll, ManifestTransitions;
  }

  lemma StopKeeps(H: Content -> Digest, a: Agent, cleaned: bool, delivered: bool)
    requires Earned(H, a)
    ensures Earned(H, StopComputation(a, cleaned, delivered).0)
  {
    hide Zeros;
  }

  lemma AlgoKeeps(H: Content -> Digest, a: Agent, upload: Upload, w: World)
    requires Earned(H, a)
    ensures Earned(H, AlgoRpc(H, a, upload, w).0)
  {
    hide Earned, Send;
    var data := if AlgoIsRemote(a) && w.download.Some? then w.download.value else upload.content;
    SettingsAreApart(H, a, WithRequirements(a, w).settings);
    if H(data) == a.manifest.algoHash {
      var marked := Marked(a, data, upload.settings);
      AlgorithmStored(H, a, data, marked.settings);
      SendKeeps(H, marked, AlgorithmReceived, w.delivered);
    }
  }

  lemma DataKeeps(H: Content -> Digest, a: Agent, upload: Content, filename: string, w: World)
    requires Earned(H, a)
    ensures Earned(H, DataRpc(H, a, upload, filename, w).0)
  {
    hide Earned, Send, Without;
    var (a', reply) := DataRpc(H, a, upload, filename, w);
    if reply == Done {
      var r := FirstRemote(a.pending, a.manifest.kbs);
      var data := if r < |a.pending| then w.download.value else upload;
      var moved := Stored(a, FirstWithHash(a.pending, H(data)), data);
      DatasetsTaken(H, a, moved.pending, moved.stored);
      if moved.pending == [] {
        SendKeeps(H, moved, DataReceived, w.delivered);
      }
    }
  }

  lemma ResultKeeps(H: Content -> Digest, a: Agent, index: Option<int>, delivered: bool)
    requires Earned(H, a)
    ensures Earned(H, ResultRpc(a, index, delivered).0)
  {
  }

  lemma DownloadAlgorithmKeeps(H: Content -> Digest, a: Agent, w: World)
    requires Earned(H, a)
    ensures Earned(H, RunDownloadAlgorithm(H, a, w))
  {
    hide Earned, Send, Fail;
    FailKeeps(H, a, w.delivered);
    if w.download.Some? && H(w.download.value) == a.manifest.algoHash {
      var marked := Marked(a, w.download.value, Settings(w.requirements, a.manifest.algoType, a.manifest.algoArgs));
      var part := WithRequirements(a, w).(algo := Some(w.download.value));
      AlgorithmStored(H, a, w.download.value, marked.settings);
      AlgorithmStored(H, a, w.download.value, part.settings);
      FailKeeps(H, part, w.delivered);
      SendKeeps(H, marked, AlgorithmReceived, w.delivered);
    }
  }

  lemma DownloadDatasetsKeeps(H: Content -> Digest, a: Agent, got: Fetches, delivered: bool)
    requires Earned(H, a)
    ensures Earned(H, RunDownloadDatasets(H, a, got, delivered))
  {
    hide Earned, Send, Fail, Stopped, Harvest, NotRemote;
    var ds, kbs := a.pending, a.manifest.kbs;
    if AnyRemote(ds, kbs) {
      var k := Stopped(H, ds, kbs, got, 0);
      var moved := a.(pending := ds[..k] + NotRemote(ds[k..], kbs), stored := a.stored + Harvest(ds[k..], kbs, got, k));
      DatasetsTaken(H, a, moved.pending, moved.stored);
      FailKeeps(H, moved, delivered);
      if moved.pending == [] {
        SendKeeps(H, moved, DataReceived, delivered);
      }
    }
  }

  lemma FinishRunKeeps(H: Content -> Digest, a: Agent, of: nat, outcome: Option<Content>, delivered: bool)
    requires Earned(H, a)
    ensures Earned(H, FinishRun(a, of, outcome, delivered))
  {
  }

  /** Handling a justified event earns the state it leads to. */
  lemma EnterKeeps(H: Content -> Digest, a: Agent, e: Event)
    requires Inv(H, a) && Justified(H, a, e) && !a.loop.Handling? && Target(a.table, a.state, e).Some?
    ensures Earned(H, Enter(a, Target(a.table, a.state, e).value))
  {
    hide Base, Earned, Target, Shaped, Justified, Enter, Fixed;
    if AddedByManifest(a.state, e) {
      EnterByManifest(H, a, e);
    } else {
      BaseShapes(H, a);
      FixedTarget(a.table, a.state, e);
      EnterFixed(H, a, e);
    }
  }

  lemma EnterFixed(H: Content -> Digest, a: Agent, e: Event)
    requires Earned(H, a) && Justified(H, a, e) && !a.loop.Handling? && Fixed(a.state, e).Some?
    ensures Earned(H, Enter(a, Fixed(a.state, e).value))
  {
    hide ActionsOn;
  }

  lemma EnterByManifest(H: Content -> Digest, a: Agent, e: Event)
    requires Inv(H, a) && Justified(H, a, e) && !a.loop.Handling? && Target(a.table, a.state, e).Some?
    requires AddedByManifest(a.state, e)
    ensures Earned(H, Enter(a, Target(a.table, a.state, e).value))
  {
    hide Conserved, Target, Shaped, ActionsOn, Rank;
    if a.manifest.datasets == [] {
      EmptyManifestNothingPending(H, a);
    }
  }

  /** The state's part says of the loop only that the event it holds is justified. */
  lemma LoopIsApart(H: Content -> Digest, a: Agent, idle: Agent)
    requires idle == a.(loop := idle.loop) && !idle.loop.Handling?
    ensures Earned(H, a) <==> Earned(H, idle) && (a.loop.Handling? ==> Justified(H, a, a.loop.event))
    ensures forall e :: Justified(H, a, e) == Justified(H, idle, e)
    ensures Base(H, a) <==> Base(H, idle)
  {
    hide Books, Rank;
  }

  lemma HandleKeeps(H: Content -> Digest, a: Agent)
    requires Inv(H, a)
    ensures Earned(H, Handle(a))
  {
    hide Base, Earned, Target, ActionsOn;
    if a.loop.Handling? {
      LoopIsApart(H, a, a.(loop := Waiting));
      LoopIsApart(H, a, a.(loop := Dead));
      if Target(a.table, a.state, a.loop.event).Some? {
        EnterKeeps(H, a.(loop := Waiting), a.loop.event);
      }
    }
  }

  // ---------------------------------------------------------------- events that outlive a stop

  /** The event that the current loop holds would also be justified in the state that `e` leads to. */
  predicate HeldStaysJustified(H: Content -> Digest, a: Agent, e: Event) {
    var next := Target(a.table, a.state, e);
    a.loop.Handling? && next.Some? ==> Justified(H, a.(state := next.value), a.loop.event)
  }

  /**
   An event held by a loop that a stop has replaced keeps the invariant exactly when, if it leads
   anywhere, it is justified under the manifest it meets and leads to a state in which the event that
   the new loop holds is justified too: the state check happened before the stop, so nothing else
   protects it.
   */
  lemma StaleEventExactly(H: Content -> Digest, a: Agent, e: Event)
    requires Inv(H, a) && e in a.stale
    ensures Earned(H, HandleStale(a, e)) <==>
            (Target(a.table, a.state, e).Some? ==> Justified(H, a, e) && HeldStaysJustified(H, a, e))
  {
    hide Base, Earned, HandleStale, Justified, Target;
    var idle := a.(loop := Waiting);
    LoopIsApart(H, a, idle);
    StaleEventAlone(H, idle, e);
    StaleMoves(a, e);
    StaleMoves(idle, e);
    LoopIsApart(H, HandleStale(a, e), HandleStale(idle, e));
    if a.loop.Handling? {
      JustifiedByState(H, a, HandleStale(a, e), a.loop.event);
    }
  }

  /** Whether an event is justified depends on four components only. */
  lemma JustifiedByState(H: Content -> Digest, a: Agent, b: Agent, e: Event)
    requires b.configured == a.configured && b.algo == a.algo && b.manifest == a.manifest && b.pending == a.pending
    ensures Justified(H, b, e) == Justified(H, a.(state := b.state), e)
  {
  }

  lemma StaleMoves(a: Agent, e: Event)
    requires e in a.stale
    ensures var next := Target(a.table, a.state, e);
            var s := if next.Some? then next.value else a.state;
            HandleStale(a, e) == a.(
              stale := a.stale - multiset{e}, state := s,
              actions := a.actions + if next.Some? then ActionsOn(s, a.epoch) else multiset{},
              handled := a.handled + if next.Some? then 1 else 0)
  {
    hide Target, ActionsOn;
  }

  lemma StaleEventAlone(H: Content -> Digest, a: Agent, e: Event)
    requires Inv(H, a) && !a.loop.Handling? && e in a.stale
    ensures Earned(H, HandleStale(a, e)) <==> (Target(a.table, a.state, e).Some? ==> Justified(H, a, e))
  {
    hide Base, Earned, Target, Justified, ActionsOn;
    var a0 := a.(stale := a.stale - multiset{e});
    StaleIsApart(H, a, a0);
    if Target(a.table, a.state, e).Some? {
      if Justified(H, a, e) {
        EnterKeeps(H, a0, e);
      } else {
        Unjustified(H, a0, e);
      }
    }
  }

  lemma StaleIsApart(H: Content -> Digest, a: Agent, b: Agent)
    requires b == a.(stale := b.stale)
    ensures Base(H, a) == Base(H, b) && Earned(H, a) == Earned(H, b)
    ensures forall e :: Justified(H, a, e) == Justified(H, b, e)
  {
    hide Books, Rank;
  }

  lemma Unjustified(H: Content -> Digest, a: Agent, e: Event)
    requires Inv(H, a) && Target(a.table, a.state, e).Some? && !Justified(H, a, e)
    ensures !Earned(H, Enter(a, Target(a.table, a.state, e).value))
  {
    hide Conserved, Target, Rank, ActionsOn;
  }

  /** A stop overtakes the event that the loop holds. */
  predicate Overtakes(a: Agent, step: Step) {
    step.Stop? && step.cleaned && a.loop.Handling?
  }

  /** A step that lets an outlived event meet a state it is not justified in. */
  predicate Harmful(H: Content -> Digest, a: Agent, step: Step) {
    step.HandleOutlived? && step.event in a.stale && Target(a.table, a.state, step.event).Some?
    && !(Justified(H, a, step.event) && HeldStaysJustified(H, a, step.event))
  }

  /** Only an outlived event can break the invariant, and a harmful one does. */
  lemma StepKeepsExactly(H: Content -> Digest, a: Agent, step: Step)
    requires Inv(H, a)
    ensures Inv(H, Do(H, a, step)) <==> !Harmful(H, a, step)
  {
    hide HeldStaysJustified, Base, Earned, Send, InitComputation, StopComputation, AlgoRpc, DataRpc, ResultRpc,
      RunDownloadAlgorithm, RunDownloadDatasets, FinishRun, Handle, HandleStale;
    StepKeepsBase(H, a, step);
    match step
    case SendStart(delivered) => SendStartKeeps(H, a, delivered);
    case Init(m, delivered) => InitKeeps(H, a, m, delivered);
    case Stop(cleaned, delivered) => StopKeeps(H, a, cleaned, delivered);
    case Algo(upload, w) => AlgoKeeps(H, a, upload, w);
    case Data(upload, filename, w) => DataKeeps(H, a, upload, filename, w);
    case Result(index, delivered) => ResultKeeps(H, a, index, delivered);
    case DoDownloadAlgorithm(w) =>
      TookKeeps(H, a, DownloadAlgorithm);
      DownloadAlgorithmKeeps(H, Took(a, DownloadAlgorithm), w);
    case DoDownloadDatasets(got, delivered) =>
      TookKeeps(H, a, DownloadDatasets);
      DownloadDatasetsKeeps(H, Took(a, DownloadDatasets), got, delivered);
    case DoRun(of, outcome, delivered) =>
      TookKeeps(H, a, RunComputation(of));
      FinishRunKeeps(H, Took(a, RunComputation(of)), of, outcome, delivered);
    case HandleHeld => HandleKeeps(H, a);
    case HandleOutlived(e) =>
      if e in a.stale { StaleEventExactly(H, a, e); } else { NotStale(a, e); }
    case LoopEnds => LoopEndsKeeps(H, a);
  }

  lemma SendStartKeeps(H: Content -> Digest, a: Agent, delivered: bool)
    requires Earned(H, a)
    ensures Earned(H, if a.state == Idle then Send(a, Start, delivered) else a)
  {
  }

  lemma NotStale(a: Agent, e: Event)
    requires e !in a.stale
    ensures HandleStale(a, e) == a
  {
  }

  lemma TookKeeps(H: Content -> Digest, a: Agent, act: Action)
    requires Earned(H, a)
    ensures Earned(H, Took(a, act))
  {
  }

  lemma LoopEndsKeeps(H: Content -> Digest, a: Agent)
    requires Earned(H, a)
    ensures Earned(H, if a.loop == Waiting then a.(loop := Dead) else a)
  {
  }

  /** No step of the run lets an outlived event do harm. */
  predicate Harmless(H: Content -> Digest, a: Agent, steps: seq<Step>)
    decreases |steps|
  {
    steps == [] || (!Harmful(H, a, steps[0]) && Harmless(H, Do(H, a, steps[0]), steps[1..]))
  }

  /** Every stop of the run comes while the loop is not between receiving an event and handling it. */
  predicate StopsBetweenEvents(H: Content -> Digest, a: Agent, steps: seq<Step>)
    decreases |steps|
  {
    steps == [] || (!Overtakes(a, steps[0]) && StopsBetweenEvents(H, Do(H, a, steps[0]), steps[1..]))
  }

  /** The invariant holds before the run and after each of its steps. */
  ghost predicate Throughout(H: Content -> Digest, a: Agent, steps: seq<Step>)
    decreases |steps|
  {
    Inv(H, a) && (steps == [] || Throughout(H, Do(H, a, steps[0]), steps[1..]))
  }

  /** A run keeps the invariant throughout exactly when no outlived event does harm in it. */
  lemma {:induction false} ThroughoutExactly(H: Content -> Digest, a: Agent, steps: seq<Step>)
    requires Inv(H, a)
    ensures Throughout(H, a, steps) <==> Harmless(H, a, steps)
    decreases |steps|
  {
    hide Inv, Do, Harmful;
    if steps != [] {
      StepKeepsExactly(H, a, steps[0]);
      if !Harmful(H, a, steps[0]) {
        ThroughoutExactly(H, Do(H, a, steps[0]), steps[1..]);
      }
    }
  }

  lemma StaleOnlyFromOvertaking(H: Content -> Digest, a: Agent, step: Step)
    requires a.stale == multiset{} && !Overtakes(a, step)
    ensures Do(H, a, step).stale == multiset{}
  {
    hide Send, InitComputation, AlgoRpc, DataRpc, ResultRpc, RunDownloadAlgorithm, RunDownloadDatasets, FinishRun,
        Target;
  }

  /** Stops that wait for the loop to finish its event are enough. */
  lemma {:induction false} CarefulStopsAreHarmless(H: Content -> Digest, a: Agent, steps: seq<Step>)
    requires a.stale == multiset{} && StopsBetweenEvents(H, a, steps)
    ensures Harmless(H, a, steps)
    decreases |steps|
  {
    hide Do, Overtakes;
    if steps != [] {
      StaleOnlyFromOvertaking(H, a, steps[0]);
      CarefulStopsAreHarmless(H, Do(H, a, steps[0]), steps[1..]);
    }
  }

  lemma FreshInv(H: Content -> Digest)
    ensures Inv(H, Fresh())
  {
    hide Base, AddAll, Zeros;
    FreshBase(H);
  }

  /** An outlived event has done harm since the last clean stop; `before`: it had when the run began. */
  predicate Harmed(H: Content -> Digest, a: Agent, steps: seq<Step>, before: bool)
    decreases |steps|
  {
    if steps == [] then before
    else Harmed(H, Do(H, a, steps[0]), steps[1..], !CleanStop(steps[0]) && (before || Harmful(H, a, steps[0])))
  }

  predicate CleanStop(step: Step) {
    step.Stop? && step.cleaned
  }

  /** A clean stop restores the invariant, whatever came before it. */
  lemma CleanStopRestores(H: Content -> Digest, a: Agent, step: Step)
    requires Base(H, a) && CleanStop(step)
    ensures Inv(H, Do(H, a, step))
  {
    hide Base, Zeros;
    StepKeepsBase(H, a, step);
  }

  lemma {:induction false} UnharmedKeeps(H: Content -> Digest, a: Agent, steps: seq<Step>, before: bool)
    requires Base(H, a) && (before || Inv(H, a)) && !Harmed(H, a, steps, before)
    ensures Inv(H, Run(H, a, steps))
    decreases |steps|
  {
    hide Base, Earned, Do, Harmful, CleanStop;
    if steps != [] {
      var step := steps[0];
      StepKeepsBase(H, a, step);
      if CleanStop(step) {
        CleanStopRestores(H, a, step);
      } else if !before {
        StepKeepsExactly(H, a, step);
      }
      UnharmedKeeps(H, Do(H, a, step), steps[1..], !CleanStop(step) && (before || Harmful(H, a, step)));
    }
  }

  /** The invariant holds after every run in which no outlived event did harm since its last clean stop. */
  lemma ReachableInv(H: Content -> Digest, steps: seq<Step>)
    requires !Harmed(H, Fresh(), steps, false)
    ensures Inv(H, Run(H, Fresh(), steps))
  {
    hide Base, Earned, Run, Harmed;
    FreshInv(H);
    UnharmedKeeps(H, Fresh(), steps, false);
  }

  lemma {:induction false} HarmlessIsUnharmed(H: Content -> Digest, a: Agent, steps: seq<Step>)
    requires Harmless(H, a, steps)
    ensures !Harmed(H, a, steps, false)
    decreases |steps|
  {
    hide Do, Harmful, CleanStop;
    if steps != [] {
      HarmlessIsUnharmed(H, Do(H, a, steps[0]), steps[1..]);
    }
  }

  /**
   Safety: a computation that runs, or has run, has the algorithm that its manifest names and waits
   for no dataset; whatever events were dropped, loops ended, downloads failed, and however often
   the agent was stopped and given another manifest, if only no outlived event has done harm since
   the last clean stop.
   */
  lemma RunsOnlyWhatWasDeclared(H: Content -> Digest, steps: seq<Step>)
    requires !Harmed(H, Fresh(), steps, false)
    ensures var a := Run(H, Fresh(), steps);
            Started(a.state) ==>
              && a.algo.Some? && H(a.algo.value) == a.manifest.algoHash
              && a.pending == [] && multiset(Declared(a.stored)) == multiset(a.manifest.datasets)
  {
    hide Run, Base, Harmed, Declared;
    ReachableInv(H, steps);
    DatasetsAreConserved(H, steps);
  }

  // ---------------------------------------------------------------- safety, exactly

  /** Everything that the manifest names is there. */
  predicate Ready(H: Content -> Digest, a: Agent) {
    HasAlgorithm(H, a) && a.pending == []
  }

  predicate Safe(H: Content -> Digest, a: Agent) {
    Started(a.state) ==> Ready(H, a)
  }

  /** An event that starts the computation is handled while the algorithm or a dataset is missing. */
  predicate Premature(H: Content -> Digest, a: Agent, step: Step) {
    match step
    case HandleHeld => a.loop.Handling? && StartsNow(a, a.loop.event) && !Ready(H, a)
    case HandleOutlived(e) => e in a.stale && StartsNow(a, e) && !Ready(H, a)
    case _ => false
  }

  predicate StartsNow(a: Agent, e: Event) {
    Target(a.table, a.state, e) == Some(Running)
  }

  /** What is started came through Running. */
  lemma StartedOnlyByRunning(table: Table, s: State, e: Event)
    requires Shaped(table) && Target(table, s, e).Some? && Started(Target(table, s, e).value)
    ensures Target(table, s, e) == Some(Running) <==> !Started(s)
  {
    hide Target;
    if !AddedByManifest(s, e) {
      FixedTarget(table, s, e);
    }
  }

  lemma MoveSafeExactly(H: Content -> Digest, a: Agent, step: Step)
    requires Shaped(a.table) && Safe(H, a) && (step.HandleHeld? || step.HandleOutlived?)
    ensures Safe(H, Do(H, a, step)) <==> !Premature(H, a, step)
  {
    hide Shaped, Target, ActionsOn;
    var e := if step.HandleOutlived? then step.event else if a.loop.Handling? then a.loop.event else Start;
    var next := Target(a.table, a.state, e);
    if next.Some? && Started(next.value) {
      StartedOnlyByRunning(a.table, a.state, e);
    }
  }

  lemma DownloadsSafe(H: Content -> Digest, a: Agent, step: Step)
    requires Safe(H, a) && (step.DoDownloadAlgorithm? || step.DoDownloadDatasets?)
    ensures Safe(H, Do(H, a, step))
  {
    hide Stopped, Harvest, NotRemote, Fetched;
  }

  lemma OthersSafe(H: Content -> Digest, a: Agent, step: Step)
    requires Safe(H, a)
    requires step.SendStart? || step.Init? || step.Stop? || step.Algo? || step.Data? || step.Result? || step.DoRun?
          || step.LoopEnds?
    ensures Safe(H, Do(H, a, step))
  {
    hide AddAll, ManifestTransitions, FirstRemote, FirstWithHash, Zeros, AlgoIsRemote, Handle, HandleStale,
      RunDownloadAlgorithm, RunDownloadDatasets;
  }

  /** One step keeps the computation safe exactly when it does not start it too early. */
  lemma StepSafeExactly(H: Content -> Digest, a: Agent, step: Step)
    requires Shaped(a.table) && Safe(H, a)
    ensures Safe(H, Do(H, a, step)) <==> !Premature(H, a, step)
  {
    hide Safe, Shaped, Do, Ready, StartsNow;
    match step
    case HandleHeld => MoveSafeExactly(H, a, step);
    case HandleOutlived(e) => MoveSafeExactly(H, a, step);
    case DoDownloadAlgorithm(w) => DownloadsSafe(H, a, step);
    case DoDownloadDatasets(got, delivered) => DownloadsSafe(H, a, step);
    case _ => OthersSafe(H, a, step);
  }

  predicate SafeThroughout(H: Content -> Digest, a: Agent, steps: seq<Step>)
    decreases |steps|
  {
    Safe(H, a) && (steps == [] || SafeThroughout(H, Do(H, a, steps[0]), steps[1..]))
  }

  predicate NeverPremature(H: Content -> Digest, a: Agent, steps: seq<Step>)
    decreases |steps|
  {
    steps == [] || (!Premature(H, a, steps[0]) && NeverPremature(H, Do(H, a, steps[0]), steps[1..]))
  }

  lemma {:induction false} SafeExactlyFrom(H: Content -> Digest, a: Agent, steps: seq<Step>)
    requires Base(H, a) && Safe(H, a)
    ensures SafeThroughout(H, a, steps) <==> NeverPremature(H, a, steps)
    decreases |steps|
  {
    hide Base, Safe, Do, Premature, Shaped;
    if steps != [] {
      BaseShapes(H, a);
      StepSafeExactly(H, a, steps[0]);
      StepKeepsBase(H, a, steps[0]);
      if !Premature(H, a, steps[0]) {
        SafeExactlyFrom(H, Do(H, a, steps[0]), steps[1..]);
      }
    }
  }

  /** A run never has a computation started that lacks something, exactly when none is started too early. */
  lemma SafeThroughoutExactly(H: Content -> Digest, steps: seq<Step>)
    ensures SafeThroughout(H, Fresh(), steps) <==> NeverPremature(H, Fresh(), steps)
  {
    hide Base, SafeThroughout, NeverPremature, AddAll, Zeros;
    FreshBase(H);
    SafeExactlyFrom(H, Fresh(), steps);
  }

  // ---------------------------------------------------------------- a stop that overtakes an event

  /** From a delivered Start to the wait for the algorithm of `m`. */
  lemma Round(H: Content -> Digest, a: Agent, m: Manifest)
    requires Shaped(a.table) && a.state == Idle && a.loop == Handling(Start)
    ensures var a' := Do(H, Do(H, Do(H, a, HandleHeld), Init(m, true)), HandleHeld);
            && a'.state == ReceivingAlgorithm && a'.loop == Waiting && a'.manifest == m && a'.algo == a.algo
            && Shaped(a'.table) && Configured(a'.table, m) && a'.stale == a.stale && a'.pending == m.datasets
            && a'.runError == a.runError && a'.epoch == a.epoch && a'.actions == a.actions + multiset{DownloadAlgorithm}
            && a'.stored == [] && a'.result == a.result && a'.resultsConsumed == a.resultsConsumed
  {
    hide Target, AddAll, Shaped, Configured, ManifestTransitions;
    FixedTarget(a.table, Idle, Start);
    var a1 := Do(H, a, HandleHeld);
    assert a1.state == ReceivingManifest && a1.loop == Waiting && a1.table == a.table;
    ManifestTable(a.table, m);
    var a2 := Do(H, a1, Init(m, true));
    assert a2.loop == Handling(ManifestReceived) && a2.table == AddAll(a.table, ManifestTransitions(m));
    FixedTarget(a2.table, ReceivingManifest, ManifestReceived);
  }

  function NoDatasets(H: Content -> Digest): Manifest {
    Manifest([], H([]), false, "", [], false, 0)
  }

  function AfterRound(H: Content -> Digest, a: Agent, m: Manifest): Agent {
    Do(H, Do(H, Do(H, a, HandleHeld), Init(m, true)), HandleHeld)
  }

  function RoundSteps(m: Manifest): seq<Step> {
    [HandleHeld, Init(m, true), HandleHeld]
  }

  const UPLOAD := Algo(Upload([], NO_SETTINGS), World(None, [], true, true, true))

  const OUTLIVED := HandleOutlived(AlgorithmReceived)

  function UploadInFlight(H: Content -> Digest): Agent {
    Do(H, AfterRound(H, Do(H, Fresh(), SendStart(true)), NoDatasets(H)), UPLOAD)
  }

  lemma FreshStarted(H: Content -> Digest)
    ensures var a := Do(H, Fresh(), SendStart(true));
            && a.loop == Handling(Start) && a.state == Idle && Shaped(a.table)
            && a.algo == None && a.stale == multiset{}
            && !a.runError && a.epoch == 0 && a.actions == multiset{}
  {
    hide Shaped, AddAll, Zeros;
    InitialTableExactly();
  }

  lemma UploadDelivered(H: Content -> Digest, a: Agent)
    requires a.state == ReceivingAlgorithm && a.loop == Waiting && a.algo == None && a.manifest == NoDatasets(H)
    ensures var a' := Do(H, a, UPLOAD);
            a'.loop == Handling(AlgorithmReceived) && a'.table == a.table && a'.stale == a.stale
  {
  }

  lemma UploadIsInFlight(H: Content -> Digest)
    ensures var a := UploadInFlight(H);
            && Shaped(a.table) && a.loop == Handling(AlgorithmReceived) && a.stale == multiset{}
  {
    hide Fresh, Shaped, Configured, Do;
    var a0 := Do(H, Fresh(), SendStart(true));
    FreshStarted(H);
    Round(H, a0, NoDatasets(H));
    UploadDelivered(H, AfterRound(H, a0, NoDatasets(H)));
  }

  lemma OvertakenComputationStarts(H: Content -> Digest)
    ensures var a := Do(H, AfterRound(H, Do(H, UploadInFlight(H), Stop(true, true)), NoDatasets(H)), OUTLIVED);
            a.state == Running && a.algo == None
  {
    UploadIsInFlight(H);
    hide UploadInFlight, Shaped, Configured, Target;
    var stopped := Do(H, UploadInFlight(H), Stop(true, true));
    assert stopped.loop == Handling(Start) && stopped.stale == multiset{AlgorithmReceived} && stopped.algo == None;
    assert stopped.table == UploadInFlight(H).table && stopped.state == Idle;
    Round(H, stopped, NoDatasets(H));
    OutlivedStarts(H, AfterRound(H, stopped, NoDatasets(H)));
  }

  lemma OutlivedStarts(H: Content -> Digest, a: Agent)
    requires a.state == ReceivingAlgorithm && AlgorithmReceived in a.stale && a.algo == None
    requires a.manifest == NoDatasets(H) && Configured(a.table, a.manifest)
    ensures Do(H, a, OUTLIVED).state == Running && Do(H, a, OUTLIVED).algo == None
  {
    hide Target;
  }

  /**
   Some condition on outlived events is needed. A stop comes between the loop's receiving AlgorithmReceived and
   handling it; the event is handled after the next manifest's arrival and starts its computation
   without an algorithm.
   */
  lemma OvertakingStopBreaksSafety(H: Content -> Digest)
    ensures exists steps: seq<Step> :: Run(H, Fresh(), steps).state == Running && Run(H, Fresh(), steps).algo == None
  {
    OvertakenComputationStarts(H);
    hide Do, Run, Fresh, AfterRound;
    var tail2 := RoundSteps(NoDatasets(H)) + [OUTLIVED];
    var tail1 := [Stop(true, true)] + tail2;
    var tail0 := RoundSteps(NoDatasets(H)) + ([UPLOAD] + tail1);
    RunCons(H, Fresh(), [SendStart(true)] + tail0, SendStart(true), tail0);
    var a0 := Do(H, Fresh(), SendStart(true));
    RunRound(H, a0, NoDatasets(H), [UPLOAD] + tail1);
    RunCons(H, AfterRound(H, a0, NoDatasets(H)), [UPLOAD] + tail1, UPLOAD, tail1);
    RunCons(H, UploadInFlight(H), tail1, Stop(true, true), tail2);
    var stopped := Do(H, UploadInFlight(H), Stop(true, true));
    RunRound(H, stopped, NoDatasets(H), [OUTLIVED]);
    RunNow(H, AfterRound(H, stopped, NoDatasets(H)), OUTLIVED);
    assert Run(H, Fresh(), [SendStart(true)] + tail0).state == Running;
  }

  lemma RunNow(H: Content -> Digest, a: Agent, step: Step)
    ensures Run(H, a, [step]) == Do(H, a, step)
  {
    hide Do;
    RunCons(H, a, [step], step, []);
  }

  lemma RunTwo(H: Content -> Digest, a: Agent, s: Step, t: Step)
    ensures Run(H, a, [s, t]) == Do(H, Do(H, a, s), t)
  {
    hide Do;
    RunCons(H, a, [s, t], s, [t]);
    RunNow(H, Do(H, a, s), t);
  }

  lemma {:induction false} RunConcat(H: Content -> Digest, a: Agent, xs: seq<Step>, ys: seq<Step>)
    ensures Run(H, a, xs + ys) == Run(H, Run(H, a, xs), ys)
    decreases |xs|
  {
    hide Do;
    if xs == [] {
      assert xs + ys == ys;
    } else {
      assert (xs + ys)[0] == xs[0] && (xs + ys)[1..] == xs[1..] + ys;
      RunConcat(H, Do(H, a, xs[0]), xs[1..], ys);
    }
  }

  lemma RunCons(H: Content -> Digest, a: Agent, steps: seq<Step>, first: Step, rest: seq<Step>)
    requires steps == [first] + rest
    ensures Run(H, a, steps) == Run(H, Do(H, a, first), rest)
  {
    assert steps[0] == first && steps[1..] == rest;
  }

  lemma RunRound(H: Content -> Digest, a: Agent, m: Manifest, rest: seq<Step>)
    ensures Run(H, a, RoundSteps(m) + rest) == Run(H, AfterRound(H, a, m), rest)
  {
    hide Do;
    var i := Init(m, true);
    RunCons(H, a, RoundSteps(m) + rest, HandleHeld, [i, HandleHeld] + rest);
    RunCons(H, Do(H, a, HandleHeld), [i, HandleHeld] + rest, i, [HandleHeld] + rest);
    RunCons(H, Do(H, Do(H, a, HandleHeld), i), [HandleHeld] + rest, HandleHeld, rest);
  }

  // ---------------------------------------------------------------- failed calls

  /** The handler gets as far as comparing hashes. */
  predicate Compares(a: Agent, w: World) {
    a.state == ReceivingAlgorithm && a.algo.None? && (AlgoIsRemote(a) ==> w.download.Some?)
  }

  /** An upload that gets everything done but the datasets directory. */
  predicate MarksWithoutDirectory(H: Content -> Digest, a: Agent, upload: Upload, w: World) {
    && Compares(a, w) && w.filesOk && !w.mkdirOk
    && H(if AlgoIsRemote(a) && w.download.Some? then w.download.value else upload.content) == a.manifest.algoHash
  }

  /**
   A refused algorithm upload leaves the agent as it was, except exactly when everything but the
   creation of the datasets directory succeeded, or a download brought other requirements.
   */
  lemma RefusedAlgorithmLeavesAgent(H: Content -> Digest, a: Agent, upload: Upload, w: World)
    ensures var (a', reply) := AlgoRpc(H, a, upload, w);
            reply != Done ==>
              (a' == a <==>
                && !MarksWithoutDirectory(H, a, upload, w)
                && !(Compares(a, w) && AlgoIsRemote(a) && w.requirements != a.settings.requirements))
  {
  }

  /**
   An upload that matches some pending dataset in hash and name is taken exactly when the first
   pending dataset with that hash has no name or the same one: another dataset with the same content
   and a different name, further up the list, makes the agent refuse it.
   */
  lemma MatchingUploadAccepted(H: Content -> Digest, a: Agent, k: nat, upload: Content, filename: string, w: World)
    requires a.state == ReceivingData && !AnyRemote(a.pending, a.manifest.kbs) && w.filesOk
    requires k < |a.pending| && a.pending[k].hash == H(upload) && a.pending[k].filename == filename
    ensures var first := FirstWithHash(a.pending, H(upload));
            && first <= k
            && (DataRpc(H, a, upload, filename, w).1 == Done <==> a.pending[first].filename in {"", filename})
  {
    assert FirstRemote(a.pending, a.manifest.kbs) == |a.pending|;
  }

  /** Two datasets with the same content under two names. */
  function Twins(H: Content -> Digest, content: Content, one: string, two: string): Manifest {
    var h := H(content);
    Manifest([Dataset(h, one, false), Dataset(h, two, false)], H([]), false, "", [], false, 0)
  }

  /** A new agent gets the manifest and the algorithm, and then waits for both. */
  function TwinSteps(m: Manifest): seq<Step> {
    [SendStart(true)] + (RoundSteps(m) + [UPLOAD, HandleHeld])
  }

  lemma AlgorithmThenData(H: Content -> Digest, a: Agent, m: Manifest)
    requires a.state == ReceivingAlgorithm && a.loop == Waiting && a.algo == None && a.manifest == m
    requires m.algoHash == H([]) && !m.algoHasSource && m.datasets != [] && Configured(a.table, m)
    ensures var b := Do(H, Do(H, a, UPLOAD), HandleHeld);
            b.state == ReceivingData && b.pending == a.pending && b.manifest == m
  {
    hide Target;
  }

  lemma TwinsArePending(H: Content -> Digest, m: Manifest)
    requires m.algoHash == H([]) && !m.algoHasSource && m.datasets != []
    ensures var a := Run(H, Fresh(), TwinSteps(m));
            a.state == ReceivingData && a.pending == m.datasets && a.manifest == m
  {
    hide Do, Run, Fresh, Configured, Shaped;
    var a0 := Do(H, Fresh(), SendStart(true));
    FreshStarted(H);
    RunCons(H, Fresh(), TwinSteps(m), SendStart(true), RoundSteps(m) + [UPLOAD, HandleHeld]);
    Round(H, a0, m);
    RunRound(H, a0, m, [UPLOAD, HandleHeld]);
    RunTwo(H, AfterRound(H, a0, m), UPLOAD, HandleHeld);
    AlgorithmThenData(H, AfterRound(H, a0, m), m);
  }

  /**
   It does happen, for any content: the second of two such datasets is refused for its name, and taken
   once the first is in.
   */
  lemma SecondTwinIsRefused(H: Content -> Digest, content: Content, one: string, two: string, w: World)
    requires one != "" && one != two && w.filesOk
    ensures var a := Run(H, Fresh(), TwinSteps(Twins(H, content, one, two)));
            && DataRpc(H, a, content, two, w) == (a, FileNameMismatch)
            && DataRpc(H, a, content, one, w).1 == Done
            && DataRpc(H, DataRpc(H, a, content, one, w).0, content, two, w).1 == Done
  {
    hide Run, Fresh;
    TwinsArePending(H, Twins(H, content, one, two));
    assert Without(Twins(H, content, one, two).datasets, 0) == [Dataset(H(content), two, false)];
  }
}
