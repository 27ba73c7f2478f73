/** Where the agent gets when its events are delivered, and what it answers on the way. */
module AgentProgress {
  import opened Results
  import opened AgentMachine
  import opened AgentSafety
  import opened AgentOutcomes

  // ---------------------------------------------------------------- a new computation

  /** Started anew: nothing of an earlier computation is left but the table, actions and outlived events. */
  ghost predicate Anew(a: Agent) {
    && a.state == Idle && a.loop == Handling(Start) && Shaped(a.table)
    && a.algo == None && a.result == None && !a.runError && !a.resultsConsumed
  }

  lemma FreshIsAnew(H: Content -> Digest)
    ensures Anew(Do(H, Fresh(), SendStart(true)))
  {
    hide Shaped, AddAll, Zeros;
    InitialTableExactly();
  }

  /** After any run at all, a clean stop whose event is delivered starts the agent anew. */
  lemma StopIsAnew(H: Content -> Digest, before: seq<Step>)
    ensures Anew(Do(H, Run(H, Fresh(), before), Stop(true, true)))
  {
    hide Shaped, Base, Run, Fresh, Zeros;
    ReachableBase(H, before);
    BaseShapes(H, Run(H, Fresh(), before));
  }

  // ---------------------------------------------------------------- the algorithm

  /** The agent waits for the algorithm, or for the datasets, of `m`. */
  ghost predicate WaitsFor(a: Agent, m: Manifest, s: State) {
    && a.state == s && a.loop == Waiting && a.manifest == m && Shaped(a.table) && Configured(a.table, m)
    && a.result == None && !a.runError && !a.resultsConsumed
  }

  /** The step brings the algorithm `content`, uploaded or downloaded, which is then to be run with `settings`. */
  predicate Brings(H: Content -> Digest, m: Manifest, step: Step, content: Content, settings: Settings) {
    var remote := m.algoHasSource && m.kbs;
    && H(content) == m.algoHash && (step.Algo? || (step.DoDownloadAlgorithm? && remote))
    && step.world.filesOk && step.world.mkdirOk && step.world.delivered
    && (if remote then step.world.download == Some(content) else step.Algo? && step.upload.content == content)
    && (step.Algo? ==>
          var kind := step.upload.settings.kind;
          settings == step.upload.settings.(kind := if kind == "" then "bin" else kind))
    && (step.DoDownloadAlgorithm? ==>
          var kind := if m.algoType == "" then "bin" else m.algoType;
          settings == Settings(step.world.requirements, kind, m.algoArgs))
  }

  lemma ManifestLeadsToAlgorithm(H: Content -> Digest, a: Agent, m: Manifest)
    requires Anew(a)
    ensures var b := Run(H, a, RoundSteps(m));
            && WaitsFor(b, m, ReceivingAlgorithm) && b.algo == None && b.pending == m.datasets && b.stored == []
            && b.epoch == a.epoch && DownloadAlgorithm in b.actions
  {
    hide Do, Run, Shaped, Configured;
    Round(H, a, m);
    RunRound(H, a, m, []);
    assert RoundSteps(m) + [] == RoundSteps(m);
    RunNone(H, AfterRound(H, a, m));
  }

  lemma AlgorithmArrives(H: Content -> Digest, a: Agent, m: Manifest, step: Step, content: Content, settings: Settings)
    requires WaitsFor(a, m, ReceivingAlgorithm) && a.algo == None && DownloadAlgorithm in a.actions
    requires Brings(H, m, step, content, settings)
    ensures var b := Do(H, a, step);
            && b == a.(loop := Handling(AlgorithmReceived), algo := Some(content), settings := settings,
                       actions := b.actions)
  {
    hide Shaped, Configured;
  }

  lemma AlgorithmLeadsOn(H: Content -> Digest, a: Agent, m: Manifest, step: Step, content: Content, settings: Settings)
    requires WaitsFor(a, m, ReceivingAlgorithm) && a.algo == None && DownloadAlgorithm in a.actions
    requires Brings(H, m, step, content, settings)
    ensures var b := Run(H, a, [step, HandleHeld]);
            && WaitsFor(b, m, if m.datasets == [] then Running else ReceivingData)
            && b.algo == Some(content) && b.settings == settings && b.pending == a.pending && b.stored == a.stored
            && b.epoch == a.epoch
            && (m.datasets == [] ==> RunComputation(a.epoch) in b.actions)
            && (m.datasets != [] ==> DownloadDatasets in b.actions)
  {
    hide Shaped, Run, Brings, Target, AlgoRpc, RunDownloadAlgorithm;
    RunTwo(H, a, step, HandleHeld);
    AlgorithmArrives(H, a, m, step, content, settings);
  }

  // ---------------------------------------------------------------- the datasets

  /** An upload of the dataset `declared`, under some name. */
  datatype Sent = Sent(declared: Dataset, content: Content, filename: string)

  const GOOD := World(None, [], true, true, true)

  function UploadSteps(sent: seq<Sent>): seq<Step> {
    if sent == [] then [] else [Data(sent[0].content, sent[0].filename, GOOD)] + UploadSteps(sent[1..])
  }

  function DeclaredBy(sent: seq<Sent>): (ds: seq<Dataset>)
    ensures |ds| == |sent|
  {
    if sent == [] then [] else [sent[0].declared] + DeclaredBy(sent[1..])
  }

  function StoredBy(sent: seq<Sent>): seq<(Dataset, Content)> {
    if sent == [] then [] else [(sent[0].declared, sent[0].content)] + StoredBy(sent[1..])
  }

  /** Each upload has the hash that was declared, and the name if one was. */
  predicate Right(H: Content -> Digest, sent: seq<Sent>) {
    forall i :: 0 <= i < |sent| ==>
      H(sent[i].content) == sent[i].declared.hash && sent[i].declared.filename in {"", sent[i].filename}
  }

  /** Datasets with the same content are declared alike; otherwise the first one's name would decide. */
  predicate NoTwins(ds: seq<Dataset>) {
    forall d, e :: d in ds && e in ds && d.hash == e.hash ==> d == e
  }

  predicate AllLocal(ds: seq<Dataset>, kbs: bool) {
    forall d :: d in ds ==> !(d.hasSource && kbs)
  }

  /** The dataset that an upload is taken for is the declared one, wherever it stands. */
  lemma FoundAsDeclared(ds: seq<Dataset>, d: Dataset)
    requires NoTwins(ds) && d in ds
    ensures var k := FirstWithHash(ds, d.hash); k < |ds| && ds[k] == d
  {
    hide FirstWithHash;
    var i :| 0 <= i < |ds| && ds[i] == d;
    assert ds[FirstWithHash(ds, d.hash)] in ds;
  }

  lemma WithoutOne(ds: seq<Dataset>, k: nat, kbs: bool)
    requires k < |ds| && NoTwins(ds) && AllLocal(ds, kbs)
    ensures NoTwins(Without(ds, k)) && AllLocal(Without(ds, k), kbs)
    ensures multiset(Without(ds, k)) == multiset(ds) - multiset{ds[k]}
  {
    var rest := Without(ds, k);
    assert forall d :: d in rest ==> d in ds;
    assert ds == ds[..k] + [ds[k]] + ds[k + 1..];
  }

  lemma OneUploadTaken(H: Content -> Digest, a: Agent, m: Manifest, sent: Sent)
    requires WaitsFor(a, m, ReceivingData) && AllLocal(a.pending, m.kbs) && NoTwins(a.pending)
    requires sent.declared in a.pending && Right(H, [sent])
    ensures var k := FirstWithHash(a.pending, sent.declared.hash);
            && k < |a.pending| && a.pending[k] == sent.declared
            && Do(H, a, Data(sent.content, sent.filename, GOOD)) ==
               a.(pending := Without(a.pending, k), stored := a.stored + [(sent.declared, sent.content)],
                  loop := if |a.pending| == 1 then Handling(DataReceived) else Waiting)
  {
    hide Shaped, Configured, NoTwins;
    FoundAsDeclared(a.pending, sent.declared);
    assert [sent][0] == sent;
    assert FirstRemote(a.pending, m.kbs) == |a.pending|;
  }

  lemma SentInTwo(sent: seq<Sent>)
    requires sent != []
    ensures var first, rest := sent[0], sent[1..];
            && UploadSteps(sent) == [Data(first.content, first.filename, GOOD)] + UploadSteps(rest)
            && StoredBy(sent) == [(first.declared, first.content)] + StoredBy(rest)
            && (rest == [] ==> UploadSteps(rest) == [] && StoredBy(rest) == [])
  {
  }

  lemma RightInTwo(H: Content -> Digest, sent: seq<Sent>)
    requires sent != [] && Right(H, sent)
    ensures Right(H, [sent[0]]) && Right(H, sent[1..])
  {
  }

  /** The agent waits for exactly the datasets that are about to be sent. */
  ghost predicate Uploadable(H: Content -> Digest, a: Agent, m: Manifest, sent: seq<Sent>) {
    && WaitsFor(a, m, ReceivingData) && AllLocal(a.pending, m.kbs) && NoTwins(a.pending)
    && multiset(DeclaredBy(sent)) == multiset(a.pending) && Right(H, sent)
  }

  /** The first upload leaves a state that the rest of them can start from. */
  lemma FirstUpload(H: Content -> Digest, a: Agent, m: Manifest, sent: seq<Sent>)
    requires Uploadable(H, a, m, sent) && sent != []
    ensures var b := Do(H, a, Data(sent[0].content, sent[0].filename, GOOD));
            && b == a.(pending := b.pending, stored := a.stored + [(sent[0].declared, sent[0].content)], loop := b.loop)
            && b.loop == (if |sent| == 1 then Handling(DataReceived) else Waiting)
            && (if |sent| == 1 then b.pending == [] else Uploadable(H, b, m, sent[1..]))
  {
    hide Shaped, Configured, NoTwins, AllLocal, Do, Right, Without;
    var first := sent[0];
    RightInTwo(H, sent);
    assert first.declared in multiset(DeclaredBy(sent));
    OneUploadTaken(H, a, m, first);
    WithoutOne(a.pending, FirstWithHash(a.pending, first.declared.hash), m.kbs);
    assert |multiset(DeclaredBy(sent))| == |sent| && |multiset(a.pending)| == |a.pending|;
  }

  /** Uploads in any order: each is taken, and the last one announces that all are in. */
  lemma {:induction false} UploadsTaken(H: Content -> Digest, a: Agent, m: Manifest, sent: seq<Sent>)
    requires Uploadable(H, a, m, sent) && sent != []
    ensures Run(H, a, UploadSteps(sent)) ==
            a.(pending := [], stored := a.stored + StoredBy(sent), loop := Handling(DataReceived))
    decreases |sent|
  {
    hide Uploadable, Do, Run, UploadSteps, StoredBy;
    var step, rest := Data(sent[0].content, sent[0].filename, GOOD), sent[1..];
    var b := Do(H, a, step);
    SentInTwo(sent);
    FirstUpload(H, a, m, sent);
    RunCons(H, a, UploadSteps(sent), step, UploadSteps(rest));
    if rest == [] {
      RunNone(H, b);
    } else {
      UploadsTaken(H, b, m, rest);
      assert b.stored + StoredBy(rest) == a.stored + StoredBy(sent);
    }
  }

  // ---------------------------------------------------------------- the remote datasets

  /** The downloads of the remote datasets, the last one first. */
  function Fetch(ds: seq<Dataset>, kbs: bool, got: Fetches): seq<(Dataset, Content)> {
    if ds == [] then []
    else
      var last := ds[|ds| - 1];
      (if last.hasSource && kbs && got(|ds| - 1).Some? then [(last, got(|ds| - 1).value)] else [])
      + Fetch(ds[..|ds| - 1], kbs, got)
  }

  /** Every remote dataset can be had with its declared hash. */
  predicate Available(H: Content -> Digest, ds: seq<Dataset>, kbs: bool, got: Fetches) {
    forall i :: 0 <= i < |ds| && ds[i].hasSource && kbs ==> got(i).Some? && H(got(i).value) == ds[i].hash
  }

  /** The datasets that are not fetched, in their order. */
  function Locals(ds: seq<Dataset>, kbs: bool): seq<Dataset> {
    if ds == [] then []
    else
      var last := ds[|ds| - 1];
      Locals(ds[..|ds| - 1], kbs) + if last.hasSource && kbs then [] else [last]
  }

  lemma {:induction false} AvailableFetched(H: Content -> Digest, ds: seq<Dataset>, kbs: bool, got: Fetches, base: nat)
    ensures AllFetched(H, ds, kbs, got, base) <==>
            forall i :: 0 <= i < |ds| && IsRemote(ds[i], kbs) ==> Fetched(H, ds[i], got(base + i))
    decreases |ds|
  {
    if ds != [] {
      AvailableFetched(H, ds[1..], kbs, got, base + 1);
      assert forall i :: 1 <= i < |ds| ==> ds[i] == ds[1..][i - 1] && got(base + i) == got(base + 1 + (i - 1));
      if AllFetched(H, ds[1..], kbs, got, base + 1) {
        forall i | 1 <= i < |ds| && IsRemote(ds[i], kbs)
          ensures Fetched(H, ds[i], got(base + i))
        {
          assert ds[i] == ds[1..][i - 1];
        }
      }
    }
  }

  lemma {:induction false} NotRemoteSnoc(ds: seq<Dataset>, d: Dataset, kbs: bool)
    ensures NotRemote(ds + [d], kbs) == NotRemote(ds, kbs) + if IsRemote(d, kbs) then [] else [d]
    decreases |ds|
  {
    if ds == [] {
      assert [d][1..] == [] && ds + [d] == [d];
    } else {
      assert (ds + [d])[0] == ds[0] && (ds + [d])[1..] == ds[1..] + [d];
      NotRemoteSnoc(ds[1..], d, kbs);
    }
  }

  lemma {:induction false} HarvestSnoc(ds: seq<Dataset>, d: Dataset, kbs: bool, got: Fetches, base: nat)
    ensures Harvest(ds + [d], kbs, got, base) ==
            (if IsRemote(d, kbs) && got(base + |ds|).Some? then [(d, got(base + |ds|).value)] else [])
            + Harvest(ds, kbs, got, base)
    decreases |ds|
  {
    if ds == [] {
      assert [d][1..] == [] && ds + [d] == [d];
    } else {
      assert (ds + [d])[0] == ds[0] && (ds + [d])[1..] == ds[1..] + [d];
      HarvestSnoc(ds[1..], d, kbs, got, base + 1);
    }
  }

  lemma {:induction false} PassIs(ds: seq<Dataset>, kbs: bool, got: Fetches)
    ensures NotRemote(ds, kbs) == Locals(ds, kbs) && Harvest(ds, kbs, got, 0) == Fetch(ds, kbs, got)
    decreases |ds|
  {
    if ds != [] {
      var init, last := ds[..|ds| - 1], ds[|ds| - 1];
      assert ds == init + [last];
      PassIs(init, kbs, got);
      NotRemoteSnoc(init, last, kbs);
      HarvestSnoc(init, last, kbs, got, 0);
    }
  }

  lemma {:induction false} LocalsAreLocal(ds: seq<Dataset>, kbs: bool)
    ensures AllLocal(Locals(ds, kbs), kbs)
    ensures forall d :: d in Locals(ds, kbs) ==> d in ds
    ensures AllLocal(ds, kbs) ==> Locals(ds, kbs) == ds
    decreases |ds|
  {
    if ds != [] {
      var init, last := ds[..|ds| - 1], ds[|ds| - 1];
      assert ds == init + [last];
      LocalsAreLocal(init, kbs);
    }
  }

  /** What the pass over the list comes to when every download succeeds. */
  lemma PassComesTo(H: Content -> Digest, ds: seq<Dataset>, kbs: bool, got: Fetches)
    requires Available(H, ds, kbs, got)
    ensures var k := Stopped(H, ds, kbs, got, 0);
            && k == 0 && ds[..k] + NotRemote(ds[k..], kbs) == Locals(ds, kbs)
            && Harvest(ds[k..], kbs, got, k) == Fetch(ds, kbs, got)
    ensures if AnyRemote(ds, kbs) then ds != [] else Locals(ds, kbs) == ds && Fetch(ds, kbs, got) == []
  {
    hide Harvest, NotRemote, Locals, Fetch, Stopped, AllFetched;
    AvailableFetched(H, ds, kbs, got, 0);
    CleanPassNotStopped(H, ds, kbs, got, 0);
    PassIs(ds, kbs, got);
    assert ds[0..] == ds && ds[..0] == [];
    if !AnyRemote(ds, kbs) {
      LocalsAreLocal(ds, kbs);
      NothingFetched(ds, kbs, got);
    }
  }

  /** The download action fetches every remote dataset and leaves the others; the last to come announces it. */
  lemma DownloadsTaken(H: Content -> Digest, a: Agent, m: Manifest, got: Fetches)
    requires WaitsFor(a, m, ReceivingData) && DownloadDatasets in a.actions && a.stored == []
    requires Available(H, a.pending, m.kbs, got)
    ensures var b := Do(H, a, DoDownloadDatasets(got, true));
            && b == a.(pending := Locals(a.pending, m.kbs), stored := Fetch(a.pending, m.kbs, got),
                       loop := b.loop, actions := b.actions)
            && b.loop == (if Locals(a.pending, m.kbs) == [] && a.pending != [] then Handling(DataReceived) else Waiting)
  {
    hide Shaped, Configured, Harvest, NotRemote, Locals, Fetch, Stopped, AnyRemote, Available;
    PassComesTo(H, a.pending, m.kbs, got);
    assert [] + Fetch(a.pending, m.kbs, got) == Fetch(a.pending, m.kbs, got);
  }

  lemma {:induction false} NothingFetched(ds: seq<Dataset>, kbs: bool, got: Fetches)
    requires AllLocal(ds, kbs)
    ensures Fetch(ds, kbs, got) == []
    decreases |ds|
  {
    if ds != [] {
      NothingFetched(ds[..|ds| - 1], kbs, got);
    }
  }

  // ---------------------------------------------------------------- the run

  /** Running, with everything that the manifest declares in. */
  ghost predicate RunsAll(a: Agent, m: Manifest, algo: Content, settings: Settings, stored: seq<(Dataset, Content)>) {
    && WaitsFor(a, m, Running) && a.algo == Some(algo) && a.settings == settings
    && a.pending == [] && a.stored == stored && RunComputation(a.epoch) in a.actions
  }

  lemma AllInLeadsToRunning(H: Content -> Digest, a: Agent, m: Manifest, algo: Content, settings: Settings)
    requires WaitsFor(a.(loop := Waiting), m, ReceivingData) && a.loop == Handling(DataReceived) && m.datasets != []
    requires a.algo == Some(algo) && a.settings == settings && a.pending == []
    ensures RunsAll(Run(H, a, [HandleHeld]), m, algo, settings, a.stored) && Run(H, a, [HandleHeld]).epoch == a.epoch
  {
    hide Shaped, Run, Do, Target;
    RunNow(H, a, HandleHeld);
    HeldLeadsTo(H, a, Running);
  }

  lemma HeldLeadsTo(H: Content -> Digest, a: Agent, s: State)
    requires a.loop.Handling? && Target(a.table, a.state, a.loop.event) == Some(s)
    ensures Do(H, a, HandleHeld) == Enter(a, s).(loop := Waiting)
  {
    hide Target;
  }

  /** What is sent are the datasets that the agent does not fetch itself, each once. */
  ghost predicate Complements(H: Content -> Digest, m: Manifest, got: Fetches, sent: seq<Sent>) {
    && Available(H, m.datasets, m.kbs, got) && Right(H, sent) && NoTwins(Locals(m.datasets, m.kbs))
    && multiset(DeclaredBy(sent)) == multiset(Locals(m.datasets, m.kbs))
  }

  lemma DownloadsThenUploads(H: Content -> Digest, a: Agent, m: Manifest, got: Fetches, sent: seq<Sent>)
    requires WaitsFor(a, m, ReceivingData) && a.pending == m.datasets != [] && a.stored == []
    requires DownloadDatasets in a.actions && Complements(H, m, got, sent)
    ensures var b := Run(H, a, [DoDownloadDatasets(got, true)] + UploadSteps(sent));
            && b == a.(pending := [], stored := Fetch(m.datasets, m.kbs, got) + StoredBy(sent),
                       loop := Handling(DataReceived), actions := b.actions)
  {
    hide Shaped, Configured, Do, Run, Available, Right, NoTwins, AllLocal, Fetch, Locals;
    var pass := DoDownloadDatasets(got, true);
    DownloadsTaken(H, a, m, got);
    LocalsAreLocal(m.datasets, m.kbs);
    var b := Do(H, a, pass);
    RunCons(H, a, [pass] + UploadSteps(sent), pass, UploadSteps(sent));
    if sent == [] {
      assert |multiset(Locals(m.datasets, m.kbs))| == 0;
      RunNone(H, b);
      assert Fetch(m.datasets, m.kbs, got) + [] == Fetch(m.datasets, m.kbs, got);
    } else {
      assert sent[0].declared in multiset(DeclaredBy(sent));
      UploadsTaken(H, b, m, sent);
    }
  }

  /** The steps that bring in everything after the manifest. */
  function Deliveries(m: Manifest, algo: Step, got: Fetches, sent: seq<Sent>): seq<Step> {
    [algo, HandleHeld]
    + if m.datasets == [] then [] else ([DoDownloadDatasets(got, true)] + UploadSteps(sent)) + [HandleHeld]
  }

  /**
   Progress under delivery. From a new agent, or one that was stopped after anything at all, for every
   manifest: the algorithm uploaded or downloaded, the remote datasets downloaded, the others uploaded in
   any order. Then the computation runs, with exactly that algorithm, those settings and those datasets.
   */
  lemma DeliveredComputationRuns(H: Content -> Digest, a: Agent, m: Manifest, step: Step, content: Content,
                                 settings: Settings, got: Fetches, sent: seq<Sent>)
    requires Anew(a) && Brings(H, m, step, content, settings) && Complements(H, m, got, sent)
    ensures var b := Run(H, a, RoundSteps(m) + Deliveries(m, step, got, sent));
            && RunsAll(b, m, content, settings, Fetch(m.datasets, m.kbs, got) + StoredBy(sent))
            && b.epoch == a.epoch
  {
    hide Do, Run, Brings, Shaped, Configured, Fetch, Locals, Anew;
    ManifestLeadsToAlgorithm(H, a, m);
    var a1 := Run(H, a, RoundSteps(m));
    RunConcat(H, a, RoundSteps(m), Deliveries(m, step, got, sent));
    AlgorithmLeadsOn(H, a1, m, step, content, settings);
    var a2 := Run(H, a1, [step, HandleHeld]);
    if m.datasets == [] {
      assert Deliveries(m, step, got, sent) == [step, HandleHeld];
      NoneToBringIn(H, m, got, sent);
    } else {
      var bring := [DoDownloadDatasets(got, true)] + UploadSteps(sent);
      RunConcat(H, a1, [step, HandleHeld], bring + [HandleHeld]);
      RunConcat(H, a2, bring, [HandleHeld]);
      DownloadsThenUploads(H, a2, m, got, sent);
      AllInLeadsToRunning(H, Run(H, a2, bring), m, content, settings);
    }
  }

  lemma NoneToBringIn(H: Content -> Digest, m: Manifest, got: Fetches, sent: seq<Sent>)
    requires m.datasets == [] && Complements(H, m, got, sent)
    ensures Fetch(m.datasets, m.kbs, got) + StoredBy(sent) == []
  {
    assert |multiset(DeclaredBy(sent))| == |sent|;
  }

  // ---------------------------------------------------------------- its end

  lemma RunEndsWell(H: Content -> Digest, a: Agent, m: Manifest, out: Content)
    requires WaitsFor(a, m, Running) && RunComputation(a.epoch) in a.actions
    ensures var b := Do(H, Do(H, a, DoRun(a.epoch, Some(out), true)), HandleHeld);
            && b.state == ConsumingResults && b.loop == Waiting && b.manifest == m && Shaped(b.table)
            && b.result == Some(out) && !b.runError && !b.resultsConsumed
  {
    hide Shaped, Configured, Target;
    FixedTarget(a.table, Running, RunComplete);
  }

  lemma FirstRequestCompletes(H: Content -> Digest, b: Agent, index: int)
    requires b.state == ConsumingResults && b.loop == Waiting && Shaped(b.table) && !b.resultsConsumed
    requires 0 <= index < b.manifest.consumers
    ensures var c := Do(H, Do(H, b, AgentMachine.Result(Some(index), true)), HandleHeld);
            && c.state == Complete && ResultRpc(b, Some(index), true).1 == Results(b.result, b.runError)
            && ResultRpc(c, Some(index), true) == (c, Results(b.result, b.runError))
  {
    hide Shaped, Target;
    FixedTarget(b.table, ConsumingResults, ResultsConsumed);
  }

  /** A run that ends well, delivered: every declared consumer gets its result, and the first request completes it. */
  lemma GoodRunCompletes(H: Content -> Digest, a: Agent, m: Manifest, out: Content, index: int)
    requires WaitsFor(a, m, Running) && RunComputation(a.epoch) in a.actions && 0 <= index < m.consumers
    ensures var b := Do(H, Do(H, a, DoRun(a.epoch, Some(out), true)), HandleHeld);
            var c := Do(H, Do(H, b, AgentMachine.Result(Some(index), true)), HandleHeld);
            && b.state == ConsumingResults && ResultRpc(b, Some(index), true).1 == Results(Some(out), false)
            && c.state == Complete && ResultRpc(c, Some(index), true) == (c, Results(Some(out), false))
  {
    hide Do, ResultRpc, Shaped, WaitsFor;
    RunEndsWell(H, a, m, out);
    FirstRequestCompletes(H, Do(H, Do(H, a, DoRun(a.epoch, Some(out), true)), HandleHeld), index);
  }

  lemma BadRunSends(H: Content -> Digest, a: Agent, of: nat, outcome: Option<Content>)
    requires a.loop == Waiting && RunComputation(of) in a.actions && (outcome == None || a.runError)
    ensures var b := Do(H, a, DoRun(of, outcome, true));
            && b.state == a.state && b.table == a.table && b.manifest == a.manifest && b.loop == Handling(RunFailed)
            && b.runError && b.result == if outcome.Some? then outcome else a.result
  {
  }

  /** A run that goes wrong, or that ends after an earlier error, leads to Failed, and consumers learn of it. */
  lemma BadRunFails(H: Content -> Digest, a: Agent, of: nat, outcome: Option<Content>, index: int)
    requires a.state == Running && a.loop == Waiting && Shaped(a.table) && RunComputation(of) in a.actions
    requires outcome == None || a.runError
    ensures var b := Do(H, Do(H, a, DoRun(of, outcome, true)), HandleHeld);
            && b.state == Failed
            && (0 <= index < a.manifest.consumers ==>
                  ResultRpc(b, Some(index), true) == (b, Results(if outcome.Some? then outcome else a.result, true)))
  {
    hide Shaped, Target, Do;
    BadRunSends(H, a, of, outcome);
    FixedTarget(a.table, Running, RunFailed);
    HeldLeadsTo(H, Do(H, a, DoRun(of, outcome, true)), Failed);
  }

  lemma FailureIsHandled(H: Content -> Digest, a: Agent)
    requires a.loop == Handling(RunFailed) && Shaped(a.table)
    requires a.state == ReceivingAlgorithm || a.state == ReceivingData
    ensures Do(H, a, HandleHeld).state == Failed
  {
    hide Shaped, Target;
    FixedTarget(a.table, a.state, RunFailed);
  }

  /** A download of the algorithm that fails while it is awaited leads to Failed, marked or not. */
  lemma FailedAlgorithmFails(H: Content -> Digest, a: Agent, w: World)
    requires a.state == ReceivingAlgorithm && a.loop == Waiting && Shaped(a.table)
    requires DownloadAlgorithm in a.actions && w.delivered && AlgorithmDownloadFails(H, a, w)
    ensures Do(H, Do(H, a, DoDownloadAlgorithm(w)), HandleHeld).state == Failed
    ensures var fits := w.download.Some? && H(w.download.value) == a.manifest.algoHash && w.filesOk;
            Do(H, a, DoDownloadAlgorithm(w)).algo == if fits then w.download else a.algo
  {
    hide Shaped, Handle;
    FailureIsHandled(H, Do(H, a, DoDownloadAlgorithm(w)));
  }

  /** So does a download of the datasets. */
  lemma FailedDatasetsFail(H: Content -> Digest, a: Agent, got: Fetches)
    requires a.state == ReceivingData && a.loop == Waiting && Shaped(a.table)
    requires DownloadDatasets in a.actions && DatasetDownloadFails(H, a, got)
    ensures Do(H, Do(H, a, DoDownloadDatasets(got, true)), HandleHeld).state == Failed
  {
    hide Shaped, Handle, Stopped, Harvest, NotRemote, AnyRemote, AllFetched;
    CleanPassNotStopped(H, a.pending, a.manifest.kbs, got, 0);
    FailureIsHandled(H, Do(H, a, DoDownloadDatasets(got, true)));
  }

  // ---------------------------------------------------------------- replies

  /** What a result request is answered, in every state and for every caller. */
  lemma ResultReplies(a: Agent, index: Option<int>, delivered: bool)
    ensures var (a', r) := ResultRpc(a, index, delivered);
            var declared := index.Some? && 0 <= index.value < a.manifest.consumers;
            && (r == ResultsNotReady <==> a.state !in {ConsumingResults, Complete, Failed})
            && (r == UndeclaredConsumer <==> a.state in {ConsumingResults, Complete, Failed} && !declared)
            && (r.Results? ==> r == Results(a.result, a.runError))
            && (a' != a ==> a.state == ConsumingResults && declared && !a.resultsConsumed && a'.resultsConsumed)
  {
  }

  /** An algorithm upload is taken exactly when it is awaited, has not come yet, matches and can be written. */
  lemma AlgorithmReplies(H: Content -> Digest, a: Agent, upload: Upload, w: World)
    ensures var r := AlgoRpc(H, a, upload, w).1;
            var remote := a.manifest.algoHasSource && a.manifest.kbs;
            var data := if remote then w.download else Some(upload.content);
            && (r == StateNotReady <==> a.state != ReceivingAlgorithm)
            && (r == AllManifestItemsReceived <==> a.state == ReceivingAlgorithm && a.algo.Some?)
            && (r == Done <==>
                  && a.state == ReceivingAlgorithm && a.algo == None && data.Some?
                  && H(data.value) == a.manifest.algoHash && w.filesOk && w.mkdirOk)
  {
  }

  /** What a dataset upload is answered when nothing is to be fetched; a refused one changes nothing. */
  lemma DataReplies(H: Content -> Digest, a: Agent, upload: Content, filename: string, w: World)
    requires AllLocal(a.pending, a.manifest.kbs)
    ensures var (a', r) := DataRpc(H, a, upload, filename, w);
            var k := FirstWithHash(a.pending, H(upload));
            && (r == StateNotReady <==> a.state != ReceivingData)
            && (r == AllManifestItemsReceived <==> a.state == ReceivingData && a.pending == [])
            && (r == UndeclaredDataset <==>
                  && a.state == ReceivingData && a.pending != []
                  && forall i :: 0 <= i < |a.pending| ==> a.pending[i].hash != H(upload))
            && (r == FileNameMismatch <==>
                  a.state == ReceivingData && k < |a.pending| && a.pending[k].filename !in {"", filename})
            && (r != Done ==> a' == a)
  {
    hide FirstRemote, FirstWithHash;
    assert FirstRemote(a.pending, a.manifest.kbs) == |a.pending|;
  }

  /** While a remote dataset is pending, an upload only makes the agent fetch it: what was sent does not matter. */
  lemma RemoteDataIsFetched(H: Content -> Digest, a: Agent, upload: Content, filename: string, other: Content,
                            name: string, w: World)
    requires AnyRemote(a.pending, a.manifest.kbs)
    ensures DataRpc(H, a, upload, filename, w) == DataRpc(H, a, other, name, w)
    ensures a.state == ReceivingData && w.download == None ==> DataRpc(H, a, upload, filename, w) == (a, DownloadFailed)
    ensures var k := FirstRemote(a.pending, a.manifest.kbs);
            && k < |a.pending|
            && (a.state == ReceivingData && w.filesOk && w.download.Some?
                && H(w.download.value) == a.pending[k].hash && FirstWithHash(a.pending, a.pending[k].hash) == k ==>
                  DataRpc(H, a, upload, filename, w).1 == Done)
  {
    hide FirstWithHash;
  }

  /** Manifests are taken only while one is awaited, and a stop that cannot clean up changes nothing. */
  lemma ControlReplies(a: Agent, m: Manifest, cleaned: bool, delivered: bool)
    ensures InitComputation(a, m, delivered).1 == Done <==> a.state == ReceivingManifest
    ensures a.state != ReceivingManifest ==> InitComputation(a, m, delivered).0 == a
    ensures StopComputation(a, cleaned, delivered).1 == Done <==> cleaned
    ensures !cleaned ==> StopComputation(a, cleaned, delivered).0 == a
  {
  }

  // ---------------------------------------------------------------- once only

  lemma RemovesOne<T>(s: multiset<T>, x: T)
    ensures x !in s ==> s - multiset{x} == s
  {
  }

  /** A started action runs once. */
  lemma AlgorithmDownloadOnce(H: Content -> Digest, a: Agent, w: World)
    ensures Do(H, a, DoDownloadAlgorithm(w)).actions == a.actions - multiset{DownloadAlgorithm}
  {
    hide AlgoIsRemote;
    RemovesOne(a.actions, DownloadAlgorithm);
  }

  lemma DatasetDownloadOnce(H: Content -> Digest, a: Agent, got: Fetches, delivered: bool)
    ensures Do(H, a, DoDownloadDatasets(got, delivered)).actions == a.actions - multiset{DownloadDatasets}
  {
    hide Stopped, Harvest, NotRemote, AnyRemote;
    RemovesOne(a.actions, DownloadDatasets);
  }

  lemma RunOnce(H: Content -> Digest, a: Agent, of: nat, outcome: Option<Content>, delivered: bool)
    ensures Do(H, a, DoRun(of, outcome, delivered)).actions == a.actions - multiset{RunComputation(of)}
  {
    RemovesOne(a.actions, RunComputation(of));
  }

  /** And an outlived event is handled once. */
  lemma OutlivedOnce(H: Content -> Digest, a: Agent, e: Event)
    ensures Do(H, a, HandleOutlived(e)).stale == a.stale - multiset{e}
  {
    hide Target;
    RemovesOne(a.stale, e);
  }

  // ---------------------------------------------------------------- a loop that has ended

  /** An event without a transition ends the loop; nothing but a clean stop or an outlived event moves it on. */
  lemma {:induction false} DeadLoopStays(H: Content -> Digest, a: Agent, steps: seq<Step>)
    requires a.loop == Dead && forall s :: s in steps ==> !CleanStop(s) && !s.HandleOutlived?
    ensures Run(H, a, steps).loop == Dead && Run(H, a, steps).state == a.state
    decreases |steps|
  {
    hide Do, CleanStop;
    if steps != [] {
      assert steps[0] in steps;
      DeadLoopStep(H, a, steps[0]);
      DeadLoopStays(H, Do(H, a, steps[0]), steps[1..]);
    }
  }

  lemma DeadLoopStep(H: Content -> Digest, a: Agent, step: Step)
    requires a.loop == Dead && !CleanStop(step) && !step.HandleOutlived?
    ensures Do(H, a, step).loop == Dead && Do(H, a, step).state == a.state
  {
    if step.Algo? || step.Data? || step.Result? || step.Init? {
      DeadLoopCalls(H, a, step);
    } else {
      hide AlgoRpc, DataRpc, ResultRpc, InitComputation, Stopped, Harvest, NotRemote, AnyRemote;
    }
  }

  lemma DeadLoopCalls(H: Content -> Digest, a: Agent, step: Step)
    requires a.loop == Dead && (step.Algo? || step.Data? || step.Result? || step.Init?)
    ensures Do(H, a, step).loop == Dead && Do(H, a, step).state == a.state
  {
    hide AddAll, ManifestTransitions, FirstRemote, FirstWithHash, AlgoIsRemote, StopComputation, HandleStale, Handle,
      RunDownloadAlgorithm, RunDownloadDatasets, FinishRun;
  }

  lemma UnexpectedEventEndsLoop(H: Content -> Digest, a: Agent, steps: seq<Step>)
    requires a.loop.Handling? && Target(a.table, a.state, a.loop.event) == None
    requires forall s :: s in steps ==> !CleanStop(s) && !s.HandleOutlived?
    ensures Run(H, Do(H, a, HandleHeld), steps).state == a.state
  {
    hide Run, Target;
    DeadLoopStays(H, Do(H, a, HandleHeld), steps);
  }
}
