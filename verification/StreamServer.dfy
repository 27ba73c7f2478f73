/** The agent's stream loops: sending files in chunks and rebuilding uploads. */
module StreamServer {
  import opened Results
  import opened BigEndian
  import opened Transfer

  const MAX_ALGORITHM_BYTES: nat := 512 * 1024 * 1024
  const MAX_REQUIREMENTS_BYTES: nat := 64 * 1024 * 1024
  const MAX_DATASET_BYTES: nat := 1024 * 1024 * 1024

  // ---------------------------------------------------------------- sending

  function Min(a: nat, b: nat): nat {
    if a <= b then a else b
  }

  /** bytes.Buffer.Read into a full-sized buffer: what was read and what is left. */
  function Read(buffer: Bytes): (r: (Bytes, Bytes))
    ensures r.0 + r.1 == buffer && |r.0| <= BUFFER_SIZE && (buffer != [] ==> r.0 != [])
  {
    var n := Min(|buffer|, BUFFER_SIZE);
    (buffer[..n], buffer[n..])
  }

  lemma ChunksStep(buffer: Bytes)
    requires buffer != []
    ensures Chunks(buffer) == [Read(buffer).0] + Chunks(Read(buffer).1)
  {
    if |buffer| <= BUFFER_SIZE {
      assert buffer[..|buffer|] == buffer && buffer[|buffer|..] == [];
      assert [buffer] + [] == [buffer];
    }
  }

  /**
    * streamFileData over a stream that takes `accepts` messages and then breaks: the chunks of the
    * file in order, all of them exactly when the stream holds out.
    */
  method StreamFileData(file: Bytes, accepts: nat) returns (ok: bool, sent: seq<Bytes>)
    ensures ok <==> |Chunks(file)| <= accepts
    ensures sent == Chunks(file)[..Min(accepts, |Chunks(file)|)]
    ensures ok ==> Joined(sent) == file
    ensures Joined(sent) <= file
  {
    hide Chunks, Joined;
    var buffer := file;
    sent := [];
    while buffer != []
      invariant Chunks(file) == sent + Chunks(buffer)
      invariant |sent| <= accepts
      decreases |buffer|
    {
      ChunksStep(buffer);
      var (chunk, rest) := Read(buffer);
      if |sent| == accepts {
        assert Chunks(file)[..accepts] == sent;
        JoinedConcat(sent, Chunks(buffer));
        ok := false;
        return;
      }
      assert sent + ([chunk] + Chunks(rest)) == sent + [chunk] + Chunks(rest);
      sent, buffer := sent + [chunk], rest;
    }
    NoChunks();
    assert Chunks(file) == sent == Chunks(file)[..|sent|];
    ok := true;
  }

  lemma NoChunks()
    ensures Chunks([]) == []
  {
  }

  datatype Pair = Pair(first: Bytes, second: Bytes)

  function Firsts(sent: seq<Pair>): seq<Bytes> {
    if sent == [] then [] else [sent[0].first] + Firsts(sent[1..])
  }

  function Seconds(sent: seq<Pair>): seq<Bytes> {
    if sent == [] then [] else [sent[0].second] + Seconds(sent[1..])
  }

  lemma {:induction false} PairsSnoc(sent: seq<Pair>, p: Pair)
    ensures Firsts(sent + [p]) == Firsts(sent) + [p.first]
    ensures Seconds(sent + [p]) == Seconds(sent) + [p.second]
  {
    if sent == [] {
      assert sent + [p] == [p] && [p][1..] == [];
    } else {
      PairsSnoc(sent[1..], p);
      assert (sent + [p])[0] == sent[0] && (sent + [p])[1..] == sent[1..] + [p];
    }
  }

  predicate Bounded(sent: seq<Pair>) {
    forall i :: 0 <= i < |sent| ==>
      |sent[i].first| <= BUFFER_SIZE && |sent[i].second| <= BUFFER_SIZE && (sent[i].first != [] || sent[i].second != [])
  }

  /** After `n` messages `left` is what remains of a buffer: its further chunks, or nothing any more. */
  predicate Sent(buffer: Bytes, left: Bytes, n: nat) {
    if left == [] then |Chunks(buffer)| <= n else |Chunks(buffer)| == n + |Chunks(left)|
  }

  lemma SentOne(buffer: Bytes, left: Bytes, n: nat)
    requires Sent(buffer, left, n)
    ensures Sent(buffer, Read(left).1, n + 1)
  {
    hide Chunks;
    NoChunks();
    if left != [] {
      ChunksStep(left);
    }
  }

  lemma SomeChunks(left: Bytes)
    ensures left != [] ==> |Chunks(left)| > 0
  {
    hide Chunks;
    if left != [] {
      ChunksStep(left);
    }
  }

  /**
    * streamDualBuffers over a stream that takes `accepts` messages and then breaks: both buffers go out in
    * step, completely exactly when the stream holds out; no message carries nothing.
    */
  method StreamDualBuffers(one: Bytes, two: Bytes, accepts: nat) returns (ok: bool, sent: seq<Pair>)
    ensures ok <==> |Chunks(one)| <= accepts && |Chunks(two)| <= accepts
    ensures ok <==> Joined(Firsts(sent)) == one && Joined(Seconds(sent)) == two
    ensures |sent| <= accepts && (!ok ==> |sent| == accepts)
    ensures Joined(Firsts(sent)) <= one && Joined(Seconds(sent)) <= two
    ensures Bounded(sent)
  {
    hide Joined, Firsts, Seconds, Chunks;
    var left, right := one, two;
    sent := [];
    NothingSent();
    NoChunks();
    while true
      invariant Sent(one, left, |sent|) && Sent(two, right, |sent|)
      invariant Joined(Firsts(sent)) + left == one
      invariant Joined(Seconds(sent)) + right == two
      invariant Bounded(sent) && |sent| <= accepts
      decreases |left| + |right|
    {
      var (first, left') := Read(left);
      var (second, right') := Read(right);
      if first == [] && second == [] {
        return true, sent;
      }
      if |sent| == accepts {
        SomeChunks(left);
        SomeChunks(right);
        return false, sent;
      }
      SentOne(one, left, |sent|);
      SentOne(two, right, |sent|);
      var p := Pair(first, second);
      PairsSnoc(sent, p);
      JoinedSnoc(Firsts(sent), first);
      JoinedSnoc(Seconds(sent), second);
      assert Joined(Firsts(sent)) + (first + left') == Joined(Firsts(sent)) + first + left';
      assert Joined(Seconds(sent)) + (second + right') == Joined(Seconds(sent)) + second + right';
      sent, left, right := sent + [p], left', right';
    }
  }

  lemma NothingSent()
    ensures Joined(Firsts([])) == [] && Joined(Seconds([])) == []
  {
  }

  // ---------------------------------------------------------------- receiving

  datatype Failure = Internal | AlgorithmTooLong | RequirementsTooLong | DatasetTooLong

  function AppendBounded(dst: Bytes, chunk: Bytes, max: nat): (r: Option<Bytes>)
    ensures r.Some? <==> |dst + chunk| <= max
    ensures r.Some? ==> r.value == dst + chunk
  {
    if |chunk| > max - |dst| then None else Some(dst + chunk)
  }

  predicate Fits(messages: seq<AlgoMessage>) {
    |Algorithms(messages)| <= MAX_ALGORITHM_BYTES && |Requirements(messages)| <= MAX_REQUIREMENTS_BYTES
  }

  lemma {:induction false} Grows(messages: seq<AlgoMessage>, k: nat)
    requires k <= |messages|
    ensures |Algorithms(messages[..k])| <= |Algorithms(messages)|
    ensures |Requirements(messages[..k])| <= |Requirements(messages)|
  {
    assert messages == messages[..k] + messages[k..];
    AlgorithmsConcat(messages[..k], messages[k..]);
    RequirementsConcat(messages[..k], messages[k..]);
  }

  /** The message at `k` is the first that does not fit, by its algorithm part or else by the other. */
  predicate OverflowsAt(messages: seq<AlgoMessage>, k: nat, byAlgorithm: bool)
    requires k < |messages|
  {
    && Fits(messages[..k])
    && !Fits(messages[..k + 1])
    && (byAlgorithm <==> |Algorithms(messages[..k + 1])| > MAX_ALGORITHM_BYTES)
  }

  ghost predicate Overflows(messages: seq<AlgoMessage>, byAlgorithm: bool) {
    exists k :: 0 <= k < |messages| && OverflowsAt(messages, k, byAlgorithm)
  }

  /**
    * receiveAlgoData: however the two files were cut and interleaved, both come back whole, and the
    * upload fails exactly when the stream breaks or a total passes its limit.
    */
  method ReceiveAlgoData(messages: seq<AlgoMessage>, end: End) returns (r: Result<AlgoMessage, Failure>)
    ensures r.Ok? <==> end == Eof && Fits(messages)
    ensures r.Ok? ==> r.value == AlgoMessage(Algorithms(messages), Requirements(messages))
    ensures r == Err(Internal) <==> end == Broken && Fits(messages)
    ensures r.Err? && r != Err(Internal) ==>
              Overflows(messages, r.error == AlgorithmTooLong)
    ensures r.Err? ==> r.error != DatasetTooLong
  {
    hide Algorithms, Requirements;
    var algorithm, requirements := [], [];
    NoMessages();
    var i := 0;
    while i < |messages|
      invariant 0 <= i <= |messages|
      invariant algorithm == Algorithms(messages[..i]) && requirements == Requirements(messages[..i])
      invariant Fits(messages[..i])
    {
      assert messages[..i + 1] == messages[..i] + [messages[i]];
      AlgoSnoc(messages[..i], messages[i]);
      Grows(messages, i + 1);
      var a := AppendBounded(algorithm, messages[i].algorithm, MAX_ALGORITHM_BYTES);
      if a.None? {
        assert OverflowsAt(messages, i, true);
        return Err(AlgorithmTooLong);
      }
      var q := AppendBounded(requirements, messages[i].requirements, MAX_REQUIREMENTS_BYTES);
      if q.None? {
        assert OverflowsAt(messages, i, false);
        return Err(RequirementsTooLong);
      }
      algorithm, requirements := a.value, q.value;
      i := i + 1;
    }
    assert messages[..i] == messages;
    r := if end == Eof then Ok(AlgoMessage(algorithm, requirements)) else Err(Internal);
  }

  lemma NoMessages()
    ensures Algorithms([]) == [] && Requirements([]) == [] && Datasets([]) == []
  {
  }

  lemma {:induction false} DataGrows(messages: seq<DataMessage>, k: nat)
    requires k <= |messages|
    ensures |Datasets(messages[..k])| <= |Datasets(messages)|
    decreases |messages| - k
  {
    if k < |messages| {
      assert messages[..k + 1] == messages[..k] + [messages[k]];
      DataSnoc(messages[..k], messages[k]);
      DataGrows(messages, k + 1);
    } else {
      assert messages[..k] == messages;
    }
  }

  /** receiveStreamingData: the dataset in one piece, under the last name that was not empty. */
  method ReceiveStreamingData(messages: seq<DataMessage>, end: End) returns (r: Result<DataMessage, Failure>)
    ensures r.Ok? <==> end == Eof && |Datasets(messages)| <= MAX_DATASET_BYTES
    ensures r.Ok? ==> r.value == DataMessage(Datasets(messages), LastName(messages))
    ensures r.Err? ==> r.error == if |Datasets(messages)| > MAX_DATASET_BYTES then DatasetTooLong else Internal
  {
    hide Datasets;
    var data, filename := [], "";
    NoMessages();
    var i := 0;
    while i < |messages|
      invariant 0 <= i <= |messages|
      invariant data == Datasets(messages[..i]) && filename == LastName(messages[..i])
      invariant |data| <= MAX_DATASET_BYTES
    {
      assert messages[..i + 1] == messages[..i] + [messages[i]];
      assert messages[..i + 1][..i] == messages[..i];
      DataSnoc(messages[..i], messages[i]);
      DataGrows(messages, i + 1);
      var d := AppendBounded(data, messages[i].dataset, MAX_DATASET_BYTES);
      if d.None? {
        return Err(DatasetTooLong);
      }
      data := d.value;
      if messages[i].filename != "" {
        filename := messages[i].filename;
      }
      i := i + 1;
    }
    assert messages[..i] == messages;
    r := if end == Eof then Ok(DataMessage(data, filename)) else Err(Internal);
  }
}
