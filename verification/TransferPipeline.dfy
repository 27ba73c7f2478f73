/** Client and server together: what one end reads is what the other end has. */
module TransferPipeline {
  import opened Results
  import opened BigEndian
  import opened Transfer
  import opened StreamServer
  import opened ProgressBars

  function Bytewise(file: Option<Bytes>): Bytes {
    if file.Some? then file.value else []
  }

  /** A client that gives up breaks the stream for the server. */
  function Closing(outcome: Outcome): End {
    if outcome == Done then Eof else Broken
  }

  /**
    * Algorithm and requirements, however the files are read, over a stream that takes `accepts` messages:
    * both reach the server whole exactly when the stream holds out and neither is too long.
    */
  method UploadAlgorithm(bar: ProgressBar, algorithm: Bytes, requirements: Option<Bytes>,
                         algoPieces: seq<Bytes>, reqPieces: seq<Bytes>, accepts: nat)
    returns (r: Result<AlgoMessage, Failure>)
    requires Reads(algorithm, algoPieces) && Reads(Bytewise(requirements), reqPieces)
    modifies bar
    ensures r.Ok? <==>
              && |algorithm| <= 536_870_912 && |Bytewise(requirements)| <= 67_108_864
              && |reqPieces + algoPieces| <= accepts
    ensures r.Ok? ==> r.value == AlgoMessage(algorithm, Bytewise(requirements))
  {
    hide Joined, Algorithms, Requirements;
    ghost var all := reqPieces + algoPieces;
    JoinedConcat(reqPieces, algoPieces);
    EmptyReads(algorithm, algoPieces);
    EmptyReads(Bytewise(requirements), reqPieces);
    UploadIsLossless(algorithm, Bytewise(requirements), algoPieces, reqPieces);
    var given := if requirements.Some? then Some(Source(reqPieces, Eof)) else None;
    assert Given(given).pieces == reqPieces;
    assert all == [] ==> algorithm == [] && Bytewise(requirements) == [];
    var outcome, sent := bar.SendAlgorithm(|algorithm|, |Bytewise(requirements)|, Source(algoPieces, Eof), given,
        accepts);
    r := ReceiveAlgoData(sent, Closing(outcome));
  }

  /** A dataset reaches the server whole under the same conditions; an empty one arrives without its name. */
  method UploadDataset(bar: ProgressBar, filename: string, file: Bytes, pieces: seq<Bytes>, accepts: nat)
    returns (r: Result<DataMessage, Failure>)
    requires Reads(file, pieces)
    modifies bar
    ensures r.Ok? <==> |file| <= 1_073_741_824 && |pieces| <= accepts
    ensures r.Ok? ==> r.value == DataMessage(file, if file == [] then "" else filename)
  {
    hide Joined, Datasets, LastName;
    EmptyReads(file, pieces);
    DataUploadIsLossless(filename, file, pieces);
    var outcome, sent := bar.SendData(filename, |file|, Source(pieces, Eof), accepts);
    r := ReceiveStreamingData(sent, Closing(outcome));
  }

  /**
    * A result over a stream that takes `accepts` messages, to a client that can write `writes` chunks: it
    * arrives whole exactly when both hold out, and otherwise a beginning of it has been written.
    */
  method Download(bar: ProgressBar, file: Bytes, accepts: nat, writes: nat, part: nat)
    returns (outcome: Outcome, written: Bytes)
    modifies bar
    ensures outcome == Done <==> |Chunks(file)| <= accepts && |Chunks(file)| <= writes
    ensures outcome == Done <==> |file| <= 1_048_576 * accepts && |file| <= 1_048_576 * writes
    ensures outcome == Done ==> written == file && bar.currentUploadPercentage == if file == [] then 0 else 100
    ensures written <= file
  {
    hide Joined, Chunks, Pass;
    ChunksFit(file, accepts);
    ChunksFit(file, writes);
    var ok, sent := StreamFileData(file, accepts);
    PrefixPasses(file, |sent|, writes);
    if ok {
      assert sent == Chunks(file);
      if |sent| <= writes {
        DownloadIsLossless(file, writes);
      }
    }
    outcome, written := bar.ReceiveStream("result", |file|, Source(sent, if ok then Eof else Broken), writes, part);
    PrefixWritten(file, sent, Pass(Bar(|file|, 0, 0), sent, writes).passed, part);
    assert sent[..|sent|] == sent;
  }

  /** Any first part of a file's chunks passes against the size of the whole, as far as it can be written. */
  lemma PrefixPasses(file: Bytes, n: nat, writes: nat)
    requires n <= |Chunks(file)|
    ensures var t := Pass(Bar(|file|, 0, 0), Chunks(file)[..n], writes);
            (t.outcome == Done <==> n <= writes) && (t.outcome != Done ==> t.outcome == SinkFails)
  {
    var chunks := Chunks(file)[..n];
    assert Chunks(file) == chunks + Chunks(file)[n..];
    JoinedConcat(chunks, Chunks(file)[n..]);
    EmptyReads(file, Chunks(file));
    hide Chunks, Joined;
    if file != [] {
      PassesExactly(Bar(|file|, 0, 0), chunks, writes);
      FitsNeverExceeds(Bar(|file|, 0, 0), chunks, writes);
    }
  }

  lemma {:induction false} FitsNeverExceeds(bar: Bar, chunks: seq<Bytes>, accepts: nat)
    requires bar.total > 0 && bar.uploaded + |Joined(chunks)| <= bar.total
    ensures Pass(bar, chunks, accepts).outcome != Exceeds
    decreases |chunks|
  {
    if chunks != [] && accepts > 0 {
      FitsNeverExceeds(Update(bar, |chunks[0]|).1, chunks[1..], accepts - 1);
    }
  }

  /** Whole chunks and the beginning of the next are a beginning of the file. */
  lemma PrefixWritten(file: Bytes, sent: seq<Bytes>, k: nat, part: nat)
    requires sent <= Chunks(file) && k <= |sent|
    ensures Joined(sent[..k]) <= file
    ensures k < |sent| ==> Joined(sent[..k]) + Beginning(sent[k], part) <= file
  {
    hide Chunks;
    var all := Chunks(file);
    assert all == sent[..k] + all[k..];
    JoinedConcat(sent[..k], all[k..]);
    if k < |sent| {
      assert all[k..] == [sent[k]] + all[k + 1..];
      JoinedConcat([sent[k]], all[k + 1..]);
      JoinedSnoc([], sent[k]);
      assert [] + [sent[k]] == [sent[k]];
    }
  }
}
