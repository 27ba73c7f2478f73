/** Chunked transfer: cutting a file into chunks, progress accounting, rebuilding it. */
module Transfer {
  import opened BigEndian

  const BUFFER_SIZE: nat := 1024 * 1024

  function Joined(chunks: seq<Bytes>): Bytes {
    if chunks == [] then [] else chunks[0] + Joined(chunks[1..])
  }

  lemma {:induction false} JoinedConcat(xs: seq<Bytes>, ys: seq<Bytes>)
    ensures Joined(xs + ys) == Joined(xs) + Joined(ys)
  {
    if xs == [] {
      assert xs + ys == ys;
    } else {
      JoinedConcat(xs[1..], ys);
      assert xs[0] + (Joined(xs[1..]) + Joined(ys)) == xs[0] + Joined(xs[1..]) + Joined(ys);
      assert (xs + ys)[0] == xs[0] && (xs + ys)[1..] == xs[1..] + ys;
    }
  }

  lemma JoinedSnoc(xs: seq<Bytes>, y: Bytes)
    ensures Joined(xs + [y]) == Joined(xs) + y
  {
    JoinedConcat(xs, [y]);
    assert [y][1..] == [] && Joined([y]) == y + [];
  }

  /** What a reader of `file` gets: pieces that are neither empty nor longer than the buffer. */
  ghost predicate Reads(file: Bytes, pieces: seq<Bytes>) {
    Joined(pieces) == file && forall i :: 0 <= i < |pieces| ==> 0 < |pieces[i]| <= BUFFER_SIZE
  }

  lemma EmptyReads(file: Bytes, pieces: seq<Bytes>)
    requires Reads(file, pieces)
    ensures file == [] <==> pieces == []
  {
    if pieces != [] {
      assert |Joined(pieces)| >= |pieces[0]|;
    }
  }

  // ---------------------------------------------------------------- progress

  /** The counters of the progress bar. */
  datatype Bar = Bar(total: int, uploaded: nat, percent: int)

  /** How a transfer ends: the last two are failures to pass a chunk on, or to get the next one. */
  datatype Outcome = Done | Exceeds | DividesByZero | SinkFails | SourceFails

  /** How a source ends after its last chunk. */
  datatype End = Eof | Broken

  function Update(bar: Bar, n: nat): (r: (Outcome, Bar))
    ensures r.0 != SinkFails && r.0 != SourceFails
  {
    if bar.uploaded + n > bar.total then (Exceeds, bar)
    else if bar.total == 0 then (DividesByZero, bar.(uploaded := bar.uploaded + n))
    else (Done, bar.(uploaded := bar.uploaded + n, percent := (bar.uploaded + n) * 100 / bar.total))
  }

  datatype Transferred = Transferred(outcome: Outcome, bar: Bar, passed: nat)

  /**
    * Chunks are counted before they are passed on; the first that does not fit stops the transfer, and so
    * does a sink that has taken `accepts` chunks and then fails.
    */
  function Pass(bar: Bar, chunks: seq<Bytes>, accepts: nat): (t: Transferred)
    ensures t.passed <= |chunks| && t.outcome != SourceFails
    ensures t.outcome == Done ==> t.passed == |chunks|
    decreases |chunks|
  {
    if chunks == [] then Transferred(Done, bar, 0)
    else
      var (outcome, next) := Update(bar, |chunks[0]|);
      if outcome != Done then Transferred(outcome, next, 0)
      else if accepts == 0 then Transferred(SinkFails, next, 0)
      else
        var rest := Pass(next, chunks[1..], accepts - 1);
        rest.(passed := rest.passed + 1)
  }

  /** The same, when the source may break after its last chunk. */
  function Through(bar: Bar, chunks: seq<Bytes>, end: End, accepts: nat): (t: Transferred)
    ensures t.passed <= |chunks|
    ensures t.outcome == Done ==> t.passed == |chunks| && end == Eof
  {
    var t := Pass(bar, chunks, accepts);
    if t.outcome == Done && end != Eof then t.(outcome := SourceFails) else t
  }

  /** A chunk that the sink refuses has been counted. */
  function Counted(t: Transferred): nat {
    t.passed + if t.outcome == SinkFails then 1 else 0
  }

  lemma MultiplyKeepsOrder(x: int, y: int, n: nat)
    ensures x >= y ==> x * n >= y * n
  {
    assert x * n == y * n + (x - y) * n;
  }

  lemma QuotientExactly(x: nat, n: nat, k: nat)
    requires n > 0
    ensures x / n >= k <==> x >= k * n
  {
    var q := x / n;
    assert q * n <= x < q * n + n;
    assert (q + 1) * n == q * n + n;
    MultiplyKeepsOrder(q, k, n);
    MultiplyKeepsOrder(k, q + 1, n);
  }

  /** Whole percents, rounded down. */
  lemma PercentExactly(part: nat, total: nat)
    requires part <= total && total > 0
    ensures 0 <= part * 100 / total <= 100
    ensures part * 100 / total == 100 <==> part == total
  {
    QuotientExactly(part * 100, total, 100);
    QuotientExactly(part * 100, total, 101);
  }

  /** With a positive total, chunks pass exactly when they fit in it and the sink takes them all. */
  lemma {:induction false} PassesExactly(bar: Bar, chunks: seq<Bytes>, accepts: nat)
    requires bar.total > 0 && bar.uploaded <= bar.total
    ensures var t := Pass(bar, chunks, accepts);
            && (t.outcome == Done <==> bar.uploaded + |Joined(chunks)| <= bar.total && |chunks| <= accepts)
            && (t.outcome != Done ==> t.outcome == Exceeds || (t.outcome == SinkFails && t.passed == accepts))
            && t.bar.total == bar.total && Counted(t) <= |chunks|
            && t.bar.uploaded == bar.uploaded + |Joined(chunks[..Counted(t)])| <= bar.total
            && (Counted(t) > 0 ==> t.bar.percent == t.bar.uploaded * 100 / bar.total)
            && (Counted(t) == 0 ==> t.bar == bar)
    decreases |chunks|
  {
    hide Joined;
    JoinedSizes(chunks, 0);
    if chunks != [] {
      var (outcome, next) := Update(bar, |chunks[0]|);
      JoinedSizes(chunks, 1);
      if outcome == Done && accepts > 0 {
        PassesExactly(next, chunks[1..], accepts - 1);
        JoinedSizes(chunks, Counted(Pass(bar, chunks, accepts)));
      }
    }
  }

  lemma JoinedSizes(chunks: seq<Bytes>, k: nat)
    requires k <= |chunks|
    ensures k == 0 ==> Joined(chunks[..k]) == []
    ensures k > 0 ==> |Joined(chunks[..k])| == |chunks[0]| + |Joined(chunks[1..][..k - 1])|
    ensures |Joined(chunks)| == if chunks == [] then 0 else |chunks[0]| + |Joined(chunks[1..])|
    ensures k == 1 ==> Joined(chunks[1..][..k - 1]) == []
  {
    if k > 0 {
      assert chunks[..k][0] == chunks[0] && chunks[..k][1..] == chunks[1..][..k - 1];
    }
  }

  /** Without bytes to expect, nothing may arrive: an empty chunk divides by zero, another exceeds. */
  lemma NothingExpected(bar: Bar, chunks: seq<Bytes>, accepts: nat)
    requires bar.total == 0 && bar.uploaded == 0
    ensures Pass(bar, chunks, accepts).passed == 0
    ensures Pass(bar, chunks, accepts).outcome ==
            if chunks == [] then Done else if chunks[0] == [] then DividesByZero else Exceeds
  {
  }

  /** A file read in any pieces passes against its own size, and ends at 100 percent unless empty. */
  lemma OwnSizePasses(file: Bytes, pieces: seq<Bytes>, accepts: nat)
    requires Reads(file, pieces) && |pieces| <= accepts
    ensures Pass(Bar(|file|, 0, 0), pieces, accepts) ==
            Transferred(Done, Bar(|file|, |file|, if file == [] then 0 else 100), |pieces|)
  {
    EmptyReads(file, pieces);
    if file != [] {
      PassesExactly(Bar(|file|, 0, 0), pieces, accepts);
      PercentExactly(|file|, |file|);
      assert pieces[..|pieces|] == pieces;
    }
  }

  /** The bar shows 100 percent only when every expected byte has been counted. */
  lemma FullBarMeansAll(total: nat, chunks: seq<Bytes>, accepts: nat)
    requires total > 0
    ensures var t := Pass(Bar(total, 0, 0), chunks, accepts);
            Counted(t) <= |chunks| && (t.bar.percent == 100 <==> |Joined(chunks[..Counted(t)])| == total)
  {
    PassesExactly(Bar(total, 0, 0), chunks, accepts);
    var t := Pass(Bar(total, 0, 0), chunks, accepts);
    PercentExactly(t.bar.uploaded, total);
    if Counted(t) == 0 {
      assert chunks[..Counted(t)] == [];
    }
  }

  // ---------------------------------------------------------------- the server's chunks

  /** Full buffers, then what is left. */
  function Chunks(file: Bytes): (cs: seq<Bytes>)
    ensures Reads(file, cs)
    decreases |file|
  {
    if file == [] then []
    else if |file| <= BUFFER_SIZE then SingleReads(file); [file]
    else
      var cs := [file[..BUFFER_SIZE]] + Chunks(file[BUFFER_SIZE..]);
      ConsReads(file, Chunks(file[BUFFER_SIZE..]));
      cs
  }

  lemma SingleReads(file: Bytes)
    requires 0 < |file| <= BUFFER_SIZE
    ensures Reads(file, [file])
  {
    assert [file][1..] == [] && file + [] == file;
  }

  lemma ConsReads(file: Bytes, rest: seq<Bytes>)
    requires |file| > BUFFER_SIZE && Reads(file[BUFFER_SIZE..], rest)
    ensures Reads(file, [file[..BUFFER_SIZE]] + rest)
  {
    var cs := [file[..BUFFER_SIZE]] + rest;
    assert cs[1..] == rest;
    assert file[..BUFFER_SIZE] + file[BUFFER_SIZE..] == file;
  }

  /** All chunks but the last are of one mebibyte. */
  lemma {:induction false} ChunkSizes(file: Bytes, i: nat)
    requires i < |Chunks(file)|
    ensures if i < |Chunks(file)| - 1 then |Chunks(file)[i]| == 1_048_576 else 1 <= |Chunks(file)[i]| <= 1_048_576
    decreases i
  {
    if i > 0 {
      ChunkSizes(file[BUFFER_SIZE..], i - 1);
    }
  }

  /** So a file goes into `n` chunks exactly when it has at most as many mebibytes. */
  lemma {:induction false} ChunksFit(file: Bytes, n: nat)
    ensures |Chunks(file)| <= n <==> |file| <= 1_048_576 * n
    decreases n
  {
    if file != [] && n > 0 && |file| > BUFFER_SIZE {
      ChunksFit(file[BUFFER_SIZE..], n - 1);
    }
  }

  /** Download end to end: a client that can write writes the file, within its declared size. */
  lemma DownloadIsLossless(file: Bytes, accepts: nat)
    requires |Chunks(file)| <= accepts
    ensures var t := Pass(Bar(|file|, 0, 0), Chunks(file), accepts);
            && t.outcome == Done
            && Joined(Chunks(file)[..t.passed]) == file
            && t.bar.percent == if file == [] then 0 else 100
  {
    hide Chunks, Pass, Joined;
    OwnSizePasses(file, Chunks(file), accepts);
    assert Chunks(file)[..|Chunks(file)|] == Chunks(file);
  }

  // ---------------------------------------------------------------- messages to the server

  datatype AlgoMessage = AlgoMessage(algorithm: Bytes, requirements: Bytes)
  datatype DataMessage = DataMessage(dataset: Bytes, filename: string)

  function Algorithms(messages: seq<AlgoMessage>): Bytes {
    if messages == [] then [] else messages[0].algorithm + Algorithms(messages[1..])
  }

  function Requirements(messages: seq<AlgoMessage>): Bytes {
    if messages == [] then [] else messages[0].requirements + Requirements(messages[1..])
  }

  function Datasets(messages: seq<DataMessage>): Bytes {
    if messages == [] then [] else messages[0].dataset + Datasets(messages[1..])
  }

  function LastName(messages: seq<DataMessage>): string {
    if messages == [] then ""
    else if messages[|messages| - 1].filename != "" then messages[|messages| - 1].filename
    else LastName(messages[..|messages| - 1])
  }

  lemma {:induction false} AlgorithmsConcat(xs: seq<AlgoMessage>, ys: seq<AlgoMessage>)
    ensures Algorithms(xs + ys) == Algorithms(xs) + Algorithms(ys)
  {
    if xs == [] {
      assert xs + ys == ys;
    } else {
      var m := xs[0].algorithm;
      AlgorithmsConcat(xs[1..], ys);
      assert m + (Algorithms(xs[1..]) + Algorithms(ys)) == m + Algorithms(xs[1..]) + Algorithms(ys);
      assert (xs + ys)[0] == xs[0] && (xs + ys)[1..] == xs[1..] + ys;
    }
  }

  lemma {:induction false} RequirementsConcat(xs: seq<AlgoMessage>, ys: seq<AlgoMessage>)
    ensures Requirements(xs + ys) == Requirements(xs) + Requirements(ys)
  {
    if xs == [] {
      assert xs + ys == ys;
    } else {
      var m := xs[0].requirements;
      RequirementsConcat(xs[1..], ys);
      assert m + (Requirements(xs[1..]) + Requirements(ys)) == m + Requirements(xs[1..]) + Requirements(ys);
      assert (xs + ys)[0] == xs[0] && (xs + ys)[1..] == xs[1..] + ys;
    }
  }

  lemma AlgoSnoc(xs: seq<AlgoMessage>, m: AlgoMessage)
    ensures Algorithms(xs + [m]) == Algorithms(xs) + m.algorithm
    ensures Requirements(xs + [m]) == Requirements(xs) + m.requirements
  {
    AlgorithmsConcat(xs, [m]);
    RequirementsConcat(xs, [m]);
    assert [m][1..] == [];
  }

  lemma {:induction false} DataSnoc(xs: seq<DataMessage>, m: DataMessage)
    ensures Datasets(xs + [m]) == Datasets(xs) + m.dataset
  {
    if xs == [] {
      assert xs + [m] == [m] && [m][1..] == [];
    } else {
      DataSnoc(xs[1..], m);
      assert (xs + [m])[0] == xs[0] && (xs + [m])[1..] == xs[1..] + [m];
    }
  }

  function AlgorithmMessages(pieces: seq<Bytes>): (ms: seq<AlgoMessage>)
    ensures Algorithms(ms) == Joined(pieces) && Requirements(ms) == [] && |ms| == |pieces|
    ensures forall i :: 0 <= i < |ms| ==> ms[i] == AlgoMessage(pieces[i], [])
  {
    if pieces == [] then [] else
      var ms := [AlgoMessage(pieces[0], [])] + AlgorithmMessages(pieces[1..]);
      assert ms[1..] == AlgorithmMessages(pieces[1..]);
      ms
  }

  function RequirementsMessages(pieces: seq<Bytes>): (ms: seq<AlgoMessage>)
    ensures Requirements(ms) == Joined(pieces) && Algorithms(ms) == [] && |ms| == |pieces|
    ensures forall i :: 0 <= i < |ms| ==> ms[i] == AlgoMessage([], pieces[i])
  {
    if pieces == [] then [] else
      var ms := [AlgoMessage([], pieces[0])] + RequirementsMessages(pieces[1..]);
      assert ms[1..] == RequirementsMessages(pieces[1..]);
      ms
  }

  function DataMessages(filename: string, pieces: seq<Bytes>): (ms: seq<DataMessage>)
    ensures Datasets(ms) == Joined(pieces) && |ms| == |pieces|
    ensures forall i :: 0 <= i < |ms| ==> ms[i] == DataMessage(pieces[i], filename)
  {
    if pieces == [] then [] else
      var ms := [DataMessage(pieces[0], filename)] + DataMessages(filename, pieces[1..]);
      assert ms[1..] == DataMessages(filename, pieces[1..]);
      ms
  }

  /** Requirements go first, then the algorithm; each arrives whole in its own field. */
  lemma UploadIsLossless(algorithm: Bytes, requirements: Bytes, algoPieces: seq<Bytes>, reqPieces: seq<Bytes>)
    requires Reads(algorithm, algoPieces) && Reads(requirements, reqPieces)
    ensures var sent := RequirementsMessages(reqPieces) + AlgorithmMessages(algoPieces);
            Algorithms(sent) == algorithm && Requirements(sent) == requirements
  {
    AlgorithmsConcat(RequirementsMessages(reqPieces), AlgorithmMessages(algoPieces));
    RequirementsConcat(RequirementsMessages(reqPieces), AlgorithmMessages(algoPieces));
  }

  /** A dataset arrives whole; its name arrives with it unless there was nothing to carry the name. */
  lemma DataUploadIsLossless(filename: string, file: Bytes, pieces: seq<Bytes>)
    requires Reads(file, pieces)
    ensures var sent := DataMessages(filename, pieces);
            && Datasets(sent) == file
            && LastName(sent) == if file == [] then "" else filename
  {
    EmptyReads(file, pieces);
    if filename == "" {
      Unnamed(DataMessages(filename, pieces));
    }
  }

  lemma {:induction false} Unnamed(messages: seq<DataMessage>)
    requires forall i :: 0 <= i < |messages| ==> messages[i].filename == ""
    ensures LastName(messages) == ""
  {
    if messages != [] {
      Unnamed(messages[..|messages| - 1]);
    }
  }
}
