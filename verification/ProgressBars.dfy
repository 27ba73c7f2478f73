/** The client's transfer loops and their progress bar. */
module ProgressBars {
  import opened Results
  import opened BigEndian
  import opened Transfer

  class ProgressBar {
    var numberOfBytes: int
    var currentUploadedBytes: nat
    var currentUploadPercentage: int
    var description: string

    ghost function Counters(): Bar
      reads this
    {
      Bar(numberOfBytes, currentUploadedBytes, currentUploadPercentage)
    }

    method Reset(description: string, totalBytes: int)
      modifies this
      ensures Counters() == Bar(totalBytes, 0, 0) && this.description == description
    {
      currentUploadedBytes := 0;
      currentUploadPercentage := 0;
      numberOfBytes := totalBytes;
      this.description := description;
    }

    method UpdateProgress(bytesRead: nat) returns (outcome: Outcome)
      modifies this
      ensures (outcome, Counters()) == Update(old(Counters()), bytesRead)
      ensures description == old(description)
    {
      if currentUploadedBytes + bytesRead > numberOfBytes {
        return Exceeds;
      }
      currentUploadedBytes := currentUploadedBytes + bytesRead;
      if numberOfBytes == 0 {
        return DividesByZero;
      }
      currentUploadPercentage := currentUploadedBytes * 100 / numberOfBytes;
      return Done;
    }

    /** sendBuffer: what is read is counted and then sent; returns how many pieces were sent. */
    method SendBuffer(file: Source, accepts: nat) returns (outcome: Outcome, sent: nat)
      modifies this
      ensures Transferred(outcome, Counters(), sent) == Through(old(Counters()), file.pieces, file.end, accepts)
      ensures sent <= |file.pieces| && (outcome == Done ==> sent <= accepts)
    {
      hide Update;
      var pieces := file.pieces;
      sent := 0;
      while sent < |pieces|
        invariant 0 <= sent <= |pieces| && sent <= accepts
        invariant Pass(old(Counters()), pieces, accepts) ==
                  Later(Pass(Counters(), pieces[sent..], accepts - sent), sent)
      {
        assert pieces[sent..][0] == pieces[sent] && pieces[sent..][1..] == pieces[sent + 1..];
        outcome := UpdateProgress(|pieces[sent]|);
        if outcome != Done {
          return;
        }
        if sent == accepts {
          return SinkFails, sent;
        }
        sent := sent + 1;
      }
      outcome := if file.end == Eof then Done else SourceFails;
    }

    /**
      * SendAlgorithm: requirements first, when there are any. The sizes are what the files measured at
      * the start; a file that grew meanwhile, a read that fails, or a stream that breaks after `accepts`
      * messages stops the upload. What was sent is the beginning of what should have been.
      */
    method SendAlgorithm(algoSize: nat, reqSize: nat, algo: Source, req: Option<Source>, accepts: nat)
      returns (outcome: Outcome, sent: seq<AlgoMessage>)
      modifies this
      ensures var total := algoSize + if req.Some? then reqSize else 0;
              var all := Given(req).pieces + algo.pieces;
              var fits := if total == 0 then all == [] else |Joined(all)| <= total && |all| <= accepts;
              && (outcome == Done <==> fits && Given(req).end == Eof && algo.end == Eof)
              && (outcome == Done && total > 0 && |Joined(all)| == total ==> currentUploadPercentage == 100)
      ensures sent <= RequirementsMessages(Given(req).pieces) + AlgorithmMessages(algo.pieces)
      ensures outcome == Done ==> sent == RequirementsMessages(Given(req).pieces) + AlgorithmMessages(algo.pieces)
    {
      hide Joined, Algorithms, Requirements, Pass, RequirementsMessages, AlgorithmMessages;
      var total := algoSize + if req.Some? then reqSize else 0;
      Reset("algorithm", total);
      AgainstTotal(total, Given(req).pieces, algo.pieces, accepts);
      NothingPasses(Counters(), accepts);
      sent := [];
      var n := 0;
      if req.Some? {
        outcome, n := SendBuffer(req.value, accepts);
        sent := RequirementsMessages(req.value.pieces[..n]);
        if outcome != Done {
          return;
        }
        assert req.value.pieces[..n] == req.value.pieces;
      }
      var m;
      outcome, m := SendBuffer(algo, accepts - n);
      sent := sent + AlgorithmMessages(algo.pieces[..m]);
      assert outcome == Done ==> algo.pieces[..m] == algo.pieces;
    }

    /** sendData: `size` is what the file measured at the start. */
    method SendData(filename: string, size: nat, file: Source, accepts: nat)
      returns (outcome: Outcome, sent: seq<DataMessage>)
      modifies this
      ensures var fits := if size == 0 then file.pieces == []
                else |Joined(file.pieces)| <= size && |file.pieces| <= accepts;
              outcome == Done <==> fits && file.end == Eof
      ensures sent <= DataMessages(filename, file.pieces)
      ensures outcome == Done ==> sent == DataMessages(filename, file.pieces)
      ensures outcome == Done && |Joined(file.pieces)| == size && size > 0 ==> currentUploadPercentage == 100
    {
      hide Joined, Datasets, Pass, DataMessages;
      Reset("data", size);
      AgainstTotal(size, [], file.pieces, accepts);
      NothingPasses(Counters(), accepts);
      assert [] + file.pieces == file.pieces;
      var n;
      outcome, n := SendBuffer(file, accepts);
      sent := DataMessages(filename, file.pieces[..n]);
      assert outcome == Done ==> file.pieces[..n] == file.pieces;
    }

    /**
      * receiveStream: chunks are counted and then written, until one does not fit, a write fails after
      * `accepts` of them, of which `part` bytes more get written, or the stream breaks.
      */
    method ReceiveStream(description: string, totalSize: int, stream: Source, accepts: nat, part: nat)
      returns (outcome: Outcome, file: Bytes)
      modifies this
      ensures var t := Through(Bar(totalSize, 0, 0), stream.pieces, stream.end, accepts);
              && Transferred(outcome, Counters(), t.passed) == t
              && file == Joined(stream.pieces[..t.passed])
                         + if outcome == SinkFails && t.passed < |stream.pieces| then
                             Beginning(stream.pieces[t.passed], part)
                           else []
    {
      hide Update, Joined;
      NothingJoined();
      var chunks := stream.pieces;
      Reset(description, totalSize);
      var i := 0;
      file := [];
      while i < |chunks|
        invariant 0 <= i <= |chunks| && i <= accepts
        invariant file == Joined(chunks[..i])
        invariant Pass(Bar(totalSize, 0, 0), chunks, accepts) == Later(Pass(Counters(), chunks[i..], accepts - i), i)
      {
        assert chunks[i..][0] == chunks[i] && chunks[i..][1..] == chunks[i + 1..];
        outcome := UpdateProgress(|chunks[i]|);
        if outcome != Done {
          assert file + [] == file;
          return;
        }
        if i == accepts {
          return SinkFails, file + Beginning(chunks[i], part);
        }
        JoinedSnoc(chunks[..i], chunks[i]);
        assert chunks[..i + 1] == chunks[..i] + [chunks[i]];
        file := file + chunks[i];
        i := i + 1;
      }
      outcome := if stream.end == Eof then Done else SourceFails;
      assert file + [] == file;
    }
  }

  lemma NothingJoined()
    ensures Joined([]) == []
  {
  }

  /** What reading a file or a stream yields: its pieces, and how it ends. */
  datatype Source = Source(pieces: seq<Bytes>, end: End)

  function Given(file: Option<Source>): Source {
    if file.Some? then file.value else Source([], Eof)
  }

  function Later(t: Transferred, before: nat): Transferred {
    t.(passed := t.passed + before)
  }

  lemma NothingPasses(bar: Bar, accepts: nat)
    ensures Pass(bar, [], accepts) == Transferred(Done, bar, 0)
  {
  }

  /** Two files sent on one bar are held against the one total. */
  lemma AgainstTotal(total: nat, xs: seq<Bytes>, ys: seq<Bytes>, accepts: nat)
    ensures var first := Pass(Bar(total, 0, 0), xs, accepts);
            var last := if first.outcome == Done && |xs| <= accepts then Pass(first.bar, ys, accepts - |xs|) else first;
            var fits := if total == 0 then xs + ys == [] else |Joined(xs + ys)| <= total && |xs + ys| <= accepts;
            && (first.outcome == Done && last.outcome == Done <==> fits)
            && (last.outcome == Done && total > 0 && |Joined(xs + ys)| == total ==> last.bar.percent == 100)
  {
    PassInTwo(Bar(total, 0, 0), xs, ys, accepts);
    if total > 0 {
      PassesExactly(Bar(total, 0, 0), xs + ys, accepts);
      FullBarMeansAll(total, xs + ys, accepts);
      assert (xs + ys)[..|xs + ys|] == xs + ys;
    } else {
      NothingExpected(Bar(total, 0, 0), xs + ys, accepts);
    }
  }

  /** Two transfers on the same bar are one transfer of everything. */
  lemma {:induction false} PassInTwo(bar: Bar, xs: seq<Bytes>, ys: seq<Bytes>, accepts: nat)
    ensures var first := Pass(bar, xs, accepts);
            && (first.outcome == Done ==> |xs| <= accepts)
            && Pass(bar, xs + ys, accepts) ==
               if first.outcome == Done then Later(Pass(first.bar, ys, accepts - |xs|), |xs|) else first
    decreases |xs|
  {
    if xs == [] {
      assert xs + ys == ys;
    } else {
      assert (xs + ys)[0] == xs[0] && (xs + ys)[1..] == xs[1..] + ys;
      var (outcome, next) := Update(bar, |xs[0]|);
      if accepts > 0 {
        PassInTwo(next, xs[1..], ys, accepts - 1);
      }
    }
  }
}
