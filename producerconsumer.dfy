/**
 * model/producerconsumer.go: the producer-consumer runner with a checkpoint
 * marker. One producer pushes entries into a buffer of capacity `num`;
 * `num` consumers take them. Every goroutine step is one method here; its
 * precondition is the channel state under which the Go `select` can take
 * that branch, and the results of Produce and Consume are the methods'
 * parameters. On failure each exit path proposes a marker, and the runner
 * keeps the smallest non-zero one as the first entry not yet processed.
 */
module ProducerConsumer {
  import opened Wrappers
  import Strconv
  import Tool
  import GoInt
  import opened Channel

  /** A Go error value as these runners tell them apart: ErrFinished, or any other error. */
  datatype Error = ErrFinished | Failure(message: string)

  /**
   * What the runner asks of an entry (the E interface): its own marker and
   * the one after it. An entry travels as Option<Entry>, since Produce may
   * return a nil E without an error.
   */
  datatype Entry = Entry(marker: int, nextMarker: int)

  /** The state of one goroutine. */
  datatype Task = Running | Exited | Failed

  datatype ProducerConsumerConfig = ProducerConsumerConfig(
    outStop: Signal?, num: int, scCfg: Tool.SpeedometerConfig, markerFilePath: string)

  /** The marker a proposal would leave: 0 means unset, and a smaller candidate wins. */
  function Adopt(marker: int, candidate: int): (r: int)
    ensures r == candidate || r == marker
    ensures marker != 0 ==> r <= marker
  {
    if marker == 0 || candidate < marker then candidate else marker
  }

  /** The marker after the candidates `proposals` were offered to setMarker in turn. */
  function MarkerOf(proposals: seq<int>): int {
    if proposals == [] then 0
    else Adopt(MarkerOf(proposals[..|proposals| - 1]), proposals[|proposals| - 1])
  }

  /** The candidate setMarker takes from an entry. */
  function Candidate(entry: Entry, next: bool): int {
    if next then entry.nextMarker else entry.marker
  }

  /** The candidates setMarker offers for a possibly nil entry: none for nil, else one. */
  function Proposal(entry: Option<Entry>, next: bool): (r: seq<int>)
    ensures |r| <= 1 && (entry == None <==> r == [])
    ensures entry != None ==> r[0] == Candidate(entry.value, next)
  {
    if entry == None then [] else [Candidate(entry.value, next)]
  }

  /** With non-zero candidates, the marker is unset iff nothing was proposed, and otherwise their minimum. */
  lemma {:induction false} MarkerIsMin(proposals: seq<int>)
    requires forall k :: 0 <= k < |proposals| ==> proposals[k] != 0
    ensures MarkerOf(proposals) == 0 <==> proposals == []
    ensures proposals != [] ==> MarkerOf(proposals) in proposals
    ensures forall k :: 0 <= k < |proposals| ==> MarkerOf(proposals) <= proposals[k]
  {
    if proposals != [] {
      var init := proposals[..|proposals| - 1];
      MarkerIsMin(init);
      assert forall k :: 0 <= k < |init| ==> proposals[k] == init[k];
    }
  }

  /**
   * A candidate 0 puts an unset or positive marker back to unset, so the next
   * candidate replaces it; after a negative marker it is ignored like any
   * larger candidate.
   */
  lemma ZeroCandidate(proposals: seq<int>, c: int)
    ensures MarkerOf(proposals) >= 0 ==> MarkerOf(proposals + [0]) == 0
    ensures MarkerOf(proposals) >= 0 ==> MarkerOf(proposals + [0, c]) == c
    ensures MarkerOf(proposals) < 0 ==> MarkerOf(proposals + [0]) == MarkerOf(proposals)
  {
    assert (proposals + [0])[..|proposals + [0]| - 1] == proposals;
    assert (proposals + [0, c])[..|proposals + [0, c]| - 1] == proposals + [0];
  }

  /** Once set, the marker never grows and never becomes unset while the candidates are non-zero. */
  lemma {:induction false} MarkerNeverIncreases(proposals: seq<int>, more: seq<int>)
    requires MarkerOf(proposals) != 0
    requires forall k :: 0 <= k < |more| ==> more[k] != 0
    ensures MarkerOf(proposals + more) != 0
    ensures MarkerOf(proposals + more) <= MarkerOf(proposals)
  {
    if more != [] {
      var init := more[..|more| - 1];
      MarkerNeverIncreases(proposals, init);
      assert (proposals + more)[..|proposals + more| - 1] == proposals + init;
      assert (proposals + more)[|proposals + more| - 1] == more[|more| - 1];
      assert MarkerOf(proposals + more) == Adopt(MarkerOf(proposals + init), more[|more| - 1]);
    } else {
      assert proposals + more == proposals;
    }
  }

  /** safeClose: close the channel unless a receive shows it closed already. */
  method SafeClose(stop: Signal)
    requires stop.Valid()
    modifies stop
    ensures stop.Valid() && stop.closed
    ensures stop.closes == if old(stop.closed) then old(stop.closes) else old(stop.closes) + 1
  {
    if !stop.closed {
      stop.Close();
    }
  }

  /** Two safeClose calls on a fresh channel close it exactly once. */
  method SafeCloseTwice() returns (closes: nat)
    ensures closes == 1
  {
    var stop := new Signal();
    SafeClose(stop);
    SafeClose(stop);
    closes := stop.closes;
  }

  /** NewProducerConsumerRunner: refuse a consumer count below one, otherwise a runner with nothing done. */
  method NewProducerConsumerRunner(cfg: ProducerConsumerConfig, now: int)
    returns (p: ProducerConsumerRunner?, err: Option<string>)
    ensures cfg.num <= 0 ==> p == null && err == Some("invalid consumer num, < 0")
    ensures cfg.num > 0 ==> err == None && p != null && fresh(p) && fresh(p.stop) && fresh(p.speedCounter)
    ensures p != null ==>
      && p.Valid() && p.num == cfg.num && p.outStop == cfg.outStop
      && p.markerFilePath == cfg.markerFilePath && p.marker == 0 && p.buf == [] && !p.bufClosed
      && !p.producerDone && (forall i :: 0 <= i < p.num ==> p.consumers[i] == Running)
      && p.speedCounter.total == cfg.scCfg.total && p.speedCounter.processed == 0
      && p.speedCounter.processedBefore == cfg.scCfg.processedBefore
      && p.speedCounter.outputTimeIntervalSecond == cfg.scCfg.outputTimeIntervalSecond
      && p.speedCounter.outputNumInterval == cfg.scCfg.outputNumInterval
      && p.speedCounter.startTime == now && p.speedCounter.lastOutputTime == now
      && p.speedCounter.lastOutputNum == 0 && p.speedCounter.reports == []
  {
    if cfg.num <= 0 {
      p, err := null, Some("invalid consumer num, < 0");
      return;
    }
    p := new ProducerConsumerRunner(cfg, now);
    err := None;
  }

  class ProducerConsumerRunner {
    const num: int
    const stop: Signal
    const outStop: Signal?
    const speedCounter: Tool.Speedometer
    const markerFilePath: string
    /** The entries in the channel, oldest first. */
    var buf: seq<Option<Entry>>
    var bufClosed: bool
    /** The first entry not processed, or 0 while unset. */
    var marker: int
    /** The producer's last entry that went into the buffer. */
    var lastCommitEntry: Option<Entry>
    var producerDone: bool
    var consumers: seq<Task>
    /** The candidates offered to setMarker so far. */
    ghost var proposals: seq<int>
    /** Entries pushed into the buffer, and entries consumers received from it. */
    ghost var produced: seq<Option<Entry>>
    ghost var received: seq<Option<Entry>>

    ghost predicate Valid()
      reads this, stop, speedCounter
    {
      marker == MarkerOf(proposals) && Shape()
    }

    /** Everything Valid asks of the fields that setMarker leaves alone. */
    ghost predicate Shape()
      reads this`buf, this`bufClosed, this`lastCommitEntry, this`producerDone, this`consumers
      reads this`produced, this`received, stop, speedCounter
    {
      && num > 0 && |buf| <= num && |consumers| == num
      && stop.Valid() && outStop != stop
      && (bufClosed <==> producerDone)
      && produced == received + buf
      && speedCounter.processed == |produced|
      && speedCounter.lastOutputNum <= speedCounter.processed
      && lastCommitEntry == (if produced == [] then None else produced[|produced| - 1])
      && (forall i :: 0 <= i < |consumers| && consumers[i] == Exited ==> bufClosed && buf == [])
      && (stop.closed <==> AnyFailed(consumers))
    }

    constructor (cfg: ProducerConsumerConfig, now: int)
      requires cfg.num > 0
      ensures Valid() && fresh(stop) && fresh(speedCounter)
      ensures num == cfg.num && outStop == cfg.outStop && markerFilePath == cfg.markerFilePath
      ensures marker == 0 && buf == [] && !bufClosed && lastCommitEntry == None
      ensures !producerDone && (forall i :: 0 <= i < num ==> consumers[i] == Running)
      ensures speedCounter.total == cfg.scCfg.total && speedCounter.processed == 0
      ensures speedCounter.processedBefore == cfg.scCfg.processedBefore
      ensures speedCounter.outputTimeIntervalSecond == cfg.scCfg.outputTimeIntervalSecond
      ensures speedCounter.outputNumInterval == cfg.scCfg.outputNumInterval
      ensures speedCounter.startTime == now && speedCounter.lastOutputTime == now
      ensures speedCounter.lastOutputNum == 0 && speedCounter.reports == []
    {
      num := cfg.num;
      var s := new Signal();
      stop := s;
      outStop := cfg.outStop;
      speedCounter := new Tool.Speedometer(cfg.scCfg, now);
      markerFilePath := cfg.markerFilePath;
      buf, bufClosed, marker, lastCommitEntry := [], false, 0, None;
      producerDone := false;
      consumers := seq(cfg.num, _ => Running);
      proposals, produced, received := [], [], [];
    }

    /** setMarker: offer the entry's marker, or its next marker, as a candidate; a missing entry offers nothing. */
    method SetMarker(entry: Option<Entry>, next: bool)
      requires marker == MarkerOf(proposals)
      modifies this`marker, this`proposals
      ensures entry == None ==> marker == old(marker) && proposals == old(proposals)
      ensures entry != None ==> proposals == old(proposals) + [Candidate(entry.value, next)]
      ensures entry != None ==> marker == Adopt(old(marker), Candidate(entry.value, next))
      ensures marker == MarkerOf(proposals)
    {
      if entry != None {
        var thisMarker := entry.value.marker;
        if next {
          thisMarker := entry.value.nextMarker;
        }
        if marker == 0 || thisMarker < marker {
          marker := thisMarker;
        }
        proposals := proposals + [thisMarker];
        assert proposals[..|proposals| - 1] == old(proposals);
      }
    }

    /** The producer's select sends the produced entry, nil or not, into the buffer and counts it. */
    method Push(entry: Option<Entry>, now: int)
      requires Valid() && !producerDone && |buf| < num
      modifies this`buf, this`produced, this`lastCommitEntry
      modifies speedCounter`processed, speedCounter`lastOutputNum, speedCounter`lastOutputTime
      modifies speedCounter`reports
      ensures Valid()
      ensures buf == old(buf) + [entry] && lastCommitEntry == entry
      ensures produced == old(produced) + [entry] && received == old(received)
      ensures speedCounter.processed == old(speedCounter.processed) + 1
      ensures speedCounter.processedBefore == old(speedCounter.processedBefore)
      ensures speedCounter.lastOutputNum ==
        if old(speedCounter.CountDue(speedCounter.processed + 1)) then speedCounter.processed
        else old(speedCounter.lastOutputNum)
      ensures speedCounter.lastOutputTime ==
        if old(speedCounter.TimeDue(now)) then now else old(speedCounter.lastOutputTime)
      ensures speedCounter.reports == old(speedCounter.reports)
        + (if old(speedCounter.CountDue(speedCounter.processed + 1)) then [speedCounter.ProgressAt(now)] else [])
        + (if old(speedCounter.TimeDue(now)) then [speedCounter.ProgressAt(now)] else [])
      ensures marker == old(marker) && proposals == old(proposals)
      ensures bufClosed == old(bufClosed) && producerDone == old(producerDone)
      ensures consumers == old(consumers)
    {
      buf := buf + [entry];
      produced := produced + [entry];
      speedCounter.Increase(now);
      lastCommitEntry := entry;
    }

    /**
     * Produce returned an error: ErrFinished proposes nothing, any other error
     * proposes the next marker of the last entry pushed; either way the
     * producer closes the buffer and exits.
     */
    method ProduceErr(err: Error)
      requires Valid() && !producerDone
      modifies this`marker, this`proposals, this`bufClosed, this`producerDone
      ensures Valid() && producerDone && bufClosed
      ensures err == ErrFinished ==> proposals == old(proposals) && marker == old(marker)
      ensures err != ErrFinished ==> proposals == old(proposals) + Proposal(lastCommitEntry, true)
      ensures err != ErrFinished ==> marker == AdoptAll(old(marker), Proposal(lastCommitEntry, true))
    {
      if err != ErrFinished {
        SetMarker(lastCommitEntry, true);
      }
      CloseBuffer();
    }

    /**
     * The producer's select saw outStop or stop closed: it proposes the next
     * marker of the last entry pushed, closes the buffer and exits.
     */
    method ProducerStopped()
      requires Valid() && !producerDone
      requires stop.closed || (outStop != null && outStop.closed)
      modifies this`marker, this`proposals, this`bufClosed, this`producerDone
      ensures Valid() && producerDone && bufClosed
      ensures proposals == old(proposals) + Proposal(lastCommitEntry, true)
      ensures marker == AdoptAll(old(marker), Proposal(lastCommitEntry, true))
    {
      SetMarker(lastCommitEntry, true);
      CloseBuffer();
    }

    /** close(p.buf) as the producer exits. */
    method CloseBuffer()
      requires Shape() && !producerDone
      modifies this`bufClosed, this`producerDone
      ensures Shape() && producerDone && bufClosed
    {
      bufClosed, producerDone := true, true;
    }

    /** Consumer `i` received an entry and Consume accepted it. */
    method ConsumeOk(i: int)
      requires Valid() && 0 <= i < num && consumers[i] == Running && buf != []
      modifies this`buf, this`received
      ensures Valid()
      ensures buf == old(buf[1..]) && received == old(received) + [old(buf[0])]
    {
      var entry := Receive();
    }

    /**
     * Consumer `i` received an entry and Consume failed on it: the consumer
     * proposes that entry's own marker (nothing for a nil entry), closes
     * `stop` safely and exits.
     */
    method ConsumeFail(i: int)
      requires Valid() && 0 <= i < num && consumers[i] == Running && buf != []
      modifies this`buf, this`received, this`marker, this`proposals, this`consumers, stop
      ensures Valid() && stop.closed
      ensures buf == old(buf[1..]) && received == old(received) + [old(buf[0])]
      ensures proposals == old(proposals) + Proposal(old(buf[0]), false)
      ensures marker == AdoptAll(old(marker), Proposal(old(buf[0]), false))
      ensures consumers == old(consumers)[i := Failed]
    {
      var entry := Receive();
      SetMarker(entry, false);
      Fail(i);
    }

    /** `entry, ok := <-p.buf` on a non-empty buffer. */
    method Receive() returns (entry: Option<Entry>)
      requires Shape() && buf != []
      modifies this`buf, this`received
      ensures Shape() && entry == old(buf[0])
      ensures buf == old(buf[1..]) && received == old(received) + [entry]
    {
      entry := buf[0];
      received := received + [entry];
      buf := buf[1..];
    }

    /** A failing consumer records its failure and closes `stop` safely. */
    method Fail(i: int)
      requires Shape() && 0 <= i < num && consumers[i] == Running
      modifies this`consumers, stop
      ensures Shape() && stop.closed && consumers == old(consumers)[i := Failed]
    {
      consumers := consumers[i := Failed];
      assert consumers[i] == Failed;
      SafeClose(stop);
    }

    /** Consumer `i` received from the closed, drained buffer and exits. */
    method ConsumerExit(i: int)
      requires Valid() && 0 <= i < num && consumers[i] == Running && bufClosed && buf == []
      modifies this`consumers
      ensures Valid() && consumers == old(consumers)[i := Exited]
    {
      ExitKeepsFailures(consumers, i);
      consumers := consumers[i := Exited];
    }

    /**
     * The end of Run, once every goroutine has exited: the marker is recorded
     * only when set, and written to the marker file only when a path is
     * given; the speedometer is closed in every case. Unless every consumer
     * failed, all entries pushed were received.
     */
    method Finish(now: int) returns (recorded: bool, written: Option<string>, summary: Tool.Summary)
      requires Valid() && producerDone
      requires forall i :: 0 <= i < num ==> consumers[i] != Running
      ensures recorded <==> marker != 0
      ensures written != None <==> marker != 0 && markerFilePath != ""
      ensures written != None ==> written.value == Strconv.FormatInt(marker, 10)
      ensures summary.total == |produced| + speedCounter.processedBefore
      ensures summary.processedThis == |produced| && summary.processedBefore == speedCounter.processedBefore
      ensures summary.useTime == Tool.HumanTimeOf(now - speedCounter.startTime)
      ensures summary.speed.Some? <==> now != speedCounter.startTime
      ensures summary.speed.Some? ==> summary.speed.value == GoInt.Quo(|produced|, now - speedCounter.startTime)
      ensures (exists i :: 0 <= i < num && consumers[i] == Exited) ==> received == produced
    {
      recorded, written := false, None;
      if marker != 0 {
        recorded := true;
        if markerFilePath != "" {
          written := Some(Strconv.FormatInt(marker, 10));
        }
      }
      summary := speedCounter.Close(now);
    }
  }

  /** The marker after offering at most one candidate. */
  function AdoptAll(marker: int, candidates: seq<int>): int
    requires |candidates| <= 1
  {
    if candidates == [] then marker else Adopt(marker, candidates[0])
  }

  /** Some consumer has failed. */
  predicate AnyFailed(consumers: seq<Task>) {
    exists i :: 0 <= i < |consumers| && consumers[i] == Failed
  }

  /** A running consumer that exits normally changes nothing about whether some consumer failed. */
  lemma ExitKeepsFailures(consumers: seq<Task>, i: int)
    requires 0 <= i < |consumers| && consumers[i] == Running
    ensures AnyFailed(consumers[i := Exited]) == AnyFailed(consumers)
  {
    if AnyFailed(consumers) {
      var j :| 0 <= j < |consumers| && consumers[j] == Failed;
      assert consumers[i := Exited][j] == Failed;
    }
  }

  /** The entries of model/producerconsumer_test.go: the marker is the id, the next marker id + 1. */
  function TestEntry(id: int): (e: Entry)
    ensures Candidate(e, false) == id && Candidate(e, true) == id + 1
  {
    Entry(id, id + 1)
  }

  /** The marker file of the scenarios below holds "21". */
  lemma FormatMarker21()
    ensures Strconv.FormatInt(21, 10) == "21"
  {
    assert Strconv.FormatUint(2, 10) == "2";
  }

  /** A runner with two consumers, no speedometer triggers and a marker file. */
  method NewTestRunner(now: int) returns (p: ProducerConsumerRunner)
    ensures fresh(p) && fresh(p.stop) && fresh(p.speedCounter)
    ensures p.Valid() && p.num == 2 && p.markerFilePath == "test-marker.txt"
    ensures p.marker == 0 && p.buf == [] && p.lastCommitEntry == None && !p.producerDone
    ensures p.consumers == [Running, Running] && p.speedCounter.processedBefore == 0
    ensures p.speedCounter.processed == 0 && p.speedCounter.startTime == now
  {
    var cfg := ProducerConsumerConfig(null, 2, Tool.SpeedometerConfig(0, 0, 0, 0), "test-marker.txt");
    var r, err := NewProducerConsumerRunner(cfg, now);
    p := r;
    assert p.consumers == [Running, Running];
  }

  /**
   * The producer pushes `first`..`last` and consumer 0 accepts each one; the
   * marker stays unset and the producer remembers `last`.
   */
  method PushAndConsume(p: ProducerConsumerRunner, first: int, last: int, now: int)
    requires p.Valid() && !p.producerDone && p.buf == [] && p.consumers[0] == Running
    requires first <= last + 1
    modifies p, p.speedCounter
    ensures p.Valid() && !p.producerDone && p.buf == [] && p.consumers == old(p.consumers)
    ensures p.marker == old(p.marker) && p.proposals == old(p.proposals)
    ensures first <= last ==> p.lastCommitEntry == Some(TestEntry(last))
    ensures first > last ==> p.lastCommitEntry == old(p.lastCommitEntry)
    ensures p.speedCounter.processed == old(p.speedCounter.processed) + (last - first + 1)
    ensures p.speedCounter.processedBefore == old(p.speedCounter.processedBefore)
    ensures p.speedCounter.startTime == old(p.speedCounter.startTime)
  {
    var id := first;
    while id <= last
      invariant first <= id <= last + 1
      invariant p.Valid() && !p.producerDone && p.buf == [] && p.consumers == old(p.consumers)
      invariant p.marker == old(p.marker) && p.proposals == old(p.proposals)
      invariant id > first ==> p.lastCommitEntry == Some(TestEntry(id - 1))
      invariant id == first ==> p.lastCommitEntry == old(p.lastCommitEntry)
      invariant p.speedCounter.processed == old(p.speedCounter.processed) + (id - first)
      invariant p.speedCounter.processedBefore == old(p.speedCounter.processedBefore)
      invariant p.speedCounter.startTime == old(p.speedCounter.startTime)
    {
      p.Push(Some(TestEntry(id)), now);
      p.ConsumeOk(0);
      id := id + 1;
    }
  }

  /** Every consumer still running receives "closed" from the drained buffer and exits. */
  method ExitRunning(p: ProducerConsumerRunner)
    requires p.Valid() && p.bufClosed && p.buf == [] && p.num == 2
    modifies p`consumers
    ensures p.Valid() && forall i :: 0 <= i < 2 ==> p.consumers[i] != Running
    ensures forall i :: 0 <= i < 2 && old(p.consumers[i]) == Running ==> p.consumers[i] == Exited
  {
    if p.consumers[0] == Running {
      p.ConsumerExit(0);
    }
    if p.consumers[1] == Running {
      p.ConsumerExit(1);
    }
  }

  /**
   * ProduceBad with ConsumeOk: entries 1..20 go through, then Produce fails;
   * the marker is 21, the entry after the last one pushed, and "21" is written.
   */
  method ProduceFailScenario(now: int) returns (marker: int, written: Option<string>)
    ensures marker == 21 && written == Some("21")
  {
    var p := NewTestRunner(now);
    PushAndConsume(p, 1, 20, now);
    p.ProduceErr(Error.Failure("producer exceed"));
    ExitRunning(p);
    var recorded, summary;
    recorded, written, summary := p.Finish(now);
    marker := p.marker;
    FormatMarker21();
  }

  /** The producer pushes entry 21 and consumer 0 fails on it, proposing 21 and closing `stop`. */
  method FailOn21(p: ProducerConsumerRunner, now: int)
    requires p.Valid() && !p.producerDone && p.buf == [] && p.marker == 0
    requires p.consumers == [Running, Running]
    modifies p, p.stop, p.speedCounter
    ensures p.Valid() && !p.producerDone && p.buf == [] && p.marker == 21 && p.stop.closed
    ensures p.consumers == [Failed, Running]
    ensures p.speedCounter.processed == old(p.speedCounter.processed) + 1
    ensures p.speedCounter.processedBefore == old(p.speedCounter.processedBefore)
  {
    p.Push(Some(TestEntry(21)), now);
    p.ConsumeFail(0);
  }

  /**
   * The producer's select still takes the send branch for entry 22, then
   * sees `stop` and proposes 23; the marker stays 21.
   */
  method PushAfterStop(p: ProducerConsumerRunner, now: int)
    requires p.Valid() && !p.producerDone && p.buf == [] && p.marker == 21 && p.stop.closed
    modifies p, p.speedCounter
    ensures p.Valid() && p.marker == 21 && p.buf == [Some(TestEntry(22))] && p.bufClosed
    ensures p.consumers == old(p.consumers)
    ensures p.speedCounter.processed == old(p.speedCounter.processed) + 1
    ensures p.speedCounter.processedBefore == old(p.speedCounter.processedBefore)
  {
    p.Push(Some(TestEntry(22)), now);
    p.ProducerStopped();
  }

  /**
   * ProduceOk with ConsumeBad: consumer 0 fails on entry 21, the marker ends
   * at 21, and consumer 1 takes entry 22 from the buffer and fails on it too
   * (proposing 22, which loses to 21); 22 entries were counted.
   */
  method ConsumeFailScenario(now: int) returns (marker: int, written: Option<string>, total: int)
    ensures marker == 21 && written == Some("21") && total == 22
  {
    var p := ConsumeFailRun(now);
    var recorded, summary;
    recorded, written, summary := p.Finish(now);
    marker := p.marker;
    total := summary.total;
    FormatMarker21();
  }

  /** The goroutine steps of ConsumeFailScenario, up to the point where every goroutine has exited. */
  method ConsumeFailRun(now: int) returns (p: ProducerConsumerRunner)
    ensures p.Valid() && p.producerDone && p.num == 2 && p.consumers == [Failed, Failed]
    ensures p.marker == 21 && p.markerFilePath == "test-marker.txt"
    ensures p.speedCounter.processed == 22 && p.speedCounter.processedBefore == 0
  {
    p := NewTestRunner(now);
    PushAndConsume(p, 1, 20, now);
    FailOn21(p, now);
    PushAfterStop(p, now);
    p.ConsumeFail(1);
  }

  /**
   * Produce returns a nil entry after entry 1, then an error: the nil entry
   * is the last one pushed, so the exiting producer proposes nothing and no
   * marker is recorded, although entry 1 was the last one processed.
   */
  method NilEntryScenario(now: int) returns (recorded: bool, written: Option<string>)
    ensures !recorded && written == None
  {
    var p := NewTestRunner(now);
    p.Push(Some(TestEntry(1)), now);
    p.ConsumeOk(0);
    p.Push(None, now);
    p.ConsumeOk(0);
    p.ProduceErr(Error.Failure("producer exceed"));
    ExitRunning(p);
    var summary;
    recorded, written, summary := p.Finish(now);
  }

  /**
   * ProduceOk with ConsumeOk: entries 1..40 go through and Produce reports
   * ErrFinished; the marker stays unset, nothing is written, and the summary
   * counts 40 entries, with no speed since no time passed on the clock.
   */
  method FinishScenario(now: int) returns (recorded: bool, written: Option<string>, total: int, speed: Option<int>)
    ensures !recorded && written == None && total == 40 && speed == None
  {
    var p := NewTestRunner(now);
    PushAndConsume(p, 1, 40, now);
    p.ProduceErr(ErrFinished);
    ExitRunning(p);
    var summary;
    recorded, written, summary := p.Finish(now);
    total, speed := summary.total, summary.speed;
  }
}
