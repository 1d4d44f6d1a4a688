/**
 * model/producerconsumer2.go: the producer-consumer runner without a marker.
 * Entries are of any type `T`. A failing producer or consumer closes the
 * shared `fail` channel, which makes every other goroutine return nil; Run
 * returns the producer's error first, then the first consumer error by index.
 * As in the first runner, each method is one goroutine step.
 */
module ProducerConsumer2 {
  import opened Wrappers
  import opened Channel
  import PC = ProducerConsumer

  /** The error values of model/producerconsumer.go, ErrFinished among them. */
  type Error = PC.Error

  /** closeChanSafely: close the channel unless a receive shows it closed already. */
  method CloseChanSafely(c: Signal)
    requires c.Valid()
    modifies c
    ensures c.Valid() && c.closed
    ensures c.closes == if old(c.closed) then old(c.closes) else old(c.closes) + 1
  {
    if !c.closed {
      c.Close();
    }
  }

  /** The error Run returns: the producer's, else the first consumer's in index order, else nil. */
  method PickError(produceErr: Option<Error>, consumeErrs: seq<Option<Error>>) returns (err: Option<Error>)
    ensures produceErr != None ==> err == produceErr
    ensures produceErr == None && err == None ==> forall i :: 0 <= i < |consumeErrs| ==> consumeErrs[i] == None
    ensures produceErr == None && err != None ==>
      exists k :: 0 <= k < |consumeErrs| && err == consumeErrs[k]
        && forall i :: 0 <= i < k ==> consumeErrs[i] == None
  {
    if produceErr != None {
      return produceErr;
    }
    var i := 0;
    while i < |consumeErrs|
      invariant 0 <= i <= |consumeErrs|
      invariant forall j :: 0 <= j < i ==> consumeErrs[j] == None
    {
      if consumeErrs[i] != None {
        return consumeErrs[i];
      }
      i := i + 1;
    }
    return None;
  }

  /** Whether any goroutine has returned an error. */
  predicate AnyError(produceErr: Option<Error>, consumeErrs: seq<Option<Error>>) {
    produceErr != None || exists i :: 0 <= i < |consumeErrs| && consumeErrs[i] != None
  }

  /** NewProducerConsumer: refuse a consumer count below one, otherwise a runner with nothing done. */
  method NewProducerConsumer<T>(num: int) returns (p: ProducerConsumer?<T>, err: Option<string>)
    ensures num <= 0 ==> p == null && err == Some("invalid consumer number")
    ensures num > 0 ==> err == None && p != null && fresh(p) && fresh(p.fail)
    ensures p != null ==>
      && p.Valid() && p.consumerNum == num && p.buf == [] && !p.bufClosed
      && !p.producerDone && (forall i :: 0 <= i < num ==> !p.consumerDone[i])
  {
    if num <= 0 {
      p, err := null, Some("invalid consumer number");
      return;
    }
    p := new ProducerConsumer(num);
    err := None;
  }

  class ProducerConsumer<T> {
    const consumerNum: int
    const fail: Signal
    /** The entries in the channel, oldest first; its capacity is consumerNum. */
    var buf: seq<T>
    var bufClosed: bool
    var producerDone: bool
    var produceErr: Option<Error>
    var consumerDone: seq<bool>
    var consumeErrs: seq<Option<Error>>
    /** Entries pushed into the buffer, and entries consumers received from it. */
    ghost var produced: seq<T>
    ghost var received: seq<T>

    ghost predicate Valid()
      reads this, fail
    {
      && consumerNum > 0 && |buf| <= consumerNum
      && |consumerDone| == consumerNum && |consumeErrs| == consumerNum
      && fail.Valid()
      && (bufClosed ==> producerDone && produceErr == None)
      && (produceErr != None ==> producerDone)
      && (forall i :: 0 <= i < |consumeErrs| && consumeErrs[i] != None ==> consumerDone[i])
      && produced == received + buf
      && (fail.closed <==> AnyError(produceErr, consumeErrs))
      && (forall i :: 0 <= i < |consumerDone| && consumerDone[i] && consumeErrs[i] == None ==>
            fail.closed || (bufClosed && buf == []))
    }

    constructor (num: int)
      requires num > 0
      ensures Valid() && fresh(fail) && consumerNum == num
      ensures buf == [] && !bufClosed && !producerDone && produceErr == None
      ensures forall i :: 0 <= i < num ==> !consumerDone[i] && consumeErrs[i] == None
    {
      consumerNum := num;
      var f := new Signal();
      fail := f;
      buf, bufClosed := [], false;
      producerDone, produceErr := false, None;
      consumerDone := seq(num, _ => false);
      consumeErrs := seq(num, _ => None);
      produced, received := [], [];
    }

    /** BufferStatus: the number of entries waiting in the buffer, never above its capacity. */
    method BufferStatus() returns (n: int)
      requires Valid()
      ensures n == |buf| && 0 <= n <= consumerNum
    {
      n := |buf|;
    }

    /**
     * Produce returned an error: ErrFinished closes the buffer and the
     * producer returns nil; any other error closes `fail` safely, leaves the
     * buffer open, and the producer returns that error.
     */
    method ProduceErr(err: Error)
      requires Valid() && !producerDone
      modifies this`bufClosed, this`producerDone, this`produceErr, fail
      ensures Valid() && producerDone
      ensures err == PC.ErrFinished ==> bufClosed && produceErr == None && fail.closed == old(fail.closed)
      ensures err != PC.ErrFinished ==> !bufClosed && produceErr == Some(err) && fail.closed
      ensures buf == old(buf) && consumerDone == old(consumerDone) && consumeErrs == old(consumeErrs)
    {
      if err == PC.ErrFinished {
        bufClosed := true;
        producerDone, produceErr := true, None;
      } else {
        producerDone, produceErr := true, Some(err);
        CloseChanSafely(fail);
      }
    }

    /** The producer's select sends the produced entry into the buffer. */
    method Push(entry: T)
      requires Valid() && !producerDone && |buf| < consumerNum
      modifies this`buf, this`produced
      ensures Valid() && buf == old(buf) + [entry] && produced == old(produced) + [entry]
      ensures producerDone == old(producerDone) && consumerDone == old(consumerDone)
      ensures produceErr == old(produceErr) && consumeErrs == old(consumeErrs)
    {
      buf := buf + [entry];
      produced := produced + [entry];
    }

    /** The producer's select saw `fail` closed: it returns nil. */
    method ProducerSeesFail()
      requires Valid() && !producerDone && fail.closed
      modifies this`producerDone
      ensures Valid() && producerDone && produceErr == None && !bufClosed
      ensures buf == old(buf) && consumerDone == old(consumerDone) && consumeErrs == old(consumeErrs)
    {
      producerDone := true;
    }

    /** Consumer `i`'s select saw `fail` closed: it returns nil. */
    method ConsumerSeesFail(i: int)
      requires Valid() && 0 <= i < consumerNum && !consumerDone[i] && fail.closed
      modifies this`consumerDone
      ensures Valid() && consumerDone == old(consumerDone)[i := true] && consumeErrs == old(consumeErrs)
      ensures buf == old(buf) && producerDone == old(producerDone) && produceErr == old(produceErr)
    {
      consumerDone := consumerDone[i := true];
    }

    /** Consumer `i` received from the closed, drained buffer: it returns nil. */
    method ConsumerSeesClosed(i: int)
      requires Valid() && 0 <= i < consumerNum && !consumerDone[i] && bufClosed && buf == []
      modifies this`consumerDone
      ensures Valid() && consumerDone == old(consumerDone)[i := true] && consumeErrs == old(consumeErrs)
      ensures buf == old(buf) && producerDone == old(producerDone) && produceErr == old(produceErr)
    {
      consumerDone := consumerDone[i := true];
    }

    /** Consumer `i` received an entry and the consume function accepted it. */
    method ConsumeOk(i: int)
      requires Valid() && 0 <= i < consumerNum && !consumerDone[i] && buf != []
      modifies this`buf, this`received
      ensures Valid() && buf == old(buf[1..]) && received == old(received) + [old(buf[0])]
      ensures consumerDone == old(consumerDone) && consumeErrs == old(consumeErrs)
      ensures producerDone == old(producerDone) && produceErr == old(produceErr)
    {
      received := received + [buf[0]];
      buf := buf[1..];
    }

    /**
     * Consumer `i` received an entry and the consume function failed on it:
     * it closes `fail` safely and returns the error.
     */
    method ConsumeFailed(i: int, err: Error)
      requires Valid() && 0 <= i < consumerNum && !consumerDone[i] && buf != []
      modifies this`buf, this`received, this`consumerDone, this`consumeErrs, fail
      ensures Valid() && fail.closed
      ensures buf == old(buf[1..]) && received == old(received) + [old(buf[0])]
      ensures consumerDone == old(consumerDone)[i := true]
      ensures consumeErrs == old(consumeErrs)[i := Some(err)]
      ensures producerDone == old(producerDone) && produceErr == old(produceErr)
    {
      received := received + [buf[0]];
      buf := buf[1..];
      consumerDone := consumerDone[i := true];
      consumeErrs := consumeErrs[i := Some(err)];
      assert consumeErrs[i] != None;
      CloseChanSafely(fail);
    }

    /**
     * The end of Run, once every goroutine has returned: the error it picks.
     * A nil result means no goroutine failed, and then every entry pushed
     * was received.
     */
    method Wait() returns (err: Option<Error>)
      requires Valid() && producerDone
      requires forall i :: 0 <= i < consumerNum ==> consumerDone[i]
      ensures produceErr != None ==> err == produceErr
      ensures produceErr == None && err == None ==> forall i :: 0 <= i < consumerNum ==> consumeErrs[i] == None
      ensures produceErr == None && err != None ==>
        exists k :: 0 <= k < consumerNum && err == consumeErrs[k]
          && forall i :: 0 <= i < k ==> consumeErrs[i] == None
      ensures err == None ==> !fail.closed && received == produced
    {
      err := PickError(produceErr, consumeErrs);
      if err == None {
        assert consumerDone[0] && consumeErrs[0] == None;
      }
    }
  }

  /** A consumer that fails while the buffer still holds entries: Run returns its error, not nil. */
  method ConsumeFailScenario() returns (err: Option<Error>)
    ensures err == Some(PC.Failure("consumer exceed"))
  {
    var p := new ProducerConsumer<int>(2);
    p.Push(1);
    p.Push(2);
    p.ConsumeOk(0);
    p.Push(3);
    p.ConsumeFailed(1, PC.Failure("consumer exceed"));
    p.ProducerSeesFail();
    p.ConsumerSeesFail(0);
    err := p.Wait();
  }
}
