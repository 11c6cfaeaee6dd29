/** ByteSource: a PipeReader wrapper that remembers the last ReadResult it handed out
    and counts the bytes consumed so far. The pipe itself is not modelled: what it answers
    to a read is a parameter, and what the wrapper asks of it is recorded as a call log. */
module ByteSources {
  import opened Results
  import opened BigEndian

  /** The part of a ReadResult the wrapper uses: the buffered bytes. */
  datatype ReadResult = ReadResult(buffer: Bytes, isCompleted: bool, isCanceled: bool)

  /** A call the wrapper makes on the inner PipeReader's AdvanceTo. Sequence positions
      are byte offsets into the current buffer. */
  datatype PipeCall =
    | Consume(consumed: nat)
    | ConsumeExamine(consumed: nat, examined: nat)

  /** The exceptions IncrementPosition lets out. */
  datatype SourceError =
    | NoBufferToAdvanceWithin  // InvalidOperationException when no read has happened yet
    | ConsumedOutOfRange       // ArgumentOutOfRangeException from Buffer.Slice(0, consumed)

  /** Position, the remembered ReadResult, and the calls made on the inner reader. */
  datatype ByteSource = ByteSource(position: nat, current: Option<ReadResult>, calls: seq<PipeCall>)

  /** A value handed back together with the source as it is afterwards. */
  datatype Stepped<+T> = Stepped(value: T, source: ByteSource)

  /** A new ByteSource: nothing read, nothing consumed. */
  function New(): (src: ByteSource)
    ensures src.position == 0 && src.current.None? && src.calls == []
  {
    ByteSource(0, None, [])
  }

  /** TryRead: `inner` is the pipe's answer, None when it has nothing buffered. Only a
      successful read replaces the remembered buffer. */
  function TryRead(src: ByteSource, inner: Option<ReadResult>): (r: Stepped<bool>)
    ensures r.value <==> inner.Some?
    ensures r.value ==> r.source.current == inner
    ensures !r.value ==> r.source == src
    ensures r.source.position == src.position && r.source.calls == src.calls
  {
    match inner
    case Some(result) => Stepped(true, src.(current := Some(result)))
    case None => Stepped(false, src)
  }

  /** ReadAsync: whatever the pipe returns becomes the remembered buffer and is passed on. */
  function ReadAsync(src: ByteSource, result: ReadResult): (r: Stepped<ReadResult>)
    ensures r.value == result && r.source.current == Some(result)
    ensures r.source.position == src.position && r.source.calls == src.calls
  {
    Stepped(result, src.(current := Some(result)))
  }

  /** IncrementPosition: the length of the remembered buffer up to `consumed`, added to
      Position. A position beyond the buffer is refused by Slice. */
  function IncrementPosition(src: ByteSource, consumed: nat): (r: Result<nat, SourceError>)
    ensures src.current.None? ==> r == Err(NoBufferToAdvanceWithin)
    ensures src.current.Some? ==> (r.Ok? <==> consumed <= |src.current.value.buffer|)
    ensures src.current.Some? && r.Err? ==> r.error == ConsumedOutOfRange
    ensures r.Ok? ==> r.value == src.position + consumed && r.value >= src.position
  {
    match src.current
    case None => Err(NoBufferToAdvanceWithin)
    case Some(result) =>
      if consumed > |result.buffer| then Err(ConsumedOutOfRange)
      else Ok(src.position + |result.buffer[..consumed]|)
  }

  /** AdvanceTo(consumed): count first, then pass the call on; a throw from the count
      leaves the source and the pipe untouched. The remembered buffer is kept as it was. */
  function AdvanceTo(src: ByteSource, consumed: nat): (r: Result<ByteSource, SourceError>)
    ensures r.Ok? <==> src.current.Some? && consumed <= |src.current.value.buffer|
    ensures src.current.None? ==> r == Err(NoBufferToAdvanceWithin)
    ensures r.Ok? ==> r.value == ByteSource(src.position + consumed, src.current, src.calls + [Consume(consumed)])
  {
    var position :- IncrementPosition(src, consumed);
    Ok(src.(position := position, calls := src.calls + [Consume(consumed)]))
  }

  /** AdvanceTo(consumed, examined): the same count, and both positions passed on. */
  function AdvanceToExamined(src: ByteSource, consumed: nat, examined: nat): (r: Result<ByteSource, SourceError>)
    ensures r.Ok? <==> src.current.Some? && consumed <= |src.current.value.buffer|
    ensures src.current.None? ==> r == Err(NoBufferToAdvanceWithin)
    ensures r.Ok? ==> r.value == ByteSource(src.position + consumed, src.current, src.calls + [ConsumeExamine(consumed, examined)])
  {
    var position :- IncrementPosition(src, consumed);
    Ok(src.(position := position, calls := src.calls + [ConsumeExamine(consumed, examined)]))
  }

  /** MarkSequenceAsExamined: consume nothing, examine the whole remembered buffer. Without
      a buffer it does nothing (the Debug.Assert is compiled out of release builds). */
  function MarkSequenceAsExamined(src: ByteSource): (r: ByteSource)
    ensures r.position == src.position && r.current == src.current
    ensures src.current.None? ==> r == src
    ensures src.current.Some? ==> r.calls == src.calls + [ConsumeExamine(0, |src.current.value.buffer|)]
  {
    match src.current
    case None => src
    case Some(result) =>
      match AdvanceToExamined(src, 0, |result.buffer|)
      case Ok(next) => next
      case Err(_) => src
  }

  // ---------------------------------------------------------------- sessions

  /** One call a parser makes on the source, with the pipe's answer where there is one. */
  datatype Op =
    | OpTryRead(inner: Option<ReadResult>)
    | OpReadAsync(result: ReadResult)
    | OpAdvanceTo(consumed: nat)
    | OpAdvanceToExamined(consumed: nat, examined: nat)
    | OpMarkExamined

  function Step(src: ByteSource, op: Op): Result<ByteSource, SourceError> {
    match op
    case OpTryRead(inner) => Ok(TryRead(src, inner).source)
    case OpReadAsync(result) => Ok(ReadAsync(src, result).source)
    case OpAdvanceTo(consumed) => AdvanceTo(src, consumed)
    case OpAdvanceToExamined(consumed, examined) => AdvanceToExamined(src, consumed, examined)
    case OpMarkExamined => Ok(MarkSequenceAsExamined(src))
  }

  /** The calls in order; the first exception ends the session. */
  function Run(src: ByteSource, ops: seq<Op>): Result<ByteSource, SourceError>
    decreases |ops|
  {
    if |ops| == 0 then Ok(src)
    else
      var next :- Step(src, ops[0]);
      Run(next, ops[1..])
  }

  /** Bytes the pipe has been told are consumed, over a call log. */
  function ConsumedTotal(calls: seq<PipeCall>): nat
    decreases |calls|
  {
    if |calls| == 0 then 0 else ConsumedTotal(calls[..|calls| - 1]) + calls[|calls| - 1].consumed
  }

  lemma ConsumedTotalAppend(calls: seq<PipeCall>, call: PipeCall)
    ensures ConsumedTotal(calls + [call]) == ConsumedTotal(calls) + call.consumed
  {
    assert (calls + [call])[..|calls|] == calls;
  }

  /** Every step keeps Position in step with what the pipe was told: the change in Position
      is the consumed count of the calls the step added to the log. */
  lemma StepKeepsCount(src: ByteSource, op: Op)
    requires Step(src, op).Ok?
    ensures src.calls <= Step(src, op).value.calls
    ensures Step(src, op).value.position - ConsumedTotal(Step(src, op).value.calls)
         == src.position - ConsumedTotal(src.calls)
  {
    match op
    case OpAdvanceTo(consumed) =>
      ConsumedTotalAppend(src.calls, Consume(consumed));
    case OpAdvanceToExamined(consumed, examined) =>
      ConsumedTotalAppend(src.calls, ConsumeExamine(consumed, examined));
    case OpMarkExamined =>
      if src.current.Some? {
        ConsumedTotalAppend(src.calls, ConsumeExamine(0, |src.current.value.buffer|));
      }
    case _ =>
  }

  /** Over a whole session, Position grows by exactly the bytes passed to the pipe as
      consumed, and the earlier log is kept as a prefix. */
  lemma {:induction false} RunKeepsCount(src: ByteSource, ops: seq<Op>)
    requires Run(src, ops).Ok?
    ensures src.calls <= Run(src, ops).value.calls
    ensures Run(src, ops).value.position - ConsumedTotal(Run(src, ops).value.calls)
         == src.position - ConsumedTotal(src.calls)
    decreases |ops|
  {
    if |ops| > 0 {
      var next := Step(src, ops[0]).value;
      StepKeepsCount(src, ops[0]);
      RunKeepsCount(next, ops[1..]);
    }
  }

  /** From a new source, Position is the total consumed, and it never goes down. */
  lemma PositionIsTotalConsumed(ops: seq<Op>)
    requires Run(New(), ops).Ok?
    ensures Run(New(), ops).value.position == ConsumedTotal(Run(New(), ops).value.calls)
  {
    RunKeepsCount(New(), ops);
  }

  lemma {:induction false} ConsumedTotalPrefix(calls: seq<PipeCall>, longer: seq<PipeCall>)
    requires calls <= longer
    ensures ConsumedTotal(calls) <= ConsumedTotal(longer)
    decreases |longer|
  {
    if |calls| < |longer| {
      var shorter := longer[..|longer| - 1];
      assert calls <= shorter;
      ConsumedTotalPrefix(calls, shorter);
    } else {
      assert calls == longer;
    }
  }

  lemma PositionNeverDecreases(src: ByteSource, ops: seq<Op>)
    requires Run(src, ops).Ok?
    ensures src.position <= Run(src, ops).value.position
  {
    RunKeepsCount(src, ops);
    ConsumedTotalPrefix(src.calls, Run(src, ops).value.calls);
  }

  /** Before any read, every advance throws and nothing else moves Position. */
  lemma {:induction false} NoAdvanceBeforeRead(ops: seq<Op>)
    requires forall i :: 0 <= i < |ops| ==> !ops[i].OpTryRead? && !ops[i].OpReadAsync?
    requires exists i :: 0 <= i < |ops| && (ops[i].OpAdvanceTo? || ops[i].OpAdvanceToExamined?)
    ensures Run(New(), ops) == Err(NoBufferToAdvanceWithin)
    decreases |ops|
  {
    if ops[0].OpMarkExamined? {
      var i :| 0 <= i < |ops| && (ops[i].OpAdvanceTo? || ops[i].OpAdvanceToExamined?);
      assert ops[1..][i - 1] == ops[i];
      NoAdvanceBeforeRead(ops[1..]);
    }
  }
}
