/** The usage meter's writer as a state machine over interleaved steps (internal/meter/meter.go). */
module Meter {
  import opened Prelude

  /** One row of the usage ledger, identified by its content. */
  type Row = string

  datatype Limits = Limits(channel: nat, batch: nat)

  /** `New` replaces sizes that are not positive. */
  ghost predicate Sized(l: Limits) { l.channel >= 1 && l.batch >= 1 }

  /** `accepted` lists the rows that Record put on the channel; `handed` the batches the sink got. */
  datatype State = State(
    accepted: seq<Row>, channel: seq<Row>, buf: seq<Row>, handed: seq<seq<Row>>,
    enqueued: nat, dropped: nat, written: nat, failed: nat, closing: bool, finished: bool)

  const START := State([], [], [], [], 0, 0, 0, 0, false, false)

  /** A step of some goroutine; `ok` is what the sink answers if it is called. */
  datatype Step =
    | Record(row: Row)
    | Receive(ok: bool)
    | Tick(ok: bool)
    | Close

  function WriteBatch(s: State, ok: bool): State {
    if s.buf == [] then s
    else
      s.(handed := s.handed + [s.buf],
         written := if ok then s.written + |s.buf| else s.written,
         failed := if ok then s.failed else s.failed + |s.buf|,
         buf := [])
  }

  /** The writer's receive: one row from the channel to the buffer. */
  function Taken(s: State): State
    requires s.channel != []
  {
    s.(channel := s.channel[1..], buf := s.buf + [s.channel[0]])
  }

  /** A step that is blocked leaves the state as it is: the writer has nothing to receive, or has
      returned; a closing meter takes no rows. */
  function Next(l: Limits, s: State, step: Step): State {
    match step
    case Record(row) =>
      if s.closing then s
      else if |s.channel| < l.channel then
        s.(channel := s.channel + [row], accepted := s.accepted + [row], enqueued := s.enqueued + 1)
      else s.(dropped := s.dropped + 1)
    case Receive(ok) =>
      if s.finished then s
      else if s.channel == [] then
        if s.closing then WriteBatch(s, ok).(finished := true) else s
      else
        var taken := Taken(s);
        if |taken.buf| >= l.batch then WriteBatch(taken, ok) else taken
    case Tick(ok) => if s.finished then s else WriteBatch(s, ok)
    case Close => s.(closing := true)
  }

  function Run(l: Limits, s: State, steps: seq<Step>): State {
    if steps == [] then s else Next(l, Run(l, s, steps[..|steps| - 1]), steps[|steps| - 1])
  }

  // ---------------------------------------------------------------- conservation

  ghost predicate Conserves(l: Limits, s: State) {
    && s.accepted == Concat(s.handed) + s.buf + s.channel
    && s.written + s.failed == |Concat(s.handed)|
    && s.enqueued == |s.accepted|
    && (forall i :: 0 <= i < |s.handed| ==> 1 <= |s.handed[i]| <= l.batch)
    && |s.buf| < l.batch && |s.channel| <= l.channel
    && (s.finished ==> s.closing && s.buf == [] && s.channel == [])
  }

  lemma ConcatSnoc(bs: seq<seq<Row>>, b: seq<Row>)
    ensures Concat(bs + [b]) == Concat(bs) + b
  {
    ConcatAppend(bs, [b]);
    assert Concat([b]) == b + [];
  }

  /** The parts of `Conserves` that a flush can break, without the bound on the buffer. */
  ghost predicate Accounts(l: Limits, s: State) {
    && s.accepted == Concat(s.handed) + s.buf + s.channel
    && s.written + s.failed == |Concat(s.handed)|
    && s.enqueued == |s.accepted|
    && (forall i :: 0 <= i < |s.handed| ==> 1 <= |s.handed[i]| <= l.batch)
    && |s.buf| <= l.batch && |s.channel| <= l.channel
  }

  lemma WriteBatchAccounts(l: Limits, s: State, ok: bool)
    requires Accounts(l, s)
    ensures Accounts(l, WriteBatch(s, ok)) && WriteBatch(s, ok).buf == []
    ensures var t := WriteBatch(s, ok); t.channel == s.channel && t.finished == s.finished && t.closing == s.closing
  {
    hide Concat;
    ConcatSnoc(s.handed, s.buf);
    assert Concat(s.handed) + s.buf + [] == Concat(s.handed) + s.buf;
  }

  lemma TakenAccounts(l: Limits, s: State)
    requires Accounts(l, s) && |s.buf| < l.batch && s.channel != []
    ensures Accounts(l, Taken(s))
  {}

  lemma NextConserves(l: Limits, s: State, step: Step)
    requires Sized(l) && Conserves(l, s)
    ensures Conserves(l, Next(l, s, step))
  {
    hide Concat, WriteBatch;
    assert Accounts(l, s);
    match step
    case Record(row) =>
    case Receive(ok) =>
      if s.channel != [] {
        TakenAccounts(l, s);
        WriteBatchAccounts(l, Taken(s), ok);
      } else {
        WriteBatchAccounts(l, s, ok);
      }
    case Tick(ok) =>
      WriteBatchAccounts(l, s, ok);
    case Close =>
  }

  /** In every interleaving the accepted rows are, in order, the batches handed over, then the
      buffer, then the channel; the counters count them; and every batch has 1 to BatchSize rows. */
  lemma {:induction false} EveryRunConserves(l: Limits, steps: seq<Step>)
    requires Sized(l)
    ensures Conserves(l, Run(l, START, steps))
  {
    if steps != [] {
      EveryRunConserves(l, steps[..|steps| - 1]);
      NextConserves(l, Run(l, START, steps[..|steps| - 1]), steps[|steps| - 1]);
    }
  }

  lemma {:induction false} RunAppend(l: Limits, s: State, a: seq<Step>, b: seq<Step>)
    ensures Run(l, s, a + b) == Run(l, Run(l, s, a), b)
  {
    if b == [] {
      assert a + b == a;
    } else {
      var n := |b| - 1;
      assert (a + b)[..|a + b| - 1] == a + b[..n];
      RunAppend(l, s, a, b[..n]);
    }
  }

  /** No step takes back or alters a batch or an accepted row, and none is accepted once closing. */
  lemma {:induction false} HistoryOnlyGrows(l: Limits, s: State, steps: seq<Step>)
    ensures var t := Run(l, s, steps);
            && s.handed <= t.handed && s.accepted <= t.accepted
            && (s.closing ==> t.closing && t.accepted == s.accepted && t.dropped == s.dropped)
            && (s.finished ==> t.finished)
  {
    if steps != [] { HistoryOnlyGrows(l, s, steps[..|steps| - 1]); }
  }

  /** The rows offered while the meter was open. */
  function Offers(steps: seq<Step>): nat {
    if steps == [] then 0
    else
      var before := steps[..|steps| - 1];
      Offers(before) + (if steps[|steps| - 1].Record? && Close !in before then 1 else 0)
  }

  /** Every row offered to an open meter is counted once, as accepted or as dropped, and none is
      dropped while the channel could hold them all. */
  lemma {:induction false} EveryOfferIsCounted(l: Limits, steps: seq<Step>)
    requires Sized(l)
    ensures var t := Run(l, START, steps);
            && t.enqueued + t.dropped == Offers(steps)
            && (t.closing <==> Close in steps)
            && (Offers(steps) <= l.channel ==> t.dropped == 0)
  {
    if steps != [] {
      hide Conserves, Next;
      var before, last := steps[..|steps| - 1], steps[|steps| - 1];
      EveryOfferIsCounted(l, before);
      EveryRunConserves(l, before);
      OfferStep(l, Run(l, START, before), last);
      assert steps == before + [last];
    }
  }

  lemma OfferStep(l: Limits, s: State, step: Step)
    requires Conserves(l, s)
    ensures var t, offer := Next(l, s, step), step.Record? && !s.closing;
            && t.enqueued + t.dropped == s.enqueued + s.dropped + (if offer then 1 else 0)
            && (t.closing <==> s.closing || step.Close?)
            && t.dropped >= s.dropped
            && (t.dropped > s.dropped ==> offer && s.enqueued >= l.channel)
  {
    hide Concat;
  }

  /** The rows handed to the sink by steps whose answer was `ok`. */
  function HandedUnder(l: Limits, steps: seq<Step>, ok: bool): int {
    if steps == [] then 0
    else
      var before, last := steps[..|steps| - 1], steps[|steps| - 1];
      HandedUnder(l, before, ok)
      + if (last.Receive? || last.Tick?) && last.ok == ok
        then |Concat(Run(l, START, steps).handed)| - |Concat(Run(l, START, before).handed)| else 0
  }

  lemma CountersStep(l: Limits, s: State, step: Step)
    ensures var t := Next(l, s, step);
            var rows := |Concat(t.handed)| - |Concat(s.handed)|;
            && t.written == s.written + (if (step.Receive? || step.Tick?) && step.ok then rows else 0)
            && t.failed == s.failed + (if (step.Receive? || step.Tick?) && !step.ok then rows else 0)
  {
    hide Concat;
    ConcatSnoc(s.handed, s.buf);
    if s.channel != [] { ConcatSnoc(s.handed, Taken(s).buf); }
  }

  /** Written counts exactly the rows the sink took, and Failed those it refused. */
  lemma {:induction false} CountersFollowSink(l: Limits, steps: seq<Step>)
    ensures var t := Run(l, START, steps); t.written == HandedUnder(l, steps, true) && t.failed == HandedUnder(l, steps, false)
  {
    if steps != [] {
      hide Next;
      CountersFollowSink(l, steps[..|steps| - 1]);
      CountersStep(l, Run(l, START, steps[..|steps| - 1]), steps[|steps| - 1]);
    }
  }

  /** A step hands over at most one batch, the whole buffer with the row just received. A receive
      does so exactly when that makes the batch full, or when it finds a closed meter's channel
      empty and the buffer is not; a tick when the buffer is not empty; other steps never. */
  lemma {:induction false} BatchesWaitUntilFull(l: Limits, steps: seq<Step>, step: Step)
    requires Sized(l) && !Run(l, START, steps).finished
    ensures var s, t := Run(l, START, steps), Next(l, Run(l, START, steps), step);
            var held := if step.Receive? && s.channel != [] then s.buf + [s.channel[0]] else s.buf;
            && t.handed == s.handed + (if t.handed == s.handed then [] else [held])
            && (t.handed != s.handed <==>
                  match step
                  case Receive(_) => if s.channel != [] then |held| == l.batch else s.closing && held != []
                  case Tick(_) => held != []
                  case _ => false)
  {
    EveryRunConserves(l, steps);
    hide Concat, Run;
    var s := Run(l, START, steps);
    assert s.handed + [] == s.handed;
    assert |s.handed + [s.buf]| > |s.handed|;
  }

  /** After a tick of a writer that has not finished, nothing accepted is left in the buffer. */
  lemma {:induction false} TickLeavesNothingBuffered(l: Limits, steps: seq<Step>, ok: bool)
    requires Sized(l) && !Run(l, START, steps).finished
    ensures var t := Run(l, START, steps + [Step.Tick(ok)]); t.accepted == Concat(t.handed) + t.channel
  {
    var s := Run(l, START, steps);
    EveryRunConserves(l, steps + [Step.Tick(ok)]);
    assert (steps + [Step.Tick(ok)])[..|steps|] == steps;
    var t := Run(l, START, steps + [Step.Tick(ok)]);
    assert t == Next(l, s, Step.Tick(ok));
    assert Concat(t.handed) + [] == Concat(t.handed);
  }

  function Receives(steps: seq<Step>): nat {
    if steps == [] then 0
    else Receives(steps[..|steps| - 1]) + (if steps[|steps| - 1].Receive? then 1 else 0)
  }

  lemma {:induction false} ClosingDrains(l: Limits, s: State, steps: seq<Step>)
    requires s.closing
    ensures var t := Run(l, s, steps);
            t.closing && (t.finished || |t.channel| + Receives(steps) <= |s.channel|)
  {
    if steps != [] { ClosingDrains(l, s, steps[..|steps| - 1]); }
  }

  /** After Close, one receive more than the channel holds, however mixed with other steps, ends
      the writer; and then everything ever accepted has been handed over, in order. */
  lemma {:induction false} CloseDeliversEverything(l: Limits, before: seq<Step>, after: seq<Step>)
    requires Sized(l)
    requires Receives(after) > |Run(l, START, before).channel|
    ensures var s, t := Run(l, START, before), Run(l, START, before + [Close] + after);
            && t.finished
            && Concat(t.handed) == t.accepted == s.accepted
            && t.written + t.failed == t.enqueued == |s.accepted|
  {
    var s := Run(l, START, before);
    RunAppend(l, START, before, [Close]);
    assert [Close][..0] == [];
    assert Run(l, s, [Close]) == Next(l, s, Close);
    RunAppend(l, START, before + [Close], after);
    var closed := Next(l, s, Close);
    ClosingDrains(l, closed, after);
    HistoryOnlyGrows(l, closed, after);
    EveryRunConserves(l, before + [Close] + after);
    EveryRunConserves(l, before);
    var t := Run(l, START, before + [Close] + after);
    assert Concat(t.handed) + [] + [] == Concat(t.handed);
  }

  // ---------------------------------------------------------------- the meter as an object

  class UsageMeter {
    const limits: Limits
    var ch: seq<Row>
    var buf: array<Row>
    var len: nat
    var sink: seq<array<Row>>
    var enqueued: nat
    var dropped: nat
    var written: nat
    var failed: nat
    var closing: bool
    var finished: bool
    ghost var accepted: seq<Row>

    constructor (bufferSize: int, batchSize: int)
      ensures Valid() && View() == START
      ensures limits.channel as int == if bufferSize <= 0 then 4096 else bufferSize
      ensures limits.batch as int == if batchSize <= 0 then 128 else batchSize
    {
      var b := if batchSize <= 0 then 128 else batchSize;
      limits := Limits(if bufferSize <= 0 then 4096 else bufferSize, b);
      ch, len, sink := [], 0, [];
      enqueued, dropped, written, failed := 0, 0, 0, 0;
      closing, finished, accepted := false, false, [];
      buf := new Row[b];
    }

    /** The buffer is never one of the slices the sink was given. */
    ghost predicate Valid()
      reads this
    {
      && Sized(limits) && buf.Length == limits.batch
      && len < limits.batch && buf !in sink
      && (finished ==> closing)
    }

    /** What the sink's slices hold now. */
    ghost function Handed(): seq<seq<Row>>
      reads this, sink
    {
      seq(|sink|, i requires 0 <= i < |sink| reads this, sink => sink[i][..])
    }

    /** The abstract state, given what is buffered. */
    ghost function ViewOf(rows: seq<Row>): State
      reads this, sink
    {
      State(accepted, ch, rows, Handed(), enqueued, dropped, written, failed, closing, finished)
    }

    ghost function View(): State
      requires Valid()
      reads this, buf, sink
    {
      ViewOf(buf[..len])
    }

    /** Never blocks. */
    method Record(row: Row)
      requires Valid()
      modifies this
      ensures Valid() && buf == old(buf) && sink == old(sink)
      ensures View() == Next(limits, old(View()), Step.Record(row))
    {
      if closing {
        return;
      }
      if |ch| < limits.channel {
        ch := ch + [row];
        enqueued := enqueued + 1;
        accepted := accepted + [row];
      } else {
        dropped := dropped + 1;
      }
    }

    /** Hands a copy of the first `n` rows of the buffer to the sink. */
    method WriteRows(n: nat, ok: bool)
      requires n <= buf.Length && buf !in sink
      modifies this`sink, this`written, this`failed
      ensures n == 0 ==> sink == old(sink) && written == old(written) && failed == old(failed)
      ensures n > 0 ==>
                && |sink| == |old(sink)| + 1 && sink[..|sink| - 1] == old(sink)
                && fresh(sink[|sink| - 1]) && sink[|sink| - 1][..] == buf[..n]
                && written == old(written) + (if ok then n else 0)
                && failed == old(failed) + (if ok then 0 else n)
    {
      if n == 0 {
        return;
      }
      var batch := new Row[n](i requires 0 <= i < n <= buf.Length reads this, buf => buf[i]);
      sink := sink + [batch];
      if !ok {
        failed := failed + n;
        return;
      }
      written := written + n;
    }

    /** Hands the buffer over and starts it afresh. */
    method Flush(ok: bool)
      requires Sized(limits) && buf.Length == limits.batch && len <= buf.Length && buf !in sink && (finished ==> closing)
      modifies this`sink, this`written, this`failed, this`len
      ensures Valid() && old(sink) <= sink
      ensures View() == WriteBatch(old(ViewOf(buf[..len])), ok)
    {
      ghost var was, rows := Handed(), buf[..len];
      WriteRows(len, ok);
      assert Handed() == if len == 0 then was else was + [rows];
      len := 0;
    }

    /** One receive from the channel, and what the writer does with it. */
    method Receive(ok: bool)
      requires Valid()
      modifies this, buf
      ensures Valid() && buf == old(buf) && old(sink) <= sink
      ensures View() == Next(limits, old(View()), Step.Receive(ok))
    {
      if finished {
        return;
      }
      if |ch| == 0 {
        if closing {
          Flush(ok);
          finished := true;
        }
        return;
      }
      Take();
      if len >= limits.batch {
        Flush(ok);
      }
    }

    /** Appends the received row to the buffer. */
    method Take()
      requires Valid() && ch != []
      modifies this`ch, this`len, buf
      ensures len == old(len) + 1 <= buf.Length
      ensures ViewOf(buf[..len]) == Taken(old(View()))
    {
      ghost var was, rows := Handed(), buf[..len];
      buf[len] := ch[0];
      ch, len := ch[1..], len + 1;
      assert buf[..len] == rows + [old(ch[0])];
      assert Handed() == was;
    }

    /** The ticker fires. */
    method Tick(ok: bool)
      requires Valid()
      modifies this
      ensures Valid() && buf == old(buf) && old(sink) <= sink
      ensures View() == Next(limits, old(View()), Step.Tick(ok))
    {
      if !finished && len > 0 {
        Flush(ok);
      }
    }

    method Close()
      requires Valid()
      modifies this
      ensures Valid() && buf == old(buf) && sink == old(sink)
      ensures View() == Next(limits, old(View()), Step.Close)
    {
      if closing {
        return;
      }
      closing := true;
    }
  }
}
