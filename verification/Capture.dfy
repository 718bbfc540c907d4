/** The reader that copies an origin's bytes to a file while a client consumes them. */
module Capture {

  type Byte = n: int | 0 <= n < 256

  /** The reader's fields; `target` is the file's content and `at` the source's own offset. */
  datatype Body = Body(at: nat, target: seq<Byte>, position: nat, written: nat, started: bool, valid: bool)

  /** A read of `count` bytes of which the file took `stored`, with or without a write error; a seek to
      the position the source reports, or one that fails. */
  datatype Op = Read(count: nat, stored: nat, failed: bool) | Seek(position: nat) | SeekFailed

  datatype Outcome = Outcome(started: bool, complete: bool, captured: nat)

  const FRESH := Body(0, [], 0, 0, false, true)

  /** The source has the bytes it returns, and the file takes no more than it is given. */
  predicate Possible(data: seq<Byte>, b: Body, op: Op) {
    op.Read? ==> op.stored <= op.count && (op.count == 0 || b.at + op.count <= |data|)
  }

  function Step(data: seq<Byte>, b: Body, op: Op): Body
    requires Possible(data, b, op)
  {
    match op
    case SeekFailed => b
    case Seek(position) =>
      b.(at := position, position := position, valid := b.valid && !(b.started && position != b.written))
    case Read(count, stored, failed) =>
      if count == 0 then b
      else
        var startsHere := b.started || b.position == 0;
        var copies := b.valid && startsHere && b.position == b.written;
        Body(b.at + count,
             if copies then b.target + data[b.at..b.at + stored] else b.target,
             b.position + count,
             if copies then b.written + stored else b.written,
             true,
             copies && !failed && stored == count)
  }

  predicate Allowed(data: seq<Byte>, ops: seq<Op>)
    decreases |ops|, 0
  {
    ops == [] || (Allowed(data, ops[..|ops| - 1])
                  && Possible(data, Run(data, ops[..|ops| - 1]), ops[|ops| - 1]))
  }

  function Run(data: seq<Byte>, ops: seq<Op>): Body
    requires Allowed(data, ops)
    decreases |ops|, 1
  {
    if ops == [] then FRESH else Step(data, Run(data, ops[..|ops| - 1]), ops[|ops| - 1])
  }

  function Report(b: Body, expected: int, closed: bool): Outcome {
    Outcome(b.started, closed && b.valid && b.started && b.written == expected, b.written)
  }

  // ---------------------------------------------------------------- what the file holds

  ghost predicate Inv(data: seq<Byte>, b: Body) {
    && b.at == b.position && b.written == |b.target| && b.target <= data
    && (!b.started ==> b.target == [])
    && (b.valid && b.started ==> b.position == b.written)
  }

  lemma StepKeeps(data: seq<Byte>, b: Body, op: Op)
    requires Inv(data, b) && Possible(data, b, op)
    ensures Inv(data, Step(data, b, op))
  {
    if op.Read? && b.position == b.written {
      assert data[..b.at] + data[b.at..b.at + op.stored] == data[..b.at + op.stored];
    }
  }

  lemma {:induction false} RunKeeps(data: seq<Byte>, ops: seq<Op>)
    requires Allowed(data, ops)
    ensures Inv(data, Run(data, ops))
  {
    if ops == [] {
    } else {
      RunKeeps(data, ops[..|ops| - 1]);
      StepKeeps(data, Run(data, ops[..|ops| - 1]), ops[|ops| - 1]);
    }
  }

  /** Whatever the client reads and seeks and however writes fall short, the file is a prefix of the
      source, and success is reported only for an exact copy of the expected length. */
  lemma CompleteIsCopy(data: seq<Byte>, ops: seq<Op>, expected: int, closed: bool)
    requires Allowed(data, ops)
    ensures Run(data, ops).target <= data
    ensures Report(Run(data, ops), expected, closed).captured == |Run(data, ops).target|
    ensures Report(Run(data, ops), expected, closed).complete ==>
              0 <= expected <= |data| && Run(data, ops).target == data[..expected]
    ensures Report(Run(data, ops), expected, closed).complete && expected == |data| ==>
              Run(data, ops).target == data
  {
    RunKeeps(data, ops);
    assert data[..|data|] == data;
  }

  // ---------------------------------------------------------------- when success is reported

  /** The bytes the client has read. */
  function TotalRead(ops: seq<Op>): nat {
    if ops == [] then 0
    else TotalRead(ops[..|ops| - 1]) + if ops[|ops| - 1].Read? then ops[|ops| - 1].count else 0
  }

  /** Where the client is: after the last successful seek and the reads since. */
  function Position(ops: seq<Op>): nat {
    if ops == [] then 0
    else
      match ops[|ops| - 1]
      case Read(count, _, _) => Position(ops[..|ops| - 1]) + count
      case Seek(position) => position
      case SeekFailed => Position(ops[..|ops| - 1])
  }

  /** Every read continued where the bytes read so far end and was stored in full, and once something
      had been read no seek led elsewhere. */
  predicate Sequential(ops: seq<Op>) {
    forall i | 0 <= i < |ops| :: InSequence(ops[..i], ops[i])
  }

  predicate InSequence(before: seq<Op>, op: Op) {
    match op
    case Read(count, stored, failed) =>
      count > 0 ==> Position(before) == TotalRead(before) && stored == count && !failed
    case Seek(position) => TotalRead(before) > 0 ==> position == TotalRead(before)
    case SeekFailed => true
  }

  lemma SequentialSnoc(ops: seq<Op>)
    requires ops != []
    ensures Sequential(ops) <==> Sequential(ops[..|ops| - 1]) && InSequence(ops[..|ops| - 1], ops[|ops| - 1])
  {
    var n := |ops| - 1;
    assert forall i | 0 <= i < n :: ops[..n][..i] == ops[..i] && ops[..n][i] == ops[i];
  }

  lemma {:induction false} ValidMeans(data: seq<Byte>, ops: seq<Op>)
    requires Allowed(data, ops)
    ensures var b := Run(data, ops);
      && b.position == Position(ops)
      && (b.started <==> TotalRead(ops) > 0)
      && (b.valid <==> Sequential(ops))
      && (b.valid ==> b.written == TotalRead(ops))
  {
    if ops == [] {
    } else {
      ValidMeans(data, ops[..|ops| - 1]);
      SequentialSnoc(ops);
      hide Sequential, Position, TotalRead;
      Unfold(ops);
    }
  }

  lemma Unfold(ops: seq<Op>)
    requires ops != []
    ensures Position(ops) == match ops[|ops| - 1]
              case Read(count, _, _) => Position(ops[..|ops| - 1]) + count
              case Seek(position) => position
              case SeekFailed => Position(ops[..|ops| - 1])
    ensures TotalRead(ops) == TotalRead(ops[..|ops| - 1]) + if ops[|ops| - 1].Read? then ops[|ops| - 1].count else 0
  {
  }

  /** Success is reported exactly for a client that read the expected bytes in sequence. */
  lemma CompleteExact(data: seq<Byte>, ops: seq<Op>, expected: int, closed: bool)
    requires Allowed(data, ops)
    ensures Report(Run(data, ops), expected, closed).complete
        <==> closed && Sequential(ops) && TotalRead(ops) == expected && expected > 0
  {
    ValidMeans(data, ops);
  }

  /** In particular for one that only reads, if writes and closes succeed. */
  lemma {:induction false} PlainReadCompletes(data: seq<Byte>, ops: seq<Op>)
    requires Allowed(data, ops) && data != [] && TotalRead(ops) == |data|
    requires forall i | 0 <= i < |ops| :: ops[i].Read? && ops[i].stored == ops[i].count && !ops[i].failed
    ensures Report(Run(data, ops), |data|, true) == Outcome(true, true, |data|)
    ensures Run(data, ops).target == data
  {
    OnlyReads(ops);
    CompleteExact(data, ops, |data|, true);
    CompleteIsCopy(data, ops, |data|, true);
  }

  lemma {:induction false} OnlyReads(ops: seq<Op>)
    requires forall i | 0 <= i < |ops| :: ops[i].Read? && ops[i].stored == ops[i].count && !ops[i].failed
    ensures Sequential(ops) && Position(ops) == TotalRead(ops)
  {
    if ops == [] {
    } else {
      OnlyReads(ops[..|ops| - 1]);
      SequentialSnoc(ops);
    }
  }

  // ---------------------------------------------------------------- the reader

  class CaptureBody {
    const data: seq<Byte>
    const expected: int
    var at: nat
    var target: seq<Byte>
    var position: nat
    var written: nat
    var started: bool
    var valid: bool
    var reports: seq<Outcome>
    var closeFailed: bool

    ghost function View(): Body
      reads this
    {
      Body(at, target, position, written, started, valid)
    }

    constructor (data: seq<Byte>, expected: int)
      ensures this.data == data && this.expected == expected && View() == FRESH && reports == []
    {
      this.data, this.expected := data, expected;
      at, target, position, written, started, valid := 0, [], 0, 0, false, true;
      reports, closeFailed := [], false;
    }

    /** The source returns `count` bytes; the file stores the first `stored` of them if it is written to. */
    method Read(count: nat, stored: nat, failed: bool) returns (bytes: seq<Byte>)
      requires Possible(data, View(), Op.Read(count, stored, failed))
      modifies this
      ensures View() == Step(data, old(View()), Op.Read(count, stored, failed))
      ensures bytes == if count == 0 then [] else data[old(at)..old(at) + count]
      ensures reports == old(reports) && closeFailed == old(closeFailed)
    {
      bytes := [];
      if count > 0 {
        bytes := data[at..at + count];
        at := at + count;
        if !started {
          started := true;
          if position != 0 {
            valid := false;
          }
        }
        if valid && position == written {
          target := target + bytes[..stored];
          written := written + stored;
          if failed || stored != count {
            valid := false;
          }
        } else {
          valid := false;
        }
        position := position + count;
      }
    }

    /** The source ends up at `landed`, or fails to seek and stays. */
    method Seek(landed: nat, failed: bool)
      modifies this
      ensures View() == Step(data, old(View()), if failed then SeekFailed else Op.Seek(landed))
      ensures reports == old(reports) && closeFailed == old(closeFailed)
    {
      if failed {
        return;
      }
      at := landed;
      position := landed;
      if started && landed != written {
        valid := false;
      }
    }

    /** The first close reports once; later ones repeat its error. */
    method Close(failed: bool) returns (error: bool)
      modifies this
      ensures View() == old(View())
      ensures reports == if old(reports) == [] then [Report(View(), expected, !failed)] else old(reports)
      ensures error == if old(reports) == [] then failed else old(closeFailed)
      ensures closeFailed == error
    {
      if reports == [] {
        closeFailed := failed;
        var complete := !closeFailed && valid && started && written == expected;
        reports := reports + [Outcome(started, complete, written)];
      }
      error := closeFailed;
    }
  }
}
