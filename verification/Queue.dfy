// Queue of src/queue.cc, the FIFO between two threads of the pipeline.  Each method
// runs under the queue's mutex; a blocking pop goes on when there is an element.
module Queues {
  import opened Words

  datatype Contents<T> = Contents(q: seq<T>, watermark: nat)

  datatype Operation<T> = Push(val: T) | Pop | TryPop | ClearCounters | Reset

  // A blocking pop on an empty queue does not return.
  predicate Returns<T>(c: Contents<T>, op: Operation<T>) {
    op.Pop? ==> |c.q| > 0
  }

  function After<T>(c: Contents<T>, op: Operation<T>): Contents<T> {
    match op
    case Push(val) => Contents(c.q + [val], if |c.q| + 1 > c.watermark then |c.q| + 1 else c.watermark)
    case Pop => if c.q == [] then c else c.(q := c.q[1..])
    case TryPop => if c.q == [] then c else c.(q := c.q[1..])
    case ClearCounters => c.(watermark := 0)
    case Reset => Contents([], 0)
  }

  function Popped<T>(c: Contents<T>, op: Operation<T>): seq<T> {
    if (op.Pop? || op.TryPop?) && c.q != [] then [c.q[0]] else []
  }

  function Pushed<T>(op: Operation<T>): seq<T> {
    if op.Push? then [op.val] else []
  }

  class Queue<T> {
    var watermark: nat
    var q: seq<T>

    constructor ()
      ensures Value() == Contents([], 0)
    {
      watermark, q := 0, [];
    }

    ghost function Value(): Contents<T>
      reads this
    {
      Contents(q, watermark)
    }

    method PushBack(val: T)
      modifies this
      ensures Value() == After(old(Value()), Push(val))
      ensures q == old(q) + [val] && watermark == if |q| > old(watermark) then |q| else old(watermark)
    {
      q := q + [val];
      if |q| > watermark {
        watermark := |q|;
      }
    }

    method PopFront() returns (val: T)
      requires Returns(Value(), Pop)
      modifies this
      ensures Value() == After(old(Value()), Pop) && [val] == Popped(old(Value()), Pop)
      ensures old(q) == [val] + q && watermark == old(watermark)
    {
      val := q[0];
      q := q[1..];
    }

    method TryPopFront() returns (val: Option<T>)
      modifies this
      ensures Value() == After(old(Value()), TryPop)
      ensures Popped(old(Value()), TryPop) == if val.Some? then [val.value] else []
      ensures watermark == old(watermark) && (val.None? <==> old(q) == [])
      ensures old(q) == if val.Some? then [val.value] + q else q
    {
      if q == [] {
        return None;
      }
      val := Some(q[0]);
      q := q[1..];
    }

    method GetMaxSize() returns (size: nat)
      ensures size == watermark
    {
      size := watermark;
    }

    method ClearWatermark()
      modifies this
      ensures Value() == After(old(Value()), ClearCounters) && watermark == 0 && q == old(q)
    {
      watermark := 0;
    }

    method Empty()
      modifies this
      ensures Value() == After(old(Value()), Reset) && watermark == 0 && q == []
    {
      q, watermark := [], 0;
    }
  }

  // ---- Any sequence of operations ----

  function Run<T>(c: Contents<T>, ops: seq<Operation<T>>): Contents<T> {
    if ops == [] then c else After(Run(c, ops[..|ops| - 1]), ops[|ops| - 1])
  }

  function Ins<T>(ops: seq<Operation<T>>): seq<T> {
    if ops == [] then []
    else Ins(ops[..|ops| - 1]) + Pushed(ops[|ops| - 1])
  }

  function Outs<T>(c: Contents<T>, ops: seq<Operation<T>>): seq<T> {
    if ops == [] then []
    else Outs(c, ops[..|ops| - 1]) + Popped(Run(c, ops[..|ops| - 1]), ops[|ops| - 1])
  }

  // First in, first out, and nothing lost or repeated: without a reset, what was in the
  // queue and what was pushed is what was popped and what is left.
  lemma {:induction false} FirstInFirstOut<T>(c: Contents<T>, ops: seq<Operation<T>>)
    requires forall op | op in ops :: !op.Reset?
    ensures c.q + Ins(ops) == Outs(c, ops) + Run(c, ops).q
  {
    if ops == [] {
      assert c.q + [] == [] + c.q;
    } else {
      var before, op := ops[..|ops| - 1], ops[|ops| - 1];
      FirstInFirstOut(c, before);
      var s := Run(c, before);
      OneOperation(s, op);
      hide After, Popped, Pushed;
      MoveAcross(c.q, Ins(before), Outs(c, before), s.q, Pushed(op), Popped(s, op), After(s, op).q);
    }
  }

  lemma MoveAcross<T>(start: seq<T>, ins: seq<T>, outs: seq<T>, q: seq<T>, pushed: seq<T>, popped: seq<T>, q': seq<T>)
    requires start + ins == outs + q && q + pushed == popped + q'
    ensures start + (ins + pushed) == (outs + popped) + q'
  {
    assert start + (ins + pushed) == (start + ins) + pushed;
    assert (outs + q) + pushed == outs + (q + pushed);
    assert outs + (popped + q') == (outs + popped) + q';
  }

  lemma OneOperation<T>(s: Contents<T>, op: Operation<T>)
    requires !op.Reset?
    ensures s.q + Pushed(op) == Popped(s, op) + After(s, op).q
  {
  }

  // The queue has n elements right after operation i, a push.
  ghost predicate SizeSeen<T>(c: Contents<T>, ops: seq<Operation<T>>, from: nat, n: nat) {
    exists i :: from <= i < |ops| && ops[i].Push? && |Run(c, ops[..i + 1]).q| == n
  }

  // Operations since counters were last cleared, or the queue reset
  function ClearedAt<T>(ops: seq<Operation<T>>): (n: nat)
    ensures n <= |ops| && (n > 0 ==> ops[n - 1].ClearCounters? || ops[n - 1].Reset?)
    ensures forall i | n <= i < |ops| :: !ops[i].ClearCounters? && !ops[i].Reset?
  {
    if ops == [] then 0
    else if ops[|ops| - 1].ClearCounters? || ops[|ops| - 1].Reset? then |ops|
    else ClearedAt(ops[..|ops| - 1])
  }

  // The watermark is the largest size a push has left since then, or zero.
  lemma {:induction false} WatermarkIsPeak<T>(ops: seq<Operation<T>>)
    ensures
      var c := Contents([], 0);
      var w := Run(c, ops).watermark;
      && (w == 0 || SizeSeen(c, ops, ClearedAt(ops), w))
      && forall n: nat | SizeSeen(c, ops, ClearedAt(ops), n) :: n <= w
  {
    if ops != [] {
      var c: Contents<T> := Contents([], 0);
      var before := ops[..|ops| - 1];
      WatermarkIsPeak(before);
      var k := ClearedAt(ops);
      if k < |ops| {
        forall n: nat
          ensures SizeSeen(c, ops, k, n) <==>
            SizeSeen(c, before, k, n) || (ops[|ops| - 1].Push? && |Run(c, ops).q| == n)
        {
          OneMoreSize(c, ops, k, n);
        }
      }
    }
  }

  lemma OneMoreSize<T>(c: Contents<T>, ops: seq<Operation<T>>, from: nat, n: nat)
    requires from < |ops|
    ensures SizeSeen(c, ops, from, n) <==>
      SizeSeen(c, ops[..|ops| - 1], from, n) || (ops[|ops| - 1].Push? && |Run(c, ops).q| == n)
  {
    hide Run;
    var before := ops[..|ops| - 1];
    assert forall i | 0 <= i < |before| :: before[..i + 1] == ops[..i + 1] && before[i] == ops[i];
    assert ops[..|ops|] == ops;
  }
}
