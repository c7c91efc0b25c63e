// TimeAverage of src/time_util.cc: a ring of the last samples with a running sum.
module TimeAverages {

  function Sum(s: seq<int>): int {
    if s == [] then 0 else Sum(s[..|s| - 1]) + s[|s| - 1]
  }

  lemma {:induction false} SumFirst(s: seq<int>)
    requires s != []
    ensures Sum(s) == s[0] + Sum(s[1..])
  {
    if |s| > 1 {
      var t := s[..|s| - 1];
      SumFirst(t);
      assert t[1..] == s[1..][..|s| - 2];
    }
  }

  lemma SumLast(s: seq<int>, x: int)
    ensures Sum(s + [x]) == Sum(s) + x
  {
    assert (s + [x])[..|s|] == s;
  }

  // The last `size` samples, or all of them while there are fewer
  function Window(samples: seq<int>, size: nat): seq<int> {
    if |samples| <= size then samples else samples[|samples| - size..]
  }

  lemma WindowMoves(samples: seq<int>, size: nat, x: int)
    requires size > 0
    ensures
      var w := Window(samples, size);
      Sum(Window(samples + [x], size)) == Sum(w) + x - if |samples| < size then 0 else w[0]
  {
    hide Sum;
    var w := Window(samples, size);
    if |samples| < size {
      SumLast(samples, x);
    } else {
      SumFirst(w);
      SumLast(w[1..], x);
      assert Window(samples + [x], size) == w[1..] + [x];
    }
  }

  // Sample j of the window that the new sample x completes
  lemma WindowAt(samples: seq<int>, size: nat, x: int, j: nat)
    requires j < size <= |samples| + 1
    ensures |Window(samples + [x], size)| == size
    ensures j == size - 1 ==> Window(samples + [x], size)[j] == x
    ensures j < size - 1 && size <= |samples| ==>
      |Window(samples, size)| == size && Window(samples + [x], size)[j] == Window(samples, size)[j + 1]
    ensures j < size - 1 && |samples| < size ==> Window(samples + [x], size)[j] == samples[j]
  {
  }

  // Division of a C long, which truncates toward zero
  function Quotient(a: int, b: nat): int
    requires b > 0
  {
    if a >= 0 then a / b else -(-a / b)
  }

  // The rest has the sign of the number divided, and is smaller than the divisor.
  lemma QuotientTruncates(a: int, b: nat)
    requires b > 0
    ensures
      var rest := a - Quotient(a, b) * b;
      if a >= 0 then 0 <= rest < b else 0 <= -rest < b
  {
  }

  // The window is the last samples, at most `size` of them.
  lemma WindowIsEnd(samples: seq<int>, size: nat)
    ensures
      var w := Window(samples, size);
      && |w| == (if |samples| < size then |samples| else size)
      && forall j | 0 <= j < |w| :: w[j] == samples[|samples| - |w| + j]
  {
  }

  class TimeAverage {
    const size: nat
    const buffer: array<int>
    var head: nat
    var tail: nat
    var maxTime: int
    var minTime: int
    var averageTime: int
    var sum: int
    var full: bool
    // Every sample since the last clear
    ghost var samples: seq<int>

    // Where sample j of a full window stands, counting from the oldest
    ghost function Place(j: nat): nat
      reads this`tail
    {
      if tail + j < size then tail + j else tail + j - size
    }

    ghost predicate RingAgrees()
      reads this`head, this`tail, this`full, this`samples, buffer
    {
      && size > 0 && buffer.Length == size && head < size && tail < size
      && full == (|samples| >= size)
      && (!full ==> head == |samples| && tail == 0 && buffer[0] == 0 && forall i | 0 < i <= head ::
            buffer[i] == samples[i - 1])
      && (full ==> head == if tail == 0 then size - 1 else tail - 1)
      && (full ==> forall j | 0 <= j < size :: buffer[Place(j)] == Window(samples, size)[j])
    }

    ghost predicate Valid()
      reads this, buffer
    {
      RingAgrees() && sum == Sum(Window(samples, size))
    }

    constructor (samples: nat)
      requires samples > 0
      ensures Valid() && this.samples == [] && size == samples && fresh(buffer)
      ensures maxTime == 0 && minTime == 0xfffffff
    {
      size := samples;
      buffer := new int[samples](_ => 0);
      head, tail, maxTime, minTime, averageTime, sum, full := 0, 0, 0, 0xfffffff, 0, 0, false;
      this.samples := [];
    }

    // The sample about to leave the window stands at the tail.
    lemma Oldest()
      requires RingAgrees()
      ensures size > 0 && buffer.Length == size && tail < size
      ensures buffer[tail] == if |samples| < size then 0 else Window(samples, size)[0]
    {
      assert full ==> buffer[Place(0)] == Window(samples, size)[0];
    }

    // The running sum is the sum of the window, whatever the run of updates.
    method Update(elapsedTime: int)
      requires Valid()
      modifies this, buffer
      ensures Valid() && samples == old(samples) + [elapsedTime] && averageTime == old(averageTime)
      ensures maxTime == (if elapsedTime > old(maxTime) then elapsedTime else old(maxTime))
      ensures minTime == (if elapsedTime < old(minTime) then elapsedTime else old(minTime))
    {
      hide Sum, Window, RingAgrees;
      Oldest();
      WindowMoves(samples, size, elapsedTime);
      if elapsedTime > maxTime {
        maxTime := elapsedTime;
      }
      if elapsedTime < minTime {
        minTime := elapsedTime;
      }
      sum := sum - buffer[tail];
      UpdateRing(elapsedTime);
      sum := sum + buffer[head];
    }

    // The oldest sample of a full ring is overwritten by the new one.
    method UpdateRing(elapsedTime: int)
      requires RingAgrees()
      modifies this`head, this`tail, this`full, this`samples, buffer
      ensures RingAgrees() && samples == old(samples) + [elapsedTime]
      ensures head < buffer.Length && buffer[head] == elapsedTime
    {
      hide Sum;
      ghost var w := Window(samples, size);
      assert full ==> forall j | 0 <= j < size :: buffer[Place(j)] == w[j];
      label Before:
      head := if head + 1 == size then 0 else head + 1;
      if head == tail {
        full := true;
        tail := if tail + 1 == size then 0 else tail + 1;
      }
      buffer[head] := elapsedTime;
      samples := samples + [elapsedTime];
      if full {
        RingTurned@Before();
      }
    }

    twostate lemma RingTurned()
      requires old(RingAgrees()) && samples != [] && samples == old(samples) + [samples[|samples| - 1]]
      requires full && head == (if old(head) + 1 == size then 0 else old(head) + 1) && head == old(tail)
      requires tail == if old(tail) + 1 == size then 0 else old(tail) + 1
      requires buffer[..] == old(buffer[..])[head := samples[|samples| - 1]]
      ensures forall j | 0 <= j < size :: buffer[Place(j)] == Window(samples, size)[j]
    {
      hide Sum, Window;
      WindowAt(old(samples), size, samples[|samples| - 1], 0);
      forall j | 0 <= j < size ensures buffer[Place(j)] == Window(samples, size)[j] {
        WindowAt(old(samples), size, samples[|samples| - 1], j);
        assert buffer[Place(j)] == buffer[..][Place(j)];
        if j < size - 1 {
          if old(full) {
            assert Place(j) == old(Place(j + 1));
            assert old(buffer[Place(j + 1)] == Window(samples, size)[j + 1]);
          } else {
            assert old(buffer[j + 1] == samples[j]);
          }
        }
      }
    }

    // getAverage divides by exactly the number of samples in the window.
    method GetAverage() returns (average: int)
      requires Valid()
      modifies this`averageTime
      ensures Valid() && averageTime == average
      ensures average == if samples == [] then 0 else Quotient(Sum(Window(samples, size)), |Window(samples, size)|)
    {
      if full {
        averageTime := Quotient(sum, size);
      } else {
        averageTime := 0;
        if head != 0 {
          averageTime := Quotient(sum, head);
        }
      }
      average := averageTime;
    }

    method Clear()
      requires Valid()
      modifies this, buffer
      ensures Valid() && samples == [] && maxTime == 0 && minTime == 0xfffffff && averageTime == 0
    {
      head, tail, maxTime, minTime, averageTime, sum, full := 0, 0, 0, 0xfffffff, 0, 0, false;
      samples := [];
      for i := 0 to size
        invariant size > 0 && buffer.Length == size && head == 0 && tail == 0 && sum == 0 && !full && samples == []
        invariant maxTime == 0 && minTime == 0xfffffff && averageTime == 0
        invariant forall j | 0 <= j < i :: buffer[j] == 0
      {
        buffer[i] := 0;
      }
    }

    // Any run of updates: the average is that of the last samples.
    method UpdateAll(elapsed: seq<int>)
      requires Valid()
      modifies this, buffer
      ensures Valid() && samples == old(samples) + elapsed
    {
      hide Valid;
      for n := 0 to |elapsed|
        invariant Valid() && samples == old(samples) + elapsed[..n]
      {
        Update(elapsed[n]);
        assert elapsed[..n + 1] == elapsed[..n] + [elapsed[n]];
      }
      assert elapsed[..|elapsed|] == elapsed;
    }
  }
}
