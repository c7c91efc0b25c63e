// What an input holds after any sequence of update messages and unlatches, in terms of
// the status bits the messages carried: src/central_node_inputs.cc and MpsDb::unlatchAll.
module Histories {
  import opened Words
  import opened Latching
  import opened Layout
  import opened Devices

  datatype Event = Message(status: CardStatus) | Unlatch

  ghost predicate Sized(history: seq<Event>) {
    forall k | 0 <= k < |history| && history[k].Message? :: history[k].status.Sized()
  }

  // Event m is the last message among the first n events.
  ghost predicate LastMessage(history: seq<Event>, n: nat, m: nat) {
    m < n <= |history| && history[m].Message? && forall k | m < k < n :: history[k].Unlatch?
  }

  // The first n events end with the last unlatch, or there is none and n is 0.
  ghost predicate SinceUnlatch(history: seq<Event>, n: nat) {
    n <= |history| && (n > 0 ==> history[n - 1].Unlatch?) && forall k | n <= k < |history| :: history[k].Message?
  }

  // ---- Digital inputs ----

  // v is what the last of the first n events tells of a signal: 0 when it was only low, 1 when
  // it was only high, and the fault value when it was both or neither.  Before any message
  // it is what it was.
  ghost predicate Told(history: seq<Event>, n: nat, channel: nat, faultValue: Word, was: Word, v: Word)
    requires Sized(history) && channel < STATUS_BITS && n <= |history|
  {
    && (forall m: nat | LastMessage(history, n, m) ::
          var status := history[m].status;
          v ==
            if status.wasLow[channel] && !status.wasHigh[channel] then {}
            else if status.wasHigh[channel] && !status.wasLow[channel] then {0}
            else faultValue)
    && ((forall k | 0 <= k < n :: history[k].Unlatch?) ==> v == was)
  }

  // A message from event n on carries a fault for the signal.
  ghost predicate Carried(history: seq<Event>, n: nat, channel: nat, faultValue: Word)
    requires Sized(history) && channel < STATUS_BITS
  {
    exists k :: n <= k < |history| && history[k].Message?
      && var status := history[k].status;
         || status.wasLow[channel] == status.wasHigh[channel]
         || (status.wasLow[channel] && faultValue == {})
         || (status.wasHigh[channel] && faultValue == {0})
  }

  ghost function Readings(history: seq<Event>, channel: nat): (events: seq<InputEvent>)
    requires Sized(history) && channel < STATUS_BITS
    ensures |events| == |history|
    ensures forall k | 0 <= k < |history| ::
      events[k] == if history[k].Message? then InputUpdate(history[k].status.At(channel)) else InputUnlatch
  {
    seq(|history|, k requires 0 <= k < |history| =>
      if history[k].Message? then InputUpdate(history[k].status.At(channel)) else InputUnlatch)
  }

  lemma {:induction false} ValueOfLast(l: Latch, faultValue: Word, autoReset: bool, events: seq<InputEvent>, m: nat)
    requires m < |events| && events[m].InputUpdate? && forall k | m < k < |events| :: events[k].InputUnlatch?
    ensures InputRun(l, faultValue, autoReset, events).value == Sample(events[m].reading, faultValue)
  {
    if m < |events| - 1 {
      ValueOfLast(l, faultValue, autoReset, events[..|events| - 1], m);
    }
  }

  lemma {:induction false} ValueOfNone(l: Latch, faultValue: Word, autoReset: bool, events: seq<InputEvent>)
    requires forall k | 0 <= k < |events| :: events[k].InputUnlatch?
    ensures InputRun(l, faultValue, autoReset, events).value == l.value
  {
    if events != [] {
      ValueOfNone(l, faultValue, autoReset, events[..|events| - 1]);
    }
  }

  lemma SampleBits(status: CardStatus, channel: nat, faultValue: Word)
    requires status.Sized() && channel < STATUS_BITS
    ensures Sample(status.At(channel), faultValue) ==
      if status.wasLow[channel] && !status.wasHigh[channel] then {}
      else if status.wasHigh[channel] && !status.wasLow[channel] then {0}
      else faultValue
  {
  }

  lemma ValueTold(l: Latch, faultValue: Word, autoReset: bool, channel: nat, history: seq<Event>, n: nat)
    requires Sized(history) && channel < STATUS_BITS && n <= |history|
    ensures Told(history, n, channel, faultValue, l.value,
                 InputRun(l, faultValue, autoReset, Readings(history, channel)[..n]).value)
  {
    hide Sample, InputRun;
    var events := Readings(history, channel)[..n];
    forall m: nat | LastMessage(history, n, m)
      ensures InputRun(l, faultValue, autoReset, events).value == Sample(history[m].status.At(channel), faultValue)
    {
      ValueOfLast(l, faultValue, autoReset, events, m);
    }
    forall status: CardStatus | status.Sized()
      ensures Sample(status.At(channel), faultValue) ==
        if status.wasLow[channel] && !status.wasHigh[channel] then {}
        else if status.wasHigh[channel] && !status.wasLow[channel] then {0}
        else faultValue
    {
      SampleBits(status, channel, faultValue);
    }
    if forall k | 0 <= k < n :: history[k].Unlatch? {
      ValueOfNone(l, faultValue, autoReset, events);
    }
  }

  lemma FaultCarried(history: seq<Event>, channel: nat, faultValue: Word, n: nat)
    requires Sized(history) && channel < STATUS_BITS
    ensures FaultSeen(Readings(history, channel), n, faultValue) <==> Carried(history, n, channel, faultValue)
  {
    hide Sample;
    var events := Readings(history, channel);
    forall k | 0 <= k < |history| && history[k].Message?
      ensures
        var status := history[k].status;
        Sample(events[k].reading, faultValue) == faultValue <==>
          || status.wasLow[channel] == status.wasHigh[channel]
          || (status.wasLow[channel] && faultValue == {})
          || (status.wasHigh[channel] && faultValue == {0})
    {
      SampleBits(history[k].status, channel, faultValue);
    }
  }

  // What is latched without auto-reset, when the last unlatch ends the first n events
  lemma LatchTold(l: Latch, faultValue: Word, channel: nat, history: seq<Event>, n: nat)
    requires Sized(history) && channel < STATUS_BITS && SinceUnlatch(history, n)
    ensures
      var latched := InputRun(l, faultValue, false, Readings(history, channel)).latched;
      if Carried(history, n, channel, faultValue) then latched == faultValue
      else if n == 0 then latched == l.latched
      else Told(history, n, channel, faultValue, l.value, latched)
  {
    hide Told, Carried, InputRun, FaultSeen;
    var events := Readings(history, channel);
    assert UnlatchedAt(events) == n;
    LatchedSinceUnlatch(l, faultValue, events);
    FaultCarried(history, channel, faultValue, n);
    ValueTold(l, faultValue, false, channel, history, n);
  }

  // An input over any messages and unlatches: its value is that of the last message; without
  // auto-reset it has the fault value latched if a message since the last unlatch carried
  // a fault, and else what that unlatch found, or what was latched at the beginning.
  method InputHistory(x: DeviceInput, history: seq<Event>)
    requires Sized(history) && x.channel < STATUS_BITS
    modifies x
    ensures Told(history, |history|, x.channel, x.faultValue, old(x.value), x.value)
    ensures x.autoReset && history != [] ==> x.latchedValue == x.value
    ensures !x.autoReset ==> forall n: nat | SinceUnlatch(history, n) ::
      if Carried(history, n, x.channel, x.faultValue) then x.latchedValue == x.faultValue
      else if n == 0 then x.latchedValue == old(x.latchedValue)
      else Told(history, n, x.channel, x.faultValue, old(x.value), x.latchedValue)
  {
    ghost var l, events := x.State(), Readings(history, x.channel);
    RunInput(x, history);
    hide Told, Carried, InputRun, SinceUnlatch;
    assert events[..|history|] == events;
    ValueTold(l, x.faultValue, x.autoReset, x.channel, history, |history|);
    if x.autoReset && history != [] {
      AutoResetFollows(l, x.faultValue, events);
    }
    forall n: nat | SinceUnlatch(history, n) && !x.autoReset
      ensures
        if Carried(history, n, x.channel, x.faultValue) then x.latchedValue == x.faultValue
        else if n == 0 then x.latchedValue == l.latched
        else Told(history, n, x.channel, x.faultValue, l.value, x.latchedValue)
    {
      LatchTold(l, x.faultValue, x.channel, history, n);
    }
  }

  method RunInput(x: DeviceInput, history: seq<Event>)
    requires Sized(history) && x.channel < STATUS_BITS
    modifies x
    ensures x.State() == InputRun(old(x.State()), x.faultValue, x.autoReset, Readings(history, x.channel))
  {
    hide InputStep, Sample;
    ghost var l, events := x.State(), Readings(history, x.channel);
    for i := 0 to |history|
      invariant x.State() == InputRun(l, x.faultValue, x.autoReset, events[..i])
    {
      match history[i] {
        case Message(status) => x.Update(status);
        case Unlatch => x.Unlatch();
      }
      assert events[..i + 1][..i] == events[..i];
    }
    assert events[..|history|] == events;
  }

  // ---- Analog devices ----

  // Message k found threshold j of integrator i exceeded: it was not low and only low.
  ghost predicate ExceededIn(history: seq<Event>, k: nat, c: AnalogChannel, i: nat, j: nat)
    requires Sized(history) && k < |history| && c.Fits() && i < c.numIntegrators && j < 8
  {
    && history[k].Message?
    && var o := StatusBit(c, i, j);
       history[k].status.wasHigh[o] || !history[k].status.wasLow[o]
  }

  // Threshold j of integrator i is on after the first n events: the last message says so, or
  // there is none and it was.
  ghost predicate OnAfter(history: seq<Event>, n: nat, c: AnalogChannel, i: nat, j: nat, was: bool)
    requires Sized(history) && n <= |history| && c.Fits() && i < c.numIntegrators && j < 8
  {
    || (exists m: nat :: LastMessage(history, n, m) && ExceededIn(history, m, c, i, j))
    || (was && forall k | 0 <= k < n :: history[k].Unlatch?)
  }

  // w tells so for the threshold, when the device had the value `was`.
  ghost predicate Shown(history: seq<Event>, n: nat, c: AnalogChannel, i: nat, j: nat, was: Word, w: Word)
    requires Sized(history) && n <= |history| && c.Fits() && i < c.numIntegrators && j < 8
  {
    8 * i + j in w <==> OnAfter(history, n, c, i, j, 8 * i + j in was)
  }

  // The threshold is latched: some message since the last unlatch, which ends the first n
  // events, exceeded it, that unlatch found it on, or it was latched at the beginning.
  ghost predicate Held(history: seq<Event>, n: nat, c: AnalogChannel, i: nat, j: nat, l: Latch, w: Word)
    requires Sized(history) && n <= |history| && c.Fits() && i < c.numIntegrators && j < 8
  {
    8 * i + j in w <==>
      || (exists k :: n <= k < |history| && ExceededIn(history, k, c, i, j))
      || (if n == 0 then 8 * i + j in l.latched else OnAfter(history, n, c, i, j, 8 * i + j in l.value))
  }

  ghost function Exceeding(history: seq<Event>, v: AnalogDevice): (events: seq<AnalogEvent>)
    requires Sized(history) && v.channel.Fits()
    ensures |events| == |history|
    ensures forall k | 0 <= k < |history| ::
      events[k] == if history[k].Message? then AnalogUpdate(v.Thresholds(history[k].status)) else AnalogUnlatch
  {
    seq(|history|, k requires 0 <= k < |history| =>
      if history[k].Message? then AnalogUpdate(v.Thresholds(history[k].status)) else AnalogUnlatch)
  }

  lemma {:induction false} AnalogOfLast(l: Latch, events: seq<AnalogEvent>, m: nat)
    requires m < |events| && events[m].AnalogUpdate? && forall k | m < k < |events| :: events[k].AnalogUnlatch?
    ensures AnalogRun(l, events).value == events[m].exceeded
  {
    if m < |events| - 1 {
      AnalogOfLast(l, events[..|events| - 1], m);
    }
  }

  lemma {:induction false} AnalogOfNone(l: Latch, events: seq<AnalogEvent>)
    requires forall k | 0 <= k < |events| :: events[k].AnalogUnlatch?
    ensures AnalogRun(l, events).value == l.value
  {
    if events != [] {
      AnalogOfNone(l, events[..|events| - 1]);
    }
  }

  lemma {:induction false} MessageOrNone(history: seq<Event>, n: nat)
    requires n <= |history|
    ensures (exists m: nat :: LastMessage(history, n, m)) || forall k | 0 <= k < n :: history[k].Unlatch?
  {
    if n > 0 {
      if history[n - 1].Message? {
        assert LastMessage(history, n, n - 1);
      } else {
        var before := n - 1;
        MessageOrNone(history, before);
        if m: nat :| LastMessage(history, before, m) {
          assert LastMessage(history, n, m);
        }
      }
    }
  }

  lemma ThresholdOn(l: Latch, v: AnalogDevice, history: seq<Event>, n: nat, i: nat, j: nat)
    requires Sized(history) && v.channel.Fits() && n <= |history| && i < v.channel.numIntegrators && j < 8
    ensures Shown(history, n, v.channel, i, j, l.value, AnalogRun(l, Exceeding(history, v)[..n]).value)
  {
    hide AnalogRun, StatusBit, AnalogDevice.Thresholds;
    var events := Exceeding(history, v)[..n];
    MessageOrNone(history, n);
    if m: nat :| LastMessage(history, n, m) {
      AnalogOfLast(l, events, m);
      v.ThresholdBits(history[m].status);
    } else {
      AnalogOfNone(l, events);
    }
  }

  // A threshold of an analog device over any messages and unlatches: it is in the value when
  // the last message exceeded it, and latched when some message since the last unlatch
  // did, or that unlatch found it on, or it was latched at the beginning.
  method AnalogHistory(v: AnalogDevice, history: seq<Event>)
    requires Sized(history) && v.channel.Fits()
    modifies v`value, v`previousValue, v`latchedValue
    ensures forall i: nat, j: nat | i < v.channel.numIntegrators && j < 8 ::
      Shown(history, |history|, v.channel, i, j, old(v.value), v.value)
    ensures forall n: nat, i: nat, j: nat | SinceUnlatch(history, n) && i < v.channel.numIntegrators && j < 8 ::
      Held(history, n, v.channel, i, j, Latch(old(v.value), old(v.latchedValue)), v.latchedValue)
  {
    ghost var l, events := v.State(), Exceeding(history, v);
    RunAnalog(v, history);
    hide Shown, Held, AnalogRun, SinceUnlatch, StatusBit, AnalogDevice.Thresholds;
    assert events[..|history|] == events;
    forall i: nat, j: nat | i < v.channel.numIntegrators && j < 8
      ensures Shown(history, |history|, v.channel, i, j, l.value, v.value)
    {
      ThresholdOn(l, v, history, |history|, i, j);
    }
    forall n: nat, i: nat, j: nat | SinceUnlatch(history, n) && i < v.channel.numIntegrators && j < 8
      ensures Held(history, n, v.channel, i, j, l, v.latchedValue)
    {
      ThresholdLatched(l, v, history, n, i, j);
    }
  }

  lemma ThresholdLatched(l: Latch, v: AnalogDevice, history: seq<Event>, n: nat, i: nat, j: nat)
    requires Sized(history) && v.channel.Fits() && SinceUnlatch(history, n) && i < v.channel.numIntegrators && j < 8
    ensures Held(history, n, v.channel, i, j, l, AnalogRun(l, Exceeding(history, v)).latched)
  {
    hide OnAfter, AnalogRun, StatusBit, AnalogDevice.Thresholds;
    var events := Exceeding(history, v);
    assert AnalogUnlatchedAt(events) == n;
    AnalogLatchedSinceUnlatch(l, events, 8 * i + j);
    ThresholdOn(l, v, history, n, i, j);
    forall k | 0 <= k < |history| && history[k].Message?
      ensures 8 * i + j in events[k].exceeded <==> ExceededIn(history, k, v.channel, i, j)
    {
      v.ThresholdBits(history[k].status);
    }
  }

  method RunAnalog(v: AnalogDevice, history: seq<Event>)
    requires Sized(history) && v.channel.Fits()
    modifies v`value, v`previousValue, v`latchedValue
    ensures v.State() == AnalogRun(old(v.State()), Exceeding(history, v))
  {
    hide AnalogStep, AnalogDevice.Thresholds, StatusBit;
    ghost var l, events := v.State(), Exceeding(history, v);
    for i := 0 to |history|
      invariant v.State() == AnalogRun(l, events[..i])
    {
      match history[i] {
        case Message(status) => v.Update(status);
        case Unlatch => v.Unlatch();
      }
      assert events[..i + 1][..i] == events[..i];
    }
    assert events[..|history|] == events;
  }
}
