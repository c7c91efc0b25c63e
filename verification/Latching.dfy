// Samples of an input and how they are latched: DbDeviceInput::update and
// DbAnalogDevice::update in src/central_node_inputs.cc, and MpsDb::unlatchAll in
// src/central_node_database.cc, over whole histories of updates and unlatches.
module Latching {
  import opened Words

  // The two status bits the firmware keeps for one signal
  datatype Reading = Reading(wasLow: bool, wasHigh: bool)

  const SILENT := Reading(false, false)

  // No message counts as a fault, and so does a signal that was both low and high.
  function Sample(r: Reading, faultValue: Word): Word {
    if r.wasLow == r.wasHigh then faultValue else if r.wasLow then ZERO else ONE
  }

  // A threshold is exceeded unless it was seen low and only low.
  predicate Exceeded(r: Reading) {
    r.wasHigh || !r.wasLow
  }

  datatype Latch = Latch(value: Word, latched: Word)

  datatype InputEvent = InputUpdate(reading: Reading) | InputUnlatch

  function InputStep(l: Latch, faultValue: Word, autoReset: bool, e: InputEvent): Latch {
    match e
    case InputUpdate(r) =>
      var v := Sample(r, faultValue);
      Latch(v, if autoReset then v else if v == faultValue then faultValue else l.latched)
    case InputUnlatch => Latch(l.value, l.value)
  }

  function InputRun(l: Latch, faultValue: Word, autoReset: bool, events: seq<InputEvent>): Latch {
    if events == [] then l
    else
      var before := InputRun(l, faultValue, autoReset, events[..|events| - 1]);
      InputStep(before, faultValue, autoReset, events[|events| - 1])
  }

  // The number of events up to and including the last unlatch
  function UnlatchedAt(events: seq<InputEvent>): (n: nat)
    ensures n <= |events| && (n > 0 ==> events[n - 1] == InputUnlatch)
    ensures forall i | n <= i < |events| :: events[i].InputUpdate?
  {
    if events == [] then 0
    else if events[|events| - 1].InputUnlatch? then |events|
    else UnlatchedAt(events[..|events| - 1])
  }

  predicate FaultSeen(events: seq<InputEvent>, n: nat, faultValue: Word) {
    exists i :: n <= i < |events| && events[i].InputUpdate? && Sample(events[i].reading, faultValue) == faultValue
  }

  // Without auto-reset, what is latched is the fault value if any sample since the last
  // unlatch was a fault, and otherwise the value at that unlatch (or what was
  // latched at the beginning, when there was none).
  lemma {:induction false} LatchedSinceUnlatch(l: Latch, faultValue: Word, events: seq<InputEvent>)
    ensures
      var n := UnlatchedAt(events);
      InputRun(l, faultValue, false, events).latched ==
        if FaultSeen(events, n, faultValue) then faultValue
        else if n == 0 then l.latched
        else InputRun(l, faultValue, false, events[..n]).value
  {
    if events != [] {
      var before := events[..|events| - 1];
      LatchedSinceUnlatch(l, faultValue, before);
      var n := UnlatchedAt(events);
      if n < |events| {
        assert events[..n] == before[..n];
        assert FaultSeen(events, n, faultValue) <==>
          FaultSeen(before, n, faultValue) || Sample(events[|events| - 1].reading, faultValue) == faultValue;
      } else {
        assert events[..n] == events;
      }
    }
  }

  // With auto-reset the latch follows the sample.
  lemma AutoResetFollows(l: Latch, faultValue: Word, events: seq<InputEvent>)
    requires events != []
    ensures
      var run := InputRun(l, faultValue, true, events);
      run.latched == run.value
  {
  }

  // An input of a silent card is faulted and latched, with or without auto-reset.
  lemma SilentInput(l: Latch, faultValue: Word, autoReset: bool)
    ensures InputStep(l, faultValue, autoReset, InputUpdate(SILENT)) == Latch(faultValue, faultValue)
  {
  }

  datatype AnalogEvent = AnalogUpdate(exceeded: Word) | AnalogUnlatch

  function AnalogStep(l: Latch, e: AnalogEvent): Latch {
    match e
    case AnalogUpdate(exceeded) => Latch(exceeded, Or(l.latched, exceeded))
    case AnalogUnlatch => Latch(l.value, l.value)
  }

  function AnalogRun(l: Latch, events: seq<AnalogEvent>): Latch {
    if events == [] then l
    else AnalogStep(AnalogRun(l, events[..|events| - 1]), events[|events| - 1])
  }

  function AnalogUnlatchedAt(events: seq<AnalogEvent>): (n: nat)
    ensures n <= |events| && (n > 0 ==> events[n - 1] == AnalogUnlatch)
    ensures forall i | n <= i < |events| :: events[i].AnalogUpdate?
  {
    if events == [] then 0
    else if events[|events| - 1].AnalogUnlatch? then |events|
    else AnalogUnlatchedAt(events[..|events| - 1])
  }

  // A threshold is latched exactly when it was exceeded in some update since the last
  // unlatch, or was in the value at that unlatch (or latched at the beginning).
  lemma {:induction false} AnalogLatchedSinceUnlatch(l: Latch, events: seq<AnalogEvent>, b: nat)
    ensures
      var n := AnalogUnlatchedAt(events);
      b in AnalogRun(l, events).latched <==>
        || b in (if n == 0 then l.latched else AnalogRun(l, events[..n]).value)
        || exists i :: n <= i < |events| && events[i].AnalogUpdate? && b in events[i].exceeded
  {
    if events != [] {
      var before := events[..|events| - 1];
      AnalogLatchedSinceUnlatch(l, before, b);
      var n := AnalogUnlatchedAt(events);
      if n < |events| {
        assert events[..n] == before[..n];
        assert forall i | n <= i < |before| :: before[i] == events[i];
        if b in events[|events| - 1].exceeded {
          assert events[|events| - 1].AnalogUpdate?;
        }
      } else {
        assert events[..n] == events;
      }
    }
  }

  // The bits latched contain the current ones after any update or unlatch, and from
  // then on.
  lemma AnalogLatchContainsValue(l: Latch, events: seq<AnalogEvent>)
    requires events != []
    ensures AnalogRun(l, events).value <= AnalogRun(l, events).latched
  {
  }
}
