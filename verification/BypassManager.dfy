// src/central_node_bypass.h, src/central_node_bypass_manager.h and
// src/central_node_bypass.cc.
module Bypass {
  import opened Words

  datatype BypassType = BypassDigital | BypassAnalog

  datatype BypassStatus = BypassValid | BypassExpired

  // The bypassMask word of one analog device; its four bypasses point to it.
  class BypassMask {
    var bits: Word

    constructor ()
      ensures bits == ALL_ONES
    {
      bits := ALL_ONES;
    }

    // *bypassMask |= 0xFF << 8 * i
    method Raise(i: nat)
      requires i < 4
      modifies this`bits
      ensures Byte(bits, i) == ByteMask(i)
      ensures forall j | 0 <= j < 4 && j != i :: Byte(bits, j) == old(Byte(bits, j))
    {
      bits := bits + ByteMask(i);
    }

    // *bypassMask &= ~(0xFF << 8 * i)
    method Lower(i: nat)
      requires i < 4
      modifies this`bits
      ensures Byte(bits, i) == {}
      ensures forall j | 0 <= j < 4 && j != i :: Byte(bits, j) == old(Byte(bits, j))
    {
      bits := bits - ByteMask(i);
    }
  }

  class InputBypass {
    const deviceId: nat
    const kind: BypassType
    const index: nat
    const mask: BypassMask?
    const configUpdate: bool
    var until: int
    var status: BypassStatus
    var value: Word

    constructor (deviceId: nat, kind: BypassType, index: nat, mask: BypassMask?, configUpdate: bool)
      ensures this.deviceId == deviceId && this.kind == kind && this.index == index
      ensures this.mask == mask && this.configUpdate == configUpdate
      ensures until == 0 && status == BypassExpired && value == ZERO
    {
      this.deviceId, this.kind, this.index, this.mask := deviceId, kind, index, mask;
      this.configUpdate := configUpdate;
      until, status, value := 0, BypassExpired, ZERO;
    }

    // The byte of the mask word this bypass owns
    ghost predicate MaskAgrees()
      reads this, mask
    {
      mask != null && index < 4 ==>
        Byte(mask.bits, index) == if status == BypassValid then {} else ByteMask(index)
    }
  }

  datatype QueueEntry = QueueEntry(time: int, bypass: InputBypass)

  // What an operator sees of a bypass, and what a cycle reads while it is valid
  datatype BypassState = BypassState(status: BypassStatus, until: int, value: Word)

  type BypassStates = map<InputBypass, BypassState>

  // The scan over all bypasses that the queue of deadlines stands for
  ghost function ScanExpired(m: BypassStates, now: int): BypassStates {
    map b | b in m :: if m[b].until <= now then m[b].(status := BypassExpired) else m[b]
  }

  // The entry is not outlived by its bypass.
  predicate Expires(e: QueueEntry)
    reads e.bypass
  {
    e.bypass.until <= e.time
  }

  ghost predicate Soonest(q: multiset<QueueEntry>, e: QueueEntry) {
    e in q && forall f | f in q :: e.time <= f.time
  }

  lemma {:induction false} SoonestExists(q: multiset<QueueEntry>)
    requires q != multiset{}
    ensures exists e :: Soonest(q, e)
    decreases |q|
  {
    var e :| e in q;
    var rest := q - multiset{e};
    if rest == multiset{} {
      assert q == multiset{e};
      assert Soonest(q, e);
    } else {
      SoonestExists(rest);
      var f :| Soonest(rest, f);
      assert forall g | g in q :: g == e || g in rest;
      assert Soonest(q, if e.time <= f.time then e else f);
    }
  }

  // A call on the manager, with the time its clock shows
  datatype Call =
    | Request(kind: BypassType, deviceId: nat, value: Word, until: int, intIndex: int, now: int)
    | Check(now: int)

  class BypassManager {
    const digital: map<nat, InputBypass>
    const analog: map<nat, seq<InputBypass>>
    ghost const bypasses: set<InputBypass>
    ghost const masks: set<BypassMask>
    ghost const owner: map<(BypassMask, nat), InputBypass>
    // std::priority_queue: top() is an entry no other is earlier than
    var queue: multiset<QueueEntry>
    var refreshFirmwareConfiguration: bool

    // How createBypassMap and assignBypass tie bypasses to devices
    ghost predicate Directory() {
      && (forall id | id in digital ::
            digital[id] in bypasses && digital[id].kind == BypassDigital && digital[id].deviceId == id)
      && (forall id | id in analog :: |analog[id]| == 4)
      && (forall id, i | id in analog && 0 <= i < 4 ::
            && analog[id][i] in bypasses && analog[id][i].kind == BypassAnalog && analog[id][i].index == i
            && analog[id][i].deviceId == id)
    }

    // Every analog bypass owns one byte of one mask word, and no two own the same.
    ghost predicate Linked() {
      forall b | b in bypasses ::
        && (b.kind == BypassAnalog <==> b.mask != null)
        && (b.mask != null ==>
              b.mask in masks && b.index < 4 && (b.mask, b.index) in owner && owner[(b.mask, b.index)] == b)
    }

    // A valid bypass waits in the queue under its own deadline; what an expired
    // one left behind in the queue is due no earlier than its deadline.
    ghost predicate QueueAgrees()
      reads this`queue, bypasses
    {
      && (forall b | b in bypasses && b.status == BypassValid :: QueueEntry(b.until, b) in queue)
      && (forall e | e in queue :: e.bypass in bypasses && 0 <= e.time)
      && (forall e | e in queue && e.bypass.status == BypassExpired :: e.bypass.until <= e.time)
    }

    ghost predicate MasksAgree()
      reads bypasses, masks
      requires Linked()
    {
      forall b | b in bypasses :: b.MaskAgrees()
    }

    ghost predicate Valid()
      reads this`queue, bypasses, masks
    {
      Linked() && QueueAgrees() && MasksAgree()
    }

    ghost function States(): BypassStates
      reads bypasses
    {
      map b | b in bypasses :: BypassState(b.status, b.until, b.value)
    }

    // Every bypass as createBypassMap leaves it
    constructor (digital: map<nat, InputBypass>, analog: map<nat, seq<InputBypass>>, ghost bypasses: set<InputBypass>,
                 ghost masks: set<BypassMask>, ghost owner: map<(BypassMask, nat), InputBypass>)
      requires forall b | b in bypasses ::
        && (b.kind == BypassAnalog <==> b.mask != null)
        && (b.mask != null ==>
              b.mask in masks && b.index < 4 && (b.mask, b.index) in owner && owner[(b.mask, b.index)] == b)
      requires forall b | b in bypasses :: b.status == BypassExpired && b.until == 0
      requires forall m | m in masks :: m.bits == ALL_ONES
      ensures Valid() && queue == multiset{} && !refreshFirmwareConfiguration
      ensures this.digital == digital && this.analog == analog
      ensures this.bypasses == bypasses && this.masks == masks && this.owner == owner
    {
      this.digital, this.analog := digital, analog;
      this.bypasses, this.masks, this.owner := bypasses, masks, owner;
      queue, refreshFirmwareConfiguration := multiset{}, false;
    }

    method ExpireBypass(bypass: InputBypass)
      requires Linked() && bypass in bypasses
      modifies this`refreshFirmwareConfiguration, bypass`status, masks`bits
      ensures bypass.status == BypassExpired
      ensures refreshFirmwareConfiguration == (old(refreshFirmwareConfiguration) || bypass.configUpdate)
      ensures forall m | m in masks ::
        forall i | 0 <= i < 4 :: Byte(m.bits, i) ==
          if m == bypass.mask && i == bypass.index then ByteMask(i) else old(Byte(m.bits, i))
    {
      if bypass.kind == BypassAnalog && bypass.mask != null {
        bypass.mask.Raise(bypass.index);
      }
      if bypass.configUpdate {
        refreshFirmwareConfiguration := true;
      }
      bypass.status := BypassExpired;
    }

    // One round of the expiry loop: true to go on, false to stop.  The contract
    // follows every branch and so needs no invariant; `top` is the entry looked at.
    method CheckBypassQueueTop(now: int) returns (expired: bool, ghost top: Option<QueueEntry>)
      requires Linked() && forall e | e in queue :: e.bypass in bypasses
      modifies this`queue, this`refreshFirmwareConfiguration, bypasses`status, masks`bits
      ensures top.None? ==> !expired && (forall e | e in old(queue) :: now < e.time)
      ensures top.None? ==> queue == old(queue) && refreshFirmwareConfiguration == old(refreshFirmwareConfiguration)
      ensures top.None? ==> unchanged(bypasses) && unchanged(masks)
      ensures top.Some? ==>
        && Soonest(old(queue), top.value) && top.value.time <= now
        && queue == old(queue) - multiset{top.value}
        && (forall b | b in bypasses && b != top.value.bypass :: b.status == old(b.status))
      ensures top.Some? && top.value.bypass.until > top.value.time ==>
        && top.value.bypass.status == BypassValid
        && expired == old(top.value.bypass.status == BypassValid)
        && unchanged(masks) && refreshFirmwareConfiguration == old(refreshFirmwareConfiguration)
      ensures top.Some? && top.value.bypass.until <= top.value.time ==>
        && expired && top.value.bypass.status == BypassExpired
        && refreshFirmwareConfiguration == (old(refreshFirmwareConfiguration) || top.value.bypass.configUpdate)
        && (forall m | m in masks ::
              forall i | 0 <= i < 4 :: Byte(m.bits, i) ==
                if m == top.value.bypass.mask && i == top.value.bypass.index then ByteMask(i) else old(Byte(m.bits, i)))
    {
      top := None;
      if queue == multiset{} {
        return false, top;
      }
      SoonestExists(queue);
      var first :| first in queue && forall f | f in queue :: first.time <= f.time;
      if first.time > now {
        return false, top;
      }
      top := Some(first);
      queue := queue - multiset{first};
      var bypass := first.bypass;
      if bypass.until > first.time {
        if bypass.status != BypassValid {
          bypass.status := BypassValid;
          return false, top;
        }
      } else {
        ExpireBypass(bypass);
      }
      return true, top;
    }

    // Under the invariant a round is one of two things: nothing is due, or the
    // soonest entry is taken off and its bypass expires exactly when the entry
    // reaches its deadline.  The branch that repairs an expired bypass and stops
    // the loop early is not among them.
    method CheckTopOfValidQueue(now: int) returns (expired: bool, ghost top: Option<QueueEntry>)
      requires Valid()
      modifies this`queue, this`refreshFirmwareConfiguration, bypasses`status, masks`bits
      ensures Valid()
      ensures expired == top.Some?
      ensures !expired ==>
        && queue == old(queue) && (forall e | e in queue :: now < e.time)
        && refreshFirmwareConfiguration == old(refreshFirmwareConfiguration)
        && (forall b | b in bypasses :: b.status == old(b.status))
      ensures expired ==>
        && Soonest(old(queue), top.value) && top.value.time <= now
        && queue == old(queue) - multiset{top.value}
        && refreshFirmwareConfiguration ==
             (old(refreshFirmwareConfiguration) || (Expires(top.value) && top.value.bypass.configUpdate))
        && (forall b | b in bypasses ::
              b.status == if b == top.value.bypass && Expires(top.value) then BypassExpired else old(b.status))
    {
      expired, top := CheckBypassQueueTop(now);
      if top.Some? {
        forall b | b in bypasses ensures b.MaskAgrees() {
          assert old(b.MaskAgrees());
        }
      }
    }

    // The loop of checkBypassQueue
    method ExpireDueEntries(now: int)
      requires Valid()
      modifies this`queue, this`refreshFirmwareConfiguration, bypasses`status, masks`bits
      ensures Valid()
      ensures forall e | e in queue :: now < e.time
      ensures forall e: QueueEntry | now < e.time :: queue[e] == old(queue)[e]
      ensures forall b | b in bypasses :: b.status == old(b.status) || (b.status == BypassExpired && b.until <= now)
      ensures old(refreshFirmwareConfiguration) ==> refreshFirmwareConfiguration
      ensures forall b | b in bypasses && b.configUpdate && b.status != old(b.status) :: refreshFirmwareConfiguration
    {
      var expired := true;
      while expired
        invariant Valid()
        invariant !expired ==> forall e | e in queue :: now < e.time
        invariant forall e: QueueEntry | now < e.time :: queue[e] == old(queue)[e]
        invariant forall b | b in bypasses :: b.status == old(b.status) || (b.status == BypassExpired && b.until <= now)
        invariant old(refreshFirmwareConfiguration) ==> refreshFirmwareConfiguration
        invariant forall b | b in bypasses && b.configUpdate && b.status != old(b.status) ::
          refreshFirmwareConfiguration
        decreases |queue|, expired
      {
        ghost var top;
        expired, top := CheckTopOfValidQueue(now);
      }
    }

    // The whole expiry check.  It ends, does what the scan over all bypasses does,
    // and leaves no due entry behind.
    method CheckBypassQueue(testTime: int, clock: int) returns (now: int)
      requires Valid()
      modifies this`queue, this`refreshFirmwareConfiguration, bypasses`status, masks`bits
      ensures now == if testTime == 0 then clock else testTime
      ensures Valid()
      ensures States() == ScanExpired(old(States()), now)
      ensures forall b | b in bypasses ::
        && b.until == old(b.until) && b.value == old(b.value)
        && b.status == if old(b.until) <= now then BypassExpired else old(b.status)
      ensures forall e: QueueEntry :: queue[e] == if e.time <= now then 0 else old(queue)[e]
      ensures old(refreshFirmwareConfiguration) ==> refreshFirmwareConfiguration
      ensures forall b | b in bypasses && b.configUpdate && b.status != old(b.status) :: refreshFirmwareConfiguration
    {
      now := if testTime == 0 then clock else testTime;
      ExpireDueEntries(now);
      forall b | b in bypasses && b.status == BypassValid ensures now < b.until {
        assert QueueEntry(b.until, b) in queue;
      }
    }

    ghost predicate Known(kind: BypassType, deviceId: nat) {
      if kind == BypassDigital then deviceId in digital else deviceId in analog
    }

    function Target(kind: BypassType, deviceId: nat, intIndex: int): (b: InputBypass)
      requires Directory() && Known(kind, deviceId) && (kind == BypassAnalog ==> 0 <= intIndex < 4)
      ensures b in bypasses && b.kind == kind && b.deviceId == deviceId
      ensures kind == BypassAnalog ==> b.index == intIndex
    {
      if kind == BypassDigital then digital[deviceId] else analog[deviceId][intIndex]
    }

    // Only the byte of bypass b may differ from what the masks held before.
    twostate predicate OnlyByteOf(b: InputBypass)
      reads masks
    {
      forall m, i | m in masks && 0 <= i < 4 && (m != b.mask || i != b.index) :: Byte(m.bits, i) == old(Byte(m.bits, i))
    }

    // Changing one bypass and its own byte keeps every byte in step.
    twostate lemma MasksStillAgree(changed: InputBypass)
      requires Linked() && old(MasksAgree()) && changed in bypasses && changed.MaskAgrees()
      requires OnlyByteOf(changed)
      requires forall b | b in bypasses && b != changed :: b.status == old(b.status)
      ensures MasksAgree()
    {
      forall b | b in bypasses ensures b.MaskAgrees() {
        assert old(b.MaskAgrees());
      }
    }

    // Queueing a started bypass under its deadline keeps the queue in step exactly when
    // the deadline is not negative.
    twostate lemma QueueStillAgrees(started: InputBypass)
      requires old(QueueAgrees()) && started in bypasses && started.status == BypassValid
      requires queue == old(queue) + multiset{QueueEntry(started.until, started)}
      requires forall b | b in bypasses && b != started :: b.status == old(b.status) && b.until == old(b.until)
      ensures QueueAgrees() <==> 0 <= started.until
    {
      assert QueueEntry(started.until, started) in queue;
      forall e | e in queue
        ensures e.bypass in bypasses && (e == QueueEntry(started.until, started) || 0 <= e.time)
        ensures e.bypass.status == BypassExpired ==> e.bypass.until <= e.time
      {
        assert e in old(queue) || e == QueueEntry(started.until, started);
      }
    }

    // What both kinds of request do to the bypass, its mask byte and the flag
    method MarkBypass(bypass: InputBypass, status: BypassStatus, until: int)
      requires Linked() && MasksAgree() && bypass in bypasses
      modifies this`refreshFirmwareConfiguration, bypass`status, bypass`until, masks`bits
      ensures MasksAgree() && OnlyByteOf(bypass)
      ensures bypass.status == status && bypass.until == until
      ensures refreshFirmwareConfiguration == (old(refreshFirmwareConfiguration) || bypass.configUpdate)
    {
      if bypass.configUpdate {
        refreshFirmwareConfiguration := true;
      }
      bypass.status, bypass.until := status, until;
      if bypass.mask != null {
        if status == BypassValid {
          bypass.mask.Lower(bypass.index);
        } else {
          bypass.mask.Raise(bypass.index);
        }
      }
      MasksStillAgree(bypass);
    }

    // bypassUntil zero: the bypass ends now, its queue entries stay behind.
    method CancelBypass(bypass: InputBypass)
      requires Linked() && MasksAgree() && bypass in bypasses
      modifies this`refreshFirmwareConfiguration, bypass`status, bypass`until, masks`bits
      ensures MasksAgree() && OnlyByteOf(bypass) && (old(QueueAgrees()) ==> QueueAgrees())
      ensures bypass.status == BypassExpired && bypass.until == 0
      ensures refreshFirmwareConfiguration == (old(refreshFirmwareConfiguration) || bypass.configUpdate)
    {
      MarkBypass(bypass, BypassExpired, 0);
    }

    // A new bypass, or an earlier or later deadline for a valid one
    method StartBypass(bypass: InputBypass, value: Word, bypassUntil: int)
      requires Valid() && bypass in bypasses
      modifies this`queue, this`refreshFirmwareConfiguration, masks`bits
      modifies bypass`status, bypass`until, bypass`value
      ensures MasksAgree() && OnlyByteOf(bypass) && (Valid() <==> 0 <= bypassUntil)
      ensures bypass.status == BypassValid && bypass.until == bypassUntil && bypass.value == value
      ensures queue == old(queue) + multiset{QueueEntry(bypassUntil, bypass)}
      ensures refreshFirmwareConfiguration == (old(refreshFirmwareConfiguration) || bypass.configUpdate)
    {
      queue := queue + multiset{QueueEntry(bypassUntil, bypass)};
      bypass.value := value;
      MarkBypass(bypass, BypassValid, bypassUntil);
      QueueStillAgrees(bypass);
    }

    // Only the state of one bypass changed.
    twostate lemma OneStateChanged(bypass: InputBypass)
      requires bypass in bypasses
      requires forall b | b in bypasses && b != bypass ::
        b.status == old(b.status) && b.until == old(b.until) && b.value == old(b.value)
      ensures States() == old(States())[bypass := BypassState(bypass.status, bypass.until, bypass.value)]
    {
    }

    // The three cases of a request for one bypass.  Only a negative deadline that is acted
    // on, as in test mode, leaves the state invariant.
    method RequestBypass(bypass: InputBypass, value: Word, bypassUntil: int, now: int)
      requires Valid() && bypass in bypasses
      modifies this`queue, this`refreshFirmwareConfiguration, masks`bits
      modifies bypass`status, bypass`until, bypass`value
      ensures MasksAgree() && (Valid() <==> 0 <= bypassUntil || bypassUntil <= now)
      ensures States() == SetState(old(States()), bypass, value, bypassUntil, now)
      ensures bypassUntil == 0 ==> bypass.status == BypassExpired && bypass.until == 0
      ensures bypassUntil != 0 && now < bypassUntil ==> bypass.status == BypassValid && bypass.until == bypassUntil
      ensures bypassUntil != 0 && bypassUntil <= now ==>
        bypass.status == old(bypass.status) && bypass.until == old(bypass.until)
      ensures OnlyByteOf(bypass)
      ensures bypass.value == if bypassUntil != 0 && now < bypassUntil then value else old(bypass.value)
      ensures queue ==
        if bypassUntil != 0 && now < bypassUntil then old(queue) + multiset{QueueEntry(bypassUntil, bypass)}
        else old(queue)
      ensures old(refreshFirmwareConfiguration) ==> refreshFirmwareConfiguration
      ensures bypass.configUpdate && bypass.status != old(bypass.status) ==> refreshFirmwareConfiguration
    {
      if bypassUntil == 0 {
        CancelBypass(bypass);
      } else if bypassUntil > now {
        StartBypass(bypass, value, bypassUntil);
      }
      OneStateChanged(bypass);
    }

    // setThresholdBypass; setBypass is the digital case, where intIndex plays no
    // part.  None stands for the exception raised for an unknown device.
    method SetThresholdBypass(kind: BypassType, deviceId: nat, value: Word, bypassUntil: int,
                              intIndex: int, clock: int, test: bool)
      returns (target: Option<InputBypass>)
      requires Valid() && Directory() && (kind == BypassAnalog ==> 0 <= intIndex < 4)
      modifies this`queue, this`refreshFirmwareConfiguration, masks`bits
      modifies bypasses`status, bypasses`until, bypasses`value
      ensures MasksAgree()
      ensures Valid() <==> target.None? || 0 <= bypassUntil || (!test && bypassUntil <= clock)
      ensures target == if Known(kind, deviceId) then Some(Target(kind, deviceId, intIndex)) else None
      ensures queue == if target.Some? && bypassUntil != 0 && (test || clock < bypassUntil)
        then old(queue) + multiset{QueueEntry(bypassUntil, target.value)} else old(queue)
      ensures States() == if target.None? then old(States())
        else SetState(old(States()), target.value, value, bypassUntil, if test then bypassUntil - 1 else clock)
      ensures target.Some? && bypassUntil == 0 ==>
        && target.value.status == BypassExpired && target.value.until == 0
        && target.value.value == old(target.value.value)
        && (target.value.mask != null ==> forall b: nat | 8 * target.value.index <= b < 8 * target.value.index + 8 ::
              b in target.value.mask.bits)
      ensures target.Some? && bypassUntil != 0 && (test || clock < bypassUntil) ==>
        && target.value.status == BypassValid && target.value.until == bypassUntil
        && target.value.value == value
        && (target.value.mask != null ==> forall b: nat | 8 * target.value.index <= b < 8 * target.value.index + 8 ::
              b !in target.value.mask.bits)
      ensures target.Some? && bypassUntil != 0 && !test && bypassUntil <= clock ==>
        && target.value.status == old(target.value.status) && target.value.until == old(target.value.until)
        && target.value.value == old(target.value.value)
      ensures forall b | b in bypasses && target != Some(b) ::
        b.status == old(b.status) && b.until == old(b.until) && b.value == old(b.value)
      ensures forall m, i |
        m in masks && 0 <= i < 4 && !(target.Some? && m == target.value.mask && i == target.value.index) ::
        Byte(m.bits, i) == old(Byte(m.bits, i))
      ensures old(refreshFirmwareConfiguration) ==> refreshFirmwareConfiguration
      ensures forall b | b in bypasses && b.configUpdate && b.status != old(b.status) :: refreshFirmwareConfiguration
    {
      hide MasksAgree, Linked, Directory, InputBypass.MaskAgrees;
      if kind == BypassDigital && deviceId !in digital {
        return None;
      }
      if kind == BypassAnalog && deviceId !in analog {
        return None;
      }
      var bypass := Target(kind, deviceId, intIndex);
      target := Some(bypass);
      RequestBypass(bypass, value, bypassUntil, if test then bypassUntil - 1 else clock);
      OwnByte(bypass);
    }

    // The eight bits of a bypass in its mask word
    lemma OwnByte(bypass: InputBypass)
      requires Linked() && MasksAgree() && bypass in bypasses
      ensures bypass.mask != null && bypass.status == BypassValid ==>
        forall b: nat | 8 * bypass.index <= b < 8 * bypass.index + 8 :: b !in bypass.mask.bits
      ensures bypass.mask != null && bypass.status == BypassExpired ==>
        forall b: nat | 8 * bypass.index <= b < 8 * bypass.index + 8 :: b in bypass.mask.bits
    {
      assert bypass.MaskAgrees();
      if bypass.mask != null {
        forall b: nat | 8 * bypass.index <= b < 8 * bypass.index + 8
          ensures b in bypass.mask.bits <==> b in Byte(bypass.mask.bits, bypass.index)
        {
          assert b in ByteMask(bypass.index);
        }
      }
    }

    // What a negative deadline leads to: cancelling the bypass leaves its entry, which lies
    // below the deadline zero.  At the next check that entry is taken off as if the bypass
    // had been extended, and the branch that repairs an expired bypass makes it valid, with
    // no entry left to end it and its mask byte not lowered.
    method RepairAfterNegativeDeadline(bypass: InputBypass, value: Word, bypassUntil: int, now: int)
      returns (expired: bool)
      requires Valid() && queue == multiset{} && bypass in bypasses && bypassUntil < 0 <= now
      modifies this`queue, this`refreshFirmwareConfiguration, bypasses`status, masks`bits
      modifies bypass`until, bypass`value
      ensures !expired && queue == multiset{}
      ensures bypass.status == BypassValid && bypass.until == 0 && !Valid()
      ensures bypass.mask != null ==> Byte(bypass.mask.bits, bypass.index) == ByteMask(bypass.index)
    {
      hide OnlyByteOf;
      RequestBypass(bypass, value, bypassUntil, bypassUntil - 1);
      CancelBypass(bypass);
      label Cancelled:
      assert bypass.MaskAgrees();
      ghost var top;
      expired, top := CheckBypassQueueTop(now);
      assert QueueEntry(bypassUntil, bypass) in old@Cancelled(queue);
    }

    // ---- Any sequence of calls ----

    ghost predicate Callable(call: Call) {
      call.Request? ==>
        (call.kind == BypassAnalog ==> 0 <= call.intIndex < 4) && (call.until < 0 ==> call.until <= call.now)
    }

    // What a call does to the states of all bypasses
    ghost function AfterCall(m: BypassStates, call: Call): BypassStates
      requires Directory() && Callable(call)
    {
      match call
      case Request(kind, deviceId, value, until, intIndex, now) =>
        if Known(kind, deviceId) then SetState(m, Target(kind, deviceId, intIndex), value, until, now) else m
      case Check(now) => ScanExpired(m, now)
    }

    ghost function AfterCalls(m: BypassStates, calls: seq<Call>): BypassStates
      requires Directory() && forall c | c in calls :: Callable(c)
    {
      if calls == [] then m else AfterCall(AfterCalls(m, calls[..|calls| - 1]), calls[|calls| - 1])
    }

    // A request that changes bypass b: a cancellation or a deadline still to come
    ghost predicate ActsOn(call: Call, b: InputBypass)
      requires Directory() && Callable(call)
    {
      && call.Request? && Known(call.kind, call.deviceId) && Target(call.kind, call.deviceId, call.intIndex) == b
      && (call.until == 0 || call.now < call.until)
    }

    // Call n set the deadline of b, and nothing ended or replaced it later.
    ghost predicate HeldSince(calls: seq<Call>, n: nat, b: InputBypass)
      requires Directory() && forall c | c in calls :: Callable(c)
    {
      && n < |calls| && ActsOn(calls[n], b) && calls[n].until != 0
      && forall k | n < k < |calls| :: !ActsOn(calls[k], b) && (calls[k].Check? ==> calls[k].now < calls[n].until)
    }

    // A bypass is valid after a run of calls exactly when some request gave it a deadline
    // that no later request touched and no later check found passed; then it has the deadline
    // and the value of that request.
    lemma {:induction false} ValidSinceRequest(m: BypassStates, calls: seq<Call>, b: InputBypass)
      requires Directory() && (forall c | c in calls :: Callable(c)) && b in m && m[b].status == BypassExpired
      ensures b in AfterCalls(m, calls)
      ensures AfterCalls(m, calls)[b].status == BypassValid <==> exists n: nat :: HeldSince(calls, n, b)
      ensures forall n: nat | HeldSince(calls, n, b) ::
        AfterCalls(m, calls)[b].until == calls[n].until && AfterCalls(m, calls)[b].value == calls[n].value
    {
      if calls != [] {
        var before, last := calls[..|calls| - 1], calls[|calls| - 1];
        ValidSinceRequest(m, before, b);
        hide Directory, Known;
        if ActsOn(last, b) {
          assert last.until != 0 ==> HeldSince(calls, |calls| - 1, b);
          assert forall n: nat :: HeldSince(calls, n, b) ==> n == |calls| - 1;
        } else {
          forall n: nat ensures HeldSince(calls, n, b) <==>
              HeldSince(before, n, b) && (last.Check? ==> last.now < before[n].until) {
            HeldLonger(calls, n, b);
          }
          assert !last.Check? ==> AfterCalls(m, calls)[b] == AfterCalls(m, before)[b];
        }
      }
    }

    lemma HeldLonger(calls: seq<Call>, n: nat, b: InputBypass)
      requires Directory() && (forall c | c in calls :: Callable(c)) && calls != [] && !ActsOn(calls[|calls| - 1], b)
      ensures
        var before, last := calls[..|calls| - 1], calls[|calls| - 1];
        HeldSince(calls, n, b) <==> HeldSince(before, n, b) && (last.Check? ==> last.now < before[n].until)
    {
      var before := calls[..|calls| - 1];
      assert forall k | 0 <= k < |before| :: before[k] == calls[k];
    }

    method PerformCall(call: Call)
      requires Valid() && Directory() && Callable(call)
      modifies this`queue, this`refreshFirmwareConfiguration, masks`bits
      modifies bypasses`status, bypasses`until, bypasses`value
      ensures Valid() && States() == AfterCall(old(States()), call)
    {
      match call
      case Request(kind, deviceId, value, until, intIndex, now) =>
        var target := SetThresholdBypass(kind, deviceId, value, until, intIndex, now, false);
      case Check(now) =>
        var checked := CheckBypassQueue(0, now);
    }

    // The queue with its stale entries serves every sequence of requests and expiry
    // checks just as the scan over all bypasses does.
    method PerformCalls(calls: seq<Call>)
      requires Valid() && Directory() && forall c | c in calls :: Callable(c)
      modifies this`queue, this`refreshFirmwareConfiguration, masks`bits
      modifies bypasses`status, bypasses`until, bypasses`value
      ensures Valid() && States() == AfterCalls(old(States()), calls)
    {
      for n := 0 to |calls|
        invariant Valid() && States() == AfterCalls(old(States()), calls[..n])
      {
        PerformCall(calls[n]);
        assert calls[..n + 1][..n] == calls[..n];
      }
      assert calls[..|calls|] == calls;
    }
  }

  // ---- createBypassMap and assignBypass ----

  // An input or analog device that needs bypasses, and whether they concern the firmware
  datatype Bypassed = Bypassed(id: nat, configUpdate: bool)

  ghost predicate DistinctIds(rows: seq<Bypassed>) {
    forall i, j | 0 <= i < j < |rows| :: rows[i].id != rows[j].id
  }

  ghost predicate IdsOf(rows: seq<Bypassed>, n: nat, ids: set<nat>)
    requires n <= |rows|
  {
    forall id :: id in ids <==> exists i :: 0 <= i < n && rows[i].id == id
  }

  ghost predicate NewBypass(b: InputBypass, row: Bypassed, kind: BypassType, index: nat, mask: BypassMask?)
    reads b
  {
    && b.deviceId == row.id && b.kind == kind && b.index == index && b.mask == mask
    && b.configUpdate == row.configUpdate && b.status == BypassExpired && b.until == 0
  }

  // One bypass for every device input
  method CreateDigital(rows: seq<Bypassed>) returns (digital: map<nat, InputBypass>)
    requires DistinctIds(rows)
    ensures IdsOf(rows, |rows|, digital.Keys)
    ensures forall id | id in digital :: fresh(digital[id])
    ensures forall i | 0 <= i < |rows| :: NewBypass(digital[rows[i].id], rows[i], BypassDigital, 0, null)
  {
    digital := map[];
    for n := 0 to |rows|
      invariant IdsOf(rows, n, digital.Keys)
      invariant forall id | id in digital :: fresh(digital[id])
      invariant forall i | 0 <= i < n :: NewBypass(digital[rows[i].id], rows[i], BypassDigital, 0, null)
    {
      var bypass := new InputBypass(rows[n].id, BypassDigital, 0, null, rows[n].configUpdate);
      digital := digital[rows[n].id := bypass];
    }
  }

  // The four bypasses of one analog device, one per integrator, with its mask word
  ghost predicate FourBypasses(four: seq<InputBypass>, row: Bypassed, mask: BypassMask)
    reads four
  {
    |four| == 4 && forall i | 0 <= i < 4 :: NewBypass(four[i], row, BypassAnalog, i, mask)
  }

  method CreateFour(row: Bypassed, mask: BypassMask) returns (four: seq<InputBypass>)
    ensures FourBypasses(four, row, mask) && forall b | b in four :: fresh(b)
  {
    four := [];
    for i := 0 to 4
      invariant |four| == i && forall b | b in four :: fresh(b)
      invariant forall j | 0 <= j < i :: NewBypass(four[j], row, BypassAnalog, j, mask)
    {
      var bypass := new InputBypass(row.id, BypassAnalog, i, mask, row.configUpdate);
      four := four + [bypass];
    }
  }

  method CreateAnalog(rows: seq<Bypassed>) returns (analog: map<nat, seq<InputBypass>>, masks: map<nat, BypassMask>)
    requires DistinctIds(rows)
    ensures IdsOf(rows, |rows|, analog.Keys) && masks.Keys == analog.Keys
    ensures forall id | id in masks :: fresh(masks[id]) && masks[id].bits == ALL_ONES
    ensures forall id, b | id in analog && b in analog[id] :: fresh(b)
    ensures forall i, j | i in masks && j in masks && i != j :: masks[i] != masks[j]
    ensures forall i | 0 <= i < |rows| :: FourBypasses(analog[rows[i].id], rows[i], masks[rows[i].id])
  {
    analog, masks := map[], map[];
    for n := 0 to |rows|
      invariant IdsOf(rows, n, analog.Keys) && masks.Keys == analog.Keys
      invariant forall id | id in masks :: fresh(masks[id]) && masks[id].bits == ALL_ONES
      invariant forall id, b | id in analog && b in analog[id] :: fresh(b)
      invariant forall i, j | i in masks && j in masks && i != j :: masks[i] != masks[j]
      invariant forall i | 0 <= i < n :: FourBypasses(analog[rows[i].id], rows[i], masks[rows[i].id])
    {
      var mask := new BypassMask();
      var four := CreateFour(rows[n], mask);
      analog, masks := analog[rows[n].id := four], masks[rows[n].id := mask];
    }
  }

  // The manager for a configuration: every input and every integrator of every analog
  // device has its bypass, none of them valid.
  method CreateBypassMap(inputs: seq<Bypassed>, devices: seq<Bypassed>)
    returns (manager: BypassManager, masks: map<nat, BypassMask>)
    requires DistinctIds(inputs) && DistinctIds(devices)
    ensures fresh(manager) && manager.Valid() && manager.Directory()
    ensures manager.queue == multiset{} && !manager.refreshFirmwareConfiguration
    ensures IdsOf(inputs, |inputs|, manager.digital.Keys) && IdsOf(devices, |devices|, manager.analog.Keys)
    ensures masks.Keys == manager.analog.Keys
    ensures forall i | 0 <= i < |inputs| :: NewBypass(manager.digital[inputs[i].id], inputs[i], BypassDigital, 0, null)
    ensures forall i | 0 <= i < |devices| ::
      FourBypasses(manager.analog[devices[i].id], devices[i], masks[devices[i].id])
  {
    var digital := CreateDigital(inputs);
    var analog;
    analog, masks := CreateAnalog(devices);
    DigitalCreated(inputs, digital);
    AnalogCreated(devices, analog, masks);
    ghost var owner := OwnerOf(analog, masks);
    ghost var bypasses := digital.Values + AllOf(analog);
    manager := new BypassManager(digital, analog, bypasses, masks.Values, owner);
  }

  ghost function AllOf(analog: map<nat, seq<InputBypass>>): (all: set<InputBypass>)
    ensures forall id, b | id in analog && b in analog[id] :: b in all
    ensures forall b | b in all :: exists id :: id in analog && b in analog[id]
  {
    set id, b | id in analog && b in analog[id] :: b
  }

  // Who owns which byte of which mask word
  lemma OwnerOf(analog: map<nat, seq<InputBypass>>, masks: map<nat, BypassMask>)
    returns (owner: map<(BypassMask, nat), InputBypass>)
    requires masks.Keys == analog.Keys && forall id | id in analog :: |analog[id]| == 4
    requires forall i, j | i in masks && j in masks && i != j :: masks[i] != masks[j]
    ensures forall id, i: nat | id in analog && i < 4 ::
      (masks[id], i) in owner && owner[(masks[id], i)] == analog[id][i]
  {
    owner := map id, i: nat | id in analog && i < 4 :: (masks[id], i) := analog[id][i];
  }

  lemma DigitalCreated(inputs: seq<Bypassed>, digital: map<nat, InputBypass>)
    requires IdsOf(inputs, |inputs|, digital.Keys)
    requires forall i | 0 <= i < |inputs| :: NewBypass(digital[inputs[i].id], inputs[i], BypassDigital, 0, null)
    ensures forall id | id in digital ::
      && digital[id].kind == BypassDigital && digital[id].deviceId == id && digital[id].mask == null
      && digital[id].status == BypassExpired && digital[id].until == 0
  {
  }

  lemma AnalogCreated(devices: seq<Bypassed>, analog: map<nat, seq<InputBypass>>, masks: map<nat, BypassMask>)
    requires IdsOf(devices, |devices|, analog.Keys) && masks.Keys == analog.Keys
    requires forall i | 0 <= i < |devices| :: FourBypasses(analog[devices[i].id], devices[i], masks[devices[i].id])
    ensures forall id | id in analog :: |analog[id]| == 4
    ensures forall id, i | id in analog && 0 <= i < 4 ::
      && analog[id][i].kind == BypassAnalog && analog[id][i].mask == masks[id] && analog[id][i].index == i
      && analog[id][i].deviceId == id && analog[id][i].status == BypassExpired && analog[id][i].until == 0
  {
    forall id | id in analog
      ensures |analog[id]| == 4 && exists row: Bypassed :: row.id == id && FourBypasses(analog[id], row, masks[id])
    {
      var i :| 0 <= i < |devices| && devices[i].id == id;
      assert FourBypasses(analog[id], devices[i], masks[id]);
    }
  }

  // The effect of one request: zero cancels, a past deadline is not acted on
  ghost function SetState(m: BypassStates, b: InputBypass, value: Word, bypassUntil: int, now: int): BypassStates {
    if bypassUntil == 0 then (if b in m then m[b := m[b].(status := BypassExpired, until := 0)] else m)
    else if bypassUntil > now then m[b := BypassState(BypassValid, bypassUntil, value)]
    else m
  }
}
