// What Engine::evaluateIgnoreConditions leaves in ignoredIntegrator
// (src/central_node_engine.cc): which row decides a flag, when the flag is free of
// earlier cycles, and for which configurations it says what it is meant to say.
module IntegratorRules {
  import opened Words
  import opened Tables
  import opened CycleRules

  predicate HasRow(db: Database, d: nat, i: nat) {
    d < |db.conditions| && i < |db.conditions[d].ignoreConditions|
  }

  // Ignore row i of condition d names analog device a beside a state of integrator g.
  predicate NamesIntegrator(db: Database, d: nat, i: nat, a: nat, g: nat)
    requires db.WellFormed()
  {
    HasRow(db, d, i)
    && var row := db.conditions[d].ignoreConditions[i];
       && row.faultState.Some? && row.device == Some(AnalogAt(a))
       && db.faults[row.faultState.value.fault].states[row.faultState.value.state].deviceState.GetIntegrator() == g
  }

  function StateOf(db: Database, d: nat, i: nat, a: nat, g: nat): StateRef
    requires db.WellFormed() && NamesIntegrator(db, d, i, a, g)
  {
    db.conditions[d].ignoreConditions[i].faultState.value
  }

  // Such a row writes the flag when its state is not ignored yet.
  predicate Writer(db: Database, met: seq<bool>, d: nat, i: nat, a: nat, g: nat)
    requires db.WellFormed() && |met| == |db.conditions|
  {
    HasRow(db, d, i) && WritesIntegrator(db, met, d, i, a, g)
  }

  predicate Before(d: nat, i: nat, c: nat, n: nat) {
    d < c || (d == c && i < n)
  }

  ghost predicate SomeWriter(db: Database, met: seq<bool>, c: nat, n: nat, a: nat, g: nat)
    requires db.WellFormed() && Place(db, met, c, n)
  {
    exists d: nat, i: nat :: Before(d, i, c, n) && Writer(db, met, d, i, a, g)
  }

  ghost predicate LastWriter(db: Database, met: seq<bool>, c: nat, n: nat, a: nat, g: nat, d: nat, i: nat)
    requires db.WellFormed() && Place(db, met, c, n)
  {
    && Before(d, i, c, n) && Writer(db, met, d, i, a, g)
    && forall d': nat, i': nat | Before(d', i', c, n) && Writer(db, met, d', i', a, g) :: !Before(d, i, d', i')
  }

  // The last writing row decides the flag: it becomes the state of that row's condition.
  lemma {:induction false} LastWriterDecides(db: Database, met: seq<bool>, c: nat, n: nat, a: nat, g: nat, flag: bool,
                                             d: nat, i: nat)
    requires db.WellFormed() && Place(db, met, c, n) && LastWriter(db, met, c, n, a, g, d, i)
    ensures IntegratorFlag(db, met, c, n, a, g, flag) == met[d]
    decreases c, n
  {
    if n == 0 {
      assert c > 0;
      var m := |db.conditions[c - 1].ignoreConditions|;
      SameRowsBefore(db, c, m);
      LastWriterDecides(db, met, c - 1, m, a, g, flag, d, i);
    } else if WritesIntegrator(db, met, c, n - 1, a, g) {
      assert Writer(db, met, c, n - 1, a, g) && Before(c, n - 1, c, n);
      assert d == c && i == n - 1;
    } else {
      assert !Writer(db, met, c, n - 1, a, g);
      LastWriterDecides(db, met, c, n - 1, a, g, flag, d, i);
    }
  }

  // Without a writing row the flag stays as an earlier cycle left it.
  lemma {:induction false} NoWriterKeeps(db: Database, met: seq<bool>, c: nat, n: nat, a: nat, g: nat, flag: bool)
    requires db.WellFormed() && Place(db, met, c, n) && !SomeWriter(db, met, c, n, a, g)
    ensures IntegratorFlag(db, met, c, n, a, g, flag) == flag
    decreases c, n
  {
    if n == 0 {
      if c > 0 {
        var m := |db.conditions[c - 1].ignoreConditions|;
        SameRowsBefore(db, c, m);
        NoWriterKeeps(db, met, c - 1, m, a, g, flag);
      }
    } else {
      assert Before(c, n - 1, c, n);
      assert !Writer(db, met, c, n - 1, a, g);
      NoWriterKeeps(db, met, c, n - 1, a, g, flag);
    }
  }

  lemma SameRowsBefore(db: Database, c: nat, m: nat)
    requires 0 < c <= |db.conditions| && m == |db.conditions[c - 1].ignoreConditions|
    ensures forall d: nat, i: nat | HasRow(db, d, i) :: Before(d, i, c, 0) <==> Before(d, i, c - 1, m)
  {
  }

  lemma {:induction false} LastWriterExists(db: Database, met: seq<bool>, c: nat, n: nat, a: nat, g: nat)
    returns (d: nat, i: nat)
    requires db.WellFormed() && Place(db, met, c, n) && SomeWriter(db, met, c, n, a, g)
    ensures LastWriter(db, met, c, n, a, g, d, i)
    decreases c, n
  {
    if n == 0 {
      assert c > 0;
      var m := |db.conditions[c - 1].ignoreConditions|;
      SameRowsBefore(db, c, m);
      d, i := LastWriterExists(db, met, c - 1, m, a, g);
    } else if Writer(db, met, c, n - 1, a, g) {
      d, i := c, n - 1;
    } else {
      d, i := LastWriterExists(db, met, c, n - 1, a, g);
    }
  }

  // A flag is free of what earlier cycles left exactly when some row writes it.
  lemma FreeOfLeftover(db: Database, met: seq<bool>, c: nat, n: nat, a: nat, g: nat)
    requires db.WellFormed() && Place(db, met, c, n)
    ensures SomeWriter(db, met, c, n, a, g) <==>
      IntegratorFlag(db, met, c, n, a, g, true) == IntegratorFlag(db, met, c, n, a, g, false)
  {
    if SomeWriter(db, met, c, n, a, g) {
      var d, i := LastWriterExists(db, met, c, n, a, g);
      LastWriterDecides(db, met, c, n, a, g, true, d, i);
      LastWriterDecides(db, met, c, n, a, g, false, d, i);
    } else {
      NoWriterKeeps(db, met, c, n, a, g, true);
      NoWriterKeeps(db, met, c, n, a, g, false);
    }
  }

  // ---- What the flag is meant to say ----

  // Some condition that is met names device a beside a state of integrator g.
  ghost predicate FlagMeant(db: Database, met: seq<bool>, a: nat, g: nat)
    requires db.WellFormed() && |met| == |db.conditions|
  {
    exists d: nat, i: nat :: NamesIntegrator(db, d, i, a, g) && met[d]
  }

  ghost predicate Naming(db: Database, d: nat, a: nat, g: nat)
    requires db.WellFormed()
  {
    exists i: nat :: NamesIntegrator(db, d, i, a, g)
  }

  // Row i of condition d is the first in it to name its state, and no earlier condition
  // without a row for the flag names that state.
  ghost predicate Leads(db: Database, d: nat, i: nat, a: nat, g: nat)
    requires db.WellFormed() && NamesIntegrator(db, d, i, a, g)
  {
    var r := StateOf(db, d, i, a, g);
    && !NamesState(db.conditions[d].ignoreConditions, i, r)
    && forall e: nat | e < d && !Naming(db, e, a, g) :: !Lists(db, e, r)
  }

  predicate Lists(db: Database, e: nat, r: StateRef)
    requires e < |db.conditions|
  {
    NamesState(db.conditions[e].ignoreConditions, |db.conditions[e].ignoreConditions|, r)
  }

  // Some row is there for the flag; every condition with such rows has a leading one; and
  // it names the state of every such row in a later condition.
  ghost predicate WellPlaced(db: Database, a: nat, g: nat)
    requires db.WellFormed()
  {
    && (exists d: nat :: Naming(db, d, a, g))
    && (forall d: nat | Naming(db, d, a, g) ::
          exists i: nat :: NamesIntegrator(db, d, i, a, g) && Leads(db, d, i, a, g))
    && (forall c: nat, d: nat, j: nat | c < d && Naming(db, c, a, g) && NamesIntegrator(db, d, j, a, g) ::
          Lists(db, c, StateOf(db, d, j, a, g)))
  }

  // The flag after a whole pass
  function FlagAfter(db: Database, met: seq<bool>, a: nat, g: nat, flag: bool): bool
    requires db.WellFormed() && |met| == |db.conditions|
  {
    IntegratorFlag(db, met, |met|, 0, a, g, flag)
  }

  ghost predicate AsMeant(db: Database, met: seq<bool>, a: nat, g: nat, flag: bool)
    requires db.WellFormed() && |met| == |db.conditions|
  {
    FlagAfter(db, met, a, g, flag) == FlagMeant(db, met, a, g)
  }

  // For one state of the conditions: the flag is as meant exactly when the last writing
  // row is met or no met condition names it; without a writing row the leftover decides.
  lemma FlagAsMeantNow(db: Database, met: seq<bool>, a: nat, g: nat, flag: bool)
    requires db.WellFormed() && |met| == |db.conditions|
    ensures forall d: nat, i: nat | LastWriter(db, met, |met|, 0, a, g, d, i) ::
      AsMeant(db, met, a, g, flag) <==> met[d] || !FlagMeant(db, met, a, g)
    ensures !SomeWriter(db, met, |met|, 0, a, g) ==>
      (AsMeant(db, met, a, g, flag) <==> flag == FlagMeant(db, met, a, g))
  {
    forall d: nat, i: nat | LastWriter(db, met, |met|, 0, a, g, d, i)
      ensures AsMeant(db, met, a, g, flag) <==> met[d] || !FlagMeant(db, met, a, g)
    {
      LastWriterDecides(db, met, |met|, 0, a, g, flag, d, i);
      assert NamesIntegrator(db, d, i, a, g);
    }
    if !SomeWriter(db, met, |met|, 0, a, g) {
      NoWriterKeeps(db, met, |met|, 0, a, g, flag);
    }
  }

  // A well-placed configuration has a row that writes, whatever conditions are met, and
  // while a condition with rows for the flag is met the first such one writes.
  lemma LeadingRowWrites(db: Database, met: seq<bool>, a: nat, g: nat, d: nat, i: nat)
    requires db.WellFormed() && |met| == |db.conditions| && NamesIntegrator(db, d, i, a, g) && Leads(db, d, i, a, g)
    requires forall e: nat | e < d && Naming(db, e, a, g) :: !met[e]
    ensures Writer(db, met, d, i, a, g) && SomeWriter(db, met, |met|, 0, a, g)
  {
    var r := StateOf(db, d, i, a, g);
    assert forall e | 0 <= e < d && met[e] :: !Lists(db, e, r);
    assert Before(d, i, |met|, 0);
  }

  ghost function FirstMetNaming(db: Database, met: seq<bool>, a: nat, g: nat, n: nat): (d: nat)
    requires db.WellFormed() && n <= |met| == |db.conditions|
    ensures d <= n && (d < n ==> met[d] && Naming(db, d, a, g))
    ensures forall e: nat | e < d && Naming(db, e, a, g) :: !met[e]
  {
    if n == 0 then 0
    else
      var d := FirstMetNaming(db, met, a, g, n - 1);
      if d < n - 1 then d else if met[n - 1] && Naming(db, n - 1, a, g) then n - 1 else n
  }

  lemma NamingExists(db: Database, d: nat, i: nat, a: nat, g: nat)
    requires db.WellFormed() && NamesIntegrator(db, d, i, a, g)
    ensures Naming(db, d, a, g)
  {
  }

  lemma WellPlacedSuffices(db: Database, met: seq<bool>, a: nat, g: nat, flag: bool)
    requires db.WellFormed() && |met| == |db.conditions| && WellPlaced(db, a, g)
    ensures AsMeant(db, met, a, g, flag)
  {
    hide Leads, FlagAfter, SomeWriter, NamesIntegrator, Writer, Lists, Naming;
    var first := FirstMetNaming(db, met, a, g, |met|);
    var lead: nat;
    if first < |met| {
      lead := first;
    } else {
      lead :| Naming(db, lead, a, g);
      assert forall e: nat | Naming(db, e, a, g) :: e < |met| by { NamingInRange(db, a, g); }
    }
    var i: nat :| NamesIntegrator(db, lead, i, a, g) && Leads(db, lead, i, a, g);
    LeadingRowWrites(db, met, a, g, lead, i);
    var d, j := LastWriterExists(db, met, |met|, 0, a, g);
    LastWriterDecides(db, met, |met|, 0, a, g, flag, d, j);
    FlagAsMeantNow(db, met, a, g, flag);
    WriterNames(db, met, d, j, a, g);
    if first < |met| {
      assert !Before(d, j, lead, i);
      if !met[d] {
        assert lead < d;
        ListedIsIgnored(db, met, lead, d, j, a, g);
        assert false;
      }
    } else {
      NothingMeant(db, met, a, g);
    }
  }

  lemma NamingInRange(db: Database, a: nat, g: nat)
    requires db.WellFormed()
    ensures forall e: nat | Naming(db, e, a, g) :: e < |db.conditions|
  {
  }

  lemma WriterNames(db: Database, met: seq<bool>, d: nat, j: nat, a: nat, g: nat)
    requires db.WellFormed() && |met| == |db.conditions| && Writer(db, met, d, j, a, g)
    ensures d < |met| && NamesIntegrator(db, d, j, a, g) && Naming(db, d, a, g)
  {
    assert NamesIntegrator(db, d, j, a, g);
  }

  // A row whose state an earlier met condition lists does not write.
  lemma ListedIsIgnored(db: Database, met: seq<bool>, c: nat, d: nat, j: nat, a: nat, g: nat)
    requires db.WellFormed() && |met| == |db.conditions| && NamesIntegrator(db, d, j, a, g)
    requires c < d && met[c] && Lists(db, c, StateOf(db, d, j, a, g))
    ensures !Writer(db, met, d, j, a, g)
  {
    assert met[..d][c];
  }

  lemma NothingMeant(db: Database, met: seq<bool>, a: nat, g: nat)
    requires db.WellFormed() && |met| == |db.conditions|
    requires forall e: nat | e < |met| && Naming(db, e, a, g) :: !met[e]
    ensures !FlagMeant(db, met, a, g)
  {
    forall d: nat, i: nat | NamesIntegrator(db, d, i, a, g) ensures !met[d] {
      NamingExists(db, d, i, a, g);
    }
  }

  // A configuration in which a row for the flag is misplaced has a state of its conditions in
  // which the flag, if false before, is not what it is meant to be.
  // Condition d is met, and so is every earlier one without a row for the flag.
  ghost function MetUpTo(db: Database, d: nat, a: nat, g: nat): (met: seq<bool>)
    requires db.WellFormed() && d < |db.conditions|
    ensures |met| == |db.conditions|
    ensures forall e | 0 <= e < |met| :: met[e] == (e == d || (e < d && !Naming(db, e, a, g)))
  {
    seq(|db.conditions|, e requires 0 <= e => e == d || (e < d && !Naming(db, e, a, g)))
  }

  lemma NoLeadFails(db: Database, d: nat, a: nat, g: nat)
    requires db.WellFormed() && Naming(db, d, a, g)
    requires forall i: nat | NamesIntegrator(db, d, i, a, g) :: !Leads(db, d, i, a, g)
    ensures d < |db.conditions| && !AsMeant(db, MetUpTo(db, d, a, g), a, g, false)
  {
    hide FlagAfter, Writer;
    NamingInRange(db, a, g);
    var met := MetUpTo(db, d, a, g);
    var i: nat :| NamesIntegrator(db, d, i, a, g);
    assert FlagMeant(db, met, a, g);
    FlagAsMeantNow(db, met, a, g, false);
    if SomeWriter(db, met, |met|, 0, a, g) {
      var e, j := LastWriterExists(db, met, |met|, 0, a, g);
      WriterNames(db, met, e, j, a, g);
      if e == d {
        NotLeadingIsIgnored(db, d, j, a, g);
        assert false;
      }
      assert !met[e];
    }
  }

  lemma NotLeadingIsIgnored(db: Database, d: nat, j: nat, a: nat, g: nat)
    requires db.WellFormed() && d < |db.conditions| && NamesIntegrator(db, d, j, a, g) && !Leads(db, d, j, a, g)
    ensures !Writer(db, MetUpTo(db, d, a, g), d, j, a, g)
  {
    var met := MetUpTo(db, d, a, g);
    var r := StateOf(db, d, j, a, g);
    if !NamesState(db.conditions[d].ignoreConditions, j, r) {
      var e: nat :| e < d && !Naming(db, e, a, g) && Lists(db, e, r);
      assert met[..d][e];
    }
  }

  // Condition c is met, and no other.
  ghost function OnlyMet(db: Database, c: nat): (met: seq<bool>)
    requires c < |db.conditions|
    ensures |met| == |db.conditions| && forall e | 0 <= e < |met| :: met[e] == (e == c)
  {
    seq(|db.conditions|, e => e == c)
  }

  lemma UnlistedFails(db: Database, c: nat, d: nat, j: nat, a: nat, g: nat)
    requires db.WellFormed() && c < d && Naming(db, c, a, g) && NamesIntegrator(db, d, j, a, g)
    requires !Lists(db, c, StateOf(db, d, j, a, g))
    ensures c < |db.conditions| && !AsMeant(db, OnlyMet(db, c), a, g, false)
  {
    hide FlagAfter;
    var met := OnlyMet(db, c);
    var i: nat :| NamesIntegrator(db, c, i, a, g);
    assert FlagMeant(db, met, a, g);
    assert !StateIgnored(db, met[..d], StateOf(db, d, j, a, g));
    assert Writer(db, met, d, j, a, g) && Before(d, j, |met|, 0);
    FlagAsMeantNow(db, met, a, g, false);
    var e, k := LastWriterExists(db, met, |met|, 0, a, g);
    assert !Before(e, k, d, j);
    assert !met[e];
  }

  // ---- States of the conditions that occur ----

  ghost predicate Attainable(db: Database, met: seq<bool>) {
    exists snap :: Fits(db, snap) && Conditions(db, snap) == met
  }

  // For every condition with a row for the flag, the states of the conditions that tell
  // whether its rows are well placed do occur.
  ghost predicate Witnessed(db: Database, a: nat, g: nat)
    requires db.WellFormed()
  {
    forall d: nat | Naming(db, d, a, g) ::
      d < |db.conditions| && Attainable(db, MetUpTo(db, d, a, g)) && Attainable(db, OnlyMet(db, d))
  }

  lemma MisplacedFails(db: Database, a: nat, g: nat) returns (met: seq<bool>)
    requires db.WellFormed() && !WellPlaced(db, a, g) && Witnessed(db, a, g) && exists d: nat :: Naming(db, d, a, g)
    ensures Attainable(db, met) && |met| == |db.conditions| && !AsMeant(db, met, a, g, false)
  {
    hide AsMeant, Leads, Lists, Attainable;
    if d: nat :| Naming(db, d, a, g) && forall i: nat | NamesIntegrator(db, d, i, a, g) :: !Leads(db, d, i, a, g) {
      met := MetUpTo(db, d, a, g);
      NoLeadFails(db, d, a, g);
    } else {
      var c: nat, d: nat, j: nat :| c < d && Naming(db, c, a, g) && NamesIntegrator(db, d, j, a, g)
        && !Lists(db, c, StateOf(db, d, j, a, g));
      met := OnlyMet(db, c);
      UnlistedFails(db, c, d, j, a, g);
    }
  }

  // A snapshot with nothing latched
  ghost function Blank(db: Database): (snap: Snapshot)
    requires db.WellFormed()
    ensures Fits(db, snap)
  {
    Snapshot(
      seq(|db.digitalDevices|, d requires 0 <= d < |db.digitalDevices| =>
        DigitalSnap(seq(|db.digitalDevices[d].inputBits|, _ => InputSnap(ZERO, None)), true, false, ZERO, false)),
      seq(|db.analogDevices|, _ => AnalogSnap(ZERO, ALL_ONES, true, false, false)),
      seq(|db.destinationMasks|, _ => PermitSnap(None, None, None)))
  }

  // In every cycle, and whatever was left in it, the flag says that some met condition names
  // device a beside a state of integrator g if, and as far as conditions occur only if, the
  // configuration is well placed.
  lemma FlagAsMeantAlways(db: Database, a: nat, g: nat)
    requires db.WellFormed()
    ensures WellPlaced(db, a, g) ==>
      forall snap, flag | Fits(db, snap) :: AsMeant(db, Conditions(db, snap), a, g, flag)
    ensures Witnessed(db, a, g) && !WellPlaced(db, a, g) ==>
      exists snap, flag :: Fits(db, snap) && !AsMeant(db, Conditions(db, snap), a, g, flag)
  {
    hide AsMeant, WellPlaced, Conditions;
    if WellPlaced(db, a, g) {
      forall snap, flag | Fits(db, snap) ensures AsMeant(db, Conditions(db, snap), a, g, flag) {
        WellPlacedSuffices(db, Conditions(db, snap), a, g, flag);
      }
    } else if forall d: nat :: !Naming(db, d, a, g) {
      NoRowKeeps(db, Conditions(db, Blank(db)), a, g, true);
    } else if Witnessed(db, a, g) {
      var met := MisplacedFails(db, a, g);
      assert !AsMeant(db, met, a, g, false);
    }
  }

  // Without a row for it the flag is not written, and not meant to be set.
  lemma NoRowKeeps(db: Database, met: seq<bool>, a: nat, g: nat, flag: bool)
    requires db.WellFormed() && |met| == |db.conditions| && forall d: nat :: !Naming(db, d, a, g)
    ensures FlagAfter(db, met, a, g, flag) == flag && !FlagMeant(db, met, a, g)
    ensures AsMeant(db, met, a, g, flag) <==> !flag
  {
    NothingMeant(db, met, a, g);
    forall d: nat, i: nat ensures !Writer(db, met, d, i, a, g) {
      if Writer(db, met, d, i, a, g) {
        WriterNames(db, met, d, i, a, g);
      }
    }
    NoWriterKeeps(db, met, |met|, 0, a, g, flag);
  }

  // ---- The flag over the cycles since the configuration was loaded ----

  ghost predicate Run(db: Database, snaps: seq<Snapshot>) {
    forall k | 0 <= k < |snaps| :: Fits(db, snaps[k])
  }

  // It starts false, and each cycle takes up what the one before left.
  ghost function FlagRun(db: Database, snaps: seq<Snapshot>, a: nat, g: nat): bool
    requires Run(db, snaps)
  {
    snaps != [] &&
    FlagAfter(db, Conditions(db, snaps[|snaps| - 1]), a, g, FlagRun(db, snaps[..|snaps| - 1], a, g))
  }

  ghost predicate RunAsMeant(db: Database, snaps: seq<Snapshot>, a: nat, g: nat)
    requires Run(db, snaps) && snaps != []
  {
    FlagRun(db, snaps, a, g) <==> FlagMeant(db, Conditions(db, snaps[|snaps| - 1]), a, g)
  }

  // When some row writes, the condition of the last one that does is met, or none names the
  // flag; when no row writes, no condition that is met ever names the flag.
  ghost predicate Sound(db: Database, a: nat, g: nat)
    requires db.WellFormed()
  {
    forall met | |met| == |db.conditions| && Attainable(db, met) :: SoundFor(db, met, a, g)
  }

  ghost predicate SoundFor(db: Database, met: seq<bool>, a: nat, g: nat)
    requires db.WellFormed() && |met| == |db.conditions|
  {
    && (forall d: nat, i: nat | LastWriter(db, met, |met|, 0, a, g, d, i) :: met[d] || !FlagMeant(db, met, a, g))
    && (!SomeWriter(db, met, |met|, 0, a, g) ==> NeverMeant(db, a, g))
  }

  ghost predicate NeverMeant(db: Database, a: nat, g: nat)
    requires db.WellFormed()
  {
    forall met | |met| == |db.conditions| && Attainable(db, met) :: !FlagMeant(db, met, a, g)
  }

  lemma SoundNow(db: Database, snap: Snapshot, a: nat, g: nat, flag: bool)
    requires Fits(db, snap) && Sound(db, a, g) && (NeverMeant(db, a, g) ==> !flag)
    ensures AsMeant(db, Conditions(db, snap), a, g, flag)
  {
    hide Conditions, FlagMeant, FlagAfter, SomeWriter, LastWriter;
    var met := Conditions(db, snap);
    assert Attainable(db, met);
    FlagAsMeantNow(db, met, a, g, flag);
    if SomeWriter(db, met, |met|, 0, a, g) {
      var d, i := LastWriterExists(db, met, |met|, 0, a, g);
    }
  }

  lemma {:induction false} SoundRun(db: Database, snaps: seq<Snapshot>, a: nat, g: nat)
    requires Run(db, snaps) && snaps != [] && db.WellFormed() && Sound(db, a, g)
    ensures RunAsMeant(db, snaps, a, g)
  {
    hide Conditions, FlagMeant, FlagAfter, Sound;
    var before := snaps[..|snaps| - 1];
    if before != [] {
      SoundRun(db, before, a, g);
      assert Attainable(db, Conditions(db, before[|before| - 1]));
    }
    SoundNow(db, snaps[|snaps| - 1], a, g, FlagRun(db, before, a, g));
  }

  lemma RunOfOne(db: Database, snap: Snapshot, a: nat, g: nat)
    requires Fits(db, snap)
    ensures Run(db, [snap]) && FlagRun(db, [snap], a, g) == FlagAfter(db, Conditions(db, snap), a, g, false)
  {
    hide Conditions, FlagAfter;
    var snaps := [snap];
    assert snaps[..0] == [] && !FlagRun(db, snaps[..0], a, g);
  }

  lemma RunOfTwo(db: Database, snap: Snapshot, snap': Snapshot, a: nat, g: nat)
    requires Fits(db, snap) && Fits(db, snap')
    ensures Run(db, [snap, snap'])
    ensures FlagRun(db, [snap, snap'], a, g) == FlagAfter(db, Conditions(db, snap'), a, g, FlagRun(db, [snap], a, g))
  {
    hide Conditions, FlagAfter;
    var snaps := [snap, snap'];
    assert snaps[..1] == [snap];
  }

  // After every run of cycles the flag is as it is meant to be exactly when, over the states
  // of the conditions that occur, the last writing row is met whenever the flag is meant.
  lemma FlagAsMeantFromStart(db: Database, a: nat, g: nat)
    requires db.WellFormed()
    ensures (forall snaps | Run(db, snaps) && snaps != [] :: RunAsMeant(db, snaps, a, g)) <==> Sound(db, a, g)
  {
    hide Conditions, FlagMeant, FlagAfter, SoundFor;
    if Sound(db, a, g) {
      forall snaps | Run(db, snaps) && snaps != [] ensures RunAsMeant(db, snaps, a, g) {
        SoundRun(db, snaps, a, g);
      }
    }
    if forall snaps | Run(db, snaps) && snaps != [] :: RunAsMeant(db, snaps, a, g) {
      forall met | |met| == |db.conditions| && Attainable(db, met)
        ensures SoundFor(db, met, a, g)
      {
        var snap :| Fits(db, snap) && Conditions(db, snap) == met;
        AsMeantRuns(db, snap, a, g);
      }
    }
  }

  // What the runs of one and two cycles that end in `snap` tell
  lemma AsMeantRuns(db: Database, snap: Snapshot, a: nat, g: nat)
    requires Fits(db, snap) && forall snaps | Run(db, snaps) && snaps != [] :: RunAsMeant(db, snaps, a, g)
    ensures SoundFor(db, Conditions(db, snap), a, g)
  {
    hide Conditions, FlagMeant, FlagAfter, SomeWriter, LastWriter, FlagRun;
    var met := Conditions(db, snap);
    RunOfOne(db, snap, a, g);
    assert RunAsMeant(db, [snap], a, g);
    FlagAsMeantNow(db, met, a, g, false);
    if !SomeWriter(db, met, |met|, 0, a, g) {
      forall other | |other| == |db.conditions| && Attainable(db, other) ensures !FlagMeant(db, other, a, g) {
        var snap0 :| Fits(db, snap0) && Conditions(db, snap0) == other;
        RunOfOne(db, snap0, a, g);
        RunOfTwo(db, snap0, snap, a, g);
        assert RunAsMeant(db, [snap0], a, g) && RunAsMeant(db, [snap0, snap], a, g);
        FlagAsMeantNow(db, met, a, g, true);
      }
    }
  }

  // A configuration without a row for the flag, or with well-placed rows, is sound; and one
  // in which the states of the conditions that tell occur is sound only then.
  lemma SoundWhenWellPlaced(db: Database, a: nat, g: nat)
    requires db.WellFormed()
    ensures WellPlaced(db, a, g) || (forall d: nat :: !Naming(db, d, a, g)) ==> Sound(db, a, g)
    ensures Witnessed(db, a, g) && Sound(db, a, g) ==> WellPlaced(db, a, g) || forall d: nat :: !Naming(db, d, a, g)
  {
    hide WellPlaced, FlagMeant, FlagAfter, Naming, Sound, Conditions, Witnessed;
    FlagAsMeantFromStart(db, a, g);
    if forall d: nat :: !Naming(db, d, a, g) {
      forall snaps | Run(db, snaps) && snaps != [] ensures RunAsMeant(db, snaps, a, g) {
        NoRowStaysFalse(db, snaps, a, g);
        NoRowKeeps(db, Conditions(db, snaps[|snaps| - 1]), a, g, false);
      }
    } else if WellPlaced(db, a, g) {
      forall snaps | Run(db, snaps) && snaps != [] ensures RunAsMeant(db, snaps, a, g) {
        WellPlacedSuffices(db, Conditions(db, snaps[|snaps| - 1]), a, g, FlagRun(db, snaps[..|snaps| - 1], a, g));
      }
    } else if Witnessed(db, a, g) {
      var met := MisplacedFails(db, a, g);
      var snap :| Fits(db, snap) && Conditions(db, snap) == met;
      RunOfOne(db, snap, a, g);
      assert !RunAsMeant(db, [snap], a, g);
    }
  }

  lemma {:induction false} NoRowStaysFalse(db: Database, snaps: seq<Snapshot>, a: nat, g: nat)
    requires db.WellFormed() && Run(db, snaps) && forall d: nat :: !Naming(db, d, a, g)
    ensures !FlagRun(db, snaps, a, g)
  {
    hide Conditions, FlagAfter;
    if snaps != [] {
      NoRowStaysFalse(db, snaps[..|snaps| - 1], a, g);
      NoRowKeeps(db, Conditions(db, snaps[|snaps| - 1]), a, g, false);
    }
  }
}
