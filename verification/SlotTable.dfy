/** The table of running connections kept by fxmy_add_new_connection. */
module SlotTables {
  import opened CStrings

  /** A connection and its thread, both known by number; `Free` is the zeroed slot. */
  datatype Slot = Free | Busy(conn: nat, thread: nat)

  const GROWTH: nat := 10

  function Occupied(s: seq<Slot>): (n: nat)
    ensures n <= |s|
  {
    if s == [] then 0 else (if s[0].Busy? then 1 else 0) + Occupied(s[1..])
  }

  /** The connections fill the table from the front. */
  ghost predicate Dense(s: seq<Slot>, active: nat) {
    active <= |s| && forall i :: 0 <= i < |s| ==> (s[i].Busy? <==> i < active)
  }

  // ----- counting -----

  lemma {:induction false} CountAppend(a: seq<Slot>, b: seq<Slot>)
    ensures Occupied(a + b) == Occupied(a) + Occupied(b)
  {
    if a == [] {
      assert a + b == b;
    } else {
      CountAppend(a[1..], b);
      assert (a + b)[1..] == a[1..] + b;
    }
  }

  lemma CountAt(s: seq<Slot>, i: nat, slot: Slot)
    requires i < |s|
    ensures Occupied(s[i := slot]) + (if s[i].Busy? then 1 else 0) == Occupied(s) + (if slot.Busy? then 1 else 0)
  {
    var a, c := s[..i], s[i + 1..];
    assert s == a + ([s[i]] + c) && s[i := slot] == a + ([slot] + c);
    CountAppend([s[i]], c);
    CountAppend([slot], c);
    CountAppend(a, [s[i]] + c);
    CountAppend(a, [slot] + c);
    CountOne(s[i]);
    CountOne(slot);
  }

  lemma CountOne(slot: Slot)
    ensures Occupied([slot]) == (if slot.Busy? then 1 else 0)
  {
    assert [slot][1..] == [];
  }

  /** The pigeonhole: fewer connections than slots leave a free one. */
  lemma {:induction false} Pigeonhole(s: seq<Slot>)
    ensures Occupied(s) < |s| <==> exists i :: 0 <= i < |s| && s[i] == Free
  {
    if s == [] {
    } else {
      Pigeonhole(s[1..]);
      if s[0].Busy? {
        if i :| 0 <= i < |s| && s[i] == Free {
          assert s[1..][i - 1] == Free;
        }
        if j :| 0 <= j < |s[1..]| && s[1..][j] == Free {
          assert s[j + 1] == Free;
        }
      } else {
        assert s[0] == Free;
      }
    }
  }

  // ----- the three stages -----

  /** The table after the sweep, or the read through the null pointer of a free slot. */
  datatype Swept = Swept(slots: seq<Slot>, active: nat) | Fault

  /** The sweep from slot i on: its bound shrinks with every connection it retires. */
  function Sweep(s: seq<Slot>, i: nat, active: nat, finished: set<nat>): (r: Swept)
    requires active <= |s|
    ensures r.Swept? ==> |r.slots| == |s| && r.active <= active
    decreases active - i
  {
    if i >= active then Swept(s, active)
    else if s[i] == Free then Fault
    else if s[i].conn in finished then Sweep(s[i := Free], i + 1, active - 1, finished)
    else Sweep(s, i + 1, active, finished)
  }

  function Grown(s: seq<Slot>, active: nat): seq<Slot> {
    if active + 1 > |s| then s + seq(GROWTH, _ => Free) else s
  }

  function FirstFree(s: seq<Slot>): (i: nat)
    ensures i <= |s| && (forall j :: 0 <= j < i ==> s[j].Busy?) && (i < |s| ==> s[i] == Free)
  {
    if s == [] || s[0] == Free then 0 else 1 + FirstFree(s[1..])
  }

  /** The table after a call that does not fault. */
  function Added(swept: Swept, slot: Slot): seq<Slot>
    requires swept.Swept?
  {
    var s := Grown(swept.slots, swept.active);
    if FirstFree(s) < |s| then s[FirstFree(s) := slot] else s
  }

  // ----- what a call keeps -----

  /** Every slot after the sweep is as before, or was that of a finished connection and is free now. */
  lemma {:induction false} SweepRetiresFinished(s: seq<Slot>, i: nat, active: nat, finished: set<nat>)
    requires active <= |s| && Sweep(s, i, active, finished).Swept?
    ensures var t := Sweep(s, i, active, finished).slots;
            forall j :: 0 <= j < |s| ==> t[j] == s[j] || (i <= j && t[j] == Free && s[j].Busy? && s[j].conn in finished)
    decreases active - i
  {
    if i >= active {
    } else {
      if s[i].conn in finished {
        SweepRetiresFinished(s[i := Free], i + 1, active - 1, finished);
      } else {
        SweepRetiresFinished(s, i + 1, active, finished);
      }
    }
  }

  /** The count goes down with every slot that is freed. */
  lemma {:induction false} SweepKeepsCount(s: seq<Slot>, i: nat, active: nat, finished: set<nat>)
    requires active <= |s| && Sweep(s, i, active, finished).Swept?
    ensures var r := Sweep(s, i, active, finished);
            Occupied(s) - active == Occupied(r.slots) - r.active
    decreases active - i
  {
    if i >= active {
    } else {
      if s[i].conn in finished {
        CountAt(s, i, Free);
        SweepKeepsCount(s[i := Free], i + 1, active - 1, finished);
      } else {
        SweepKeepsCount(s, i + 1, active, finished);
      }
    }
  }

  lemma GrownKeepsCount(s: seq<Slot>, active: nat)
    ensures Occupied(Grown(s, active)) == Occupied(s)
    ensures active <= |s| ==> active < |Grown(s, active)|
  {
    var free := seq(GROWTH, _ => Free);
    CountFree(free);
    CountAppend(s, free);
  }

  lemma {:induction false} CountFree(s: seq<Slot>)
    requires forall i :: 0 <= i < |s| ==> s[i] == Free
    ensures Occupied(s) == 0
  {
    if s == [] {
    } else {
      CountFree(s[1..]);
    }
  }

  /**
   * A call that does not fault finds a free slot for the new connection and counts it. Every other slot is as
   * before, except that connections in it may be gone when finished, and slots may be new and free.
   */
  lemma CallConserves(s: seq<Slot>, active: nat, finished: set<nat>, slot: Slot)
    requires active == Occupied(s) && slot.Busy? && Sweep(s, 0, active, finished).Swept?
    ensures var r := Sweep(s, 0, active, finished);
            var at, t := FirstFree(Grown(r.slots, r.active)), Added(r, slot);
            && at < |t| && |s| <= |t| && t[at] == slot && Occupied(t) == r.active + 1
            && forall j :: 0 <= j < |t| && j != at ==>
                 if j >= |s| then t[j] == Free
                 else t[j] == s[j] || (t[j] == Free && s[j].Busy? && s[j].conn in finished)
  {
    var r := Sweep(s, 0, active, finished);
    SweepKeepsCount(s, 0, active, finished);
    SweepRetiresFinished(s, 0, active, finished);
    GrownKeepsCount(r.slots, r.active);
    var grown := Grown(r.slots, r.active);
    Pigeonhole(grown);
    CountAt(grown, FirstFree(grown), slot);
  }

  // ----- when the sweep is safe -----

  /** The number of finished connections in the slots from i up to j. */
  function RetiredIn(s: seq<Slot>, i: nat, j: nat, finished: set<nat>): nat
    requires j <= |s|
    decreases j - i
  {
    if i >= j then 0
    else (if s[i].Busy? && s[i].conn in finished then 1 else 0) + RetiredIn(s, i + 1, j, finished)
  }

  lemma {:induction false} RetiredElsewhere(s: seq<Slot>, at: nat, slot: Slot, i: nat, j: nat, finished: set<nat>)
    requires at < i && at < |s| && j <= |s|
    ensures RetiredIn(s[at := slot], i, j, finished) == RetiredIn(s, i, j, finished)
    decreases j - i
  {
    if i >= j {
    } else {
      RetiredElsewhere(s, at, slot, i + 1, j, finished);
    }
  }

  /** A free slot the sweep gets to before its shrinking bound does. */
  ghost predicate Trap(s: seq<Slot>, i: nat, active: nat, finished: set<nat>, j: nat)
    requires active <= |s|
  {
    i <= j < active && s[j] == Free && j + RetiredIn(s, i, j, finished) < active
  }

  ghost predicate Trapped(s: seq<Slot>, i: nat, active: nat, finished: set<nat>)
    requires active <= |s|
  {
    exists j: nat :: Trap(s, i, active, finished, j)
  }

  lemma TrapBehindRetired(s: seq<Slot>, t: seq<Slot>, i: nat, active: nat, finished: set<nat>)
    requires i < active <= |s| && s[i].Busy? && s[i].conn in finished && t == s[i := Free]
    ensures Trapped(t, i + 1, active - 1, finished) <==> Trapped(s, i, active, finished)
  {
    forall j: nat | i < j < active
      ensures Trap(t, i + 1, active - 1, finished, j) <==> Trap(s, i, active, finished, j)
    {
      RetiredElsewhere(s, i, Free, i + 1, j, finished);
    }
    if Trapped(s, i, active, finished) {
      var j: nat :| Trap(s, i, active, finished, j);
      assert Trap(t, i + 1, active - 1, finished, j);
    }
    if Trapped(t, i + 1, active - 1, finished) {
      var j: nat :| Trap(t, i + 1, active - 1, finished, j);
      assert Trap(s, i, active, finished, j);
    }
  }

  lemma TrapBehindKept(s: seq<Slot>, i: nat, active: nat, finished: set<nat>)
    requires i < active <= |s| && s[i].Busy? && s[i].conn !in finished
    ensures Trapped(s, i + 1, active, finished) <==> Trapped(s, i, active, finished)
  {
    if Trapped(s, i, active, finished) {
      var j: nat :| Trap(s, i, active, finished, j);
      assert Trap(s, i + 1, active, finished, j);
    }
    if Trapped(s, i + 1, active, finished) {
      var j: nat :| Trap(s, i + 1, active, finished, j);
      assert Trap(s, i, active, finished, j);
    }
  }

  /**
   * The sweep reads through a null pointer exactly when a free slot stands among the counted ones with fewer
   * retirements before it than would pull the bound down to it.
   */
  lemma {:induction false} SweepFaultsIff(s: seq<Slot>, i: nat, active: nat, finished: set<nat>)
    requires active <= |s|
    ensures Sweep(s, i, active, finished) == Fault <==> Trapped(s, i, active, finished)
    decreases active - i
  {
    if i >= active {
    } else {
      if s[i] == Free {
        assert Trap(s, i, active, finished, i);
      } else if s[i].conn in finished {
        SweepFaultsIff(s[i := Free], i + 1, active - 1, finished);
        TrapBehindRetired(s, s[i := Free], i, active, finished);
      } else {
        SweepFaultsIff(s, i + 1, active, finished);
        TrapBehindKept(s, i, active, finished);
      }
    }
  }

  /** At most one connection the sweep can get to is finished; the last one it misses once it has retired one. */
  predicate AtMostOne(s: seq<Slot>, i: nat, active: nat, finished: set<nat>)
    requires active <= |s|
  {
    i >= active || RetiredIn(s, i, active - 1, finished) <= 1
  }

  lemma {:induction false} SweepRetiresNone(s: seq<Slot>, i: nat, active: nat, finished: set<nat>)
    requires active <= |s| && (forall j :: i <= j < active ==> s[j].Busy?) && Sweep(s, i, active, finished).Swept?
    ensures Sweep(s, i, active, finished).active == active <==> RetiredIn(s, i, active, finished) == 0
    decreases active - i
  {
    if i < active && s[i].conn !in finished {
      SweepRetiresNone(s, i + 1, active, finished);
    }
  }

  /** Without free slots in its way, the sweep retires at most one connection exactly under that condition. */
  lemma {:induction false} SweepRetiresAtMostOne(s: seq<Slot>, i: nat, active: nat, finished: set<nat>)
    requires active <= |s| && (forall j :: i <= j < active ==> s[j].Busy?) && Sweep(s, i, active, finished).Swept?
    ensures active - Sweep(s, i, active, finished).active <= 1 <==> AtMostOne(s, i, active, finished)
    decreases active - i
  {
    if i >= active {
    } else {
      if s[i].conn in finished {
        SweepRetiresNone(s[i := Free], i + 1, active - 1, finished);
        RetiredElsewhere(s, i, Free, i + 1, active - 1, finished);
      } else {
        SweepRetiresAtMostOne(s, i + 1, active, finished);
      }
    }
  }

  /** On a stretch without free slots the sweep does not fault. */
  lemma {:induction false} SweepSafe(s: seq<Slot>, i: nat, active: nat, finished: set<nat>)
    requires active <= |s| && forall j :: i <= j < active ==> s[j].Busy?
    ensures Sweep(s, i, active, finished).Swept?
    decreases active - i
  {
    if i >= active {
    } else {
      if s[i].conn in finished {
        SweepSafe(s[i := Free], i + 1, active - 1, finished);
      } else {
        SweepSafe(s, i + 1, active, finished);
      }
    }
  }

  /** With nothing to retire, the sweep faults exactly when a free slot stands among the first `active` ones. */
  lemma {:induction false} IdleSweep(s: seq<Slot>, i: nat, active: nat)
    requires active <= |s|
    ensures Sweep(s, i, active, {}) == Fault <==> exists j :: i <= j < active && s[j] == Free
    ensures Sweep(s, i, active, {}).Swept? ==> Sweep(s, i, active, {}) == Swept(s, active)
    decreases active - i
  {
    if i >= active {
    } else {
      IdleSweep(s, i + 1, active);
    }
  }

  /** What a sweep that retires something leaves: its last hole, and the first one if there are two. */
  lemma {:induction false} SweepHoles(s: seq<Slot>, i: nat, active: nat, finished: set<nat>)
    returns (first: nat, last: nat)
    requires active <= |s| && Sweep(s, i, active, finished).Swept? && (forall j :: i <= j < active ==> s[j].Busy?)
    ensures var r := Sweep(s, i, active, finished);
            && (r.active == active ==> r.slots == s)
            && (r.active == active - 1 ==> i <= first == last < active && r.slots == s[last := Free])
            && (r.active < active - 1 ==>
                  i <= first < last <= r.active && r.slots[first] == r.slots[last] == Free && first < |s| && last < |s|)
    decreases active - i
  {
    first, last := i, i;
    if i >= active {
    } else {
      if s[i].conn in finished {
        var t := s[i := Free];
        SweepRetiresFinished(t, i + 1, active - 1, finished);
        SweepSafe(t, i + 1, active - 1, finished);
        var f, l := SweepHoles(t, i + 1, active - 1, finished);
        var r := Sweep(t, i + 1, active - 1, finished);
        last := if r.active == active - 1 then i else l;
      } else {
        SweepSafe(s, i + 1, active, finished);
        first, last := SweepHoles(s, i + 1, active, finished);
      }
    }
  }

  lemma {:induction false} DenseCount(s: seq<Slot>, active: nat)
    requires Dense(s, active)
    ensures Occupied(s) == active
  {
    if s == [] {
    } else {
      assert forall i :: 0 <= i < |s[1..]| ==> s[1..][i] == s[i + 1];
      DenseCount(s[1..], if active == 0 then 0 else active - 1);
    }
  }

  lemma DenseAfterNone(s: seq<Slot>, active: nat, slot: Slot)
    requires Dense(s, active) && slot.Busy?
    ensures Dense(Added(Swept(s, active), slot), active + 1)
  {
    var grown := Grown(s, active);
    assert Dense(grown, active) && active < |grown|;
    assert grown[active] == Free && FirstFree(grown) == active;
  }

  lemma DenseAfterOne(s: seq<Slot>, active: nat, hole: nat, slot: Slot)
    requires Dense(s, active) && slot.Busy? && hole < active
    ensures Dense(Added(Swept(s[hole := Free], active - 1), slot), active)
  {
    var t := s[hole := Free];
    assert t[hole] == Free;
    assert FirstFree(t) == hole && Grown(t, active - 1) == t;
  }

  /**
   * On a dense table a call never reads an empty slot. It leaves the table dense exactly when it retires at most one
   * connection, which is to say when at most one of those in all but the last occupied slot is finished.
   */
  lemma DenseCall(s: seq<Slot>, active: nat, finished: set<nat>, slot: Slot)
    requires Dense(s, active) && slot.Busy?
    ensures Sweep(s, 0, active, finished).Swept?
    ensures var r := Sweep(s, 0, active, finished);
            Dense(Added(r, slot), r.active + 1) <==> active - r.active <= 1
    ensures Dense(Added(Sweep(s, 0, active, finished), slot), Sweep(s, 0, active, finished).active + 1) <==>
            AtMostOne(s, 0, active, finished)
  {
    SweepSafe(s, 0, active, finished);
    var first, last := SweepHoles(s, 0, active, finished);
    SweepRetiresAtMostOne(s, 0, active, finished);
    DenseCount(s, active);
    CallConserves(s, active, finished, slot);
    var r := Sweep(s, 0, active, finished);
    var t := Added(r, slot);
    if active - r.active > 1 {
      assert t[first] == Free || t[last] == Free;
    } else if r.active == active {
      DenseAfterNone(s, active, slot);
    } else {
      DenseAfterOne(s, active, last, slot);
    }
  }

  /** A table with a free slot behind its connections does not grow, and the new connection gets that slot. */
  lemma TakesNextSlot(s: seq<Slot>, active: nat, slot: Slot)
    requires Dense(s, active) && active < |s|
    ensures Added(Swept(s, active), slot) == s[active := slot]
  {
    assert s[active] == Free && FirstFree(s) == active;
  }

  /** A full table grows by ten slots, and the new connection gets the first of them; so does the empty table. */
  lemma GrowsByTen(s: seq<Slot>, slot: Slot)
    requires Dense(s, |s|)
    ensures Added(Swept(s, |s|), slot) == s + [slot] + seq(9, _ => Free)
  {
    var grown := Grown(s, |s|);
    assert grown[|s|] == Free && FirstFree(grown) == |s|;
  }

  // ----- runs -----

  /** One call: the connections found finished during its sweep, and the new one. */
  datatype Call = Call(finished: set<nat>, slot: Slot)

  /** The table after a series of calls; none if one of them faults. */
  function Run(s: seq<Slot>, calls: seq<Call>): Option<seq<Slot>>
    decreases |calls|
  {
    if calls == [] then Some(s)
    else
      var r := Sweep(s, 0, Occupied(s), calls[0].finished);
      if r.Fault? then None else Run(Added(r, calls[0].slot), calls[1..])
  }

  /** No call of the series finds more than one connection finished, in all but the last occupied slot. */
  predicate Gentle(s: seq<Slot>, calls: seq<Call>)
    decreases |calls|
  {
    calls == [] ||
    (AtMostOne(s, 0, Occupied(s), calls[0].finished) && calls[0].slot.Busy? &&
     var r := Sweep(s, 0, Occupied(s), calls[0].finished);
     r.Swept? ==> Gentle(Added(r, calls[0].slot), calls[1..]))
  }

  /** The table is dense before and after every call of the series. */
  ghost predicate DenseThroughout(s: seq<Slot>, calls: seq<Call>)
    decreases |calls|
  {
    Dense(s, Occupied(s)) &&
    (calls == [] ||
     var r := Sweep(s, 0, Occupied(s), calls[0].finished);
     r.Swept? && DenseThroughout(Added(r, calls[0].slot), calls[1..]))
  }

  /** From a dense table, such as the empty one, a series never faults and stays dense exactly when it is gentle. */
  lemma {:induction false} GentleRunsAreSafe(s: seq<Slot>, calls: seq<Call>)
    requires Dense(s, Occupied(s)) && forall c :: c in calls ==> c.slot.Busy?
    ensures Gentle(s, calls) <==> DenseThroughout(s, calls)
    ensures Gentle(s, calls) ==> Run(s, calls).Some?
    decreases |calls|
  {
    if calls == [] {
    } else {
      var c := calls[0];
      var r := Sweep(s, 0, Occupied(s), c.finished);
      assert c in calls && forall d :: d in calls[1..] ==> d in calls;
      DenseCall(s, Occupied(s), c.finished, c.slot);
      CallConserves(s, Occupied(s), c.finished, c.slot);
      if AtMostOne(s, 0, Occupied(s), c.finished) {
        GentleRunsAreSafe(Added(r, c.slot), calls[1..]);
      } else {
        assert !DenseThroughout(Added(r, c.slot), calls[1..]);
      }
    }
  }

  /** As many connections as the front has slots, and none of these free: there are no others. */
  lemma {:induction false} BusyFront(s: seq<Slot>, n: nat)
    requires Occupied(s) == n && forall j :: 0 <= j < n ==> s[j].Busy?
    ensures Dense(s, n)
  {
    if s == [] {
    } else {
      var rest, m := s[1..], if n == 0 then 0 else n - 1;
      assert forall j :: 0 <= j < m ==> rest[j] == s[j + 1];
      BusyFront(rest, m);
      assert forall j :: 1 <= j < |s| ==> s[j] == rest[j - 1];
    }
  }

  /** A call that finds nothing finished is safe on the dense tables only. */
  lemma IdleSafeIffDense(s: seq<Slot>, slot: Slot)
    ensures Run(s, [Call({}, slot)]).Some? <==> Dense(s, Occupied(s))
  {
    IdleSweep(s, 0, Occupied(s));
    if forall j :: 0 <= j < Occupied(s) ==> s[j] != Free {
      BusyFront(s, Occupied(s));
    }
    assert [Call({}, slot)][1..] == [];
  }

  /** After a call that can get to two finished connections, a call that finds nothing new finished faults. */
  lemma TwoRetiredThenFault(s: seq<Slot>, finished: set<nat>, slot: Slot, next: Slot)
    requires Dense(s, Occupied(s)) && slot.Busy? && !AtMostOne(s, 0, Occupied(s), finished)
    ensures Run(s, [Call(finished, slot), Call({}, next)]) == None
  {
    DenseCall(s, Occupied(s), finished, slot);
    CallConserves(s, Occupied(s), finished, slot);
    IdleSafeIffDense(Added(Sweep(s, 0, Occupied(s), finished), slot), next);
    assert [Call(finished, slot), Call({}, next)][1..] == [Call({}, next)];
  }

  /** A call that finds nothing finished, put in after the first k calls of a series. */
  function IdleAfter(calls: seq<Call>, k: nat, slot: Slot): seq<Call>
    requires k <= |calls|
  {
    calls[..k] + [Call({}, slot)]
  }

  /** The first call of a series, then the others with the idle call among them. */
  lemma IdleAfterFirst(s: seq<Slot>, calls: seq<Call>, k: nat, slot: Slot)
    requires 0 < k <= |calls|
    ensures var r := Sweep(s, 0, Occupied(s), calls[0].finished);
            Run(s, IdleAfter(calls, k, slot)) ==
            if r.Fault? then None else Run(Added(r, calls[0].slot), IdleAfter(calls[1..], k - 1, slot))
  {
    hide Sweep, Occupied, Added;
    assert IdleAfter(calls, k, slot)[0] == calls[0];
    assert IdleAfter(calls, k, slot)[1..] == IdleAfter(calls[1..], k - 1, slot);
  }

  /** At no point of the series would a call that finds nothing finished fault. */
  predicate IdleSafe(s: seq<Slot>, calls: seq<Call>, slot: Slot) {
    forall k :: 0 <= k <= |calls| ==> Run(s, IdleAfter(calls, k, slot)).Some?
  }

  lemma IdleSafeBehind(s: seq<Slot>, calls: seq<Call>, slot: Slot)
    requires calls != [] && IdleSafe(s, calls, slot)
    ensures var r := Sweep(s, 0, Occupied(s), calls[0].finished);
            r.Swept? && IdleSafe(Added(r, calls[0].slot), calls[1..], slot)
  {
    hide Sweep, Occupied, Added, IdleAfter, Run;
    IdleAfterFirst(s, calls, 1, slot);
    forall k | 0 <= k <= |calls[1..]|
      ensures Run(s, IdleAfter(calls, k + 1, slot)).Some?
      ensures var t := Added(Sweep(s, 0, Occupied(s), calls[0].finished), calls[0].slot);
              Run(t, IdleAfter(calls[1..], k, slot)).Some?
    {
      IdleAfterFirst(s, calls, k + 1, slot);
    }
  }

  lemma IdleSafeInFront(s: seq<Slot>, calls: seq<Call>, slot: Slot)
    requires calls != [] && Run(s, [Call({}, slot)]).Some? && Sweep(s, 0, Occupied(s), calls[0].finished).Swept?
    requires IdleSafe(Added(Sweep(s, 0, Occupied(s), calls[0].finished), calls[0].slot), calls[1..], slot)
    ensures IdleSafe(s, calls, slot)
  {
    assert IdleAfter(calls, 0, slot) == [Call({}, slot)];
    hide Sweep, Occupied, Added, IdleAfter, Run;
    forall k | 0 < k <= |calls| ensures Run(s, IdleAfter(calls, k, slot)).Some? {
      IdleAfterFirst(s, calls, k, slot);
    }
  }

  lemma {:induction false} DenseIffIdleSafe(s: seq<Slot>, calls: seq<Call>, slot: Slot)
    ensures DenseThroughout(s, calls) <==> IdleSafe(s, calls, slot)
    decreases |calls|
  {
    IdleSafeIffDense(s, slot);
    assert IdleAfter(calls, 0, slot) == [Call({}, slot)];
    assert IdleSafe(s, calls, slot) ==> Run(s, IdleAfter(calls, 0, slot)).Some?;
    if calls == [] {
    } else {
      hide Sweep, Occupied, Added, Dense, IdleAfter, Run, IdleSafe;
      var r := Sweep(s, 0, Occupied(s), calls[0].finished);
      if IdleSafe(s, calls, slot) {
        IdleSafeBehind(s, calls, slot);
      }
      if r.Swept? {
        DenseIffIdleSafe(Added(r, calls[0].slot), calls[1..], slot);
        if DenseThroughout(s, calls) {
          IdleSafeInFront(s, calls, slot);
        }
      }
    }
  }

  /** From a dense table, a series is gentle exactly if it is safe in this sense. */
  lemma GentleIffIdleSafe(s: seq<Slot>, calls: seq<Call>, slot: Slot)
    requires Dense(s, Occupied(s)) && forall c :: c in calls ==> c.slot.Busy?
    ensures Gentle(s, calls) <==> forall k :: 0 <= k <= |calls| ==> Run(s, IdleAfter(calls, k, slot)).Some?
  {
    GentleRunsAreSafe(s, calls);
    DenseIffIdleSafe(s, calls, slot);
  }

  // ----- the function -----

  class SlotTable {
    var slots: array?<Slot>
    var active: nat
    var entries: nat

    ghost predicate Valid()
      reads this, slots
    {
      (if slots == null then entries == 0 else slots.Length == entries) && active == Occupied(Contents())
    }

    function Contents(): seq<Slot>
      reads this, slots
    {
      if slots == null then [] else slots[..]
    }

    /** The static variables at program start. */
    constructor ()
      ensures Valid() && Contents() == [] && active == 0
    {
      slots, active, entries := null, 0, 0;
    }

    /**
     * fxmy_add_new_connection, `finished` being the connections whose done flag the sweep finds set. False is the
     * read through a null pointer; the check behind the last loop is never reached.
     */
    method AddNewConnection(conn: nat, thread: nat, finished: set<nat>) returns (ok: bool)
      requires Valid()
      modifies this, slots
      ensures ok <==> Sweep(old(Contents()), 0, old(active), finished).Swept?
      ensures ok <==> !Trapped(old(Contents()), 0, old(active), finished)
      ensures ok ==> Valid() && (slots == old(slots) || fresh(slots))
      ensures ok ==> Contents() == Added(Sweep(old(Contents()), 0, old(active), finished), Busy(conn, thread))
    {
      SweepFaultsIff(Contents(), 0, active, finished);
      ok := SweepFinished(finished);
      if !ok {
        return;
      }
      ghost var r := Sweep(old(Contents()), 0, old(active), finished);
      SweepKeepsCount(old(Contents()), 0, old(active), finished);
      CallConserves(old(Contents()), old(active), finished, Busy(conn, thread));
      Grow();
      var found := Fill(Busy(conn, thread));
      return found;
    }

    /** The sweep over the active slots. */
    method SweepFinished(finished: set<nat>) returns (ok: bool)
      requires Valid()
      modifies this`active, slots
      ensures ok <==> Sweep(old(Contents()), 0, old(active), finished).Swept?
      ensures ok ==> Swept(Contents(), active) == Sweep(old(Contents()), 0, old(active), finished)
    {
      var i := 0;
      while i < active
        invariant active <= |Contents()|
        invariant Sweep(Contents(), i, active, finished) == Sweep(old(Contents()), 0, old(active), finished)
        decreases active - i
      {
        assert slots[..][i] == slots[i];
        if slots[i] == Free {
          return false;
        }
        if slots[i].conn in finished {
          ghost var before := slots[..];
          slots[i] := Free;
          assert slots[..] == before[i := Free];
          active := active - 1;
        }
        i := i + 1;
      }
      return true;
    }

    /** Ten more zeroed slots when every slot is taken. */
    method Grow()
      requires Valid()
      modifies this`slots, this`entries
      ensures Valid() && (slots == old(slots) || fresh(slots))
      ensures Contents() == Grown(old(Contents()), active)
    {
      if active + 1 > entries {
        var grown := new Slot[entries + GROWTH](_ => Free);
        if slots != null {
          forall j | 0 <= j < entries {
            grown[j] := slots[j];
          }
        }
        // the memset starts at the count of active slots, which is the old length here
        forall j | active <= j < active + GROWTH {
          grown[j] := Free;
        }
        GrownKeepsCount(Contents(), active);
        assert grown[..] == Grown(Contents(), active);
        slots, entries := grown, entries + GROWTH;
      }
    }

    /** Takes the first free slot; false is the check that a free slot was found. */
    method Fill(slot: Slot) returns (found: bool)
      requires Valid() && active < entries && slot.Busy?
      modifies this`active, slots
      ensures found && Valid() && FirstFree(old(Contents())) < |old(Contents())|
      ensures Contents() == old(Contents())[FirstFree(old(Contents())) := slot]
    {
      Pigeonhole(Contents());
      var i := 0;
      while i < entries
        invariant i <= FirstFree(Contents()) < entries
        invariant Valid() && slots == old(slots) && Contents() == old(Contents()) && active == old(active)
      {
        assert slots[..][i] == slots[i];
        if slots[i] == Free {
          CountAt(Contents(), i, slot);
          ghost var before := slots[..];
          slots[i] := slot;
          assert slots[..] == before[i := slot];
          active := active + 1;
          return true;
        }
        i := i + 1;
      }
      return false;
    }
  }
}
