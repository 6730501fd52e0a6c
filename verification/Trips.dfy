/** The trips of gps/batching/BatchingAdapter.cpp: the loops over the map of trips, in place. */
module Trips {
  import opened Sequences
  import opened Wrappers
  import opened TripModel

  /** The adapter when a report has looked at its first `k` trips. */
  function Halfway(a: Adapter, k: nat, reading: Word): Adapter
    requires k <= |a.trips|
  {
    Swept(a.(trips := a.trips[..k]), reading).(trips := Survivors(a.trips[..k], reading) + a.trips[k..])
  }

  /** One round of a report's loop, at the place `i` of the map. */
  function SweptAt(a: Adapter, i: nat, reading: Word): Adapter
    requires i < |a.trips|
  {
    var t := a.trips[i];
    if IsFinished(t, reading) then
      a.(
        trips := a.trips[..i] + a.trips[i + 1..],
        tbfDropped := a.tbfDropped || t.tbf == a.tbf,
        distanceDropped := a.distanceDropped || t.tripDistance == a.distance)
    else a.(trips := a.trips[i := Remeasured(t, reading)])
  }

  lemma OneMoreSwept(trips: seq<Trip>, k: nat, reading: Word)
    requires k < |trips|
    ensures
      Survivors(trips[..k + 1], reading) ==
      Survivors(trips[..k], reading) + if IsFinished(trips[k], reading) then [] else [Remeasured(trips[k], reading)]
    ensures
      Finished(trips[..k + 1], reading) ==
      Finished(trips[..k], reading) + if IsFinished(trips[k], reading) then [trips[k]] else []
  {
    assert trips[..k + 1][..k] == trips[..k];
  }

  /** Taking out the place after `left`, and writing to it. */
  lemma InPlace(left: seq<Trip>, before: seq<Trip>, k: nat, t: Trip)
    requires k < |before|
    ensures
      var all := left + before[k..];
      && all[|left|] == before[k]
      && all[..|left|] + all[|left| + 1..] == left + before[k + 1..]
      && all[|left| := t] == (left + [t]) + before[k + 1..]
  {
    assert before[k..] == [before[k]] + before[k + 1..];
  }

  /** The ids a report has found complete among its first `k` trips. */
  function DoneIds(a: Adapter, k: nat, reading: Word): seq<nat>
    requires k <= |a.trips|
  {
    Ids(Finished(a.trips[..k], reading))
  }

  lemma HalfwayEnds(a: Adapter, reading: Word)
    ensures Halfway(a, |a.trips|, reading) == Swept(a, reading)
    ensures DoneIds(a, |a.trips|, reading) == Ids(Finished(a.trips, reading))
  {
    assert a.trips[..|a.trips|] == a.trips;
  }

  lemma HalfwayStep(a: Adapter, k: nat, reading: Word)
    requires k < |a.trips|
    ensures
      var i := |Survivors(a.trips[..k], reading)|;
      && Halfway(a, k, reading).trips[i] == a.trips[k]
      && Halfway(a, k + 1, reading) == SweptAt(Halfway(a, k, reading), i, reading)
      && |Survivors(a.trips[..k + 1], reading)| == (if IsFinished(a.trips[k], reading) then i else i + 1)
    ensures
      DoneIds(a, k + 1, reading) ==
      DoneIds(a, k, reading) + if IsFinished(a.trips[k], reading) then [a.trips[k].id] else []
  {
    var left, gone, t := Survivors(a.trips[..k], reading), Finished(a.trips[..k], reading), a.trips[k];
    OneMoreSwept(a.trips, k, reading);
    InPlace(left, a.trips, k, Remeasured(t, reading));
    assert forall x: Trip :: x in gone + [t] <==> x in gone || x == t;
  }

  lemma PutLater(trips: seq<Trip>, i: nat, t: Trip)
    requires i < |trips| && trips[i].id < t.id && Put(trips, t) == trips[..i] + Put(trips[i..], t)
    ensures Put(trips, t) == trips[..i + 1] + Put(trips[i + 1..], t)
  {
    SplitAt(trips, i);
    Regroup(trips[..i], [trips[i]], Put(trips[i + 1..], t));
  }

  lemma PutHere(trips: seq<Trip>, i: nat, t: Trip)
    requires i <= |trips| && (i < |trips| ==> trips[i].id >= t.id) && Put(trips, t) == trips[..i] + Put(trips[i..], t)
    ensures Put(trips, t) == if i < |trips| && trips[i].id == t.id then trips[i := t] else trips[..i] + [t] + trips[i..]
  {
    if i < |trips| {
      SplitAt(trips, i);
      UpdateAt(trips, i, t);
    }
    Regroup(trips[..i], [t], trips[i..]);
  }

  lemma EraseLater(trips: seq<Trip>, i: nat, id: nat)
    requires i < |trips| && trips[i].id != id && Erase(trips, id) == trips[..i] + Erase(trips[i..], id)
    ensures Erase(trips, id) == trips[..i + 1] + Erase(trips[i + 1..], id)
  {
    SplitAt(trips, i);
    Regroup(trips[..i], [trips[i]], Erase(trips[i + 1..], id));
  }

  lemma EraseHere(trips: seq<Trip>, i: nat, id: nat)
    requires i <= |trips| && (i < |trips| ==> trips[i].id == id)
    requires Erase(trips, id) == trips[..i] + Erase(trips[i..], id)
    ensures Erase(trips, id) == if i < |trips| then trips[..i] + trips[i + 1..] else trips
  {
    if i < |trips| {
      SplitAt(trips, i);
    }
  }

  class BatchingAdapter {
    var trips: seq<Trip>
    var ongoingTripDistance: Word
    var ongoingTripTbfInterval: Word
    var tripWithOngoingTbfDropped: bool
    var tripWithOngoingTripDistanceDropped: bool

    ghost function State(): Adapter
      reads this
    {
      Adapter(
        trips, ongoingTripDistance, ongoingTripTbfInterval,
        tripWithOngoingTbfDropped, tripWithOngoingTripDistanceDropped)
    }

    constructor ()
      ensures State() == START.a
    {
      trips, ongoingTripDistance, ongoingTripTbfInterval := [], 0, 0;
      tripWithOngoingTbfDropped, tripWithOngoingTripDistanceDropped := false, false;
    }

    method FindTrip(id: nat) returns (t: Trip)
      requires Has(trips, id)
      ensures t == Find(trips, id)
    {
      var i := 0;
      while trips[i].id != id
        invariant 0 <= i < |trips| && Has(trips[i..], id) && Find(trips[i..], id) == Find(trips, id)
        decreases |trips| - i
      {
        assert trips[i..][1..] == trips[i + 1..];
        i := i + 1;
      }
      t := trips[i];
    }

    method PutTrip(t: Trip)
      modifies this`trips
      ensures trips == Put(old(trips), t)
    {
      ghost var before := trips;
      var i := 0;
      while i < |trips| && trips[i].id < t.id
        invariant 0 <= i <= |trips| && trips == before
        invariant Put(before, t) == before[..i] + Put(before[i..], t)
      {
        PutLater(before, i, t);
        i := i + 1;
      }
      PutHere(before, i, t);
      if i < |trips| && trips[i].id == t.id {
        trips := trips[i := t];
      } else {
        trips := trips[..i] + [t] + trips[i..];
      }
    }

    method EraseTrip(id: nat)
      modifies this`trips
      ensures trips == Erase(old(trips), id)
    {
      ghost var before := trips;
      var i := 0;
      while i < |trips| && trips[i].id != id
        invariant 0 <= i <= |trips| && trips == before
        invariant Erase(before, id) == before[..i] + Erase(before[i..], id)
      {
        EraseLater(before, i, id);
        i := i + 1;
      }
      EraseHere(before, i, id);
      if i < |trips| {
        trips := trips[..i] + trips[i + 1..];
      }
    }

    /** The loop for the nearest goal and the shortest interval. */
    method Minima() returns (minRemainingDistance: Word, minTbfInterval: Word)
      ensures minRemainingDistance == LoopMin(Remainings(trips)) && minTbfInterval == LoopMin(Intervals(trips))
    {
      minRemainingDistance, minTbfInterval := 0, 0;
      ghost var ds, ws := Remainings(trips), Intervals(trips);
      for i := 0 to |trips|
        invariant minRemainingDistance == LoopMin(ds[..i]) && minTbfInterval == LoopMin(ws[..i])
      {
        var t := trips[i];
        assert ds[..i + 1][..i] == ds[..i] && ws[..i + 1][..i] == ws[..i];
        if minRemainingDistance == 0 || minRemainingDistance > Minus(t.tripDistance, t.thisTrip) {
          minRemainingDistance := Minus(t.tripDistance, t.thisTrip);
        }
        if minTbfInterval == 0 || minTbfInterval > t.tbf {
          minTbfInterval := t.tbf;
        }
      }
      assert ds[..|trips|] == ds && ws[..|trips|] == ws;
    }

    /** The loop of the restart's response. */
    method Rebase(accumulatedDistance: Word)
      modifies this`trips
      ensures trips == Rebased(AllRemeasured(old(trips), accumulatedDistance))
    {
      ghost var after := Rebased(AllRemeasured(trips, accumulatedDistance));
      for i := 0 to |trips|
        invariant |trips| == |old(trips)| && trips == after[..i] + old(trips)[i..]
      {
        var t := trips[i];
        var m := Plus(t.onRestart, Minus(accumulatedDistance, t.ongoingBatch));
        trips := trips[i := t.(thisTrip := m, ongoingBatch := 0, onRestart := m)];
      }
    }

    /** The modem answers the question for its counter with `data`, and the restart with `engineOk`. */
    method RestartTripBatching(queryAccumulatedDistance: bool, accDist: Word, data: Word, engineOk: bool)
      returns (command: Command)
      modifies this
      ensures (State(), command) == Restart(old(State()), if queryAccumulatedDistance then data else accDist, engineOk)
    {
      if |trips| == 0 {
        ongoingTripDistance, ongoingTripTbfInterval := 0, 0;
        return StopBatch;
      }
      var minRemainingDistance, minTbfInterval := Minima();
      var needsRestart := false;
      var newDistance, newInterval := ongoingTripDistance, ongoingTripTbfInterval;
      var accumulatedDistance := if queryAccumulatedDistance then data else accDist;
      if !tripWithOngoingTripDistanceDropped && Minus(newDistance, accumulatedDistance) != 0 {
        if minRemainingDistance < Minus(newDistance, accumulatedDistance) {
          newDistance, needsRestart := minRemainingDistance, true;
        }
      } else if minRemainingDistance != 0 {
        newDistance, needsRestart := minRemainingDistance, true;
      }
      if minTbfInterval < newInterval || (minTbfInterval != newInterval && tripWithOngoingTbfDropped) {
        newInterval, needsRestart := minTbfInterval, true;
      }
      if !needsRestart {
        return NoCommand;
      }
      command := RestartBatch(newDistance, newInterval);
      if engineOk {
        Rebase(accumulatedDistance);
        ongoingTripDistance, ongoingTripTbfInterval := newDistance, newInterval;
      }
    }

    method SweepAt(i: nat, accumulatedDistance: Word) returns (done: bool)
      requires i < |trips|
      modifies this
      ensures State() == SweptAt(old(State()), i, accumulatedDistance)
      ensures done == IsFinished(old(trips[i]), accumulatedDistance)
    {
      var t := trips[i];
      t := t.(thisTrip := Plus(t.onRestart, Minus(accumulatedDistance, t.ongoingBatch)));
      trips := trips[i := t];
      done := t.tripDistance <= t.thisTrip;
      if done {
        trips := trips[..i] + trips[i + 1..];
        if t.tbf == ongoingTripTbfInterval {
          tripWithOngoingTbfDropped := true;
        }
        if t.tripDistance == ongoingTripDistance {
          tripWithOngoingTripDistanceDropped := true;
        }
      }
    }

    /** The loop of a report, which erases the trips that are complete. */
    method Sweep(accumulatedDistance: Word) returns (completed: seq<nat>)
      modifies this
      ensures State() == Swept(old(State()), accumulatedDistance)
      ensures completed == Ids(Finished(old(trips), accumulatedDistance))
    {
      ghost var was, k := State(), 0;
      var i := 0;
      completed := [];
      while i < |trips|
        invariant k <= |was.trips| && i == |Survivors(was.trips[..k], accumulatedDistance)|
        invariant State() == Halfway(was, k, accumulatedDistance)
        invariant completed == DoneIds(was, k, accumulatedDistance)
        decreases |was.trips| - k
      {
        HalfwayStep(was, k, accumulatedDistance);
        var id := trips[i].id;
        var done := SweepAt(i, accumulatedDistance);
        if done {
          completed := completed + [id];
        } else {
          i := i + 1;
        }
        k := k + 1;
      }
      assert |trips| == i + (|was.trips| - k);
      assert k == |was.trips|;
      HalfwayEnds(was, accumulatedDistance);
    }

    /** The message of a report. */
    method ReportCompletedTrips(accumulatedDistance: Word, data: Word, engineOk: bool)
      returns (completed: seq<nat>, command: Command)
      modifies this
      ensures (State(), command, completed) == Report(old(State()), accumulatedDistance, engineOk)
    {
      completed := Sweep(accumulatedDistance);
      if |completed| > 0 {
        command := RestartTripBatching(false, accumulatedDistance, data, engineOk);
      } else {
        command := NoCommand;
      }
    }

    /** stopTripBatchingMultiplex, for the id of a running trip. */
    method StopTripBatching(id: nat, data: Word, engineOk: bool) returns (command: Command)
      requires Has(trips, id)
      modifies this
      ensures (State(), command) == Stop(old(State()), id, data, engineOk)
    {
      var tripSess := FindTrip(id);
      if tripSess.tbf == ongoingTripTbfInterval {
        tripWithOngoingTbfDropped := true;
      }
      if tripSess.tripDistance == ongoingTripDistance {
        tripWithOngoingTripDistanceDropped := true;
      }
      EraseTrip(id);
      if |trips| == 0 {
        ongoingTripDistance, ongoingTripTbfInterval := 0, 0;
        command := StopBatch;
      } else {
        command := RestartTripBatching(true, 0, data, engineOk);
      }
    }

    /** The loop of a join that restarts the batch. */
    method Reset()
      modifies this`trips
      ensures trips == Rebased(old(trips))
    {
      ghost var after := Rebased(trips);
      for i := 0 to |trips|
        invariant |trips| == |old(trips)| && trips == after[..i] + old(trips)[i..]
      {
        var t := trips[i];
        assert after[..i + 1] == after[..i] + [Anew(old(trips)[i])];
        trips := trips[i := t.(ongoingBatch := 0, onRestart := t.thisTrip)];
      }
    }

    /** startTripBatchingMultiplex, with the modem's answers. */
    method StartTripBatching(id: nat, distance: Word, tbf: Word, query: Option<Word>, engineOk: bool)
      returns (command: Command, success: bool)
      modifies this
      ensures (State(), command, success) == Begin(old(State()), id, distance, tbf, query, engineOk)
    {
      if |trips| == 0 {
        PutTrip(Trip(id, 0, 0, 0, distance, tbf));
        if engineOk {
          ongoingTripDistance, ongoingTripTbfInterval := distance, tbf;
        } else {
          EraseTrip(id);
        }
        return StartBatch(distance, tbf), engineOk;
      }
      var newDistance, newInterval := ongoingTripDistance, ongoingTripTbfInterval;
      var needsRestart := false;
      if newInterval > tbf {
        newInterval, needsRestart := tbf, true;
      }
      match query {
        case None =>
          if distance < newDistance {
            newDistance, needsRestart := distance, true;
          }
        case Some(accumulatedDistance) =>
          var ongoingTripRemainingDistance := Minus(newDistance, accumulatedDistance);
          if distance < ongoingTripRemainingDistance {
            newDistance, needsRestart := distance, true;
          } else if needsRestart {
            newDistance := ongoingTripRemainingDistance;
          }
          PutTrip(Trip(id, accumulatedDistance, 0, 0, distance, tbf));
      }
      if !needsRestart {
        return NoCommand, true;
      }
      ongoingTripDistance, ongoingTripTbfInterval := newDistance, newInterval;
      Reset();
      command, success := RestartBatch(newDistance, newInterval), engineOk;
    }

    /** The trips' part of restartSessions; its loop assigns to copies of the trips. */
    method RestartTrips(engineOk: bool) returns (command: Command)
      modifies this
      ensures (State(), command) == RestartSessions(old(State()), engineOk)
    {
      if |trips| == 0 {
        return NoCommand;
      }
      ongoingTripDistance, ongoingTripTbfInterval := Minima();
      command := StartBatch(ongoingTripDistance, ongoingTripTbfInterval);
      if !engineOk {
        ongoingTripDistance, ongoingTripTbfInterval := 0, 0;
      }
    }
  }
}
