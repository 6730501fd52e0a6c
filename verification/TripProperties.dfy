/** What the trips of gps/batching/BatchingAdapter.cpp are told, over whole runs. */
module TripProperties {
  import opened Wrappers
  import opened TripModel

  // ----- Arithmetic modulo 2^32 ----------------------------------------------------------------

  lemma WrapTwice(x: int, y: int)
    ensures Wrap(Wrap(x) + y) == Wrap(x + y)
  {
  }

  lemma MeasuredWraps(t: Trip, reading: Word)
    ensures Measured(t, reading) == Wrap(t.onRestart - t.ongoingBatch + reading)
  {
  }

  // ----- The running minimum -------------------------------------------------------------------

  ghost predicate IsMin(m: Word, ws: seq<Word>) {
    m in ws && forall w :: w in ws ==> m <= w
  }

  /** With 0 for "none yet" the loop finds the minimum exactly when no entry is 0, or the last one is. */
  lemma {:induction false} LoopMinIff(ws: seq<Word>)
    requires ws != []
    ensures IsMin(LoopMin(ws), ws) <==> 0 !in ws || ws[|ws| - 1] == 0
  {
    var front, last := ws[..|ws| - 1], ws[|ws| - 1];
    assert ws == front + [last];
    if front != [] {
      LoopMinIff(front);
    }
    if last == 0 {
      assert LoopMin(ws) == 0;
    } else if 0 in front {
      assert LoopMin(ws) != 0;
    }
  }

  lemma LeastRemaining(trips: seq<Trip>)
    requires trips != [] && forall t :: t in trips ==> t.thisTrip < t.tripDistance
    ensures
      var m := LoopMin(Remainings(trips));
      && m > 0
      && (exists t :: t in trips && m == t.tripDistance - t.thisTrip)
      && (forall t :: t in trips ==> m <= t.tripDistance - t.thisTrip)
  {
    var rs := Remainings(trips);
    assert forall i :: 0 <= i < |rs| ==> rs[i] == trips[i].tripDistance - trips[i].thisTrip && trips[i] in trips;
    LoopMinIff(rs);
    var m := LoopMin(rs);
    var k :| 0 <= k < |rs| && rs[k] == m;
    assert trips[k] in trips && m == trips[k].tripDistance - trips[k].thisTrip;
    forall t | t in trips
      ensures m <= t.tripDistance - t.thisTrip
    {
      var i :| 0 <= i < |trips| && trips[i] == t;
      assert rs[i] in rs;
    }
  }

  // ----- The map -------------------------------------------------------------------------------

  predicate Ordered(trips: seq<Trip>) {
    forall i, j :: 0 <= i < j < |trips| ==> trips[i].id < trips[j].id
  }

  lemma ConsOrdered(t: Trip, rest: seq<Trip>)
    ensures Ordered([t] + rest) <==> Ordered(rest) && forall x :: x in rest ==> t.id < x.id
  {
    var all := [t] + rest;
    if Ordered(all) {
      forall x | x in rest
        ensures t.id < x.id
      {
        var i :| 0 <= i < |rest| && rest[i] == x;
        assert all[0].id < all[i + 1].id;
      }
      forall i, j | 0 <= i < j < |rest|
        ensures rest[i].id < rest[j].id
      {
        assert all[i + 1].id < all[j + 1].id;
      }
    }
  }

  lemma {:induction false} PutAdds(trips: seq<Trip>, t: Trip)
    requires Ordered(trips) && !Has(trips, t.id)
    ensures Ordered(Put(trips, t)) && (forall x :: x in Put(trips, t) <==> x in trips || x == t)
  {
    if trips != [] {
      var rest := trips[1..];
      assert trips == [trips[0]] + rest;
      ConsOrdered(trips[0], rest);
      if t.id < trips[0].id {
        ConsOrdered(t, trips);
      } else {
        assert !Has(rest, t.id) by {
          assert forall i :: 0 <= i < |rest| ==> rest[i] == trips[i + 1];
        }
        PutAdds(rest, t);
        ConsOrdered(trips[0], Put(rest, t));
      }
    }
  }

  lemma {:induction false} EraseRemoves(trips: seq<Trip>, id: nat)
    requires Ordered(trips)
    ensures Ordered(Erase(trips, id)) && (forall x :: x in Erase(trips, id) <==> x in trips && x.id != id)
  {
    if trips != [] {
      var rest := trips[1..];
      assert trips == [trips[0]] + rest;
      ConsOrdered(trips[0], rest);
      if trips[0].id != id {
        EraseRemoves(rest, id);
        ConsOrdered(trips[0], Erase(rest, id));
      }
    }
  }

  lemma {:induction false} SurvivorsAre(trips: seq<Trip>, reading: Word)
    ensures forall x :: x in Survivors(trips, reading) <==>
      exists t :: t in trips && !IsFinished(t, reading) && x == Remeasured(t, reading)
  {
    if trips != [] {
      var front, last := trips[..|trips| - 1], trips[|trips| - 1];
      assert trips == front + [last];
      SurvivorsAre(front, reading);
    }
  }

  lemma {:induction false} SurvivorsInOrder(trips: seq<Trip>, reading: Word)
    requires Ordered(trips)
    ensures Ordered(Survivors(trips, reading))
  {
    if trips != [] {
      var front, last := trips[..|trips| - 1], trips[|trips| - 1];
      SurvivorsInOrder(front, reading);
      SurvivorsAre(front, reading);
      var rest := Survivors(front, reading);
      forall j | 0 <= j < |rest|
        ensures rest[j].id < last.id
      {
        assert rest[j] in rest;
      }
    }
  }

  lemma {:induction false} FinishedAre(trips: seq<Trip>, reading: Word)
    ensures forall x :: x in Finished(trips, reading) <==> x in trips && IsFinished(x, reading)
  {
    if trips != [] {
      var front, last := trips[..|trips| - 1], trips[|trips| - 1];
      assert trips == front + [last];
      FinishedAre(front, reading);
    }
  }

  // ----- Exactness -----------------------------------------------------------------------------

  /** With the counter at 0 the trip measures what was travelled from its start to the counter's. */
  predicate Placed(t: Trip, joined: nat, batchStart: nat) {
    Measured(t, 0) == Wrap(batchStart - joined)
  }

  lemma PlacedMeasures(t: Trip, joined: nat, batchStart: nat, odometer: nat)
    requires Placed(t, joined, batchStart)
    ensures Measured(t, Wrap(odometer - batchStart)) == Wrap(odometer - joined)
  {
    MeasuredWraps(t, 0);
    MeasuredWraps(t, Wrap(odometer - batchStart));
    WrapTwice(odometer - batchStart, t.onRestart - t.ongoingBatch);
    WrapTwice(t.onRestart - t.ongoingBatch, odometer - batchStart);
    WrapTwice(batchStart - joined, odometer - batchStart);
  }

  ghost predicate AllPlaced(trips: seq<Trip>, joined: map<nat, nat>, batchStart: nat) {
    forall t :: t in trips ==> t.id in joined && Placed(t, joined[t.id], batchStart)
  }

  /** Whatever the modem's counter reads, every trip measures the distance since it began. */
  ghost predicate Exact(w: World) {
    && Ordered(w.a.trips)
    && AllPlaced(w.a.trips, w.joined, w.batchStart)
    && (forall t :: t in w.a.trips ==> w.joined[t.id] <= w.odometer)
    && w.batchStart <= w.odometer
  }

  /** Every distance is what the trip measures at `reading`. */
  ghost predicate UpToDate(trips: seq<Trip>, reading: Word) {
    forall t :: t in trips ==> t.thisTrip == Measured(t, reading)
  }

  ghost predicate FreshAt(trips: seq<Trip>, joined: map<nat, nat>, odometer: nat) {
    forall t :: t in trips ==> t.id in joined && t.thisTrip == Wrap(odometer - joined[t.id])
  }

  /** The distance of every trip is that since it began. */
  ghost predicate Fresh(w: World) {
    FreshAt(w.a.trips, w.joined, w.odometer)
  }

  lemma FreshIffUpToDate(w: World)
    requires Exact(w)
    ensures Fresh(w) <==> UpToDate(w.a.trips, Counter(w))
  {
    forall t | t in w.a.trips
      ensures Measured(t, Counter(w)) == Wrap(w.odometer - w.joined[t.id])
    {
      PlacedMeasures(t, w.joined[t.id], w.batchStart, w.odometer);
    }
  }

  /** A restart that succeeds starts all trips afresh from `reading`: they stay exact if and only if that
      is what the counter reads when the modem resets it. */
  lemma RebaseExactIff(trips: seq<Trip>, joined: map<nat, nat>, batchStart: nat, reading: Word, reset: nat)
    requires trips != [] && AllPlaced(trips, joined, batchStart)
    ensures AllPlaced(Rebased(AllRemeasured(trips, reading)), joined, reset) <==> reading == Wrap(reset - batchStart)
  {
    var after := Rebased(AllRemeasured(trips, reading));
    forall i | 0 <= i < |trips|
      ensures trips[i].id in joined && after[i].id == trips[i].id && after[i] in after
      ensures Placed(after[i], joined[trips[i].id], reset) <==> reading == Wrap(reset - batchStart)
    {
      assert trips[i] in trips;
      PlacedMeasures(trips[i], joined[trips[i].id], batchStart, reset);
    }
    assert after[0].id in joined;
  }

  // ----- Every step keeps the trips exact ------------------------------------------------------

  /** A join that makes the batch restart. */
  predicate Forced(w: World, e: Event) {
    && e.BeginTrip? && w.a.trips != []
    && JoinPlan(w.a, e.distance, e.tbf, if e.queryOk then Some(Counter(w)) else None).1
  }

  /** A restart for a new trip takes every distance as it was last measured. */
  ghost predicate Orderly(w: World, e: Event) {
    Enabled(w, e) && (Forced(w, e) ==> e.engineOk && UpToDate(w.a.trips, Counter(w)))
  }

  lemma RebaseKeepsIds(trips: seq<Trip>, reading: Word)
    requires Ordered(trips)
    ensures Ordered(Rebased(AllRemeasured(trips, reading)))
    ensures forall x :: x in Rebased(AllRemeasured(trips, reading)) ==> exists t :: t in trips && t.id == x.id
  {
    var after := Rebased(AllRemeasured(trips, reading));
    assert forall i :: 0 <= i < |trips| ==> after[i].id == trips[i].id && trips[i] in trips;
  }

  lemma RebaseExact(w: World)
    requires Exact(w) && w.a.trips != []
    ensures
      var trips := Rebased(AllRemeasured(w.a.trips, Counter(w)));
      && Ordered(trips) && AllPlaced(trips, w.joined, w.odometer)
      && (forall t :: t in trips ==> w.joined[t.id] <= w.odometer)
  {
    RebaseExactIff(w.a.trips, w.joined, w.batchStart, Counter(w), w.odometer);
    RebaseKeepsIds(w.a.trips, Counter(w));
  }

  lemma RestartExact(w: World, engineOk: bool)
    requires Exact(w)
    ensures Exact(After(w, Restart(w.a, Counter(w), engineOk), engineOk))
  {
    if w.a.trips != [] && engineOk {
      RebaseExact(w);
    }
  }

  lemma SweptAre(a: Adapter, reading: Word)
    ensures forall x :: x in Swept(a, reading).trips ==> exists t :: t in a.trips && x == Remeasured(t, reading)
    ensures forall x :: x in Swept(a, reading).trips ==> x.thisTrip == Measured(x, reading) < x.tripDistance
    ensures forall t :: t in a.trips && !IsFinished(t, reading) ==> Remeasured(t, reading) in Swept(a, reading).trips
  {
    SurvivorsAre(a.trips, reading);
  }

  lemma SweptExact(w: World)
    requires Exact(w)
    ensures Exact(w.(a := Swept(w.a, Counter(w))))
  {
    SweptAre(w.a, Counter(w));
    SurvivorsInOrder(w.a.trips, Counter(w));
  }

  /** A report that completes trips goes on like a restart. */
  lemma ReportSteps(w: World, engineOk: bool)
    ensures
      var v := w.(a := Swept(w.a, Counter(w)));
      Step(w, ReportTrips(engineOk)) ==
      if Finished(w.a.trips, Counter(w)) == [] then v else After(v, Restart(v.a, Counter(v), engineOk), engineOk)
  {
  }

  lemma ReportExact(w: World, engineOk: bool)
    requires Exact(w)
    ensures Exact(Step(w, ReportTrips(engineOk)))
  {
    SweptExact(w);
    RestartExact(w.(a := Swept(w.a, Counter(w))), engineOk);
    ReportSteps(w, engineOk);
  }

  lemma StoppedExact(w: World, id: nat)
    requires Exact(w) && Has(w.a.trips, id)
    ensures Exact(w.(a := Stopped(w.a, id)))
  {
    EraseRemoves(w.a.trips, id);
  }

  lemma StopSteps(w: World, id: nat, engineOk: bool)
    requires Has(w.a.trips, id)
    ensures
      var v := w.(a := Stopped(w.a, id));
      Step(w, StopTrip(id, engineOk)) ==
      if v.a.trips == [] then v.(a := v.a.(distance := 0, tbf := 0), batch := if engineOk then None else w.batch)
      else After(v, Restart(v.a, Counter(v), engineOk), engineOk)
  {
  }

  lemma StopExact(w: World, id: nat, engineOk: bool)
    requires Exact(w) && Has(w.a.trips, id)
    ensures Exact(Step(w, StopTrip(id, engineOk)))
  {
    StoppedExact(w, id);
    RestartExact(w.(a := Stopped(w.a, id)), engineOk);
    StopSteps(w, id, engineOk);
  }

  lemma NewTripIsPlaced(id: nat, distance: Word, tbf: Word, odometer: nat, batchStart: nat)
    ensures Placed(Trip(id, Wrap(odometer - batchStart), 0, 0, distance, tbf), odometer, batchStart)
    ensures Placed(Trip(id, 0, 0, 0, distance, tbf), odometer, odometer)
  {
    MeasuredWraps(Trip(id, Wrap(odometer - batchStart), 0, 0, distance, tbf), 0);
  }

  lemma AnewPlacedIff(t: Trip, joined: nat, reset: nat)
    ensures Placed(Anew(t), joined, reset) <==> t.thisTrip == Wrap(reset - joined)
  {
  }

  lemma RebasedAre(trips: seq<Trip>)
    ensures forall t :: t in trips ==> Anew(t) in Rebased(trips)
    ensures forall x :: x in Rebased(trips) ==> exists t :: t in trips && x == Anew(t)
    ensures Ordered(trips) ==> Ordered(Rebased(trips))
  {
    forall t | t in trips
      ensures Anew(t) in Rebased(trips)
    {
      var i :| 0 <= i < |trips| && trips[i] == t;
      assert Rebased(trips)[i] == Anew(t);
    }
  }

  lemma RebasedPlacedIff(trips: seq<Trip>, joined: map<nat, nat>, reset: nat)
    ensures AllPlaced(Rebased(trips), joined, reset) <==> FreshAt(trips, joined, reset)
  {
    RebasedAre(trips);
    forall t | t in trips && t.id in joined
      ensures Placed(Anew(t), joined[t.id], reset) <==> t.thisTrip == Wrap(reset - joined[t.id])
    {
      AnewPlacedIff(t, joined[t.id], reset);
    }
  }

  lemma NotThere(trips: seq<Trip>, id: nat)
    requires !Has(trips, id)
    ensures forall t :: t in trips ==> t.id != id
  {
  }

  lemma OneMorePlaced(trips: seq<Trip>, t: Trip, joined: map<nat, nat>, batchStart: nat, odometer: nat)
    requires Ordered(trips) && !Has(trips, t.id) && AllPlaced(trips, joined, batchStart)
    requires Placed(t, odometer, batchStart)
    ensures AllPlaced(Put(trips, t), joined[t.id := odometer], batchStart)
  {
    NotThere(trips, t.id);
    PutAdds(trips, t);
  }

  /** The trips with the one that joins. */
  function Joined(w: World, e: Event): seq<Trip>
    requires e.BeginTrip?
  {
    if e.queryOk then Put(w.a.trips, Trip(e.id, Counter(w), 0, 0, e.distance, e.tbf)) else w.a.trips
  }

  lemma JoinedAre(w: World, e: Event)
    requires Ordered(w.a.trips) && Enabled(w, e) && e.BeginTrip?
    ensures Ordered(Joined(w, e))
    ensures forall t :: t in w.a.trips ==> t in Joined(w, e) && t.id != e.id
    ensures forall t :: t in Joined(w, e) ==>
      t in w.a.trips || (e.queryOk && t.id == e.id && t.thisTrip == 0 && t.tripDistance == e.distance)
  {
    NotThere(w.a.trips, e.id);
    if e.queryOk {
      PutAdds(w.a.trips, Trip(e.id, Counter(w), 0, 0, e.distance, e.tbf));
    }
  }

  lemma JoinState(w: World, e: Event)
    requires Enabled(w, e) && e.BeginTrip? && w.a.trips != [] && !Forced(w, e)
    ensures
      var v := Step(w, e);
      && v.a.trips == Joined(w, e) && v.odometer == w.odometer && v.batchStart == w.batchStart
      && v.joined == if e.queryOk then w.joined[e.id := w.odometer] else w.joined
  {
  }

  lemma JoinExact(w: World, e: Event)
    requires Exact(w) && Enabled(w, e) && e.BeginTrip? && w.a.trips != [] && !Forced(w, e)
    ensures Exact(Step(w, e))
  {
    JoinState(w, e);
    JoinedAre(w, e);
    JoinedPlaced(w, e);
    var v := Step(w, e);
    forall t | t in v.a.trips
      ensures v.joined[t.id] <= v.odometer
    {
    }
  }

  lemma JoinedPlaced(w: World, e: Event)
    requires Exact(w) && Enabled(w, e) && e.BeginTrip?
    ensures AllPlaced(Joined(w, e), if e.queryOk then w.joined[e.id := w.odometer] else w.joined, w.batchStart)
  {
    if e.queryOk {
      NewTripIsPlaced(e.id, e.distance, e.tbf, w.odometer, w.batchStart);
      OneMorePlaced(w.a.trips, Trip(e.id, Counter(w), 0, 0, e.distance, e.tbf), w.joined, w.batchStart, w.odometer);
    }
  }

  lemma ForcedJoinState(w: World, e: Event)
    requires Enabled(w, e) && Forced(w, e) && e.engineOk
    ensures
      var v := Step(w, e);
      && v.a.trips == Rebased(Joined(w, e)) && v.odometer == w.odometer && v.batchStart == w.odometer
      && v.joined == if e.queryOk then w.joined[e.id := w.odometer] else w.joined
  {
  }

  /** A trip that begins now is up to date. */
  lemma NewIsFresh(trips: seq<Trip>, all: seq<Trip>, joined: map<nat, nat>, id: nat, odometer: nat)
    requires forall t :: t in trips ==> t in all && t.id != id
    requires forall t :: t in all ==> t in trips || (t.id == id && t.thisTrip == 0)
    ensures FreshAt(all, joined[id := odometer], odometer) <==> FreshAt(trips, joined, odometer)
  {
    var later := joined[id := odometer];
    assert Wrap(odometer - odometer) == 0;
    if FreshAt(all, later, odometer) {
      forall t | t in trips
        ensures t.id in joined && t.thisTrip == Wrap(odometer - joined[t.id])
      {
        assert t in all && later[t.id] == joined[t.id];
      }
    }
  }

  lemma JoinedFreshIff(w: World, e: Event, joined: map<nat, nat>)
    requires Exact(w) && Enabled(w, e) && e.BeginTrip?
    requires joined == if e.queryOk then w.joined[e.id := w.odometer] else w.joined
    ensures forall t :: t in Joined(w, e) ==> t.id in joined && joined[t.id] <= w.odometer
    ensures FreshAt(Joined(w, e), joined, w.odometer) <==> Fresh(w)
  {
    JoinedAre(w, e);
    if e.queryOk {
      NewIsFresh(w.a.trips, Joined(w, e), w.joined, e.id, w.odometer);
    }
  }

  /** A join that makes the batch restart keeps the trips exact if and only if their distances were up to
      date: what was travelled since the last report is forgotten. */
  lemma ForcedJoinExactIff(w: World, e: Event)
    requires Exact(w) && Enabled(w, e) && Forced(w, e) && e.engineOk
    ensures Exact(Step(w, e)) <==> UpToDate(w.a.trips, Counter(w))
  {
    FreshIffUpToDate(w);
    var v := Step(w, e);
    ForcedJoinState(w, e);
    JoinedAre(w, e);
    JoinedFreshIff(w, e, v.joined);
    RebasedPlacedIff(Joined(w, e), v.joined, v.batchStart);
    assert Exact(v) <==> AllPlaced(v.a.trips, v.joined, v.batchStart) by {
      RebasedAre(Joined(w, e));
    }
  }

  lemma StepKeepsExact(w: World, e: Event)
    requires Exact(w) && Orderly(w, e)
    ensures Exact(Step(w, e))
  {
    match e
    case Move(_) =>
    case BeginTrip(_, _, _, _, _) =>
      if w.a.trips == [] {
      } else if Forced(w, e) {
        ForcedJoinExactIff(w, e);
      } else {
        JoinExact(w, e);
      }
    case ReportTrips(engineOk) => ReportExact(w, engineOk);
    case StopTrip(id, engineOk) => StopExact(w, id, engineOk);
  }

  ghost predicate OrderlyRun(w: World, es: seq<Event>)
    decreases |es|
  {
    es == [] || (Orderly(w, es[0]) && OrderlyRun(Step(w, es[0]), es[1..]))
  }

  lemma {:induction false} RunKeepsExact(w: World, es: seq<Event>)
    requires Exact(w) && OrderlyRun(w, es)
    ensures Possible(w, es) && Exact(RunOf(w, es))
    decreases |es|
  {
    if es != [] {
      StepKeepsExact(w, es[0]);
      RunKeepsExact(Step(w, es[0]), es[1..]);
    }
  }

  /** In every run, whatever restarts the batch, each trip measures the distance since it began. */
  lemma ExactInEveryRun(es: seq<Event>)
    requires OrderlyRun(START, es)
    ensures Possible(START, es) && Exact(RunOf(START, es))
    ensures
      var w := RunOf(START, es);
      forall t :: t in w.a.trips ==> Measured(t, Counter(w)) == Wrap(w.odometer - w.joined[t.id])
  {
    RunKeepsExact(START, es);
    var w := RunOf(START, es);
    forall t | t in w.a.trips
      ensures Measured(t, Counter(w)) == Wrap(w.odometer - w.joined[t.id])
    {
      PlacedMeasures(t, w.joined[t.id], w.batchStart, w.odometer);
    }
  }

  /** When the modem has lost its batch, the trips stay exact if and only if it had counted nothing. */
  lemma ModemRestartExactIff(w: World, engineOk: bool)
    requires Exact(w)
    ensures
      var v := After(w, RestartSessions(w.a, engineOk), true);
      Exact(v) <==> w.a.trips == [] || Counter(w) == 0
  {
    var v := After(w, RestartSessions(w.a, engineOk), true);
    assert v.a.trips == w.a.trips;
    if w.a.trips != [] {
      forall t | t in w.a.trips
        ensures Placed(t, w.joined[t.id], w.odometer) <==> Counter(w) == 0
      {
        PlacedMeasures(t, w.joined[t.id], w.batchStart, w.odometer);
      }
      assert w.a.trips[0] in w.a.trips;
    }
  }

  lemma {:induction false} FinishedInOrder(trips: seq<Trip>, reading: Word)
    requires Ordered(trips)
    ensures Ordered(Finished(trips, reading))
  {
    if trips != [] {
      var front, last := trips[..|trips| - 1], trips[|trips| - 1];
      FinishedInOrder(front, reading);
      FinishedAre(front, reading);
      var rest := Finished(front, reading);
      forall j | 0 <= j < |rest|
        ensures rest[j].id < last.id
      {
        assert rest[j] in rest;
      }
    }
  }

  lemma SameId(trips: seq<Trip>, t: Trip, u: Trip)
    requires Ordered(trips) && t in trips && u in trips && t.id == u.id
    ensures t == u
  {
    var i :| 0 <= i < |trips| && trips[i] == t;
    var j :| 0 <= j < |trips| && trips[j] == u;
  }

  lemma IdsOfFinished(trips: seq<Trip>, reading: Word)
    requires Ordered(trips)
    ensures
      var ids := Ids(Finished(trips, reading));
      && (forall t :: t in trips ==> (t.id in ids <==> IsFinished(t, reading)))
      && (forall i, j :: 0 <= i < j < |ids| ==> ids[i] < ids[j])
      && (forall id :: id in ids ==> Has(trips, id))
  {
    var gone := Finished(trips, reading);
    var ids := Ids(gone);
    FinishedAre(trips, reading);
    FinishedInOrder(trips, reading);
    forall t | t in trips
      ensures t.id in ids <==> IsFinished(t, reading)
    {
      if IsFinished(t, reading) {
        var i :| 0 <= i < |gone| && gone[i] == t;
        assert ids[i] == t.id;
      } else if t.id in ids {
        var i :| 0 <= i < |ids| && ids[i] == t.id;
        assert gone[i] in gone;
        SameId(trips, t, gone[i]);
      }
    }
    forall id | id in ids
      ensures Has(trips, id)
    {
      var i :| 0 <= i < |ids| && ids[i] == id;
      assert gone[i] in gone;
    }
  }

  predicate SameTrip(x: Trip, t: Trip) {
    x.id == t.id && x.thisTrip == t.thisTrip && x.tripDistance == t.tripDistance && x.tbf == t.tbf
  }

  /** A restart leaves distances that are up to date as they are. */
  lemma RestartKeepsTrips(b: Adapter, reading: Word, engineOk: bool)
    requires forall t :: t in b.trips ==> t.thisTrip == Measured(t, reading)
    ensures
      var trips := Restart(b, reading, engineOk).0.trips;
      |trips| == |b.trips| && forall i :: 0 <= i < |trips| ==> SameTrip(trips[i], b.trips[i])
  {
    assert forall i :: 0 <= i < |b.trips| ==> b.trips[i] in b.trips;
  }

  lemma ReportKeepsSwept(a: Adapter, reading: Word, engineOk: bool)
    ensures
      var trips, swept := Report(a, reading, engineOk).0.trips, Swept(a, reading).trips;
      |trips| == |swept| && forall i :: 0 <= i < |trips| ==> SameTrip(trips[i], swept[i])
  {
    SweptAre(a, reading);
    RestartKeepsTrips(Swept(a, reading), reading, engineOk);
  }

  lemma SurvivorIds(trips: seq<Trip>, reading: Word)
    requires Ordered(trips)
    ensures forall id :: Has(Survivors(trips, reading), id) <==> Has(trips, id) && id !in Ids(Finished(trips, reading))
  {
    var rest, ids := Survivors(trips, reading), Ids(Finished(trips, reading));
    SurvivorsAre(trips, reading);
    IdsOfFinished(trips, reading);
    forall id
      ensures Has(rest, id) <==> Has(trips, id) && id !in ids
    {
      if Has(rest, id) {
        var i :| 0 <= i < |rest| && rest[i].id == id;
        assert rest[i] in rest;
        var t :| t in trips && !IsFinished(t, reading) && rest[i] == Remeasured(t, reading);
        assert Has(trips, id) && t.id == id;
      }
      if Has(trips, id) && id !in ids {
        var i :| 0 <= i < |trips| && trips[i].id == id;
        assert trips[i] in trips;
        assert Remeasured(trips[i], reading) in rest;
      }
    }
  }

  lemma SameTrips(xs: seq<Trip>, ts: seq<Trip>)
    requires |xs| == |ts| && forall i :: 0 <= i < |xs| ==> SameTrip(xs[i], ts[i])
    ensures forall x :: x in xs ==> exists t :: t in ts && SameTrip(x, t)
    ensures forall id :: Has(xs, id) <==> Has(ts, id)
  {
    assert forall i :: 0 <= i < |xs| ==> xs[i].id == ts[i].id && ts[i] in ts;
  }

  ghost predicate Unfinished(trips: seq<Trip>) {
    forall t :: t in trips ==> t.thisTrip < t.tripDistance
  }

  lemma SweptFresh(w: World)
    requires Exact(w)
    ensures FreshAt(Swept(w.a, Counter(w)).trips, w.joined, w.odometer) && Unfinished(Swept(w.a, Counter(w)).trips)
    ensures forall x :: x in Swept(w.a, Counter(w)).trips ==>
      exists t :: t in w.a.trips && x.id == t.id && x.tripDistance == t.tripDistance
  {
    SweptAre(w.a, Counter(w));
    forall t | t in w.a.trips
      ensures Measured(t, Counter(w)) == Wrap(w.odometer - w.joined[t.id])
    {
      PlacedMeasures(t, w.joined[t.id], w.batchStart, w.odometer);
    }
  }

  lemma FinishedHaveGone(w: World)
    requires Exact(w)
    ensures forall t :: t in w.a.trips ==>
      (IsFinished(t, Counter(w)) <==> t.tripDistance <= Wrap(w.odometer - w.joined[t.id]))
  {
    forall t | t in w.a.trips
      ensures IsFinished(t, Counter(w)) <==> t.tripDistance <= Wrap(w.odometer - w.joined[t.id])
    {
      PlacedMeasures(t, w.joined[t.id], w.batchStart, w.odometer);
    }
  }

  lemma StepSweeps(w: World, engineOk: bool)
    ensures
      var v, swept := Step(w, ReportTrips(engineOk)), Swept(w.a, Counter(w)).trips;
      && v.joined == w.joined && v.odometer == w.odometer
      && |v.a.trips| == |swept| && forall i :: 0 <= i < |swept| ==> SameTrip(v.a.trips[i], swept[i])
  {
    ReportKeepsSwept(w.a, Counter(w), engineOk);
  }

  lemma SameTripsFresh(xs: seq<Trip>, ts: seq<Trip>, joined: map<nat, nat>, odometer: nat)
    requires |xs| == |ts| && forall i :: 0 <= i < |xs| ==> SameTrip(xs[i], ts[i])
    requires FreshAt(ts, joined, odometer) && Unfinished(ts)
    ensures FreshAt(xs, joined, odometer) && Unfinished(xs)
    ensures forall id :: Has(xs, id) <==> Has(ts, id)
  {
    forall x | x in xs
      ensures x.id in joined && x.thisTrip == Wrap(odometer - joined[x.id]) && x.thisTrip < x.tripDistance
    {
      var i :| 0 <= i < |xs| && xs[i] == x;
      assert SameTrip(x, ts[i]) && ts[i] in ts;
    }
    SameTrips(xs, ts);
  }

  lemma ReportLeaves(w: World, engineOk: bool)
    requires Exact(w)
    ensures
      var v, done := Step(w, ReportTrips(engineOk)), Ids(Finished(w.a.trips, Counter(w)));
      && Fresh(v) && Unfinished(v.a.trips)
      && (forall id :: Has(v.a.trips, id) <==> Has(w.a.trips, id) && id !in done)
  {
    var v := Step(w, ReportTrips(engineOk));
    SweptFresh(w);
    SurvivorIds(w.a.trips, Counter(w));
    StepSweeps(w, engineOk);
    SameTripsFresh(v.a.trips, Swept(w.a, Counter(w)).trips, w.joined, w.odometer);
  }

  lemma ReportedIds(a: Adapter, reading: Word, engineOk: bool)
    ensures Report(a, reading, engineOk).2 == Ids(Finished(a.trips, reading))
  {
  }

  /** A report completes exactly the trips that have gone their distance, in the order of their ids, and
      leaves the others with the distance they have gone. */
  lemma ReportTells(w: World, engineOk: bool)
    requires Exact(w)
    ensures
      var done := Report(w.a, Counter(w), engineOk).2;
      && (forall t :: t in w.a.trips ==> (t.id in done <==> t.tripDistance <= Wrap(w.odometer - w.joined[t.id])))
      && (forall i, j :: 0 <= i < j < |done| ==> done[i] < done[j])
      && (forall id :: id in done ==> Has(w.a.trips, id))
    ensures
      var v, done := Step(w, ReportTrips(engineOk)), Report(w.a, Counter(w), engineOk).2;
      && Fresh(v) && Unfinished(v.a.trips)
      && (forall id :: Has(v.a.trips, id) <==> Has(w.a.trips, id) && id !in done)
  {
    ReportedIds(w.a, Counter(w), engineOk);
    FinishedHaveGone(w);
    IdsOfFinished(w.a.trips, Counter(w));
    ReportLeaves(w, engineOk);
  }

  // ----- Answers -------------------------------------------------------------------------------

  /** A client whose trip begins with success may have no trip: exactly when others run and the modem did not say
      what it has counted. A client that is refused may have one: when only the restart failed. */
  lemma AnsweredIffRecorded(a: Adapter, id: nat, distance: Word, tbf: Word, query: Option<Word>, engineOk: bool)
    requires Ordered(a.trips) && !Has(a.trips, id)
    ensures
      var (b, command, success) := Begin(a, id, distance, tbf, query, engineOk);
      && (success ==> (Has(b.trips, id) <==> a.trips == [] || query.Some?))
      && (!success ==> (Has(b.trips, id) <==> a.trips != [] && query.Some?))
      && (success <==> engineOk || command == NoCommand)
  {
    var b := Begin(a, id, distance, tbf, query, engineOk).0;
    NotThere(a.trips, id);
    if a.trips != [] {
      var restart := JoinPlan(a, distance, tbf, query).1;
      var trips := if query == None then a.trips else Put(a.trips, Trip(id, query.value, 0, 0, distance, tbf));
      assert b.trips == if restart then Rebased(trips) else trips;
      assert Has(b.trips, id) <==> Has(trips, id) by {
        assert forall i :: 0 <= i < |trips| ==> Rebased(trips)[i].id == trips[i].id;
      }
      if query.Some? {
        var t := Trip(id, query.value, 0, 0, distance, tbf);
        PutAdds(a.trips, t);
        assert t in trips;
      }
    } else if engineOk {
      assert b.trips[0].id == id;
    }
  }
}
