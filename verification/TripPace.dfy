/** When the modem reports to the trips of gps/batching/BatchingAdapter.cpp, and how often it locates: laws
    about the batch that the commands make it run. */
module TripPace {
  import opened Wrappers
  import opened TripModel
  import opened TripProperties

  /** No trip's goal is reached before the odometer shows `odometer`. */
  ghost predicate GoalsBeyond(trips: seq<Trip>, joined: map<nat, nat>, odometer: nat) {
    forall t :: t in trips ==> t.id in joined && odometer <= joined[t.id] + t.tripDistance
  }

  /** The modem runs a batch for the trips, and reports when it has counted its distance: not later than any trip's
      goal. */
  ghost predicate Timely(w: World) {
    w.a.trips != [] ==>
      w.batch.Some? && GoalsBeyond(w.a.trips, w.joined, w.batchStart + w.batch.value.distance)
  }

  /** The adapter knows what batch the modem runs for its trips. */
  predicate Agrees(w: World) {
    w.a.trips != [] ==> w.batch == Some(Batch(w.a.distance, w.a.tbf))
  }

  /** The distance a join gives the batch. */
  function JoinDistance(w: World, e: Event): Word
    requires e.BeginTrip?
  {
    JoinPlan(w.a, e.distance, e.tbf, if e.queryOk then Some(Counter(w)) else None).0
  }

  /** A join whose restart fails leaves the adapter with a batch that the modem does not run; no other step does. */
  lemma StepAgreesIff(w: World, e: Event)
    requires Agrees(w) && Enabled(w, e)
    ensures
      Agrees(Step(w, e)) <==>
      (Forced(w, e) && !e.engineOk ==> e.tbf >= w.a.tbf && JoinDistance(w, e) == w.a.distance)
  {
    match e
    case Move(_) =>
    case BeginTrip(_, _, _, _, _) =>
      BeginAgreesIff(w, e);
    case ReportTrips(engineOk) =>
      ReportSteps(w, engineOk);
      RestartAgrees(w.(a := Swept(w.a, Counter(w))), engineOk);
    case StopTrip(id, engineOk) =>
      StopSteps(w, id, engineOk);
      RestartAgrees(w.(a := Stopped(w.a, id)), engineOk);
  }

  lemma RestartAgrees(w: World, engineOk: bool)
    requires Agrees(w)
    ensures Agrees(After(w, Restart(w.a, Counter(w), engineOk), engineOk))
  {
  }

  lemma BeginAgreesIff(w: World, e: Event)
    requires Agrees(w) && Enabled(w, e) && e.BeginTrip?
    ensures
      Agrees(Step(w, e)) <==>
      (Forced(w, e) && !e.engineOk ==> e.tbf >= w.a.tbf && JoinDistance(w, e) == w.a.distance)
  {
    if e.queryOk {
      PutSome(w.a.trips, Trip(e.id, Counter(w), 0, 0, e.distance, e.tbf));
    }
  }

  lemma PutSome(trips: seq<Trip>, t: Trip)
    ensures Put(trips, t) != []
  {
  }

  /** When the modem has lost its batch, a restart of the sessions that it answers with success makes it run the batch
      that the adapter knows. */
  lemma RestartedSessionsAgree(w: World)
    ensures Agrees(After(w, RestartSessions(w.a, true), true))
  {
  }

  /** Nothing has wrapped around, and no trip's goal is beyond 2^32. */
  ghost predicate InRange(w: World) {
    w.odometer < WORDS && forall t :: t in w.a.trips ==> w.odometer + t.tripDistance < WORDS
  }

  predicate SameGoal(x: Trip, t: Trip) {
    x.id == t.id && x.tripDistance == t.tripDistance
  }

  lemma RestartKeepsGoals(b: Adapter, reading: Word, engineOk: bool)
    ensures
      var trips := Restart(b, reading, engineOk).0.trips;
      |trips| == |b.trips| && forall i :: 0 <= i < |trips| ==> SameGoal(trips[i], b.trips[i])
  {
  }

  /** From `reading` on, a batch of distance `d` ends before any trip's goal is passed. */
  ghost predicate FitsAll(trips: seq<Trip>, d: Word, reading: Word) {
    forall t :: t in trips ==> d + Measured(t, reading) <= t.tripDistance
  }

  lemma FitsIffGoalsBeyond(w: World, trips: seq<Trip>, d: Word)
    requires AllPlaced(trips, w.joined, w.batchStart) && w.odometer < WORDS
    requires forall t :: t in trips ==> w.joined[t.id] <= w.odometer
    ensures GoalsBeyond(trips, w.joined, w.odometer + d) <==> FitsAll(trips, d, Counter(w))
  {
    forall t | t in trips
      ensures Measured(t, Counter(w)) == w.odometer - w.joined[t.id]
    {
      PlacedMeasures(t, w.joined[t.id], w.batchStart, w.odometer);
    }
  }

  lemma SameGoals(xs: seq<Trip>, ts: seq<Trip>, joined: map<nat, nat>, odometer: nat)
    requires |xs| == |ts| && forall i :: 0 <= i < |xs| ==> SameGoal(xs[i], ts[i])
    ensures GoalsBeyond(xs, joined, odometer) <==> GoalsBeyond(ts, joined, odometer)
  {
    assert forall i :: 0 <= i < |xs| ==> xs[i] in xs && ts[i] in ts && SameGoal(xs[i], ts[i]);
  }

  lemma RestartState(b: Adapter, reading: Word)
    requires b.trips != [] && (ByDistance(b, reading) || ByInterval(b))
    ensures
      var (c, command) := Restart(b, reading, true);
      && command == RestartBatch(NewDistance(b, reading), NewInterval(b))
      && c.distance == NewDistance(b, reading) && c.tbf == NewInterval(b)
      && c.tbfDropped == b.tbfDropped && c.distanceDropped == b.distanceDropped
  {
  }

  lemma TimelyFromReset(w: World, r: (Adapter, Command))
    requires r.1.RestartBatch? && r.0.trips != []
    ensures Timely(After(w, r, true)) <==> GoalsBeyond(r.0.trips, w.joined, w.odometer + r.1.distance)
  {
  }

  lemma RestartGoals(w: World, b: Adapter, reading: Word)
    requires b.trips != [] && (ByDistance(b, reading) || ByInterval(b))
    ensures
      Timely(After(w, Restart(b, reading, true), true)) <==>
      GoalsBeyond(b.trips, w.joined, w.odometer + NewDistance(b, reading))
  {
    var r := Restart(b, reading, true);
    RestartState(b, reading);
    RestartKeepsGoals(b, reading, true);
    TimelyFromReset(w, r);
    SameGoals(r.0.trips, b.trips, w.joined, w.odometer + NewDistance(b, reading));
  }

  /** If restartTripBatching restarts the batch, its new distance fits all trips. */
  ghost predicate RestartFits(b: Adapter, reading: Word) {
    b.trips != [] && (ByDistance(b, reading) || ByInterval(b)) ==> FitsAll(b.trips, NewDistance(b, reading), reading)
  }

  /** A restart leaves the modem reporting in time if and only if its distance, which may come from distances that
      are out of date or from the old batch, fits what the trips have really left. */
  lemma RestartTimelyIff(w: World)
    requires Exact(w) && Timely(w) && w.odometer < WORDS
    ensures Timely(After(w, Restart(w.a, Counter(w), true), true)) <==> RestartFits(w.a, Counter(w))
  {
    var c := Counter(w);
    if w.a.trips != [] && (ByDistance(w.a, c) || ByInterval(w.a)) {
      RestartGoals(w, w.a, c);
      FitsIffGoalsBeyond(w, w.a.trips, NewDistance(w.a, c));
    }
  }

  lemma FewerAreTimely(w: World, a: Adapter)
    requires Timely(w)
    requires forall x :: x in a.trips ==> exists t :: t in w.a.trips && x.id == t.id && x.tripDistance == t.tripDistance
    ensures Timely(w.(a := a))
  {
    if a.trips != [] {
      assert a.trips[0] in a.trips;
    }
  }

  /** A successful stop leaves the modem reporting in time if and only if the restart it causes, if any, fits. */
  lemma StopTimelyIff(w: World, id: nat)
    requires Exact(w) && Timely(w) && w.odometer < WORDS && Has(w.a.trips, id)
    ensures Timely(Step(w, StopTrip(id, true))) <==> RestartFits(Stopped(w.a, id), Counter(w))
  {
    StoppedFits(w, id);
    StopGoesOn(w, id);
  }

  lemma StoppedFits(w: World, id: nat)
    requires Exact(w) && Timely(w) && w.odometer < WORDS && Has(w.a.trips, id)
    ensures
      var v := w.(a := Stopped(w.a, id));
      Timely(After(v, Restart(v.a, Counter(w), true), true)) <==> RestartFits(v.a, Counter(w))
  {
    var v := w.(a := Stopped(w.a, id));
    assert Counter(v) == Counter(w);
    StoppedExact(w, id);
    StoppedTimely(w, id);
    RestartTimelyIff(v);
  }

  /** For the modem's report a stop is a restart of what is left; with no trip left nothing can be late. */
  lemma StopGoesOn(w: World, id: nat)
    requires Has(w.a.trips, id)
    ensures
      var v := w.(a := Stopped(w.a, id));
      Timely(Step(w, StopTrip(id, true))) <==> Timely(After(v, Restart(v.a, Counter(w), true), true))
  {
    StopSteps(w, id, true);
  }

  lemma StoppedTimely(w: World, id: nat)
    requires Exact(w) && Timely(w) && Has(w.a.trips, id)
    ensures Timely(w.(a := Stopped(w.a, id)))
  {
    EraseRemoves(w.a.trips, id);
    FewerAreTimely(w, Stopped(w.a, id));
  }

  /** With distances up to date a restart fits unless it is for the interval alone and the distance of the old
      batch, which is sent again in full, exceeds what is left of some trip. */
  lemma UpToDateFitsIff(b: Adapter, reading: Word)
    requires b.trips != [] && UpToDate(b.trips, reading) && Unfinished(b.trips)
    ensures
      RestartFits(b, reading) <==>
      !(ByInterval(b) && !ByDistance(b, reading) && LoopMin(Remainings(b.trips)) < b.distance)
  {
    LeastRemaining(b.trips);
  }

  lemma FailedStopTimely(w: World, id: nat)
    requires Exact(w) && Timely(w) && Has(w.a.trips, id)
    ensures Timely(Step(w, StopTrip(id, false)))
  {
    var v := w.(a := Stopped(w.a, id));
    StoppedTimely(w, id);
    StopSteps(w, id, false);
    FailedRestart(v);
  }

  lemma FailedRestart(v: World)
    ensures
      var u := After(v, Restart(v.a, Counter(v), false), false);
      v.a.trips != [] ==> u == v
  {
  }

  lemma CompleteMeansCounted(w: World)
    requires Exact(w) && Timely(w) && w.odometer < WORDS && Finished(w.a.trips, Counter(w)) != []
    ensures w.a.trips != [] && w.batchStart + w.batch.value.distance <= w.odometer
  {
    var t := Finished(w.a.trips, Counter(w))[0];
    FinishedAre(w.a.trips, Counter(w));
    FinishedHaveGone(w);
    GoneInRange(t, w.joined[t.id], w.odometer);
  }

  lemma GoneInRange(t: Trip, joined: nat, odometer: nat)
    requires joined <= odometer < WORDS && t.tripDistance <= Wrap(odometer - joined)
    ensures joined + t.tripDistance <= odometer
  {
  }

  lemma NearestInRange(w: World, trips: seq<Trip>)
    requires InRange(w) && trips != [] && Unfinished(trips)
    requires forall x :: x in trips ==> exists t :: t in w.a.trips && x.tripDistance == t.tripDistance
    ensures 0 < LoopMin(Remainings(trips)) && w.odometer + LoopMin(Remainings(trips)) < WORDS
  {
    LeastRemaining(trips);
  }

  lemma PassedRestarts(b: Adapter, batchStart: nat, odometer: nat)
    requires batchStart + b.distance <= odometer
    requires 0 < LoopMin(Remainings(b.trips)) && odometer + LoopMin(Remainings(b.trips)) < WORDS
    ensures ByDistance(b, Wrap(odometer - batchStart))
  {
    var c, d := odometer - batchStart, b.distance;
    assert Minus(d, c) == if d == c then 0 else d - c + WORDS;
  }

  /** When a trip in time is complete, the batch has run its distance, and a restart is for the distance. */
  lemma SweptByDistance(w: World)
    requires Exact(w) && Agrees(w) && Timely(w) && InRange(w)
    requires Finished(w.a.trips, Counter(w)) != [] && Swept(w.a, Counter(w)).trips != []
    ensures ByDistance(Swept(w.a, Counter(w)), Counter(w))
  {
    var least := LoopMin(Remainings(Swept(w.a, Counter(w)).trips));
    assert 0 < least && w.odometer + least < WORDS by {
      SweptFresh(w);
      NearestInRange(w, Swept(w.a, Counter(w)).trips);
    }
    CompleteMeansCounted(w);
    PassedRestarts(Swept(w.a, Counter(w)), w.batchStart, w.odometer);
  }

  /** A report in time is followed by a restart that fits. */
  lemma ReportFits(w: World)
    requires Exact(w) && Agrees(w) && Timely(w) && InRange(w) && Finished(w.a.trips, Counter(w)) != []
    ensures RestartFits(Swept(w.a, Counter(w)), Counter(w))
  {
    var b := Swept(w.a, Counter(w));
    SweptAre(w.a, Counter(w));
    if b.trips != [] {
      SweptByDistance(w);
      UpToDateFitsIff(b, Counter(w));
    }
  }

  lemma SweptTimely(w: World)
    requires Exact(w) && Timely(w)
    ensures Timely(w.(a := Swept(w.a, Counter(w))))
  {
    SweptFresh(w);
    FewerAreTimely(w, Swept(w.a, Counter(w)));
  }

  lemma ReportTimelyIff(w: World)
    requires Exact(w) && Timely(w) && w.odometer < WORDS
    ensures
      Timely(Step(w, ReportTrips(true))) <==>
      (Finished(w.a.trips, Counter(w)) != [] ==> RestartFits(Swept(w.a, Counter(w)), Counter(w)))
  {
    SweptTimely(w);
    SweptFits(w);
    ReportSteps(w, true);
  }

  lemma SweptFits(w: World)
    requires Exact(w) && Timely(w) && w.odometer < WORDS
    ensures
      var v := w.(a := Swept(w.a, Counter(w)));
      Timely(After(v, Restart(v.a, Counter(w), true), true)) <==> RestartFits(v.a, Counter(w))
  {
    var v := w.(a := Swept(w.a, Counter(w)));
    assert Counter(v) == Counter(w);
    SweptExact(w);
    SweptTimely(w);
    RestartTimelyIff(v);
  }

  lemma FailedReportTimely(w: World)
    requires Exact(w) && Timely(w)
    ensures Timely(Step(w, ReportTrips(false)))
  {
    SweptTimely(w);
    ReportSteps(w, false);
    FailedRestart(w.(a := Swept(w.a, Counter(w))));
  }

  lemma NewGoal(w: World, distance: Word, tbf: Word)
    requires w.batchStart <= w.odometer < WORDS
    ensures
      var (d, restart) := JoinPlan(w.a, distance, tbf, Some(Counter(w)));
      && (!restart ==> d == w.a.distance && w.batchStart + d <= w.odometer + distance)
      && (restart ==> d <= distance)
  {
  }

  lemma JoinTimely(w: World, e: Event)
    requires Exact(w) && Agrees(w) && Timely(w) && w.odometer < WORDS
    requires Enabled(w, e) && e.BeginTrip? && w.a.trips != [] && !Forced(w, e)
    ensures Timely(Step(w, e))
  {
    JoinedAre(w, e);
    NewGoal(w, e.distance, e.tbf);
    assert Step(w, e).a.trips == Joined(w, e);
  }

  lemma JoinedGoals(w: World, e: Event, joined: map<nat, nat>)
    requires Exact(w) && Enabled(w, e) && Forced(w, e) && w.odometer < WORDS
    requires joined == if e.queryOk then w.joined[e.id := w.odometer] else w.joined
    ensures
      GoalsBeyond(Joined(w, e), joined, w.odometer + JoinDistance(w, e)) <==>
      GoalsBeyond(w.a.trips, w.joined, w.odometer + JoinDistance(w, e))
  {
    JoinedAre(w, e);
    NewGoal(w, e.distance, e.tbf);
  }

  lemma RebasedGoals(trips: seq<Trip>, joined: map<nat, nat>, odometer: nat)
    ensures GoalsBeyond(Rebased(trips), joined, odometer) <==> GoalsBeyond(trips, joined, odometer)
  {
    SameGoals(Rebased(trips), trips, joined, odometer);
  }

  /** A join that restarts the batch leaves the modem reporting in time if and only if the new distance fits the
      trips that were there. */
  lemma ForcedJoinTimelyIff(w: World, e: Event)
    requires Exact(w) && Enabled(w, e) && Forced(w, e) && e.engineOk && w.odometer < WORDS
    ensures Timely(Step(w, e)) <==> FitsAll(w.a.trips, JoinDistance(w, e), Counter(w))
  {
    var v, d := Step(w, e), JoinDistance(w, e);
    ForcedJoinState(w, e);
    assert v.a.distance == d;
    RebasedGoals(Joined(w, e), v.joined, w.odometer + d);
    JoinedGoals(w, e, v.joined);
    FitsIffGoalsBeyond(w, w.a.trips, d);
  }

  /** Any restart of the batch in this step fits the trips. */
  ghost predicate KeepsPace(w: World, e: Event)
    requires Enabled(w, e)
  {
    match e
    case Move(_) => true
    case BeginTrip(_, _, _, _, _) => Forced(w, e) ==> FitsAll(w.a.trips, JoinDistance(w, e), Counter(w))
    case ReportTrips(engineOk) =>
      engineOk && Finished(w.a.trips, Counter(w)) != [] ==> RestartFits(Swept(w.a, Counter(w)), Counter(w))
    case StopTrip(id, engineOk) => engineOk ==> RestartFits(Stopped(w.a, id), Counter(w))
  }

  lemma FirstTimely(w: World, e: Event)
    requires Timely(w) && Enabled(w, e) && e.BeginTrip? && w.a.trips == []
    ensures Timely(Step(w, e))
  {
  }

  /** Exactly the steps whose restarts fit leave the modem reporting in time. */
  lemma StepTimelyIff(w: World, e: Event)
    requires Exact(w) && Agrees(w) && Timely(w) && Orderly(w, e) && w.odometer < WORDS
    ensures Timely(Step(w, e)) <==> KeepsPace(w, e)
  {
    match e
    case Move(_) =>
    case BeginTrip(_, _, _, _, _) =>
      if w.a.trips == [] {
        FirstTimely(w, e);
      } else if Forced(w, e) {
        ForcedJoinTimelyIff(w, e);
      } else {
        JoinTimely(w, e);
      }
    case ReportTrips(engineOk) =>
      if engineOk {
        ReportTimelyIff(w);
      } else {
        FailedReportTimely(w);
      }
    case StopTrip(id, engineOk) =>
      if engineOk {
        StopTimelyIff(w, id);
      } else {
        FailedStopTimely(w, id);
      }
  }

  /** What is left after the stop needs no restart, or its distances are up to date and the restart is not one that
      sends too long an old distance for the interval alone. */
  ghost predicate PromptStop(a: Adapter, id: nat, reading: Word)
    requires Has(a.trips, id)
  {
    var b := Stopped(a, id);
    || b.trips == []
    || (!ByDistance(b, reading) && !ByInterval(b))
    || (UpToDate(b.trips, reading) && Unfinished(b.trips)
        && !(ByInterval(b) && !ByDistance(b, reading) && LoopMin(Remainings(b.trips)) < b.distance))
  }

  /** Reports come before anything nears 2^32; a join restarts a batch that is still running, and whose counter the
      modem tells; stops are prompt. */
  ghost predicate Prompt(w: World, e: Event) {
    && Orderly(w, e) && w.odometer < WORDS
    && (e.ReportTrips? ==> InRange(w))
    && (Forced(w, e) ==> e.queryOk && w.odometer - w.batchStart <= w.a.distance)
    && (e.StopTrip? && e.engineOk ==> PromptStop(w.a, e.id, Counter(w)))
  }

  lemma PromptJoinFits(w: World, e: Event)
    requires Exact(w) && Agrees(w) && Timely(w) && Prompt(w, e) && Forced(w, e)
    ensures FitsAll(w.a.trips, JoinDistance(w, e), Counter(w))
  {
    assert w.odometer + JoinDistance(w, e) <= w.batchStart + w.a.distance;
    FitsIffGoalsBeyond(w, w.a.trips, JoinDistance(w, e));
  }

  lemma PromptStopFits(a: Adapter, id: nat, reading: Word)
    requires Has(a.trips, id) && PromptStop(a, id, reading)
    ensures RestartFits(Stopped(a, id), reading)
  {
    var b := Stopped(a, id);
    if b.trips != [] && (ByDistance(b, reading) || ByInterval(b)) {
      UpToDateFitsIff(b, reading);
    }
  }

  lemma PromptKeepsPace(w: World, e: Event)
    requires Exact(w) && Agrees(w) && Timely(w) && Prompt(w, e)
    ensures KeepsPace(w, e)
  {
    match e
    case Move(_) =>
    case BeginTrip(_, _, _, _, _) =>
      if Forced(w, e) {
        PromptJoinFits(w, e);
      }
    case ReportTrips(_) =>
      if Finished(w.a.trips, Counter(w)) != [] {
        ReportFits(w);
      }
    case StopTrip(id, engineOk) =>
      if engineOk {
        PromptStopFits(w.a, id, Counter(w));
      }
  }

  ghost predicate PromptRun(w: World, es: seq<Event>)
    decreases |es|
  {
    es == [] || (Prompt(w, es[0]) && PromptRun(Step(w, es[0]), es[1..]))
  }

  lemma {:induction false} RunKeepsTimely(w: World, es: seq<Event>)
    requires Exact(w) && Agrees(w) && Timely(w) && PromptRun(w, es)
    ensures Possible(w, es) && Exact(RunOf(w, es)) && Agrees(RunOf(w, es)) && Timely(RunOf(w, es))
    decreases |es|
  {
    if es != [] {
      StepKeepsExact(w, es[0]);
      StepAgreesIff(w, es[0]);
      PromptKeepsPace(w, es[0]);
      StepTimelyIff(w, es[0]);
      RunKeepsTimely(Step(w, es[0]), es[1..]);
    }
  }

  /** In such runs the batch ends before any trip's goal is passed: as long as the modem has not counted the
      batch's distance, no trip is complete. */
  lemma TimelyInEveryRun(es: seq<Event>)
    requires PromptRun(START, es)
    ensures Possible(START, es) && Timely(RunOf(START, es)) && Agrees(RunOf(START, es))
    ensures
      var w := RunOf(START, es);
      && (w.a.trips != [] ==> w.batch.Some?)
      && (w.a.trips != [] && w.odometer < WORDS && w.odometer < w.batchStart + w.batch.value.distance ==>
          Finished(w.a.trips, Counter(w)) == [])
  {
    RunKeepsTimely(START, es);
    var w := RunOf(START, es);
    if w.odometer < WORDS && Finished(w.a.trips, Counter(w)) != [] {
      CompleteMeansCounted(w);
    }
  }
}
