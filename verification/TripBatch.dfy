/** What the batch that the modem runs is made of, for the trips of gps/batching/BatchingAdapter.cpp: the interval
    is the shortest that a trip asks for, and the distance leads to the nearest goal. */
module TripBatch {
  import opened Wrappers
  import opened TripModel
  import opened TripProperties
  import opened TripPace

  // ----- The interval --------------------------------------------------------------------------

  ghost predicate AtMost(tbf: Word, trips: seq<Trip>) {
    forall t :: t in trips ==> tbf <= t.tbf
  }

  ghost predicate Asked(tbf: Word, trips: seq<Trip>) {
    exists t :: t in trips && t.tbf == tbf
  }

  ghost predicate AllPositive(trips: seq<Trip>) {
    forall t :: t in trips ==> 0 < t.tbf
  }

  /** No trip asks for a shorter interval, and if none asks for this one, a trip that did has gone. */
  ghost predicate Often(a: Adapter) {
    a.trips != [] ==>
      AllPositive(a.trips) && AtMost(a.tbf, a.trips) && (a.tbfDropped || Asked(a.tbf, a.trips))
  }

  /** The interval is the shortest that a trip asks for. */
  ghost predicate Shortest(a: Adapter) {
    a.trips != [] ==> AllPositive(a.trips) && AtMost(a.tbf, a.trips) && Asked(a.tbf, a.trips)
  }

  lemma ShortestInterval(trips: seq<Trip>)
    requires trips != [] && AllPositive(trips)
    ensures AtMost(LoopMin(Intervals(trips)), trips) && Asked(LoopMin(Intervals(trips)), trips)
  {
    var ws := Intervals(trips);
    assert forall i :: 0 <= i < |ws| ==> ws[i] == trips[i].tbf && trips[i] in trips;
    LoopMinIff(ws);
    var k :| 0 <= k < |ws| && ws[k] == LoopMin(ws);
    assert trips[k] in trips;
    forall t | t in trips
      ensures LoopMin(ws) <= t.tbf
    {
      var i :| 0 <= i < |trips| && trips[i] == t;
      assert ws[i] in ws;
    }
  }

  predicate SameIntervals(xs: seq<Trip>, ts: seq<Trip>) {
    |xs| == |ts| && forall i :: 0 <= i < |xs| ==> xs[i].id == ts[i].id && xs[i].tbf == ts[i].tbf
  }

  lemma SameIntervalsAre(xs: seq<Trip>, ts: seq<Trip>, tbf: Word)
    requires SameIntervals(xs, ts)
    ensures AllPositive(xs) <==> AllPositive(ts)
    ensures AtMost(tbf, xs) <==> AtMost(tbf, ts)
    ensures Asked(tbf, xs) <==> Asked(tbf, ts)
  {
    assert forall i :: 0 <= i < |xs| ==> xs[i] in xs && ts[i] in ts && xs[i].tbf == ts[i].tbf;
  }

  /** A restart mends an interval for which a trip that has gone asked. */
  lemma RestartOften(a: Adapter, reading: Word, engineOk: bool)
    requires Often(a)
    ensures
      var b := Restart(a, reading, engineOk).0;
      && Often(b) && (engineOk || Shortest(a) ==> Shortest(b))
      && b.tbfDropped == a.tbfDropped
  {
    if a.trips != [] {
      var b := Restart(a, reading, engineOk).0;
      ShortestInterval(a.trips);
      SameIntervalsAre(b.trips, a.trips, b.tbf);
    }
  }

  lemma SweptOften(a: Adapter, reading: Word)
    requires Often(a)
    ensures Often(Swept(a, reading))
    ensures Shortest(a) && Finished(a.trips, reading) == [] ==> Shortest(Swept(a, reading))
  {
    var b := Swept(a, reading);
    SweptAre(a, reading);
    FinishedAre(a.trips, reading);
    if a.trips != [] && Asked(a.tbf, a.trips) {
      var t :| t in a.trips && t.tbf == a.tbf;
      if IsFinished(t, reading) {
        assert t in Finished(a.trips, reading);
        assert b.tbfDropped;
      } else {
        assert Remeasured(t, reading) in b.trips;
      }
    }
  }

  lemma StoppedOften(a: Adapter, id: nat)
    requires Often(a) && Ordered(a.trips) && Has(a.trips, id)
    ensures Often(Stopped(a, id))
  {
    var b, u := Stopped(a, id), Find(a.trips, id);
    EraseRemoves(a.trips, id);
    if Asked(a.tbf, a.trips) {
      var t :| t in a.trips && t.tbf == a.tbf;
      if t.id == id {
        SameId(a.trips, t, u);
      } else {
        assert t in b.trips;
      }
    }
  }

  /** A trip asks for a positive interval, and the modem tells its counter to a trip that joins others. */
  predicate Steady(w: World, e: Event) {
    e.BeginTrip? ==> e.tbf > 0 && (w.a.trips == [] || e.queryOk)
  }

  lemma BeginOften(w: World, e: Event)
    requires Often(w.a) && Ordered(w.a.trips) && Enabled(w, e) && Steady(w, e) && e.BeginTrip?
    ensures Often(Step(w, e).a) && (Shortest(w.a) ==> Shortest(Step(w, e).a))
  {
    var v, t := Step(w, e), Trip(e.id, Counter(w), 0, 0, e.distance, e.tbf);
    if w.a.trips == [] {
      if e.engineOk {
        assert v.a.trips[0] in v.a.trips;
      }
    } else {
      NotThere(w.a.trips, e.id);
      PutAdds(w.a.trips, t);
      var joined := Put(w.a.trips, t);
      assert SameIntervals(v.a.trips, joined);
      assert v.a.tbf == if e.tbf < w.a.tbf then e.tbf else w.a.tbf;
      JoinedOften(w.a, joined, t, v.a.tbf);
      SameIntervalsAre(v.a.trips, joined, v.a.tbf);
    }
  }

  lemma JoinedOften(a: Adapter, joined: seq<Trip>, t: Trip, tbf: Word)
    requires a.trips != [] && Often(a) && t.tbf > 0 && tbf == if t.tbf < a.tbf then t.tbf else a.tbf
    requires forall x :: x in joined <==> x in a.trips || x == t
    ensures AllPositive(joined) && AtMost(tbf, joined) && (a.tbfDropped || Asked(tbf, joined))
    ensures Shortest(a) ==> Asked(tbf, joined)
  {
    if Asked(a.tbf, a.trips) {
      var u :| u in a.trips && u.tbf == a.tbf;
      assert t in joined && u in joined;
    }
  }

  predicate Answered(e: Event) {
    e.Move? || e.engineOk
  }

  lemma StepOften(w: World, e: Event)
    requires Often(w.a) && Ordered(w.a.trips) && Enabled(w, e) && Steady(w, e)
    ensures Often(Step(w, e).a)
    ensures Shortest(w.a) && Answered(e) ==> Shortest(Step(w, e).a)
  {
    match e
    case Move(_) =>
    case BeginTrip(_, _, _, _, _) => BeginOften(w, e);
    case ReportTrips(engineOk) =>
      SweptOften(w.a, Counter(w));
      ReportSteps(w, engineOk);
      RestartOften(Swept(w.a, Counter(w)), Counter(w), engineOk);
    case StopTrip(id, engineOk) =>
      StoppedOften(w.a, id);
      StopSteps(w, id, engineOk);
      RestartOften(Stopped(w.a, id), Counter(w), engineOk);
  }

  lemma SameIdsOrdered(xs: seq<Trip>, ts: seq<Trip>)
    requires Ordered(ts) && |xs| == |ts| && forall i :: 0 <= i < |xs| ==> SameGoal(xs[i], ts[i])
    ensures Ordered(xs)
  {
  }

  lemma RestartKeepsOrder(w: World, engineOk: bool)
    requires Ordered(w.a.trips)
    ensures Ordered(After(w, Restart(w.a, Counter(w), engineOk), engineOk).a.trips)
  {
    RestartKeepsGoals(w.a, Counter(w), engineOk);
    SameIdsOrdered(Restart(w.a, Counter(w), engineOk).0.trips, w.a.trips);
  }

  lemma BeginKeepsOrder(w: World, e: Event)
    requires Ordered(w.a.trips) && Enabled(w, e) && e.BeginTrip?
    ensures Ordered(Step(w, e).a.trips)
  {
    if w.a.trips != [] {
      BeginState(w, e);
      JoinedAre(w, e);
      RebasedAre(Joined(w, e));
    }
  }

  lemma StepKeepsOrder(w: World, e: Event)
    requires Ordered(w.a.trips) && Enabled(w, e)
    ensures Ordered(Step(w, e).a.trips)
  {
    match e
    case Move(_) =>
    case BeginTrip(_, _, _, _, _) => BeginKeepsOrder(w, e);
    case ReportTrips(engineOk) =>
      SurvivorsInOrder(w.a.trips, Counter(w));
      ReportSteps(w, engineOk);
      RestartKeepsOrder(w.(a := Swept(w.a, Counter(w))), engineOk);
    case StopTrip(id, engineOk) =>
      EraseRemoves(w.a.trips, id);
      StopSteps(w, id, engineOk);
      RestartKeepsOrder(w.(a := Stopped(w.a, id)), engineOk);
  }

  /** Steps that are steady; a join's restart succeeds. */
  predicate SteadyRun(w: World, es: seq<Event>)
    decreases |es|
  {
    es == [] || (Enabled(w, es[0]) && Steady(w, es[0]) && (Forced(w, es[0]) ==> es[0].engineOk)
                 && SteadyRun(Step(w, es[0]), es[1..]))
  }

  predicate AllAnswered(es: seq<Event>) {
    forall i :: 0 <= i < |es| ==> Answered(es[i])
  }

  lemma {:induction false} RunKeepsOften(w: World, es: seq<Event>)
    requires Ordered(w.a.trips) && Agrees(w) && Often(w.a) && SteadyRun(w, es)
    ensures Possible(w, es) && Agrees(RunOf(w, es)) && Often(RunOf(w, es).a)
    ensures Shortest(w.a) && AllAnswered(es) ==> Shortest(RunOf(w, es).a)
    decreases |es|
  {
    if es != [] {
      var e := es[0];
      StepKeepsOrder(w, e);
      StepAgreesIff(w, e);
      StepOften(w, e);
      RunKeepsOften(Step(w, e), es[1..]);
      assert AllAnswered(es) ==> Answered(es[0]) && AllAnswered(es[1..]);
    }
  }

  /** After a successful restart the interval is the shortest if and only if a trip asks for the old interval or a
      shorter one, or a trip that asked for the batch's has gone. Otherwise the old one stays, though no trip asks for
      it: it came with a trip that was not recorded. */
  lemma RestartShortestIff(a: Adapter, reading: Word)
    requires a.trips != [] && AllPositive(a.trips)
    ensures
      var b := Restart(a, reading, true).0;
      && (Shortest(b) <==> a.tbfDropped || exists t :: t in a.trips && t.tbf <= a.tbf)
      && (!Shortest(b) ==> b.tbf == a.tbf)
  {
    var b := Restart(a, reading, true).0;
    ShortestInterval(a.trips);
    SameIntervalsAre(b.trips, a.trips, b.tbf);
  }

  /** Without trips the adapter has no batch in mind. */
  predicate Cleared(a: Adapter) {
    a.trips == [] ==> a.distance == 0 && a.tbf == 0
  }

  /** Without trips the modem has no batch. */
  predicate Idle(w: World) {
    w.a.trips == [] ==> w.batch == None
  }

  lemma StepClears(w: World, e: Event)
    requires Cleared(w.a) && Enabled(w, e)
    ensures Cleared(Step(w, e).a)
    ensures Idle(w) && Answered(e) ==> Idle(Step(w, e))
  {
    match e
    case Move(_) =>
    case BeginTrip(_, _, _, _, _) => BeginClears(w, e);
    case ReportTrips(engineOk) =>
      var v := w.(a := Swept(w.a, Counter(w)));
      ReportSteps(w, engineOk);
      RestartClears(v, engineOk);
      if w.a.trips != [] && v.a.trips == [] {
        AllGone(w.a.trips, Counter(w));
      }
    case StopTrip(id, engineOk) =>
      StopSteps(w, id, engineOk);
      RestartClears(w.(a := Stopped(w.a, id)), engineOk);
  }

  lemma AllGone(trips: seq<Trip>, reading: Word)
    requires trips != [] && Survivors(trips, reading) == []
    ensures Finished(trips, reading) != []
  {
    SurvivorsAre(trips, reading);
    FinishedAre(trips, reading);
    assert trips[0] in trips;
    assert !IsFinished(trips[0], reading) ==> Remeasured(trips[0], reading) in Survivors(trips, reading);
  }

  lemma RestartClears(v: World, engineOk: bool)
    ensures
      var u := After(v, Restart(v.a, Counter(v), engineOk), engineOk);
      u.a.trips == [] ==> Cleared(u.a) && v.a.trips == [] && (engineOk ==> u.batch == None)
  {
  }

  lemma BeginClears(w: World, e: Event)
    requires Cleared(w.a) && Enabled(w, e) && e.BeginTrip?
    ensures Cleared(Step(w, e).a)
    ensures Idle(w) && Answered(e) ==> Idle(Step(w, e))
  {
    if w.a.trips != [] && e.queryOk {
      PutSome(w.a.trips, Trip(e.id, Counter(w), 0, 0, e.distance, e.tbf));
    }
  }

  lemma {:induction false} RunClears(w: World, es: seq<Event>)
    requires Cleared(w.a) && Possible(w, es)
    ensures Cleared(RunOf(w, es).a)
    ensures Idle(w) && AllAnswered(es) ==> Idle(RunOf(w, es))
    decreases |es|
  {
    if es != [] {
      StepClears(w, es[0]);
      RunClears(Step(w, es[0]), es[1..]);
      assert AllAnswered(es) ==> Answered(es[0]) && AllAnswered(es[1..]);
    }
  }

  /** In every run, when no trip is left the adapter has no batch in mind, and the modem runs none if it has answered
      with success. */
  lemma NoTripsNoBatch(es: seq<Event>)
    requires Possible(START, es) && RunOf(START, es).a.trips == []
    ensures
      var w := RunOf(START, es);
      w.a.distance == 0 && w.a.tbf == 0 && (AllAnswered(es) ==> w.batch == None)
  {
    RunClears(START, es);
  }

  /** In every run the modem's interval is at most that of any trip; it is the shortest of theirs if the modem has
      answered every start and restart with success. */
  lemma IntervalInEveryRun(es: seq<Event>)
    requires SteadyRun(START, es)
    ensures
      && Possible(START, es)
      && var w := RunOf(START, es);
         w.a.trips != [] ==>
           && w.batch.Some? && AtMost(w.batch.value.tbf, w.a.trips)
           && (AllAnswered(es) ==> Asked(w.batch.value.tbf, w.a.trips))
  {
    RunKeepsOften(START, es);
  }

  // ----- The marks -----------------------------------------------------------------------------

  /** A trip that asks for the batch's distance is there in `w` and has gone in `v`. */
  ghost predicate DistanceGoes(w: World, v: World) {
    w.batch.Some? && exists t :: t in w.a.trips && !Has(v.a.trips, t.id) && t.tripDistance == w.batch.value.distance
  }

  ghost predicate IntervalGoes(w: World, v: World) {
    w.batch.Some? && exists t :: t in w.a.trips && !Has(v.a.trips, t.id) && t.tbf == w.batch.value.tbf
  }

  /** A step sets a mark exactly when a trip that asks for the batch's distance, or interval, goes; none clears it. */
  lemma MarksTell(w: World, e: Event)
    requires Ordered(w.a.trips) && Agrees(w) && Enabled(w, e)
    ensures
      var v := Step(w, e);
      && (v.a.distanceDropped <==> w.a.distanceDropped || DistanceGoes(w, v))
      && (v.a.tbfDropped <==> w.a.tbfDropped || IntervalGoes(w, v))
  {
    match e
    case Move(_) => AllStay(w, Step(w, e));
    case BeginTrip(_, _, _, _, _) =>
      BeginLetsNoneGo(w, e);
      AllStay(w, Step(w, e));
    case ReportTrips(engineOk) => ReportMarks(w, engineOk);
    case StopTrip(id, engineOk) => StopMarks(w, id, engineOk);
  }

  lemma AllStay(w: World, v: World)
    requires forall t :: t in w.a.trips ==> Has(v.a.trips, t.id)
    ensures !DistanceGoes(w, v) && !IntervalGoes(w, v)
  {
  }

  lemma BeginState(w: World, e: Event)
    requires Enabled(w, e) && e.BeginTrip? && w.a.trips != []
    ensures
      var a := Step(w, e).a;
      && (a.trips == Joined(w, e) || a.trips == Rebased(Joined(w, e)))
      && a.distanceDropped == w.a.distanceDropped && a.tbfDropped == w.a.tbfDropped
  {
  }

  lemma StillThere(t: Trip, joined: seq<Trip>, trips: seq<Trip>)
    requires t in joined && (trips == joined || trips == Rebased(joined))
    ensures Has(trips, t.id)
  {
    var i :| 0 <= i < |joined| && joined[i] == t;
    assert trips[i].id == t.id;
  }

  lemma BeginLetsNoneGo(w: World, e: Event)
    requires Ordered(w.a.trips) && Enabled(w, e) && e.BeginTrip?
    ensures forall t :: t in w.a.trips ==> Has(Step(w, e).a.trips, t.id)
    ensures Step(w, e).a.distanceDropped == w.a.distanceDropped && Step(w, e).a.tbfDropped == w.a.tbfDropped
  {
    if w.a.trips != [] {
      BeginState(w, e);
      JoinedAre(w, e);
      forall t | t in w.a.trips
        ensures Has(Step(w, e).a.trips, t.id)
      {
        StillThere(t, Joined(w, e), Step(w, e).a.trips);
      }
    }
  }

  lemma RestartKeepsIds(w: World, engineOk: bool)
    ensures
      var v := After(w, Restart(w.a, Counter(w), engineOk), engineOk);
      && (forall id :: Has(v.a.trips, id) <==> Has(w.a.trips, id))
      && v.a.distanceDropped == w.a.distanceDropped && v.a.tbfDropped == w.a.tbfDropped
  {
    var trips := Restart(w.a, Counter(w), engineOk).0.trips;
    RestartKeepsGoals(w.a, Counter(w), engineOk);
    forall id
      ensures Has(trips, id) <==> Has(w.a.trips, id)
    {
      assert forall i :: 0 <= i < |trips| ==> trips[i].id == w.a.trips[i].id;
    }
  }

  lemma ReportMarks(w: World, engineOk: bool)
    requires Ordered(w.a.trips) && Agrees(w)
    ensures
      var v := Step(w, ReportTrips(engineOk));
      && (v.a.distanceDropped <==> w.a.distanceDropped || DistanceGoes(w, v))
      && (v.a.tbfDropped <==> w.a.tbfDropped || IntervalGoes(w, v))
  {
    var swept, v := w.(a := Swept(w.a, Counter(w))), Step(w, ReportTrips(engineOk));
    ReportSteps(w, engineOk);
    RestartKeepsIds(swept, engineOk);
    SurvivorIds(w.a.trips, Counter(w));
    IdsOfFinished(w.a.trips, Counter(w));
    FinishedAre(w.a.trips, Counter(w));
    assert forall t :: t in w.a.trips ==> (t in Finished(w.a.trips, Counter(w)) <==> !Has(v.a.trips, t.id));
  }

  lemma StopMarks(w: World, id: nat, engineOk: bool)
    requires Ordered(w.a.trips) && Agrees(w) && Has(w.a.trips, id)
    ensures
      var v := Step(w, StopTrip(id, engineOk));
      && (v.a.distanceDropped <==> w.a.distanceDropped || DistanceGoes(w, v))
      && (v.a.tbfDropped <==> w.a.tbfDropped || IntervalGoes(w, v))
  {
    var u, stopped, v := Find(w.a.trips, id), w.(a := Stopped(w.a, id)), Step(w, StopTrip(id, engineOk));
    EraseRemoves(w.a.trips, id);
    StopSteps(w, id, engineOk);
    RestartKeepsIds(stopped, engineOk);
    forall t | t in w.a.trips
      ensures !Has(v.a.trips, t.id) <==> t == u
    {
      if t.id == id {
        SameId(w.a.trips, t, u);
      } else {
        var i :| 0 <= i < |stopped.a.trips| && stopped.a.trips[i] == t;
      }
    }
  }

  // ----- The distance --------------------------------------------------------------------------

  /** Where the odometer stands when the modem reports. */
  function BatchEnd(w: World): nat
    requires w.batch.Some?
  {
    w.batchStart + w.batch.value.distance
  }

  /** The batch ends where the nearest of the trips' goals is. */
  ghost predicate EndsAtNearest(w: World) {
    && w.batch.Some? && GoalsBeyond(w.a.trips, w.joined, BatchEnd(w))
    && exists t :: t in w.a.trips && t.id in w.joined && w.joined[t.id] + t.tripDistance == BatchEnd(w)
  }

  lemma NearestGoal(trips: seq<Trip>, joined: map<nat, nat>, odometer: nat)
    requires trips != [] && Unfinished(trips) && FreshAt(trips, joined, odometer) && odometer < WORDS
    requires forall t :: t in trips ==> joined[t.id] <= odometer
    ensures
      var goal := odometer + LoopMin(Remainings(trips));
      && GoalsBeyond(trips, joined, goal)
      && exists t :: t in trips && joined[t.id] + t.tripDistance == goal
  {
    LeastRemaining(trips);
    forall t | t in trips
      ensures t.thisTrip == odometer - joined[t.id]
    {
      SmallWrap(odometer - joined[t.id]);
    }
  }

  lemma SmallWrap(x: int)
    requires 0 <= x < WORDS
    ensures Wrap(x) == x
  {
  }

  lemma SameGoalsEnd(xs: seq<Trip>, ts: seq<Trip>, joined: map<nat, nat>, goal: nat)
    requires |xs| == |ts| && forall i :: 0 <= i < |xs| ==> SameGoal(xs[i], ts[i])
    requires exists t :: t in ts && t.id in joined && joined[t.id] + t.tripDistance == goal
    ensures exists x :: x in xs && x.id in joined && joined[x.id] + x.tripDistance == goal
  {
    var t :| t in ts && t.id in joined && joined[t.id] + t.tripDistance == goal;
    var i :| 0 <= i < |ts| && ts[i] == t;
    assert xs[i] in xs && SameGoal(xs[i], t);
  }

  /** A restart for the distance, with distances that are up to date, ends the batch at the nearest goal. */
  lemma RestartAims(w: World)
    requires w.a.trips != [] && Unfinished(w.a.trips) && Fresh(w) && w.odometer < WORDS
    requires forall t :: t in w.a.trips ==> w.joined[t.id] <= w.odometer
    requires ByDistance(w.a, Counter(w))
    ensures
      var v := After(w, Restart(w.a, Counter(w), true), true);
      v.batchStart == w.odometer && EndsAtNearest(v)
  {
    var v := After(w, Restart(w.a, Counter(w), true), true);
    RestartState(w.a, Counter(w));
    RestartKeepsGoals(w.a, Counter(w), true);
    NearestGoal(w.a.trips, w.joined, w.odometer);
    SameGoals(v.a.trips, w.a.trips, w.joined, BatchEnd(v));
    SameGoalsEnd(v.a.trips, w.a.trips, w.joined, BatchEnd(v));
  }

  lemma SweptTimes(w: World)
    requires Exact(w)
    ensures forall x :: x in Swept(w.a, Counter(w)).trips ==> x.id in w.joined && w.joined[x.id] <= w.odometer
  {
    SweptExact(w);
  }

  /** A report in time that completes some of the trips aims the batch at the nearest goal of the others. */
  lemma ReportAims(w: World)
    requires Exact(w) && Agrees(w) && Timely(w) && InRange(w) && Finished(w.a.trips, Counter(w)) != []
    ensures
      var v := Step(w, ReportTrips(true));
      v.a.trips != [] ==> v.batchStart == w.odometer && EndsAtNearest(v)
  {
    var b := w.(a := Swept(w.a, Counter(w)));
    assert Counter(b) == Counter(w);
    ReportSteps(w, true);
    SweptFresh(w);
    SweptTimes(w);
    if b.a.trips != [] {
      SweptByDistance(w);
      RestartAims(b);
    }
  }

  lemma NoneIsFinished(w: World)
    requires Exact(w) && Timely(w) && UpToDate(w.a.trips, Counter(w)) && w.odometer < WORDS
    requires w.batch.Some? && w.odometer < BatchEnd(w)
    ensures Unfinished(w.a.trips)
  {
    FinishedAre(w.a.trips, Counter(w));
    if Finished(w.a.trips, Counter(w)) != [] {
      CompleteMeansCounted(w);
    }
  }

  /** The batch is running, will end in time and has the shortest interval, and all distances are up to date. */
  ghost predicate Running(w: World) {
    && Exact(w) && Agrees(w) && Timely(w) && Shortest(w.a)
    && UpToDate(w.a.trips, Counter(w)) && w.odometer < WORDS
    && w.batch.Some? && w.odometer < BatchEnd(w)
  }

  lemma RemainingDistance(w: World)
    requires w.a.trips != [] && Agrees(w) && w.batchStart <= w.odometer < WORDS && w.odometer < BatchEnd(w)
    ensures Minus(w.a.distance, Counter(w)) == BatchEnd(w) - w.odometer
  {
    SmallWrap(w.odometer - w.batchStart);
  }

  /** Of what a stop leaves, the goals lie no nearer than the batch's end. */
  lemma StoppedByDistanceIff(w: World, id: nat)
    requires Running(w) && Has(w.a.trips, id) && Stopped(w.a, id).trips != []
    ensures Fresh(w.(a := Stopped(w.a, id))) && Unfinished(Stopped(w.a, id).trips)
    ensures ByDistance(Stopped(w.a, id), Counter(w)) <==> Stopped(w.a, id).distanceDropped
  {
    var b := w.(a := Stopped(w.a, id));
    EraseRemoves(w.a.trips, id);
    NoneIsFinished(w);
    FreshIffUpToDate(w);
    StoppedExact(w, id);
    StoppedTimely(w, id);
    RemainingDistance(w);
    NearestGoal(b.a.trips, w.joined, w.odometer);
    LeastRemaining(b.a.trips);
  }

  lemma StoppedByIntervalIff(w: World, id: nat)
    requires Running(w) && Has(w.a.trips, id) && Stopped(w.a, id).trips != []
    ensures ByInterval(Stopped(w.a, id)) <==> !Asked(w.batch.value.tbf, Stopped(w.a, id).trips)
    ensures Often(Stopped(w.a, id))
  {
    var b := Stopped(w.a, id);
    EraseRemoves(w.a.trips, id);
    StoppedOften(w.a, id);
    ShortestInterval(b.trips);
  }

  /** When a trip is stopped, the modem is told nothing unless the trip's distance, or that of one that went before,
      was the batch's, or no other asks for the batch's interval. In the first case the batch is aimed at the nearest
      goal of the others; in the second it is given its whole old distance again. */
  lemma StopRestartsIff(w: World, id: nat)
    requires Running(w) && Has(w.a.trips, id) && Stopped(w.a, id).trips != []
    ensures
      var v, t := Step(w, StopTrip(id, true)), Find(w.a.trips, id);
      && Shortest(v.a) && Agrees(v)
      && if w.a.distanceDropped || t.tripDistance == w.batch.value.distance then
           v.batchStart == w.odometer && EndsAtNearest(v)
         else if Asked(w.batch.value.tbf, Stopped(w.a, id).trips) then
           v.batch == w.batch && v.batchStart == w.batchStart
         else
           v.batchStart == w.odometer && v.batch.Some? && v.batch.value.distance == w.batch.value.distance
  {
    var b := w.(a := Stopped(w.a, id));
    assert Counter(b) == Counter(w);
    StopSteps(w, id, true);
    StepAgreesIff(w, StopTrip(id, true));
    StoppedByDistanceIff(w, id);
    StoppedByIntervalIff(w, id);
    RestartOften(b.a, Counter(w), true);
    if ByDistance(b.a, Counter(w)) {
      StoppedExact(w, id);
      RestartAims(b);
    } else if ByInterval(b.a) {
      RestartState(b.a, Counter(w));
    }
  }

  function Least(x: int, y: int): int {
    if x <= y then x else y
  }

  /** A join whose counter the modem tells moves the end of the batch to the new goal if that is nearer, and the
      interval to the new one if that is shorter; otherwise the batch goes on. */
  lemma JoinTakesNearer(w: World, e: Event)
    requires Exact(w) && Agrees(w) && Enabled(w, e) && e.BeginTrip? && w.a.trips != [] && e.queryOk && e.engineOk
    requires w.odometer < WORDS && w.odometer <= BatchEnd(w)
    ensures
      var v := Step(w, e);
      && v.batch.Some?
      && BatchEnd(v) == Least(BatchEnd(w), w.odometer + e.distance)
      && v.batch.value.tbf == Least(w.batch.value.tbf, e.tbf)
      && (e.distance >= BatchEnd(w) - w.odometer && e.tbf >= w.batch.value.tbf ==>
          v.batchStart == w.batchStart && v.batch == w.batch)
  {
    SmallWrap(w.odometer - w.batchStart);
  }

  /** Without the counter, a join whose distance is shorter than the batch's, or whose interval is, makes the modem
      begin again with the shorter of both. */
  lemma BlindJoinTakesShorter(w: World, e: Event)
    requires Agrees(w) && Enabled(w, e) && e.BeginTrip? && w.a.trips != [] && !e.queryOk && e.engineOk
    ensures
      var v, b := Step(w, e), w.batch.value;
      && v.batch == Some(Batch(Least(b.distance, e.distance), Least(b.tbf, e.tbf)))
      && v.batchStart == if e.distance < b.distance || e.tbf < b.tbf then w.odometer else w.batchStart
  {
  }

  /** The first trip gets a batch of its own distance and interval. */
  lemma FirstTripsBatch(w: World, e: Event)
    requires Enabled(w, e) && e.BeginTrip? && w.a.trips == [] && e.engineOk
    ensures
      var v := Step(w, e);
      v.batch == Some(Batch(e.distance, e.tbf)) && v.batchStart == w.odometer
  {
  }

  /** The sessions' restart gives the modem the least distance that a trip was last known to have left, and the
      shortest interval. */
  lemma RestartedSessions(w: World)
    requires w.a.trips != [] && Unfinished(w.a.trips) && AllPositive(w.a.trips)
    ensures
      var v := After(w, RestartSessions(w.a, true), true);
      && Shortest(v.a) && Agrees(v) && v.a.trips == w.a.trips && v.batchStart == w.odometer
      && (exists t :: t in w.a.trips && v.batch.value.distance == t.tripDistance - t.thisTrip)
      && (forall t :: t in w.a.trips ==> v.batch.value.distance <= t.tripDistance - t.thisTrip)
  {
    ShortestInterval(w.a.trips);
    LeastRemaining(w.a.trips);
  }

  /** When that restart fails, the modem has no batch, and no trip that joins later makes it start one: while its
      counter reads 0 or is not told, each is answered with success. */
  lemma FailedRestartIsNotMended(a: Adapter, id: nat, distance: Word, tbf: Word, query: Option<Word>, engineOk: bool)
    requires a.trips != [] && (query.Some? ==> query.value == 0)
    ensures
      var b := RestartSessions(a, false).0;
      var (c, command, success) := Begin(b, id, distance, tbf, query, engineOk);
      b.trips == a.trips && command == NoCommand && success
  {
  }
}
