/** Runs in which the trips of gps/batching/BatchingAdapter.cpp are told something wrong or too late. */
module TripRuns {
  import opened Wrappers
  import opened TripModel
  import opened TripProperties
  import opened TripPace

  lemma RunCons(w: World, e: Event, es: seq<Event>)
    requires Enabled(w, e) && Possible(Step(w, e), es)
    ensures Possible(w, [e] + es) && RunOf(w, [e] + es) == RunOf(Step(w, e), es)
  {
    assert ([e] + es)[1..] == es;
  }

  /** One trip, of 500 with interval `tbf`, after `m`. */
  function OneTrip(tbf: Word, m: nat): World {
    World(
      Adapter([Trip(1, 0, 0, 0, 500, tbf)], 500, tbf, false, false), Some(Batch(500, tbf)), m, 0, map[1 := 0])
  }

  lemma OneTripExact(tbf: Word, m: nat)
    ensures Exact(OneTrip(tbf, m)) && Timely(OneTrip(tbf, m))
  {
  }

  lemma FirstTrip(tbf: Word)
    ensures
      var e := BeginTrip(1, 500, tbf, true, true);
      Enabled(START, e) && Step(START, e) == OneTrip(tbf, 0)
  {
  }

  lemma OneTripRun(tbf: Word, m: nat)
    ensures
      var es := [BeginTrip(1, 500, tbf, true, true), Move(m)];
      Possible(START, es) && RunOf(START, es) == OneTrip(tbf, m)
  {
    var e := BeginTrip(1, 500, tbf, true, true);
    FirstTrip(tbf);
    RunCons(OneTrip(tbf, 0), Move(m), []);
    assert [Move(m)] + [] == [Move(m)] && [e] + [Move(m)] == [e, Move(m)];
    RunCons(START, e, [Move(m)]);
  }

  /** After 300 a trip of 100 joins that of 500: the 300, which no report has told, are forgotten. */
  lemma ForcedJoinRun()
    ensures
      var es := [BeginTrip(1, 500, 20, true, true), Move(300)];
      && Possible(START, es) && Enabled(RunOf(START, es), BeginTrip(2, 100, 20, true, true))
      && Exact(RunOf(START, es)) && !Exact(Step(RunOf(START, es), BeginTrip(2, 100, 20, true, true)))
  {
    OneTripRun(20, 300);
    OneTripExact(20, 300);
    var w, e := OneTrip(20, 300), BeginTrip(2, 100, 20, true, true);
    assert Counter(w) == 300 && Forced(w, e);
    var t := w.a.trips[0];
    assert t in w.a.trips && Measured(t, 300) == 300;
    ForcedJoinExactIff(w, e);
  }

  lemma OneTripReported()
    ensures
      var w := OneTrip(20, 300);
      Step(w, ReportTrips(true)) == w.(a := w.a.(trips := [Trip(1, 0, 300, 0, 500, 20)]))
  {
    var w := OneTrip(20, 300);
    var t := w.a.trips[0];
    assert Counter(w) == 300 && !IsFinished(t, 300);
    assert [t][..0] == [] && w.a.trips == [t];
    assert Finished([t], 300) == [];
    assert Survivors([t], 300) == Survivors([], 300) + [Remeasured(t, 300)] == [Remeasured(t, 300)];
  }

  /** The trip of 500 after 300, with a report. */
  function Told(): World {
    World(
      Adapter([Trip(1, 0, 300, 0, 500, 20)], 500, 20, false, false), Some(Batch(500, 20)), 300, 0, map[1 := 0])
  }

  lemma ToldExact()
    ensures Exact(Told()) && Timely(Told()) && Counter(Told()) == 300 && UpToDate(Told().a.trips, 300)
    ensures !FitsAll(Told().a.trips, 500, 300)
  {
    var t := Told().a.trips[0];
    assert t in Told().a.trips && Measured(t, 300) == 300;
  }

  lemma BlindJoinForced()
    ensures
      var w, e := Told(), BeginTrip(2, 1000, 10, false, true);
      Enabled(w, e) && Forced(w, e) && JoinDistance(w, e) == 500 && w.odometer < WORDS
    ensures
      var (b, command, success) := Begin(Told().a, 2, 1000, 10, None, true);
      success && Step(Told(), BeginTrip(2, 1000, 10, false, true)).a == b && !Has(b.trips, 2)
  {
    AnsweredIffRecorded(Told().a, 2, 1000, 10, None, true);
  }

  /** After 300 and a report a trip with a shorter interval joins, and the modem does not say what it has counted. The
      batch restarts with the full 500 though 200 are left; the client is answered with success and has no trip. */
  lemma BlindJoinRun()
    ensures
      var es := [BeginTrip(1, 500, 20, true, true), Move(300)];
      Possible(START, es) && Step(RunOf(START, es), ReportTrips(true)) == Told()
    ensures
      var e := BeginTrip(2, 1000, 10, false, true);
      && Exact(Told()) && Timely(Told()) && Orderly(Told(), e) && !Timely(Step(Told(), e))
      && Begin(Told().a, 2, 1000, 10, None, true).2 && !Has(Step(Told(), e).a.trips, 2)
  {
    OneTripRun(20, 300);
    OneTripReported();
    ToldExact();
    BlindJoinForced();
    ForcedJoinTimelyIff(Told(), BeginTrip(2, 1000, 10, false, true));
  }

  /** The modem restarts after 300: the trip goes on as if it had not moved. */
  lemma ModemRestartRun()
    ensures
      var es := [BeginTrip(1, 500, 20, true, true), Move(300)];
      && Possible(START, es) && Exact(RunOf(START, es))
      && var w := RunOf(START, es);
         !Exact(After(w, RestartSessions(w.a, true), true))
  {
    OneTripRun(20, 300);
    OneTripExact(20, 300);
    ModemRestartExactIff(OneTrip(20, 300), true);
  }

  /** The trip of 500 and one of 1000 that joined it at the start, after `m`. */
  function TwoTrips(tbf1: Word, tbf2: Word, batchTbf: Word, m: nat, thisTrip: Word): World {
    World(
      Adapter([Trip(1, 0, thisTrip, 0, 500, tbf1), Trip(2, 0, thisTrip, 0, 1000, tbf2)], 500, batchTbf, false, false),
      Some(Batch(500, batchTbf)), m, 0, map[1 := 0, 2 := 0])
  }

  lemma TwoTripsExact(tbf1: Word, tbf2: Word, batchTbf: Word, m: nat, thisTrip: Word)
    ensures Exact(TwoTrips(tbf1, tbf2, batchTbf, m, thisTrip)) && Timely(TwoTrips(tbf1, tbf2, batchTbf, m, thisTrip))
  {
  }

  lemma SecondTrip(tbf1: Word, tbf2: Word)
    requires tbf1 > 0 && tbf2 > 0
    ensures
      var w, e := OneTrip(tbf1, 0), BeginTrip(2, 1000, tbf2, true, true);
      Enabled(w, e) && Step(w, e) == TwoTrips(tbf1, tbf2, if tbf2 < tbf1 then tbf2 else tbf1, 0, 0)
  {
    var t1, t2 := Trip(1, 0, 0, 0, 500, tbf1), Trip(2, 0, 0, 0, 1000, tbf2);
    assert Counter(OneTrip(tbf1, 0)) == 0;
    assert Put([t1], t2) == [t1, t2] by {
      assert [t1][1..] == [];
    }
    assert Rebased([t1, t2]) == [t1, t2];
    assert map[1 := 0][2 := 0] == map[1 := 0, 2 := 0];
  }

  lemma TwoTripsRun(tbf1: Word, tbf2: Word)
    requires tbf1 > 0 && tbf2 > 0
    ensures
      var es := [BeginTrip(1, 500, tbf1, true, true), BeginTrip(2, 1000, tbf2, true, true), Move(300)];
      Possible(START, es) && RunOf(START, es) == TwoTrips(tbf1, tbf2, if tbf2 < tbf1 then tbf2 else tbf1, 300, 0)
  {
    var e1, e2 := BeginTrip(1, 500, tbf1, true, true), BeginTrip(2, 1000, tbf2, true, true);
    FirstTrip(tbf1);
    SecondTrip(tbf1, tbf2);
    var w := TwoTrips(tbf1, tbf2, if tbf2 < tbf1 then tbf2 else tbf1, 0, 0);
    RunCons(w, Move(300), []);
    RunCons(OneTrip(tbf1, 0), e2, [Move(300)]);
    RunCons(START, e1, [e2] + [Move(300)]);
    assert [Move(300)] + [] == [Move(300)] && [e1] + ([e2] + [Move(300)]) == [e1, e2, Move(300)];
  }

  lemma StopFirst(t1: Trip, t2: Trip)
    requires t1.id == 1 && t2.id == 2 && t1.tbf == 10 && t1.tripDistance == 500
    ensures Has([t1, t2], 1)
    ensures Stopped(Adapter([t1, t2], 500, 10, false, false), 1) == Adapter([t2], 500, 10, true, true)
  {
    assert [t1, t2][0].id == 1 && [t1, t2][1..] == [t2];
  }

  /** Trips of 500 and of 1000; after 300, before any report, the first is stopped. The batch restarts for the
      1000 of the other, of which only 700 are left. */
  lemma StaleStopRun()
    ensures
      var es := [BeginTrip(1, 500, 10, true, true), BeginTrip(2, 1000, 10, true, true), Move(300)];
      && Possible(START, es) && Has(RunOf(START, es).a.trips, 1) && Exact(RunOf(START, es)) && Timely(RunOf(START, es))
      && !Timely(Step(RunOf(START, es), StopTrip(1, true)))
  {
    TwoTripsRun(10, 10);
    TwoTripsExact(10, 10, 10, 300, 0);
    var w := TwoTrips(10, 10, 10, 300, 0);
    var t1, t2 := w.a.trips[0], w.a.trips[1];
    StopFirst(t1, t2);
    var b := Adapter([t2], 500, 10, true, true);
    assert Remainings([t2]) == [1000];
    assert LoopMin([1000]) == 1000 by {
      assert [1000][..0] == [];
    }
    assert Counter(w) == 300;
    assert t2 in b.trips && Measured(t2, 300) == 300 && NewDistance(b, 300) == 1000;
    assert !RestartFits(b, 300);
    StopTimelyIff(w, 1);
  }

  lemma StopSecond(t1: Trip, t2: Trip)
    requires t1.id == 1 && t2.id == 2 && t2.tbf == 10 && t2.tripDistance == 1000
    ensures Has([t1, t2], 2)
    ensures Stopped(Adapter([t1, t2], 500, 10, false, false), 2) == Adapter([t1], 500, 10, true, false)
  {
    assert [t1, t2][1].id == 2 && [t1, t2][1..] == [t2];
    assert Find([t1, t2], 2) == t2 && Erase([t2], 2) == [];
  }

  lemma OldDistanceAgain(t: Trip)
    requires t.thisTrip == 300 && t.tripDistance == 500 && t.tbf == 20 && Measured(t, 300) == 300
    ensures !RestartFits(Adapter([t], 500, 10, true, false), 300)
  {
    var b := Adapter([t], 500, 10, true, false);
    assert Remainings([t]) == [200] && Intervals([t]) == [20];
    assert LoopMin([200]) == 200 && LoopMin([20]) == 20 by {
      assert [200][..0] == [] && [20][..0] == [];
    }
    assert t in b.trips && NewDistance(b, 300) == 500;
  }

  lemma NoneFinished()
    ensures
      var w := TwoTrips(20, 10, 10, 300, 0);
      Step(w, ReportTrips(true)) == TwoTrips(20, 10, 10, 300, 300)
  {
    var w := TwoTrips(20, 10, 10, 300, 0);
    var t1, t2 := w.a.trips[0], w.a.trips[1];
    assert Counter(w) == 300;
    assert [t1][..0] == [] && [t1, t2][..1] == [t1];
    assert !IsFinished(t1, 300) && !IsFinished(t2, 300);
    assert Finished([t1], 300) == [];
    assert Survivors([t1], 300) == Survivors([], 300) + [Remeasured(t1, 300)] == [Remeasured(t1, 300)];
    assert Finished([t1, t2], 300) == [] && Survivors([t1, t2], 300) == [Remeasured(t1, 300), Remeasured(t2, 300)];
  }

  /** Trips of 500 with an interval of 20 and of 1000 with an interval of 10. After 300 a report comes, and the
      second is stopped: the batch restarts for the interval of the first, with the full 500 though 200 are left. */
  lemma IntervalStopRun()
    ensures
      var es := [BeginTrip(1, 500, 20, true, true), BeginTrip(2, 1000, 10, true, true), Move(300)];
      && Possible(START, es)
      && var w := Step(RunOf(START, es), ReportTrips(true));
         && Exact(w) && Timely(w) && UpToDate(w.a.trips, Counter(w)) && Has(w.a.trips, 2)
         && !Timely(Step(w, StopTrip(2, true)))
  {
    TwoTripsRun(20, 10);
    NoneFinished();
    TwoTripsExact(20, 10, 10, 300, 300);
    var w := TwoTrips(20, 10, 10, 300, 300);
    var t1, t2 := w.a.trips[0], w.a.trips[1];
    assert Counter(w) == 300;
    StopSecond(t1, t2);
    OldDistanceAgain(t1);
    StopTimelyIff(w, 2);
  }
}
