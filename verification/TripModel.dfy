/** The trips of gps/batching/BatchingAdapter.cpp on values: many trips, each with a distance to go,
    share the one outdoor trip batch of the modem, which counts a single distance. */
module TripModel {
  import opened Wrappers

  const WORDS := 0x1_0000_0000

  /** uint32_t */
  type Word = x: int | 0 <= x < WORDS

  function Wrap(x: int): Word {
    x % WORDS
  }

  function Plus(a: Word, b: Word): Word {
    if a + b < WORDS then a + b else a + b - WORDS
  }

  function Minus(a: Word, b: Word): Word {
    if b <= a then a - b else a - b + WORDS
  }

  /** TripSessionStatus, with the session's id. */
  datatype Trip = Trip(
    id: nat,
    ongoingBatch: Word,
    thisTrip: Word,
    onRestart: Word,
    tripDistance: Word,
    tbf: Word)

  /** `trips` is the std::map, in the order of the ids; the flags say that the trip that gave the batch
      its interval or its distance has gone. */
  datatype Adapter = Adapter(
    trips: seq<Trip>,
    distance: Word,
    tbf: Word,
    tbfDropped: bool,
    distanceDropped: bool)

  /** What the modem is asked to do with its batch. */
  datatype Command =
    | NoCommand
    | StartBatch(distance: Word, tbf: Word)
    | RestartBatch(distance: Word, tbf: Word)
    | StopBatch

  // ----- The map of trips ----------------------------------------------------------------------

  predicate Has(trips: seq<Trip>, id: nat) {
    exists i :: 0 <= i < |trips| && trips[i].id == id
  }

  function Find(trips: seq<Trip>, id: nat): (t: Trip)
    requires Has(trips, id)
    ensures t in trips && t.id == id
  {
    if trips[0].id == id then trips[0] else Find(trips[1..], id)
  }

  function Put(trips: seq<Trip>, t: Trip): seq<Trip> {
    if trips == [] then [t]
    else if trips[0].id == t.id then [t] + trips[1..]
    else if t.id < trips[0].id then [t] + trips
    else [trips[0]] + Put(trips[1..], t)
  }

  function Erase(trips: seq<Trip>, id: nat): seq<Trip> {
    if trips == [] then []
    else if trips[0].id == id then trips[1..]
    else [trips[0]] + Erase(trips[1..], id)
  }

  // ----- Distances -----------------------------------------------------------------------------

  /** The distance of the trip when the modem's counter reads `reading`. */
  function Measured(t: Trip, reading: Word): Word {
    Plus(t.onRestart, Minus(reading, t.ongoingBatch))
  }

  function Remeasured(t: Trip, reading: Word): Trip {
    t.(thisTrip := Measured(t, reading))
  }

  predicate IsFinished(t: Trip, reading: Word) {
    t.tripDistance <= Measured(t, reading)
  }

  /** The trips a report leaves, with their new distances. */
  function Survivors(trips: seq<Trip>, reading: Word): seq<Trip> {
    if trips == [] then []
    else
      var rest, last := Survivors(trips[..|trips| - 1], reading), trips[|trips| - 1];
      if IsFinished(last, reading) then rest else rest + [Remeasured(last, reading)]
  }

  function Finished(trips: seq<Trip>, reading: Word): seq<Trip> {
    if trips == [] then []
    else
      var rest, last := Finished(trips[..|trips| - 1], reading), trips[|trips| - 1];
      if IsFinished(last, reading) then rest + [last] else rest
  }

  function Ids(trips: seq<Trip>): seq<nat> {
    seq(|trips|, i requires 0 <= i < |trips| => trips[i].id)
  }

  /** The trip counts afresh from the distance it has. */
  function Anew(t: Trip): Trip {
    t.(ongoingBatch := 0, onRestart := t.thisTrip)
  }

  function Rebased(trips: seq<Trip>): seq<Trip> {
    seq(|trips|, i requires 0 <= i < |trips| => Anew(trips[i]))
  }

  function AllRemeasured(trips: seq<Trip>, reading: Word): seq<Trip> {
    seq(|trips|, i requires 0 <= i < |trips| => Remeasured(trips[i], reading))
  }

  // ----- The loop for the nearest goal and the shortest interval -------------------------------

  function Remaining(t: Trip): Word {
    Minus(t.tripDistance, t.thisTrip)
  }

  function Remainings(trips: seq<Trip>): seq<Word> {
    seq(|trips|, i requires 0 <= i < |trips| => Remaining(trips[i]))
  }

  function Intervals(trips: seq<Trip>): seq<Word> {
    seq(|trips|, i requires 0 <= i < |trips| => trips[i].tbf)
  }

  /** A running minimum in which 0 stands for "none yet". */
  function LoopMin(ws: seq<Word>): Word {
    if ws == [] then 0
    else
      var m, last := LoopMin(ws[..|ws| - 1]), ws[|ws| - 1];
      if m == 0 || last < m then last else m
  }

  // ----- restartTripBatching -------------------------------------------------------------------

  /** The batch needs another distance. */
  predicate ByDistance(a: Adapter, reading: Word) {
    var minRemaining := LoopMin(Remainings(a.trips));
    if !a.distanceDropped && Minus(a.distance, reading) != 0 then minRemaining < Minus(a.distance, reading)
    else minRemaining != 0
  }

  /** The batch needs another interval. */
  predicate ByInterval(a: Adapter) {
    var minTbf := LoopMin(Intervals(a.trips));
    minTbf < a.tbf || (minTbf != a.tbf && a.tbfDropped)
  }

  function NewDistance(a: Adapter, reading: Word): Word {
    if ByDistance(a, reading) then LoopMin(Remainings(a.trips)) else a.distance
  }

  function NewInterval(a: Adapter): Word {
    if ByInterval(a) then LoopMin(Intervals(a.trips)) else a.tbf
  }

  function Restart(a: Adapter, reading: Word, engineOk: bool): (Adapter, Command) {
    if a.trips == [] then (a.(distance := 0, tbf := 0), StopBatch)
    else if !ByDistance(a, reading) && !ByInterval(a) then (a, NoCommand)
    else
      var d, i := NewDistance(a, reading), NewInterval(a);
      (if engineOk then a.(trips := Rebased(AllRemeasured(a.trips, reading)), distance := d, tbf := i) else a,
       RestartBatch(d, i))
  }

  // ----- What the messages do ------------------------------------------------------------------

  /** The adapter of a report before any restart. */
  function Swept(a: Adapter, reading: Word): Adapter {
    var gone := Finished(a.trips, reading);
    a.(
      trips := Survivors(a.trips, reading),
      tbfDropped := a.tbfDropped || exists t :: t in gone && t.tbf == a.tbf,
      distanceDropped := a.distanceDropped || exists t :: t in gone && t.tripDistance == a.distance)
  }

  /** reportCompletedTripsEvent: also the ids of the trips that are complete. */
  function Report(a: Adapter, reading: Word, engineOk: bool): (Adapter, Command, seq<nat>) {
    var gone, b := Finished(a.trips, reading), Swept(a, reading);
    if gone == [] then (b, NoCommand, [])
    else
      var (c, command) := Restart(b, reading, engineOk);
      (c, command, Ids(gone))
  }

  /** The adapter of a stop before any restart. */
  function Stopped(a: Adapter, id: nat): Adapter
    requires Has(a.trips, id)
  {
    var t := Find(a.trips, id);
    a.(
      trips := Erase(a.trips, id),
      tbfDropped := a.tbfDropped || t.tbf == a.tbf,
      distanceDropped := a.distanceDropped || t.tripDistance == a.distance)
  }

  /** stopTripBatchingMultiplex for a running trip. */
  function Stop(a: Adapter, id: nat, reading: Word, engineOk: bool): (Adapter, Command)
    requires Has(a.trips, id)
  {
    var b := Stopped(a, id);
    if b.trips == [] then (b.(distance := 0, tbf := 0), StopBatch)
    else Restart(b, reading, engineOk)
  }

  /** The distance a new trip makes the batch run for, and whether the batch has to restart for it. */
  function JoinPlan(a: Adapter, distance: Word, tbf: Word, query: Option<Word>): (Word, bool) {
    match query
    case None => if distance < a.distance then (distance, true) else (a.distance, tbf < a.tbf)
    case Some(reading) =>
      if distance < Minus(a.distance, reading) then (distance, true)
      else if tbf < a.tbf then (Minus(a.distance, reading), true)
      else (a.distance, false)
  }

  /** startTripBatchingMultiplex; `query` is the modem's answer to the question for its counter. When
      that question fails, the trip is not recorded. The last result is whether the client is answered with
      success. */
  function Begin(a: Adapter, id: nat, distance: Word, tbf: Word, query: Option<Word>, engineOk: bool):
    (Adapter, Command, bool)
  {
    if a.trips == [] then
      (if engineOk then a.(trips := [Trip(id, 0, 0, 0, distance, tbf)], distance := distance, tbf := tbf) else a,
       StartBatch(distance, tbf),
       engineOk)
    else
      var (d, restart) := JoinPlan(a, distance, tbf, query);
      var trips := if query == None then a.trips else Put(a.trips, Trip(id, query.value, 0, 0, distance, tbf));
      if !restart then (a.(trips := trips), NoCommand, true)
      else
        var i := if tbf < a.tbf then tbf else a.tbf;
        (a.(trips := Rebased(trips), distance := d, tbf := i), RestartBatch(d, i), engineOk)
  }

  /** restartSessions, after the modem has lost its batch. Its loop resets copies: the trips stay as they
      are. */
  function RestartSessions(a: Adapter, engineOk: bool): (Adapter, Command) {
    if a.trips == [] then (a, NoCommand)
    else
      var d, i := LoopMin(Remainings(a.trips)), LoopMin(Intervals(a.trips));
      (if engineOk then a.(distance := d, tbf := i) else a.(distance := 0, tbf := 0), StartBatch(d, i))
  }

  // ----- Runs ----------------------------------------------------------------------------------

  datatype Event =
    | Move(travelled: nat)
    | BeginTrip(id: nat, distance: Word, tbf: Word, queryOk: bool, engineOk: bool)
    | ReportTrips(engineOk: bool)
    | StopTrip(id: nat, engineOk: bool)

  /** The batch that the modem runs: the distance after which it reports, and the interval of its fixes. */
  datatype Batch = Batch(distance: Word, tbf: Word)

  /** The adapter, the modem's batch, the distance travelled so far, its value when the modem last reset its
      counter, and its value when each trip began. */
  datatype World = World(a: Adapter, batch: Option<Batch>, odometer: nat, batchStart: nat, joined: map<nat, nat>)

  const START := World(Adapter([], 0, 0, false, false), None, 0, 0, map[])

  function Counter(w: World): Word {
    Wrap(w.odometer - w.batchStart)
  }

  /** The modem does what it is told when it answers with success, and resets its counter when it starts or restarts
      a batch. */
  function After(w: World, r: (Adapter, Command), engineOk: bool): World {
    var v := w.(a := r.0);
    if !engineOk then v
    else
      match r.1
      case NoCommand => v
      case StartBatch(distance, tbf) => v.(batch := Some(Batch(distance, tbf)), batchStart := w.odometer)
      case RestartBatch(distance, tbf) => v.(batch := Some(Batch(distance, tbf)), batchStart := w.odometer)
      case StopBatch => v.(batch := None)
  }

  /** A new trip has a new id, or that of a trip that has just been stopped. */
  predicate Enabled(w: World, e: Event) {
    && (e.StopTrip? ==> Has(w.a.trips, e.id))
    && (e.BeginTrip? ==> !Has(w.a.trips, e.id))
  }

  function Step(w: World, e: Event): World
    requires Enabled(w, e)
  {
    match e
    case Move(travelled) => w.(odometer := w.odometer + travelled)
    case BeginTrip(id, distance, tbf, queryOk, engineOk) =>
      var query := if queryOk then Some(Counter(w)) else None;
      var recorded := w.a.trips == [] || queryOk;
      var joined := if recorded then w.joined[id := w.odometer] else w.joined;
      var r := Begin(w.a, id, distance, tbf, query, engineOk);
      After(w.(joined := joined), (r.0, r.1), engineOk)
    case ReportTrips(engineOk) =>
      var r := Report(w.a, Counter(w), engineOk);
      After(w, (r.0, r.1), engineOk)
    case StopTrip(id, engineOk) => After(w, Stop(w.a, id, Counter(w), engineOk), engineOk)
  }

  predicate Possible(w: World, es: seq<Event>)
    decreases |es|
  {
    es == [] || (Enabled(w, es[0]) && Possible(Step(w, es[0]), es[1..]))
  }

  function RunOf(w: World, es: seq<Event>): World
    requires Possible(w, es)
    decreases |es|
  {
    if es == [] then w else RunOf(Step(w, es[0]), es[1..])
  }
}
