/** The time-based tracking multiplexer of gps/gnss/GnssAdapter.cpp on values: many client sessions
    share the one session of the engine. */
module TrackingModel {
  import opened Wrappers

  const MIN_TRACKING_INTERVAL := 100
  const TRACKING_TBM_THRESHOLD_MILLIS := 480000

  /** GnssPowerMode: the smaller the number, the higher the power. */
  const INVALID := 0
  const M2 := 2
  const M4 := 4

  /** The fields of TrackingOptions the multiplexer looks at; size 0 means not set. */
  datatype Options = Options(size: nat, minInterval: nat, minDistance: nat, powerMode: nat, tbm: nat)

  const UNSET := Options(0, 0, 0, 0, 0)
  const SIZEOF_TRACKING_OPTIONS := 28

  datatype Key = Key(client: int, id: int)

  datatype Session = Session(key: Key, options: Options)

  /** A std::map from key to options: sessions in key order. */
  type Sessions = seq<Session>

  /** What the adapter sends: an answer to a client, or a command to the engine. The engine answers
      the client of a StartEngine or StopEngine; a RestartEngine or HaltEngine is not answered. */
  datatype Sent =
    | Answer(key: Key, success: bool)
    | StartEngine(key: Key, options: Options)
    | StopEngine(key: Key)
    | RestartEngine(options: Options)
    | HaltEngine

  /** `engine` holds the options the engine's session runs with. */
  datatype Adapter = Adapter(
    distanceSupported: bool,
    timeBased: Sessions,
    distanceBased: Sessions,
    nHzNeeded: bool,
    atHighestInterval: bool,
    engine: Option<Options>)

  // ----- The session map -----------------------------------------------------------------------

  predicate Before(a: Key, b: Key) {
    a.id < b.id || (a.id == b.id && a.client < b.client)
  }

  predicate Has(ss: Sessions, k: Key) {
    exists i :: 0 <= i < |ss| && ss[i].key == k
  }

  function Find(ss: Sessions, k: Key): (o: Options)
    requires Has(ss, k)
    ensures Session(k, o) in ss
  {
    if ss[0].key == k then ss[0].options else Find(ss[1..], k)
  }

  function Put(ss: Sessions, k: Key, o: Options): Sessions {
    if ss == [] then [Session(k, o)]
    else if ss[0].key == k then [Session(k, o)] + ss[1..]
    else if Before(k, ss[0].key) then [Session(k, o)] + ss
    else [ss[0]] + Put(ss[1..], k, o)
  }

  function Erase(ss: Sessions, k: Key): Sessions {
    if ss == [] then []
    else if ss[0].key == k then ss[1..]
    else [ss[0]] + Erase(ss[1..], k)
  }

  // ----- What the loops over the sessions compute ----------------------------------------------

  /** The options with the smallest interval among the sessions whose key is not `except`. */
  function Smallest(ss: Sessions, except: Option<Key>): Options {
    if ss == [] then UNSET
    else
      var m := Smallest(ss[..|ss| - 1], except);
      var last := ss[|ss| - 1];
      if Some(last.key) != except && (m.size == 0 || last.options.minInterval < m.minInterval) then last.options else m
  }

  function LowestMode(ss: Sessions, except: Option<Key>): nat {
    if ss == [] then INVALID
    else
      var p := LowestMode(ss[..|ss| - 1], except);
      var last := ss[|ss| - 1];
      if Some(last.key) != except && (p == INVALID || last.options.powerMode < p) then last.options.powerMode else p
  }

  /** The options with the highest power, which checkAndRestartTimeBasedSession looks for. */
  function HighestPower(ss: Sessions): Options {
    if ss == [] then UNSET
    else
      var m := HighestPower(ss[..|ss| - 1]);
      var o := ss[|ss| - 1].options;
      if m.size == 0 || (o.powerMode != INVALID && o.powerMode < m.powerMode) then o else m
  }

  // ----- The engine session --------------------------------------------------------------------

  /** checkAndSetSPEToRunforNHz: the options to use, and whether the engine already runs as needed. */
  function CheckNHz(a: Adapter, o: Options): (r: (Adapter, Options, bool)) {
    if !a.nHzNeeded then (a, o, false)
    else if a.atHighestInterval then (a, o, true)
    else if o.minInterval > MIN_TRACKING_INTERVAL then
      (a.(atHighestInterval := true), o.(minInterval := MIN_TRACKING_INTERVAL), false)
    else (a, o, false)
  }

  /** startTimeBasedTracking, and updateTracking, which differ in what a failed response restores. */
  function Launch(a: Adapter, k: Key, o: Options): (Adapter, seq<Sent>) {
    var (b, p, running) := CheckNHz(a, o);
    if running then (b, [Answer(k, true)]) else (b.(engine := Some(p)), [StartEngine(k, p)])
  }

  function StopTracking(a: Adapter, k: Key): (Adapter, seq<Sent>) {
    (a.(engine := None, atHighestInterval := false), [StopEngine(k)])
  }

  /** No engine command is needed: the client is answered at once. */
  function NoWait(a: Adapter, k: Key): (Adapter, seq<Sent>) {
    (a, [Answer(k, true)])
  }

  function StartMultiplex(a: Adapter, k: Key, o: Options): (Adapter, seq<Sent>) {
    if a.timeBased == [] then Launch(a, k, o)
    else
      var m := Smallest(a.timeBased, None);
      var faster := o.minInterval < m.minInterval;
      var stronger := o.powerMode < LowestMode(a.timeBased, None);
      var m1 := if faster then m.(minInterval := o.minInterval) else m;
      var m2 := if stronger then m1.(powerMode := o.powerMode) else m1;
      if faster || stronger then Launch(a, k, m2) else NoWait(a, k)
  }

  function StopMultiplex(a: Adapter, k: Key): (Adapter, seq<Sent>) {
    if |a.timeBased| == 1 then StopTracking(a, k)
    else if !Has(a.timeBased, k) then NoWait(a, k)
    else
      var o := Find(a.timeBased, k);
      var m := Smallest(a.timeBased, Some(k));
      var p := LowestMode(a.timeBased, Some(k));
      if o.minInterval < m.minInterval || o.powerMode < p then Launch(a, k, m.(powerMode := p)) else NoWait(a, k)
  }

  function UpdateMultiplex(a: Adapter, k: Key, o: Options): (Adapter, seq<Sent>)
    requires Has(a.timeBased, k)
  {
    var was := Find(a.timeBased, k);
    if was.minInterval == o.minInterval && was.powerMode == o.powerMode then NoWait(a, k)
    else
      var m := Smallest(a.timeBased, Some(k));
      var faster := o.minInterval < m.minInterval;
      var stronger := o.powerMode < LowestMode(a.timeBased, Some(k));
      var m1 := if faster then m.(minInterval := o.minInterval) else m;
      var m2 := if stronger then m1.(powerMode := o.powerMode) else m1;
      if |a.timeBased| == 1 then Launch(a, k, o)
      else if faster || stronger then Launch(a, k, m2)
      else NoWait(a, k)
  }

  // ----- Commands ------------------------------------------------------------------------------

  function Save(a: Adapter, k: Key, o: Options): Adapter {
    if o.minDistance > 0 && a.distanceSupported then a.(distanceBased := Put(a.distanceBased, k, o))
    else a.(timeBased := Put(a.timeBased, k, o))
  }

  function EraseSession(a: Adapter, k: Key): Adapter {
    if Has(a.timeBased, k) then a.(timeBased := Erase(a.timeBased, k))
    else a.(distanceBased := Erase(a.distanceBased, k))
  }

  function Clamp(o: Options): Options {
    if o.minInterval < MIN_TRACKING_INTERVAL then o.(minInterval := MIN_TRACKING_INTERVAL) else o
  }

  function FallBackToM2(o: Options): Options {
    if o.powerMode == M4 && o.tbm > TRACKING_TBM_THRESHOLD_MILLIS then o.(powerMode := M2) else o
  }

  /** Starting or switching to a time-based session: multiplex, then save. */
  function StartTimeBased(a: Adapter, k: Key, o: Options): (Adapter, seq<Sent>) {
    var (b, sent) := StartMultiplex(a, k, o);
    (Save(b, k, o), sent)
  }

  function StopTimeBased(a: Adapter, k: Key): (Adapter, seq<Sent>) {
    var (b, sent) := StopMultiplex(a, k);
    (EraseSession(b, k), sent)
  }

  /** MsgStartTracking */
  function Start(a: Adapter, k: Key, options: Options, hasCallbacks: bool): (Adapter, seq<Sent>) {
    if !hasCallbacks || options.size == 0 then (a, [Answer(k, false)])
    else
      var o := Clamp(options);
      if o.minDistance > 0 && a.distanceSupported then (Save(a, k, o), []) else StartTimeBased(a, k, FallBackToM2(o))
  }

  /** MsgUpdateTracking. A switch from distance-based to time-based only erases the session here; it
      is started when the engine has stopped the old one (see DistanceStopped). */
  function Update(a: Adapter, k: Key, options: Options): (Adapter, seq<Sent>) {
    if options.size == 0 || !(Has(a.timeBased, k) || Has(a.distanceBased, k)) then (a, [Answer(k, false)])
    else
      var o := Clamp(FallBackToM2(options));
      if Has(a.timeBased, k) then
        if o.minDistance > 0 then
          var (b, sent) := StopTimeBased(a, k);
          (Save(b, k, o), sent)
        else
          var (b, sent) := UpdateMultiplex(a, k, o);
          (Save(b, k, o), sent)
      else if o.minDistance == 0 then (EraseSession(a, k), [])
      else (a, [])
  }

  /** MsgStopTracking */
  function Stop(a: Adapter, k: Key): (Adapter, seq<Sent>) {
    if Has(a.timeBased, k) then StopTimeBased(a, k)
    else if Has(a.distanceBased, k) then (a, [])
    else (a, [Answer(k, false)])
  }

  /** checkAndRestartSPESession */
  function Restart(a: Adapter): (Adapter, seq<Sent>) {
    var b := a.(atHighestInterval := false);
    if b.timeBased == [] then (b, [])
    else
      var s, p := Smallest(b.timeBased, None), HighestPower(b.timeBased);
      var o := Options(SIZEOF_TRACKING_OPTIONS, s.minInterval, s.minDistance, p.powerMode, p.tbm);
      var (c, q, running) := CheckNHz(b, o);
      if running then (c, []) else (c.(engine := Some(q)), [RestartEngine(q)])
  }

  function Suspend(a: Adapter): (Adapter, seq<Sent>) {
    if a.timeBased == [] then (a, []) else (a.(engine := None, atHighestInterval := false), [HaltEngine])
  }

  // ----- Runs ----------------------------------------------------------------------------------

  datatype Input =
    | StartCommand(key: Key, options: Options, hasCallbacks: bool)
    | UpdateCommand(key: Key, options: Options)
    | StopCommand(key: Key)
    | DistanceStopped(key: Key, options: Options)
    | DistanceErased(key: Key)
    | NHzChanged(needed: bool)
    | ConfigUpdated
    | EngineUp

  function Step(a: Adapter, input: Input): (Adapter, seq<Sent>) {
    match input
    case StartCommand(k, o, hasCallbacks) => Start(a, k, o, hasCallbacks)
    case UpdateCommand(k, o) => Update(a, k, o)
    case StopCommand(k) => Stop(a, k)
    case DistanceStopped(k, o) => StartTimeBased(a, k, Clamp(FallBackToM2(o)))
    case DistanceErased(k) => (EraseSession(a, k), [])
    case NHzChanged(needed) => if needed == a.nHzNeeded then (a, []) else Restart(a.(nHzNeeded := needed))
    case ConfigUpdated =>
      var (b, halt) := Suspend(a);
      var (c, restart) := Restart(b);
      (c, halt + restart)
    case EngineUp => Restart(a.(engine := None))
  }

  function Run(distanceSupported: bool, inputs: seq<Input>): Adapter {
    if inputs == [] then Adapter(distanceSupported, [], [], false, false, None)
    else Step(Run(distanceSupported, inputs[..|inputs| - 1]), inputs[|inputs| - 1]).0
  }
}
