/** What a command does to the sessions, what is sent for it, and how the engine runs after it. */
module TrackingDuties {
  import opened Wrappers
  import opened TrackingModel
  import opened TrackingProperties

  // ----- The engine runs as it was told --------------------------------------------------------

  /** What the messages make of the engine: answers to clients do not reach it. */
  function EngineAfter(engine: Option<Options>, sent: seq<Sent>): Option<Options> {
    if sent == [] then engine
    else
      var before := EngineAfter(engine, sent[..|sent| - 1]);
      match sent[|sent| - 1]
      case StartEngine(_, options) => Some(options)
      case RestartEngine(options) => Some(options)
      case StopEngine(_) => None
      case HaltEngine => None
      case Answer(_, _) => before
  }

  lemma OneMessage(engine: Option<Options>, s: Sent)
    ensures EngineAfter(engine, [s]) ==
      match s
      case StartEngine(_, options) => Some(options)
      case RestartEngine(options) => Some(options)
      case Answer(_, _) => engine
      case _ => None
  {
    assert [s][..0] == [];
  }

  lemma {:induction false} EngineComposes(engine: Option<Options>, a: seq<Sent>, b: seq<Sent>)
    ensures EngineAfter(engine, a + b) == EngineAfter(EngineAfter(engine, a), b)
  {
    if b == [] {
      assert a + b == a;
    } else {
      EngineComposes(engine, a, b[..|b| - 1]);
      assert (a + b)[..|a + b| - 1] == a + b[..|b| - 1];
    }
  }

  /** One message, for the client `k`, and the engine runs as it says. */
  predicate TellsOne(a: Adapter, r: (Adapter, seq<Sent>), k: Key) {
    && |r.1| == 1 && !r.1[0].RestartEngine? && !r.1[0].HaltEngine? && r.1[0].key == k
    && (r.1[0].Answer? ==> r.1[0].success)
    && r.0.engine == EngineAfter(a.engine, r.1)
  }

  lemma LaunchTells(a: Adapter, k: Key, o: Options)
    ensures TellsOne(a, Launch(a, k, o), k)
  {
    OneMessage(a.engine, Launch(a, k, o).1[0]);
    assert Launch(a, k, o).1 == [Launch(a, k, o).1[0]];
  }

  lemma NoWaitTells(a: Adapter, k: Key)
    ensures TellsOne(a, NoWait(a, k), k)
  {
    OneMessage(a.engine, Answer(k, true));
  }

  lemma StopTells(a: Adapter, k: Key)
    ensures TellsOne(a, StopTracking(a, k), k)
  {
    OneMessage(a.engine, StopEngine(k));
  }

  lemma StartMultiplexTells(a: Adapter, k: Key, o: Options)
    ensures TellsOne(a, StartMultiplex(a, k, o), k)
  {
    NoWaitTells(a, k);
    if a.timeBased == [] {
      LaunchTells(a, k, o);
    } else {
      var m := Smallest(a.timeBased, None);
      var m1 := if o.minInterval < m.minInterval then m.(minInterval := o.minInterval) else m;
      LaunchTells(a, k, if o.powerMode < LowestMode(a.timeBased, None) then m1.(powerMode := o.powerMode) else m1);
    }
  }

  lemma UpdateMultiplexTells(a: Adapter, k: Key, o: Options)
    requires Has(a.timeBased, k)
    ensures TellsOne(a, UpdateMultiplex(a, k, o), k)
  {
    NoWaitTells(a, k);
    LaunchTells(a, k, o);
    var m := Smallest(a.timeBased, Some(k));
    var m1 := if o.minInterval < m.minInterval then m.(minInterval := o.minInterval) else m;
    LaunchTells(a, k, if o.powerMode < LowestMode(a.timeBased, Some(k)) then m1.(powerMode := o.powerMode) else m1);
  }

  lemma StopMultiplexTells(a: Adapter, k: Key)
    ensures TellsOne(a, StopMultiplex(a, k), k)
  {
    NoWaitTells(a, k);
    StopTells(a, k);
    LaunchTells(a, k, Smallest(a.timeBased, Some(k)).(powerMode := LowestMode(a.timeBased, Some(k))));
  }

  lemma RestartTells(a: Adapter)
    ensures
      var (b, sent) := Restart(a);
      && b.engine == EngineAfter(a.engine, sent) && |sent| <= 1
      && forall s :: s in sent ==> s.RestartEngine?
  {
    if |Restart(a).1| == 1 {
      OneMessage(a.engine, Restart(a).1[0]);
      assert Restart(a).1 == [Restart(a).1[0]];
    }
  }

  /** The options the engine loses when the modem comes up anew are its own. */
  function EngineBefore(a: Adapter, input: Input): Option<Options> {
    if input == EngineUp then None else a.engine
  }

  lemma ConfigTells(a: Adapter)
    ensures Step(a, ConfigUpdated).0.engine == EngineAfter(a.engine, Step(a, ConfigUpdated).1)
  {
    var b, halt := Suspend(a).0, Suspend(a).1;
    OneMessage(a.engine, HaltEngine);
    RestartTells(b);
    EngineComposes(a.engine, halt, Restart(b).1);
  }

  lemma UpdateTells(a: Adapter, k: Key, options: Options)
    ensures Update(a, k, options).0.engine == EngineAfter(a.engine, Update(a, k, options).1)
  {
    OneMessage(a.engine, Answer(k, false));
    if Has(a.timeBased, k) {
      StopMultiplexTells(a, k);
      UpdateMultiplexTells(a, k, Clamp(FallBackToM2(options)));
    }
  }

  /** After every step the engine runs as the messages sent in it say. */
  lemma StepDrivesEngine(a: Adapter, input: Input)
    ensures Step(a, input).0.engine == EngineAfter(EngineBefore(a, input), Step(a, input).1)
  {
    match input
    case StartCommand(k, options, hasCallbacks) =>
      StartMultiplexTells(a, k, FallBackToM2(Clamp(options)));
      OneMessage(a.engine, Answer(k, false));
    case UpdateCommand(k, options) => UpdateTells(a, k, options);
    case StopCommand(k) =>
      OneMessage(a.engine, Answer(k, false));
      StopMultiplexTells(a, k);
    case DistanceStopped(k, o) => StartMultiplexTells(a, k, Clamp(FallBackToM2(o)));
    case DistanceErased(_) =>
    case NHzChanged(needed) => RestartTells(a.(nHzNeeded := needed));
    case ConfigUpdated => ConfigTells(a);
    case EngineUp => RestartTells(a.(engine := None));
  }

  // ----- What a command is answered ------------------------------------------------------------

  predicate IsCommand(input: Input) {
    input.StartCommand? || input.UpdateCommand? || input.StopCommand?
  }

  /** A start without callbacks or options, an update without options, and whatever names no session. */
  predicate Rejected(a: Adapter, input: Input)
    requires IsCommand(input)
  {
    match input
    case StartCommand(_, options, hasCallbacks) => !hasCallbacks || options.size == 0
    case UpdateCommand(k, options) => options.size == 0 || (!Has(a.timeBased, k) && !Has(a.distanceBased, k))
    case StopCommand(k) => !Has(a.timeBased, k) && !Has(a.distanceBased, k)
  }

  /** The command is for the distance-based engine, which answers it. */
  predicate ForDistance(a: Adapter, input: Input)
    requires IsCommand(input)
  {
    match input
    case StartCommand(_, options, _) => options.minDistance > 0 && a.distanceSupported
    case UpdateCommand(k, _) => !Has(a.timeBased, k)
    case StopCommand(k) => !Has(a.timeBased, k)
  }

  /** A rejected command is answered so and does nothing; one for the distance-based engine sends nothing here; any
      other sends one message, for its own client, which is not a refusal. */
  lemma CommandIsAnswered(a: Adapter, input: Input)
    requires IsCommand(input)
    ensures
      var (b, sent) := Step(a, input);
      if Rejected(a, input) then b == a && sent == [Answer(input.key, false)]
      else if ForDistance(a, input) then sent == [] && b.engine == a.engine
      else TellsOne(a, (b, sent), input.key)
  {
    match input
    case StartCommand(k, options, _) => StartMultiplexTells(a, k, FallBackToM2(Clamp(options)));
    case UpdateCommand(k, options) =>
      if Has(a.timeBased, k) {
        StopMultiplexTells(a, k);
        UpdateMultiplexTells(a, k, Clamp(FallBackToM2(options)));
      }
    case StopCommand(k) => StopMultiplexTells(a, k);
  }

  // ----- What a command does to the sessions ---------------------------------------------------

  /** The options a session gets: at least 100 ms, and M2 instead of M4 when more than eight minutes lie between
      measurements. */
  predicate Adjusted(asked: Options, o: Options) {
    && o.minInterval == (if asked.minInterval < 100 then 100 else asked.minInterval)
    && o.powerMode == (if asked.powerMode == 4 && asked.tbm > 480000 then 2 else asked.powerMode)
    && o.size == asked.size && o.minDistance == asked.minDistance && o.tbm == asked.tbm
  }

  lemma AdjustedOnce(asked: Options)
    ensures Adjusted(asked, Clamp(FallBackToM2(asked))) && Adjusted(asked, FallBackToM2(Clamp(asked)))
  {
  }

  /** `after` is `before` but for the session `k`, which is as `live` says. */
  ghost predicate Becomes(before: Sessions, after: Sessions, k: Key, live: Option<Options>) {
    forall s :: s in after <==> if s.key == k then live == Some(s.options) else s in before
  }

  lemma PutBecomes(ss: Sessions, k: Key, o: Options)
    requires Sorted(ss)
    ensures Becomes(ss, Put(ss, k, o), k, Some(o))
  {
    InPut(ss, k, o);
  }

  lemma EraseBecomes(ss: Sessions, k: Key)
    requires Sorted(ss)
    ensures Becomes(ss, Erase(ss, k), k, None)
  {
    InErase(ss, k);
  }

  /** An accepted start saves its session with adjusted options, as distance-based only where that is supported. */
  lemma StartSaves(a: Adapter, k: Key, asked: Options)
    requires Sorted(a.timeBased) && Sorted(a.distanceBased) && asked.size > 0
    ensures
      var b := Step(a, StartCommand(k, asked, true)).0;
      if asked.minDistance > 0 && a.distanceSupported then
        && b.timeBased == a.timeBased
        && var interval := if asked.minInterval < 100 then 100 else asked.minInterval;
           Becomes(a.distanceBased, b.distanceBased, k, Some(asked.(minInterval := interval)))
      else
        && b.distanceBased == a.distanceBased
        && exists o :: Adjusted(asked, o) && Becomes(a.timeBased, b.timeBased, k, Some(o))
  {
    var o := FallBackToM2(Clamp(asked));
    AdjustedOnce(asked);
    PutBecomes(a.timeBased, k, o);
    PutBecomes(a.distanceBased, k, Clamp(asked));
    StartLeavesSessions(a, k, o);
  }

  lemma StartLeavesSessions(a: Adapter, k: Key, o: Options)
    ensures
      var b := StartMultiplex(a, k, o).0;
      b.timeBased == a.timeBased && b.distanceBased == a.distanceBased && b.distanceSupported == a.distanceSupported
  {
  }

  lemma StopLeavesSessions(a: Adapter, k: Key)
    ensures
      var b := StopMultiplex(a, k).0;
      b.timeBased == a.timeBased && b.distanceBased == a.distanceBased && b.distanceSupported == a.distanceSupported
  {
  }

  lemma UpdateLeavesSessions(a: Adapter, k: Key, o: Options)
    requires Has(a.timeBased, k)
    ensures
      var b := UpdateMultiplex(a, k, o).0;
      b.timeBased == a.timeBased && b.distanceBased == a.distanceBased && b.distanceSupported == a.distanceSupported
  {
  }

  /** An accepted update of a time-based session keeps it as such with adjusted options, or moves it to the
      distance-based ones if it asks for a distance and that is supported. */
  lemma UpdateSaves(a: Adapter, k: Key, asked: Options)
    requires Sorted(a.timeBased) && Sorted(a.distanceBased) && asked.size > 0 && Has(a.timeBased, k)
    ensures
      var b := Step(a, UpdateCommand(k, asked)).0;
      exists o :: Adjusted(asked, o) &&
        if asked.minDistance > 0 && a.distanceSupported then
          Becomes(a.timeBased, b.timeBased, k, None) && Becomes(a.distanceBased, b.distanceBased, k, Some(o))
        else Becomes(a.timeBased, b.timeBased, k, Some(o)) && b.distanceBased == a.distanceBased
  {
    var o := Clamp(FallBackToM2(asked));
    AdjustedOnce(asked);
    var rest := Erase(a.timeBased, k);
    StopLeavesSessions(a, k);
    UpdateLeavesSessions(a, k, o);
    EraseBecomes(a.timeBased, k);
    InErase(a.timeBased, k);
    PutBecomes(a.timeBased, k, o);
    PutBecomes(a.distanceBased, k, o);
    PutBecomes(rest, k, o);
  }

  /** A stop erases a time-based session and no other. */
  lemma StopErases(a: Adapter, k: Key)
    requires Sorted(a.timeBased) && Has(a.timeBased, k)
    ensures
      var b := Step(a, StopCommand(k)).0;
      Becomes(a.timeBased, b.timeBased, k, None) && b.distanceBased == a.distanceBased
  {
    StopLeavesSessions(a, k);
    EraseBecomes(a.timeBased, k);
  }

  /** A distance-based session that an update makes time-based is erased, and started as such when the engine has
      stopped it; a stop of one leaves it until then. */
  lemma DistanceSessions(a: Adapter, k: Key, asked: Options)
    requires Sorted(a.timeBased) && Sorted(a.distanceBased) && asked.size > 0
    requires !Has(a.timeBased, k) && Has(a.distanceBased, k)
    ensures
      var b := Step(a, UpdateCommand(k, asked)).0;
      && b.timeBased == a.timeBased
      && if asked.minDistance == 0 then Becomes(a.distanceBased, b.distanceBased, k, None) else b == a
    ensures Step(a, StopCommand(k)).0 == a
    ensures Becomes(a.distanceBased, Step(a, DistanceErased(k)).0.distanceBased, k, None)
    ensures
      var b := Step(a, DistanceStopped(k, asked.(minDistance := 0))).0;
      exists o :: Adjusted(asked.(minDistance := 0), o) && Becomes(a.timeBased, b.timeBased, k, Some(o))
  {
    var o := Clamp(FallBackToM2(asked.(minDistance := 0)));
    AdjustedOnce(asked.(minDistance := 0));
    EraseBecomes(a.distanceBased, k);
    PutBecomes(a.timeBased, k, o);
    StartLeavesSessions(a, k, o);
  }

  // ----- Power modes ---------------------------------------------------------------------------

  ghost predicate ModesSet(ss: Sessions, except: Option<Key>) {
    forall s :: s in ss && Some(s.key) != except ==> s.options.powerMode != INVALID
  }

  /** Where every mode is set, the loop finds the lowest, which is the one with the most power. */
  lemma {:induction false} LowestModeIs(ss: Sessions, except: Option<Key>)
    requires ModesSet(ss, except)
    ensures
      var p := LowestMode(ss, except);
      && (p == INVALID <==> forall s :: s in ss ==> Some(s.key) == except)
      && (p != INVALID ==> exists s :: s in ss && Some(s.key) != except && s.options.powerMode == p)
      && (forall s :: s in ss && Some(s.key) != except ==> p <= s.options.powerMode)
  {
    if ss != [] {
      var front, last := ss[..|ss| - 1], ss[|ss| - 1];
      assert ss == front + [last];
      LowestModeIs(front, except);
    }
  }

  predicate Weaker(o: Options, h: Options) {
    o.powerMode == INVALID || h.powerMode < o.powerMode
  }

  /** `i` is the place of the first of the sessions with the lowest mode that is set, and `h` are its options. */
  predicate StrongestAt(ss: Sessions, h: Options, i: int) {
    && 0 <= i < |ss| && ss[i].options == h && h.powerMode != INVALID
    && (forall j :: 0 <= j < i ==> Weaker(ss[j].options, h))
    && (forall j :: i <= j < |ss| ==> Weaker(ss[j].options, h) || ss[j].options.powerMode == h.powerMode)
  }

  lemma OneMoreSession(ss: Sessions, m: Options, i: int) returns (k: int)
    requires ss != [] && StrongestAt(ss[..|ss| - 1], m, i)
    ensures
      var o := ss[|ss| - 1].options;
      StrongestAt(ss, if o.powerMode != INVALID && o.powerMode < m.powerMode then o else m, k)
  {
    var n := |ss| - 1;
    var o := ss[n].options;
    assert forall j :: 0 <= j < n ==> ss[j] == ss[..n][j];
    k := if o.powerMode != INVALID && o.powerMode < m.powerMode then n else i;
  }

  predicate SizesSet(ss: Sessions) {
    forall i :: 0 <= i < |ss| ==> ss[i].options.size > 0
  }

  /** The options of the first of the sessions with the lowest mode that is set, unless the first session of all has
      none set: its options then stand. */
  lemma {:induction false} HighestPowerIs(ss: Sessions) returns (i: int)
    requires ss != [] && SizesSet(ss)
    ensures
      if ss[0].options.powerMode == INVALID then HighestPower(ss) == ss[0].options
      else StrongestAt(ss, HighestPower(ss), i)
  {
    var n := |ss| - 1;
    i := 0;
    if n > 0 {
      assert SizesSet(ss[..n]) && ss[..n][0] == ss[0];
      i := HighestPowerIs(ss[..n]);
      if ss[0].options.powerMode != INVALID {
        assert HighestPower(ss[..n]) == ss[..n][i].options;
        i := OneMoreSession(ss, HighestPower(ss[..n]), i);
      }
    } else {
      assert HighestPower(ss[..0]) == UNSET;
    }
  }

  /** The engine already runs for NHz, and does not take new options. */
  predicate Fixed(a: Adapter) {
    a.nHzNeeded && a.atHighestInterval
  }

  /** A start with a lower mode than any live session puts the engine in that mode, unless it is fixed. */
  lemma StartSetsMode(a: Adapter, k: Key, asked: Options)
    requires a.timeBased != [] && ModesSet(a.timeBased, None) && asked.size > 0
    requires !(asked.minDistance > 0 && a.distanceSupported)
    requires forall s :: s in a.timeBased ==> FallBackToM2(asked).powerMode < s.options.powerMode
    ensures
      var b := Step(a, StartCommand(k, asked, true)).0;
      if Fixed(a) then b.engine == a.engine
      else b.engine.Some? && b.engine.value.powerMode == FallBackToM2(asked).powerMode
  {
    LowestModeIs(a.timeBased, None);
    assert a.timeBased[0] in a.timeBased;
  }

  /** A stop that changes the engine's options leaves it in the lowest mode of the sessions that remain. */
  lemma StopSetsMode(a: Adapter, k: Key)
    requires Serves(a) && Has(a.timeBased, k) && |a.timeBased| > 1 && ModesSet(a.timeBased, Some(k))
    requires StoppedInterval(a, k).Some? && !Fixed(a)
    ensures
      var b := Step(a, StopCommand(k)).0;
      && b.engine.Some?
      && (exists s :: s in b.timeBased && s.options.powerMode == b.engine.value.powerMode)
      && forall s :: s in b.timeBased ==> b.engine.value.powerMode <= s.options.powerMode
  {
    LowestModeIs(a.timeBased, Some(k));
    InErase(a.timeBased, k);
    SomeOther(a.timeBased, k);
  }

  /** A restart sends the smallest interval with its distance, and the highest power with its time between
      measurements; only an NHz need shortens the interval. */
  lemma RestartSends(a: Adapter)
    requires a.timeBased != [] && forall s :: s in a.timeBased ==> ValidOptions(s.options)
    ensures
      var o, h := Restart(a).0.engine, HighestPower(a.timeBased);
      && o.Some? && o.value.powerMode == h.powerMode && o.value.tbm == h.tbm
      && exists s :: s in a.timeBased && s.options.minDistance == o.value.minDistance
           && (forall t :: t in a.timeBased ==> s.options.minInterval <= t.options.minInterval)
           && o.value.minInterval == if a.nHzNeeded then 100 else s.options.minInterval
    ensures Restart(a).1 == [RestartEngine(Restart(a).0.engine.value)]
  {
    AnySession(a.timeBased);
    SmallestIsSmallest(a.timeBased, None);
    var m := Smallest(a.timeBased, None);
    var s :| s in a.timeBased && Some(s.key) != None && s.options == m;
    assert m.minInterval >= MIN_TRACKING_INTERVAL;
  }

  /** In NHz mode the engine is started once, at 100 ms if a session asks for less often; what other sessions ask for
      after that is answered at once. */
  lemma FastEngineIsLeftAlone(a: Adapter, k: Key, o: Options, l: Key, p: Options)
    requires a.nHzNeeded && o.minInterval > 100
    ensures
      var (b, sent) := Launch(a, k, o);
      && sent == (if a.atHighestInterval then [Answer(k, true)] else [StartEngine(k, o.(minInterval := 100))])
      && Launch(b, l, p) == (b, [Answer(l, true)])
  {
  }

  /** A new constellation configuration halts the engine before it is told its options again. */
  lemma ConfigUpdateSends(a: Adapter)
    ensures
      var sent := Step(a, ConfigUpdated).1;
      if a.timeBased == [] then sent == []
      else |sent| == 2 && sent[0] == HaltEngine && sent[1].RestartEngine?
  {
  }

  // ----- What else the engine's options hold ---------------------------------------------------

  /** `i` is the place of the first session, apart from `except`, that has the smallest interval; `o` are its
      options. */
  ghost predicate FirstAt(ss: Sessions, except: Option<Key>, o: Options, i: int) {
    && 0 <= i < |ss| && Some(ss[i].key) != except && ss[i].options == o
    && (forall j :: 0 <= j < i && Some(ss[j].key) != except ==> o.minInterval < ss[j].options.minInterval)
    && (forall j :: i <= j < |ss| && Some(ss[j].key) != except ==> o.minInterval <= ss[j].options.minInterval)
  }

  lemma {:induction false} SmallestIsFirst(ss: Sessions, except: Option<Key>) returns (i: int)
    requires AllSet(ss) && exists s :: s in ss && Some(s.key) != except
    ensures FirstAt(ss, except, Smallest(ss, except), i)
  {
    var n := |ss| - 1;
    var front, last := ss[..n], ss[n];
    assert ss == front + [last];
    SmallestIsSmallest(front, except);
    i := n;
    if exists s :: s in front && Some(s.key) != except {
      var m := Smallest(front, except);
      i := SmallestIsFirst(front, except);
      if Some(last.key) != except && last.options.minInterval < m.minInterval {
        LastIsFirst(ss, except, m);
        i := n;
      } else {
        FrontIsFirst(ss, except, m, i);
      }
    } else {
      OnlyLast(ss, except);
    }
  }

  lemma LastIsFirst(ss: Sessions, except: Option<Key>, m: Options)
    requires ss != [] && Some(ss[|ss| - 1].key) != except && ss[|ss| - 1].options.minInterval < m.minInterval
    requires IsSmallest(ss[..|ss| - 1], except, m)
    ensures FirstAt(ss, except, ss[|ss| - 1].options, |ss| - 1)
  {
    assert forall j :: 0 <= j < |ss| - 1 ==> ss[j] in ss[..|ss| - 1];
  }

  lemma FrontIsFirst(ss: Sessions, except: Option<Key>, m: Options, i: int)
    requires ss != [] && FirstAt(ss[..|ss| - 1], except, m, i)
    requires Some(ss[|ss| - 1].key) != except ==> m.minInterval <= ss[|ss| - 1].options.minInterval
    ensures FirstAt(ss, except, m, i)
  {
    assert forall j :: 0 <= j < |ss| - 1 ==> ss[j] == ss[..|ss| - 1][j];
  }

  lemma OnlyLast(ss: Sessions, except: Option<Key>)
    requires ss != [] && Some(ss[|ss| - 1].key) != except
    requires forall s :: s in ss[..|ss| - 1] ==> Some(s.key) == except
    ensures FirstAt(ss, except, ss[|ss| - 1].options, |ss| - 1)
  {
    assert forall j :: 0 <= j < |ss| - 1 ==> ss[j] in ss[..|ss| - 1];
  }

  /** The engine gets the distance and the time between measurements of `m`. */
  predicate TakesRest(sent: seq<Sent>, k: Key, m: Options) {
    sent == [Answer(k, true)] ||
    (|sent| == 1 && sent[0].StartEngine? && sent[0].key == k
     && sent[0].options.minDistance == m.minDistance && sent[0].options.tbm == m.tbm)
  }

  /** The engine gets the rest of its options from the first session, apart from `except`, that has the smallest
      interval. */
  ghost predicate RestIsOfFirst(sent: seq<Sent>, k: Key, ss: Sessions, except: Option<Key>) {
    exists m, i :: FirstAt(ss, except, m, i) && TakesRest(sent, k, m)
  }

  lemma StartTakesRest(a: Adapter, k: Key, o: Options)
    requires AllSet(a.timeBased) && a.timeBased != []
    ensures RestIsOfFirst(StartMultiplex(a, k, o).1, k, a.timeBased, None)
  {
    assert a.timeBased[0] in a.timeBased && Some(a.timeBased[0].key) != None;
    var i := SmallestIsFirst(a.timeBased, None);
    assert TakesRest(StartMultiplex(a, k, o).1, k, Smallest(a.timeBased, None));
  }

  lemma StopTakesRest(a: Adapter, k: Key)
    requires AllSet(a.timeBased) && |a.timeBased| > 1 && exists s :: s in a.timeBased && Some(s.key) != Some(k)
    ensures RestIsOfFirst(StopMultiplex(a, k).1, k, a.timeBased, Some(k))
  {
    var i := SmallestIsFirst(a.timeBased, Some(k));
    assert TakesRest(StopMultiplex(a, k).1, k, Smallest(a.timeBased, Some(k)));
  }

  lemma UpdateTakesRest(a: Adapter, k: Key, o: Options)
    requires AllSet(a.timeBased) && |a.timeBased| > 1 && exists s :: s in a.timeBased && Some(s.key) != Some(k)
    requires Has(a.timeBased, k)
    ensures RestIsOfFirst(UpdateMultiplex(a, k, o).1, k, a.timeBased, Some(k))
  {
    var i := SmallestIsFirst(a.timeBased, Some(k));
    assert TakesRest(UpdateMultiplex(a, k, o).1, k, Smallest(a.timeBased, Some(k)));
  }
}
