/** The engine runs fast enough for every session, and exactly as fast as needed unless an update
    slowed a session down. */
module TrackingProperties {
  import opened Wrappers
  import opened TrackingModel

  // ----- The session map -----------------------------------------------------------------------

  ghost predicate Sorted(ss: Sessions) {
    forall i, j :: 0 <= i < j < |ss| ==> Before(ss[i].key, ss[j].key)
  }

  lemma ConsSorted(s: Session, rest: Sessions)
    ensures Sorted([s] + rest) <==> Sorted(rest) && forall t :: t in rest ==> Before(s.key, t.key)
  {
    var all := [s] + rest;
    if Sorted(all) {
      forall i, j | 0 <= i < j < |rest|
        ensures Before(rest[i].key, rest[j].key)
      {
        assert Before(all[i + 1].key, all[j + 1].key);
      }
      forall t | t in rest
        ensures Before(s.key, t.key)
      {
        var i :| 0 <= i < |rest| && rest[i] == t;
        assert Before(all[0].key, all[i + 1].key);
      }
    }
  }

  lemma {:induction false} InPut(ss: Sessions, k: Key, o: Options)
    requires Sorted(ss)
    ensures Sorted(Put(ss, k, o))
    ensures forall s :: s in Put(ss, k, o) <==> s == Session(k, o) || (s in ss && s.key != k)
  {
    if ss != [] {
      var rest := ss[1..];
      assert ss == [ss[0]] + rest;
      ConsSorted(ss[0], rest);
      if ss[0].key == k {
        ConsSorted(Session(k, o), rest);
      } else if Before(k, ss[0].key) {
        ConsSorted(Session(k, o), ss);
      } else {
        InPut(rest, k, o);
        ConsSorted(ss[0], Put(rest, k, o));
      }
    }
  }

  lemma {:induction false} InErase(ss: Sessions, k: Key)
    requires Sorted(ss)
    ensures Sorted(Erase(ss, k))
    ensures forall s :: s in Erase(ss, k) <==> s in ss && s.key != k
  {
    if ss != [] {
      var rest := ss[1..];
      assert ss == [ss[0]] + rest;
      ConsSorted(ss[0], rest);
      if ss[0].key != k {
        InErase(rest, k);
        ConsSorted(ss[0], Erase(rest, k));
      }
    }
  }

  lemma OneSessionPerKey(ss: Sessions, s: Session, t: Session)
    requires Sorted(ss) && s in ss && t in ss && s.key == t.key
    ensures s == t
  {
  }

  // ----- The loops -----------------------------------------------------------------------------

  ghost predicate AllSet(ss: Sessions) {
    forall s :: s in ss ==> s.options.size > 0
  }

  /** `o` belongs to some session other than `except`, and no other of those has a smaller interval. */
  ghost predicate IsSmallest(ss: Sessions, except: Option<Key>, o: Options) {
    && (exists s :: s in ss && Some(s.key) != except && s.options == o)
    && forall s :: s in ss && Some(s.key) != except ==> o.minInterval <= s.options.minInterval
  }

  lemma {:induction false} SmallestIsSmallest(ss: Sessions, except: Option<Key>)
    requires AllSet(ss)
    ensures
      if exists s :: s in ss && Some(s.key) != except then IsSmallest(ss, except, Smallest(ss, except))
      else Smallest(ss, except) == UNSET
  {
    if ss != [] {
      var init, last := ss[..|ss| - 1], ss[|ss| - 1];
      assert ss == init + [last];
      SmallestIsSmallest(init, except);
    }
  }

  // ----- The invariant -------------------------------------------------------------------------

  ghost predicate ValidOptions(o: Options) {
    o.size > 0 && o.minInterval >= MIN_TRACKING_INTERVAL
  }

  ghost predicate FlagMeansHighest(a: Adapter) {
    a.atHighestInterval ==> a.nHzNeeded && a.engine.Some? && a.engine.value.minInterval == MIN_TRACKING_INTERVAL
  }

  /** The engine runs exactly when there is a time-based session, and never slower than one asks. */
  ghost predicate Serves(a: Adapter) {
    && Sorted(a.timeBased)
    && (forall s :: s in a.timeBased ==> ValidOptions(s.options))
    && FlagMeansHighest(a)
    && (a.timeBased == [] ==> a.engine == None)
    && (a.timeBased != [] ==>
          && a.engine.Some?
          && (a.nHzNeeded ==> a.engine.value.minInterval == MIN_TRACKING_INTERVAL)
          && forall s :: s in a.timeBased ==> a.engine.value.minInterval <= s.options.minInterval)
  }

  /** Without NHz need the engine runs no faster than some session asks: with `Serves`, at the minimum. */
  ghost predicate Exact(a: Adapter) {
    a.timeBased != [] && !a.nHzNeeded ==>
      a.engine.Some? && exists s :: s in a.timeBased && s.options.minInterval == a.engine.value.minInterval
  }

  predicate Launched(a: Adapter, b: Adapter, interval: nat) {
    && b == a.(engine := b.engine, atHighestInterval := b.atHighestInterval)
    && b.engine.Some?
    && b.engine.value.minInterval == if a.nHzNeeded then MIN_TRACKING_INTERVAL else interval
  }

  lemma LaunchRuns(a: Adapter, k: Key, o: Options)
    requires FlagMeansHighest(a) && o.minInterval >= MIN_TRACKING_INTERVAL
    ensures Launched(a, Launch(a, k, o).0, o.minInterval) && FlagMeansHighest(Launch(a, k, o).0)
  {
  }

  lemma SomeOther(ss: Sessions, k: Key)
    requires Sorted(ss)
    ensures (exists s :: s in ss && s.key != k) <==> Erase(ss, k) != []
    ensures |ss| > 1 ==> exists s :: s in ss && s.key != k
    ensures |ss| == 1 && Has(ss, k) ==> Erase(ss, k) == []
  {
    InErase(ss, k);
    if |ss| > 1 {
      assert Before(ss[0].key, ss[1].key);
      assert ss[0] in ss && ss[1] in ss;
    }
    if Erase(ss, k) != [] {
      assert Erase(ss, k)[0] in Erase(ss, k);
    }
  }

  lemma AnySession(ss: Sessions)
    requires ss != []
    ensures exists s :: s in ss && Some(s.key) != None
  {
    assert ss[0] in ss;
  }

  /** The interval a start leaves the engine with; None when it sends no engine command. */
  function StartedInterval(a: Adapter, o: Options): Option<nat> {
    var m := Smallest(a.timeBased, None);
    if a.timeBased == [] || o.minInterval < m.minInterval then Some(o.minInterval)
    else if o.powerMode < LowestMode(a.timeBased, None) then Some(m.minInterval)
    else None
  }

  lemma StartSends(a: Adapter, k: Key, o: Options)
    requires Serves(a) && ValidOptions(o)
    ensures
      var (b, sent) := StartMultiplex(a, k, o);
      && |sent| == 1
      && FlagMeansHighest(b)
      && match StartedInterval(a, o)
         case None => b == a
         case Some(interval) => Launched(a, b, interval)
  {
    if a.timeBased == [] {
      LaunchRuns(a, k, o);
    } else if StartedInterval(a, o).Some? {
      AnySession(a.timeBased);
      SmallestIsSmallest(a.timeBased, None);
      var m := Smallest(a.timeBased, None);
      var m1 := if o.minInterval < m.minInterval then m.(minInterval := o.minInterval) else m;
      LaunchRuns(a, k, if o.powerMode < LowestMode(a.timeBased, None) then m1.(powerMode := o.powerMode) else m1);
    }
  }

  /** A new session: the engine follows the minimum, and the client is answered once. */
  lemma StartKeeps(a: Adapter, k: Key, o: Options)
    requires Serves(a) && ValidOptions(o) && !(o.minDistance > 0 && a.distanceSupported)
    ensures
      var (b, sent) := StartTimeBased(a, k, o);
      && Serves(b) && |sent| == 1
      && (Exact(a) && !Has(a.timeBased, k) ==> Exact(b))
  {
    var b := StartTimeBased(a, k, o).0;
    StartSends(a, k, o);
    InPut(a.timeBased, k, o);
    assert Session(k, o) in b.timeBased;
    if a.timeBased != [] {
      AnySession(a.timeBased);
      SmallestIsSmallest(a.timeBased, None);
    }
  }

  /** The interval a stop leaves the engine with, when other sessions remain. */
  function StoppedInterval(a: Adapter, k: Key): Option<nat>
    requires Has(a.timeBased, k)
  {
    var o, m := Find(a.timeBased, k), Smallest(a.timeBased, Some(k));
    if o.minInterval < m.minInterval || o.powerMode < LowestMode(a.timeBased, Some(k)) then Some(m.minInterval)
    else None
  }

  lemma OthersSmallest(a: Adapter, k: Key)
    requires Serves(a) && |a.timeBased| > 1
    ensures IsSmallest(a.timeBased, Some(k), Smallest(a.timeBased, Some(k)))
  {
    SomeOther(a.timeBased, k);
    SmallestIsSmallest(a.timeBased, Some(k));
  }

  lemma StopSends(a: Adapter, k: Key)
    requires Serves(a) && Has(a.timeBased, k) && |a.timeBased| > 1
    ensures
      var (b, sent) := StopMultiplex(a, k);
      && |sent| == 1
      && FlagMeansHighest(b)
      && match StoppedInterval(a, k)
         case None => b == a
         case Some(interval) => Launched(a, b, interval)
  {
    var m, p := Smallest(a.timeBased, Some(k)), LowestMode(a.timeBased, Some(k));
    if StoppedInterval(a, k).Some? {
      assert m.minInterval >= MIN_TRACKING_INTERVAL by {
        OthersSmallest(a, k);
      }
      LaunchRuns(a, k, m.(powerMode := p));
    }
  }

  lemma StopMultiplexKeeps(a: Adapter, k: Key)
    requires Serves(a) && Has(a.timeBased, k)
    ensures
      var (b, sent) := StopMultiplex(a, k);
      && b == a.(engine := b.engine, atHighestInterval := b.atHighestInterval)
      && |sent| == 1
      && Serves(b.(timeBased := Erase(a.timeBased, k)))
      && (Exact(a) ==> Exact(b.(timeBased := Erase(a.timeBased, k))))
  {
    InErase(a.timeBased, k);
    SomeOther(a.timeBased, k);
    if |a.timeBased| > 1 {
      StopSends(a, k);
      OthersSmallest(a, k);
      forall s | s in a.timeBased && s.key == k
        ensures s == Session(k, Find(a.timeBased, k))
      {
        OneSessionPerKey(a.timeBased, s, Session(k, Find(a.timeBased, k)));
      }
    }
  }

  lemma StopKeeps(a: Adapter, k: Key)
    requires Serves(a) && Has(a.timeBased, k)
    ensures
      var (b, sent) := StopTimeBased(a, k);
      Serves(b) && |sent| == 1 && (Exact(a) ==> Exact(b)) && !Has(b.timeBased, k)
  {
    StopMultiplexKeeps(a, k);
    InErase(a.timeBased, k);
  }

  /** The update that leaves the engine running faster than any session asks: the updated session
      alone kept the engine fast, slows down to at most the others' speed, and no engine command
      is sent because its power does not rise above theirs. */
  ghost predicate SlowsDownUnnoticed(a: Adapter, k: Key, o: Options)
    requires Has(a.timeBased, k)
  {
    var was, m := Find(a.timeBased, k), Smallest(a.timeBased, Some(k));
    && |a.timeBased| > 1
    && was.minInterval < m.minInterval <= o.minInterval
    && o.powerMode >= LowestMode(a.timeBased, Some(k))
  }

  /** The interval an update leaves the engine with; None when it sends no engine command. */
  function UpdatedInterval(a: Adapter, k: Key, o: Options): Option<nat>
    requires Has(a.timeBased, k)
  {
    var was, m := Find(a.timeBased, k), Smallest(a.timeBased, Some(k));
    if was.minInterval == o.minInterval && was.powerMode == o.powerMode then None
    else if |a.timeBased| == 1 || o.minInterval < m.minInterval then Some(o.minInterval)
    else if o.powerMode < LowestMode(a.timeBased, Some(k)) then Some(m.minInterval)
    else None
  }

  lemma UpdateSends(a: Adapter, k: Key, o: Options)
    requires Serves(a) && Has(a.timeBased, k) && ValidOptions(o)
    ensures
      var (b, sent) := UpdateMultiplex(a, k, o);
      && |sent| == 1
      && FlagMeansHighest(b)
      && match UpdatedInterval(a, k, o)
         case None => b == a
         case Some(interval) => Launched(a, b, interval)
  {
    var m := Smallest(a.timeBased, Some(k));
    if UpdatedInterval(a, k, o).Some? {
      if |a.timeBased| == 1 {
        LaunchRuns(a, k, o);
      } else {
        SomeOther(a.timeBased, k);
        SmallestIsSmallest(a.timeBased, Some(k));
        var m1 := if o.minInterval < m.minInterval then m.(minInterval := o.minInterval) else m;
        LaunchRuns(a, k, if o.powerMode < LowestMode(a.timeBased, Some(k)) then m1.(powerMode := o.powerMode) else m1);
      }
    }
  }

  /** The sessions after the update are the updated one and the others, whose smallest is `m`. */
  lemma UpdatedSessions(a: Adapter, k: Key, o: Options)
    requires Serves(a) && Has(a.timeBased, k)
    ensures
      var ss := Put(a.timeBased, k, o);
      && Sorted(ss) && Session(k, o) in ss
      && (forall s :: s in ss <==> s == Session(k, o) || (s in a.timeBased && s.key != k))
      && (forall s :: s in a.timeBased && s.key == k ==> s == Session(k, Find(a.timeBased, k)))
      && (|a.timeBased| == 1 ==> forall s :: s in ss ==> s == Session(k, o))
      && (|a.timeBased| > 1 ==> IsSmallest(a.timeBased, Some(k), Smallest(a.timeBased, Some(k))))
  {
    InPut(a.timeBased, k, o);
    SomeOther(a.timeBased, k);
    SmallestIsSmallest(a.timeBased, Some(k));
    forall s | s in a.timeBased && s.key == k
      ensures s == Session(k, Find(a.timeBased, k))
    {
      OneSessionPerKey(a.timeBased, s, Session(k, Find(a.timeBased, k)));
    }
  }

  lemma UpdateServes(a: Adapter, k: Key, o: Options)
    requires Serves(a) && Has(a.timeBased, k) && ValidOptions(o) && !(o.minDistance > 0 && a.distanceSupported)
    ensures Serves(Save(UpdateMultiplex(a, k, o).0, k, o)) && |UpdateMultiplex(a, k, o).1| == 1
  {
    UpdateSends(a, k, o);
    UpdatedSessions(a, k, o);
  }

  /** Exactly the updates that slow a session down unnoticed lose the minimum. */
  lemma UpdateExactIff(a: Adapter, k: Key, o: Options)
    requires Serves(a) && Exact(a) && Has(a.timeBased, k)
    requires ValidOptions(o) && !(o.minDistance > 0 && a.distanceSupported)
    ensures Exact(Save(UpdateMultiplex(a, k, o).0, k, o)) <==> a.nHzNeeded || !SlowsDownUnnoticed(a, k, o)
  {
    UpdateSends(a, k, o);
    UpdatedSessions(a, k, o);
  }

  lemma RestartKeeps(a: Adapter)
    requires Sorted(a.timeBased) && (forall s :: s in a.timeBased ==> ValidOptions(s.options))
    requires a.timeBased == [] ==> a.engine == None
    ensures Serves(Restart(a).0) && Exact(Restart(a).0)
  {
    if a.timeBased != [] {
      AnySession(a.timeBased);
      SmallestIsSmallest(a.timeBased, None);
    }
  }

  lemma StopKeepsSupport(a: Adapter, k: Key)
    requires Serves(a) && Has(a.timeBased, k)
    ensures StopTimeBased(a, k).0.distanceSupported == a.distanceSupported
  {
  }

  lemma SaveServesIff(b: Adapter, k: Key, o: Options)
    requires Serves(b) && ValidOptions(o)
    ensures
      Serves(b.(timeBased := Put(b.timeBased, k, o))) <==> b.engine.Some? && b.engine.value.minInterval <= o.minInterval
  {
    InPut(b.timeBased, k, o);
    assert Session(k, o) in Put(b.timeBased, k, o);
  }

  /** The interval the engine runs at when `k` has stopped and other sessions remain. */
  function IntervalAfterStop(a: Adapter, k: Key): nat
    requires Has(a.timeBased, k) && a.engine.Some?
  {
    match StoppedInterval(a, k)
    case None => a.engine.value.minInterval
    case Some(interval) => if a.nHzNeeded then MIN_TRACKING_INTERVAL else interval
  }

  /** Distance tracking is supported, or others keep the engine fast enough for `o` when `k` has stopped. */
  predicate SwitchIsServed(a: Adapter, k: Key, o: Options)
    requires Has(a.timeBased, k)
  {
    a.distanceSupported || (|a.timeBased| > 1 && a.engine.Some? && IntervalAfterStop(a, k) <= o.minInterval)
  }

  /** A time-based session that asks for a distance: where distance tracking is not supported the
      session is saved as time-based again, though the engine has been told that it stopped. The
      engine then still serves it only if the others keep it fast enough. */
  lemma SwitchToDistanceIff(a: Adapter, k: Key, o: Options)
    requires Serves(a) && Has(a.timeBased, k) && ValidOptions(o) && o.minDistance > 0
    ensures Serves(Save(StopTimeBased(a, k).0, k, o)) <==> SwitchIsServed(a, k, o)
  {
    StopKeepsSupport(a, k);
    StopKeeps(a, k);
    SaveServesIff(StopTimeBased(a, k).0, k, o);
    EngineAfterStop(a, k);
  }

  lemma EngineAfterStop(a: Adapter, k: Key)
    requires Serves(a) && Has(a.timeBased, k)
    ensures
      var b := StopTimeBased(a, k).0;
      if |a.timeBased| == 1 then b.engine == None
      else b.engine.Some? && b.engine.value.minInterval == IntervalAfterStop(a, k)
  {
    if |a.timeBased| > 1 {
      StopSends(a, k);
    }
  }

  /** Such a session does not disturb the minimum over the others. */
  lemma SwitchExact(a: Adapter, k: Key, o: Options)
    requires Serves(a) && Exact(a) && Has(a.timeBased, k)
    requires ValidOptions(o) && o.minDistance > 0 && SwitchIsServed(a, k, o)
    ensures Exact(Save(StopTimeBased(a, k).0, k, o))
  {
    var b := StopTimeBased(a, k).0;
    StopKeepsSupport(a, k);
    StopKeeps(a, k);
    if !a.distanceSupported {
      EngineAfterStop(a, k);
      InPut(b.timeBased, k, o);
      if !b.nHzNeeded {
        var s :| s in b.timeBased && s.options.minInterval == b.engine.value.minInterval;
        assert s in Put(b.timeBased, k, o);
      }
    }
  }

  // ----- Runs ----------------------------------------------------------------------------------

  /** Responses come in the order of the commands: a session that a stop or switch has reached is
      not live as a time-based one, and the options of a switched session ask for no distance. */
  ghost predicate InOrder(a: Adapter, input: Input) {
    match input
    case DistanceStopped(k, o) => !Has(a.timeBased, k) && o.size > 0 && o.minDistance == 0
    case DistanceErased(k) => !Has(a.timeBased, k)
    case _ => true
  }

  /** An update that asks for a distance is one that stays served. */
  predicate SwitchesServed(a: Adapter, input: Input) {
    input.UpdateCommand? && Has(a.timeBased, input.key) && input.options.minDistance > 0 ==>
      SwitchIsServed(a, input.key, Clamp(FallBackToM2(input.options)))
  }

  /** Starts are for new sessions, and no update slows the fastest session down unnoticed. */
  ghost predicate KeepsMinimum(a: Adapter, input: Input) {
    && (input.StartCommand? ==> !Has(a.timeBased, input.key))
    && (input.UpdateCommand? && input.options.minDistance == 0 && Has(a.timeBased, input.key) ==>
          a.nHzNeeded || !SlowsDownUnnoticed(a, input.key, Clamp(FallBackToM2(input.options))))
  }

  lemma StepServes(a: Adapter, input: Input)
    requires Serves(a) && InOrder(a, input) && SwitchesServed(a, input)
    ensures Serves(Step(a, input).0)
  {
    match input
    case StartCommand(k, o, hasCallbacks) =>
      if o.size > 0 && !(o.minDistance > 0 && a.distanceSupported) {
        StartKeeps(a, k, FallBackToM2(Clamp(o)));
      }
    case UpdateCommand(k, options) =>
      var o := Clamp(FallBackToM2(options));
      if o.size > 0 && Has(a.timeBased, k) {
        if o.minDistance > 0 {
          SwitchToDistanceIff(a, k, o);
        } else {
          UpdateServes(a, k, o);
        }
      }
    case StopCommand(k) =>
      if Has(a.timeBased, k) {
        StopKeeps(a, k);
      }
    case DistanceStopped(k, o) => StartKeeps(a, k, Clamp(FallBackToM2(o)));
    case DistanceErased(k) =>
    case NHzChanged(needed) =>
      if needed != a.nHzNeeded {
        RestartKeeps(a.(nHzNeeded := needed));
      }
    case ConfigUpdated => RestartKeeps(Suspend(a).0);
    case EngineUp => RestartKeeps(a.(engine := None));
  }

  lemma StepExact(a: Adapter, input: Input)
    requires Serves(a) && Exact(a) && InOrder(a, input) && SwitchesServed(a, input) && KeepsMinimum(a, input)
    ensures Exact(Step(a, input).0)
  {
    match input
    case StartCommand(k, o, hasCallbacks) =>
      if o.size > 0 && !(o.minDistance > 0 && a.distanceSupported) {
        StartKeeps(a, k, FallBackToM2(Clamp(o)));
      }
    case UpdateCommand(k, options) =>
      var o := Clamp(FallBackToM2(options));
      if o.size > 0 && Has(a.timeBased, k) {
        if o.minDistance > 0 {
          SwitchExact(a, k, o);
        } else {
          UpdateExactIff(a, k, o);
        }
      }
    case StopCommand(k) =>
      if Has(a.timeBased, k) {
        StopKeeps(a, k);
      }
    case DistanceStopped(k, o) => StartKeeps(a, k, Clamp(FallBackToM2(o)));
    case DistanceErased(k) =>
    case NHzChanged(needed) =>
      if needed != a.nHzNeeded {
        RestartKeeps(a.(nHzNeeded := needed));
      }
    case ConfigUpdated => RestartKeeps(Suspend(a).0);
    case EngineUp => RestartKeeps(a.(engine := None));
  }

  ghost predicate RunInOrder(supported: bool, inputs: seq<Input>) {
    forall i :: 0 <= i < |inputs| ==> InOrder(Run(supported, inputs[..i]), inputs[i])
  }

  ghost predicate NoBlindSwitch(supported: bool, inputs: seq<Input>) {
    forall i :: 0 <= i < |inputs| ==> SwitchesServed(Run(supported, inputs[..i]), inputs[i])
  }

  ghost predicate NoSlowDown(supported: bool, inputs: seq<Input>) {
    forall i :: 0 <= i < |inputs| ==> KeepsMinimum(Run(supported, inputs[..i]), inputs[i])
  }

  /** In every run the engine runs exactly while a time-based session lives, at an interval no longer
      than any of theirs, and the flag for the highest rate means it runs at 100 ms. */
  lemma {:induction false} ServesInEveryRun(supported: bool, inputs: seq<Input>)
    requires RunInOrder(supported, inputs) && NoBlindSwitch(supported, inputs)
    ensures Serves(Run(supported, inputs))
  {
    if inputs != [] {
      var n := |inputs| - 1;
      PrefixRuns(supported, inputs);
      ServesInEveryRun(supported, inputs[..n]);
      StepServes(Run(supported, inputs[..n]), inputs[n]);
    }
  }

  lemma PrefixRuns(supported: bool, inputs: seq<Input>)
    requires inputs != []
    ensures forall i :: 0 <= i < |inputs| - 1 ==> inputs[..|inputs| - 1][..i] == inputs[..i]
  {
  }

  /** In such runs, updates included, the engine interval is exactly the minimum over the live sessions. */
  lemma {:induction false} ExactInEveryRun(supported: bool, inputs: seq<Input>)
    requires RunInOrder(supported, inputs) && NoBlindSwitch(supported, inputs) && NoSlowDown(supported, inputs)
    ensures Serves(Run(supported, inputs)) && Exact(Run(supported, inputs))
  {
    if inputs != [] {
      var n := |inputs| - 1;
      PrefixRuns(supported, inputs);
      ExactInEveryRun(supported, inputs[..n]);
      StepServes(Run(supported, inputs[..n]), inputs[n]);
      StepExact(Run(supported, inputs[..n]), inputs[n]);
    }
  }

  // ----- Runs that fail ------------------------------------------------------------------------

  lemma OneMoreInput(supported: bool, inputs: seq<Input>, input: Input)
    ensures Run(supported, inputs + [input]) == Step(Run(supported, inputs), input).0
  {
    assert (inputs + [input])[..|inputs|] == inputs;
  }

  function Every(interval: nat): Options {
    Options(SIZEOF_TRACKING_OPTIONS, interval, 0, M2, 0)
  }

  const K1 := Key(1, 1)
  const K2 := Key(2, 2)

  lemma FirstStart(supported: bool)
    ensures
      Run(supported, [StartCommand(K1, Every(100), true)]) ==
      Adapter(supported, [Session(K1, Every(100))], [], false, false, Some(Every(100)))
  {
    OneMoreInput(supported, [], StartCommand(K1, Every(100), true));
    assert [] + [StartCommand(K1, Every(100), true)] == [StartCommand(K1, Every(100), true)];
  }

  /** Sessions of 100 ms and 1 s; the first then asks for 1 s too, and the engine goes on at 100 ms. */
  lemma SlowDownRun(supported: bool)
    ensures
      var starts := [StartCommand(K1, Every(100), true), StartCommand(K2, Every(1000), true)];
      var a := Run(supported, starts + [UpdateCommand(K1, Every(1000))]);
      && a.timeBased == [Session(K1, Every(1000)), Session(K2, Every(1000))] && a.engine == Some(Every(100))
      && !Exact(a)
  {
    var first, second := StartCommand(K1, Every(100), true), StartCommand(K2, Every(1000), true);
    var update := UpdateCommand(K1, Every(1000));
    FirstStart(supported);
    OneMoreInput(supported, [first], second);
    OneMoreInput(supported, [first, second], update);
    assert [first] + [second] == [first, second];
    SecondStart(supported);
    ThirdUpdate(supported);
  }

  lemma SecondStart(supported: bool)
    ensures
      var a := Adapter(supported, [Session(K1, Every(100))], [], false, false, Some(Every(100)));
      Step(a, StartCommand(K2, Every(1000), true)).0 ==
      a.(timeBased := [Session(K1, Every(100)), Session(K2, Every(1000))])
  {
    var s := Session(K1, Every(100));
    assert [s][..0] == [];
    assert Smallest([s], None) == Every(100) && LowestMode([s], None) == M2;
    assert Put([s], K2, Every(1000)) == [s, Session(K2, Every(1000))] by {
      assert [s][1..] == [];
    }
  }

  lemma ThirdUpdate(supported: bool)
    ensures
      var s, t := Session(K1, Every(100)), Session(K2, Every(1000));
      var a := Adapter(supported, [s, t], [], false, false, Some(Every(100)));
      Step(a, UpdateCommand(K1, Every(1000))).0 == a.(timeBased := [Session(K1, Every(1000)), t])
  {
    var s, t := Session(K1, Every(100)), Session(K2, Every(1000));
    assert [s, t][0].key == K1 && [s, t][1..] == [t];
    assert [s, t][..1] == [s] && [s][..0] == [];
    assert Smallest([s], Some(K1)) == UNSET && LowestMode([s], Some(K1)) == INVALID;
    assert Smallest([s, t], Some(K1)) == Every(1000) && LowestMode([s, t], Some(K1)) == M2;
  }

  /** Without distance tracking a lone session that asks for a distance is kept while the engine stops. */
  lemma BlindSwitchRun()
    ensures
      var far := Every(100).(minDistance := 1);
      var a := Run(false, [StartCommand(K1, Every(100), true), UpdateCommand(K1, far)]);
      a.timeBased == [Session(K1, far)] && a.engine == None && !Serves(a)
  {
    var first, far := StartCommand(K1, Every(100), true), Every(100).(minDistance := 1);
    FirstStart(false);
    OneMoreInput(false, [first], UpdateCommand(K1, far));
    assert [first] + [UpdateCommand(K1, far)] == [first, UpdateCommand(K1, far)];
    var s := Session(K1, Every(100));
    assert [s][0].key == K1 && Erase([s], K1) == [];
  }
}
