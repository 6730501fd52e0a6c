/** The tracking methods of gps/gnss/GnssAdapter.cpp, proved against the functions of TrackingModel. */
module Tracking {
  import opened Wrappers
  import opened TrackingModel
  import opened TrackingProperties

  class GnssAdapter {
    const distanceSupported: bool
    var timeBased: Sessions
    var distanceBased: Sessions
    var nHzNeeded: bool
    var atHighestInterval: bool
    var engine: Option<Options>
    var sent: seq<Sent>

    function Value(): Adapter
      reads this
    {
      Adapter(distanceSupported, timeBased, distanceBased, nHzNeeded, atHighestInterval, engine)
    }

    /** The adapter is as `r` says, and has sent what `r` sends after `before`. */
    ghost predicate Became(before: seq<Sent>, r: (Adapter, seq<Sent>))
      reads this
    {
      Value() == r.0 && sent == before + r.1
    }

    constructor (distanceSupported: bool)
      ensures Value() == Run(distanceSupported, []) && sent == []
    {
      this.distanceSupported := distanceSupported;
      timeBased, distanceBased, sent := [], [], [];
      nHzNeeded, atHighestInterval, engine := false, false, None;
    }

    method CheckAndSetSPEToRunforNHz(options: Options) returns (out: Options, running: bool)
      modifies `atHighestInterval
      ensures (Value(), out, running) == CheckNHz(old(Value()), options)
    {
      out, running := options, false;
      if !nHzNeeded {
      } else if atHighestInterval {
        running := true;
      } else if out.minInterval > MIN_TRACKING_INTERVAL {
        out := out.(minInterval := MIN_TRACKING_INTERVAL);
        atHighestInterval := true;
      }
    }

    /** startTimeBasedTracking and updateTracking */
    method StartTimeBasedTracking(k: Key, options: Options)
      modifies `atHighestInterval, `engine, `sent
      ensures Became(old(sent), Launch(old(Value()), k, options))
    {
      var o, running := CheckAndSetSPEToRunforNHz(options);
      if !running {
        engine := Some(o);
        sent := sent + [StartEngine(k, o)];
      } else {
        sent := sent + [Answer(k, true)];
      }
    }

    method StopTracking(k: Key)
      modifies `atHighestInterval, `engine, `sent
      ensures Became(old(sent), TrackingModel.StopTracking(old(Value()), k))
    {
      engine := None;
      sent := sent + [StopEngine(k)];
      atHighestInterval := false;
    }

    /** The loop that start, update and stop each run over the sessions other than `except`. */
    method Multiplex(except: Option<Key>) returns (m: Options, p: nat)
      ensures m == Smallest(timeBased, except) && p == LowestMode(timeBased, except)
    {
      m, p := UNSET, INVALID;
      for i := 0 to |timeBased|
        invariant m == Smallest(timeBased[..i], except) && p == LowestMode(timeBased[..i], except)
      {
        var s := timeBased[i];
        assert timeBased[..i + 1][..i] == timeBased[..i];
        if Some(s.key) != except && (m.size == 0 || s.options.minInterval < m.minInterval) {
          m := s.options;
        }
        if Some(s.key) != except && (p == INVALID || s.options.powerMode < p) {
          p := s.options.powerMode;
        }
      }
      assert timeBased[..|timeBased|] == timeBased;
    }

    /** As Became, once the caller has answered the client if `noWait` says that it should. */
    ghost predicate BecomesAfterAnswer(before: seq<Sent>, k: Key, noWait: bool, r: (Adapter, seq<Sent>))
      reads this
    {
      Value() == r.0 && sent + (if noWait then [Answer(k, true)] else []) == before + r.1
    }

    method StartTimeBasedTrackingMultiplex(k: Key, options: Options) returns (noWait: bool)
      modifies `atHighestInterval, `engine, `sent
      ensures BecomesAfterAnswer(old(sent), k, noWait, StartMultiplex(old(Value()), k, options))
    {
      noWait := true;
      if timeBased == [] {
        StartTimeBasedTracking(k, options);
        noWait := false;
      } else {
        var m, p := Multiplex(None);
        var updateOptions := false;
        if options.minInterval < m.minInterval {
          m := m.(minInterval := options.minInterval);
          updateOptions := true;
        }
        if options.powerMode < p {
          m := m.(powerMode := options.powerMode);
          updateOptions := true;
        }
        if updateOptions {
          StartTimeBasedTracking(k, m);
          noWait := false;
        }
      }
    }

    method UpdateTrackingMultiplex(k: Key, options: Options) returns (noWait: bool)
      requires Has(timeBased, k)
      modifies `atHighestInterval, `engine, `sent
      ensures BecomesAfterAnswer(old(sent), k, noWait, UpdateMultiplex(old(Value()), k, options))
    {
      noWait := true;
      var was := Find(timeBased, k);
      if was.minInterval != options.minInterval || was.powerMode != options.powerMode {
        var m, p := Multiplex(Some(k));
        var updateOptions := false;
        if options.minInterval < m.minInterval {
          m := m.(minInterval := options.minInterval);
          updateOptions := true;
        }
        if options.powerMode < p {
          m := m.(powerMode := options.powerMode);
          updateOptions := true;
        }
        if |timeBased| == 1 {
          m := options;
          updateOptions := true;
        }
        if updateOptions {
          StartTimeBasedTracking(k, m);
          noWait := false;
        }
      }
    }

    method StopTimeBasedTrackingMultiplex(k: Key) returns (noWait: bool)
      modifies `atHighestInterval, `engine, `sent
      ensures BecomesAfterAnswer(old(sent), k, noWait, StopMultiplex(old(Value()), k))
    {
      noWait := true;
      if |timeBased| == 1 {
        StopTracking(k);
        noWait := false;
      } else if Has(timeBased, k) {
        var m, p := Multiplex(Some(k));
        var options := Find(timeBased, k);
        if options.minInterval < m.minInterval || options.powerMode < p {
          m := m.(powerMode := p);
          StartTimeBasedTracking(k, m);
          noWait := false;
        }
      }
    }

    method ReportResponse(k: Key, success: bool)
      modifies `sent
      ensures sent == old(sent) + [Answer(k, success)]
    {
      sent := sent + [Answer(k, success)];
    }

    method SaveTrackingSession(k: Key, options: Options)
      modifies `timeBased, `distanceBased
      ensures Value() == Save(old(Value()), k, options)
    {
      if options.minDistance > 0 && distanceSupported {
        distanceBased := Put(distanceBased, k, options);
      } else {
        timeBased := Put(timeBased, k, options);
      }
    }

    method EraseTrackingSession(k: Key)
      modifies `timeBased, `distanceBased
      ensures Value() == EraseSession(old(Value()), k)
    {
      if Has(timeBased, k) {
        timeBased := Erase(timeBased, k);
      } else {
        distanceBased := Erase(distanceBased, k);
      }
    }

    /** The time-based branch of MsgStartTracking, and the response that follows a switch. */
    method StartAndSave(k: Key, options: Options)
      modifies this
      ensures Became(old(sent), StartTimeBased(old(Value()), k, options))
    {
      var noWait := StartTimeBasedTrackingMultiplex(k, options);
      SaveTrackingSession(k, options);
      if noWait {
        ReportResponse(k, true);
      }
    }

    method StopAndErase(k: Key)
      modifies this
      ensures Became(old(sent), StopTimeBased(old(Value()), k))
    {
      var noWait := StopTimeBasedTrackingMultiplex(k);
      EraseTrackingSession(k);
      if noWait {
        ReportResponse(k, true);
      }
    }

    method StartTrackingCommand(k: Key, options: Options, hasCallbacks: bool)
      modifies this
      ensures Became(old(sent), Start(old(Value()), k, options, hasCallbacks))
    {
      if !hasCallbacks || options.size == 0 {
        ReportResponse(k, false);
      } else {
        var o := Clamp(options);
        if o.minDistance > 0 && distanceSupported {
          SaveTrackingSession(k, o);
        } else {
          StartAndSave(k, FallBackToM2(o));
        }
      }
    }

    method UpdateTrackingOptionsCommand(k: Key, options: Options)
      modifies this
      ensures Became(old(sent), Update(old(Value()), k, options))
    {
      var isTimeBased, isDistanceBased := Has(timeBased, k), Has(distanceBased, k);
      if (!isTimeBased && !isDistanceBased) || options.size == 0 {
        ReportResponse(k, false);
        return;
      }
      var o := Clamp(FallBackToM2(options));
      if isTimeBased && o.minDistance > 0 {
        StopAndErase(k);
        SaveTrackingSession(k, o);
      } else if isTimeBased {
        var noWait := UpdateTrackingMultiplex(k, o);
        SaveTrackingSession(k, o);
        if noWait {
          ReportResponse(k, true);
        }
      } else if o.minDistance == 0 {
        EraseTrackingSession(k);
      }
    }

    method StopTrackingCommand(k: Key)
      modifies this
      ensures Became(old(sent), Stop(old(Value()), k))
    {
      if Has(timeBased, k) {
        StopAndErase(k);
      } else if !Has(distanceBased, k) {
        ReportResponse(k, false);
      }
    }

    /** checkAndRestartSPESession and checkAndRestartTimeBasedSession */
    method CheckAndRestartSPESession()
      modifies this
      ensures Became(old(sent), Restart(old(Value())))
    {
      atHighestInterval := false;
      if timeBased != [] {
        var smallest, highest := UNSET, UNSET;
        for i := 0 to |timeBased|
          invariant Value() == old(Value()).(atHighestInterval := false) && sent == old(sent)
          invariant smallest == Smallest(timeBased[..i], None) && highest == HighestPower(timeBased[..i])
        {
          var o := timeBased[i].options;
          assert timeBased[..i + 1][..i] == timeBased[..i];
          if smallest.size == 0 || o.minInterval < smallest.minInterval {
            smallest := o;
          }
          if highest.size == 0 || (o.powerMode != INVALID && o.powerMode < highest.powerMode) {
            highest := o;
          }
        }
        assert timeBased[..|timeBased|] == timeBased;
        var options := Options(
          SIZEOF_TRACKING_OPTIONS, smallest.minInterval, smallest.minDistance, highest.powerMode, highest.tbm);
        var out, running := CheckAndSetSPEToRunforNHz(options);
        if !running {
          engine := Some(out);
          sent := sent + [RestartEngine(out)];
        }
      }
    }

    method SuspendSessions()
      modifies `engine, `atHighestInterval, `sent
      ensures Became(old(sent), Suspend(old(Value())))
    {
      if timeBased != [] {
        engine := None;
        sent := sent + [HaltEngine];
        atHighestInterval := false;
      }
    }

    /** A new constellation configuration: all sessions are suspended while it is applied. */
    method UpdateSvConfig()
      modifies this
      ensures Became(old(sent), Step(old(Value()), ConfigUpdated))
    {
      SuspendSessions();
      CheckAndRestartSPESession();
    }

    /** The engine hub's callback for its NHz requirement. */
    method UpdateNHzRequirement(needed: bool)
      modifies this
      ensures Became(old(sent), Step(old(Value()), NHzChanged(needed)))
    {
      if nHzNeeded != needed {
        nHzNeeded := needed;
        CheckAndRestartSPESession();
      }
    }

    method StopUnanswered(k: Key)
      requires Serves(Value()) && Has(timeBased, k)
      modifies this
      ensures Serves(Value()) && (Exact(old(Value())) ==> Exact(Value()))
      ensures forall s :: s in timeBased <==> s in old(timeBased) && s.key != k
    {
      StopMultiplexKeeps(Value(), k);
      InErase(timeBased, k);
      var noWait := StopTimeBasedTrackingMultiplex(k);
      EraseTrackingSession(k);
    }

    method KeysOfClient(client: int) returns (keys: seq<Key>)
      requires Sorted(timeBased)
      ensures forall s :: s in timeBased ==> (s.key in keys <==> s.key.client == client)
      ensures forall k :: k in keys ==> Has(timeBased, k)
      ensures forall i, j :: 0 <= i < j < |keys| ==> keys[i] != keys[j]
    {
      keys := [];
      for i := 0 to |timeBased|
        invariant forall j :: 0 <= j < i ==> (timeBased[j].key in keys <==> timeBased[j].key.client == client)
        invariant forall k :: k in keys ==> exists j :: 0 <= j < i && timeBased[j].key == k
        invariant forall i, j :: 0 <= i < j < |keys| ==> keys[i] != keys[j]
      {
        assert timeBased[i].key !in keys by {
          assert forall j :: 0 <= j < i ==> Before(timeBased[j].key, timeBased[i].key);
        }
        if timeBased[i].key.client == client {
          keys := keys + [timeBased[i].key];
        }
      }
    }

    /** The time-based part of stopClientSessions: exactly this client's sessions are stopped, and the
        engine goes on serving the others. */
    method StopClientSessions(client: int)
      requires Serves(Value())
      modifies this
      ensures Serves(Value()) && (Exact(old(Value())) ==> Exact(Value()))
      ensures forall s :: s in timeBased <==> s in old(timeBased) && s.key.client != client
    {
      var keys := KeysOfClient(client);
      for i := 0 to |keys|
        invariant Serves(Value()) && (Exact(old(Value())) ==> Exact(Value()))
        invariant forall s :: s in timeBased <==> s in old(timeBased) && s.key !in keys[..i]
      {
        KeyStillLive(old(timeBased), timeBased, keys, i);
        StopUnanswered(keys[i]);
        assert keys[..i + 1] == keys[..i] + [keys[i]];
      }
      assert keys[..|keys|] == keys;
    }
  }

  lemma KeyStillLive(was: Sessions, ss: Sessions, keys: seq<Key>, i: nat)
    requires i < |keys| && Has(was, keys[i])
    requires forall i, j :: 0 <= i < j < |keys| ==> keys[i] != keys[j]
    requires forall s :: s in ss <==> s in was && s.key !in keys[..i]
    ensures Has(ss, keys[i])
  {
    var j :| 0 <= j < |was| && was[j].key == keys[i];
    assert was[j] in ss;
  }
}
