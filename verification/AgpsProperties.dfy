/** What holds in every run of an AGPS state machine. */
module AgpsProperties {
  import opened AgpsModel

  // ----- List lemmas ---------------------------------------------------------------------------

  ghost predicate Distinct(subs: seq<Subscriber>) {
    forall i, j :: 0 <= i < j < |subs| ==> subs[i].handle != subs[j].handle
  }

  lemma ConsDistinct(s: Subscriber, rest: seq<Subscriber>)
    ensures Distinct([s] + rest) <==> Distinct(rest) && forall t :: t in rest ==> t.handle != s.handle
  {
    var all := [s] + rest;
    if Distinct(all) {
      forall i, j | 0 <= i < j < |rest|
        ensures rest[i].handle != rest[j].handle
      {
        assert all[i + 1].handle != all[j + 1].handle;
      }
      forall t | t in rest
        ensures t.handle != s.handle
      {
        var i :| 0 <= i < |rest| && rest[i] == t;
        assert all[0].handle != all[i + 1].handle;
      }
    }
  }

  lemma {:induction false} InRemove(subs: seq<Subscriber>, h: int)
    ensures forall s :: s in Remove(subs, h) <==> s in subs && s.handle != h
    ensures Distinct(subs) ==> Distinct(Remove(subs, h))
  {
    if subs != [] {
      InRemove(subs[1..], h);
      assert subs == [subs[0]] + subs[1..];
      ConsDistinct(subs[0], subs[1..]);
      ConsDistinct(subs[0], Remove(subs[1..], h));
    }
  }

  lemma {:induction false} InUnselected(subs: seq<Subscriber>, a: Audience)
    ensures forall s :: s in Unselected(subs, a) <==> s in subs && !Selects(a, s)
    ensures Distinct(subs) ==> Distinct(Unselected(subs, a))
  {
    if subs != [] {
      InUnselected(subs[1..], a);
      assert subs == [subs[0]] + subs[1..];
      ConsDistinct(subs[0], subs[1..]);
      ConsDistinct(subs[0], Unselected(subs[1..], a));
    }
  }

  lemma NobodyUnselected(subs: seq<Subscriber>)
    ensures Unselected(subs, Everyone) == []
  {
    InUnselected(subs, Everyone);
    if Unselected(subs, Everyone) != [] {
      assert Unselected(subs, Everyone)[0] in Unselected(subs, Everyone);
    }
  }

  lemma InMarkInactive(subs: seq<Subscriber>, h: int)
    requires Distinct(subs) && Listed(subs, h)
    ensures forall s :: s in MarkInactive(subs, h) ==>
      if s.handle == h then s.inactive && s.waitForClose == subs[IndexOf(subs, h)].waitForClose else s in subs
    ensures subs[IndexOf(subs, h)].(inactive := true) in MarkInactive(subs, h)
    ensures Distinct(MarkInactive(subs, h))
  {
    var i := IndexOf(subs, h);
    assert MarkInactive(subs, h)[i] == subs[i].(inactive := true);
    assert forall k :: 0 <= k < |subs| && k != i ==> subs[k].handle != h;
  }

  lemma InAdd(subs: seq<Subscriber>, s: Subscriber)
    requires Distinct(subs)
    ensures forall t :: t in Add(subs, s) ==> t in subs || (t == s && !Listed(subs, s.handle))
    ensures Distinct(Add(subs, s))
    ensures AnyActive(subs) || (subs == [] && !s.inactive) ==> AnyActive(Add(subs, s))
  {
    if subs == [] {
      assert Add(subs, s)[0] == s;
    }
    assert subs <= Add(subs, s);
  }

  // ----- The list and the state ----------------------------------------------------------------

  ghost predicate AnyInactive(subs: seq<Subscriber>) {
    exists s :: s in subs && s.inactive
  }

  /** What the state says about the list while the modem has not restarted. */
  ghost predicate ListFitsState(m: Machine) {
    && (m.state == Released ==> m.subs == [])
    && (m.state == Pending || m.state == Acquired ==> AnyActive(m.subs))
    && (m.state == Releasing ==> AnyInactive(m.subs))
    && forall s :: s in m.subs && s.inactive ==> s.waitForClose
  }

  ghost predicate NobodyWaits(m: Machine) {
    m.state != Releasing && forall s :: s in m.subs ==> !s.waitForClose && !s.inactive
  }

  lemma OnUnsubscribeKeeps(m: Machine, h: int)
    requires Distinct(m.subs) && Listed(m.subs, h)
    ensures
      var o := OnUnsubscribe(m, m.subs[IndexOf(m.subs, h)]).machine;
      && Distinct(o.subs)
      && (m.state == Released ==> o == m)
      && (m.state != Released && o.state == Released ==> o.subs == [])
      && (ListFitsState(m) ==> ListFitsState(o))
      && (NobodyWaits(m) ==> NobodyWaits(o))
  {
    var cur := m.subs[IndexOf(m.subs, h)];
    var subs := if cur.waitForClose then MarkInactive(m.subs, h) else Remove(m.subs, h);
    InRemove(m.subs, h);
    InMarkInactive(m.subs, h);
    if ListFitsState(m) && m.state == Releasing {
      if cur.waitForClose {
        assert cur.(inactive := true) in subs;
      } else {
        var s :| s in m.subs && s.inactive;
        assert s in subs;
      }
    }
    if subs != [] && !AnyActive(subs) {
      assert subs[0] in subs && subs[0].inactive;
    }
  }

  lemma OnClosedKeeps(m: Machine)
    requires Distinct(m.subs)
    ensures
      var o := OnClosed(m).machine;
      && Distinct(o.subs)
      && (o.state == Released ==> o.subs == [])
      && (ListFitsState(m) ==> ListFitsState(o))
  {
    InUnselected(m.subs, InactiveOnly);
    var subs := Unselected(m.subs, InactiveOnly);
    if subs != [] {
      assert subs[0] in subs && !subs[0].inactive;
    }
  }

  lemma StepKeepsList(m: Machine, input: Input)
    requires Distinct(m.subs) && (m.state == Released ==> m.subs == [])
    ensures
      var o := Step(m, input).machine;
      && Distinct(o.subs) && (o.state == Released ==> o.subs == [])
      && (ListFitsState(m) && input != ModemRestart ==> ListFitsState(o))
      && (NobodyWaits(m) && (input.Request? ==> !input.wait) ==> NobodyWaits(o))
  {
    match input
    case Request(h, wait) => InAdd(m.subs, Subscriber(h, wait, false));
    case ReleaseOf(h) =>
      if Listed(m.subs, h) {
        OnUnsubscribeKeeps(m, h);
      }
    case OpenSuccess =>
    case OpenFailed =>
      NobodyUnselected(m.subs);
      OnClosedKeeps(m);
    case Closed =>
      NobodyUnselected(m.subs);
      OnClosedKeeps(m);
    case ModemRestart =>
  }

  ghost predicate NoRestart(inputs: seq<Input>) {
    ModemRestart !in inputs
  }

  ghost predicate NoWaiting(inputs: seq<Input>) {
    forall i :: 0 <= i < |inputs| && inputs[i].Request? ==> !inputs[i].wait
  }

  /** RELEASED means nobody is listed, whatever happens. Without a modem restart the other states
      say who is listed too, and without wait-for-close requests RELEASING is never entered. */
  lemma {:induction false} ListInEveryRun(inputs: seq<Input>)
    ensures
      var m := Run(inputs).machine;
      && Distinct(m.subs) && (m.state == Released ==> m.subs == [])
      && (NoRestart(inputs) ==> ListFitsState(m))
      && (NoWaiting(inputs) ==> NobodyWaits(m))
  {
    if inputs != [] {
      var init := inputs[..|inputs| - 1];
      ListInEveryRun(init);
      assert NoRestart(inputs) ==> NoRestart(init);
      assert NoWaiting(inputs) ==> NoWaiting(init);
      StepKeepsList(Run(init).machine, inputs[|inputs| - 1]);
    }
  }

  // ----- Data calls ----------------------------------------------------------------------------

  /** Broken: a call was requested while one was held, or released or lost while none was. */
  datatype Call = Idle | Held | Broken

  function Next(call: Call, out: Output): Call {
    match out
    case RequestCall => if call == Idle then Held else Broken
    case ReleaseCall => if call == Held then Idle else Broken
    case CallEnded => if call == Held then Idle else Broken
    case _ => call
  }

  function Calls(call: Call, trace: seq<Output>): Call
    decreases trace
  {
    if trace == [] then call else Calls(Next(call, trace[0]), trace[1..])
  }

  lemma {:induction false} CallsCompose(call: Call, a: seq<Output>, b: seq<Output>)
    ensures Calls(call, a + b) == Calls(Calls(call, a), b)
    decreases a
  {
    if a == [] {
      assert a + b == b;
    } else {
      CallsCompose(Next(call, a[0]), a[1..], b);
      assert (a + b)[1..] == a[1..] + b;
    }
  }

  lemma {:induction false} NotificationsLeaveCalls(call: Call, event: AgpsEvent, subs: seq<Subscriber>, a: Audience)
    ensures Calls(call, Notifications(event, subs, a)) == call
  {
    if subs != [] {
      var first := if Selects(a, subs[0]) then Notification(event, subs[0].handle) else [];
      CallsCompose(call, first, Notifications(event, subs[1..], a));
      NotificationsLeaveCalls(call, event, subs[1..], a);
    }
  }

  function CallOf(m: Machine): Call {
    if m.state == Pending || m.state == Acquired then Held else Idle
  }

  lemma OnClosedKeepsCalls(m: Machine)
    requires m.state == Releasing
    ensures Calls(Idle, OnClosed(m).sent) == CallOf(OnClosed(m).machine)
  {
    var notices := Notifications(ReleasedByFramework, m.subs, InactiveOnly);
    NotificationsLeaveCalls(Idle, ReleasedByFramework, m.subs, InactiveOnly);
    CallsCompose(Idle, notices, [RequestCall]);
  }

  lemma OnUnsubscribeKeepsCalls(m: Machine, cur: Subscriber)
    ensures Calls(CallOf(m), OnUnsubscribe(m, cur).sent) == CallOf(OnUnsubscribe(m, cur).machine)
  {
    var notice := if cur.waitForClose then [] else Notification(Unsubscribe, cur.handle);
    CallsCompose(CallOf(m), notice, [ReleaseCall]);
    assert notice + [] == notice;
  }

  lemma StepKeepsCalls(m: Machine, input: Input)
    ensures Calls(CallOf(m), Trace(m, input)) == CallOf(Step(m, input).machine)
  {
    var sent := Step(m, input).sent;
    CallsCompose(CallOf(m), if EndsCall(m, input) then [CallEnded] else [], sent);
    match input
    case Request(h, wait) =>
    case ReleaseOf(h) =>
      if Listed(m.subs, h) {
        OnUnsubscribeKeepsCalls(m, m.subs[IndexOf(m.subs, h)]);
      }
    case OpenSuccess => NotificationsLeaveCalls(CallOf(m), Granted, m.subs, ActiveOnly);
    case OpenFailed =>
      NotificationsLeaveCalls(Idle, Denied, m.subs, Everyone);
      if m.state == Releasing {
        OnClosedKeepsCalls(m);
      }
    case Closed =>
      NotificationsLeaveCalls(Idle, ReleasedByFramework, m.subs, Everyone);
      if m.state == Releasing {
        OnClosedKeepsCalls(m);
      }
    case ModemRestart =>
  }

  /** In every run, modem restarts included, requests and endings of the data call alternate, and a
      call is held exactly in PENDING and ACQUIRED. */
  lemma {:induction false} CallsInEveryRun(inputs: seq<Input>)
    ensures Calls(Idle, Run(inputs).sent) == CallOf(Run(inputs).machine)
  {
    if inputs != [] {
      var before, input := Run(inputs[..|inputs| - 1]), inputs[|inputs| - 1];
      CallsInEveryRun(inputs[..|inputs| - 1]);
      StepKeepsCalls(before.machine, input);
      CallsCompose(Idle, before.sent, Trace(before.machine, input));
    }
  }

  function Count(trace: seq<Output>, what: Output): nat {
    if trace == [] then 0 else (if trace[0] == what then 1 else 0) + Count(trace[1..], what)
  }

  lemma {:induction false} AlternationCounts(call: Call, trace: seq<Output>)
    requires Calls(call, trace) != Broken
    ensures call != Broken
    ensures Count(trace, RequestCall) + (if call == Held then 1 else 0) ==
      Count(trace, ReleaseCall) + Count(trace, CallEnded) + if Calls(call, trace) == Held then 1 else 0
    decreases trace
  {
    if trace != [] {
      AlternationCounts(Next(call, trace[0]), trace[1..]);
    }
  }

  /** Requests sent = releases sent + calls the framework ended + the one held. */
  lemma CallConservation(inputs: seq<Input>)
    ensures
      var t := Run(inputs).sent;
      Count(t, RequestCall) ==
        Count(t, ReleaseCall) + Count(t, CallEnded) + if CallOf(Run(inputs).machine) == Held then 1 else 0
  {
    CallsInEveryRun(inputs);
    AlternationCounts(Idle, Run(inputs).sent);
  }
}
