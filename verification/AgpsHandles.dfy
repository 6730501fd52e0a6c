/** The ATL callbacks that one connection handle receives. */
module AgpsHandles {
  import opened AgpsModel
  import opened AgpsProperties
  import opened Sequences

  predicate IsFor(out: Output, h: int) {
    (out.OpenStatus? || out.CloseStatus?) && out.handle == h
  }

  /** The callbacks for handle `h`, in order. */
  function CallbacksOf(trace: seq<Output>, h: int): seq<Output> {
    if trace == [] then []
    else (if IsFor(trace[0], h) then [trace[0]] else []) + CallbacksOf(trace[1..], h)
  }

  lemma {:induction false} CallbacksCompose(a: seq<Output>, b: seq<Output>, h: int)
    ensures CallbacksOf(a + b, h) == CallbacksOf(a, h) + CallbacksOf(b, h)
  {
    if a == [] {
      assert a + b == b;
    } else {
      var first := if IsFor(a[0], h) then [a[0]] else [];
      CallbacksCompose(a[1..], b, h);
      assert (a + b)[0] == a[0] && (a + b)[1..] == a[1..] + b;
      Regroup(first, CallbacksOf(a[1..], h), CallbacksOf(b, h));
    }
  }

  /** Nobody else's notification reaches `h`. */
  lemma {:induction false} NotificationsElsewhere(event: AgpsEvent, subs: seq<Subscriber>, a: Audience, h: int)
    requires forall s :: s in subs && s.handle == h ==> !Selects(a, s)
    ensures CallbacksOf(Notifications(event, subs, a), h) == []
  {
    if subs != [] {
      var first := if Selects(a, subs[0]) then Notification(event, subs[0].handle) else [];
      CallbacksCompose(first, Notifications(event, subs[1..], a), h);
      NotificationsElsewhere(event, subs[1..], a, h);
    }
  }

  /** A selected subscriber is notified once. */
  lemma {:induction false} NotifiedOnce(event: AgpsEvent, subs: seq<Subscriber>, a: Audience, s: Subscriber)
    requires Distinct(subs) && s in subs && Selects(a, s)
    ensures CallbacksOf(Notifications(event, subs, a), s.handle) == Notification(event, s.handle)
  {
    var first := if Selects(a, subs[0]) then Notification(event, subs[0].handle) else [];
    var rest := Notifications(event, subs[1..], a);
    CallbacksCompose(first, rest, s.handle);
    assert subs == [subs[0]] + subs[1..];
    ConsDistinct(subs[0], subs[1..]);
    if subs[0] == s {
      NotificationsElsewhere(event, subs[1..], a, s.handle);
    } else {
      NotifiedOnce(event, subs[1..], a, s);
    }
  }

  /** Everything a handle may ever receive. */
  ghost predicate Complete(got: seq<Output>, h: int) {
    || got == []
    || got == [OpenStatus(h, true)]
    || got == [OpenStatus(h, false)]
    || got == [CloseStatus(h)]
    || got == [OpenStatus(h, true), CloseStatus(h)]
  }

  /** What a listed subscriber has received so far: an active one has been told of the open call
      exactly in ACQUIRED; an inactive one may have been told before, but not if it is PENDING. */
  ghost predicate Received(m: Machine, s: Subscriber, got: seq<Output>) {
    if s.inactive then got == [] || (got == [OpenStatus(s.handle, true)] && m.state != Pending)
    else got == if m.state == Acquired then [OpenStatus(s.handle, true)] else []
  }

  ghost predicate HandleFits(m: Machine, seen: bool, got: seq<Output>, h: int) {
    && Distinct(m.subs)
    && (m.state == Released ==> m.subs == [])
    && (!seen ==> got == [] && forall s :: s in m.subs ==> s.handle != h)
    && (forall s :: s in m.subs && s.handle == h ==> Received(m, s, got))
    && Complete(got, h)
  }

  predicate Asks(input: Input, h: int) {
    input.Request? && input.handle == h
  }

  lemma RequestKeepsHandle(m: Machine, x: int, wait: bool, h: int, seen: bool, got: seq<Output>)
    requires HandleFits(m, seen, got, h) && (x == h ==> !seen)
    ensures
      var o := OnSubscribe(m, Subscriber(x, wait, false));
      HandleFits(o.machine, seen || x == h, got + CallbacksOf(o.sent, h), h)
  {
    InAdd(m.subs, Subscriber(x, wait, false));
  }

  lemma ReleaseSends(m: Machine, cur: Subscriber, h: int)
    requires m.state != Released
    ensures CallbacksOf(OnUnsubscribe(m, cur).sent, h) ==
      if !cur.waitForClose && cur.handle == h then [CloseStatus(h)] else []
  {
    var notice := if cur.waitForClose then [] else Notification(Unsubscribe, cur.handle);
    CallbacksCompose(notice, [ReleaseCall], h);
    assert notice + [] == notice;
  }

  /** Whoever is still listed after somebody's release was listed before and has the same record. */
  lemma ReleaseKeepsReceived(m: Machine, x: int, s: Subscriber, got: seq<Output>)
    requires Distinct(m.subs) && Listed(m.subs, x) && m.state != Released
    requires forall t :: t in m.subs && t.handle == s.handle ==> Received(m, t, got)
    requires s in OnUnsubscribe(m, m.subs[IndexOf(m.subs, x)]).machine.subs
    ensures Received(OnUnsubscribe(m, m.subs[IndexOf(m.subs, x)]).machine, s, got)
    ensures exists t :: t in m.subs && t.handle == s.handle
    ensures s.handle == x ==> m.subs[IndexOf(m.subs, x)].waitForClose
  {
    var cur := m.subs[IndexOf(m.subs, x)];
    var o := OnUnsubscribe(m, cur).machine;
    if cur.waitForClose {
      InMarkInactive(m.subs, x);
      if s.handle == x {
        assert Received(m, cur, got);
      } else {
        assert Received(m, s, got);
      }
    } else {
      InRemove(m.subs, x);
      assert Received(m, s, got);
    }
    assert o.state == m.state || s.inactive;
  }

  /** Whoever has been told of the open call, or of nothing, may be told that it is closed. */
  lemma CloseCompletes(got: seq<Output>, h: int)
    requires got == [] || got == [OpenStatus(h, true)]
    ensures Complete(got + [CloseStatus(h)], h)
  {
    assert got == [] ==> got + [CloseStatus(h)] == [CloseStatus(h)];
  }

  lemma ReleaseKeepsHandle(m: Machine, x: int, h: int, seen: bool, got: seq<Output>)
    requires HandleFits(m, seen, got, h) && Listed(m.subs, x)
    ensures
      var o := OnUnsubscribe(m, m.subs[IndexOf(m.subs, x)]);
      HandleFits(o.machine, seen, got + CallbacksOf(o.sent, h), h)
  {
    var cur := m.subs[IndexOf(m.subs, x)];
    var o := OnUnsubscribe(m, cur);
    var more := CallbacksOf(o.sent, h);
    OnUnsubscribeKeeps(m, x);
    ReleaseSends(m, cur, h);
    if more == [] {
      assert got + more == got;
    } else {
      assert Received(m, cur, got);
      CloseCompletes(got, h);
    }
    forall s | s in o.machine.subs && s.handle == h
      ensures seen && Received(o.machine, s, got + more)
    {
      ReleaseKeepsReceived(m, x, s, got);
    }
  }

  lemma ClosingSends(m: Machine, h: int)
    ensures CallbacksOf(OnClosed(m).sent, h) == CallbacksOf(Notifications(ReleasedByFramework, m.subs, InactiveOnly), h)
  {
    var notices := Notifications(ReleasedByFramework, m.subs, InactiveOnly);
    CallbacksCompose(notices, [RequestCall], h);
    assert CallbacksOf(notices, h) + [] == CallbacksOf(notices, h);
  }

  /** A subscriber whose data call is closed leaves the list. */
  lemma ClosedLeaves(m: Machine, s: Subscriber)
    requires Distinct(m.subs) && s in m.subs && s.inactive
    ensures forall t :: t in OnClosed(m).machine.subs ==> t.handle != s.handle
  {
    InUnselected(m.subs, InactiveOnly);
    forall t | t in OnClosed(m).machine.subs
      ensures t.handle != s.handle
    {
      if t.handle == s.handle {
        SameHandle(m.subs, s, t);
      }
    }
  }

  lemma ClosingKeepsHandle(m: Machine, h: int, seen: bool, got: seq<Output>)
    requires HandleFits(m, seen, got, h) && m.state == Releasing
    ensures HandleFits(OnClosed(m).machine, seen, got + CallbacksOf(OnClosed(m).sent, h), h)
  {
    var o := OnClosed(m);
    OnClosedKeeps(m);
    ClosingSends(m, h);
    BroadcastReaches(ReleasedByFramework, m, InactiveOnly, h);
    if s :| s in m.subs && s.handle == h && s.inactive {
      assert Received(m, s, got);
      CloseCompletes(got, h);
      ClosedLeaves(m, s);
    } else {
      assert got + CallbacksOf(o.sent, h) == got;
      InUnselected(m.subs, InactiveOnly);
      forall t | t in o.machine.subs && t.handle == h
        ensures Received(o.machine, t, got)
      {
        assert Received(m, t, got);
      }
    }
  }

  lemma SameHandle(subs: seq<Subscriber>, s: Subscriber, t: Subscriber)
    requires Distinct(subs) && s in subs && t in subs && s.handle == t.handle
    ensures s == t
  {
  }

  /** A broadcast sends `h` its notification if it is listed and selected, and nothing otherwise. */
  lemma BroadcastReaches(event: AgpsEvent, m: Machine, a: Audience, h: int)
    requires Distinct(m.subs)
    ensures
      var sent := CallbacksOf(Notifications(event, m.subs, a), h);
      if exists s :: s in m.subs && s.handle == h && Selects(a, s) then sent == Notification(event, h) else sent == []
  {
    if s :| s in m.subs && s.handle == h && Selects(a, s) {
      NotifiedOnce(event, m.subs, a, s);
    } else {
      NotificationsElsewhere(event, m.subs, a, h);
    }
  }

  lemma EndingKeepsHandle(event: AgpsEvent, m: Machine, h: int, seen: bool, got: seq<Output>)
    requires HandleFits(m, seen, got, h)
    requires (event == Denied && m.state == Pending) || (event == ReleasedByFramework && m.state == Acquired)
    ensures
      var o := if event == Denied then OnDenied(m) else OnReleased(m);
      HandleFits(o.machine, seen, got + CallbacksOf(o.sent, h), h)
  {
    NobodyUnselected(m.subs);
    BroadcastReaches(event, m, Everyone, h);
    if s :| s in m.subs && s.handle == h && Selects(Everyone, s) {
      assert Received(m, s, got);
      if event == Denied {
        assert got + [OpenStatus(h, false)] == [OpenStatus(h, false)];
      } else {
        CloseCompletes(got, h);
      }
    } else {
      assert got + [] == got;
    }
  }

  lemma GrantKeepsHandle(m: Machine, h: int, seen: bool, got: seq<Output>)
    requires HandleFits(m, seen, got, h) && m.state == Pending
    ensures HandleFits(OnGranted(m).machine, seen, got + CallbacksOf(OnGranted(m).sent, h), h)
  {
    BroadcastReaches(Granted, m, ActiveOnly, h);
    assert got + [] == got;
    forall s | s in m.subs && s.handle == h
      ensures Received(OnGranted(m).machine, s, got + CallbacksOf(OnGranted(m).sent, h))
    {
      assert Received(m, s, got);
      if s.inactive {
        NotificationsElsewhere(Granted, m.subs, ActiveOnly, h);
      }
    }
  }

  lemma StepKeepsHandle(m: Machine, input: Input, h: int, seen: bool, got: seq<Output>)
    requires HandleFits(m, seen, got, h) && (Asks(input, h) ==> !seen)
    ensures HandleFits(Step(m, input).machine, seen || Asks(input, h), got + CallbacksOf(Step(m, input).sent, h), h)
  {
    assert got + CallbacksOf([], h) == got;
    match input
    case Request(x, wait) => RequestKeepsHandle(m, x, wait, h, seen, got);
    case ReleaseOf(x) =>
      if Listed(m.subs, x) {
        ReleaseKeepsHandle(m, x, h, seen, got);
      }
    case OpenSuccess =>
      if m.state == Pending {
        GrantKeepsHandle(m, h, seen, got);
      }
    case OpenFailed =>
      if m.state == Releasing {
        ClosingKeepsHandle(m, h, seen, got);
      } else if m.state == Pending {
        EndingKeepsHandle(Denied, m, h, seen, got);
      }
    case Closed =>
      if m.state == Releasing {
        ClosingKeepsHandle(m, h, seen, got);
      } else if m.state == Acquired {
        EndingKeepsHandle(ReleasedByFramework, m, h, seen, got);
      }
    case ModemRestart =>
  }

  /** A handle that is not listed and not asking is not notified, and does not come back. */
  lemma GoneStaysGone(m: Machine, input: Input, h: int)
    requires Distinct(m.subs) && (m.state == Released ==> m.subs == [])
    requires !Asks(input, h) && forall s :: s in m.subs ==> s.handle != h
    ensures CallbacksOf(Step(m, input).sent, h) == [] && forall s :: s in Step(m, input).machine.subs ==> s.handle != h
  {
    StepKeepsHandle(m, input, h, false, []);
  }

  lemma {:induction false} NotificationsOpen(event: AgpsEvent, subs: seq<Subscriber>, a: Audience, h: int)
    ensures OpenStatus(h, true) in Notifications(event, subs, a) ==> event == Granted
  {
    if subs != [] {
      NotificationsOpen(event, subs[1..], a, h);
    }
  }

  /** A handle is told that its open succeeded only by a machine that is in ACQUIRED. */
  lemma OpenOnlyWhenAcquired(m: Machine, input: Input, h: int)
    requires OpenStatus(h, true) in Step(m, input).sent
    ensures Step(m, input).machine.state == Acquired
  {
    match input
    case Closed =>
      NotificationsOpen(ReleasedByFramework, m.subs, Everyone, h);
      NotificationsOpen(ReleasedByFramework, m.subs, InactiveOnly, h);
    case OpenFailed =>
      NotificationsOpen(Denied, m.subs, Everyone, h);
      NotificationsOpen(ReleasedByFramework, m.subs, InactiveOnly, h);
    case _ =>
  }

  // ----- Runs ----------------------------------------------------------------------------------

  ghost predicate AsksOnce(inputs: seq<Input>, h: int) {
    forall i, j :: 0 <= i < j < |inputs| && Asks(inputs[i], h) ==> !Asks(inputs[j], h)
  }

  ghost predicate Asked(inputs: seq<Input>, h: int) {
    exists i :: 0 <= i < |inputs| && Asks(inputs[i], h)
  }

  lemma TraceSends(m: Machine, input: Input, h: int)
    ensures CallbacksOf(Trace(m, input), h) == CallbacksOf(Step(m, input).sent, h)
  {
    CallbacksCompose(if EndsCall(m, input) then [CallEnded] else [], Step(m, input).sent, h);
  }

  lemma AskedSoFar(inputs: seq<Input>, h: int)
    requires inputs != [] && AsksOnce(inputs, h)
    ensures
      var init, input := inputs[..|inputs| - 1], inputs[|inputs| - 1];
      && AsksOnce(init, h)
      && (Asks(input, h) ==> !Asked(init, h))
      && (Asked(inputs, h) <==> Asked(init, h) || Asks(input, h))
  {
    var n := |inputs| - 1;
    if i :| 0 <= i < n && Asks(inputs[..n][i], h) {
      assert Asks(inputs[i], h);
    }
    if i :| 0 <= i < |inputs| && Asks(inputs[i], h) {
      assert i < n ==> Asks(inputs[..n][i], h);
    }
  }

  /** In every run that asks for `h` at most once, the callbacks for `h` are one of the five. */
  lemma {:induction false} HandleInEveryRun(inputs: seq<Input>, h: int)
    requires AsksOnce(inputs, h)
    ensures HandleFits(Run(inputs).machine, Asked(inputs, h), CallbacksOf(Run(inputs).sent, h), h)
  {
    if inputs != [] {
      var init, input := inputs[..|inputs| - 1], inputs[|inputs| - 1];
      AskedSoFar(inputs, h);
      HandleInEveryRun(init, h);
      var before := Run(init);
      StepKeepsHandle(before.machine, input, h, Asked(init, h), CallbacksOf(before.sent, h));
      CallbacksCompose(before.sent, Trace(before.machine, input), h);
      TraceSends(before.machine, input, h);
    }
  }
}
