/** What an AGPS state machine owes its subscribers, event by event, and over runs. */
module AgpsDuties {
  import opened AgpsModel
  import opened AgpsProperties
  import opened AgpsHandles

  /** Exactly one data call is asked for in `sent`. */
  predicate Requests(sent: seq<Output>) {
    Count(sent, RequestCall) == 1 && Count(sent, ReleaseCall) == 0
  }

  predicate Releases(sent: seq<Output>) {
    Count(sent, RequestCall) == 0 && Count(sent, ReleaseCall) == 1
  }

  predicate Quiet(sent: seq<Output>) {
    Count(sent, RequestCall) == 0 && Count(sent, ReleaseCall) == 0
  }

  lemma {:induction false} CountComposes(a: seq<Output>, b: seq<Output>, out: Output)
    ensures Count(a + b, out) == Count(a, out) + Count(b, out)
  {
    if a == [] {
      assert a + b == b;
    } else {
      CountComposes(a[1..], b, out);
      assert (a + b)[0] == a[0] && (a + b)[1..] == a[1..] + b;
    }
  }

  lemma {:induction false} NotificationsAreQuiet(event: AgpsEvent, subs: seq<Subscriber>, a: Audience)
    ensures Quiet(Notifications(event, subs, a))
  {
    if subs != [] {
      var first := if Selects(a, subs[0]) then Notification(event, subs[0].handle) else [];
      NotificationsAreQuiet(event, subs[1..], a);
      CountComposes(first, Notifications(event, subs[1..], a), RequestCall);
      CountComposes(first, Notifications(event, subs[1..], a), ReleaseCall);
    }
  }

  /** A request is listed, nobody else's record changes, a machine at rest asks for the data call, and one that
      has it says so at once. */
  lemma RequestIsTaken(m: Machine, h: int, wait: bool, other: int)
    requires Distinct(m.subs)
    ensures
      var o := Step(m, Request(h, wait));
      && Listed(o.machine.subs, h) && o.machine.state == (if m.state == Released then Pending else m.state)
      && (if m.state == Released then Requests(o.sent) else Quiet(o.sent))
      && (forall s :: s in m.subs ==> s in o.machine.subs)
      && (!Listed(m.subs, h) ==> Subscriber(h, wait, false) in o.machine.subs)
      && CallbacksOf(o.sent, other) == if m.state == Acquired && other == h then [OpenStatus(h, true)] else []
  {
    var subs := Add(m.subs, Subscriber(h, wait, false));
    if !Listed(m.subs, h) {
      assert subs[|m.subs|].handle == h;
    }
    assert m.subs <= subs;
  }

  /** The framework's grant of a pending call is passed to every active subscriber. */
  lemma GrantTellsActive(m: Machine, h: int)
    requires Distinct(m.subs) && m.state == Pending
    ensures
      var o := Step(m, OpenSuccess);
      && o.machine == Machine(Acquired, m.subs) && Quiet(o.sent)
      && CallbacksOf(o.sent, h) ==
         if exists s :: s in m.subs && s.handle == h && !s.inactive then [OpenStatus(h, true)] else []
  {
    BroadcastReaches(Granted, m, ActiveOnly, h);
    NotificationsAreQuiet(Granted, m.subs, ActiveOnly);
    assert forall s :: Selects(ActiveOnly, s) <==> !s.inactive;
  }

  /** When a pending call is refused, or an acquired one lost, everybody is told and nobody stays. */
  lemma EndTellsAll(m: Machine, h: int)
    requires Distinct(m.subs) && (m.state == Pending || m.state == Acquired)
    ensures
      var o := Step(m, if m.state == Pending then OpenFailed else Closed);
      && o.machine == Machine(Released, []) && Quiet(o.sent)
      && CallbacksOf(o.sent, h) ==
         if !(exists s :: s in m.subs && s.handle == h) then []
         else if m.state == Pending then [OpenStatus(h, false)] else [CloseStatus(h)]
  {
    var event := if m.state == Pending then Denied else ReleasedByFramework;
    NobodyUnselected(m.subs);
    BroadcastReaches(event, m, Everyone, h);
    NotificationsAreQuiet(event, m.subs, Everyone);
    assert forall s :: Selects(Everyone, s);
  }

  lemma CloseCalls(m: Machine)
    ensures
      var o := OnClosed(m);
      && o.machine.subs == Unselected(m.subs, InactiveOnly)
      && if AnyActive(o.machine.subs) then o.machine.state == Pending && Requests(o.sent)
         else o.machine.state == Released && Quiet(o.sent)
  {
    var notices := Notifications(ReleasedByFramework, m.subs, InactiveOnly);
    NotificationsAreQuiet(ReleasedByFramework, m.subs, InactiveOnly);
    CountComposes(notices, [RequestCall], RequestCall);
    CountComposes(notices, [RequestCall], ReleaseCall);
  }

  lemma SelectsInactive()
    ensures forall s :: Selects(InactiveOnly, s) <==> s.inactive
  {
  }

  /** When the call being released is closed, those who wait for that are told and leave; for the others, if there
      are any, a new call is asked for. */
  lemma CloseTellsWaiting(m: Machine, input: Input, h: int)
    requires Distinct(m.subs) && m.state == Releasing && (input == Closed || input == OpenFailed)
    ensures
      var o := Step(m, input);
      && (forall s :: s in o.machine.subs <==> s in m.subs && !s.inactive)
      && (if exists s :: s in m.subs && !s.inactive then o.machine.state == Pending && Requests(o.sent)
          else o.machine.state == Released && Quiet(o.sent))
      && CallbacksOf(o.sent, h) ==
         if exists s :: s in m.subs && s.handle == h && s.inactive then [CloseStatus(h)] else []
  {
    CloseSends(m, h);
    CloseLists(m);
    CloseCalls(m);
    AnyActiveIff(OnClosed(m).machine.subs);
  }

  lemma CloseLists(m: Machine)
    ensures forall s :: s in OnClosed(m).machine.subs <==> s in m.subs && !s.inactive
  {
    SelectsInactive();
    InUnselected(m.subs, InactiveOnly);
  }

  lemma CloseSends(m: Machine, h: int)
    requires Distinct(m.subs)
    ensures
      CallbacksOf(OnClosed(m).sent, h) ==
      if exists s :: s in m.subs && s.handle == h && s.inactive then [CloseStatus(h)] else []
  {
    SelectsInactive();
    ClosingSends(m, h);
    BroadcastReaches(ReleasedByFramework, m, InactiveOnly, h);
  }

  lemma AnyActiveIff(subs: seq<Subscriber>)
    ensures AnyActive(subs) <==> exists s :: s in subs && !s.inactive
  {
    if s :| s in subs && !s.inactive {
      var i :| 0 <= i < |subs| && subs[i] == s;
    }
  }

  /** A report that does not fit the state, or the release of a handle that is not listed. */
  predicate Unfit(m: Machine, input: Input) {
    match input
    case OpenSuccess => m.state != Pending
    case OpenFailed => m.state == Released || m.state == Acquired
    case Closed => m.state == Released || m.state == Pending
    case ReleaseOf(h) => !Listed(m.subs, h)
    case _ => false
  }

  /** These change nothing. */
  lemma OthersAreIgnored(m: Machine, input: Input)
    requires Unfit(m, input)
    ensures Step(m, input) == Outcome(m, [])
  {
  }

  /** The list after the release of `s`: who waits becomes inactive, who does not leaves. */
  function Without(subs: seq<Subscriber>, s: Subscriber): seq<Subscriber> {
    if s.waitForClose then MarkInactive(subs, s.handle) else Remove(subs, s.handle)
  }

  lemma WithoutIs(subs: seq<Subscriber>, s: Subscriber)
    requires Distinct(subs) && s in subs
    ensures forall t :: t in Without(subs, s) <==>
      if t.handle == s.handle then s.waitForClose && t == s.(inactive := true) else t in subs
  {
    MarkedAre(subs, s);
    InRemove(subs, s.handle);
  }

  lemma ReleaseStep(m: Machine, s: Subscriber)
    requires Distinct(m.subs) && s in m.subs
    ensures Step(m, ReleaseOf(s.handle)) == OnUnsubscribe(m, s)
    ensures m.state != Released ==> OnUnsubscribe(m, s).machine.subs == Without(m.subs, s)
  {
    StaysListed(m.subs, s);
    SameHandle(m.subs, s, m.subs[IndexOf(m.subs, s.handle)]);
  }

  lemma ReleaseCalls(m: Machine, s: Subscriber)
    requires m.state != Released
    ensures
      var o, left := OnUnsubscribe(m, s), AnyActive(Without(m.subs, s));
      && (if m.state != Releasing && !left then Releases(o.sent) else Quiet(o.sent))
      && o.machine.state ==
         if Without(m.subs, s) == [] then Released else if m.state != Releasing && !left then Releasing else m.state
  {
    var notice := if s.waitForClose then [] else Notification(Unsubscribe, s.handle);
    CountComposes(notice, [ReleaseCall], RequestCall);
    CountComposes(notice, [ReleaseCall], ReleaseCall);
    assert notice + [] == notice;
  }

  /** A release: who does not wait is told and leaves, who waits becomes inactive; nobody else's record changes. The
      data call is released when no active subscriber is left, and kept otherwise. */
  lemma ReleaseIsDone(m: Machine, s: Subscriber, other: int)
    requires Distinct(m.subs) && s in m.subs && m.state != Released
    ensures
      var o := Step(m, ReleaseOf(s.handle));
      && (forall t :: t in o.machine.subs <==>
            if t.handle == s.handle then s.waitForClose && t == s.(inactive := true) else t in m.subs)
      && CallbacksOf(o.sent, other) ==
         (if !s.waitForClose && other == s.handle then [CloseStatus(s.handle)] else [])
      && var left := exists t :: t in o.machine.subs && !t.inactive;
         && (if m.state != Releasing && !left then Releases(o.sent) else Quiet(o.sent))
         && o.machine.state ==
            if o.machine.subs == [] then Released else if m.state != Releasing && !left then Releasing else m.state
  {
    ReleaseStep(m, s);
    WithoutIs(m.subs, s);
    ReleaseSends(m, s, other);
    ReleaseCalls(m, s);
    AnyActiveIff(Without(m.subs, s));
  }

  /** In RELEASED a release of any subscriber is answered with a close, and nothing else happens. */
  lemma ReleaseWithoutCall(m: Machine, s: Subscriber, other: int)
    requires m.state == Released
    ensures
      var o := OnUnsubscribe(m, s);
      && o.machine == m && Quiet(o.sent)
      && CallbacksOf(o.sent, other) == if other == s.handle then [CloseStatus(other)] else []
  {
  }

  lemma MarkedAre(subs: seq<Subscriber>, s: Subscriber)
    requires Distinct(subs) && s in subs
    ensures forall t :: t in MarkInactive(subs, s.handle) <==>
      if t.handle == s.handle then t == s.(inactive := true) else t in subs
  {
    var i := IndexOf(subs, s.handle);
    var marked := MarkInactive(subs, s.handle);
    SameHandle(subs, s, subs[i]);
    InMarkInactive(subs, s.handle);
    forall t | t in marked && t.handle == s.handle
      ensures t == s.(inactive := true)
    {
      SameHandle(marked, t, s.(inactive := true));
    }
    forall t | t in subs && t.handle != s.handle
      ensures t in marked
    {
      var k :| 0 <= k < |subs| && subs[k] == t;
      assert marked[k] == t;
    }
  }

  // ----- Runs ----------------------------------------------------------------------------------

  /** `got` ends what its handle was listed for. */
  predicate Ends(got: seq<Output>, h: int) {
    OpenStatus(h, false) in got || CloseStatus(h) in got
  }

  /** Without a modem restart a listed handle stays listed unless this step tells it why not. */
  lemma StaysOrIsTold(m: Machine, input: Input, h: int)
    requires Distinct(m.subs) && (m.state == Released ==> m.subs == [])
    requires Listed(m.subs, h) && input != ModemRestart
    ensures Listed(Step(m, input).machine.subs, h) || Ends(CallbacksOf(Step(m, input).sent, h), h)
  {
    var i := IndexOf(m.subs, h);
    var s := m.subs[i];
    assert s in m.subs;
    match input
    case Request(x, wait) =>
      RequestIsTaken(m, x, wait, h);
      StaysListed(Step(m, input).machine.subs, s);
    case ReleaseOf(x) =>
      if Listed(m.subs, x) {
        var t := m.subs[IndexOf(m.subs, x)];
        ReleaseIsDone(m, t, h);
        if x != h {
          StaysListed(Step(m, input).machine.subs, s);
        } else if t.waitForClose {
          StaysListed(Step(m, input).machine.subs, s.(inactive := true));
        }
      }
    case OpenSuccess =>
    case OpenFailed => EndStaysOrTells(m, input, s);
    case Closed => EndStaysOrTells(m, input, s);
  }

  lemma EndStaysOrTells(m: Machine, input: Input, s: Subscriber)
    requires Distinct(m.subs) && s in m.subs && (input == OpenFailed || input == Closed)
    requires m.state != Released
    ensures Listed(Step(m, input).machine.subs, s.handle) || Ends(CallbacksOf(Step(m, input).sent, s.handle), s.handle)
  {
    if m.state == Releasing {
      CloseTellsWaiting(m, input, s.handle);
      if !s.inactive {
        StaysListed(Step(m, input).machine.subs, s);
      }
    } else if (m.state == Pending) == (input == OpenFailed) {
      EndTellsAll(m, s.handle);
    } else {
      StaysListed(m.subs, s);
    }
  }

  lemma StaysListed(subs: seq<Subscriber>, s: Subscriber)
    requires s in subs
    ensures Listed(subs, s.handle)
  {
    var i :| 0 <= i < |subs| && subs[i] == s;
  }

  /** In every run without a modem restart, a handle that has asked is listed unless it was told that its open
      failed or that it is closed. */
  lemma {:induction false} AskedIsListedOrTold(inputs: seq<Input>, h: int)
    requires NoRestart(inputs) && Asked(inputs, h)
    ensures Listed(Run(inputs).machine.subs, h) || Ends(CallbacksOf(Run(inputs).sent, h), h)
  {
    var init, input := inputs[..|inputs| - 1], inputs[|inputs| - 1];
    var before := Run(init);
    ListInEveryRun(init);
    CallbacksCompose(before.sent, Trace(before.machine, input), h);
    TraceSends(before.machine, input, h);
    assert input != ModemRestart && NoRestart(init);
    if Asks(input, h) {
      RequestIsTaken(before.machine, h, input.wait, h);
    } else {
      var i :| 0 <= i < |inputs| && Asks(inputs[i], h);
      assert Asks(init[i], h);
      AskedIsListedOrTold(init, h);
      if Listed(before.machine.subs, h) {
        StaysOrIsTold(before.machine, input, h);
      }
    }
  }
}
