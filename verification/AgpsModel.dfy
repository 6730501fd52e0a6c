/** What one event does to an AGPS state machine of gps/gnss/Agps.cpp, on values. */
module AgpsModel {
  datatype State = Released | Pending | Acquired | Releasing

  datatype AgpsEvent = Subscribe | Unsubscribe | Granted | ReleasedByFramework | Denied

  datatype Subscriber = Subscriber(handle: int, waitForClose: bool, inactive: bool)

  datatype Audience = Everyone | InactiveOnly | ActiveOnly

  /** What the machine sends: the two ATL callbacks, and the data-call requests to the framework.
      `CallEnded` is not sent; traces use it for a call that the framework ended on its own. */
  datatype Output =
    | OpenStatus(handle: int, success: bool)
    | CloseStatus(handle: int)
    | RequestCall
    | ReleaseCall
    | CallEnded

  datatype Machine = Machine(state: State, subs: seq<Subscriber>)

  datatype Outcome = Outcome(machine: Machine, sent: seq<Output>)

  // ----- The subscriber list -------------------------------------------------------------------

  predicate Listed(subs: seq<Subscriber>, h: int) {
    exists i :: 0 <= i < |subs| && subs[i].handle == h
  }

  predicate AnyActive(subs: seq<Subscriber>) {
    exists i :: 0 <= i < |subs| && !subs[i].inactive
  }

  function Add(subs: seq<Subscriber>, s: Subscriber): seq<Subscriber> {
    if Listed(subs, s.handle) then subs else subs + [s]
  }

  function Remove(subs: seq<Subscriber>, h: int): seq<Subscriber> {
    if subs == [] then []
    else (if subs[0].handle == h then [] else [subs[0]]) + Remove(subs[1..], h)
  }

  /** The first subscriber with handle `h`, which is also the one a release request changes. */
  function IndexOf(subs: seq<Subscriber>, h: int): (i: nat)
    requires Listed(subs, h)
    ensures i < |subs| && subs[i].handle == h && !Listed(subs[..i], h)
  {
    if subs[0].handle == h then 0
    else
      var i := 1 + IndexOf(subs[1..], h);
      assert subs[..i] == [subs[0]] + subs[1..][..i - 1];
      i
  }

  function MarkInactive(subs: seq<Subscriber>, h: int): seq<Subscriber> {
    if !Listed(subs, h) then subs
    else
      var i := IndexOf(subs, h);
      subs[i := subs[i].(inactive := true)]
  }

  predicate Selects(audience: Audience, s: Subscriber) {
    match audience
    case Everyone => true
    case InactiveOnly => s.inactive
    case ActiveOnly => !s.inactive
  }

  function Notification(event: AgpsEvent, h: int): seq<Output> {
    match event
    case Granted => [OpenStatus(h, true)]
    case Denied => [OpenStatus(h, false)]
    case Unsubscribe => [CloseStatus(h)]
    case ReleasedByFramework => [CloseStatus(h)]
    case Subscribe => []
  }

  function Notifications(event: AgpsEvent, subs: seq<Subscriber>, audience: Audience): seq<Output> {
    if subs == [] then []
    else
      (if Selects(audience, subs[0]) then Notification(event, subs[0].handle) else []) +
      Notifications(event, subs[1..], audience)
  }

  function Unselected(subs: seq<Subscriber>, audience: Audience): seq<Subscriber> {
    if subs == [] then []
    else (if Selects(audience, subs[0]) then [] else [subs[0]]) + Unselected(subs[1..], audience)
  }

  // ----- The transitions -----------------------------------------------------------------------

  function OnSubscribe(m: Machine, cur: Subscriber): Outcome {
    var joined := m.(subs := Add(m.subs, cur));
    match m.state
    case Released => Outcome(joined.(state := Pending), [RequestCall])
    case Pending => Outcome(joined, [])
    case Acquired => Outcome(joined, Notification(Granted, cur.handle))
    case Releasing => Outcome(joined, [])
  }

  function OnUnsubscribe(m: Machine, cur: Subscriber): Outcome {
    if m.state == Released then Outcome(m, Notification(Unsubscribe, cur.handle))
    else
      var subs := if cur.waitForClose then MarkInactive(m.subs, cur.handle) else Remove(m.subs, cur.handle);
      var notice := if cur.waitForClose then [] else Notification(Unsubscribe, cur.handle);
      var release := if m.state == Releasing then [] else [ReleaseCall];
      if subs == [] then Outcome(Machine(Released, subs), notice + release)
      else if m.state != Releasing && !AnyActive(subs) then Outcome(Machine(Releasing, subs), notice + release)
      else Outcome(Machine(m.state, subs), notice)
  }

  function OnGranted(m: Machine): Outcome {
    if m.state == Pending then Outcome(m.(state := Acquired), Notifications(Granted, m.subs, ActiveOnly))
    else Outcome(m, [])
  }

  /** The data call of the inactive subscribers is closed; the others are waiting for a new one. */
  function OnClosed(m: Machine): Outcome {
    var subs := Unselected(m.subs, InactiveOnly);
    var notices := Notifications(ReleasedByFramework, m.subs, InactiveOnly);
    if AnyActive(subs) then Outcome(Machine(Pending, subs), notices + [RequestCall])
    else Outcome(Machine(Released, subs), notices)
  }

  function OnReleased(m: Machine): Outcome {
    match m.state
    case Acquired =>
      Outcome(Machine(Released, Unselected(m.subs, Everyone)), Notifications(ReleasedByFramework, m.subs, Everyone))
    case Releasing => OnClosed(m)
    case _ => Outcome(m, [])
  }

  function OnDenied(m: Machine): Outcome {
    match m.state
    case Pending => Outcome(Machine(Released, Unselected(m.subs, Everyone)), Notifications(Denied, m.subs, Everyone))
    case Releasing => OnClosed(m)
    case _ => Outcome(m, [])
  }

  function Process(m: Machine, event: AgpsEvent, cur: Subscriber): Outcome {
    match event
    case Subscribe => OnSubscribe(m, cur)
    case Unsubscribe => OnUnsubscribe(m, cur)
    case Granted => OnGranted(m)
    case ReleasedByFramework => OnReleased(m)
    case Denied => OnDenied(m)
  }

  // ----- Runs of one machine -------------------------------------------------------------------

  /** A machine's inputs, as its manager delivers them: a release reaches it only for a listed handle. */
  datatype Input =
    | Request(handle: int, wait: bool)
    | ReleaseOf(handle: int)
    | OpenSuccess
    | OpenFailed
    | Closed
    | ModemRestart

  function Step(m: Machine, input: Input): Outcome {
    match input
    case Request(h, wait) => OnSubscribe(m, Subscriber(h, wait, false))
    case ReleaseOf(h) => if Listed(m.subs, h) then OnUnsubscribe(m, m.subs[IndexOf(m.subs, h)]) else Outcome(m, [])
    case OpenSuccess => OnGranted(m)
    case OpenFailed => OnDenied(m)
    case Closed => OnReleased(m)
    case ModemRestart => Outcome(m.(subs := []), [])
  }

  /** The framework ends the data call itself: it refuses a pending one or drops an acquired one. */
  predicate EndsCall(m: Machine, input: Input) {
    (m.state == Pending && input == OpenFailed) || (m.state == Acquired && input == Closed)
  }

  function Trace(m: Machine, input: Input): seq<Output> {
    (if EndsCall(m, input) then [CallEnded] else []) + Step(m, input).sent
  }

  /** The machine after a run, and everything sent in it. */
  function Run(inputs: seq<Input>): Outcome {
    if inputs == [] then Outcome(Machine(Released, []), [])
    else
      var before := Run(inputs[..|inputs| - 1]);
      var input := inputs[|inputs| - 1];
      Outcome(Step(before.machine, input).machine, before.sent + Trace(before.machine, input))
  }
}
