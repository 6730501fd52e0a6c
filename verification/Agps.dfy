/** The classes of gps/gnss/Agps.cpp, proved against the functions of AgpsModel. */
module Agps {
  import opened Wrappers
  import opened AgpsModel
  import opened AgpsManagerModel
  import opened Sequences

  /** Receives the ATL callbacks of the manager and the data-call requests to the framework. */
  class Sink {
    var sent: seq<Output>

    constructor ()
      ensures sent == []
    {
      sent := [];
    }

    method Send(out: seq<Output>)
      modifies this
      ensures sent == old(sent) + out
    {
      sent := sent + out;
    }
  }

  class AgpsStateMachine {
    const sink: Sink
    var state: State
    var subscribers: seq<Subscriber>
    var current: Subscriber

    function Value(): Machine
      reads this
    {
      Machine(state, subscribers)
    }

    constructor (sink: Sink)
      ensures this.sink == sink && Value() == Machine(Released, [])
    {
      this.sink := sink;
      state, subscribers, current := Released, [], Subscriber(0, false, false);
    }

    method SetCurrentSubscriber(s: Subscriber)
      modifies `current
      ensures current == s
    {
      current := s;
    }

    method GetSubscriber(connHandle: int) returns (r: Option<Subscriber>)
      ensures r == if Listed(subscribers, connHandle) then Some(subscribers[IndexOf(subscribers, connHandle)]) else None
    {
      for i := 0 to |subscribers|
        invariant !Listed(subscribers[..i], connHandle)
      {
        if subscribers[i].handle == connHandle {
          FirstIsIndexOf(subscribers, i);
          return Some(subscribers[i]);
        }
      }
      assert subscribers[..|subscribers|] == subscribers;
      return None;
    }

    method AddSubscriber(s: Subscriber)
      modifies `subscribers
      ensures subscribers == Add(old(subscribers), s)
    {
      for i := 0 to |subscribers|
        invariant subscribers == old(subscribers) && !Listed(subscribers[..i], s.handle)
      {
        if subscribers[i].handle == s.handle {
          return;
        }
      }
      assert subscribers[..|subscribers|] == subscribers;
      subscribers := subscribers + [s];
    }

    method DeleteSubscriber(s: Subscriber)
      modifies `subscribers
      ensures subscribers == Remove(old(subscribers), s.handle)
    {
      var i := 0;
      assert [] + subscribers == subscribers;
      while i < |subscribers|
        invariant i <= |subscribers|
        invariant subscribers[..i] + Remove(subscribers[i..], s.handle) == Remove(old(subscribers), s.handle)
        decreases |subscribers| - i
      {
        var rest := subscribers[i + 1..];
        assert subscribers[i..] == [subscribers[i]] + rest;
        if subscribers[i].handle == s.handle {
          subscribers := subscribers[..i] + rest;
          assert subscribers[i..] == rest;
        } else {
          i := i + 1;
        }
      }
    }

    method DropAllSubscribers()
      modifies `subscribers
      ensures subscribers == []
    {
      while subscribers != []
        decreases |subscribers|
      {
        subscribers := subscribers[1..];
      }
    }

    method AnyActiveSubscribers() returns (any: bool)
      ensures any == AnyActive(subscribers)
    {
      for i := 0 to |subscribers|
        invariant !AnyActive(subscribers[..i])
      {
        if !subscribers[i].inactive {
          return true;
        }
      }
      assert subscribers[..|subscribers|] == subscribers;
      return false;
    }

    method NotifyEventToSubscriber(event: AgpsEvent, s: Subscriber, deletePostNotify: bool)
      modifies `subscribers, sink
      ensures sink.sent == old(sink.sent) + Notification(event, s.handle)
      ensures subscribers == if deletePostNotify then Remove(old(subscribers), s.handle) else old(subscribers)
    {
      match event {
        case Granted => sink.Send([OpenStatus(s.handle, true)]);
        case Denied => sink.Send([OpenStatus(s.handle, false)]);
        case Unsubscribe => sink.Send([CloseStatus(s.handle)]);
        case ReleasedByFramework => sink.Send([CloseStatus(s.handle)]);
        case Subscribe =>
      }
      if deletePostNotify {
        DeleteSubscriber(s);
      }
    }

    method NotifyAllSubscribers(event: AgpsEvent, deletePostNotify: bool, audience: Audience)
      modifies `subscribers, sink
      ensures sink.sent == old(sink.sent) + Notifications(event, old(subscribers), audience)
      ensures subscribers == if deletePostNotify then Unselected(old(subscribers), audience) else old(subscribers)
    {
      var i := 0;
      ghost var all, kept, todo, out := subscribers, [], subscribers, [];
      ghost var start := sink.sent;
      ghost var notices, left := Notifications(event, all, audience), Unselected(all, audience);
      while i < |subscribers|
        invariant i <= |subscribers| && todo == subscribers[i..]
        invariant sink.sent == start + out
        invariant out + Notifications(event, todo, audience) == notices
        invariant kept + Unselected(todo, audience) == left
        invariant if deletePostNotify then subscribers[..i] == kept else subscribers == all
        decreases |subscribers| - i
      {
        var subscriber := subscribers[i];
        ghost var rest := todo[1..];
        NotifyNext(out, kept, event, todo, audience);
        if Selects(audience, subscriber) {
          NotifyEventToSubscriber(event, subscriber, false);
          Regroup(start, out, Notification(event, subscriber.handle));
          out := out + Notification(event, subscriber.handle);
          if deletePostNotify {
            subscribers := subscribers[..i] + subscribers[i + 1..];
          } else {
            i := i + 1;
          }
        } else {
          kept := kept + [subscriber];
          i := i + 1;
        }
        todo := rest;
      }
    }

    /** Sends the framework a request for the data call, or its release. */
    method RequestOrReleaseDataConn(request: bool)
      modifies sink
      ensures sink.sent == old(sink.sent) + [if request then RequestCall else ReleaseCall]
    {
      sink.Send([if request then RequestCall else ReleaseCall]);
    }

    method TransitionState(newState: State)
      modifies `state
      ensures state == newState
    {
      state := newState;
    }

    method ProcessSubscribe()
      modifies this, sink
      ensures Became(old(sink.sent), OnSubscribe(old(Value()), old(current)))
    {
      match state
      case Released =>
        AddSubscriber(current);
        RequestOrReleaseDataConn(true);
        TransitionState(Pending);
      case Pending =>
        AddSubscriber(current);
      case Acquired =>
        NotifyEventToSubscriber(Granted, current, false);
        AddSubscriber(current);
      case Releasing =>
        AddSubscriber(current);
    }

    method ProcessUnsubscribe()
      modifies this, sink
      ensures Became(old(sink.sent), OnUnsubscribe(old(Value()), old(current)))
    {
      if state == Released {
        NotifyEventToSubscriber(Unsubscribe, current, false);
        return;
      }
      if current.waitForClose {
        // The current subscriber is the listed one, reached through the same pointer.
        current := current.(inactive := true);
        subscribers := MarkInactive(subscribers, current.handle);
      } else {
        NotifyEventToSubscriber(Unsubscribe, current, true);
      }
      var anyActive := AnyActiveSubscribers();
      if state == Releasing {
        if subscribers == [] {
          TransitionState(Released);
        }
      } else if subscribers == [] {
        TransitionState(Released);
        RequestOrReleaseDataConn(false);
      } else if !anyActive {
        TransitionState(Releasing);
        RequestOrReleaseDataConn(false);
      }
    }

    method ProcessGranted()
      modifies this, sink
      ensures Became(old(sink.sent), OnGranted(old(Value())))
    {
      if state == Pending {
        TransitionState(Acquired);
        NotifyAllSubscribers(Granted, false, ActiveOnly);
      }
    }

    /** What RELEASED and DENIED both do in RELEASING. */
    method CloseInactive()
      requires state == Releasing
      modifies this, sink
      ensures Became(old(sink.sent), OnClosed(old(Value())))
    {
      NotifyAllSubscribers(ReleasedByFramework, true, InactiveOnly);
      var anyActive := AnyActiveSubscribers();
      if anyActive {
        TransitionState(Pending);
        RequestOrReleaseDataConn(true);
      } else {
        TransitionState(Released);
      }
    }

    method ProcessReleased()
      modifies this, sink
      ensures Became(old(sink.sent), OnReleased(old(Value())))
    {
      if state == Acquired {
        TransitionState(Released);
        NotifyAllSubscribers(ReleasedByFramework, true, Everyone);
      } else if state == Releasing {
        CloseInactive();
      }
    }

    method ProcessDenied()
      modifies this, sink
      ensures Became(old(sink.sent), OnDenied(old(Value())))
    {
      if state == Pending {
        TransitionState(Released);
        NotifyAllSubscribers(Denied, true, Everyone);
      } else if state == Releasing {
        CloseInactive();
      }
    }

    /** The machine is what `o` says, and the sink has received what `o` sends after `sent`. */
    ghost predicate Became(sent: seq<Output>, o: Outcome)
      reads this, sink
    {
      Value() == o.machine && sink.sent == sent + o.sent
    }

    method ProcessAgpsEvent(event: AgpsEvent)
      modifies this, sink
      ensures Became(old(sink.sent), Process(old(Value()), event, old(current)))
    {
      match event
      case Subscribe => ProcessSubscribe();
      case Unsubscribe => ProcessUnsubscribe();
      case Granted => ProcessGranted();
      case ReleasedByFramework => ProcessReleased();
      case Denied => ProcessDenied();
    }
  }

  class AgpsManager {
    const sink: Sink
    const useEmergencyPdn: bool
    var agnssNif: AgpsStateMachine?
    var internetNif: AgpsStateMachine?
    ghost var agnssTrace: seq<Output>
    ghost var internetTrace: seq<Output>

    ghost predicate Valid()
      reads this
    {
      && (agnssNif != null ==> agnssNif.sink == sink)
      && (internetNif != null ==> internetNif.sink == sink)
      && (agnssNif != null && internetNif != null ==> agnssNif != internetNif)
    }

    ghost function Parts(): set<object>
      reads this
    {
      {this, sink} + (if agnssNif == null then {} else {agnssNif}) + (if internetNif == null then {} else {internetNif})
    }

    ghost function Value(): Manager
      reads this, Parts()
    {
      Manager(if agnssNif == null then None else Some(Outcome(agnssNif.Value(), agnssTrace)),
              if internetNif == null then None else Some(Outcome(internetNif.Value(), internetTrace)),
              sink.sent)
    }

    constructor (sink: Sink, useEmergencyPdn: bool)
      requires sink.sent == []
      ensures this.sink == sink && Valid() && Value() == ManagerRun([])
    {
      this.sink, this.useEmergencyPdn := sink, useEmergencyPdn;
      agnssNif, internetNif := null, null;
      agnssTrace, internetTrace := [], [];
    }

    method CreateAgpsStateMachines(agpsCapable: bool, wwan: bool, supl: bool, suplEs: bool)
      requires Valid()
      modifies this
      ensures Valid() && Value() == ManagerStep(old(Value()), CreateMachines(agpsCapable, wwan, supl, suplEs))
    {
      if internetNif == null && wwan {
        internetNif := new AgpsStateMachine(sink);
        internetTrace := [];
      }
      if agpsCapable && agnssNif == null && supl && suplEs {
        agnssNif := new AgpsStateMachine(sink);
        agnssTrace := [];
      }
    }

    function GetAgpsStateMachine(t: AgpsType): AgpsStateMachine?
      reads this
    {
      match t
      case InvalidType => agnssNif
      case Supl => agnssNif
      case SuplEs => agnssNif
      case WwanAny => internetNif
      case OtherType => internetNif
    }

    /** Passes `event` for `cur` to a machine, and to its trace. */
    method Deliver(sm: AgpsStateMachine, event: AgpsEvent, cur: Subscriber, ghost input: Input)
      requires Valid() && (sm == agnssNif || sm == internetNif)
      requires Step(sm.Value(), input) == Process(sm.Value(), event, cur)
      modifies `agnssTrace, `internetTrace, sm, sink
      ensures Valid() && Value() == FeedOne(old(Value()), sm == agnssNif, input)
    {
      ghost var more := Trace(sm.Value(), input);
      sm.SetCurrentSubscriber(cur);
      sm.ProcessAgpsEvent(event);
      if sm == agnssNif {
        agnssTrace := agnssTrace + more;
      } else {
        internetTrace := internetTrace + more;
      }
    }

    method RequestATL(connHandle: int, agpsType: AgpsType)
      requires Valid()
      modifies Parts()
      ensures Valid() && Value() == ManagerStep(old(Value()), ManagerInput.RequestATL(connHandle, agpsType))
    {
      var t := if !useEmergencyPdn && agpsType == SuplEs then Supl else agpsType;
      var sm := GetAgpsStateMachine(t);
      if sm == null {
        sink.Send([OpenStatus(connHandle, false)]);
      } else {
        Deliver(sm, Subscribe, Subscriber(connHandle, false, false), Request(connHandle, false));
      }
    }

    method ReleaseATL(connHandle: int)
      requires Valid()
      modifies Parts()
      ensures Valid() && Value() == ManagerStep(old(Value()), ManagerInput.ReleaseATL(connHandle))
    {
      if agnssNif != null {
        var subscriber := agnssNif.GetSubscriber(connHandle);
        if subscriber.Some? {
          Deliver(agnssNif, Unsubscribe, subscriber.value, ReleaseOf(connHandle));
          return;
        }
      }
      if internetNif != null {
        var subscriber := internetNif.GetSubscriber(connHandle);
        if subscriber.Some? {
          Deliver(internetNif, Unsubscribe, subscriber.value, ReleaseOf(connHandle));
        }
      }
    }

    method ReportAtlOpenSuccess(agpsType: AgpsType)
      requires Valid() && GetAgpsStateMachine(agpsType) != null
      modifies Parts()
      ensures Valid() && Value() == ManagerStep(old(Value()), ReportOpenSuccess(agpsType))
    {
      var sm := GetAgpsStateMachine(agpsType);
      Deliver(sm, Granted, sm.current, OpenSuccess);
    }

    method ReportAtlOpenFailed(agpsType: AgpsType)
      requires Valid() && GetAgpsStateMachine(agpsType) != null
      modifies Parts()
      ensures Valid() && Value() == ManagerStep(old(Value()), ReportOpenFailed(agpsType))
    {
      var sm := GetAgpsStateMachine(agpsType);
      Deliver(sm, Denied, sm.current, OpenFailed);
    }

    method ReportAtlClosed(agpsType: AgpsType)
      requires Valid() && GetAgpsStateMachine(agpsType) != null
      modifies Parts()
      ensures Valid() && Value() == ManagerStep(old(Value()), ReportClosed(agpsType))
    {
      var sm := GetAgpsStateMachine(agpsType);
      Deliver(sm, ReleasedByFramework, sm.current, Closed);
    }

    method HandleModemSSR()
      requires Valid()
      modifies Parts()
      ensures Valid() && Value() == ManagerStep(old(Value()), ModemSSR)
    {
      RestartDropsLists(Value());
      if agnssNif != null {
        agnssNif.DropAllSubscribers();
      }
      if internetNif != null {
        internetNif.DropAllSubscribers();
      }
    }
  }

  lemma NotifyNext(out: seq<Output>, kept: seq<Subscriber>, event: AgpsEvent, todo: seq<Subscriber>, audience: Audience)
    requires todo != []
    ensures
      var selected := Selects(audience, todo[0]);
      && (if selected then out + Notification(event, todo[0].handle) else out)
         + Notifications(event, todo[1..], audience)
         == out + Notifications(event, todo, audience)
      && (if selected then kept else kept + [todo[0]]) + Unselected(todo[1..], audience)
         == kept + Unselected(todo, audience)
  {
    var first := if Selects(audience, todo[0]) then Notification(event, todo[0].handle) else [];
    var keep := if Selects(audience, todo[0]) then [] else [todo[0]];
    Regroup(out, first, Notifications(event, todo[1..], audience));
    Regroup(kept, keep, Unselected(todo[1..], audience));
    assert out + [] == out && kept + [] == kept;
  }

  lemma {:induction false} FirstIsIndexOf(subs: seq<Subscriber>, i: nat)
    requires i < |subs| && !Listed(subs[..i], subs[i].handle)
    ensures IndexOf(subs, subs[i].handle) == i
  {
    if i > 0 {
      assert subs[..i][0] == subs[0];
      assert subs[..i] == [subs[0]] + subs[1..][..i - 1];
      FirstIsIndexOf(subs[1..], i - 1);
    }
  }
}
