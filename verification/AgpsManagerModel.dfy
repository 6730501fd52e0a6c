/** The AgpsManager of gps/gnss/Agps.cpp: two state machines, and every run through it. */
module AgpsManagerModel {
  import opened Wrappers
  import opened AgpsModel
  import opened AgpsProperties
  import opened AgpsHandles

  /** The ATL types getAgpsStateMachine tells apart; `OtherType` is its default case. */
  datatype AgpsType = InvalidType | Supl | SuplEs | WwanAny | OtherType

  datatype ManagerInput =
    | CreateMachines(agpsCapable: bool, wwan: bool, supl: bool, suplEs: bool)
    | RequestATL(handle: int, agpsType: AgpsType)
    | ReleaseATL(handle: int)
    | ReportOpenSuccess(agpsType: AgpsType)
    | ReportOpenFailed(agpsType: AgpsType)
    | ReportClosed(agpsType: AgpsType)
    | ModemSSR

  /** A machine that may not have been created yet, with all it has sent. */
  type Slot = Option<Outcome>

  /** `sent` is what all callbacks together have seen, including refusals for want of a machine. */
  datatype Manager = Manager(agnss: Slot, internet: Slot, sent: seq<Output>)

  const NEW_MACHINE := Some(Outcome(Machine(Released, []), []))

  predicate UsesAgnss(t: AgpsType) {
    t == InvalidType || t == Supl || t == SuplEs
  }

  /** What a slot has added to its trace by being fed `input`. */
  function Feed(slot: Slot, input: Input): (r: (Slot, seq<Output>)) {
    match slot
    case None => (None, [])
    case Some(o) =>
      (Some(Outcome(Step(o.machine, input).machine, o.sent + Trace(o.machine, input))), Step(o.machine, input).sent)
  }

  function FeedOne(g: Manager, toAgnss: bool, input: Input): Manager {
    if toAgnss then
      var r := Feed(g.agnss, input);
      Manager(r.0, g.internet, g.sent + r.1)
    else
      var r := Feed(g.internet, input);
      Manager(g.agnss, r.0, g.sent + r.1)
  }

  predicate ListedIn(slot: Slot, h: int) {
    slot.Some? && Listed(slot.value.machine.subs, h)
  }

  function ManagerStep(g: Manager, input: ManagerInput): Manager {
    match input
    case CreateMachines(agpsCapable, wwan, supl, suplEs) =>
      Manager(if g.agnss == None && agpsCapable && supl && suplEs then NEW_MACHINE else g.agnss,
              if g.internet == None && wwan then NEW_MACHINE else g.internet,
              g.sent)
    case RequestATL(h, t) =>
      if (if UsesAgnss(t) then g.agnss else g.internet) == None then g.(sent := g.sent + [OpenStatus(h, false)])
      else FeedOne(g, UsesAgnss(t), Request(h, false))
    case ReleaseATL(h) =>
      if ListedIn(g.agnss, h) then FeedOne(g, true, ReleaseOf(h))
      else if ListedIn(g.internet, h) then FeedOne(g, false, ReleaseOf(h))
      else g
    case ReportOpenSuccess(t) => FeedOne(g, UsesAgnss(t), OpenSuccess)
    case ReportOpenFailed(t) => FeedOne(g, UsesAgnss(t), OpenFailed)
    case ReportClosed(t) => FeedOne(g, UsesAgnss(t), Closed)
    case ModemSSR => FeedOne(FeedOne(g, true, ModemRestart), false, ModemRestart)
  }

  function Dropped(slot: Slot): Slot {
    match slot
    case None => None
    case Some(o) => Some(Outcome(o.machine.(subs := []), o.sent))
  }

  /** A modem restart empties both lists, keeps both states and sends nothing. */
  lemma RestartDropsLists(g: Manager)
    ensures ManagerStep(g, ModemSSR) == Manager(Dropped(g.agnss), Dropped(g.internet), g.sent)
  {
    assert forall trace: seq<Output> :: trace + [] == trace;
  }

  function ManagerRun(inputs: seq<ManagerInput>): Manager {
    if inputs == [] then Manager(None, None, [])
    else ManagerStep(ManagerRun(inputs[..|inputs| - 1]), inputs[|inputs| - 1])
  }

  // ----- Each machine is a machine run without waiting -----------------------------------------

  ghost predicate SlotFits(slot: Slot) {
    slot.Some? ==>
      var o := slot.value;
      && Distinct(o.machine.subs)
      && (o.machine.state == Released ==> o.machine.subs == [])
      && NobodyWaits(o.machine)
      && Calls(Idle, o.sent) == CallOf(o.machine)
  }

  lemma FeedKeepsSlot(slot: Slot, input: Input)
    requires SlotFits(slot) && (input.Request? ==> !input.wait)
    ensures SlotFits(Feed(slot, input).0)
  {
    if slot.Some? {
      var m := slot.value.machine;
      StepKeepsList(m, input);
      StepKeepsCalls(m, input);
      CallsCompose(Idle, slot.value.sent, Trace(m, input));
    }
  }

  lemma FeedOneKeepsSlots(g: Manager, toAgnss: bool, input: Input)
    requires SlotFits(g.agnss) && SlotFits(g.internet) && (input.Request? ==> !input.wait)
    ensures SlotFits(FeedOne(g, toAgnss, input).agnss) && SlotFits(FeedOne(g, toAgnss, input).internet)
  {
    FeedKeepsSlot(if toAgnss then g.agnss else g.internet, input);
  }

  lemma ManagerStepKeepsSlots(g: Manager, input: ManagerInput)
    requires SlotFits(g.agnss) && SlotFits(g.internet)
    ensures SlotFits(ManagerStep(g, input).agnss) && SlotFits(ManagerStep(g, input).internet)
  {
    match input
    case CreateMachines(_, _, _, _) =>
    case RequestATL(h, t) => FeedOneKeepsSlots(g, UsesAgnss(t), Request(h, false));
    case ReleaseATL(h) =>
      FeedOneKeepsSlots(g, true, ReleaseOf(h));
      FeedOneKeepsSlots(g, false, ReleaseOf(h));
    case ReportOpenSuccess(t) => FeedOneKeepsSlots(g, UsesAgnss(t), OpenSuccess);
    case ReportOpenFailed(t) => FeedOneKeepsSlots(g, UsesAgnss(t), OpenFailed);
    case ReportClosed(t) => FeedOneKeepsSlots(g, UsesAgnss(t), Closed);
    case ModemSSR =>
      FeedOneKeepsSlots(g, true, ModemRestart);
      FeedOneKeepsSlots(FeedOne(g, true, ModemRestart), false, ModemRestart);
  }

  /** Through the manager RELEASING is never entered and nobody is inactive; both machines keep one
      data call at most, held exactly in PENDING and ACQUIRED. */
  lemma {:induction false} SlotsInEveryRun(inputs: seq<ManagerInput>)
    ensures SlotFits(ManagerRun(inputs).agnss) && SlotFits(ManagerRun(inputs).internet)
  {
    if inputs != [] {
      SlotsInEveryRun(inputs[..|inputs| - 1]);
      ManagerStepKeepsSlots(ManagerRun(inputs[..|inputs| - 1]), inputs[|inputs| - 1]);
    }
  }

  // ----- What one handle is told ---------------------------------------------------------------

  ghost predicate HandleFitsSlot(slot: Slot, seen: bool, got: seq<Output>, h: int) {
    slot.Some? ==> HandleFits(slot.value.machine, seen, got, h)
  }

  /** The handle is with one of the machines, or was refused, or has not asked. */
  ghost predicate HandleFitsManager(g: Manager, seen: bool, h: int) {
    var got := CallbacksOf(g.sent, h);
    if !seen then got == [] && HandleFitsSlot(g.agnss, false, [], h) && HandleFitsSlot(g.internet, false, [], h)
    else
      || (g.agnss.Some? && HandleFitsSlot(g.agnss, true, got, h) && HandleFitsSlot(g.internet, false, [], h))
      || (g.internet.Some? && HandleFitsSlot(g.internet, true, got, h) && HandleFitsSlot(g.agnss, false, [], h))
      || (got == [OpenStatus(h, false)]
          && HandleFitsSlot(g.agnss, false, [], h) && HandleFitsSlot(g.internet, false, [], h))
  }

  lemma FeedKeepsHandle(slot: Slot, input: Input, h: int, seen: bool, got: seq<Output>)
    requires HandleFitsSlot(slot, seen, got, h) && (Asks(input, h) ==> !seen)
    ensures HandleFitsSlot(Feed(slot, input).0, seen || Asks(input, h), got + CallbacksOf(Feed(slot, input).1, h), h)
  {
    if slot.Some? {
      StepKeepsHandle(slot.value.machine, input, h, seen, got);
    }
  }

  /** A machine that has not been asked for `h` tells it nothing. */
  lemma FeedIgnoresStrangers(slot: Slot, input: Input, h: int)
    requires HandleFitsSlot(slot, false, [], h) && !Asks(input, h)
    ensures HandleFitsSlot(Feed(slot, input).0, false, [], h) && CallbacksOf(Feed(slot, input).1, h) == []
  {
    FeedKeepsHandle(slot, input, h, false, []);
  }

  lemma FeedOneKeepsHandle(g: Manager, toAgnss: bool, input: Input, h: int, seen: bool)
    requires HandleFitsManager(g, seen, h)
    requires Asks(input, h) ==> !seen && (if toAgnss then g.agnss else g.internet).Some?
    ensures HandleFitsManager(FeedOne(g, toAgnss, input), seen || Asks(input, h), h)
  {
    var got := CallbacksOf(g.sent, h);
    var slot := if toAgnss then g.agnss else g.internet;
    CallbacksCompose(g.sent, Feed(slot, input).1, h);
    if HandleFitsSlot(slot, seen, got, h) {
      FeedKeepsHandle(slot, input, h, seen, got);
    }
    if HandleFitsSlot(slot, false, [], h) && !Asks(input, h) {
      FeedIgnoresStrangers(slot, input, h);
      assert got + [] == got;
    }
  }

  predicate AsksManager(input: ManagerInput, h: int) {
    input.RequestATL? && input.handle == h
  }

  lemma ManagerStepKeepsHandle(g: Manager, input: ManagerInput, h: int, seen: bool)
    requires HandleFitsManager(g, seen, h) && (AsksManager(input, h) ==> !seen)
    ensures HandleFitsManager(ManagerStep(g, input), seen || AsksManager(input, h), h)
  {
    match input
    case CreateMachines(_, _, _, _) =>
    case RequestATL(x, t) =>
      if (if UsesAgnss(t) then g.agnss else g.internet) == None {
        CallbacksCompose(g.sent, [OpenStatus(x, false)], h);
        assert x != h ==> CallbacksOf(g.sent, h) + [] == CallbacksOf(g.sent, h);
      } else {
        FeedOneKeepsHandle(g, UsesAgnss(t), Request(x, false), h, seen);
      }
    case ReleaseATL(x) =>
      FeedOneKeepsHandle(g, true, ReleaseOf(x), h, seen);
      FeedOneKeepsHandle(g, false, ReleaseOf(x), h, seen);
    case ReportOpenSuccess(t) => FeedOneKeepsHandle(g, UsesAgnss(t), OpenSuccess, h, seen);
    case ReportOpenFailed(t) => FeedOneKeepsHandle(g, UsesAgnss(t), OpenFailed, h, seen);
    case ReportClosed(t) => FeedOneKeepsHandle(g, UsesAgnss(t), Closed, h, seen);
    case ModemSSR =>
      FeedOneKeepsHandle(g, true, ModemRestart, h, seen);
      FeedOneKeepsHandle(FeedOne(g, true, ModemRestart), false, ModemRestart, h, seen);
  }

  ghost predicate AskedManager(inputs: seq<ManagerInput>, h: int) {
    exists i :: 0 <= i < |inputs| && AsksManager(inputs[i], h)
  }

  ghost predicate AsksManagerOnce(inputs: seq<ManagerInput>, h: int) {
    forall i, j :: 0 <= i < j < |inputs| && AsksManager(inputs[i], h) ==> !AsksManager(inputs[j], h)
  }

  lemma {:induction false} HandleFitsEveryManagerRun(inputs: seq<ManagerInput>, h: int)
    requires AsksManagerOnce(inputs, h)
    ensures HandleFitsManager(ManagerRun(inputs), AskedManager(inputs, h), h)
  {
    if inputs != [] {
      var n := |inputs| - 1;
      HandleFitsEveryManagerRun(inputs[..n], h);
      if i :| 0 <= i < n && AsksManager(inputs[..n][i], h) {
        assert AsksManager(inputs[i], h);
      }
      if i :| 0 <= i < |inputs| && AsksManager(inputs[i], h) {
        assert i < n ==> AsksManager(inputs[..n][i], h);
      }
      ManagerStepKeepsHandle(ManagerRun(inputs[..n]), inputs[n], h, AskedManager(inputs[..n], h));
    }
  }

  /** A connection handle that is requested at most once is told nothing, or that its open
      succeeded, failed, or was closed, or that it succeeded and then was closed: never anything else. */
  lemma HandleTold(inputs: seq<ManagerInput>, h: int)
    requires AsksManagerOnce(inputs, h)
    ensures Complete(CallbacksOf(ManagerRun(inputs).sent, h), h)
  {
    HandleFitsEveryManagerRun(inputs, h);
  }

  ghost predicate ListedNowhere(g: Manager, h: int) {
    !ListedIn(g.agnss, h) && !ListedIn(g.internet, h)
  }

  lemma FeedKeepsGone(slot: Slot, input: Input, h: int)
    requires SlotFits(slot) && !ListedIn(slot, h) && !Asks(input, h)
    ensures !ListedIn(Feed(slot, input).0, h) && CallbacksOf(Feed(slot, input).1, h) == []
  {
    if slot.Some? {
      var m := slot.value.machine;
      assert forall s :: s in m.subs ==> s.handle != h;
      GoneStaysGone(m, input, h);
    }
  }

  lemma FeedOneKeepsGone(g: Manager, toAgnss: bool, input: Input, h: int)
    requires SlotFits(g.agnss) && SlotFits(g.internet) && ListedNowhere(g, h) && !Asks(input, h)
    ensures ListedNowhere(FeedOne(g, toAgnss, input), h)
    ensures CallbacksOf(FeedOne(g, toAgnss, input).sent, h) == CallbacksOf(g.sent, h)
  {
    var slot := if toAgnss then g.agnss else g.internet;
    FeedKeepsGone(slot, input, h);
    CallbacksCompose(g.sent, Feed(slot, input).1, h);
  }

  lemma ManagerRunSnoc(inputs: seq<ManagerInput>, input: ManagerInput)
    ensures ManagerRun(inputs + [input]) == ManagerStep(ManagerRun(inputs), input)
  {
    assert (inputs + [input])[..|inputs|] == inputs;
  }

  /** A handle that has left the lists is never notified again, for as long as it does not ask. */
  lemma {:induction false} GoneForGood(before: seq<ManagerInput>, after: seq<ManagerInput>, h: int)
    requires ListedNowhere(ManagerRun(before), h) && !AskedManager(after, h)
    ensures ListedNowhere(ManagerRun(before + after), h)
    ensures CallbacksOf(ManagerRun(before + after).sent, h) == CallbacksOf(ManagerRun(before).sent, h)
  {
    if after == [] {
      assert before + after == before;
    } else {
      var n := |after| - 1;
      var input := after[n];
      assert !AsksManager(input, h);
      assert forall i :: 0 <= i < n ==> after[..n][i] == after[i];
      GoneForGood(before, after[..n], h);
      SlotsInEveryRun(before + after[..n]);
      ManagerStepKeepsGone(ManagerRun(before + after[..n]), input, h);
      ManagerRunSnoc(before + after[..n], input);
      assert before + after == (before + after[..n]) + [input];
    }
  }

  lemma ManagerStepKeepsGone(g: Manager, input: ManagerInput, h: int)
    requires SlotFits(g.agnss) && SlotFits(g.internet) && ListedNowhere(g, h) && !AsksManager(input, h)
    ensures ListedNowhere(ManagerStep(g, input), h)
    ensures CallbacksOf(ManagerStep(g, input).sent, h) == CallbacksOf(g.sent, h)
  {
    match input
    case CreateMachines(_, _, _, _) =>
    case RequestATL(x, t) =>
      CallbacksCompose(g.sent, [OpenStatus(x, false)], h);
      FeedOneKeepsGone(g, UsesAgnss(t), Request(x, false), h);
    case ReleaseATL(x) =>
      FeedOneKeepsGone(g, true, ReleaseOf(x), h);
      FeedOneKeepsGone(g, false, ReleaseOf(x), h);
    case ReportOpenSuccess(t) => FeedOneKeepsGone(g, UsesAgnss(t), OpenSuccess, h);
    case ReportOpenFailed(t) => FeedOneKeepsGone(g, UsesAgnss(t), OpenFailed, h);
    case ReportClosed(t) => FeedOneKeepsGone(g, UsesAgnss(t), Closed, h);
    case ModemSSR =>
      FeedOneKeepsGone(g, true, ModemRestart, h);
      FeedKeepsSlot(g.agnss, ModemRestart);
      FeedOneKeepsGone(FeedOne(g, true, ModemRestart), false, ModemRestart, h);
  }
}
