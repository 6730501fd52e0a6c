/** What the AGPS manager owes a connection handle, over both machines. */
module AgpsManagerDuties {
  import opened Wrappers
  import opened AgpsModel
  import opened AgpsProperties
  import opened AgpsHandles
  import opened AgpsDuties
  import opened AgpsManagerModel

  /** The machine that a type belongs to. */
  function SlotOf(g: Manager, t: AgpsType): Slot {
    if t == WwanAny || t == OtherType then g.internet else g.agnss
  }

  function OtherSlot(g: Manager, t: AgpsType): Slot {
    if t == WwanAny || t == OtherType then g.agnss else g.internet
  }

  /** Capabilities decide which machines exist, and an existing one is kept. */
  lemma MachinesAsConfigured(g: Manager, agpsCapable: bool, wwan: bool, supl: bool, suplEs: bool)
    ensures
      var n := ManagerStep(g, CreateMachines(agpsCapable, wwan, supl, suplEs));
      && (n.agnss.Some? <==> g.agnss.Some? || (agpsCapable && supl && suplEs))
      && (n.internet.Some? <==> g.internet.Some? || wwan)
      && (g.agnss.Some? ==> n.agnss == g.agnss) && (g.internet.Some? ==> n.internet == g.internet)
      && (g.agnss == None && n.agnss.Some? ==> n.agnss.value == Run([]))
      && (g.internet == None && n.internet.Some? ==> n.internet.value == Run([]))
      && n.sent == g.sent
  {
  }

  /** A request is listed by the machine of its type, which is then not at rest; without a machine it is refused. */
  lemma RequestReachesMachine(g: Manager, h: int, t: AgpsType)
    requires SlotFits(g.agnss) && SlotFits(g.internet)
    ensures
      var n := ManagerStep(g, RequestATL(h, t));
      && OtherSlot(n, t) == OtherSlot(g, t)
      && (SlotOf(g, t) == None ==> n == g.(sent := g.sent + [OpenStatus(h, false)]))
      && (SlotOf(g, t).Some? ==>
            && ListedIn(SlotOf(n, t), h) && SlotOf(n, t).value.machine.state != Released
            && CallbacksOf(n.sent, h) ==
               CallbacksOf(g.sent, h) +
               if SlotOf(g, t).value.machine.state == Acquired then [OpenStatus(h, true)] else [])
  {
    if SlotOf(g, t).Some? {
      var m := SlotOf(g, t).value.machine;
      RequestIsTaken(m, h, false, h);
      CallbacksCompose(g.sent, Step(m, Request(h, false)).sent, h);
    }
  }

  /** The grant of a pending call is passed to everybody its machine lists; the other machine does not notice. */
  lemma GrantReachesMachine(g: Manager, t: AgpsType, h: int)
    requires SlotFits(g.agnss) && SlotFits(g.internet)
    requires SlotOf(g, t).Some? && SlotOf(g, t).value.machine.state == Pending
    ensures
      var n := ManagerStep(g, ReportOpenSuccess(t));
      && OtherSlot(n, t) == OtherSlot(g, t)
      && SlotOf(n, t).Some? && SlotOf(n, t).value.machine == Machine(Acquired, SlotOf(g, t).value.machine.subs)
      && CallbacksOf(n.sent, h) ==
         CallbacksOf(g.sent, h) + if ListedIn(SlotOf(g, t), h) then [OpenStatus(h, true)] else []
  {
    var m := SlotOf(g, t).value.machine;
    GrantTellsActive(m, h);
    ListedIff(m.subs, h);
    CallbacksCompose(g.sent, Step(m, OpenSuccess).sent, h);
  }

  lemma ListedIff(subs: seq<Subscriber>, h: int)
    ensures Listed(subs, h) <==> exists s :: s in subs && s.handle == h
  {
    if s :| s in subs && s.handle == h {
      StaysListed(subs, s);
    }
  }

  /** When the framework refuses a pending call or drops an acquired one, everybody its machine lists is told, and
      the machine is at rest; the other machine does not notice. */
  lemma EndReachesMachine(g: Manager, t: AgpsType, failed: bool, h: int)
    requires SlotFits(g.agnss) && SlotFits(g.internet)
    requires SlotOf(g, t).Some? && SlotOf(g, t).value.machine.state == if failed then Pending else Acquired
    ensures
      var n := ManagerStep(g, if failed then ReportOpenFailed(t) else ReportClosed(t));
      && OtherSlot(n, t) == OtherSlot(g, t)
      && SlotOf(n, t).Some? && SlotOf(n, t).value.machine == Machine(Released, [])
      && CallbacksOf(n.sent, h) ==
         CallbacksOf(g.sent, h) +
         if !ListedIn(SlotOf(g, t), h) then [] else if failed then [OpenStatus(h, false)] else [CloseStatus(h)]
  {
    var m := SlotOf(g, t).value.machine;
    var input := if failed then OpenFailed else Closed;
    EndTellsAll(m, h);
    ListedIff(m.subs, h);
    CallbacksCompose(g.sent, Step(m, input).sent, h);
  }

  /** A release takes the handle from the machine that lists it, and tells it that it is closed. */
  lemma ReleaseReachesMachine(g: Manager, h: int)
    requires SlotFits(g.agnss) && SlotFits(g.internet)
    ensures
      var n := ManagerStep(g, ReleaseATL(h));
      && (ListedNowhere(g, h) ==> n == g)
      && (ListedIn(g.agnss, h) ==> !ListedIn(n.agnss, h) && n.internet == g.internet)
      && (!ListedIn(g.agnss, h) ==> n.agnss == g.agnss && !ListedIn(n.internet, h))
      && CallbacksOf(n.sent, h) == CallbacksOf(g.sent, h) + if ListedNowhere(g, h) then [] else [CloseStatus(h)]
  {
    if ListedNowhere(g, h) {
      assert CallbacksOf(g.sent, h) + [] == CallbacksOf(g.sent, h);
    } else {
      var m := if ListedIn(g.agnss, h) then g.agnss.value.machine else g.internet.value.machine;
      var s := m.subs[IndexOf(m.subs, h)];
      assert s in m.subs && !s.waitForClose;
      ReleaseIsDone(m, s, h);
      ListedIff(Step(m, ReleaseOf(h)).machine.subs, h);
      CallbacksCompose(g.sent, Step(m, ReleaseOf(h)).sent, h);
    }
  }

  // ----- Runs ----------------------------------------------------------------------------------

  predicate ListedSomewhere(g: Manager, h: int) {
    ListedIn(g.agnss, h) || ListedIn(g.internet, h)
  }

  lemma FeedStaysOrTells(slot: Slot, input: Input, h: int)
    requires SlotFits(slot) && ListedIn(slot, h) && input != ModemRestart
    ensures ListedIn(Feed(slot, input).0, h) || Ends(CallbacksOf(Feed(slot, input).1, h), h)
  {
    StaysOrIsTold(slot.value.machine, input, h);
  }

  lemma FeedOneStaysOrTells(g: Manager, toAgnss: bool, input: Input, h: int)
    requires SlotFits(g.agnss) && SlotFits(g.internet) && input != ModemRestart
    requires ListedSomewhere(g, h) || Ends(CallbacksOf(g.sent, h), h)
    ensures
      var n := FeedOne(g, toAgnss, input);
      ListedSomewhere(n, h) || Ends(CallbacksOf(n.sent, h), h)
  {
    var slot := if toAgnss then g.agnss else g.internet;
    CallbacksCompose(g.sent, Feed(slot, input).1, h);
    if ListedIn(slot, h) {
      FeedStaysOrTells(slot, input, h);
    }
  }

  lemma StepStaysOrTells(g: Manager, input: ManagerInput, h: int)
    requires SlotFits(g.agnss) && SlotFits(g.internet) && input != ModemSSR
    requires ListedSomewhere(g, h) || Ends(CallbacksOf(g.sent, h), h)
    ensures
      var n := ManagerStep(g, input);
      ListedSomewhere(n, h) || Ends(CallbacksOf(n.sent, h), h)
  {
    match input
    case CreateMachines(_, _, _, _) =>
    case RequestATL(x, t) =>
      CallbacksCompose(g.sent, [OpenStatus(x, false)], h);
      FeedOneStaysOrTells(g, UsesAgnss(t), Request(x, false), h);
    case ReleaseATL(x) =>
      FeedOneStaysOrTells(g, true, ReleaseOf(x), h);
      FeedOneStaysOrTells(g, false, ReleaseOf(x), h);
    case ReportOpenSuccess(t) => FeedOneStaysOrTells(g, UsesAgnss(t), OpenSuccess, h);
    case ReportOpenFailed(t) => FeedOneStaysOrTells(g, UsesAgnss(t), OpenFailed, h);
    case ReportClosed(t) => FeedOneStaysOrTells(g, UsesAgnss(t), Closed, h);
  }

  /** In every run through the manager without a modem restart, a handle that has asked is with one of the machines
      unless it was told that its open failed or that it is closed. */
  lemma {:induction false} NobodyIsForgotten(inputs: seq<ManagerInput>, h: int)
    requires ModemSSR !in inputs && AskedManager(inputs, h)
    ensures
      var g := ManagerRun(inputs);
      ListedSomewhere(g, h) || Ends(CallbacksOf(g.sent, h), h)
  {
    var init, input := inputs[..|inputs| - 1], inputs[|inputs| - 1];
    var g := ManagerRun(init);
    SlotsInEveryRun(init);
    assert input in inputs;
    if AsksManager(input, h) {
      RequestReachesMachine(g, h, input.agpsType);
      CallbacksCompose(g.sent, [OpenStatus(h, false)], h);
    } else {
      var i :| 0 <= i < |inputs| && AsksManager(inputs[i], h);
      assert AsksManager(init[i], h);
      assert ModemSSR !in init;
      NobodyIsForgotten(init, h);
      StepStaysOrTells(g, input, h);
    }
  }
}
