/** Eventual agreement: once the users stop editing, two rounds of passes bring every device to
    one and the same contact list, however the passes interleave. */
module ContactsAgree {
  import opened Wrappers
  import opened OpLog
  import opened ContactsSync

  /** From m up to n nothing is edited, no session is dropped and every pass runs to its end. */
  predicate Calm(events: seq<Event>, m: nat, n: nat) {
    forall i :: m <= i < n <= |events| ==> CalmAction(events[i].action)
  }

  predicate CalmAction(a: Action) { !a.Edit? && !a.Reset? && !a.Abort? && !a.Crash? }

  /** The files hold the same contacts. */
  predicate Synced(dev: Device) { dev.shadow.Some? && ByID(dev.store) == ByID(dev.shadow.value) }

  /** The device has nothing of its own left to send, at whatever point of a pass it is. */
  predicate Clear(dev: Device) {
    match dev.pass
    case Idle => Synced(dev)
    case Started(_) => Synced(dev)
    case Based(_, local, _, _, _) => Synced(dev) && local.ops == []
    case Pulled(_, local, _, _) => Synced(dev) && local.ops == []
    case Appended(_, _, _, _, _, _) => false
    case Merged(_, local, _, _) => Synced(dev) && local.ops == []
    case StoreSaved(_, _, _) => !dev.edited
    case ShadowSaved(_, _, _) => Synced(dev)
    case Done(_) => Synced(dev)
  }

  /** A step the device takes, in and out of its invariant. */
  ghost predicate SoundStep(srv: Server, dev: Device, a: Action, srv': Server, dev': Device) {
    && ServerInv(srv) && DeviceInv(srv, dev) && Step(srv, dev, a, srv', dev') && DeviceInv(srv', dev')
  }

  lemma ClearStep(srv: Server, dev: Device, a: Action, srv': Server, dev': Device)
    requires SoundStep(srv, dev, a, srv', dev') && CalmAction(a) && Clear(dev)
    ensures Clear(dev') && srv'.history == srv.history
  {
    match a
    case Base(diff) => DiffEmptyIff(diff, ByID(ShadowList(dev)), ByID(dev.store));
    case Push => assert srv.history + [] == srv.history;
    case _ =>
  }

  /** A pass that began at this head and version, and what it comes to if no compaction overtakes
      its pull. */
  predicate Heading(dev: Device, head: nat, version: nat) {
    match dev.pass
    case Idle => dev.pos.seqNo == head
    case Started(r) => r.maxSeq == head && r.version == version
    case Based(r, _, _, _, _) => r.maxSeq == head && r.version == version
    case _ => dev.pass.mem.seqNo == head
  }

  lemma HeadingStep(srv: Server, dev: Device, a: Action, srv': Server, dev': Device, version: nat)
    requires SoundStep(srv, dev, a, srv', dev') && CalmAction(a) && Clear(dev)
    requires Heading(dev, |srv.history|, version) && !a.Begin? && (a.Pull? ==> srv.version == version)
    ensures Heading(dev', |srv.history|, version)
  {
    if a.Pull? {
      PullCut(srv, dev.pass);
    }
  }

  /** The device holds the log, and its position is at the head. */
  ghost predicate AtHead(srv: Server, dev: Device) {
    dev.pos.seqNo == |srv.history| && Clear(dev) && ByID(dev.store) == Meaning(srv)
  }

  lemma WholeMeaning(srv: Server)
    ensures MeaningAt(srv, |srv.history|) == Meaning(srv)
  {
    assert srv.history[..|srv.history|] == srv.history;
  }

  lemma AtHeadStep(srv: Server, dev: Device, a: Action, srv': Server, dev': Device)
    requires SoundStep(srv, dev, a, srv', dev') && CalmAction(a) && AtHead(srv, dev)
    ensures AtHead(srv', dev')
  {
    ClearStep(srv, dev, a, srv', dev');
    WholeMeaning(srv);
  }

  // ----- runs -----

  lemma {:induction false} SameDevices(states: seq<State>, events: seq<Event>, n: nat)
    requires Run(states, events) && n < |states|
    ensures states[n].devices.Keys == states[0].devices.Keys
  {
    if n > 0 {
      SameDevices(states, events, n - 1);
      assert CanDo(states[n - 1], events[n - 1]) && states[n] == After(states[n - 1], events[n - 1]);
    }
  }

  /** One step of a clean run, seen from device d. */
  lemma StepAt(states: seq<State>, events: seq<Event>, d: nat, k: nat)
    requires CleanRun(states, events) && k < |events| && d in states[0].devices
    ensures d in states[k].devices && d in states[k + 1].devices
    ensures if events[k].device == d
            then SoundStep(states[k].server, states[k].devices[d], events[k].action,
                           states[k + 1].server, states[k + 1].devices[d])
            else states[k + 1].devices[d] == states[k].devices[d]
  {
    SameDevices(states, events, k);
    SameDevices(states, events, k + 1);
    RunInv(states, events, k);
    RunInv(states, events, k + 1);
    assert CanDo(states[k], events[k]) && states[k + 1] == After(states[k], events[k]);
  }

  lemma {:induction false} StaysUnedited(states: seq<State>, events: seq<Event>, d: nat, m: nat, n: nat)
    requires CleanRun(states, events) && m <= n < |states| && Calm(events, m, n) && d in states[0].devices
    requires d in states[m].devices && !states[m].devices[d].edited
    ensures d in states[n].devices && !states[n].devices[d].edited
    decreases n
  {
    if m < n {
      StaysUnedited(states, events, d, m, n - 1);
      StepAt(states, events, d, n - 1);
    }
  }

  /** Device d completes a pass by event j that saved its result no earlier than m. */
  ghost predicate Completes(states: seq<State>, events: seq<Event>, d: nat, m: nat, j: nat) {
    && m <= j < |events| && |states| == |events| + 1 && events[j].device == d && PassSucceeded(events[j], states[j + 1])
    && (events[j].action.Finish? ==> exists i :: m <= i < j && events[i].device == d && events[i].action.SaveStore?)
  }

  lemma ClearAtEnd(srv: Server, dev: Device, a: Action, srv': Server, dev': Device)
    requires SoundStep(srv, dev, a, srv', dev') && dev'.pass.Idle? && (a.Base? || (a.Finish? && !dev.edited))
    ensures Clear(dev')
  {
    if a.Base? {
      DiffEmptyIff(a.diff, ByID(ShadowList(dev)), ByID(dev.store));
    }
  }

  lemma UneditedOnceSaved(states: seq<State>, events: seq<Event>, d: nat, i: nat)
    requires CleanRun(states, events) && i < |events| && d in states[0].devices
    requires events[i].device == d && events[i].action.SaveStore?
    ensures d in states[i + 1].devices && !states[i + 1].devices[d].edited
  {
    StepAt(states, events, d, i);
  }

  /** With no edits since, it then has nothing left to send. */
  lemma ClearOnceDone(states: seq<State>, events: seq<Event>, d: nat, m: nat, j: nat)
    requires CleanRun(states, events) && d in states[0].devices && Completes(states, events, d, m, j)
    requires Calm(events, m, j + 1)
    ensures d in states[j + 1].devices && Clear(states[j + 1].devices[d])
  {
    if events[j].action.Finish? {
      var i :| m <= i < j && events[i].device == d && events[i].action.SaveStore?;
      UneditedOnceSaved(states, events, d, i);
      StaysUnedited(states, events, d, i + 1, j);
    }
    StepAt(states, events, d, j);
    ClearAtEnd(states[j].server, states[j].devices[d], events[j].action,
               states[j + 1].server, states[j + 1].devices[d]);
  }

  lemma ClearAt(states: seq<State>, events: seq<Event>, d: nat, k: nat)
    requires CleanRun(states, events) && k < |events| && d in states[0].devices && CalmAction(events[k].action)
    requires d in states[k].devices && Clear(states[k].devices[d])
    ensures d in states[k + 1].devices && Clear(states[k + 1].devices[d])
    ensures events[k].device == d ==> states[k + 1].server.history == states[k].server.history
  {
    StepAt(states, events, d, k);
    if events[k].device == d {
      ClearStep(states[k].server, states[k].devices[d], events[k].action,
                states[k + 1].server, states[k + 1].devices[d]);
    }
  }

  lemma {:induction false} StaysClear(states: seq<State>, events: seq<Event>, d: nat, m: nat, n: nat)
    requires CleanRun(states, events) && m <= n < |states| && Calm(events, m, n) && d in states[0].devices
    requires d in states[m].devices && Clear(states[m].devices[d])
    ensures d in states[n].devices && Clear(states[n].devices[d])
    decreases n
  {
    if m < n {
      StaysClear(states, events, d, m, n - 1);
      ClearAt(states, events, d, n - 1);
    }
  }

  ghost predicate AllClear(s: State) { forall d :: d in s.devices ==> Clear(s.devices[d]) }

  lemma LogStandsAt(states: seq<State>, events: seq<Event>, k: nat)
    requires CleanRun(states, events) && k < |events| && CalmAction(events[k].action) && AllClear(states[k])
    ensures AllClear(states[k + 1]) && states[k + 1].server.history == states[k].server.history
  {
    SameDevices(states, events, k);
    SameDevices(states, events, k + 1);
    var s' := states[k + 1];
    forall d | d in s'.devices ensures Clear(s'.devices[d]) {
      ClearAt(states, events, d, k);
    }
    assert CanDo(states[k], events[k]);
    ClearAt(states, events, events[k].device, k);
  }

  /** Clear devices append nothing. */
  lemma {:induction false} LogStands(states: seq<State>, events: seq<Event>, a: nat, n: nat)
    requires CleanRun(states, events) && a <= n < |states| && Calm(events, a, n) && AllClear(states[a])
    ensures AllClear(states[n]) && states[n].server.history == states[a].server.history
    decreases n
  {
    if a < n {
      LogStands(states, events, a, n - 1);
      LogStandsAt(states, events, n - 1);
    }
  }

  /** The pass of d that began at i completes at j, and no compaction came between its start and
      its pull. */
  ghost predicate Undisturbed(states: seq<State>, events: seq<Event>, d: nat, i: nat, j: nat) {
    && i < j < |events| && |states| == |events| + 1
    && events[i] == Event(d, Begin) && events[j].device == d && PassSucceeded(events[j], states[j + 1])
    && (forall k :: i < k < j ==> events[k] != Event(d, Begin))
    && (forall k :: i < k < j && events[k] == Event(d, Pull) ==> states[k].server.version == states[i].server.version)
  }

  lemma HeadsAt(states: seq<State>, events: seq<Event>, d: nat, k: nat, version: nat)
    requires CleanRun(states, events) && k < |events| && d in states[0].devices && CalmAction(events[k].action)
    requires d in states[k].devices && Clear(states[k].devices[d])
    requires events[k] != Event(d, Begin) && (events[k] == Event(d, Pull) ==> states[k].server.version == version)
    requires Heading(states[k].devices[d], |states[k].server.history|, version)
    ensures d in states[k + 1].devices && Heading(states[k + 1].devices[d], |states[k].server.history|, version)
  {
    StepAt(states, events, d, k);
    if events[k].device == d {
      HeadingStep(states[k].server, states[k].devices[d], events[k].action,
                  states[k + 1].server, states[k + 1].devices[d], version);
    }
  }

  lemma HeadsFrom(states: seq<State>, events: seq<Event>, d: nat, i: nat)
    requires CleanRun(states, events) && i < |events| && d in states[0].devices && events[i] == Event(d, Begin)
    ensures d in states[i + 1].devices
    ensures Heading(states[i + 1].devices[d], |states[i].server.history|, states[i].server.version)
  {
    StepAt(states, events, d, i);
  }

  lemma {:induction false} HeadsOn(states: seq<State>, events: seq<Event>, a: nat, d: nat, i: nat, j: nat, k: nat)
    requires CleanRun(states, events) && d in states[0].devices && a < |states| && AllClear(states[a])
    requires a <= i < k <= j && Undisturbed(states, events, d, i, j) && Calm(events, a, j + 1)
    ensures d in states[k].devices
    ensures Heading(states[k].devices[d], |states[a].server.history|, states[i].server.version)
    decreases k
  {
    LogStands(states, events, a, k - 1);
    if i == k - 1 {
      HeadsFrom(states, events, d, i);
    } else {
      HeadsOn(states, events, a, d, i, j, k - 1);
      HeadsAt(states, events, d, k - 1, states[i].server.version);
    }
  }

  /** The end of such a pass. */
  lemma EndsAtHead(srv: Server, dev: Device, a: Action, srv': Server, dev': Device, version: nat)
    requires SoundStep(srv, dev, a, srv', dev') && CalmAction(a) && Clear(dev) && !a.Begin? && !a.Pull?
    requires Heading(dev, |srv.history|, version) && dev'.pass.Idle?
    ensures AtHead(srv', dev')
  {
    ClearStep(srv, dev, a, srv', dev');
    HeadingStep(srv, dev, a, srv', dev', version);
    WholeMeaning(srv');
  }

  lemma ReachesHead(states: seq<State>, events: seq<Event>, a: nat, d: nat, i: nat, j: nat)
    requires CleanRun(states, events) && d in states[0].devices && a < |states| && AllClear(states[a])
    requires a <= i && Undisturbed(states, events, d, i, j) && Calm(events, a, j + 1)
    ensures d in states[j + 1].devices && AtHead(states[j + 1].server, states[j + 1].devices[d])
  {
    HeadsOn(states, events, a, d, i, j, j);
    LogStands(states, events, a, j);
    StepAt(states, events, d, j);
    EndsAtHead(states[j].server, states[j].devices[d], events[j].action, states[j + 1].server, states[j + 1].devices[d],
               states[i].server.version);
  }

  lemma AtHeadAt(states: seq<State>, events: seq<Event>, d: nat, k: nat)
    requires CleanRun(states, events) && k < |events| && d in states[0].devices && CalmAction(events[k].action)
    requires states[k + 1].server.history == states[k].server.history
    requires d in states[k].devices && AtHead(states[k].server, states[k].devices[d])
    ensures d in states[k + 1].devices && AtHead(states[k + 1].server, states[k + 1].devices[d])
  {
    StepAt(states, events, d, k);
    if events[k].device == d {
      AtHeadStep(states[k].server, states[k].devices[d], events[k].action,
                 states[k + 1].server, states[k + 1].devices[d]);
    }
  }

  lemma {:induction false} StaysAtHead(states: seq<State>, events: seq<Event>, a: nat, d: nat, m: nat, n: nat)
    requires CleanRun(states, events) && d in states[0].devices && a <= m <= n < |states|
    requires AllClear(states[a]) && Calm(events, a, n)
    requires d in states[m].devices && AtHead(states[m].server, states[m].devices[d])
    ensures d in states[n].devices && AtHead(states[n].server, states[n].devices[d])
    decreases n
  {
    if m < n {
      StaysAtHead(states, events, a, d, m, n - 1);
      LogStands(states, events, a, n - 1);
      LogStandsAt(states, events, n - 1);
      AtHeadAt(states, events, d, n - 1);
    }
  }

  /** Every device completes a pass between m and a, and another one, undisturbed, from a to n. */
  ghost predicate TwoRounds(states: seq<State>, events: seq<Event>, m: nat, a: nat, n: nat) {
    |states| > 0 && forall d :: d in states[0].devices ==>
      FirstRound(states, events, d, m, a) && SecondRound(states, events, d, a, n)
  }

  ghost predicate FirstRound(states: seq<State>, events: seq<Event>, d: nat, m: nat, a: nat) {
    exists j: nat :: j < a && Completes(states, events, d, m, j)
  }

  ghost predicate SecondRound(states: seq<State>, events: seq<Event>, d: nat, a: nat, n: nat) {
    exists i: nat, j: nat :: a <= i && j < n && Undisturbed(states, events, d, i, j)
  }

  lemma AllClearAfterRound(states: seq<State>, events: seq<Event>, m: nat, a: nat)
    requires CleanRun(states, events) && m <= a < |states| && Calm(events, m, a)
    requires forall d :: d in states[0].devices ==> FirstRound(states, events, d, m, a)
    ensures AllClear(states[a])
  {
    SameDevices(states, events, a);
    forall d | d in states[a].devices ensures Clear(states[a].devices[d]) {
      var j: nat :| j < a && Completes(states, events, d, m, j);
      ClearOnceDone(states, events, d, m, j);
      StaysClear(states, events, d, j + 1, a);
    }
  }

  /** However the passes of any number of devices interleave with each other and with
      compactions: if from m on nothing is edited and every device completes a pass, and then
      another one, all of them hold the same contacts, which are the whole log replayed, and they
      still do whatever passes follow. */
  lemma ListsAgree(states: seq<State>, events: seq<Event>, m: nat, a: nat, n: nat, d: nat)
    requires CleanRun(states, events) && m <= a <= n < |states| && Calm(events, m, n)
    requires TwoRounds(states, events, m, a, n) && d in states[0].devices
    ensures d in states[n].devices && ByID(states[n].devices[d].store) == Meaning(states[n].server)
    ensures states[n].server.history == states[a].server.history
  {
    AllClearAfterRound(states, events, m, a);
    LogStands(states, events, a, n);
    var i: nat, j: nat :| a <= i && j < n && Undisturbed(states, events, d, i, j);
    ReachesHead(states, events, a, d, i, j);
    StaysAtHead(states, events, a, d, j + 1, n);
  }
}
