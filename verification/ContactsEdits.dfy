/** What becomes of an edit. A pass loads the store, works on what it loaded, and overwrites
    the store at its end: an edit made before the load is carried through the pass unless the
    shadow that gives it away has been dropped, one made between the load and the save leaves
    no trace, and one made after the save waits in the store for the next load. */
module ContactsEdits {
  import opened Wrappers
  import opened OpLog
  import opened ContactsSync

  /** The pass has loaded the store and not yet saved it. */
  predicate Loaded(p: Pass) { p.Based? || p.Pulled? || p.Appended? || p.Merged? }

  /** Device d neither edits its store nor saves it in the steps from m up to n. */
  predicate Untouched(events: seq<Event>, d: nat, m: nat, n: nat) {
    forall j :: m <= j < n <= |events| && events[j].device == d ==>
      !events[j].action.Edit? && !events[j].action.SaveStore?
  }

  lemma {:induction false} DevicesStay(states: seq<State>, events: seq<Event>, d: nat, m: nat, n: nat)
    requires Run(states, events) && m <= n <= |events| && d in states[m].devices
    ensures d in states[n].devices
    decreases n
  {
    if m < n {
      DevicesStay(states, events, d, m, n - 1);
      assert states[n] == After(states[n - 1], events[n - 1]);
    }
  }

  /** The edited list stands in the store, and is what any pass under way has loaded. */
  predicate Carried(dev: Device, list: seq<Contact>) {
    dev.store == list && (Loaded(dev.pass) ==> dev.pass.local.loaded == list)
  }

  lemma CarriedStep(srv: Server, dev: Device, a: Action, list: seq<Contact>)
    requires Enabled(dev, a) && Carried(dev, list) && !a.Edit? && !a.SaveStore?
    ensures Carried(DoDevice(srv, dev, a), list)
  {
  }

  lemma {:induction false} StaysCarried(states: seq<State>, events: seq<Event>, d: nat, list: seq<Contact>, m: nat,
                                        n: nat)
    requires Run(states, events) && m <= n <= |events| && Untouched(events, d, m, n)
    requires d in states[m].devices && Carried(states[m].devices[d], list)
    ensures d in states[n].devices && Carried(states[n].devices[d], list)
    decreases n
  {
    if m < n {
      var s, ev := states[n - 1], events[n - 1];
      StaysCarried(states, events, d, list, m, n - 1);
      assert CanDo(s, ev) && states[n] == After(s, ev);
      if ev.device == d {
        CarriedStep(s.server, s.devices[d], ev.action, list);
      }
    }
  }

  /** What a pass saves: its own batch, and the log's value for every other alias. What the
      store holds by then does not come into it. */
  lemma SavedValue(states: seq<State>, events: seq<Event>, d: nat, s: nat, saved: seq<Contact>, k: string)
    requires CleanRun(states, events) && s < |events| && events[s] == Event(d, SaveStore(saved))
    requires d in states[s].devices
    ensures states[s].devices[d].pass.Merged? && states[s].devices[d].pass.mem.seqNo <= |states[s].server.history|
    ensures var dev := states[s].devices[d];
      var shadowed, loaded := At(ByID(ShadowList(dev)), k), At(ByID(dev.pass.local.loaded), k);
      At(ByID(saved), k) ==
        if loaded != shadowed then loaded else At(MeaningAt(states[s].server, dev.pass.mem.seqNo), k)
  {
    RunInv(states, events, s);
    assert CanDo(states[s], events[s]);
  }

  /** The same state with another list in d's store. */
  function With(s: State, d: nat, list: seq<Contact>): State
    requires d in s.devices
  {
    State(s.server, s.devices[d := s.devices[d].(store := list)])
  }

  predicate InPass(a: Action) { a.Pull? || a.Push? || a.Repair? }

  lemma WithStep(s: State, e: Event, d: nat, list: seq<Contact>)
    requires CanDo(s, e) && d in s.devices && (e.device == d ==> InPass(e.action))
    ensures CanDo(With(s, d, list), e) && d in After(s, e).devices
    ensures After(With(s, d, list), e) == With(After(s, e), d, list)
  {
    var dev := s.devices[e.device];
    if e.device == d {
      assert DoDevice(s.server, dev.(store := list), e.action) == DoDevice(s.server, dev, e.action).(store := list);
    }
  }

  lemma WithEdit(s: State, d: nat, list: seq<Contact>, other: seq<Contact>)
    requires CanDo(s, Event(d, Edit(list))) && Distinct(other)
    ensures CanDo(s, Event(d, Edit(other)))
    ensures d in After(s, Event(d, Edit(list))).devices
    ensures After(s, Event(d, Edit(other))) == With(After(s, Event(d, Edit(list))), d, other)
  {
  }

  lemma WithSave(s: State, d: nat, list: seq<Contact>, saved: seq<Contact>)
    requires CanDo(s, Event(d, SaveStore(saved)))
    ensures CanDo(With(s, d, list), Event(d, SaveStore(saved)))
    ensures After(With(s, d, list), Event(d, SaveStore(saved))) == After(s, Event(d, SaveStore(saved)))
  {
  }

  /** The window: d edits at e with a pass loaded, and that pass goes on to save at s. */
  ghost predicate InWindow(states: seq<State>, events: seq<Event>, d: nat, e: nat, s: nat) {
    && Run(states, events) && e < s < |events| && d in states[e].devices
    && events[e].device == d && events[e].action.Edit? && Loaded(states[e].devices[d].pass)
    && events[s].device == d && events[s].action.SaveStore?
    && forall j :: e < j < s && events[j].device == d ==> InPass(events[j].action)
  }

  lemma {:induction false} WindowKeepsLoaded(states: seq<State>, events: seq<Event>, d: nat, e: nat, n: nat)
    requires Run(states, events) && e < n <= |events| && d in states[e].devices && Loaded(states[e].devices[d].pass)
    requires events[e].device == d && events[e].action.Edit?
    requires forall j :: e < j < n && events[j].device == d ==> InPass(events[j].action)
    ensures d in states[n].devices && Loaded(states[n].devices[d].pass)
    ensures states[n].devices[d].pass.local == states[e].devices[d].pass.local
    ensures states[n].devices[d].store == events[e].action.list
    decreases n
  {
    assert CanDo(states[n - 1], events[n - 1]) && states[n] == After(states[n - 1], events[n - 1]);
    if e < n - 1 {
      WindowKeepsLoaded(states, events, d, e, n - 1);
    }
  }

  /** A loaded pass that is left behind has ended, with the edit still in the store. */
  lemma LeavesWindow(srv: Server, dev: Device, a: Action)
    requires Enabled(dev, a) && Loaded(dev.pass) && !InPass(a) && !a.Edit? && !a.SaveStore?
    ensures Carried(DoDevice(srv, dev, a), dev.store)
  {
  }

  /** Outside the window the edit is what the save's pass has loaded. */
  lemma EditReachesSave(states: seq<State>, events: seq<Event>, d: nat, e: nat, s: nat)
    requires Run(states, events) && e < s < |events| && d in states[e].devices
    requires events[e].device == d && events[e].action.Edit? && Untouched(events, d, e + 1, s)
    requires events[s].device == d && events[s].action.SaveStore? && !InWindow(states, events, d, e, s)
    ensures d in states[s].devices && Carried(states[s].devices[d], events[e].action.list)
  {
    var list := events[e].action.list;
    assert CanDo(states[e], events[e]) && states[e + 1] == After(states[e], events[e]);
    if Loaded(states[e].devices[d].pass) {
      var m := FirstOut(events, d, e + 1, s);
      WindowKeepsLoaded(states, events, d, e, m);
      assert CanDo(states[m], events[m]) && states[m + 1] == After(states[m], events[m]);
      LeavesWindow(states[m].server, states[m].devices[d], events[m].action);
      StaysCarried(states, events, d, list, m + 1, s);
    } else {
      StaysCarried(states, events, d, list, e + 1, s);
    }
  }

  /** The first step of d from m on that is not part of a pass's exchange. */
  lemma {:induction false} FirstOut(events: seq<Event>, d: nat, m: nat, n: nat) returns (j: nat)
    requires exists i :: m <= i < n <= |events| && events[i].device == d && !InPass(events[i].action)
    ensures m <= j < n && events[j].device == d && !InPass(events[j].action)
    ensures forall i :: m <= i < j && events[i].device == d ==> InPass(events[i].action)
    decreases n - m
  {
    if events[m].device == d && !InPass(events[m].action) {
      j := m;
    } else {
      j := FirstOut(events, d, m + 1, n);
    }
  }

  /** Device d dropped its shadow in the steps from m up to n. */
  predicate WasReset(events: seq<Event>, d: nat, m: nat, n: nat) {
    exists j :: m <= j < n <= |events| && events[j] == Event(d, Reset)
  }

  /** The shadow is the one of `was`, or the one a pass under way in `was` went on to save;
      once dropped, it is gone. */
  predicate ShadowFrom(was: Device, dev: Device, reset: bool) {
    if reset then dev.shadow.None? && !dev.pass.StoreSaved?
    else if dev.pass.StoreSaved? then
      was.pass.StoreSaved? && dev.pass.merged == was.pass.merged && dev.shadow == was.shadow
    else dev.shadow == was.shadow || (was.pass.StoreSaved? && dev.shadow == Some(was.pass.merged))
  }

  lemma ShadowStep(srv: Server, was: Device, dev: Device, a: Action, reset: bool)
    requires ShadowFrom(was, dev, reset) && Enabled(dev, a) && !a.SaveStore?
    ensures ShadowFrom(was, DoDevice(srv, dev, a), reset || a.Reset?)
  {
  }

  lemma {:induction false} ShadowTraced(states: seq<State>, events: seq<Event>, d: nat, e: nat, n: nat)
    requires Run(states, events) && e <= n <= |events| && d in states[e].devices
    requires forall j :: e <= j < n && events[j].device == d ==> !events[j].action.SaveStore?
    ensures d in states[n].devices && ShadowFrom(states[e].devices[d], states[n].devices[d], WasReset(events, d, e, n))
    decreases n
  {
    if e < n {
      var s, ev := states[n - 1], events[n - 1];
      ShadowTraced(states, events, d, e, n - 1);
      assert CanDo(s, ev) && states[n] == After(s, ev);
      ResetNext(events, d, e, n - 1);
      if ev.device == d {
        ShadowStep(s.server, states[e].devices[d], s.devices[d], ev.action, WasReset(events, d, e, n - 1));
      }
    }
  }

  lemma ResetNext(events: seq<Event>, d: nat, m: nat, n: nat)
    requires m <= n < |events|
    ensures WasReset(events, d, m, n + 1) <==> WasReset(events, d, m, n) || events[n] == Event(d, Reset)
  {
  }

  /** What the log brings for alias k to the pass that saves at s. */
  ghost function LogValue(states: seq<State>, d: nat, s: nat, k: string): Option<Contact>
    requires s < |states| && d in states[s].devices
    requires states[s].devices[d].pass.Merged? && states[s].devices[d].pass.mem.seqNo <= |states[s].server.history|
  {
    At(MeaningAt(states[s].server, states[s].devices[d].pass.mem.seqNo), k)
  }

  /** What a pass saves at alias k is not v, with the shadow and the store it had loaded. */
  predicate Overruled(shadow: Option<seq<Contact>>, loaded: seq<Contact>, brought: Option<Contact>, k: string,
                      v: Option<Contact>) {
    var shadowed := if shadow.Some? then At(ByID(shadow.value), k) else None;
    if At(ByID(loaded), k) != shadowed then At(ByID(loaded), k) != v else brought != v
  }

  /** Every edit of an alias, whatever its value, is lost by the next save in exactly three
      cases. It was made in that pass's window, after the pass loaded the store and before it
      saved it, and neither what the pass had loaded nor the log happens to bring the same value.
      Or the pass had no shadow, the edit was a deletion, and the log still holds the contact. Or
      the edit gave the alias back the value of the shadow, and the log has moved on from that. */
  lemma EditLostExact(states: seq<State>, events: seq<Event>, d: nat, e: nat, s: nat, saved: seq<Contact>, k: string)
    requires CleanRun(states, events) && e < s < |events| && d in states[e].devices && d in states[s].devices
    requires events[e].device == d && events[e].action.Edit? && events[s] == Event(d, SaveStore(saved))
    requires Untouched(events, d, e + 1, s)
    requires states[s].devices[d].pass.Merged? && states[s].devices[d].pass.mem.seqNo <= |states[s].server.history|
    ensures var v, brought, dev := At(ByID(events[e].action.list), k), LogValue(states, d, s, k), states[s].devices[d];
      At(ByID(saved), k) != v <==>
        if InWindow(states, events, d, e, s) then
          Overruled(dev.shadow, states[e].devices[d].pass.local.loaded, brought, k, v)
        else if dev.shadow.None? then v.None? && brought.Some?
        else v == At(ByID(dev.shadow.value), k) && brought != v
  {
    SavedValue(states, events, d, s, saved, k);
    if InWindow(states, events, d, e, s) {
      WindowKeepsLoaded(states, events, d, e, s);
    } else {
      EditReachesSave(states, events, d, e, s);
    }
  }

  /** An edit made inside the window is forgotten: had it been any other edit, the run could
      have gone on to the very same states from the save onwards. */
  lemma EditForgotten(states: seq<State>, events: seq<Event>, d: nat, e: nat, s: nat, other: seq<Contact>)
    returns (states': seq<State>)
    requires InWindow(states, events, d, e, s) && Distinct(other)
    ensures Run(states', events[e := Event(d, Edit(other))])
    ensures forall j :: 0 <= j <= e || s < j < |states| ==> states'[j] == states[j]
  {
    forall j | e <= j <= |events| ensures d in states[j].devices { DevicesStay(states, events, d, e, j); }
    states' := seq(|states|, j requires 0 <= j < |states| =>
                    if e < j <= s then With(states[j], d, other) else states[j]);
    var events' := events[e := Event(d, Edit(other))];
    forall i | 0 <= i < |events'|
      ensures CanDo(states'[i], events'[i]) && states'[i + 1] == After(states'[i], events'[i])
    {
      VariantStep(states, events, d, e, s, other, i);
    }
  }

  lemma VariantStep(states: seq<State>, events: seq<Event>, d: nat, e: nat, s: nat, other: seq<Contact>, i: nat)
    requires InWindow(states, events, d, e, s) && Distinct(other) && i < |events|
    requires e <= i ==> d in states[i].devices && d in states[i + 1].devices
    ensures var w := if e < i <= s then With(states[i], d, other) else states[i];
      var w' := if e <= i < s then With(states[i + 1], d, other) else states[i + 1];
      var ev := if i == e then Event(d, Edit(other)) else events[i];
      CanDo(w, ev) && w' == After(w, ev)
  {
    assert CanDo(states[i], events[i]) && states[i + 1] == After(states[i], events[i]);
    if i == e {
      WithEdit(states[i], d, events[e].action.list, other);
    } else if e < i < s {
      WithStep(states[i], events[i], d, other);
    } else if i == s {
      WithSave(states[i], d, other, events[s].action.list);
    }
  }
}
