/** What holds of every run of the server's handlers after one start. */
module ServerProperties {
  import opened Wrappers
  import opened Server

  /** A state some run from the start leads to. */
  ghost predicate Reached(max: nat, events: seq<Event>, s: State) {
    max < UINT32_RANGE && Exec(Init(max), events) == Some(s)
  }

  lemma ReachedHasInv(max: nat, events: seq<Event>, s: State)
    requires Reached(max, events, s)
    ensures Inv(s) && s.max == max
  {
    InitHasInv(max);
    RunKeepsInv(Init(max), events);
  }

  /**
   The counter is the number of registered connections, plus those erased but not yet
   counted off, minus one just inserted and not yet counted. Neither the counter nor the list
   exceeds the limit, and one accept at most is outstanding.
   */
  lemma CounterAccounts(max: nat, events: seq<Event>, s: State)
    requires Reached(max, events, s)
    ensures s.counter + |Inserting(s.handlers)| == |s.clients| + |Departing(s.handlers)|
    ensures |Inserting(s.handlers)| <= 1
    ensures s.counter <= max && |s.clients| <= max && s.accepts <= 1
  {
    ReachedHasInv(max, events, s);
    var hs := s.handlers;
    if h :| h in Inserting(hs) {
      assert Inserting(hs) == {h};
      assert LetIn(hs[h]) && s.counter < max;
    } else {
      assert Inserting(hs) == {};
    }
  }

  /** Counting off never wraps below zero, and counting up never above the word. */
  lemma NoWrap(max: nat, events: seq<Event>, s: State, h: nat, insertFails: bool)
    requires Reached(max, events, s) && h in s.handlers
    ensures s.handlers[h].Leaving? ==> StepOf(s, h, insertFails).value.counter == s.counter - 1
    ensures s.handlers[h].Inserted? ==> StepOf(s, h, insertFails).value.counter == s.counter + 1 <= max
  {
    ReachedHasInv(max, events, s);
    if s.handlers[h].Leaving? { CounterPositive(s, h); }
    assert s.handlers[h].Inserted? ==> LetIn(s.handlers[h]);
  }

  /** Whoever still uses a connection finds it registered, and nobody else uses it. */
  lemma UsersAreRegistered(max: nat, events: seq<Event>, s: State, h: nat)
    requires Reached(max, events, s) && h in s.handlers && Uses(s.handlers[h])
    ensures s.handlers[h].conn in s.clients && s.handlers[h].conn !in s.pending
    ensures forall g :: g in s.handlers && Uses(s.handlers[g]) && s.handlers[g].conn == s.handlers[h].conn ==> g == h
  {
    ReachedHasInv(max, events, s);
    SoleUser(s.clients, s.pending, s.handlers, h);
    forall g | g in s.handlers && Uses(s.handlers[g]) && s.handlers[g].conn == s.handlers[h].conn ensures g == h {
      assert SameConn(s.handlers[g], s.handlers[h]);
    }
  }

  /** One run after another is a run. */
  lemma {:induction false} ExecBoth(s: State, a: seq<Event>, b: seq<Event>)
    requires Exec(s, a).Some?
    ensures Exec(s, a + b) == Exec(Exec(s, a).value, b)
    decreases |a|
  {
    if a == [] {
      assert a + b == b;
    } else {
      assert (a + b)[1..] == a[1..] + b;
      hide Step;
      ExecBoth(Step(s, a[0]).value, a[1..], b);
    }
  }

  // ----- erasing -----

  predicate Erases(s: State, e: Event) { e.Proceed? && e.handler in s.handlers && s.handlers[e.handler].Owning? }

  /** The connections a run erases, in order. */
  function Erasures(s: State, events: seq<Event>): seq<Conn>
    requires Exec(s, events).Some?
    decreases |events|
  {
    if events == [] then []
    else
      (if Erases(s, events[0]) then [s.handlers[events[0].handler].conn] else []) +
      Erasures(Step(s, events[0]).value, events[1..])
  }

  /** Connections are numbered as they come, so one that is gone does not come back. */
  lemma GoneIsGone(s: State, e: Event, c: Conn)
    requires Step(s, e).Some?
    ensures var s' := Step(s, e).value;
      && s.nextConn <= s'.nextConn
      && (c in s'.clients ==> c in s.clients || s.nextConn <= c < s'.nextConn)
  {
  }

  lemma ExecTail(s: State, events: seq<Event>)
    requires Exec(s, events).Some? && events != []
    ensures Step(s, events[0]).Some? && Exec(s, events) == Exec(Step(s, events[0]).value, events[1..])
  {
  }

  lemma {:induction false} OnlyPresentOrLater(s: State, events: seq<Event>, k: nat)
    requires Inv(s) && Exec(s, events).Some? && k < |Erasures(s, events)|
    ensures var c := Erasures(s, events)[k]; c in s.clients || c >= s.nextConn
    decreases |events|
  {
    ErasureAt(s, events, k);
    hide Inv, Step, Exec, Erasures;
    ExecTail(s, events);
    var next := Step(s, events[0]).value;
    var first := if Erases(s, events[0]) then 1 else 0;
    if k < first {
      OwnedIsRegistered(s, events[0].handler);
    } else {
      StepKeepsInv(s, events[0]);
      OnlyPresentOrLater(next, events[1..], k - first);
      GoneIsGone(s, events[0], Erasures(s, events)[k]);
    }
  }

  lemma OwnedIsRegistered(s: State, h: nat)
    requires Inv(s) && h in s.handlers && s.handlers[h].Owning?
    ensures s.handlers[h].conn in s.clients && s.handlers[h].conn < s.nextConn
  {
  }

  /** Erased by the very step. */
  lemma ErasedNow(s: State, e: Event)
    requires Inv(s) && Erases(s, e)
    ensures var c := s.handlers[e.handler].conn;
      Step(s, e).Some? && c !in Step(s, e).value.clients && c < Step(s, e).value.nextConn
  {
  }

  lemma ErasureAt(s: State, events: seq<Event>, k: nat)
    requires Exec(s, events).Some? && k < |Erasures(s, events)|
    ensures events != [] && Step(s, events[0]).Some?
    ensures var first := if Erases(s, events[0]) then 1 else 0;
      var rest := Erasures(Step(s, events[0]).value, events[1..]);
      && (k < first ==> Erasures(s, events)[k] == s.handlers[events[0].handler].conn)
      && (k >= first ==> k - first < |rest| && Erasures(s, events)[k] == rest[k - first])
  {
    hide Step;
  }

  lemma {:induction false} ErasuresDiffer(s: State, events: seq<Event>, j: nat, k: nat)
    requires Inv(s) && Exec(s, events).Some? && j < k < |Erasures(s, events)|
    ensures Erasures(s, events)[j] != Erasures(s, events)[k]
    decreases |events|
  {
    ErasureAt(s, events, j);
    ErasureAt(s, events, k);
    hide Inv, Step, Exec, Erasures;
    ExecTail(s, events);
    var next := Step(s, events[0]).value;
    var first := if Erases(s, events[0]) then 1 else 0;
    StepKeepsInv(s, events[0]);
    if j < first {
      ErasedNow(s, events[0]);
      hide Erases;
      OnlyPresentOrLater(next, events[1..], k - first);
    } else {
      hide Erases;
      ErasuresDiffer(next, events[1..], j - first, k - first);
    }
  }

  /** No connection is erased twice in any run. */
  lemma ErasedOnce(max: nat, events: seq<Event>, j: nat, k: nat)
    requires max < UINT32_RANGE && Exec(Init(max), events).Some?
    requires j < k < |Erasures(Init(max), events)|
    ensures Erasures(Init(max), events)[j] != Erasures(Init(max), events)[k]
  {
    InitHasInv(max);
    ErasuresDiffer(Init(max), events, j, k);
  }
}
