/**
 * Both halves of the two limits: a window lets exactly as many attempts through
 * as it allows, nothing is stopped before they have been made, and requests that
 * are no attempts leave no trace.
 */
module AttemptsExact {
  import opened Shm
  import opened Attempts

  function Min(a: int, b: int): int { if a < b then a else b }

  function Max(a: int, b: int): int { if a < b then b else a }

  /** The first attempt of a window always passes. */
  function Allowance(cfg: BfConfig): nat { Max(cfg.allowed, 1) }

  predicate Attempt(e: Timed) { e.event.BfEvent? && e.event.counts }

  /** The login attempts made while the window that starts at `f` is the current one, let through or not. */
  function MadeInWindow(cfgs: Configs, c: Cell, events: seq<Timed>, f: int): nat
    decreases |events|
  {
    if events == [] then 0
    else
      var c' := CellStep(cfgs, c, events[0]).0;
      One(Attempt(events[0]) && c'.Present? && c'.first == f) + MadeInWindow(cfgs, c', events[1..], f)
  }

  /** What a record leaves of its window's allowance. */
  function Remaining(cfg: BfConfig, c: Cell): nat
    requires c.Present?
  {
    Max(Allowance(cfg) - c.attempts, 0)
  }

  lemma {:induction false} AdmitsExactly(cfgs: Configs, c: Cell, t: int, events: seq<Timed>, f: int)
    requires cfgs.bf.window >= 1 && OnlyBf(events) && InOrder(t, events) && GoodCell(c, t)
    ensures var made := MadeInWindow(cfgs, c, events, f);
            AdmittedInWindow(cfgs, c, events, f)
            == if c.Absent? || c.first < f then Min(Allowance(cfgs.bf), made)
               else if c.first == f then Min(Remaining(cfgs.bf, c), made)
               else 0
    ensures c.Present? && c.first > f ==> MadeInWindow(cfgs, c, events, f) == 0
    decreases |events|
  {
    if events != [] {
      var e := events[0];
      assert e in events && OnlyBf(events[1..]);
      var c' := CellStep(cfgs, c, e).0;
      AdmitsExactly(cfgs, c', e.now, events[1..], f);
    }
  }

  /** A window admits exactly the smaller of the allowance and the attempts made in it. */
  lemma WindowExact(cfgs: Configs, t: int, events: seq<Timed>, f: int)
    requires cfgs.bf.window >= 1 && OnlyBf(events) && InOrder(t, events)
    ensures AdmittedInWindow(cfgs, Absent, events, f)
         == Min(Allowance(cfgs.bf), MadeInWindow(cfgs, Absent, events, f))
  {
    AdmitsExactly(cfgs, Absent, t, events, f);
  }

  // ------------------------------------------------------ nothing is stopped too early

  lemma {:induction false} CountIsMade(cfgs: Configs, c: Cell, t: int, events: seq<Timed>)
    requires cfgs.bf.window >= 1 && OnlyBf(events) && InOrder(t, events) && GoodCell(c, t)
    ensures var d := CellAfter(cfgs, c, events);
            d.Present? ==>
              Min(d.attempts, Allowance(cfgs.bf))
              <= (if c.Present? && c.first == d.first then Min(c.attempts, Allowance(cfgs.bf)) else 0)
                 + MadeInWindow(cfgs, c, events, d.first)
    ensures var d := CellAfter(cfgs, c, events);
            c.Present? ==> d.Present? && c.first <= d.first
    decreases |events|
  {
    if events != [] {
      var e := events[0];
      assert e in events && OnlyBf(events[1..]);
      CountIsMade(cfgs, CellStep(cfgs, c, e).0, e.now, events[1..]);
    }
  }

  lemma {:induction false} AnswerAt(cfgs: Configs, c: Cell, events: seq<Timed>, i: nat)
    requires i < |events|
    ensures CellRun(cfgs, c, events)[i] == CellStep(cfgs, CellAfter(cfgs, c, events[..i]), events[i]).1
    decreases i
  {
    hide CellStep;
    if i > 0 {
      var c' := CellStep(cfgs, c, events[0]).0;
      AnswerAt(cfgs, c', events[1..], i - 1);
      assert events[..i][1..] == events[1..][..i - 1] && events[..i][0] == events[0];
      assert CellRun(cfgs, c, events)[1..] == CellRun(cfgs, c', events[1..]);
    } else {
      assert events[..0] == [];
    }
  }

  lemma {:induction false} Prefix(t: int, events: seq<Timed>, i: nat)
    requires OnlyBf(events) && InOrder(t, events) && i <= |events|
    ensures OnlyBf(events[..i]) && InOrder(t, events[..i])
    decreases i
  {
    if i > 0 {
      assert events[0] in events && forall e :: e in events[1..] ==> e in events;
      Prefix(events[0].now, events[1..], i - 1);
      assert events[..i][1..] == events[1..][..i - 1];
    }
  }

  /** A request is stopped only after the whole allowance of its window has been used by login attempts. */
  lemma StoppedAfter(cfgs: Configs, t: int, events: seq<Timed>, i: nat)
    requires cfgs.bf.window >= 1 && OnlyBf(events) && InOrder(t, events) && i < |events|
    requires !CellRun(cfgs, Absent, events)[i].Pass?
    ensures var c := CellAfter(cfgs, Absent, events[..i]);
            && c.Present? && events[i].now - c.first < cfgs.bf.window
            && MadeInWindow(cfgs, Absent, events[..i], c.first) >= Allowance(cfgs.bf)
  {
    AnswerAt(cfgs, Absent, events, i);
    Prefix(t, events, i);
    CountIsMade(cfgs, Absent, t, events[..i]);
    assert events[i] in events;
    hide CellRun, CellAfter, MadeInWindow;
    GoodAfter(cfgs, Absent, t, events[..i]);
  }

  lemma {:induction false} GoodAfter(cfgs: Configs, c: Cell, t: int, events: seq<Timed>)
    requires OnlyBf(events) && InOrder(t, events) && (c.Present? ==> c.attempts >= 1)
    ensures var d := CellAfter(cfgs, c, events); d.Present? ==> d.attempts >= 1
    decreases |events|
  {
    if events != [] {
      assert events[0] in events && OnlyBf(events[1..]);
      GoodAfter(cfgs, CellStep(cfgs, c, events[0]).0, events[0].now, events[1..]);
    }
  }

  // ---------------------------------------------------- requests that are no attempts

  /** A request that is no login attempt and passes. */
  predicate Idler(e: Timed, v: Verdict) { e.event.BfEvent? && !e.event.counts && v.Pass? }

  /** The rest of a run. */
  function Busy(events: seq<Timed>, vs: seq<Verdict>): seq<Timed>
    requires |events| == |vs|
  {
    if events == [] then []
    else (if Idler(events[0], vs[0]) then [] else [events[0]]) + Busy(events[1..], vs[1..])
  }

  function BusyAnswers(events: seq<Timed>, vs: seq<Verdict>): seq<Verdict>
    requires |events| == |vs|
  {
    if events == [] then []
    else (if Idler(events[0], vs[0]) then [] else [vs[0]]) + BusyAnswers(events[1..], vs[1..])
  }

  /** Without them every other answer is the same. */
  lemma {:induction false} IdlersUnseen(cfgs: Configs, c: Cell, events: seq<Timed>)
    ensures var vs := CellRun(cfgs, c, events);
            CellRun(cfgs, c, Busy(events, vs)) == BusyAnswers(events, vs)
    decreases |events|
  {
    if events != [] {
      var e, rest := events[0], events[1..];
      var (c', v) := CellStep(cfgs, c, e);
      var vs := CellRun(cfgs, c, events);
      assert vs[1..] == CellRun(cfgs, c', rest);
      IdlersUnseen(cfgs, c', rest);
      var busy := Busy(rest, vs[1..]);
      if Idler(e, v) {
        assert c' == c && [] + busy == busy && [] + BusyAnswers(rest, vs[1..]) == BusyAnswers(rest, vs[1..]);
      } else {
        assert ([e] + busy)[1..] == busy;
      }
    }
  }

  // ------------------------------------------------------------------- rate limiting

  function Limit(cfg: RlConfig): nat { Max(cfg.requests + cfg.burst, 1) }

  function SeenInWindow(cfgs: Configs, c: Cell, events: seq<Timed>, f: int): nat
    decreases |events|
  {
    if events == [] then 0
    else
      var c' := CellStep(cfgs, c, events[0]).0;
      One(c'.Present? && c'.first == f) + SeenInWindow(cfgs, c', events[1..], f)
  }

  lemma {:induction false} PassesExactly(cfgs: Configs, c: Cell, t: int, events: seq<Timed>, f: int)
    requires !Idle(cfgs.rl) && cfgs.rl.window >= 0 && OnlyRl(events) && InOrder(t, events) && GoodCell(c, t)
    ensures var seen := SeenInWindow(cfgs, c, events, f);
            PassedInWindow(cfgs, c, events, f)
            == if c.Absent? || c.first < f then Min(Limit(cfgs.rl), seen)
               else if c.first == f then Min(Max(Limit(cfgs.rl) - c.attempts, 0), seen)
               else 0
    ensures c.Present? && c.first > f ==> SeenInWindow(cfgs, c, events, f) == 0
    decreases |events|
  {
    if events != [] {
      var e := events[0];
      assert e in events && OnlyRl(events[1..]);
      PassesExactly(cfgs, CellStep(cfgs, c, e).0, e.now, events[1..], f);
    }
  }

  /** A rate-limit window passes exactly the smaller of its limit and the requests made in it. */
  lemma RlWindowExact(cfgs: Configs, t: int, events: seq<Timed>, f: int)
    requires !Idle(cfgs.rl) && cfgs.rl.window >= 0 && OnlyRl(events) && InOrder(t, events)
    ensures PassedInWindow(cfgs, Absent, events, f) == Min(Limit(cfgs.rl), SeenInWindow(cfgs, Absent, events, f))
  {
    PassesExactly(cfgs, Absent, t, events, f);
  }

  // ------------------------------------------------------------- in the shared table

  /** A key's login attempts in the window of its record in the table that starts at `f`. */
  function SharedMade(cfgs: Configs, cap: nat, m: Table, key: Key, events: seq<Timed>, f: int): nat
    decreases |events|
  {
    if events == [] then 0
    else
      var m' := TableStep(cfgs, cap, m, events[0]).0;
      One(Attempt(events[0]) && InTheWindow(events[0], key, m', f)) + SharedMade(cfgs, cap, m', key, events[1..], f)
  }

  /** A key's rate-limited requests in such a window. */
  function SharedSeen(cfgs: Configs, cap: nat, m: Table, key: Key, events: seq<Timed>, f: int): nat
    decreases |events|
  {
    if events == [] then 0
    else
      var m' := TableStep(cfgs, cap, m, events[0]).0;
      One(InTheWindow(events[0], key, m', f)) + SharedSeen(cfgs, cap, m', key, events[1..], f)
  }

  lemma {:induction false} SharedMadeIs(cfgs: Configs, cap: nat, m: Table, keys: set<Key>, key: Key, c: Cell,
                                        t: int, events: seq<Timed>, f: int)
    requires Running(cfgs, cap, m, keys, key, c, t, events)
    ensures SharedMade(cfgs, cap, m, key, events, f) == MadeInWindow(cfgs, c, EventsOf(key, events), f)
    decreases |events|
  {
    hide TableStep, CellStep, Running;
    if events != [] {
      var e, rest := events[0], events[1..];
      var m', c' := Advance(cfgs, cap, m, keys, key, c, t, events);
      SharedMadeIs(cfgs, cap, m', keys, key, c', e.now, rest, f);
      var own := EventsOf(key, rest);
      assert [] + own == own && ([e] + own)[1..] == own;
    }
  }

  lemma {:induction false} SharedSeenIs(cfgs: Configs, cap: nat, m: Table, keys: set<Key>, key: Key, c: Cell,
                                        t: int, events: seq<Timed>, f: int)
    requires Running(cfgs, cap, m, keys, key, c, t, events)
    requires cfgs.rl.requests > 0 && forall e :: e in events && Concerns(e, key) ==> e.event.RlEvent?
    ensures SharedSeen(cfgs, cap, m, key, events, f) == SeenInWindow(cfgs, c, EventsOf(key, events), f)
    decreases |events|
  {
    hide TableStep, CellStep, Running;
    if events != [] {
      var e, rest := events[0], events[1..];
      var m', c' := Advance(cfgs, cap, m, keys, key, c, t, events);
      assert e in events && forall x :: x in rest ==> x in events;
      SharedSeenIs(cfgs, cap, m', keys, key, c', e.now, rest, f);
      var own := EventsOf(key, rest);
      assert [] + own == own && ([e] + own)[1..] == own;
    }
  }

  /** Among all clients and clean-ups, each window of a client admits exactly what it allows of what was tried. */
  lemma SharedWindowExact(cfgs: Configs, cap: nat, keys: set<Key>, key: Key, t: int, events: seq<Timed>, f: int)
    requires 1 <= cfgs.bf.window <= STALE_SECONDS + 1
    requires |keys| <= cap && KeysIn(keys, events) && InOrder(t, events)
    requires forall e :: e in events && Concerns(e, key) ==> e.event.BfEvent?
    ensures SharedAdmitted(cfgs, cap, map[], key, events, f)
         == Min(Allowance(cfgs.bf), SharedMade(cfgs, cap, map[], key, events, f))
  {
    hide TableStep, CellStep, SharedAdmitted, SharedMade;
    OwnEvents(key, t, events);
    SharedAdmittedIs(cfgs, cap, map[], keys, key, Absent, t, events, f);
    SharedMadeIs(cfgs, cap, map[], keys, key, Absent, t, events, f);
    WindowExact(cfgs, t, EventsOf(key, events), f);
  }

  lemma SharedRlWindowExact(cfgs: Configs, cap: nat, keys: set<Key>, key: Key, t: int, events: seq<Timed>, f: int)
    requires !Idle(cfgs.rl) && 0 <= cfgs.rl.window <= STALE_SECONDS
    requires |keys| <= cap && KeysIn(keys, events) && InOrder(t, events)
    requires forall e :: e in events && Concerns(e, key) ==> e.event.RlEvent?
    ensures SharedPassed(cfgs, cap, map[], key, events, f)
         == Min(Limit(cfgs.rl), SharedSeen(cfgs, cap, map[], key, events, f))
  {
    hide TableStep, CellStep, SharedPassed, SharedSeen;
    OwnEvents(key, t, events);
    SharedPassedIs(cfgs, cap, map[], keys, key, Absent, t, events, f);
    SharedSeenIs(cfgs, cap, map[], keys, key, Absent, t, events, f);
    RlWindowExact(cfgs, t, EventsOf(key, events), f);
  }

  /** The table after a run. */
  function TableAfter(cfgs: Configs, cap: nat, m: Table, events: seq<Timed>): Table
    decreases |events|
  {
    if events == [] then m else TableAfter(cfgs, cap, TableStep(cfgs, cap, m, events[0]).0, events[1..])
  }

  /** Halfway through a run the table and the key's own record still agree, and the answer is that of the next step. */
  lemma {:induction false} Halfway(cfgs: Configs, cap: nat, m: Table, keys: set<Key>, key: Key, c: Cell, t: int,
                                   events: seq<Timed>, i: nat)
    returns (u: int)
    requires Running(cfgs, cap, m, keys, key, c, t, events) && i < |events|
    ensures Running(cfgs, cap, TableAfter(cfgs, cap, m, events[..i]), keys, key,
                    CellAfter(cfgs, c, EventsOf(key, events[..i])), u, events[i..])
    ensures TableRun(cfgs, cap, m, events)[i]
         == TableStep(cfgs, cap, TableAfter(cfgs, cap, m, events[..i]), events[i]).1
    decreases i
  {
    hide TableStep, CellStep, Running;
    if i == 0 {
      assert events[..0] == [] && events[0..] == events;
      u := t;
    } else {
      var e, rest := events[0], events[1..];
      var m', c' := Advance(cfgs, cap, m, keys, key, c, t, events);
      u := Halfway(cfgs, cap, m', keys, key, c', e.now, rest, i - 1);
      assert events[..i][1..] == rest[..i - 1] && events[..i][0] == e && rest[i - 1..] == events[i..];
      assert TableRun(cfgs, cap, m, events)[1..] == TableRun(cfgs, cap, m', rest);
      var own := EventsOf(key, rest[..i - 1]);
      assert [] + own == own && ([e] + own)[1..] == own;
    }
  }

  lemma {:induction false} RunningPrefix(cfgs: Configs, cap: nat, m: Table, keys: set<Key>, key: Key, c: Cell,
                                         t: int, events: seq<Timed>, i: nat)
    requires Running(cfgs, cap, m, keys, key, c, t, events) && i <= |events|
    ensures Running(cfgs, cap, m, keys, key, c, t, events[..i])
  {
    hide NoBlocks, Agree;
    OrderPrefix(t, events, i);
    assert forall e :: e in events[..i] ==> e in events;
  }

  lemma {:induction false} OrderPrefix(t: int, events: seq<Timed>, i: nat)
    requires InOrder(t, events) && i <= |events|
    ensures InOrder(t, events[..i])
    decreases i
  {
    if i > 0 {
      OrderPrefix(events[0].now, events[1..], i - 1);
      assert events[..i][1..] == events[1..][..i - 1];
    }
  }

  /** In the shared table too a client is stopped only after its login attempts have used up the window's allowance. */
  lemma SharedStoppedAfter(cfgs: Configs, cap: nat, keys: set<Key>, key: Key, t: int, events: seq<Timed>, i: nat)
    requires 1 <= cfgs.bf.window <= STALE_SECONDS + 1
    requires |keys| <= cap && KeysIn(keys, events) && InOrder(t, events)
    requires forall e :: e in events && Concerns(e, key) ==> e.event.BfEvent?
    requires i < |events| && Concerns(events[i], key) && !TableRun(cfgs, cap, map[], events)[i].Pass?
    ensures var m := TableAfter(cfgs, cap, map[], events[..i]);
            && key in m && events[i].now - m[key].first < cfgs.bf.window
            && SharedMade(cfgs, cap, map[], key, events[..i], m[key].first) >= Allowance(cfgs.bf)
  {
    hide TableRun, TableAfter, CellAfter, SharedMade, MadeInWindow, Running;
    assert Running(cfgs, cap, map[], keys, key, Absent, t, events) by {
      StartsRunning(cfgs, cap, keys, key, t, events);
    }
    var u := Halfway(cfgs, cap, map[], keys, key, Absent, t, events, i);
    var m := TableAfter(cfgs, cap, map[], events[..i]);
    RunningPrefix(cfgs, cap, map[], keys, key, Absent, t, events, i);
    OrderPrefix(t, events, i);
    OwnEvents(key, t, events[..i]);
    var own := EventsOf(key, events[..i]);
    assert OnlyBf(own) by { assert forall e :: e in events[..i] ==> e in events; }
    CountIsMade(cfgs, Absent, t, own);
    GoodAfter(cfgs, Absent, t, own);
    var c := CellAfter(cfgs, Absent, own);
    if c.Present? { SharedMadeIs(cfgs, cap, map[], keys, key, Absent, t, events[..i], c.first); }
    assert events[i] in events && events[i..][0] == events[i];
    StoppedByTable(cfgs, cap, m, keys, key, c, u, events[i..]);
  }

  lemma StartsRunning(cfgs: Configs, cap: nat, keys: set<Key>, key: Key, t: int, events: seq<Timed>)
    requires cfgs.bf.window <= STALE_SECONDS + 1 && |keys| <= cap && KeysIn(keys, events) && InOrder(t, events)
    requires forall e :: e in events && Concerns(e, key) ==> e.event.BfEvent?
    ensures Running(cfgs, cap, map[], keys, key, Absent, t, events)
  {
  }

  /** A stopped request finds the key's record in the table, in its window and at its allowance. */
  lemma StoppedByTable(cfgs: Configs, cap: nat, m: Table, keys: set<Key>, key: Key, c: Cell, t: int, events: seq<Timed>)
    requires Running(cfgs, cap, m, keys, key, c, t, events) && events != []
    requires Concerns(events[0], key) && events[0].event.BfEvent? && !TableStep(cfgs, cap, m, events[0]).1.Pass?
    requires c.Present? ==> c.attempts >= 1
    ensures key in m && c == Present(m[key].attempts, m[key].first)
    ensures events[0].now - c.first < cfgs.bf.window && c.attempts >= Allowance(cfgs.bf)
  {
    hide Upsert, KeysIn, InOrder, ShortWindows, OverLimit;
  }

  /** Two runs in which a key differs only by requests that are no attempts and pass give it the same other answers. */
  lemma SharedIdlersUnseen(cfgs: Configs, cap: nat, keys: set<Key>, key: Key, t: int, a: seq<Timed>, b: seq<Timed>)
    requires |keys| <= cap && ShortWindows(cfgs, key, a) && ShortWindows(cfgs, key, b)
    requires KeysIn(keys, a) && KeysIn(keys, b) && InOrder(t, a) && InOrder(t, b)
    requires var own := EventsOf(key, a);
             EventsOf(key, b) == Busy(own, CellRun(cfgs, Absent, own))
    ensures var own := EventsOf(key, a);
            var answers := VerdictsOf(key, a, TableRun(cfgs, cap, map[], a));
            |answers| == |own|
            && VerdictsOf(key, b, TableRun(cfgs, cap, map[], b)) == BusyAnswers(own, answers)
  {
    hide TableRun, CellRun, VerdictsOf, EventsOf, Busy, BusyAnswers;
    RunIsOwnRun(cfgs, cap, map[], keys, key, Absent, t, a);
    RunIsOwnRun(cfgs, cap, map[], keys, key, Absent, t, b);
    IdlersUnseen(cfgs, Absent, EventsOf(key, a));
  }
}
