/**
 * The cache of compiled expressions: sixteen slots, a clock that stamps every
 * use, and the slot with the oldest stamp given up when all are taken.
 */
module RegexCache {
  import opened Text

  const SLOTS: nat := 16
  const MAX_PATTERN: nat := 512

  datatype Key = Key(pattern: string, flags: nat)

  datatype Code = Code(id: int)

  /** What the regex library makes of a pattern, with or without regard to case; None is a syntax error. */
  type Compiler = (string, bool) -> Option<Code>

  datatype Regex = Regex(code: Code, key: Key, hash: bv64, used: nat)

  /** A request whose pattern is short enough and compiles. */
  predicate Usable(compile: Compiler, k: Key) {
    |k.pattern| <= MAX_PATTERN && compile(k.pattern, k.flags % 2 == 1).Some?
  }

  function FnvStep(h: bv64, c: char): bv64 { (h ^ ((c as int % 256) as bv64)) * 1099511628211 }

  function Fnv1a(s: string, h: bv64 := 1469598103934665603): bv64
    decreases |s|
  {
    if s == "" then h else Fnv1a(s[1..], FnvStep(h, s[0]))
  }

  function HashOf(k: Key): bv64 { Fnv1a(k.pattern) ^ ((k.flags % 0x1_0000_0000) as bv64) }

  method HashKey(k: Key) returns (h: bv64)
    ensures h == HashOf(k)
  {
    hide FnvStep, HashOf;
    h := 1469598103934665603;
    var i := 0;
    while i < |k.pattern|
      invariant 0 <= i <= |k.pattern| && Fnv1a(k.pattern[i..], h) == Fnv1a(k.pattern)
    {
      assert k.pattern[i..][1..] == k.pattern[i + 1..];
      h := FnvStep(h, k.pattern[i]);
      i := i + 1;
    }
    assert k.pattern[i..] == "";
    HashIs(k, h);
    h := h ^ ((k.flags % 0x1_0000_0000) as bv64);
  }

  lemma HashIs(k: Key, h: bv64)
    requires Fnv1a("", h) == Fnv1a(k.pattern)
    ensures h ^ ((k.flags % 0x1_0000_0000) as bv64) == HashOf(k)
  {
  }

  // ----------------------------------------------------------- most recent first

  function Without(ks: seq<Key>, k: Key): seq<Key> {
    if ks == [] then [] else if ks[0] == k then ks[1..] else [ks[0]] + Without(ks[1..], k)
  }

  /** The distinct keys of a request history, the latest first. */
  function Recent(history: seq<Key>): seq<Key> {
    if history == [] then []
    else
      var k := history[|history| - 1];
      [k] + Without(Recent(history[..|history| - 1]), k)
  }

  predicate NoRepeats(ks: seq<Key>) { forall i, j :: 0 <= i < j < |ks| ==> ks[i] != ks[j] }

  lemma {:induction false} WithoutAbsent(ks: seq<Key>, k: Key)
    requires k !in ks
    ensures Without(ks, k) == ks
    decreases |ks|
  {
    if ks != [] {
      assert ks[0] in ks && k !in ks[1..];
      WithoutAbsent(ks[1..], k);
      assert ks == [ks[0]] + ks[1..];
    }
  }

  lemma {:induction false} WithoutAt(ks: seq<Key>, k: Key, j: nat)
    requires j < |ks| && ks[j] == k && forall i :: 0 <= i < j ==> ks[i] != k
    ensures Without(ks, k) == ks[..j] + ks[j + 1..]
    decreases |ks|
  {
    if j == 0 {
      assert ks[..0] + ks[1..] == ks[1..];
    } else {
      WithoutAt(ks[1..], k, j - 1);
      CutShift(ks, j);
    }
  }

  lemma CutShift(ks: seq<Key>, j: nat)
    requires 0 < j < |ks|
    ensures [ks[0]] + (ks[1..][..j - 1] + ks[1..][j..]) == ks[..j] + ks[j + 1..]
  {
    assert ks[1..][j..] == ks[j + 1..];
  }

  lemma WithoutIs(ks: seq<Key>, k: Key)
    requires NoRepeats(ks)
    ensures k !in ks ==> Without(ks, k) == ks
    ensures forall j :: 0 <= j < |ks| && ks[j] == k ==> Without(ks, k) == ks[..j] + ks[j + 1..]
  {
    hide Without;
    if k !in ks { WithoutAbsent(ks, k); }
    forall j | 0 <= j < |ks| && ks[j] == k
      ensures Without(ks, k) == ks[..j] + ks[j + 1..]
    {
      WithoutAt(ks, k, j);
    }
  }

  /** Where a key was last asked for. */
  function LastUse(history: seq<Key>, k: Key): (r: nat)
    requires k in history
    ensures r < |history| && history[r] == k && forall i :: r < i < |history| ==> history[i] != k
  {
    if history[|history| - 1] == k then |history| - 1
    else
      var before := history[..|history| - 1];
      assert k in before by {
        var i :| 0 <= i < |history| && history[i] == k;
        assert before[i] == k;
      }
      LastUse(before, k)
  }

  /** The list holds exactly the requested keys, once each. */
  lemma {:induction false} RecentIs(history: seq<Key>)
    ensures NoRepeats(Recent(history))
    ensures forall k :: k in Recent(history) <==> k in history
    decreases |history|
  {
    hide Without;
    if history != [] {
      var before, k := history[..|history| - 1], history[|history| - 1];
      RecentIs(before);
      RemovedIs(Recent(before), k);
      assert history == before + [k];
      var kept := Without(Recent(before), k);
      assert Recent(history) == [k] + kept;
      assert forall i :: 0 <= i < |kept| ==> kept[i] in kept;
      hide Recent;
      forall x
        ensures x in Recent(history) <==> x in history
      {
        assert x in [k] + kept <==> x == k || x in kept;
      }
    }
  }

  /** Earlier in the list means requested later. */
  lemma {:induction false} RecentByTime(history: seq<Key>, i: nat, j: nat)
    requires i < j < |Recent(history)|
    ensures Recent(history)[i] in history && Recent(history)[j] in history
    ensures LastUse(history, Recent(history)[i]) > LastUse(history, Recent(history)[j])
    decreases |history|
  {
    hide Without, LastUse, NoRepeats;
    var before, k := history[..|history| - 1], history[|history| - 1];
    var older := Recent(before);
    var kept := Without(older, k);
    assert history == before + [k] && Recent(history) == [k] + kept;
    hide Recent;
    KeptWas(before, k, j - 1);
    SameLastUse(before, k, kept[j - 1]);
    if i > 0 {
      KeptWas(before, k, i - 1);
      SameLastUse(before, k, kept[i - 1]);
      var a, b := KeptOrder(older, k, i - 1, j - 1);
      RecentByTime(before, a, b);
    } else {
      LastIsLast(history);
    }
  }

  /** A key further down the list is an older request for another key. */
  lemma KeptWas(before: seq<Key>, k: Key, i: nat)
    requires i < |Without(Recent(before), k)|
    ensures Without(Recent(before), k)[i] in before && Without(Recent(before), k)[i] != k && NoRepeats(Recent(before))
  {
    hide Without, Recent, NoRepeats;
    RecentIs(before);
    RemovedIs(Recent(before), k);
    assert Without(Recent(before), k)[i] in Without(Recent(before), k);
  }

  lemma LastIsLast(history: seq<Key>)
    requires history != []
    ensures LastUse(history, history[|history| - 1]) == |history| - 1
  {
  }

  lemma SameLastUse(before: seq<Key>, k: Key, x: Key)
    requires x in before && x != k
    ensures x in before + [k] && LastUse(before + [k], x) == LastUse(before, x)
  {
    assert (before + [k])[..|before|] == before;
    assert before[LastUse(before, x)] == (before + [k])[LastUse(before, x)];
  }

  lemma RemovedAt(ks: seq<Key>, p: nat, i: nat)
    requires p < |ks| && i < |ks| - 1
    ensures (ks[..p] + ks[p + 1..])[i] == ks[if i < p then i else i + 1]
  {
  }

  lemma RemovedIs(ks: seq<Key>, k: Key)
    requires NoRepeats(ks)
    ensures forall x :: x in Without(ks, k) <==> x in ks && x != k
    ensures NoRepeats(Without(ks, k))
  {
    hide Without;
    WithoutIs(ks, k);
    if k in ks {
      var j :| 0 <= j < |ks| && ks[j] == k;
      RemovedMembers(ks, j);
      RemovedOnce(ks, j);
    }
  }

  lemma RemovedMembers(ks: seq<Key>, j: nat)
    requires NoRepeats(ks) && j < |ks|
    ensures forall x :: x in ks[..j] + ks[j + 1..] <==> x in ks && x != ks[j]
  {
    var r := ks[..j] + ks[j + 1..];
    forall i | 0 <= i < |r|
      ensures r[i] in ks && r[i] != ks[j]
    {
      RemovedAt(ks, j, i);
    }
    forall x | x in ks && x != ks[j]
      ensures x in r
    {
      var i :| 0 <= i < |ks| && ks[i] == x;
      assert x == r[if i < j then i else i - 1];
    }
  }

  lemma RemovedOnce(ks: seq<Key>, j: nat)
    requires NoRepeats(ks) && j < |ks|
    ensures NoRepeats(ks[..j] + ks[j + 1..])
  {
    var r := ks[..j] + ks[j + 1..];
    forall a, b | 0 <= a < b < |r|
      ensures r[a] != r[b]
    {
      RemovedAt(ks, j, a);
      RemovedAt(ks, j, b);
    }
  }

  /** Removing a key keeps the order of the others. */
  lemma KeptOrder(ks: seq<Key>, k: Key, i: nat, j: nat) returns (a: nat, b: nat)
    requires NoRepeats(ks) && i < j < |Without(ks, k)|
    ensures a < b < |ks| && ks[a] == Without(ks, k)[i] && ks[b] == Without(ks, k)[j]
  {
    hide Without;
    WithoutIs(ks, k);
    hide NoRepeats;
    if k in ks {
      var p :| 0 <= p < |ks| && ks[p] == k;
      a, b := if i < p then i else i + 1, if j < p then j else j + 1;
      assert Without(ks, k) == ks[..p] + ks[p + 1..];
      RemovedAt(ks, p, i);
      RemovedAt(ks, p, j);
    } else {
      a, b := i, j;
    }
  }

  function Resident(history: seq<Key>): seq<Key> {
    var r := Recent(history);
    if |r| <= SLOTS then r else r[..SLOTS]
  }

  // --------------------------------------------------------------------- the slots

  /** A slot that holds a key, stamped no later than now. */
  predicate Holds(slots: seq<Option<Regex>>, s: nat, k: Key, clock: nat) {
    s < |slots| && slots[s].Some? && slots[s].value.key == k && slots[s].value.used <= clock
  }

  predicate Later(slots: seq<Option<Regex>>, s: nat, t: nat) {
    s < |slots| && t < |slots| && slots[s].Some? && slots[t].Some? && slots[s].value.used > slots[t].value.used
  }

  /** `order` lists the occupied slots, the one with the latest stamp first; they hold `keys` in that order. */
  ghost predicate Ordered(slots: seq<Option<Regex>>, order: seq<nat>, keys: seq<Key>, clock: nat) {
    && |order| == |keys|
    && (forall i :: 0 <= i < |order| ==> Holds(slots, order[i], keys[i], clock))
    && (forall i, j :: 0 <= i < j < |order| ==> Later(slots, order[i], order[j]))
    && (forall s: nat :: s < |slots| && slots[s].Some? ==> s in order)
  }

  /** Every slot holds the compilation of its own key. */
  ghost predicate Compiled(compile: Compiler, slots: seq<Option<Regex>>) {
    forall s :: 0 <= s < |slots| && slots[s].Some? ==>
      var re := slots[s].value;
      re.hash == HashOf(re.key) && Some(re.code) == compile(re.key.pattern, re.key.flags % 2 == 1)
  }

  lemma {:induction false} Covering(order: seq<nat>, n: nat)
    requires forall s: nat :: s < n ==> s in order
    ensures n <= |order|
    decreases n
  {
    if n > 0 {
      assert n - 1 in order;
      var p :| 0 <= p < |order| && order[p] == n - 1;
      var rest := order[..p] + order[p + 1..];
      forall s: nat | s < n - 1
        ensures s in rest
      {
        assert s in order;
        var i :| 0 <= i < |order| && order[i] == s;
        assert rest[if i < p then i else i - 1] == s;
      }
      Covering(rest, n - 1);
    }
  }

  // -------------------------------------------------------- what a request does

  function ToFront<T>(xs: seq<T>, p: nat): (r: seq<T>)
    requires p < |xs|
    ensures |r| == |xs|
    ensures forall i :: 0 <= i < |r| ==> r[i] == if i == 0 then xs[p] else if i <= p then xs[i - 1] else xs[i]
  {
    [xs[p]] + xs[..p] + xs[p + 1..]
  }

  function Pushed<T>(xs: seq<T>, x: T): seq<T> {
    [x] + if |xs| < SLOTS then xs else xs[..SLOTS - 1]
  }

  lemma RecentSnoc(history: seq<Key>, k: Key)
    ensures Recent(history + [k]) == [k] + Without(Recent(history), k)
  {
    hide Without;
    assert (history + [k])[..|history|] == history;
  }

  /** Asking for a resident key again moves it to the front. */
  lemma ResidentAgain(history: seq<Key>, p: nat)
    requires p < |Resident(history)|
    ensures var k := Resident(history)[p];
            k in history && Resident(history + [k]) == ToFront(Resident(history), p)
  {
    hide Without, Recent;
    var k := Resident(history)[p];
    var r := Recent(history);
    RecentIs(history);
    WithoutIs(r, k);
    RecentSnoc(history, k);
    assert r[p] == k;
    hide NoRepeats, ToFront;
    var now := [k] + (r[..p] + r[p + 1..]);
    assert Recent(history + [k]) == now;
    FrontOfPrefix(r, p, |Resident(history)|);
  }

  lemma FrontOfPrefix<T>(r: seq<T>, p: nat, n: nat)
    requires p < n <= |r|
    ensures var now := [r[p]] + (r[..p] + r[p + 1..]); |now| == |r| && now[..n] == ToFront(r[..n], p)
  {
    var now := [r[p]] + (r[..p] + r[p + 1..]);
    assert now[..n] == [r[p]] + r[..p] + r[p + 1..n];
    assert r[..n][..p] == r[..p] && r[..n][p + 1..] == r[p + 1..n];
  }

  /** Asking for another key puts it in front, and the sixteenth falls out. */
  lemma ResidentNew(history: seq<Key>, k: Key)
    requires k !in Resident(history)
    ensures Resident(history + [k]) == Pushed(Resident(history), k)
  {
    hide Without, Recent;
    var r := Recent(history);
    RecentIs(history);
    WithoutIs(r, k);
    RecentSnoc(history, k);
    if k in r {
      var j :| 0 <= j < |r| && r[j] == k;
      assert Resident(history) == r[..|Resident(history)|];
      assert j >= |Resident(history)|;
      assert Without(r, k) == r[..j] + r[j + 1..];
    }
  }

  function Stamped(slots: seq<Option<Regex>>, s: nat, clock: nat): seq<Option<Regex>>
    requires s < |slots| && slots[s].Some?
  {
    slots[s := Some(slots[s].value.(used := clock))]
  }

  /** A hit stamps its slot anew. */
  lemma TouchKeepsOrder(slots: seq<Option<Regex>>, order: seq<nat>, keys: seq<Key>, clock: nat, p: nat)
    requires Ordered(slots, order, keys, clock) && p < |order|
    ensures Ordered(Stamped(slots, order[p], clock + 1), ToFront(order, p), ToFront(keys, p), clock + 1)
  {
    assert Holds(slots, order[p], keys[p], clock);
    var now, names := ToFront(order, p), ToFront(keys, p);
    var after := Stamped(slots, order[p], clock + 1);
    hide Holds, Later;
    forall i | 0 <= i < |now|
      ensures Holds(after, now[i], names[i], clock + 1)
    {
      var q := if i == 0 then p else if i <= p then i - 1 else i;
      assert now[i] == order[q] && names[i] == keys[q] && Holds(slots, order[q], keys[q], clock);
      StampHolds(slots, order[p], order[q], keys[q], clock);
    }
    forall i, j | 0 <= i < j < |now|
      ensures Later(after, now[i], now[j])
    {
      TouchLater(slots, order, keys, clock, p, i, j);
    }
    TouchCovers(slots, order, keys, clock, p);
  }

  lemma StampHolds(slots: seq<Option<Regex>>, s: nat, t: nat, k: Key, clock: nat)
    requires s < |slots| && slots[s].Some? && Holds(slots, t, k, clock)
    ensures Holds(Stamped(slots, s, clock + 1), t, k, clock + 1)
  {
  }

  lemma TouchCovers(slots: seq<Option<Regex>>, order: seq<nat>, keys: seq<Key>, clock: nat, p: nat)
    requires Ordered(slots, order, keys, clock) && p < |order|
    ensures var after := Stamped(slots, order[p], clock + 1);
            forall s: nat :: s < |after| && after[s].Some? ==> s in ToFront(order, p)
  {
    var after, now := Stamped(slots, order[p], clock + 1), ToFront(order, p);
    forall s: nat | s < |after| && after[s].Some?
      ensures s in now
    {
      assert s in order;
      var i :| 0 <= i < |order| && order[i] == s;
      assert now[if i == p then 0 else if i < p then i + 1 else i] == s;
    }
  }

  lemma TouchLater(slots: seq<Option<Regex>>, order: seq<nat>, keys: seq<Key>, clock: nat, p: nat, i: nat, j: nat)
    requires Ordered(slots, order, keys, clock) && p < |order| && i < j < |order|
    ensures Later(Stamped(slots, order[p], clock + 1), ToFront(order, p)[i], ToFront(order, p)[j])
  {
    var now := ToFront(order, p);
    var b := if j <= p then j - 1 else j;
    assert now[j] == order[b];
    hide ToFront;
    assert Holds(slots, order[b], keys[b], clock) && Holds(slots, order[p], keys[p], clock);
    Apart(slots, order, keys, clock, p, b);
    if i > 0 {
      var a := if i <= p then i - 1 else i;
      Apart(slots, order, keys, clock, p, a);
      assert Later(slots, order[a], order[b]) && now[i] == order[a];
    }
  }

  lemma Apart(slots: seq<Option<Regex>>, order: seq<nat>, keys: seq<Key>, clock: nat, a: nat, b: nat)
    requires Ordered(slots, order, keys, clock) && a < |order| && b < |order| && a != b
    ensures order[a] != order[b]
  {
    assert if a < b then Later(slots, order[a], order[b]) else Later(slots, order[b], order[a]);
  }

  /** A new regex in an empty slot, or in the slot that was used longest ago. */
  lemma InsertKeepsOrder(slots: seq<Option<Regex>>, order: seq<nat>, keys: seq<Key>, clock: nat, s: nat, re: Regex,
                         after: seq<Option<Regex>>)
    requires Ordered(slots, order, keys, clock) && s < |slots| && re.used == clock + 1 && |order| <= SLOTS
    requires after == slots[s := Some(re)]
    requires if |order| < SLOTS then slots[s].None? else order[SLOTS - 1] == s
    ensures Ordered(after, Pushed(order, s), Pushed(keys, re.key), clock + 1)
  {
    var now, names := Pushed(order, s), Pushed(keys, re.key);
    PushedIs(order, s);
    PushedIs(keys, re.key);
    hide Pushed;
    forall i | 1 <= i < |now|
      ensures now[i] != s && Holds(after, now[i], names[i], clock)
    {
      assert Holds(slots, order[i - 1], keys[i - 1], clock);
      if |order| == SLOTS { Apart(slots, order, keys, clock, i - 1, SLOTS - 1); }
    }
    forall i, j | 0 <= i < j < |now|
      ensures Later(after, now[i], now[j])
    {
      assert now[j] != s && Holds(after, now[j], names[j], clock);
      if i > 0 { assert now[i] != s && Later(slots, order[i - 1], order[j - 1]); }
    }
    InsertCovers(slots, order, keys, clock, s, after, now);
  }

  lemma PushedIs<T>(xs: seq<T>, x: T)
    ensures var r := Pushed(xs, x);
            && |r| == (if |xs| < SLOTS then |xs| + 1 else SLOTS) && r[0] == x
            && forall i :: 1 <= i < |r| ==> r[i] == xs[i - 1]
  {
  }

  lemma InsertCovers(slots: seq<Option<Regex>>, order: seq<nat>, keys: seq<Key>, clock: nat, s: nat,
                     after: seq<Option<Regex>>, now: seq<nat>)
    requires Ordered(slots, order, keys, clock) && |now| > 0 && now[0] == s && |order| <= SLOTS
    requires |now| == (if |order| < SLOTS then |order| + 1 else SLOTS)
    requires forall i :: 1 <= i < |now| ==> now[i] == order[i - 1]
    requires |after| == |slots| && forall x :: 0 <= x < |slots| && x != s ==> after[x] == slots[x]
    requires |order| == SLOTS ==> order[SLOTS - 1] == s
    ensures forall x: nat :: x < |after| && after[x].Some? ==> x in now
  {
    forall x: nat | x < |after| && after[x].Some?
      ensures x in now
    {
      if x == s {
        assert now[0] == x;
      } else {
        assert x in order;
        var i :| 0 <= i < |order| && order[i] == x;
        assert now[i + 1] == x;
      }
    }
  }

  class Cache {
    const compile: Compiler
    const slots: array<Option<Regex>>
    var count: nat
    var clock: nat
    ghost var history: seq<Key>
    ghost var order: seq<nat>

    ghost predicate Valid()
      reads this, slots
    {
      && slots.Length == SLOTS && count == |Resident(history)| == |order|
      && Ordered(slots[..], order, Resident(history), clock)
      && Compiled(compile, slots[..])
      && (forall k :: k in history ==> Usable(compile, k))
    }

    constructor (compile: Compiler)
      ensures Valid() && history == [] && this.compile == compile && fresh(slots)
    {
      this.compile := compile;
      slots := new Option<Regex>[SLOTS](_ => None);
      count, clock, history, order := 0, 0, [], [];
    }

    method FindSlot(k: Key) returns (r: Option<nat>)
      requires Valid()
      ensures r.Some? ==> r.value < SLOTS && slots[r.value].Some? && slots[r.value].value.key == k
      ensures r.None? ==> forall s :: 0 <= s < SLOTS && slots[s].Some? ==> slots[s].value.key != k
    {
      hide HashOf, Ordered, Resident;
      var h := HashKey(k);
      assert Compiled(compile, slots[..]);
      var i := 0;
      while i < SLOTS
        invariant 0 <= i <= SLOTS
        invariant forall s :: 0 <= s < i && slots[s].Some? ==> slots[s].value.key != k
      {
        assert slots[..][i] == slots[i];
        if slots[i].Some? && slots[i].value.hash == h && slots[i].value.key.flags == k.flags
           && slots[i].value.key.pattern == k.pattern {
          return Some(i);
        }
        i := i + 1;
      }
      return None;
    }

    method Victim() returns (victim: nat)
      requires Valid()
      ensures victim < SLOTS
      ensures if |order| < SLOTS then slots[victim].None? else order[SLOTS - 1] == victim
    {
      hide Ordered, Compiled, Recent;
      if count < SLOTS {
        victim := FirstEmpty();
      } else {
        Occupied(slots[..], order, Resident(history), clock);
        assert slots[..][order[0]] == slots[order[0]];
        victim := LeastUsed();
        Oldest(slots[..], order, Resident(history), clock, victim);
      }
    }

    method FirstEmpty() returns (i: nat)
      requires Valid() && count < SLOTS
      ensures i < SLOTS && slots[i].None?
    {
      hide Ordered, Compiled, Resident;
      i := 0;
      while i < SLOTS
        invariant 0 <= i <= SLOTS && forall s :: 0 <= s < i ==> slots[s].Some?
      {
        if slots[i].None? {
          return;
        }
        i := i + 1;
      }
      Full(slots[..], order, Resident(history), clock);
    }

    method LeastUsed() returns (victim: nat)
      requires slots.Length == SLOTS && exists s :: 0 <= s < SLOTS && slots[s].Some?
      ensures victim < SLOTS && slots[victim].Some?
      ensures forall s :: 0 <= s < SLOTS && slots[s].Some? ==> slots[victim].value.used <= slots[s].value.used
    {
      victim := 0;
      var oldest: Option<nat> := None;
      var i := 0;
      while i < SLOTS
        invariant 0 <= i <= SLOTS && victim < SLOTS
        invariant oldest.Some? ==> slots[victim].Some? && slots[victim].value.used == oldest.value
        invariant forall s :: 0 <= s < i && slots[s].Some? ==> oldest.Some? && oldest.value <= slots[s].value.used
      {
        if slots[i].Some? && (oldest.None? || slots[i].value.used < oldest.value) {
          oldest := Some(slots[i].value.used);
          victim := i;
        }
        i := i + 1;
      }
    }

    /**
     * htre_get_cached: the compilation of exactly the requested pattern and
     * flags, and afterwards the slots hold the sixteen latest distinct requests.
     */
    method GetCached(k: Key) returns (r: Option<Code>)
      requires Valid()
      modifies this, slots
      ensures Valid()
      ensures r == if Usable(compile, k) then compile(k.pattern, k.flags % 2 == 1) else None
      ensures history == if Usable(compile, k) then old(history) + [k] else old(history)
    {
      hide Ordered, Compiled, HashOf;
      if |k.pattern| > MAX_PATTERN {
        return None;
      }
      var hit := FindSlot(k);
      if hit.Some? {
        r := Touch(k, hit.value);
        return;
      }
      var code := compile(k.pattern, k.flags % 2 == 1);
      if code.None? {
        return None;
      }
      NotResident(slots[..], order, Resident(history), clock, k);
      Insert(k, code.value);
      return code;
    }

    method Touch(k: Key, s: nat) returns (r: Option<Code>)
      requires Valid() && s < SLOTS && slots[s].Some? && slots[s].value.key == k && |k.pattern| <= MAX_PATTERN
      modifies this, slots
      ensures Valid() && r == compile(k.pattern, k.flags % 2 == 1) && history == old(history) + [k]
      ensures Usable(compile, k)
    {
      hide Ordered, HashOf, Resident, ToFront;
      ghost var was, keys := slots[..], Resident(history);
      ghost var p := PlaceOf(was, order, keys, clock, s);
      clock := clock + 1;
      slots[s] := Some(slots[s].value.(used := clock));
      assert slots[..] == was[s := Some(was[s].value.(used := clock))];
      TouchKeepsOrder(was, order, keys, clock - 1, p);
      ResidentAgain(history, p);
      history := history + [k];
      order := ToFront(order, p);
      return Some(slots[s].value.code);
    }

    method Insert(k: Key, code: Code)
      requires Valid() && Usable(compile, k) && compile(k.pattern, k.flags % 2 == 1) == Some(code)
      requires k !in Resident(history)
      modifies this, slots
      ensures Valid() && history == old(history) + [k]
    {
      hide Ordered, HashOf, Recent;
      ghost var was, keys := slots[..], Resident(history);
      var h := HashKey(k);
      var victim := Victim();
      clock := clock + 1;
      slots[victim] := Some(Regex(code, k, h, clock));
      assert slots[..] == was[victim := slots[victim]];
      InsertKeepsOrder(was, order, keys, clock - 1, victim, slots[victim].value, slots[..]);
      ResidentNew(history, k);
      hide Resident;
      if count < SLOTS { count := count + 1; }
      history := history + [k];
      order := Pushed(order, victim);
    }
  }

  /** The place of an occupied slot in the order. */
  lemma PlaceOf(slots: seq<Option<Regex>>, order: seq<nat>, keys: seq<Key>, clock: nat, s: nat) returns (p: nat)
    requires Ordered(slots, order, keys, clock) && s < |slots| && slots[s].Some?
    ensures p < |order| == |keys| && order[p] == s && keys[p] == slots[s].value.key
  {
    p :| 0 <= p < |order| && order[p] == s;
  }

  /** The occupied slots hold exactly the resident keys, no key and no stamp twice. */
  lemma SlotsAreResident(slots: seq<Option<Regex>>, order: seq<nat>, history: seq<Key>, clock: nat)
    requires Ordered(slots, order, Resident(history), clock)
    ensures forall k ::
              k in Resident(history) <==> exists s :: 0 <= s < |slots| && slots[s].Some? && slots[s].value.key == k
    ensures forall s, t :: 0 <= s < t < |slots| && slots[s].Some? && slots[t].Some? ==>
              slots[s].value.key != slots[t].value.key && slots[s].value.used != slots[t].value.used
  {
    hide Resident;
    var keys := Resident(history);
    forall k | k in keys
      ensures exists s :: 0 <= s < |slots| && slots[s].Some? && slots[s].value.key == k
    {
      var i :| 0 <= i < |keys| && keys[i] == k;
      assert Holds(slots, order[i], keys[i], clock);
    }
    forall s | 0 <= s < |slots| && slots[s].Some?
      ensures slots[s].value.key in keys
    {
      var p := PlaceOf(slots, order, keys, clock, s);
    }
    ResidentOnce(history);
    forall s, t | 0 <= s < t < |slots| && slots[s].Some? && slots[t].Some?
      ensures slots[s].value.key != slots[t].value.key && slots[s].value.used != slots[t].value.used
    {
      var p := PlaceOf(slots, order, keys, clock, s);
      var q := PlaceOf(slots, order, keys, clock, t);
      assert if p < q then Later(slots, order[p], order[q]) else Later(slots, order[q], order[p]);
    }
  }

  lemma ResidentOnce(history: seq<Key>)
    ensures NoRepeats(Resident(history))
  {
    hide Recent;
    RecentIs(history);
  }

  lemma Full(slots: seq<Option<Regex>>, order: seq<nat>, keys: seq<Key>, clock: nat)
    requires Ordered(slots, order, keys, clock)
    ensures (forall s :: 0 <= s < |slots| ==> slots[s].Some?) ==> |slots| <= |order|
  {
    if forall s :: 0 <= s < |slots| ==> slots[s].Some? { Covering(order, |slots|); }
  }

  /** The slot with the least stamp is the last in the order. */
  lemma Oldest(slots: seq<Option<Regex>>, order: seq<nat>, keys: seq<Key>, clock: nat, victim: nat)
    requires Ordered(slots, order, keys, clock) && order != [] && victim < |slots| && slots[victim].Some?
    requires forall s :: 0 <= s < |slots| && slots[s].Some? ==> slots[victim].value.used <= slots[s].value.used
    ensures order[|order| - 1] == victim
  {
    var last := order[|order| - 1];
    assert slots[victim].value.used <= slots[last].value.used;
    var i := PlaceOf(slots, order, keys, clock, victim);
  }

  lemma Occupied(slots: seq<Option<Regex>>, order: seq<nat>, keys: seq<Key>, clock: nat)
    requires Ordered(slots, order, keys, clock) && order != []
    ensures order[0] < |slots| && slots[order[0]].Some?
  {
  }

  lemma NotResident(slots: seq<Option<Regex>>, order: seq<nat>, keys: seq<Key>, clock: nat, k: Key)
    requires Ordered(slots, order, keys, clock)
    requires forall s :: 0 <= s < |slots| && slots[s].Some? ==> slots[s].value.key != k
    ensures k !in keys
  {
    forall i | 0 <= i < |keys|
      ensures keys[i] != k
    {
      assert slots[order[i]].value.key == keys[i];
    }
  }
}
