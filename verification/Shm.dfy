/**
 * The attempt store: an open-addressing table with tombstones, proved to be a
 * finite map from keys to records with a bounded number of entries.
 */
module Shm {
  import opened Text

  const MAGIC: nat := 0x4C485402
  const STALE_SECONDS: int := 600

  /** Keys fit the 50-byte field with its terminator; comparing 49 bytes then compares whole keys. */
  type Key = s: string | |s| <= 49 && '\0' !in s witness ""

  datatype Record = Record(magic: nat, ip: Key, attempts: int, first: int, blockedUntil: int)

  const ZERO: Record := Record(0, "", 0, 0, 0)

  datatype Slot = Empty | Occupied | Tombstone

  function Djb2(s: string, h: nat := 5381): nat {
    if s == "" then h else Djb2(s[1..], (h * 33 + s[0] as nat) % 0x1_0000_0000_0000_0000)
  }

  function HashIp(key: Key, capacity: nat): (h: nat)
    requires capacity > 0
    ensures h < capacity
  {
    Djb2(key) % capacity
  }

  predicate Expired(rec: Record, now: int) {
    if rec.blockedUntil > 0 && rec.blockedUntil <= now then true
    else rec.blockedUntil == 0 && rec.first > 0 && now - rec.first > STALE_SECONDS
  }

  // ------------------------------------------------------- cyclic positions

  /** The slot `o` steps after `h`. */
  function At(h: nat, o: nat, n: nat): (i: nat)
    requires h < n && o < n
    ensures i < n
  {
    if h + o < n then h + o else h + o - n
  }

  /** How many steps from `h` to `i`. */
  function Dist(h: nat, i: nat, n: nat): (d: nat)
    requires h < n && i < n
    ensures d < n && At(h, d, n) == i
  {
    if h <= i then i - h else i + n - h
  }

  // ----------------------------------------------------------- the invariant

  /** Every occupied slot is the slot of its key. */
  ghost predicate SlotsKnown(recs: seq<Record>, occ: seq<Slot>, slots: map<Key, nat>) {
    |recs| == |occ| && forall i :: 0 <= i < |occ| && occ[i].Occupied? ==> recs[i].ip in slots && slots[recs[i].ip] == i
  }

  /** Every key is stored in its slot. */
  ghost predicate KeysStored(recs: seq<Record>, occ: seq<Slot>, slots: map<Key, nat>) {
    |recs| == |occ| && forall k :: k in slots ==> slots[k] < |occ| && occ[slots[k]].Occupied? && recs[slots[k]].ip == k
  }

  /** No slot between a key's hash and its slot, going round, is empty. */
  ghost predicate ProbesUnbroken(occ: seq<Slot>, slots: map<Key, nat>) {
    |occ| > 0 && forall k, o: nat :: k in slots && slots[k] < |occ| && o < Dist(HashIp(k, |occ|), slots[k], |occ|)
                              ==> !occ[At(HashIp(k, |occ|), o, |occ|)].Empty?
  }

  ghost predicate Inv(recs: seq<Record>, occ: seq<Slot>, slots: map<Key, nat>) {
    SlotsKnown(recs, occ, slots) && KeysStored(recs, occ, slots) && ProbesUnbroken(occ, slots)
  }

  /** The map the table stands for. */
  ghost function Contents(recs: seq<Record>, occ: seq<Slot>, slots: map<Key, nat>): map<Key, Record>
    requires KeysStored(recs, occ, slots)
  {
    map k | k in slots :: recs[slots[k]]
  }

  // ----------------------------------------------------------------- counting

  lemma {:induction false} InjectionSize(m: map<Key, nat>, s: set<nat>)
    requires forall k :: k in m ==> m[k] in s
    requires forall k, l :: k in m && l in m && m[k] == m[l] ==> k == l
    ensures |m| <= |s|
    decreases |m|
  {
    if m != map[] {
      var k :| k in m;
      var rest := m - {k};
      assert rest.Keys == m.Keys - {k};
      InjectionSize(rest, s - {m[k]});
    }
  }

  lemma {:induction false} SurjectionSize(m: map<Key, nat>, s: set<nat>)
    requires forall i :: i in s ==> exists k :: k in m && m[k] == i
    ensures |s| <= |m|
    decreases |s|
  {
    if s != {} {
      var i :| i in s;
      var k :| k in m && m[k] == i;
      var rest := m - {k};
      assert rest.Keys == m.Keys - {k};
      forall j | j in s - {i}
        ensures exists l :: l in rest && rest[l] == j
      {
        var l :| l in m && m[l] == j;
        assert l in rest && rest[l] == j;
      }
      SurjectionSize(rest, s - {i});
    }
  }

  function Below(n: nat): (s: set<nat>)
    ensures |s| == n && forall i: nat :: i in s <==> i < n
  {
    if n == 0 then {} else Below(n - 1) + {n - 1}
  }

  /** The map never has more keys than there are slots, and fewer as long as one slot is free. */
  lemma RoomLeft(recs: seq<Record>, occ: seq<Slot>, slots: map<Key, nat>)
    requires Inv(recs, occ, slots)
    ensures |slots| <= |occ|
    ensures (exists i :: 0 <= i < |occ| && !occ[i].Occupied?) <==> |slots| < |occ|
  {
    InjectionSize(slots, Below(|occ|));
    if i :| 0 <= i < |occ| && !occ[i].Occupied? {
      InjectionSize(slots, Below(|occ|) - {i});
    } else {
      forall i | i in Below(|occ|)
        ensures exists k :: k in slots && slots[k] == i
      {
        assert recs[i].ip in slots;
      }
      SurjectionSize(slots, Below(|occ|));
    }
  }

  // ------------------------------------------------------------- probing facts

  /** Nothing at the first `o` probes is empty or holds the key. */
  ghost predicate Passed(recs: seq<Record>, occ: seq<Slot>, key: Key, o: nat) {
    |recs| == |occ| && 0 < |occ| && o <= |occ|
    && forall p: nat :: p < o ==>
         var i := At(HashIp(key, |occ|), p, |occ|);
         !occ[i].Empty? && !(occ[i].Occupied? && recs[i].ip == key)
  }

  /** A probe that meets an empty slot, or has gone all the way round, proves the key absent. */
  lemma ProbeEnds(recs: seq<Record>, occ: seq<Slot>, slots: map<Key, nat>, key: Key, o: nat)
    requires Inv(recs, occ, slots) && Passed(recs, occ, key, o)
    requires o == |occ| || occ[At(HashIp(key, |occ|), o, |occ|)].Empty?
    ensures key !in slots
  {
    if key in slots {
      var d := Dist(HashIp(key, |occ|), slots[key], |occ|);
      assert false;
    }
  }

  lemma PassedMore(recs: seq<Record>, occ: seq<Slot>, key: Key, o: nat)
    requires Passed(recs, occ, key, o) && o < |occ|
    requires var i := At(HashIp(key, |occ|), o, |occ|);
             !occ[i].Empty? && !(occ[i].Occupied? && recs[i].ip == key)
    ensures Passed(recs, occ, key, o + 1)
  {
  }

  /** Putting a new key in a free slot that its probe sequence reaches. */
  lemma InsertKeepsInv(recs: seq<Record>, occ: seq<Slot>, slots: map<Key, nat>, key: Key, rec: Record, i: nat, o: nat)
    requires Inv(recs, occ, slots) && key !in slots && Passed(recs, occ, key, o) && i < |occ| && !occ[i].Occupied?
    requires Dist(HashIp(key, |occ|), i, |occ|) <= o && rec.ip == key
    ensures Inv(recs[i := rec], occ[i := Occupied], slots[key := i])
    ensures Contents(recs[i := rec], occ[i := Occupied], slots[key := i]) == Contents(recs, occ, slots)[key := rec]
  {
    var recs', occ', slots' := recs[i := rec], occ[i := Occupied], slots[key := i];
    hide HashIp, At, Dist;
    assert SlotsKnown(recs', occ', slots') && KeysStored(recs', occ', slots');
    forall k, p: nat | k in slots' && slots'[k] < |occ'| && p < Dist(HashIp(k, |occ|), slots'[k], |occ|)
      ensures !occ'[At(HashIp(k, |occ|), p, |occ|)].Empty?
    {
      if k != key { assert k in slots; }
    }
  }

  lemma OverwriteKeepsInv(recs: seq<Record>, occ: seq<Slot>, slots: map<Key, nat>, rec: Record, i: nat)
    requires Inv(recs, occ, slots) && i < |occ| && occ[i].Occupied? && rec.ip == recs[i].ip
    ensures Inv(recs[i := rec], occ, slots)
    ensures Contents(recs[i := rec], occ, slots) == Contents(recs, occ, slots)[rec.ip := rec]
  {
    hide ProbesUnbroken;
  }

  lemma TombstoneKeepsInv(recs: seq<Record>, occ: seq<Slot>, slots: map<Key, nat>, i: nat)
    requires Inv(recs, occ, slots) && i < |occ| && occ[i].Occupied?
    ensures Inv(recs[i := ZERO], occ[i := Tombstone], slots - {recs[i].ip})
    ensures Contents(recs[i := ZERO], occ[i := Tombstone], slots - {recs[i].ip})
         == Contents(recs, occ, slots) - {recs[i].ip}
  {
    var key := recs[i].ip;
    var recs', occ', slots' := recs[i := ZERO], occ[i := Tombstone], slots - {key};
    hide HashIp, At, Dist;
    assert SlotsKnown(recs', occ', slots') && KeysStored(recs', occ', slots');
    forall k, p: nat | k in slots' && slots'[k] < |occ'| && p < Dist(HashIp(k, |occ|), slots'[k], |occ|)
      ensures !occ'[At(HashIp(k, |occ|), p, |occ|)].Empty?
    {
      assert k in slots;
    }
  }

  // ---------------------------------------------------------------- the table

  class Store {
    const capacity: nat
    var records: array<Record>
    var occupied: array<Slot>
    var count: nat
    ghost var slots: map<Key, nat>

    ghost predicate Valid()
      reads this, records, occupied
    {
      && records.Length == occupied.Length == capacity > 0
      && Inv(records[..], occupied[..], slots)
      && count == |slots|
    }

    ghost function Model(): (m: map<Key, Record>)
      reads this, records, occupied
      requires Valid()
      ensures m.Keys == slots.Keys
    {
      Contents(records[..], occupied[..], slots)
    }

    constructor (maxRecords: nat)
      requires maxRecords > 0
      ensures Valid() && capacity == maxRecords && Model() == map[] && fresh(records) && fresh(occupied)
    {
      capacity := maxRecords;
      records := new Record[maxRecords](_ => ZERO);
      occupied := new Slot[maxRecords](_ => Empty);
      count, slots := 0, map[];
    }

    /** The probing loop of a lookup: the slot of the key, or none. */
    method Lookup(key: Key) returns (r: Option<nat>)
      requires Valid()
      ensures r.Some? <==> key in slots
      ensures r.Some? ==> r.value == slots[key] && r.value < capacity
    {
      hide HashIp, Inv, Passed, At, Dist;
      ghost var recs, occ := records[..], occupied[..];
      var start := HashIp(key, capacity);
      var idx := start;
      ghost var o := 0;
      PassedNone(recs, occ, key);
      while true
        invariant o < capacity && idx == At(start, o, capacity)
        invariant Passed(recs, occ, key, o)
        decreases capacity - o
      {
        assert recs[idx] == records[idx] && occ[idx] == occupied[idx];
        if occupied[idx].Occupied? && records[idx].ip == key {
          FoundSlot(recs, occ, slots, idx);
          return Some(idx);
        }
        if occupied[idx].Empty? {
          ProbeEnds(recs, occ, slots, key, o);
          return None;
        }
        PassedMore(recs, occ, key, o);
        o := o + 1;
        Wrapped(start, o, capacity);
        idx := (idx + 1) % capacity;
        if idx == start {
          ProbeEnds(recs, occ, slots, key, o);
          return None;
        }
      }
    }

    /** builtin_shm_get. */
    method Get(key: Key) returns (r: Option<Record>)
      requires Valid()
      ensures r == if key in Model() then Some(Model()[key]) else None
    {
      var i := Lookup(key);
      r := if i.Some? then Some(records[i.value]) else None;
    }

    /** builtin_shm_update: overwrite in place, else the first tombstone or empty slot, else fail. */
    method Update(key: Key, record: Record) returns (ok: bool)
      requires Valid()
      modifies this`count, this`slots, records, occupied
      ensures Valid()
      ensures ok <==> key in old(Model()) || |old(Model())| < capacity
      ensures Model() == if ok then old(Model())[key := record.(ip := key)] else old(Model())
    {
      hide HashIp, Inv, Passed, Contents, At, Dist, TombstoneSeen;
      ghost var recs, occ := records[..], occupied[..];
      var start := HashIp(key, capacity);
      var idx := start;
      var firstTombstone: Option<nat> := None;
      ghost var o := 0;
      PassedNone(recs, occ, key);
      SizeIsCount();
      while true
        invariant o < capacity && idx == At(start, o, capacity)
        invariant Passed(recs, occ, key, o) && TombstoneSeen(occ, start, o, firstTombstone)
        invariant recs == records[..] && occ == occupied[..]
        invariant Valid() && Model() == old(Model())
        decreases capacity - o
      {
        assert recs[idx] == records[idx] && occ[idx] == occupied[idx];
        if occupied[idx].Occupied? && records[idx].ip == key {
          Overwrite(idx, record.(ip := key));
          return true;
        }
        TombstoneStep(occ, start, o, firstTombstone);
        if occupied[idx].Tombstone? && firstTombstone.None? {
          firstTombstone := Some(idx);
        }
        if occupied[idx].Empty? {
          ProbeEnds(recs, occ, slots, key, o);
          var ins := if firstTombstone.Some? then firstTombstone.value else idx;
          FreeSlot(occ, start, o, firstTombstone);
          Insert(key, record.(ip := key), ins, o);
          return true;
        }
        PassedMore(recs, occ, key, o);
        o := o + 1;
        Wrapped(start, o, capacity);
        idx := (idx + 1) % capacity;
        if idx == start {
          ok := UpdateFullRound(key, record, firstTombstone);
          return;
        }
      }
    }

    /** The probe went all the way round without meeting the key or an empty slot. */
    method UpdateFullRound(key: Key, record: Record, firstTombstone: Option<nat>) returns (ok: bool)
      requires Valid() && Passed(records[..], occupied[..], key, capacity)
      requires TombstoneSeen(occupied[..], HashIp(key, capacity), capacity, firstTombstone)
      modifies this`count, this`slots, records, occupied
      ensures Valid()
      ensures ok <==> key in old(Model()) || |old(Model())| < capacity
      ensures Model() == if ok then old(Model())[key := record.(ip := key)] else old(Model())
    {
      hide HashIp, Inv, Passed, Contents, At, Dist;
      SizeIsCount();
      ProbeEnds(records[..], occupied[..], slots, key, capacity);
      if firstTombstone.Some? {
        Insert(key, record.(ip := key), firstTombstone.value, capacity);
        return true;
      }
      AllOccupied(records[..], occupied[..], slots, key);
      return false;
    }

    lemma SizeIsCount()
      requires Valid()
      ensures |Model()| == |slots| == count
    {
      assert Model().Keys == slots.Keys;
    }

    lemma ModelKeyed()
      requires Valid()
      ensures forall k :: k in Model() ==> Model()[k].ip == k
    {
    }

    method Overwrite(i: nat, record: Record)
      requires Valid() && i < capacity && occupied[i].Occupied? && record.ip == records[i].ip
      modifies records
      ensures Valid() && record.ip in old(Model()) && Model() == old(Model())[record.ip := record]
    {
      hide ProbesUnbroken;
      OverwriteKeepsInv(records[..], occupied[..], slots, record, i);
      records[i] := record;
      assert records[..] == old(records[..])[i := record];
    }

    method Insert(key: Key, record: Record, i: nat, ghost o: nat)
      requires Valid() && key !in slots && Passed(records[..], occupied[..], key, o) && record.ip == key
      requires i < capacity && !occupied[i].Occupied? && Dist(HashIp(key, capacity), i, capacity) <= o
      modifies this`count, this`slots, records, occupied
      ensures Valid() && key !in old(Model()) && |old(Model())| < capacity && Model() == old(Model())[key := record]
    {
      hide Inv, Passed, Contents, Dist, HashIp;
      SizeIsCount();
      RoomLeft(records[..], occupied[..], slots);
      InsertKeepsInv(records[..], occupied[..], slots, key, record, i, o);
      records[i] := record;
      occupied[i] := Occupied;
      slots := slots[key := i];
      count := count + 1;
      assert records[..] == old(records[..])[i := record] && occupied[..] == old(occupied[..])[i := Occupied];
    }

    /** builtin_shm_cleanup: expired records become tombstones. */
    method Cleanup(now: int) returns (cleaned: nat)
      requires Valid()
      modifies this`count, this`slots, records, occupied
      ensures Valid()
      ensures Model() == map k | k in old(Model()) && !Expired(old(Model())[k], now) :: old(Model())[k]
      ensures cleaned == |old(Model())| - |Model()|
    {
      hide Inv, Contents, Expired, Swept;
      ghost var was := Model();
      ghost var slots0 := slots;
      SizeIsCount();
      SlotBounds();
      SweepStarts(now);
      cleaned := 0;
      var i := 0;
      while i < capacity
        invariant Valid() && i <= capacity && cleaned + count == |was|
        invariant Swept(was, slots0, i, now)
      {
        var buried := SweepSlot(was, slots0, i, now);
        if buried {
          cleaned := cleaned + 1;
        }
        i := i + 1;
      }
      SizeIsCount();
      SweepEnds(was, slots0, now);
    }

    method SweepSlot(ghost was: map<Key, Record>, ghost slots0: map<Key, nat>, i: nat, now: int) returns (buried: bool)
      requires Valid() && i < capacity && Swept(was, slots0, i, now)
      modifies this`count, this`slots, records, occupied
      ensures Valid() && Swept(was, slots0, i + 1, now) && count == if buried then old(count) - 1 else old(count)
    {
      hide Inv, Contents, Expired, SweptTo;
      SlotBounds();
      buried := false;
      SweptStep(slots, Model(), was, slots0, i, now);
      if occupied[i].Occupied? && Expired(records[i], now) {
        Bury(i);
        buried := true;
      }
    }

    lemma SweepStarts(now: int)
      requires Valid()
      ensures Swept(Model(), slots, 0, now)
    {
      hide Inv, Contents, Expired;
    }

    lemma SweepEnds(was: map<Key, Record>, slots0: map<Key, nat>, now: int)
      requires Valid() && Swept(was, slots0, capacity, now)
      requires forall k :: k in slots0 ==> slots0[k] < capacity
      ensures Model() == map k | k in was && !Expired(was[k], now) :: was[k]
    {
      hide Inv, Contents, Expired;
    }

    lemma SlotBounds()
      requires Valid()
      ensures forall k :: k in slots ==>
                slots[k] < capacity && records[slots[k]].ip == k && Model()[k] == records[slots[k]]
      ensures forall k :: k in slots ==> occupied[slots[k]].Occupied?
      ensures forall i :: 0 <= i < capacity && occupied[i].Occupied? ==>
                records[i].ip in slots && slots[records[i].ip] == i
    {
      hide ProbesUnbroken;
    }

    ghost predicate Swept(was: map<Key, Record>, slots0: map<Key, nat>, i: nat, now: int)
      reads this, records, occupied
      requires Valid()
    {
      SweptTo(slots, Model(), was, slots0, i, now)
    }

    method Bury(i: nat)
      requires Valid() && i < capacity && occupied[i].Occupied?
      modifies this`count, this`slots, records, occupied
      ensures Valid() && count == old(count) - 1
      ensures slots == old(slots) - {old(records[i].ip)} && Model() == old(Model()) - {old(records[i].ip)}
      ensures forall j :: 0 <= j < capacity && j != i ==>
                records[j] == old(records[j]) && occupied[j] == old(occupied[j])
      ensures !occupied[i].Occupied?
    {
      hide ProbesUnbroken;
      TombstoneKeepsInv(records[..], occupied[..], slots, i);
      ghost var key := records[i].ip;
      assert slots.Keys == (slots - {key}).Keys + {key};
      records[i] := ZERO;
      occupied[i] := Tombstone;
      slots := slots - {key};
      count := count - 1;
      assert records[..] == old(records[..])[i := ZERO] && occupied[..] == old(occupied[..])[i := Tombstone];
    }

    /** builtin_shm_atomic_increment: one more attempt, on a new record when the key has none. */
    method AtomicIncrement(key: Key, now: int) returns (ok: bool, out: Record)
      requires Valid()
      modifies this`count, this`slots, records, occupied
      ensures Valid() && out == Incremented(old(Model()), key, now)
      ensures ok <==> key in old(Model()) || |old(Model())| < capacity
      ensures Model() == if ok then old(Model())[key := out] else old(Model())
    {
      var i := Lookup(key);
      if i.Some? {
        out := records[i.value].(attempts := records[i.value].attempts + 1);
        Overwrite(i.value, out);
        return true, out;
      }
      out := Record(MAGIC, key, 1, now, 0);
      ok := Update(key, out);
    }
  }

  /** The slots below `i` have been swept; the map is otherwise as it was. */
  ghost predicate SweptTo(slots: map<Key, nat>, m: map<Key, Record>, was: map<Key, Record>, slots0: map<Key, nat>,
                          i: nat, now: int) {
    && slots0.Keys == was.Keys && slots.Keys == m.Keys
    && (forall k :: k in slots ==> k in slots0 && slots[k] == slots0[k] && m[k] == was[k])
    && (forall k :: k in slots0 ==> (k in slots <==> i <= slots0[k] || !Expired(was[k], now)))
  }

  /** Sweeping slot `i`: its key goes when its record has expired. */
  lemma SweptStep(slots: map<Key, nat>, m: map<Key, Record>, was: map<Key, Record>, slots0: map<Key, nat>, i: nat,
      now: int)
    requires SweptTo(slots, m, was, slots0, i, now)
    requires forall k, l :: k in slots && l in slots && slots[k] == slots[l] ==> k == l
    ensures forall k :: k in slots && slots[k] == i && Expired(m[k], now) ==>
                          SweptTo(slots - {k}, m - {k}, was, slots0, i + 1, now)
    ensures (forall k :: k in slots && slots[k] == i ==> !Expired(m[k], now)) ==>
              SweptTo(slots, m, was, slots0, i + 1, now)
  {
    hide Expired;
  }

  ghost function Incremented(m: map<Key, Record>, key: Key, now: int): Record {
    if key in m then m[key].(attempts := m[key].attempts + 1) else Record(MAGIC, key, 1, now, 0)
  }

  lemma FoundSlot(recs: seq<Record>, occ: seq<Slot>, slots: map<Key, nat>, i: nat)
    requires Inv(recs, occ, slots) && i < |occ| && occ[i].Occupied?
    ensures recs[i].ip in slots && slots[recs[i].ip] == i
  {
  }

  lemma PassedNone(recs: seq<Record>, occ: seq<Slot>, key: Key)
    requires |recs| == |occ| > 0
    ensures Passed(recs, occ, key, 0)
    ensures var h := HashIp(key, |occ|); At(h, 0, |occ|) == h && TombstoneSeen(occ, h, 0, None)
  {
  }

  lemma NextSlot(i: nat, n: nat)
    requires i < n
    ensures (i + 1) % n == if i + 1 < n then i + 1 else 0
  {
    if i + 1 == n { assert n % n == 0; }
  }

  /** One step on, going round: back at the start exactly after `n` steps. */
  lemma Wrapped(h: nat, o: nat, n: nat)
    requires h < n && 0 < o <= n
    ensures var i := (At(h, o - 1, n) + 1) % n;
            (o < n ==> i == At(h, o, n) && i != h) && (o == n ==> i == h)
  {
    var i := At(h, o - 1, n);
    NextSlot(i, n);
    var j := if i + 1 < n then i + 1 else 0;
    hide *;
    assert j == (i + 1) % n;
  }

  /** The first tombstone among the first `o` probes. */
  ghost predicate TombstoneSeen(occ: seq<Slot>, h: nat, o: nat, t: Option<nat>) {
    h < |occ| && o <= |occ|
    && if t.Some? then t.value < |occ| && occ[t.value].Tombstone? && Dist(h, t.value, |occ|) < o
       else forall p: nat :: p < o ==> !occ[At(h, p, |occ|)].Tombstone?
  }

  lemma TombstoneStep(occ: seq<Slot>, h: nat, o: nat, t: Option<nat>)
    requires o < |occ| && TombstoneSeen(occ, h, o, t)
    ensures var i := At(h, o, |occ|);
            TombstoneSeen(occ, h, o + 1, if occ[i].Tombstone? && t.None? then Some(i) else t)
  {
  }

  /** The slot an insertion takes: the first tombstone seen, else the empty slot that ended the probe. */
  lemma FreeSlot(occ: seq<Slot>, h: nat, o: nat, t: Option<nat>)
    requires o < |occ| && TombstoneSeen(occ, h, o + 1, t) && occ[At(h, o, |occ|)].Empty?
    ensures var i := if t.Some? then t.value else At(h, o, |occ|);
            i < |occ| && !occ[i].Occupied? && Dist(h, i, |occ|) <= o
  {
  }

  /** After a full round without a free slot or the key, the table is full. */
  lemma AllOccupied(recs: seq<Record>, occ: seq<Slot>, slots: map<Key, nat>, key: Key)
    requires Inv(recs, occ, slots) && Passed(recs, occ, key, |occ|)
        && TombstoneSeen(occ, HashIp(key, |occ|), |occ|, None)
    ensures |slots| == |occ|
  {
    RoomLeft(recs, occ, slots);
    forall i | 0 <= i < |occ|
      ensures occ[i].Occupied?
    {
      var d := Dist(HashIp(key, |occ|), i, |occ|);
      assert At(HashIp(key, |occ|), d, |occ|) == i;
    }
  }
}
