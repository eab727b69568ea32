/**
 * Address ranges: bitwise masking of 32-bit words and of 16-byte addresses is
 * comparison of the leading bits as numbers, for every prefix length, and the
 * table form with full masks answers the same.
 */
module Cidr {
  // ---------------------------------------------------------------- binary digits

  function Pow2(n: nat): (r: nat)
    ensures r > 0
  {
    if n == 0 then 1 else 2 * Pow2(n - 1)
  }

  /** Bitwise and of two unsigned numbers. */
  function And(a: nat, b: nat): nat
    decreases a
  {
    if a == 0 then 0 else (a % 2) * (b % 2) + 2 * And(a / 2, b / 2)
  }

  /** Shifts by one digit at a time. */
  function Shr(a: nat, k: nat): nat { if k == 0 then a else Shr(a / 2, k - 1) }

  function Shl(a: nat, k: nat): nat { if k == 0 then a else 2 * Shl(a, k - 1) }

  lemma {:induction false} AndShift(a: nat, m: nat, k: nat)
    ensures And(a, Shl(m, k)) == Shl(And(Shr(a, k), m), k)
    decreases k
  {
    if k > 0 {
      AndShift(a / 2, m, k - 1);
      var y := Shl(m, k - 1);
      if a > 0 {
        assert And(a, 2 * y) == (a % 2) * ((2 * y) % 2) + 2 * And(a / 2, 2 * y / 2);
        assert (2 * y) % 2 == 0 && 2 * y / 2 == y;
      } else {
        ZeroShifts(k);
      }
    }
  }

  lemma {:induction false} ZeroShifts(k: nat)
    ensures Shr(0, k) == 0 && Shl(0, k) == 0
    decreases k
  {
    if k > 0 { ZeroShifts(k - 1); }
  }

  lemma {:induction false} AndOnes(x: nat, p: nat)
    requires x < Pow2(p)
    ensures And(x, Pow2(p) - 1) == x
    decreases p
  {
    if x > 0 {
      var half := Pow2(p - 1);
      AndOnes(x / 2, p - 1);
      assert (2 * half - 1) / 2 == half - 1 && (2 * half - 1) % 2 == 1;
    }
  }

  lemma {:induction false} ShrShl(a: nat, x: nat, j: nat, k: nat)
    ensures Shr(Shl(a, j + k) + x, k) == Shl(a, j) + Shr(x, k)
    decreases k
  {
    if k > 0 {
      var y := Shl(a, j + k - 1);
      assert (2 * y + x) / 2 == y + x / 2;
      ShrShl(a, x / 2, j, k - 1);
      assert j + k - 1 == j + (k - 1);
    }
  }

  lemma {:induction false} ShrBound(a: nat, p: nat, k: nat)
    requires a < Pow2(p + k)
    ensures Shr(a, k) < Pow2(p)
    decreases k
  {
    if k > 0 {
      assert p + k - 1 == p + (k - 1);
      ShrBound(a / 2, p, k - 1);
    }
  }

  lemma {:induction false} ShrTwice(a: nat, m: nat, n: nat)
    ensures Shr(a, m + n) == Shr(Shr(a, m), n)
    decreases m
  {
    if m > 0 {
      assert m + n - 1 == (m - 1) + n;
      ShrTwice(a / 2, m - 1, n);
    }
  }

  lemma {:induction false} ShlOnes(p: nat, k: nat)
    ensures Pow2(p + k) >= Pow2(k) && Shl(Pow2(p) - 1, k) == Pow2(p + k) - Pow2(k)
    decreases k
  {
    if k > 0 {
      assert p + k - 1 == p + (k - 1);
      ShlOnes(p, k - 1);
    }
  }

  // -------------------------------------------------------------- shifts as division

  lemma {:induction false} MulMore(d: nat, q: nat, p: nat)
    requires q < p
    ensures d * q + d <= d * p
    decreases p
  {
    assert d * p == d * (p - 1) + d;
    if q < p - 1 { MulMore(d, q, p - 1); }
  }

  /** A quotient is fixed by its remainder being small. */
  lemma Quotient(a: nat, d: nat, q: nat, r: nat)
    requires d > 0 && a == d * q + r && r < d
    ensures a / d == q && a % d == r
  {
    var p, s := a / d, a % d;
    assert a == d * p + s && 0 <= s < d;
    if p > q { MulMore(d, q, p); }
    if p < q { MulMore(d, p, q); }
  }

  /** Shifting right is integer division by a power of two. */
  lemma {:induction false} ShrIsDivision(a: nat, k: nat)
    ensures Shr(a, k) == a / Pow2(k)
    decreases k
  {
    if k == 0 {
      assert a / 1 == a;
    } else {
      ShrIsDivision(a / 2, k - 1);
      HalfThenDivide(a, Pow2(k - 1));
    }
  }

  lemma HalfThenDivide(a: nat, n: nat)
    requires n > 0
    ensures a / 2 / n == a / (2 * n)
  {
    var q := a / 2;
    var p, s := q / n, q % n;
    assert q == n * p + s && 0 <= s < n;
    assert p >= 0;
    assert a == 2 * n * p + (2 * s + a % 2) by {
      assert 2 * (n * p) == 2 * n * p;
    }
    Quotient(a, 2 * n, p, 2 * s + a % 2);
  }

  lemma {:induction false} PowAdd(m: nat, n: nat)
    ensures Pow2(m + n) == Pow2(m) * Pow2(n)
    decreases m
  {
    if m > 0 {
      assert m + n - 1 == (m - 1) + n;
      PowAdd(m - 1, n);
      Doubled(Pow2(m - 1), Pow2(n));
    }
  }

  lemma Doubled(a: nat, b: nat)
    ensures 2 * (a * b) == (2 * a) * b
  {
  }

  // ------------------------------------------------------------------------- masks

  /** prefix_to_mask for words of `w` bits: all ones shifted left, truncated to the word. */
  function Mask(w: nat, prefix: nat): nat
    requires prefix <= w
  {
    if prefix == 0 then 0 else Shl(Pow2(w) - 1, w - prefix) % Pow2(w)
  }

  lemma MaskIs(w: nat, prefix: nat)
    requires prefix <= w
    ensures Mask(w, prefix) == Shl(Pow2(prefix) - 1, w - prefix) < Pow2(w)
  {
    var k := w - prefix;
    ShlOnes(prefix, k);
    ShlOnes(w, k);
    assert Pow2(prefix + k) == Pow2(w);
    if prefix > 0 {
      PowAdd(w, k);
      Wrapped(Pow2(w), Pow2(k));
    } else {
      ZeroShifts(k);
    }
  }

  lemma Wrapped(p: nat, k: nat)
    requires 0 < k <= p
    ensures p * k >= k && (p * k - k) % p == p - k
  {
    assert p * k == p * (k - 1) + p;
    MulMore(k, 0, p);
    assert p * k == k * p;
    Quotient(p * k - k, p, k - 1, p - k);
  }

  /** The number that the first `prefix` of `w` bits make: the address divided by 2^(w - prefix). */
  function Leading(a: nat, w: nat, prefix: nat): (r: nat)
    requires prefix <= w
    ensures r == a / Pow2(w - prefix)
  {
    ShrIsDivision(a, w - prefix);
    Shr(a, w - prefix)
  }

  /** Masking keeps the leading bits and clears the others. */
  lemma MaskedIs(a: nat, w: nat, prefix: nat)
    requires prefix <= w && a < Pow2(w)
    ensures And(a, Mask(w, prefix)) == Shl(Leading(a, w, prefix), w - prefix)
    ensures Leading(And(a, Mask(w, prefix)), w, prefix) == Leading(a, w, prefix)
    ensures And(a, Mask(w, prefix)) < Pow2(w)
  {
    hide Mask, And;
    var k := w - prefix;
    MaskIs(w, prefix);
    AndShift(a, Pow2(prefix) - 1, k);
    assert prefix + k == w;
    ShrBound(a, prefix, k);
    AndOnes(Shr(a, k), prefix);
    ShrShl(Shr(a, k), 0, 0, k);
    ZeroShifts(k);
    ShlBound(Shr(a, k), prefix, k);
  }

  lemma {:induction false} ShlBound(x: nat, p: nat, k: nat)
    requires x < Pow2(p)
    ensures Shl(x, k) < Pow2(p + k)
    decreases k
  {
    if k > 0 {
      assert p + k - 1 == p + (k - 1);
      ShlBound(x, p, k - 1);
    }
  }

  /** Two words agree under the mask exactly when their leading bits are the same number. */
  lemma MaskedEqual(a: nat, b: nat, w: nat, prefix: nat)
    requires prefix <= w && a < Pow2(w) && b < Pow2(w)
    ensures And(a, Mask(w, prefix)) == And(b, Mask(w, prefix)) <==> Leading(a, w, prefix) == Leading(b, w, prefix)
  {
    hide And, Mask, Leading;
    MaskedIs(a, w, prefix);
    MaskedIs(b, w, prefix);
  }

  // -------------------------------------------------------------------------- IPv4

  datatype RangeV4 = RangeV4(network: nat, mask: nat)

  /** cidr_parse, after the text has been read. */
  function NewV4(ip: nat, prefix: nat): RangeV4
    requires prefix <= 32
  {
    RangeV4(And(ip, Mask(32, prefix)), Mask(32, prefix))
  }

  /** cidr_match. */
  predicate MatchesV4(c: RangeV4, ip: nat) { And(ip, c.mask) == And(c.network, c.mask) }

  /** An entry of the table, and its comparison. */
  function EntryV4(c: RangeV4): RangeV4 { RangeV4(And(c.network, c.mask), c.mask) }

  predicate InEntryV4(e: RangeV4, ip: nat) { And(ip, e.mask) == e.network }

  /** An address is in a range exactly when it has the range's leading bits; the table entry says the same. */
  lemma V4Exact(net: nat, prefix: nat, ip: nat)
    requires prefix <= 32 && net < Pow2(32) && ip < Pow2(32)
    ensures MatchesV4(NewV4(net, prefix), ip) <==> Leading(ip, 32, prefix) == Leading(net, 32, prefix)
    ensures InEntryV4(EntryV4(NewV4(net, prefix)), ip) <==> MatchesV4(NewV4(net, prefix), ip)
  {
    hide Pow2, And, Mask, Leading;
    MaskedIs(net, 32, prefix);
    MaskedEqual(ip, And(net, Mask(32, prefix)), 32, prefix);
  }

  // -------------------------------------------------------------------------- IPv6

  predicate IsAddress(s: seq<nat>) { |s| == 16 && IsBytes(s) }

  predicate IsBytes(s: seq<nat>) { forall i :: 0 <= i < |s| ==> s[i] < 256 }

  /** The big-endian number of a byte string. */
  function Value(s: seq<nat>): nat {
    if s == [] then 0 else Value(s[..|s| - 1]) * 256 + s[|s| - 1]
  }

  /** What the masking loop of cidr_v6_parse leaves at each place. */
  function MaskedByte(x: nat, i: nat, prefix: nat): nat
    requires prefix <= 128
  {
    if i < prefix / 8 then x else if i == prefix / 8 && prefix % 8 > 0 then And(x, Mask(8, prefix % 8)) else 0
  }

  function Masked(s: seq<nat>, prefix: nat): (r: seq<nat>)
    requires prefix <= 128
    ensures |r| == |s| && forall i :: 0 <= i < |s| ==> r[i] == MaskedByte(s[i], i, prefix)
  {
    seq(|s|, i requires 0 <= i < |s| => MaskedByte(s[i], i, prefix))
  }

  method MaskHostBits(addr: array<nat>, prefix: nat)
    requires addr.Length == 16 && prefix <= 128
    modifies addr
    ensures addr[..] == Masked(old(addr[..]), prefix)
  {
    hide And, Mask;
    var fullBytes, remainingBits := prefix / 8, prefix % 8;
    var i := fullBytes;
    while i < 16
      invariant fullBytes <= i <= 16
      invariant forall j :: 0 <= j < fullBytes || i <= j < 16 ==> addr[j] == old(addr[j])
      invariant forall j :: fullBytes <= j < i ==> addr[j] == MaskedByte(old(addr[j]), j, prefix)
    {
      if i == fullBytes && remainingBits > 0 {
        addr[i] := And(addr[i], Mask(8, remainingBits));
      } else {
        addr[i] := 0;
      }
      i := i + 1;
    }
  }

  /** cidr_v6_match. */
  predicate MatchesV6(net: seq<nat>, prefix: nat, addr: seq<nat>)
    requires |net| == 16 == |addr| && prefix <= 128
  {
    && net[..prefix / 8] == addr[..prefix / 8]
    && (prefix % 8 > 0 ==> And(net[prefix / 8], Mask(8, prefix % 8)) == And(addr[prefix / 8], Mask(8, prefix % 8)))
  }

  method MatchV6(net: array<nat>, prefix: nat, addr: array<nat>) returns (r: bool)
    requires net.Length == 16 == addr.Length && prefix <= 128
    ensures r == MatchesV6(net[..], prefix, addr[..])
  {
    hide And, Mask;
    var fullBytes, remainingBits := prefix / 8, prefix % 8;
    var i := 0;
    while i < fullBytes
      invariant 0 <= i <= fullBytes && forall j :: 0 <= j < i ==> net[j] == addr[j]
    {
      if net[i] != addr[i] {
        assert net[..][..fullBytes][i] != addr[..][..fullBytes][i];
        return false;
      }
      i := i + 1;
    }
    assert net[..][..fullBytes] == addr[..][..fullBytes];
    if remainingBits > 0 && fullBytes < 16 {
      var mask := Mask(8, remainingBits);
      if And(net[fullBytes], mask) != And(addr[fullBytes], mask) {
        return false;
      }
    }
    return true;
  }

  lemma {:induction false} ValueInjective(s: seq<nat>, t: seq<nat>)
    requires |s| == |t| && IsBytes(s) && IsBytes(t)
    ensures Value(s) == Value(t) <==> s == t
    decreases |s|
  {
    if s != [] {
      var n := |s| - 1;
      ValueInjective(s[..n], t[..n]);
      assert s == s[..n] + [s[n]] && t == t[..n] + [t[n]];
    }
  }

  lemma {:induction false} ShlIsProduct(v: nat, k: nat)
    ensures Shl(v, k) == v * Pow2(k)
    decreases k
  {
    if k > 0 {
      ShlIsProduct(v, k - 1);
      Doubled(v, Pow2(k - 1));
      assert 2 * (v * Pow2(k - 1)) == v * (2 * Pow2(k - 1));
    }
  }

  lemma TopBytes(v: nat, b: nat)
    requires b < 256
    ensures Shr(v * 256 + b, 8) == v && Shl(v, 8) == v * 256
  {
    ShlIsProduct(v, 8);
    ShrShl(v, b, 0, 8);
    assert 0 + 8 == 8 && Shl(v, 0) == v;
    ByteBound();
    ShrBound(b, 0, 8);
    assert Pow2(0) == 1;
  }

  /** Dropping trailing bytes is shifting them out. */
  lemma {:induction false} ValueTake(s: seq<nat>, n: nat)
    requires IsBytes(s) && n <= |s|
    ensures Shr(Value(s), 8 * (|s| - n)) == Value(s[..n])
    decreases |s|
  {
    if n == |s| {
      assert s[..n] == s;
    } else {
      var m := |s| - 1;
      ValueTake(s[..m], n);
      assert s[..m][..n] == s[..n];
      TopBytes(Value(s[..m]), s[m]);
      assert 8 * (|s| - n) == 8 + 8 * (m - n);
      ShrTwice(Value(s), 8, 8 * (m - n));
    }
  }

  /** The leading bits of an address, as whole bytes and a rest. */
  lemma LeadingBytes(s: seq<nat>, prefix: nat)
    requires IsAddress(s) && prefix <= 128
    ensures var f, r := prefix / 8, prefix % 8;
            if r == 0 then Leading(Value(s), 128, prefix) == Value(s[..f])
            else Leading(Value(s), 128, prefix) == Shl(Value(s[..f]), r) + Leading(s[f], 8, r)
                 && Leading(s[f], 8, r) < Pow2(r)
  {
    hide Value, Pow2, Shr, Shl;
    var f, r := prefix / 8, prefix % 8;
    if r == 0 {
      ValueTake(s, f);
    } else {
      ValueTake(s, f + 1);
      ShrTwice(Value(s), 8 * (15 - f), 8 - r);
      assert 8 * (15 - f) + (8 - r) == 128 - prefix;
      assert s[..f + 1][..f] == s[..f];
      LastByte(s[..f + 1]);
      TopBytes(Value(s[..f]), s[f]);
      assert r + (8 - r) == 8;
      ShrShl(Value(s[..f]), s[f], r, 8 - r);
      ByteBound();
      ShrBound(s[f], r, 8 - r);
    }
  }

  lemma LastByte(s: seq<nat>)
    requires s != []
    ensures Value(s) == Value(s[..|s| - 1]) * 256 + s[|s| - 1]
  {
  }

  /**
   * An IPv6 address is in a range exactly when both have the same leading bits
   * as 128-bit numbers.
   */
  lemma V6Exact(net: seq<nat>, prefix: nat, addr: seq<nat>)
    requires IsAddress(net) && IsAddress(addr) && prefix <= 128
    ensures MatchesV6(Masked(net, prefix), prefix, addr)
       <==> Leading(Value(addr), 128, prefix) == Leading(Value(net), 128, prefix)
  {
    hide Pow2, And, Mask, Value, Leading;
    var f, r := prefix / 8, prefix % 8;
    LeadingBytes(net, prefix);
    LeadingBytes(addr, prefix);
    ValueInjective(net[..f], addr[..f]);
    assert Masked(net, prefix)[..f] == net[..f];
    if r > 0 {
      ByteBound();
      MaskedIs(net[f], 8, r);
      MaskedEqual(And(net[f], Mask(8, r)), addr[f], 8, r);
      DigitsEqual(Value(net[..f]), Leading(net[f], 8, r), Value(addr[..f]), Leading(addr[f], 8, r), r);
    }
  }

  lemma ByteBound()
    ensures Pow2(8) == 256
  {
  }

  lemma DigitsEqual(a: nat, x: nat, b: nat, y: nat, r: nat)
    requires x < Pow2(r) && y < Pow2(r)
    ensures Shl(a, r) + x == Shl(b, r) + y <==> a == b && x == y
  {
    ShrShl(a, x, 0, r);
    ShrShl(b, y, 0, r);
    assert 0 + r == r && Pow2(0) == 1;
    ShrBound(x, 0, r);
    ShrBound(y, 0, r);
  }

  // ---------------------------------------------------------------------- the table

  const MAX_V4: nat := 1024
  const MAX_V6: nat := 256

  datatype RangeV6 = RangeV6(network: seq<nat>, mask: seq<nat>)

  function MaskBytes(prefix: nat): (r: seq<nat>)
    requires prefix <= 128
    ensures |r| == 16
  {
    seq(16, i requires 0 <= i < 16 =>
      if i < prefix / 8 then 255 else if i == prefix / 8 && prefix % 8 > 0 then Mask(8, prefix % 8) else 0)
  }

  function AndBytes(s: seq<nat>, t: seq<nat>): (r: seq<nat>)
    requires |s| == |t|
    ensures |r| == |s| && forall i :: 0 <= i < |s| ==> r[i] == And(s[i], t[i])
  {
    seq(|s|, i requires 0 <= i < |s| => And(s[i], t[i]))
  }

  /** cidr_table_add_v6. */
  function EntryV6(addr: seq<nat>, prefix: nat): RangeV6
    requires |addr| == 16 && prefix <= 128
  {
    RangeV6(AndBytes(addr, MaskBytes(prefix)), MaskBytes(prefix))
  }

  /** The mask bytes and the masked network, filled in byte by byte. */
  method BuildEntryV6(addr: seq<nat>, prefix: nat) returns (e: RangeV6)
    requires |addr| == 16 && prefix <= 128
    ensures e == EntryV6(addr, prefix)
  {
    hide And, Mask;
    var mask := new nat[16](_ => 0);
    var fullBytes, remBits := prefix / 8, prefix % 8;
    var i := 0;
    while i < fullBytes
      invariant 0 <= i <= fullBytes
      invariant forall j :: 0 <= j < 16 ==> mask[j] == if j < i then 255 else 0
    {
      mask[i] := 255;
      i := i + 1;
    }
    if remBits > 0 && fullBytes < 16 { mask[fullBytes] := Mask(8, remBits); }
    assert mask[..] == MaskBytes(prefix);
    var network := new nat[16](i requires 0 <= i < 16 => addr[i]);
    i := 0;
    while i < 16
      invariant 0 <= i <= 16 && mask[..] == MaskBytes(prefix)
      invariant forall j :: 0 <= j < 16 ==> network[j] == if j < i then And(addr[j], mask[j]) else addr[j]
    {
      network[i] := And(network[i], mask[i]);
      i := i + 1;
    }
    e := RangeV6(network[..], mask[..]);
  }

  /** The comparison of cidr_table_match_v6, byte by byte. */
  predicate InEntryV6(e: RangeV6, addr: seq<nat>) {
    |e.mask| == |e.network| == |addr| && AndBytes(addr, e.mask) == e.network
  }

  /** With full masks the table answers as the prefix form does. */
  lemma TableFormSame(net: seq<nat>, prefix: nat, addr: seq<nat>)
    requires IsAddress(net) && IsAddress(addr) && prefix <= 128
    ensures InEntryV6(EntryV6(Masked(net, prefix), prefix), addr) <==> MatchesV6(Masked(net, prefix), prefix, addr)
  {
    hide Pow2, And, Mask;
    var f, r := prefix / 8, prefix % 8;
    var m := Masked(net, prefix);
    ByteBound();
    AndZero();
    forall i | 0 <= i < f
      ensures And(addr[i], 255) == addr[i] && And(m[i], 255) == m[i]
    {
      AndOnes(addr[i], 8);
      AndOnes(net[i], 8);
    }
    assert forall i :: f < i < 16 ==> And(addr[i], 0) == 0 == And(m[i], 0);
    var x, y := AndBytes(addr, MaskBytes(prefix)), AndBytes(m, MaskBytes(prefix));
    assert x == y <==> forall i :: 0 <= i < 16 ==> x[i] == y[i];
    assert m[..f] == addr[..f] <==> forall i :: 0 <= i < f ==> m[..f][i] == addr[..f][i];
    assert forall i :: 0 <= i < f ==> m[..f][i] == m[i] && addr[..f][i] == addr[i];
    assert forall i :: 0 <= i < f ==> x[i] == addr[i] && y[i] == m[i];
  }

  lemma {:induction false} AndZero()
    ensures forall a: nat :: And(a, 0) == 0
  {
    forall a: nat
      ensures And(a, 0) == 0
    {
      AndNone(a);
    }
  }

  lemma {:induction false} AndNone(a: nat)
    ensures And(a, 0) == 0
    decreases a
  {
    if a > 0 { AndNone(a / 2); }
  }

  predicate AnyV4(es: seq<RangeV4>, ip: nat) { exists e :: e in es && InEntryV4(e, ip) }

  predicate AnyV6(es: seq<RangeV6>, addr: seq<nat>) { exists e :: e in es && InEntryV6(e, addr) }

  class Table {
    const v4: array<RangeV4>
    var v4Count: nat
    const v6: array<RangeV6>
    var v6Count: nat

    ghost predicate Valid()
      reads this, v6
    {
      && v4.Length == MAX_V4 && v4Count <= MAX_V4 && v6.Length == MAX_V6 && v6Count <= MAX_V6
      && forall i :: 0 <= i < v6Count ==> |v6[i].network| == 16 == |v6[i].mask|
    }

    constructor ()
      ensures Valid() && v4Count == 0 && v6Count == 0 && fresh(v4) && fresh(v6)
    {
      v4 := new RangeV4[MAX_V4](_ => RangeV4(0, 0));
      v6 := new RangeV6[MAX_V6](_ => RangeV6([], []));
      v4Count, v6Count := 0, 0;
    }

    /** cidr_table_add_v4; a full table refuses. */
    method AddV4(c: RangeV4) returns (ok: bool)
      requires Valid()
      modifies this`v4Count, v4
      ensures Valid() && ok == (old(v4Count) < MAX_V4)
      ensures v4[..v4Count] == if ok then old(v4[..v4Count]) + [EntryV4(c)] else old(v4[..v4Count])
    {
      ok := v4Count < MAX_V4;
      if ok {
        v4[v4Count] := RangeV4(And(c.network, c.mask), c.mask);
        v4Count := v4Count + 1;
      }
    }

    method AddV6(addr: seq<nat>, prefix: int) returns (ok: bool)
      requires Valid() && |addr| == 16
      modifies this`v6Count, v6
      ensures Valid() && ok == (old(v6Count) < MAX_V6 && 0 <= prefix <= 128)
      ensures v6[..v6Count] == if ok then old(v6[..v6Count]) + [EntryV6(addr, prefix)] else old(v6[..v6Count])
    {
      ok := v6Count < MAX_V6 && 0 <= prefix <= 128;
      if ok {
        var e := BuildEntryV6(addr, prefix);
        v6[v6Count] := e;
        v6Count := v6Count + 1;
      }
    }

    method MatchV4(ip: nat) returns (r: bool)
      requires Valid()
      ensures r == AnyV4(v4[..v4Count], ip)
    {
      hide And;
      var i := 0;
      while i < v4Count
        invariant 0 <= i <= v4Count && forall j :: 0 <= j < i ==> !InEntryV4(v4[j], ip)
      {
        if And(ip, v4[i].mask) == v4[i].network {
          assert v4[i] in v4[..v4Count] && InEntryV4(v4[i], ip);
          return true;
        }
        i := i + 1;
      }
      return false;
    }

    method MatchV6(addr: seq<nat>) returns (r: bool)
      requires Valid() && |addr| == 16
      ensures r == AnyV6(v6[..v6Count], addr)
    {
      hide And;
      var i := 0;
      while i < v6Count
        invariant 0 <= i <= v6Count && forall j :: 0 <= j < i ==> !InEntryV6(v6[j], addr)
      {
        var same := true;
        var b := 0;
        while b < 16 && same
          invariant 0 <= b <= 16
          invariant same <==> forall c :: 0 <= c < b ==> And(addr[c], v6[i].mask[c]) == v6[i].network[c]
        {
          same := And(addr[b], v6[i].mask[b]) == v6[i].network[b];
          b := b + 1;
        }
        SameBytes(v6[i], addr);
        if same {
          assert v6[i] in v6[..v6Count];
          return true;
        }
        i := i + 1;
      }
      return false;
    }
  }

  lemma SameBytes(e: RangeV6, addr: seq<nat>)
    requires |e.network| == |e.mask| == |addr| == 16
    ensures InEntryV6(e, addr) <==> forall c :: 0 <= c < 16 ==> And(addr[c], e.mask[c]) == e.network[c]
  {
    hide And;
  }

  /** Any reordering of the entries, such as the sort of cidr_table_finalize, changes no lookup. */
  lemma OrderIrrelevant(as4: seq<RangeV4>, bs4: seq<RangeV4>, as6: seq<RangeV6>, bs6: seq<RangeV6>, ip: nat,
      addr: seq<nat>)
    requires multiset(as4) == multiset(bs4) && multiset(as6) == multiset(bs6)
    ensures AnyV4(as4, ip) == AnyV4(bs4, ip) && AnyV6(as6, addr) == AnyV6(bs6, addr)
  {
    hide InEntryV4, InEntryV6;
    assert forall e :: e in as4 <==> e in multiset(as4);
    assert forall e :: e in bs4 <==> e in multiset(bs4);
    assert forall e :: e in as6 <==> e in multiset(as6);
    assert forall e :: e in bs6 <==> e in multiset(bs6);
  }
}
