/** OBJECT IDENTIFIER writing (`new_asn_put_objid`,
    `new_asn_get_oid_byte_cnt`) and the X.690 8.19 encoding it approximates.

    The writer reads a dotted decimal string with `strtoul`/`strtol`. The
    first octet is 40 * X + Y, cut to one octet. Every later component is
    written base 128, with its 7-bit groups from the fourth down. A group
    that is zero is skipped, even an inner one, so components of 2^14 and
    above can come out wrong. */
module AsnOid {
  import opened Common
  import opened AsnPrimitives

  /** `ULONG_MAX` and `LONG_MAX` of a 64-bit platform: where `strtoul` and
      `strtol` saturate. */
  const ULongMax: nat := 0xFFFF_FFFF_FFFF_FFFF
  const LongMax: nat := 0x7FFF_FFFF_FFFF_FFFF

  function DigitValue(c: char): nat
    requires IsDigit(c)
  {
    (c as int) - ('0' as int)
  }

  /** The maximal run of decimal digits of `s` from `i`, added to `acc` as
      further decimal places: its value and the index after it. */
  function ScanDigits(s: string, i: nat, acc: nat): (nat, nat)
    decreases |s| - i
  {
    if i < |s| && IsDigit(s[i]) then ScanDigits(s, i + 1, acc * 10 + DigitValue(s[i]))
    else (acc, i)
  }

  lemma {:induction false} ScanDigitsEnd(s: string, i: nat, acc: nat)
    ensures ScanDigits(s, i, acc).1 >= i
    ensures i <= |s| ==> ScanDigits(s, i, acc).1 <= |s|
    decreases |s| - i
  {
    if i < |s| && IsDigit(s[i]) {
      ScanDigitsEnd(s, i + 1, acc * 10 + DigitValue(s[i]));
    }
  }

  /** `strtoul(s + i, &end, 10)` and `strtol(s + i, &end, 10)` on a string
      of plain digits: the value of the digit run from `i` before
      saturation, and the end index; with no digits, 0 and `i`. */
  function ParseNumber(s: string, i: nat): (r: (nat, nat))
    ensures r.1 >= i
    ensures i <= |s| ==> r.1 <= |s|
  {
    ScanDigitsEnd(s, i, 0);
    ScanDigits(s, i, 0)
  }

  /** What `strtoul` or `strtol` returns for a run `v` that may exceed `max`. */
  function Saturate(v: nat, max: nat): nat {
    if v > max then max else v
  }

  /** The components the loops of both functions read, starting at the
      character `end` where the previous number stopped: while that
      character is not NUL, skip it and read a number. */
  function LaterArcs(s: string, end: nat): seq<nat>
    requires end <= |s| + 1
    decreases |s| + 1 - end
  {
    if At(s, end) == '\0' then []
    else
      var (v, next) := ParseNumber(s, end + 1);
      [v] + LaterArcs(s, next)
  }

  /** Where the first two components end. Both functions skip the one
      character after the first number, whatever it is. */
  function SecondEnd(s: string): (e: nat)
    ensures e <= |s| + 1
  {
    var (_, e1) := ParseNumber(s, 0);
    var (_, e2) := ParseNumber(s, e1 + 1);
    e2
  }

  /** The octets `new_asn_put_objid` stores for one later component: the
      nonzero 7-bit groups 3, 2, 1 with bit 8 set, when the component is
      above 0x7F, then its low 7 bits. */
  function ArcAsWritten(num: nat): seq<byte> {
    (if num > 0x7F then GroupsAsWritten(num, 3) else []) + [num % 128]
  }

  /** The nonzero groups i, i - 1, ..., 1 of `num`, each with bit 8 set. */
  function GroupsAsWritten(num: nat, i: nat): seq<byte> {
    if i == 0 then []
    else
      var g := Group(num, i);
      (if g != 0 then [0x80 + g] else []) + GroupsAsWritten(num, i - 1)
  }

  /** `(num >> (7 * i)) & 0x7F`. */
  function Group(num: nat, i: nat): (g: nat)
    ensures g < 128
  {
    Shift7(num, i) % 128
  }

  function Shift7(num: nat, i: nat): nat {
    if i == 0 then num else Shift7(num, i - 1) / 128
  }

  function AllAsWritten(arcs: seq<nat>): seq<byte> {
    if arcs == [] then [] else ArcAsWritten(Saturate(arcs[0], ULongMax)) + AllAsWritten(arcs[1..])
  }

  /** Everything `new_asn_put_objid` stores for the string `s`. The first
      octet is (40 * X + Y) cut to 8 bits; the 64-bit wrap of the product
      does not change those bits. */
  function OidAsWritten(s: string): seq<byte> {
    var (x, e1) := ParseNumber(s, 0);
    var (y, _) := ParseNumber(s, e1 + 1);
    [(Saturate(x, ULongMax) * 40 + Saturate(y, LongMax)) % 256] + AllAsWritten(LaterArcs(s, SecondEnd(s)))
  }

  /** The octets `new_asn_get_oid_byte_cnt` counts for one later component,
      or 0 for one above 28 bits. */
  function ArcCount(num: nat): (k: nat)
    ensures k <= 4
  {
    if num <= 0x7F then 1
    else if num <= 0x3FFF then 2
    else if num <= 0x1F_FFFF then 3
    else if num <= 0x0FFF_FFFF then 4
    else 0
  }

  /** The loop of `new_asn_get_oid_byte_cnt`: an 8-bit counter that wraps,
      and 0 as soon as a component is too large. */
  function CountArcs(arcs: seq<nat>, acc: byte): byte {
    if arcs == [] then acc
    else
      var k := ArcCount(Saturate(arcs[0], LongMax));
      if k == 0 then 0 else CountArcs(arcs[1..], (acc + k) % 256)
  }

  /** `new_asn_get_oid_byte_cnt`: 0 for NULL, otherwise one octet for the
      first two components and the count of every later one. */
  function OidByteCnt(oid: Option<string>): byte {
    match oid
    case None => 0
    case Some(s) => CountArcs(LaterArcs(s, SecondEnd(s)), 1)
  }

  /** `new_asn_get_oid_byte_cnt` as the loop it is. */
  method OidByteCount(oid: Option<string>) returns (n: byte)
    ensures n == OidByteCnt(oid)
  {
    if oid.None? {
      return 0;
    }
    var s := oid.value;
    n := 1;
    var end := SecondEnd(s);
    while At(s, end) != '\0'
      invariant end <= |s| + 1
      invariant CountArcs(LaterArcs(s, end), n) == OidByteCnt(oid)
      decreases |s| + 1 - end
    {
      var num, next := ParseNumberM(s, end + 1);
      end := next;
      var sat := Saturate(num, LongMax);
      if sat <= 0x7F {
        n := (n + 1) % 256;
      } else if sat <= 0x3FFF {
        n := (n + 2) % 256;
      } else if sat <= 0x1F_FFFF {
        n := (n + 3) % 256;
      } else if sat <= 0x0FFF_FFFF {
        n := (n + 4) % 256;
      } else {
        return 0;
      }
    }
  }

  /** `strtoul`/`strtol` as a call. */
  method ParseNumberM(s: string, i: nat) returns (v: nat, end: nat)
    ensures (v, end) == ParseNumber(s, i)
  {
    v, end := 0, i;
    while end < |s| && IsDigit(s[end])
      invariant i <= end && (i <= |s| ==> end <= |s|)
      invariant ScanDigits(s, end, v) == ParseNumber(s, i)
      decreases |s| - end
    {
      v := v * 10 + DigitValue(s[end]);
      end := end + 1;
    }
  }

  /** `new_asn_put_objid`: `ak_error_null_pointer` for NULL; otherwise a
      block of `new_asn_get_oid_byte_cnt` octets into which the octets of
      `OidAsWritten` are stored, the pointer ending after the last one. When
      a component lies above 28 bits the count is 0 and the octets overrun
      the block. */
  method PutObjId(oid: Option<string>, size: nat) returns (r: PutResult)
    ensures oid.None? ==> r == PutResult(Failure(NullPointer), Untouched, 0, size)
    ensures oid.Some? ==>
      var w := OidAsWritten(oid.value);
      var n := OidByteCnt(oid);
      r == PutResult(Success, Allocated(n, w), |w|, n)
  {
    if oid.None? {
      return PutResult(Failure(NullPointer), Untouched, 0, size);
    }
    var s := oid.value;
    var capacity := OidByteCount(oid);
    var x, e1 := ParseNumberM(s, 0);
    var y, end := ParseNumberM(s, e1 + 1);
    var num := Saturate(x, ULongMax) * 40 + Saturate(y, LongMax);
    var stored: seq<byte> := [num % 256];
    OidAsWrittenStart(s, x, e1, y, end);
    while At(s, end) != '\0'
      invariant end <= |s| + 1
      invariant stored + AllAsWritten(LaterArcs(s, end)) == OidAsWritten(s)
      decreases |s| + 1 - end
    {
      var raw, next := ParseNumberM(s, end + 1);
      ArcLoopStep(s, end, stored, raw, next, OidAsWritten(s));
      end := next;
      var octets := PutArc(Saturate(raw, ULongMax));
      stored := stored + octets;
    }
    assert stored == OidAsWritten(s) by {
      assert LaterArcs(s, end) == [];
      assert stored + [] == stored;
    }
    r := PutResult(Success, Allocated(capacity, stored), |stored|, capacity);
  }

  /** What the writer stores before its component loop. */
  lemma OidAsWrittenStart(s: string, x: nat, e1: nat, y: nat, end: nat)
    requires ParseNumber(s, 0) == (x, e1) && ParseNumber(s, e1 + 1) == (y, end)
    ensures end == SecondEnd(s)
    ensures OidAsWritten(s) == [(Saturate(x, ULongMax) * 40 + Saturate(y, LongMax)) % 256] + AllAsWritten(LaterArcs(s, end))
  {
  }

  /** The invariant of the component loop carried over one component. */
  lemma ArcLoopStep(s: string, end: nat, stored: seq<byte>, raw: nat, next: nat, w: seq<byte>)
    requires end <= |s| + 1 && At(s, end) != '\0' && (raw, next) == ParseNumber(s, end + 1)
    requires stored + AllAsWritten(LaterArcs(s, end)) == w
    ensures next <= |s| + 1 && next > end
    ensures (stored + ArcAsWritten(Saturate(raw, ULongMax))) + AllAsWritten(LaterArcs(s, next)) == w
  {
    var more := LaterArcs(s, next);
    LaterArcsStep(s, end);
    ArcsCons(raw, more);
    AppendStep(stored, ArcAsWritten(Saturate(raw, ULongMax)), AllAsWritten(more), w);
  }

  lemma AppendStep(stored: seq<byte>, a: seq<byte>, rest: seq<byte>, w: seq<byte>)
    requires stored + (a + rest) == w
    ensures (stored + a) + rest == w
  {
    assert stored + (a + rest) == (stored + a) + rest;
  }

  /** The body of the loop of `new_asn_put_objid` for one component: the
      groups 3 down to 1 when it is above 0x7F, skipping zero ones, then
      the low 7 bits. */
  method PutArc(num: nat) returns (octets: seq<byte>)
    ensures octets == ArcAsWritten(num)
  {
    octets := [];
    if num > 0x7F {
      var i := 3;
      while i > 0
        invariant 0 <= i <= 3
        invariant octets + GroupsAsWritten(num, i) == GroupsAsWritten(num, 3)
      {
        var sevenBits := Group(num, i);
        GroupsInvariant(num, i, octets);
        if sevenBits != 0 {
          octets := octets + [0x80 + sevenBits];
        }
        i := i - 1;
      }
    }
    octets := octets + [num % 128];
  }

  /** The invariant of the group loop carried over group `i`. */
  lemma GroupsInvariant(num: nat, i: nat, octets: seq<byte>)
    requires i > 0 && octets + GroupsAsWritten(num, i) == GroupsAsWritten(num, 3)
    ensures var g := Group(num, i);
      (if g != 0 then octets + [0x80 + g] else octets) + GroupsAsWritten(num, i - 1) == GroupsAsWritten(num, 3)
  {
    var g := Group(num, i);
    var rest := GroupsAsWritten(num, i - 1);
    GroupsStep(num, i);
    if g != 0 {
      assert octets + ([0x80 + g] + rest) == (octets + [0x80 + g]) + rest;
    } else {
      assert GroupsAsWritten(num, i) == rest;
    }
  }

  lemma GroupsStep(num: nat, i: nat)
    requires i > 0
    ensures GroupsAsWritten(num, i)
      == (if Group(num, i) != 0 then [0x80 + Group(num, i)] else []) + GroupsAsWritten(num, i - 1)
  {
  }

  /* ---------------------------------------------------------------------
     The encoding X.690 8.19 asks for, and a reader for it.
     --------------------------------------------------------------------- */

  /** A subidentifier in base 128, most significant group first, bit 8 set
      on every octet but the last, with no leading 0x80 (X.690 8.19.2). */
  function Base128(a: nat): (s: seq<byte>)
    ensures |s| >= 1 && s[|s| - 1] < 0x80
  {
    HighGroups(a / 128) + [a % 128]
  }

  /** The groups of `q`, each with bit 8 set; none for 0. */
  function HighGroups(q: nat): (s: seq<byte>)
  {
    if q == 0 then [] else HighGroups(q / 128) + [0x80 + q % 128]
  }

  /** Every group octet has bit 8 set, and a nonzero value does not start
      with 0x80 (the minimality of X.690 8.19.2). */
  lemma {:induction false} HighGroupsShape(q: nat)
    ensures forall i :: 0 <= i < |HighGroups(q)| ==> HighGroups(q)[i] >= 0x80
    ensures q > 0 ==> |HighGroups(q)| > 0 && HighGroups(q)[0] != 0x80
  {
    if q > 0 {
      HighGroupsShape(q / 128);
      var h := HighGroups(q / 128);
      assert HighGroups(q) == h + [0x80 + q % 128];
    }
  }

  /** Reads one subidentifier: octets with bit 8 set, then one without.
      The value and the octets after it. */
  function ReadArc(s: seq<byte>, acc: nat): Option<(nat, seq<byte>)>
  {
    if s == [] then None
    else if s[0] >= 0x80 then ReadArc(s[1..], acc * 128 + (s[0] - 0x80))
    else Some((acc * 128 + s[0], s[1..]))
  }

  function Pow128(k: nat): (p: nat)
    ensures p >= 1
  {
    if k == 0 then 1 else 128 * Pow128(k - 1)
  }

  lemma {:induction false} ReadHighGroups(q: nat, t: seq<byte>, acc: nat)
    ensures ReadArc(HighGroups(q) + t, acc) == ReadArc(t, acc * Pow128(|HighGroups(q)|) + q)
  {
    if q > 0 {
      var h := HighGroups(q / 128);
      var o: byte := 0x80 + q % 128;
      var acc2 := Pow128Step(acc, |h|, q);
      assert ReadArc(HighGroups(q) + t, acc) == ReadArc([o] + t, acc2) by {
        assert HighGroups(q) == h + [o];
        assert HighGroups(q) + t == h + ([o] + t);
        ReadHighGroups(q / 128, [o] + t, acc);
      }
      assert ReadArc([o] + t, acc2) == ReadArc(t, acc * Pow128(|HighGroups(q)|) + q) by {
        assert |HighGroups(q)| == |h| + 1;
        ReadOneGroup(q % 128, t, acc2);
      }
    } else {
      assert HighGroups(q) + t == t;
    }
  }

  lemma ReadOneGroup(g: nat, t: seq<byte>, acc: nat)
    requires g < 128
    ensures ReadArc([0x80 + g] + t, acc) == ReadArc(t, acc * 128 + g)
  {
    assert ([0x80 + g] + t)[1..] == t;
  }

  /** The accumulator after `k` high groups, and its value one group later. */
  lemma Pow128Step(acc: nat, k: nat, q: nat) returns (acc2: nat)
    ensures acc2 == acc * Pow128(k) + q / 128
    ensures acc2 * 128 + q % 128 == acc * Pow128(k + 1) + q
  {
    acc2 := acc * Pow128(k) + q / 128;
    MulAdd128(acc * Pow128(k), q);
    MulShift(acc, Pow128(k));
  }

  lemma MulShift(a: nat, p: nat)
    ensures a * p * 128 == a * (128 * p)
  {
  }

  lemma MulAdd128(b: nat, q: nat)
    ensures (b + q / 128) * 128 + q % 128 == b * 128 + q
  {
  }

  /** Every subidentifier is read back from its encoding, whatever follows. */
  lemma Base128RoundTrip(a: nat, rest: seq<byte>)
    ensures ReadArc(Base128(a) + rest, 0) == Some((a, rest))
  {
    var h := HighGroups(a / 128);
    assert Base128(a) + rest == h + ([a % 128] + rest);
    ReadHighGroups(a / 128, [a % 128] + rest, 0);
    assert ([a % 128] + rest)[1..] == rest;
  }

  /** The encoding of the components after the first two. */
  function EncodeArcs(arcs: seq<nat>): seq<byte> {
    if arcs == [] then [] else Base128(arcs[0]) + EncodeArcs(arcs[1..])
  }

  /** Reads subidentifiers until the octets run out. */
  function DecodeArcs(s: seq<byte>): Option<seq<nat>>
    decreases |s|
  {
    if s == [] then Some([])
    else match ReadArcShorter(s)
      case None => None
      case Some((a, rest)) =>
        match DecodeArcs(rest)
        case None => None
        case Some(more) => Some([a] + more)
  }

  /** `ReadArc` from 0, with the fact that what is left is shorter. */
  function ReadArcShorter(s: seq<byte>): (r: Option<(nat, seq<byte>)>)
    ensures r.Some? ==> |r.value.1| < |s|
    ensures r == ReadArc(s, 0)
  {
    ReadArcRest(s, 0);
    ReadArc(s, 0)
  }

  lemma {:induction false} ReadArcRest(s: seq<byte>, acc: nat)
    ensures ReadArc(s, acc).Some? ==> |ReadArc(s, acc).value.1| < |s|
  {
    if s != [] && s[0] >= 0x80 {
      ReadArcRest(s[1..], acc);
      ReadArcRest(s[1..], acc * 128 + (s[0] - 0x80));
    }
  }

  lemma {:induction false} ArcsRoundTrip(arcs: seq<nat>)
    ensures DecodeArcs(EncodeArcs(arcs)) == Some(arcs)
  {
    if arcs != [] {
      var tail := EncodeArcs(arcs[1..]);
      Base128RoundTrip(arcs[0], tail);
      ArcsRoundTrip(arcs[1..]);
      assert [arcs[0]] + arcs[1..] == arcs;
    }
  }

  /** The encoding of X.690 8.19.4: the first two components share the
      subidentifier 40 * X + Y. X is 0, 1 or 2, and Y is below 40 unless X
      is 2. */
  function OidEncode(x: nat, y: nat, rest: seq<nat>): (s: seq<byte>)
    requires x <= 2 && (x < 2 ==> y < 40)
  {
    Base128(40 * x + y) + EncodeArcs(rest)
  }

  /** The reader of X.690 8.19.4: a first subidentifier below 80 splits as
      v / 40 and v % 40, any other one as 2 and v - 80. */
  function DecodeOid(s: seq<byte>): Option<(nat, nat, seq<nat>)> {
    match ReadArc(s, 0)
    case None => None
    case Some((v, rest)) =>
      match DecodeArcs(rest)
      case None => None
      case Some(arcs) => if v < 80 then Some((v / 40, v % 40, arcs)) else Some((2, v - 80, arcs))
  }

  /** Every object identifier is read back from its X.690 encoding. */
  lemma OidRoundTrip(x: nat, y: nat, rest: seq<nat>)
    requires x <= 2 && (x < 2 ==> y < 40)
    ensures DecodeOid(OidEncode(x, y, rest)) == Some((x, y, rest))
  {
    Base128RoundTrip(40 * x + y, EncodeArcs(rest));
    ArcsRoundTrip(rest);
  }

  /* ---------------------------------------------------------------------
     How the writer relates to X.690 and to its own byte count.
     --------------------------------------------------------------------- */

  /** Below 2^14 no inner group can be zero, so the writer and X.690 agree
      on a component. */
  lemma ArcAsWrittenIsBase128(a: nat)
    requires a < 0x4000
    ensures ArcAsWritten(a) == Base128(a)
    ensures |ArcAsWritten(a)| == ArcCount(a)
  {
    if a > 0x7F {
      TwoGroups(a);
    }
  }

  lemma TwoGroups(a: nat)
    requires 0x80 <= a < 0x4000
    ensures GroupsAsWritten(a, 3) == [0x80 + a / 128] == HighGroups(a / 128)
  {
    var q := a / 128;
    assert 1 <= q < 128;
    assert Shift7(a, 1) == q;
    assert Shift7(a, 2) == 0 by { assert Shift7(a, 2) == q / 128; }
    assert Shift7(a, 3) == 0;
    GroupsStep(a, 3);
    GroupsStep(a, 2);
    GroupsStep(a, 1);
    assert HighGroups(q) == HighGroups(0) + [0x80 + q];
  }

  /** The writer stores one octet per component group exactly as X.690 asks
      for every dotted string whose later components are below 2^14. */
  lemma {:induction false} AllAsWrittenIsEncodeArcs(arcs: seq<nat>)
    requires forall i :: 0 <= i < |arcs| ==> arcs[i] < 0x4000
    ensures AllAsWritten(arcs) == EncodeArcs(arcs)
  {
    if arcs != [] {
      ArcAsWrittenIsBase128(arcs[0]);
      AllAsWrittenIsEncodeArcs(arcs[1..]);
    }
  }

  function SumCounts(arcs: seq<nat>): nat {
    if arcs == [] then 0 else ArcCount(arcs[0]) + SumCounts(arcs[1..])
  }

  lemma {:induction false} CountArcsSum(arcs: seq<nat>, acc: byte)
    requires forall i :: 0 <= i < |arcs| ==> arcs[i] < 0x4000
    ensures CountArcs(arcs, acc) == (acc + SumCounts(arcs)) % 256
  {
    if arcs != [] {
      var k := ArcCount(arcs[0]);
      assert Saturate(arcs[0], LongMax) == arcs[0];
      assert k != 0;
      var acc' := (acc + k) % 256;
      assert CountArcs(arcs, acc) == CountArcs(arcs[1..], acc');
      CountArcsSum(arcs[1..], acc');
      ModAdd(acc + k, SumCounts(arcs[1..]));
    }
  }

  lemma ModAdd(a: nat, b: nat)
    ensures (a % 256 + b) % 256 == (a + b) % 256
  {
    var q := a / 256;
    assert a == 256 * q + a % 256;
    assert a + b == 256 * q + (a % 256 + b);
  }

  lemma {:induction false} AllAsWrittenLength(arcs: seq<nat>)
    requires forall i :: 0 <= i < |arcs| ==> arcs[i] < 0x4000
    ensures |AllAsWritten(arcs)| == SumCounts(arcs)
  {
    if arcs != [] {
      ArcAsWrittenIsBase128(arcs[0]);
      assert Saturate(arcs[0], ULongMax) == arcs[0];
      AllAsWrittenLength(arcs[1..]);
    }
  }

  /** When every later component is below 2^14 the count agrees with the
      octets the writer stores, up to the wrap of the 8-bit counter. */
  lemma OidCountMatchesWritten(s: string)
    requires forall a :: a in LaterArcs(s, SecondEnd(s)) ==> a < 0x4000
    ensures OidByteCnt(Some(s)) == |OidAsWritten(s)| % 256
  {
    var arcs := LaterArcs(s, SecondEnd(s));
    assert forall i :: 0 <= i < |arcs| ==> arcs[i] < 0x4000 by {
      forall i | 0 <= i < |arcs| ensures arcs[i] < 0x4000 {
        assert arcs[i] in arcs;
      }
    }
    CountArcsSum(arcs, 1);
    AllAsWrittenLength(arcs);
  }

  /** A component above 28 bits makes the count 0 (and the block empty). */
  lemma {:induction false} CountZeroForLargeArc(arcs: seq<nat>, acc: byte, j: nat)
    requires j < |arcs| && arcs[j] > 0x0FFF_FFFF
    ensures CountArcs(arcs, acc) == 0
  {
    var k := ArcCount(Saturate(arcs[0], LongMax));
    if j > 0 && k != 0 {
      CountZeroForLargeArc(arcs[1..], (acc + k) % 256, j - 1);
    }
  }

  /** The writer's first octet is the X.690 first subidentifier whenever
      that fits in 7 bits, as for the identifiers the writer's own comment
      admits (X of 1 or 2, Y up to 32). */
  lemma FirstOctetIsBase128(x: nat, y: nat)
    requires 40 * x + y < 128
    ensures [(x * 40 + y) % 256] == Base128(40 * x + y)
  {
  }

  /** A component of 15 to 21 bits: its top group, its middle group unless
      that is zero, then its low group. */
  lemma ArcOfThreeGroups(a: nat)
    requires 0x4000 <= a < 0x20_0000
    ensures var mid := (a / 128) % 128;
      ArcAsWritten(a) == [0x80 + a / 0x4000] + (if mid != 0 then [0x80 + mid] else []) + [a % 128]
  {
    var q := a / 128;
    assert 128 <= q < 0x4000;
    assert q / 128 == a / 0x4000;
    assert 1 <= q / 128 < 128;
    assert Shift7(a, 1) == q;
    assert Shift7(a, 2) == q / 128;
    assert Shift7(a, 3) == 0;
    GroupsStep(a, 3);
    GroupsStep(a, 2);
    GroupsStep(a, 1);
  }

  lemma ArcsCons(a: nat, rest: seq<nat>)
    ensures AllAsWritten([a] + rest) == ArcAsWritten(Saturate(a, ULongMax)) + AllAsWritten(rest)
    ensures EncodeArcs([a] + rest) == Base128(a) + EncodeArcs(rest)
  {
    assert ([a] + rest)[1..] == rest;
  }

  /** Components below 0x80 are one octet each, in both encodings. */
  lemma {:induction false} SmallArcs(arcs: seq<nat>)
    requires forall i :: 0 <= i < |arcs| ==> arcs[i] < 0x80
    ensures AllAsWritten(arcs) == arcs && EncodeArcs(arcs) == arcs
  {
    if arcs != [] {
      SmallArcs(arcs[1..]);
      ArcsCons(arcs[0], arcs[1..]);
      assert [arcs[0]] + arcs[1..] == arcs;
    }
  }

  /** One turn of the component loop. */
  lemma LaterArcsStep(s: string, end: nat)
    requires end < |s| && s[end] != '\0'
    ensures LaterArcs(s, end) == [ParseNumber(s, end + 1).0] + LaterArcs(s, ParseNumber(s, end + 1).1)
  {
  }

  lemma LaterArcsDone(s: string)
    ensures LaterArcs(s, |s|) == []
  {
  }

  /** The first octet and the later components of a dotted string. */
  lemma OidAsWrittenIs(s: string, x: nat, y: nat, arcs: seq<nat>, tail: seq<byte>)
    requires ParseNumber(s, 0) == (x, 1) && ParseNumber(s, 2).0 == y && SecondEnd(s) == 3
    requires x <= 2 && y < 40
    requires LaterArcs(s, 3) == arcs && AllAsWritten(arcs) == tail
    ensures OidAsWritten(s) == [40 * x + y] + tail
  {
  }

  // The two identifiers the token writes, 1.2.643.7.1.1.4.2 and
  // 1.2.840.113549.1.5.12, evaluated step by step: the digit runs of their
  // text, then their components and octets. The verifier does not unfold
  // these literal computations far enough on its own.

  lemma HmacDigits1()
    ensures ScanDigits("1.2.643.7.1.1.4.2", 0, 0) == (1, 1)
    ensures ScanDigits("1.2.643.7.1.1.4.2", 2, 0) == (2, 3)
    ensures ScanDigits("1.2.643.7.1.1.4.2", 4, 0) == (643, 7)
  {
  }

  lemma HmacDigits2()
    ensures ScanDigits("1.2.643.7.1.1.4.2", 8, 0) == (7, 9)
    ensures ScanDigits("1.2.643.7.1.1.4.2", 10, 0) == (1, 11)
    ensures ScanDigits("1.2.643.7.1.1.4.2", 12, 0) == (1, 13)
  {
  }

  lemma HmacDigits3()
    ensures ScanDigits("1.2.643.7.1.1.4.2", 14, 0) == (4, 15)
    ensures ScanDigits("1.2.643.7.1.1.4.2", 16, 0) == (2, 17)
  {
  }

  lemma HmacArcs(s: string)
    requires s == "1.2.643.7.1.1.4.2"
    ensures ParseNumber(s, 0) == (1, 1) && ParseNumber(s, 2).0 == 2 && SecondEnd(s) == 3
    ensures LaterArcs(s, 3) == [643, 7, 1, 1, 4, 2]
  {
    HmacDigits1();
    HmacDigits2();
    HmacDigits3();
    LaterArcsStep(s, 3);
    LaterArcsStep(s, 7);
    LaterArcsStep(s, 9);
    LaterArcsStep(s, 11);
    LaterArcsStep(s, 13);
    LaterArcsStep(s, 15);
    LaterArcsDone(s);
  }

  /** The later components of the HMAC identifier, 643.7.1.1.4.2, are
      stored as X.690 encodes them. */
  lemma HmacOctets(later: seq<nat>)
    requires later == [643, 7, 1, 1, 4, 2]
    ensures AllAsWritten(later) == [0x85, 0x03, 0x07, 0x01, 0x01, 0x04, 0x02]
    ensures EncodeArcs(later) == [0x85, 0x03, 0x07, 0x01, 0x01, 0x04, 0x02]
  {
    ArcAsWrittenIsBase128(643);
    assert Base128(643) == [0x85, 0x03];
    var tail := later[1..];
    assert tail == [7, 1, 1, 4, 2];
    SmallArcs(tail);
    ArcsCons(643, tail);
    assert later == [643] + tail;
  }

  /** The HMAC identifier of R 50.1.113 (1.2.643.7.1.1.4.2), one of the
      identifiers of the test data, is stored as its X.690 encoding. */
  lemma HmacOid(s: string, arcs: seq<nat>)
    requires s == "1.2.643.7.1.1.4.2" && arcs == [643, 7, 1, 1, 4, 2]
    ensures OidAsWritten(s) == [0x2A, 0x85, 0x03, 0x07, 0x01, 0x01, 0x04, 0x02]
    ensures OidEncode(1, 2, arcs) == OidAsWritten(s)
  {
    HmacArcs(s);
    HmacOctets(arcs);
    OidAsWrittenIs(s, 1, 2, arcs, AllAsWritten(arcs));
    assert Base128(42) == [0x2A];
  }

  lemma Pbkdf2Digits1()
    ensures ScanDigits("1.2.840.113549.1.5.12", 0, 0) == (1, 1)
    ensures ScanDigits("1.2.840.113549.1.5.12", 2, 0) == (2, 3)
    ensures ScanDigits("1.2.840.113549.1.5.12", 4, 0) == (840, 7)
  {
  }

  lemma Pbkdf2Digits2()
    ensures ScanDigits("1.2.840.113549.1.5.12", 8, 0) == (113549, 14)
  {
    Pbkdf2Digits2Tail();
  }

  lemma Pbkdf2Digits2Tail()
    ensures ScanDigits("1.2.840.113549.1.5.12", 11, 113) == (113549, 14)
  {
  }

  lemma Pbkdf2Digits3()
    ensures ScanDigits("1.2.840.113549.1.5.12", 15, 0) == (1, 16)
    ensures ScanDigits("1.2.840.113549.1.5.12", 17, 0) == (5, 18)
    ensures ScanDigits("1.2.840.113549.1.5.12", 19, 0) == (12, 21)
  {
  }

  lemma Pbkdf2Arcs(s: string)
    requires s == "1.2.840.113549.1.5.12"
    ensures ParseNumber(s, 0) == (1, 1) && ParseNumber(s, 2).0 == 2 && SecondEnd(s) == 3
    ensures LaterArcs(s, 3) == [840, 113549, 1, 5, 12]
  {
    Pbkdf2Digits1();
    Pbkdf2Digits2();
    Pbkdf2Digits3();
    LaterArcsStep(s, 3);
    LaterArcsStep(s, 7);
    LaterArcsStep(s, 14);
    LaterArcsStep(s, 16);
    LaterArcsStep(s, 18);
    LaterArcsDone(s);
  }

  lemma Arc840()
    ensures ArcAsWritten(840) == [0x86, 0x48] && Base128(840) == [0x86, 0x48]
  {
    ArcAsWrittenIsBase128(840);
  }

  lemma Arc113549()
    ensures ArcAsWritten(113549) == [0x86, 0xF7, 0x0D] && Base128(113549) == [0x86, 0xF7, 0x0D]
  {
    ArcOfThreeGroups(113549);
    assert HighGroups(887) == HighGroups(6) + [0xF7];
  }

  lemma Pbkdf2Octets(later: seq<nat>)
    requires later == [840, 113549, 1, 5, 12]
    ensures AllAsWritten(later) == [0x86, 0x48, 0x86, 0xF7, 0x0D, 0x01, 0x05, 0x0C]
    ensures EncodeArcs(later) == [0x86, 0x48, 0x86, 0xF7, 0x0D, 0x01, 0x05, 0x0C]
  {
    var tail := later[2..];
    var mid := later[1..];
    assert tail == [1, 5, 12];
    assert mid == [113549] + tail;
    assert later == [840] + mid;
    SmallArcs(tail);
    Pbkdf2Written(later, mid, tail);
    Pbkdf2Encoded(later, mid, tail);
  }

  lemma Pbkdf2Written(later: seq<nat>, mid: seq<nat>, tail: seq<nat>)
    requires later == [840] + mid && mid == [113549] + tail && tail == [1, 5, 12]
    requires AllAsWritten(tail) == tail
    ensures AllAsWritten(later) == [0x86, 0x48, 0x86, 0xF7, 0x0D, 0x01, 0x05, 0x0C]
  {
    Written113549(tail, AllAsWritten(tail));
    Written840(mid, AllAsWritten(mid));
  }

  lemma Written113549(tail: seq<nat>, m: seq<byte>)
    requires AllAsWritten(tail) == m
    ensures AllAsWritten([113549] + tail) == [0x86, 0xF7, 0x0D] + m
  {
    Arc113549();
    ArcsCons(113549, tail);
  }

  lemma Written840(mid: seq<nat>, m: seq<byte>)
    requires AllAsWritten(mid) == m
    ensures AllAsWritten([840] + mid) == [0x86, 0x48] + m
  {
    Arc840();
    ArcsCons(840, mid);
  }

  lemma Pbkdf2Encoded(later: seq<nat>, mid: seq<nat>, tail: seq<nat>)
    requires later == [840] + mid && mid == [113549] + tail && tail == [1, 5, 12]
    requires EncodeArcs(tail) == tail
    ensures EncodeArcs(later) == [0x86, 0x48, 0x86, 0xF7, 0x0D, 0x01, 0x05, 0x0C]
  {
    Encoded113549(tail, EncodeArcs(tail));
    Encoded840(mid, EncodeArcs(mid));
  }

  lemma Encoded113549(tail: seq<nat>, m: seq<byte>)
    requires EncodeArcs(tail) == m
    ensures EncodeArcs([113549] + tail) == [0x86, 0xF7, 0x0D] + m
  {
    Arc113549();
    ArcsCons(113549, tail);
  }

  lemma Encoded840(mid: seq<nat>, m: seq<byte>)
    requires EncodeArcs(mid) == m
    ensures EncodeArcs([840] + mid) == [0x86, 0x48] + m
  {
    Arc840();
    ArcsCons(840, mid);
  }

  /** The PBKDF2 identifier of PKCS #5 (1.2.840.113549.1.5.12) is stored as
      its X.690 encoding. */
  lemma Pbkdf2Oid(s: string, arcs: seq<nat>)
    requires s == "1.2.840.113549.1.5.12" && arcs == [840, 113549, 1, 5, 12]
    ensures OidAsWritten(s) == [0x2A, 0x86, 0x48, 0x86, 0xF7, 0x0D, 0x01, 0x05, 0x0C]
    ensures OidEncode(1, 2, arcs) == OidAsWritten(s)
  {
    Pbkdf2Arcs(s);
    Pbkdf2Octets(arcs);
    Pbkdf2OidFrom(s, arcs);
  }

  lemma Pbkdf2OidFrom(s: string, arcs: seq<nat>)
    requires ParseNumber(s, 0) == (1, 1) && ParseNumber(s, 2).0 == 2 && SecondEnd(s) == 3
    requires LaterArcs(s, 3) == arcs
    requires AllAsWritten(arcs) == [0x86, 0x48, 0x86, 0xF7, 0x0D, 0x01, 0x05, 0x0C]
    requires EncodeArcs(arcs) == [0x86, 0x48, 0x86, 0xF7, 0x0D, 0x01, 0x05, 0x0C]
    ensures OidAsWritten(s) == [0x2A, 0x86, 0x48, 0x86, 0xF7, 0x0D, 0x01, 0x05, 0x0C]
    ensures OidEncode(1, 2, arcs) == OidAsWritten(s)
  {
    Pbkdf2First(s, arcs, AllAsWritten(arcs));
    Pbkdf2Encode(arcs, EncodeArcs(arcs));
    Pbkdf2Prefix([0x86, 0x48, 0x86, 0xF7, 0x0D, 0x01, 0x05, 0x0C]);
  }

  lemma Pbkdf2Prefix(tail: seq<byte>)
    requires tail == [0x86, 0x48, 0x86, 0xF7, 0x0D, 0x01, 0x05, 0x0C]
    ensures [0x2A] + tail == [0x2A, 0x86, 0x48, 0x86, 0xF7, 0x0D, 0x01, 0x05, 0x0C]
  {
  }

  lemma Pbkdf2Encode(arcs: seq<nat>, e: seq<byte>)
    requires EncodeArcs(arcs) == e
    ensures OidEncode(1, 2, arcs) == [0x2A] + e
  {
    assert Base128(42) == [0x2A];
  }

  lemma Pbkdf2First(s: string, arcs: seq<nat>, tail: seq<byte>)
    requires ParseNumber(s, 0) == (1, 1) && ParseNumber(s, 2).0 == 2 && SecondEnd(s) == 3
    requires LaterArcs(s, 3) == arcs && AllAsWritten(arcs) == tail
    ensures OidAsWritten(s) == [0x2A] + tail
  {
    OidAsWrittenIs(s, 1, 2, arcs, tail);
  }

  lemma ZeroGroupDigits()
    ensures ScanDigits("1.2.16384", 0, 0) == (1, 1)
    ensures ScanDigits("1.2.16384", 2, 0) == (2, 3)
    ensures ScanDigits("1.2.16384", 4, 0) == (16384, 9)
  {
  }

  /** An inner zero group is dropped: 1.2.16384 is stored as 2A 81 00, which
      reads back as 1.2.128, where X.690 asks for 2A 81 80 00. */
  lemma Arc16384()
    ensures ArcAsWritten(16384) == [0x81, 0x00] && Base128(16384) == [0x81, 0x80, 0x00]
  {
    ArcOfThreeGroups(16384);
    assert HighGroups(128) == HighGroups(1) + [0x80];
  }

  lemma ZeroGroupWritten(s: string, written: seq<byte>)
    requires s == "1.2.16384" && written == [0x2A, 0x81, 0x00]
    ensures OidAsWritten(s) == written
  {
    ZeroGroupDigits();
    LaterArcsStep(s, 3);
    LaterArcsDone(s);
    Arc16384();
    ArcsCons(16384, []);
    OidAsWrittenIs(s, 1, 2, [16384], [0x81, 0x00]);
  }

  lemma ZeroGroupEncoded(arcs: seq<nat>)
    requires arcs == [16384]
    ensures OidEncode(1, 2, arcs) == [0x2A, 0x81, 0x80, 0x00]
  {
    Arc16384();
    ArcsCons(16384, []);
    assert EncodeArcs(arcs) == [0x81, 0x80, 0x00];
    assert Base128(42) == [0x2A];
  }

  lemma ZeroGroupMisread(written: seq<byte>)
    requires written == [0x2A, 0x81, 0x00]
    ensures DecodeOid(written) == Some((1, 2, [128]))
  {
    assert ReadArc(written, 0) == Some((42, [0x81, 0x00]));
    var tail: seq<byte> := written[1..];
    assert ReadArcShorter(tail) == Some((128, []));
    var none: seq<nat> := [];
    assert DecodeArcs([]) == Some(none);
    assert [128] + none == [128];
    assert DecodeArcs(tail) == Some([128]);
  }
}
