/** The value writers of the DER encoder (`new_asn_put_int`, `_bool`,
    `_utf8string`, `_vsblstr`, `_octetstr`, `_bitstr`). Each allocates a
    fresh block for the content octets of one value and hands it back
    through `*pp_buff`, with the block's length in `*p_size`. */
module AsnPrimitives {
  import opened Common
  import opened AsnLength

  /** What `*pp_buff` holds when a writer returns. */
  datatype Buffer =
    | Untouched   // the writer left the caller's pointer alone
    | Null        // the writer stored NULL
    | Allocated(capacity: nat, stored: seq<byte>)
      // a fresh block of `capacity` octets; `stored` are the octets the
      // writer stored into it, in order, from its first octet on

  /** A writer's return code, `*pp_buff`, how far `*pp_buff` was advanced
      from the start of its block, and `*p_size`. */
  datatype PutResult = PutResult(status: Status, buffer: Buffer, cursor: nat, size: nat)

  /** The largest value `new_asn_put_int` accepts. */
  const MaxInt: nat := 0xFFFF_FFFF

  /** The number of magnitude octets `new_asn_put_int` chooses. */
  function IntOctetCount(val: nat): (k: nat)
    requires val <= MaxInt
    ensures 1 <= k <= 4
    ensures k == MinOctets(val)
  {
    if val <= 0xFF then (MinOctetsIs(val, 1); 1)
    else if val <= 0xFFFF then (MinOctetsIs(val, 2); 2)
    else if val <= 0xFF_FFFF then (MinOctetsIs(val, 3); 3)
    else (MinOctetsIs(val, 4); 4)
  }

  /** Whether bit 7 of `x` is set (`x & 0x80`). */
  predicate Bit7(x: nat) { x % 256 >= 0x80 }

  /** The content octets of the INTEGER `val` (X.690 8.3): its minimal
      big-endian magnitude, after a 0x00 octet when the top bit of the
      first magnitude octet is set, so that the value reads as positive. */
  function IntContent(val: nat): (c: seq<byte>)
    requires val <= MaxInt
  {
    var k := IntOctetCount(val);
    (if Bit7(Shifted(val, k - 1)) then [0] else []) + BigEndian(val, k)
  }

  /** A reader of INTEGER content octets (X.690 8.3.2 and 8.3.3): the octets
      must be present, must not start with nine equal sign bits, and must
      denote a value that is not negative. */
  function ReadNonNegativeInt(c: seq<byte>): (v: Option<nat>)
  {
    if |c| == 0 || c[0] >= 0x80 then None
    else if |c| > 1 && c[0] == 0 && c[1] < 0x80 then None
    else Some(BeValue(c))
  }

  lemma BeValueLeadingZero(c: seq<byte>)
    ensures BeValue([0] + c) == BeValue(c)
    decreases |c|
  {
    if c != [] {
      var d := [0] + c;
      assert d[..|d| - 1] == [0] + c[..|c| - 1];
      BeValueLeadingZero(c[..|c| - 1]);
    }
  }

  lemma {:induction false} BigEndianFirst(n: nat, k: nat)
    requires k >= 1
    ensures BigEndian(n, k)[0] == Shifted(n, k - 1) % 256
  {
    if k > 1 {
      BigEndianFirst(n / 256, k - 1);
      ShiftedOfDiv(n, k - 2);
    }
  }

  lemma {:induction false} ShiftedOfDiv(n: nat, k: nat)
    ensures Shifted(n / 256, k) == Shifted(n, k + 1)
  {
    if k > 0 { ShiftedOfDiv(n, k - 1); }
  }

  /** `Shifted(n, k)` is n divided by 256^k. */
  lemma {:induction false} ShiftedIsDiv(n: nat, k: nat)
    ensures Shifted(n, k) == n / Pow256(k)
  {
    if k > 0 {
      ShiftedIsDiv(n, k - 1);
      DivDiv(n, Pow256(k - 1));
    }
  }

  lemma DivDiv(n: nat, p: nat)
    requires p >= 1
    ensures n / p / 256 == n / (256 * p)
  {
    var q := n / p;
    var a := q / 256;
    var b := q % 256;
    var r := n % p;
    assert n == q * p + r;
    assert q == a * 256 + b;
    assert n == a * (256 * p) + (b * p + r) by {
      assert q * p == (a * 256 + b) * p;
      assert (a * 256 + b) * p == a * (256 * p) + b * p;
    }
    assert b * p + r < 256 * p by {
      assert b <= 255;
      assert b * p <= 255 * p;
    }
    DivModUnique(n, 256 * p, a, b * p + r);
  }

  /** The first magnitude octet of a minimal encoding is not zero, unless the
      value itself is zero. */
  lemma LeadingOctetNonZero(val: nat)
    requires 256 <= val <= MaxInt
    ensures Shifted(val, IntOctetCount(val) - 1) % 256 != 0
  {
    var k := IntOctetCount(val);
    ShiftedIsDiv(val, k - 1);
    var p := Pow256(k - 1);
    var q := val / p;
    assert p <= val && val < 256 * p;
    assert q >= 1 by { DivAtLeastOne(val, p); }
    assert q < 256 by { DivBelow(val, p, 256); }
  }

  lemma DivAtLeastOne(n: nat, p: nat)
    requires 1 <= p <= n
    ensures n / p >= 1
  {
    assert n == (n / p) * p + n % p;
    assert n % p < p;
    if n / p == 0 {
      assert false;
    }
  }

  lemma DivBelow(n: nat, p: nat, m: nat)
    requires p >= 1 && n < m * p
    ensures n / p < m
  {
    var q := n / p;
    assert n == q * p + n % p;
    if q >= m {
      MulMonotone(m, q, p);
      assert false;
    }
  }

  lemma MulMonotone(a: nat, b: nat, p: nat)
    requires a <= b
    ensures a * p <= b * p
  {
  }

  /** INTEGER content is a minimal two's-complement encoding of a value that
      is not negative, it reads back as `val`, and it takes one octet more
      than the magnitude exactly when the magnitude's top bit is set. */
  lemma IntContentRoundTrip(val: nat)
    requires val <= MaxInt
    ensures ReadNonNegativeInt(IntContent(val)) == Some(val)
    ensures |IntContent(val)| == MinOctets(val) + (if Bit7(Shifted(val, MinOctets(val) - 1)) then 1 else 0)
  {
    var k := IntOctetCount(val);
    var mag := BigEndian(val, k);
    var c := IntContent(val);
    assert BeValue(mag) == val by {
      BeValueBigEndian(val, k);
      SmallMod(val, Pow256(k));
    }
    assert mag[0] == Shifted(val, k - 1) % 256 by { BigEndianFirst(val, k); }
    if Bit7(Shifted(val, k - 1)) {
      assert c == [0] + mag;
      BeValueLeadingZero(mag);
    } else {
      assert c == mag;
      if k > 1 {
        LeadingOctetNonZero(val);
      }
    }
  }

  /** `new_asn_put_int`: for `val` above 0xFFFFFFFF it stores NULL and a size
      of 0 and fails with `ak_error_invalid_value`; otherwise it allocates
      exactly the INTEGER content octets of `val` and stores them, leaving
      `*pp_buff` on the last one. */
  method PutInt(val: nat) returns (r: PutResult)
    ensures val > MaxInt ==> r == PutResult(Failure(InvalidValue), Null, 0, 0)
    ensures val <= MaxInt ==>
      var c := IntContent(val);
      r == PutResult(Success, Allocated(|c|, c), |c| - 1, |c|)
  {
    if val > MaxInt {
      return PutResult(Failure(InvalidValue), Null, 0, 0);
    }
    var cnt := IntOctetCount(val);
    var highBit := Bit7(Shifted(val, cnt - 1));
    var size := if highBit then cnt + 1 else cnt;
    var prefix: seq<byte> := if highBit then [0] else [];
    var stored := prefix;
    var cursor := |prefix|;
    var k := cnt;
    while k - 1 > 0
      invariant 1 <= k <= cnt
      invariant stored == prefix + BigEndian(Shifted(val, k), cnt - k)
      invariant cursor == |stored|
    {
      k := k - 1;
      BigEndianStep(val, k, cnt - 1 - k);
      stored := stored + [Digit(val, k)];
      cursor := cursor + 1;
    }
    // the last octet is stored without advancing the pointer
    ghost var c := IntContent(val);
    assert stored + [val % 256] == c && cursor == |c| - 1 && size == |c| by {
      assert k == 1;
      IntContentLast(val, prefix, stored);
    }
    stored := stored + [val % 256];
    r := PutResult(Success, Allocated(size, stored), cursor, size);
  }

  /** The writer's octets before the last one, and the last one, make up
      the content of `val`. */
  lemma IntContentLast(val: nat, prefix: seq<byte>, stored: seq<byte>)
    requires val <= MaxInt
    requires prefix == (if Bit7(Shifted(val, IntOctetCount(val) - 1)) then [0] else [])
    requires stored == prefix + BigEndian(Shifted(val, 1), IntOctetCount(val) - 1)
    ensures stored + [val % 256] == IntContent(val)
  {
    var cnt := IntOctetCount(val);
    BigEndianStep(val, 0, cnt - 1);
    assert Shifted(val, 0) == val;
  }

  /** The INTEGER vectors of the test data: 2000 is 07 D0 and 128 needs the
      leading zero, 00 80. */
  lemma IntContentExamples()
    ensures IntContent(2000) == [0x07, 0xD0]
    ensures IntContent(128) == [0x00, 0x80]
    ensures IntContent(0) == [0x00]
    ensures IntContent(0xFFFF_FFFF) == [0x00, 0xFF, 0xFF, 0xFF, 0xFF]
  {
  }

  /** The DER reading of BOOLEAN content (X.690 11.1): 0xFF is TRUE, 0x00 is
      FALSE, anything else is not DER. */
  function ReadBool(c: seq<byte>): Option<bool> {
    if c == [0xFF] then Some(true) else if c == [0x00] then Some(false) else None
  }

  /** `new_asn_put_bool`: one octet, all ones for TRUE and zero for FALSE,
      which reads back as the value; the pointer stays on it. */
  function PutBool(val: bool): (r: PutResult)
    ensures r.status == Success && r.size == 1 && r.cursor == 0
    ensures r.buffer.Allocated? && r.buffer.capacity == 1
    ensures ReadBool(r.buffer.stored) == Some(val)
  {
    PutResult(Success, Allocated(1, [if val then 0xFF else 0x00]), 0, 1)
  }

  /** `new_asn_put_utf8string`: `strlen(str)` octets equal to the text up to
      its first NUL. The string is not checked for being NULL until `strlen`
      has already read it. */
  function PutUtf8String(str: string): (r: PutResult)
    ensures r.status == Success && r.cursor == 0 && r.size == Strlen(str)
    ensures r.buffer.Allocated? && r.buffer.capacity == r.size && |r.buffer.stored| == r.size
    ensures forall i :: 0 <= i < r.size ==> r.buffer.stored[i] == CharByte(str[i])
  {
    var n := Strlen(str);
    PutResult(Success, Allocated(n, TextBytes(str[..n])), 0, n)
  }

  /** `new_asn_put_vsblstr` does exactly what `new_asn_put_utf8string` does. */
  function PutVisibleString(str: string): (r: PutResult)
    ensures r == PutUtf8String(str)
  {
    PutUtf8String(str)
  }

  /** `new_asn_put_octetstr`: a block holding a copy of the octets, or
      `ak_error_null_pointer` for a NULL value. It never stores `*p_size`,
      so the caller's `size` comes back as it was. */
  function PutOctetString(src: Option<seq<byte>>, size: nat): (r: PutResult)
    ensures r.size == size
    ensures src.None? ==> r.status == Failure(NullPointer) && r.buffer == Untouched
    ensures src.Some? ==>
      r.status == Success && r.cursor == 0 && r.buffer == Allocated(|src.value|, src.value)
  {
    match src
    case None => PutResult(Failure(NullPointer), Untouched, 0, size)
    case Some(v) => PutResult(Success, Allocated(|v|, v), 0, size)
  }

  /** A reader of BIT STRING content (X.690 8.6.2): the initial octet gives
      the number of unused bits in the final octet, 0 to 7, and at least one
      octet of bits follows it. */
  function ReadBitString(c: seq<byte>): Option<(byte, seq<byte>)> {
    if |c| < 2 || c[0] > 7 then None else Some((c[0], c[1..]))
  }

  /** `new_asn_put_bitstr`: `ak_error_null_pointer` for NULL bits,
      `ak_error_invalid_value` for more than 7 unused bits or no bits at
      all, otherwise a block of the unused-bit count followed by the bits,
      which reads back as the pair; the pointer is left after the count. */
  function PutBitString(bits: Option<seq<byte>>, unused: byte, size: nat): (r: PutResult)
    ensures bits.None? ==> r == PutResult(Failure(NullPointer), Untouched, 0, size)
    ensures bits.Some? && (unused > 7 || |bits.value| == 0) ==>
      r == PutResult(Failure(InvalidValue), Untouched, 0, size)
    ensures r.status == Success <==> bits.Some? && unused <= 7 && |bits.value| > 0
    ensures r.status == Success ==>
      r.size == 1 + |bits.value| && r.cursor == 1 && r.buffer.Allocated?
      && r.buffer.capacity == r.size
      && ReadBitString(r.buffer.stored) == Some((unused, bits.value))
  {
    match bits
    case None => PutResult(Failure(NullPointer), Untouched, 0, size)
    case Some(v) =>
      if unused > 7 || |v| == 0 then PutResult(Failure(InvalidValue), Untouched, 0, size)
      else PutResult(Success, Allocated(1 + |v|, [unused] + v), 1, 1 + |v|)
  }

  /** The BIT STRING vector 04 FF F0: twelve bits, four unused. */
  lemma BitStringExample()
    ensures PutBitString(Some([0xFF, 0xF0]), 4, 0).buffer == Allocated(3, [0x04, 0xFF, 0xF0])
  {
  }
}
