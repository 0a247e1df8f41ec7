/** Tag and length framing of the DER writer (`new_asn_put_tag`,
    `new_asn_put_len`, `new_asn_get_len_byte_cnt`): the short form of
    X.690 8.1.3.4, the long form of X.690 8.1.3.5, and DER's minimal length
    encoding (X.690 10.1). */
module AsnLength {
  import opened Common

  /** 256 to the power k. */
  function Pow256(k: nat): (p: nat)
    ensures p >= 1
  {
    if k == 0 then 1 else 256 * Pow256(k - 1)
  }

  lemma {:induction false} Pow256Monotone(j: nat, k: nat)
    requires j <= k
    ensures Pow256(j) <= Pow256(k)
  {
    if j < k { Pow256Monotone(j, k - 1); }
  }

  /** The least number of base-256 digits that hold n (at least one). */
  function MinOctets(n: nat): (k: nat)
    ensures k >= 1
    ensures n < Pow256(k)
    ensures k > 1 ==> Pow256(k - 1) <= n
  {
    if n < 256 then 1 else 1 + MinOctets(n / 256)
  }

  /** The digit count is determined by the range n falls in. */
  lemma MinOctetsIs(n: nat, k: nat)
    requires k >= 1 && n < Pow256(k)
    requires k > 1 ==> Pow256(k - 1) <= n
    ensures MinOctets(n) == k
  {
    var m := MinOctets(n);
    if m < k {
      Pow256Monotone(m, k - 1);
    } else if m > k {
      Pow256Monotone(k, m - 1);
    }
  }

  /** `new_asn_get_len_byte_cnt`: the number of octets the length `len`
      occupies: one in the short form, otherwise one initial octet plus the
      minimal number of octets of `len`; 0 when `len` needs more than four. */
  function LenByteCnt(len: nat): (r: nat)
    ensures r <= 5
    ensures r == 0 <==> len > 0xFFFF_FFFF
    ensures r == 1 <==> len < 0x80
  {
    if len < 0x80 then 1
    else if len <= 0xFF then 2
    else if len <= 0xFFFF then 3
    else if len <= 0xFF_FFFF then 4
    else if len <= 0xFFFF_FFFF then 5
    else 0
  }

  /** The long form uses the minimal number of length octets (X.690
      10.1): one initial octet and the fewest base-256 digits of the
      length. */
  lemma LenByteCntMinimal(len: nat)
    requires LenByteCnt(len) >= 2
    ensures LenByteCnt(len) == 1 + MinOctets(len)
  {
    if len <= 0xFF { MinOctetsIs(len, 1); }
    else if len <= 0xFFFF { MinOctetsIs(len, 2); }
    else if len <= 0xFF_FFFF { MinOctetsIs(len, 3); }
    else { MinOctetsIs(len, 4); }
  }

  /** The k low-order base-256 digits of n, most significant first. */
  function BigEndian(n: nat, k: nat): (s: seq<byte>)
    ensures |s| == k
  {
    if k == 0 then [] else BigEndian(n / 256, k - 1) + [n % 256]
  }

  /** The number a sequence of base-256 digits denotes, most significant first. */
  function BeValue(s: seq<byte>): (v: nat)
    ensures v < Pow256(|s|)
  {
    if s == [] then 0 else BeValue(s[..|s| - 1]) * 256 + s[|s| - 1]
  }

  /** Reading the k digits back gives n modulo 256^k, so n itself when it fits. */
  lemma {:induction false} BeValueBigEndian(n: nat, k: nat)
    ensures BeValue(BigEndian(n, k)) == n % Pow256(k)
  {
    if k > 0 {
      var s := BigEndian(n, k);
      assert s[..|s| - 1] == BigEndian(n / 256, k - 1);
      BeValueBigEndian(n / 256, k - 1);
      ModOfDiv(n, Pow256(k - 1));
    }
  }

  /** Quotient and remainder are determined by any decomposition n == a*m + b
      with 0 <= b < m. */
  lemma DivModUnique(n: int, m: int, a: int, b: int)
    requires m >= 1 && 0 <= b < m && n == a * m + b
    ensures n / m == a && n % m == b
  {
    var q, r := n / m, n % m;
    assert n == q * m + r;
    assert (a - q) * m == r - b;
    if a > q {
      MulAtLeast(a - q, m);
      assert false;
    }
    if a < q {
      MulAtLeast(q - a, m);
      assert false;
    }
  }

  lemma MulAtLeast(x: int, m: int)
    requires x >= 1 && m >= 1
    ensures x * m >= m
  {
  }

  lemma ModOfDiv(n: nat, p: nat)
    requires p >= 1
    ensures (n / 256) % p * 256 + n % 256 == n % (256 * p)
  {
    var q := n / 256;
    var r := n % 256;
    var a := q / p;
    var b := q % p;
    assert n == q * 256 + r;
    assert q == a * p + b;
    assert n == a * (256 * p) + (b * 256 + r) by {
      assert q * 256 == (a * p + b) * 256;
      assert (a * p + b) * 256 == a * (256 * p) + b * 256;
    }
    assert b * 256 + r < 256 * p by {
      assert b <= p - 1;
      assert b * 256 <= (p - 1) * 256;
    }
    DivModUnique(n, 256 * p, a, b * 256 + r);
  }

  /** The octets `new_asn_put_len` writes for `len` when told to use `cnt`
      octets: the single octet `len` (truncated to a byte) in the short
      form, otherwise `0x80 | (cnt - 1)` and the cnt - 1 low-order octets of
      `len`, most significant first. */
  function LenOctets(len: nat, cnt: nat): (s: seq<byte>)
    requires 1 <= cnt <= 128
    ensures |s| == cnt
  {
    if cnt == 1 then [len % 256] else [0x80 + (cnt - 1)] + BigEndian(len, cnt - 1)
  }

  /** The DER length field of `len`: `LenOctets` with the count
      `new_asn_get_len_byte_cnt` gives. */
  function LenField(len: nat): (s: seq<byte>)
    requires len <= 0xFFFF_FFFF
    ensures |s| == LenByteCnt(len)
  {
    LenOctets(len, LenByteCnt(len))
  }

  /** A reader of definite-length fields (X.690 8.1.3): the short form, or
      0x81..0x84 followed by that many octets. It yields the length and the
      number of octets the field occupies. */
  function ReadLen(s: seq<byte>): (r: Option<(nat, nat)>)
    ensures r.Some? ==> 1 <= r.value.1 <= 5 && r.value.1 <= |s|
  {
    if |s| == 0 then None
    else if s[0] < 0x80 then Some((s[0], 1))
    else if s[0] == 0x80 || s[0] > 0x84 || |s| < 1 + (s[0] - 0x80) then None
    else Some((BeValue(s[1..1 + (s[0] - 0x80)]), 1 + (s[0] - 0x80)))
  }

  /** Every length up to 0xFFFFFFFF is read back from its DER field, whatever
      follows it. */
  lemma LenFieldRoundTrip(len: nat, rest: seq<byte>)
    requires len <= 0xFFFF_FFFF
    ensures ReadLen(LenField(len) + rest) == Some((len, LenByteCnt(len)))
  {
    var cnt := LenByteCnt(len);
    var f := LenOctets(len, cnt);
    assert LenField(len) == f;
    var s := f + rest;
    if cnt > 1 {
      LenByteCntMinimal(len);
      var m := MinOctets(len);
      assert cnt - 1 == m && len < Pow256(m);
      assert f == [0x80 + (cnt - 1)] + BigEndian(len, cnt - 1);
      assert s[1..cnt] == BigEndian(len, cnt - 1);
      ReadLenLong(s, cnt);
      BeValueBigEndian(len, cnt - 1);
      SmallMod(len, Pow256(m));
    }
  }

  lemma SmallMod(n: nat, p: nat)
    requires n < p
    ensures n % p == n
  {
  }

  lemma ReadLenLong(s: seq<byte>, cnt: nat)
    requires 2 <= cnt <= 5 && cnt <= |s| && s[0] == 0x80 + (cnt - 1)
    ensures ReadLen(s) == Some((BeValue(s[1..cnt]), cnt))
  {
  }

  /** `new_asn_put_tag`: stores the tag at the write position and advances it. */
  method PutTag(t: byte, buf: array<byte>, pos: nat) returns (next: nat)
    requires pos < buf.Length
    modifies buf
    ensures next == pos + 1
    ensures buf[..] == old(buf[..])[pos := t]
  {
    buf[pos] := t;
    next := pos + 1;
  }

  /** `new_asn_put_len`: writes `LenOctets(len, cnt)` at the write position
      and advances it by `cnt`; nothing else in the buffer changes. The
      count is the caller's; the source never checks it (a count of 0 would
      run its loop through the whole address range, and a count above 9
      would shift a 64-bit length by its width or more). */
  method PutLen(len: nat, cnt: nat, buf: array<byte>, pos: nat) returns (next: nat)
    requires 1 <= cnt <= 9
    requires pos + cnt <= buf.Length
    modifies buf
    ensures next == pos + cnt
    ensures buf[pos..next] == LenOctets(len, cnt)
    ensures buf[..pos] == old(buf[..pos]) && buf[next..] == old(buf[next..])
  {
    if cnt == 1 {
      buf[pos] := len % 256;
      next := pos + 1;
    } else {
      var k := cnt - 1;
      buf[pos] := 0x80 + k;
      next := pos + 1;
      while k != 0
        invariant 0 <= k <= cnt - 1
        invariant next == pos + cnt - k
        invariant buf[pos] == 0x80 + (cnt - 1)
        invariant buf[pos + 1..next] == BigEndian(Shifted(len, k), cnt - 1 - k)
        invariant buf[..pos] == old(buf[..pos]) && buf[pos + cnt..] == old(buf[pos + cnt..])
      {
        ghost var done := buf[pos + 1..next];
        k := k - 1;
        var digit := Digit(len, k);
        buf[next] := digit;
        assert buf[pos + 1..next + 1] == done + [digit];
        next := next + 1;
        BigEndianStep(len, k, cnt - 2 - k);
      }
      assert buf[pos..next] == [buf[pos]] + buf[pos + 1..next];
    }
  }

  /** `len >> (8 * k)`. */
  function Shifted(len: nat, k: nat): nat {
    if k == 0 then len else Shifted(len, k - 1) / 256
  }

  /** `(len >> (8 * k)) & 0xFF`. */
  function Digit(len: nat, k: nat): byte { Shifted(len, k) % 256 }

  lemma BigEndianStep(len: nat, k: nat, j: nat)
    ensures BigEndian(Shifted(len, k), j + 1) == BigEndian(Shifted(len, k + 1), j) + [Digit(len, k)]
  {
  }

  /** The unit vectors of the test harness and the boundary cases of
      X.690 8.1.3: one octet up to 127, then 0x81 for one more octet, 0x82
      for two; a length past four octets has no field. */
  lemma LenFieldExamples()
    ensures LenField(0) == [0x00] && LenField(1) == [0x01] && LenField(127) == [0x7F]
    ensures LenField(128) == [0x81, 0x80] && LenField(0x86) == [0x81, 0x86]
    ensures LenField(255) == [0x81, 0xFF] && LenField(256) == [0x82, 0x01, 0x00]
    ensures LenField(825) == [0x82, 0x03, 0x39]
    ensures LenByteCnt(0x1_0000_0000) == 0
  {
  }
}
