/** The domain model of the PKCS #15 key container and the DER framing shared
    by its writer and its reader: the structures `s_pkcs_15_token`,
    `s_pkcs_15_object`, `s_key_management_info` and `s_pwd_info`, the tags
    and object identifiers the container uses, and the text conversions of
    the C strings it stores. */
module TokenModel {
  import opened Common
  import opened AsnLength
  import AsnOid

  /** The capacity `pkcs_15_generate_token` allocates for the whole token. */
  const BufferSize: nat := 2000

  const TagInteger: byte := 0x02
  const TagOctetString: byte := 0x04
  const TagOid: byte := 0x06
  const TagUtf8: byte := 0x0C
  /** `CONSTRUCTED | TSEQUENCE`. */
  const TagSequence: byte := 0x30
  /** `CONTEXT_SPECIFIC | CONSTRUCTED | n` for n = 0, 1, 2, 3 and 27. */
  const TagCtx0: byte := 0xA0
  const TagCtx1: byte := 0xA1
  const TagCtx2: byte := 0xA2
  const TagCtx3: byte := 0xA3
  const TagGostKey: byte := 0xBB

  /** PBKDF2 (PKCS #5) and the Streebog-512 HMAC of R 50.1.113. */
  const Pbkdf2Oid: string := "1.2.840.113549.1.5.12"
  const PrfOid: string := "1.2.643.7.1.1.4.2"
  /** Their X.690 encodings. */
  const Pbkdf2OidBytes: seq<byte> := [0x2A, 0x86, 0x48, 0x86, 0xF7, 0x0D, 0x01, 0x05, 0x0C]
  const PrfOidBytes: seq<byte> := [0x2A, 0x85, 0x03, 0x07, 0x01, 0x01, 0x04, 0x02]

  /** `m_type` of a PKCS #15 object: the choices PRI_KEY (0), PUB_KEY (1) and
      SEC_KEY (3) of PKCS15Objects, or any other value. */
  datatype ObjectType = PriKey | PubKey | SecKey | OtherObject(code: int)

  /** `s_pkcs_15_object`: its type and the secret key it holds (`None` is a
      NULL `mp_sec_key`). The key is carried as the content of its DER
      element; `pkcs_15_put_gost_key` and `pkcs_15_get_gost_key` are not part
      of this model. */
  datatype Pkcs15Object = Pkcs15Object(objType: ObjectType, secKey: Option<seq<byte>>)

  /** `m_type` of a key management entry: PWD_INFO (0), KEKRI (2), PWRI (3),
      or any other value. */
  datatype KmiType = PasswordInfo | Kekri | Pwri | OtherKmi(code: int)

  /** `s_pwd_info`: every pointer field may be NULL. INTEGER and OCTET STRING
      values are held as their content octets. */
  datatype PwdInfo = PwdInfo(
    algorithm: Option<string>,
    hint: Option<string>,
    salt: Option<seq<byte>>,
    iterationCount: Option<seq<byte>>,
    keyLen: Option<seq<byte>>,
    prfId: Option<string>)

  /** The `s_pwd_info` that `calloc` hands out: every field NULL. */
  const EmptyPwdInfo := PwdInfo(None, None, None, None, None, None)

  /** `s_key_management_info`. */
  datatype KeyManagementInfo = KeyManagementInfo(kmiType: KmiType, keyId: seq<byte>, pwdInfo: Option<PwdInfo>)

  /** `s_pkcs_15_token`: the version, and two pointer arrays with their
      element counts. */
  datatype Token = Token(
    version: seq<byte>,
    objSize: byte,
    objects: Option<seq<Option<Pkcs15Object>>>,
    infoSize: byte,
    keyInfos: Option<seq<Option<KeyManagementInfo>>>)

  /** The number of octets a DER element with `len` content octets occupies. */
  function FullSize(len: nat): nat { 1 + LenByteCnt(len) + len }

  /** A DER element: tag, minimal length field, content. */
  function Tlv(tag: byte, content: seq<byte>): (r: seq<byte>)
    requires |content| <= 0xFFFF_FFFF
    ensures |r| == FullSize(|content|) && |r| >= 2
    ensures r[0] == tag
  {
    [tag] + LenField(|content|) + content
  }

  /** `x` occurs in `data` at `pos`. */
  predicate Holds(data: seq<byte>, pos: nat, x: seq<byte>) {
    pos + |x| <= |data| && forall i :: 0 <= i < |x| ==> data[pos + i] == x[i]
  }

  /** The same as a slice of `data`. */
  lemma HoldsSlice(data: seq<byte>, pos: nat, x: seq<byte>)
    ensures Holds(data, pos, x) <==> pos + |x| <= |data| && data[pos..pos + |x|] == x
  {
    if pos + |x| <= |data| {
      if Holds(data, pos, x) {
        assert forall i :: 0 <= i < |x| ==> data[pos..pos + |x|][i] == x[i];
      }
      if data[pos..pos + |x|] == x {
        forall i | 0 <= i < |x| ensures data[pos + i] == x[i] {
          assert data[pos..pos + |x|][i] == x[i];
        }
      }
    }
  }

  lemma HoldsSplit(data: seq<byte>, pos: nat, x: seq<byte>, y: seq<byte>)
    requires Holds(data, pos, x + y)
    ensures Holds(data, pos, x) && Holds(data, pos + |x|, y)
  {
    forall i | 0 <= i < |x| ensures data[pos + i] == x[i] {
      assert (x + y)[i] == x[i];
    }
    forall i | 0 <= i < |y| ensures data[pos + |x| + i] == y[i] {
      assert (x + y)[|x| + i] == y[i];
    }
  }

  lemma HoldsSplit3(data: seq<byte>, pos: nat, x: seq<byte>, y: seq<byte>, z: seq<byte>)
    requires Holds(data, pos, x + y + z)
    ensures Holds(data, pos, x) && Holds(data, pos + |x|, y) && Holds(data, pos + |x| + |y|, z)
  {
    HoldsSplit(data, pos, x + y, z);
    HoldsSplit(data, pos, x, y);
  }

  /** The pieces of an element found in `data`: its tag, its length field
      read back, and its content right after the field. */
  lemma HoldsTlv(data: seq<byte>, pos: nat, tag: byte, c: seq<byte>)
    requires |c| <= 0xFFFF_FFFF
    requires Holds(data, pos, Tlv(tag, c))
    ensures pos < |data| && data[pos] == tag
    ensures ReadLen(data[pos + 1..]) == Some((|c|, LenByteCnt(|c|)))
    ensures Holds(data, pos + 1 + LenByteCnt(|c|), c)
  {
    HoldsParts(data, pos, [tag], LenField(|c|), c);
    HoldsLenField(data, pos + 1, |c|);
  }

  /** An element's pieces, as pieces of any sequence of three. */
  lemma HoldsParts(data: seq<byte>, pos: nat, t: seq<byte>, f: seq<byte>, c: seq<byte>)
    requires |t| == 1 && Holds(data, pos, t + f + c)
    ensures pos < |data| && data[pos] == t[0]
    ensures Holds(data, pos + 1, f) && Holds(data, pos + 1 + |f|, c)
  {
    HoldsSplit3(data, pos, t, f, c);
  }

  /** A length field found in `data` is read back. */
  lemma HoldsLenField(data: seq<byte>, pos: nat, len: nat)
    requires len <= 0xFFFF_FFFF && Holds(data, pos, LenField(len))
    ensures ReadLen(data[pos..]) == Some((len, LenByteCnt(len)))
  {
    HoldsRest(data, pos, LenField(len));
    LenFieldRoundTrip(len, data[pos + |LenField(len)|..]);
  }

  /** What follows `pos` starts with `x`. */
  lemma HoldsRest(data: seq<byte>, pos: nat, x: seq<byte>)
    requires Holds(data, pos, x)
    ensures pos + |x| <= |data| && data[pos..] == x + data[pos + |x|..]
  {
    HoldsSlice(data, pos, x);
    assert data[pos..] == data[pos..pos + |x|] + data[pos + |x|..];
  }

  /** `s[..strlen(s)]`: the text of a C string. */
  function CText(s: string): string { s[..Strlen(s)] }

  /** `strcmp(s, lit) == 0` for a literal without NUL. */
  predicate SameCString(s: string, lit: string) { CText(s) == lit }

  /** The octets `asn_put_universal_tlv` stores for a UTF8String. */
  function HintBytes(h: string): seq<byte> { TextBytes(CText(h)) }

  /** The C string the reader makes of UTF8String content. */
  function BytesText(b: seq<byte>): (s: string)
    ensures |s| == |b|
  {
    seq(|b|, i requires 0 <= i < |b| => b[i] as char)
  }

  /** A text whose characters are all octets. */
  predicate ByteText(s: string) {
    forall i :: 0 <= i < |s| ==> (s[i] as int) < 256
  }

  /** Octet text survives the trip through its UTF8String content. */
  lemma HintRoundTrip(h: string)
    requires ByteText(h)
    ensures BytesText(HintBytes(h)) == CText(h)
  {
    var t := CText(h);
    assert forall i :: 0 <= i < |t| ==> t[i] == h[i];
    var b := TextBytes(t);
    forall i | 0 <= i < |t| ensures BytesText(b)[i] == t[i] {
      assert b[i] == CharByte(t[i]);
      assert (h[i] as int) < 256;
    }
  }

  /** The decimal digits of n. */
  function NatText(n: nat): string {
    if n < 10 then [DigitChar(n)] else NatText(n / 10) + [DigitChar(n % 10)]
  }

  function DigitChar(d: nat): char
    requires d < 10
  {
    (48 + d) as char
  }

  function ArcsText(arcs: seq<nat>): string {
    if arcs == [] then "" else "." + NatText(arcs[0]) + ArcsText(arcs[1..])
  }

  /** The dotted decimal form of an identifier X.Y.arcs. */
  function Dotted(x: nat, y: nat, arcs: seq<nat>): string {
    NatText(x) + "." + NatText(y) + ArcsText(arcs)
  }

  /** The text the reader makes of OBJECT IDENTIFIER content: the dotted
      decimal form of its X.690 decoding, or nothing for content that is not
      an identifier. */
  function OidText(b: seq<byte>): Option<string> {
    match AsnOid.DecodeOid(b)
    case Some((x, y, arcs)) => Some(Dotted(x, y, arcs))
    case None => None
  }

  // The decimal text of the components of the two identifiers the token
  // writes, evaluated one digit at a time for the verifier.

  lemma NatTextSmall(n: nat)
    requires n < 10
    ensures NatText(n) == [DigitChar(n)]
  {
  }

  lemma NatText643()
    ensures NatText(643) == "643"
  {
    assert NatText(6) == "6";
    assert NatText(64) == "64";
  }

  lemma NatText840()
    ensures NatText(840) == "840"
  {
    assert NatText(8) == "8";
    assert NatText(84) == "84";
  }

  lemma NatText113549()
    ensures NatText(113549) == "113549"
  {
    assert NatText(1) == "1";
    assert NatText(11) == "11";
    assert NatText(113) == "113";
    assert NatText(1135) == "1135";
    assert NatText(11354) == "11354";
  }

  lemma NatText12()
    ensures NatText(12) == "12"
  {
    assert NatText(1) == "1";
  }

  lemma ArcsTextCons(a: nat, rest: seq<nat>)
    ensures ArcsText([a] + rest) == "." + NatText(a) + ArcsText(rest)
  {
    assert ([a] + rest)[1..] == rest;
  }

  lemma ArcsSmall(a: nat, rest: seq<nat>, t: string)
    requires a < 10 && ArcsText(rest) == t
    ensures ArcsText([a] + rest) == ['.', DigitChar(a)] + t
  {
    ArcsTextCons(a, rest);
  }

  lemma PrfArcsTail()
    ensures ArcsText([7, 1, 1, 4, 2]) == ".7.1.1.4.2"
  {
    ArcsSmall(2, [], "");
    ArcsSmall(4, [2], ".2");
    ArcsSmall(1, [4, 2], ".4.2");
    ArcsSmall(1, [1, 4, 2], ".1.4.2");
    ArcsSmall(7, [1, 1, 4, 2], ".1.1.4.2");
  }

  /** The dotted text of the PRF identifier's arcs. */
  lemma PrfDotted(arcs: seq<nat>)
    requires arcs == [643, 7, 1, 1, 4, 2]
    ensures Dotted(1, 2, arcs) == PrfOid
  {
    NatText643();
    PrfArcsTail();
    ArcsTextCons(643, [7, 1, 1, 4, 2]);
    PrfArcsJoin();
    DottedOneTwo(arcs, ".643.7.1.1.4.2");
    PrfOidJoin();
  }

  lemma PrfArcsJoin()
    ensures ".643" + ".7.1.1.4.2" == ".643.7.1.1.4.2"
  {
  }

  lemma PrfOidJoin()
    ensures "1.2" + ".643.7.1.1.4.2" == PrfOid
  {
  }

  /** The reader turns the stored PRF identifier back into its text. */
  lemma PrfOidText()
    ensures OidText(PrfOidBytes) == Some(PrfOid)
  {
    var arcs: seq<nat> := [643, 7, 1, 1, 4, 2];
    AsnOid.HmacOid(PrfOid, arcs);
    AsnOid.OidRoundTrip(1, 2, arcs);
    assert AsnOid.DecodeOid(PrfOidBytes) == Some((1, 2, arcs));
    PrfDotted(arcs);
  }

  lemma Pbkdf2ArcsTail()
    ensures ArcsText([1, 5, 12]) == ".1.5.12"
  {
    NatText12();
    ArcsTextCons(12, []);
    ArcsSmall(5, [12], ".12");
    ArcsSmall(1, [5, 12], ".5.12");
  }

  /** The dotted text of the PBKDF2 identifier's arcs. */
  lemma Pbkdf2Dotted(arcs: seq<nat>)
    requires arcs == [840, 113549, 1, 5, 12]
    ensures Dotted(1, 2, arcs) == Pbkdf2Oid
  {
    Pbkdf2ArcsText(arcs);
    DottedOneTwo(arcs, ".840.113549.1.5.12");
    Pbkdf2OidJoin();
  }

  lemma Pbkdf2OidJoin()
    ensures "1.2" + ".840.113549.1.5.12" == Pbkdf2Oid
  {
  }

  lemma Pbkdf2ArcsText(arcs: seq<nat>)
    requires arcs == [840, 113549, 1, 5, 12]
    ensures ArcsText(arcs) == ".840.113549.1.5.12"
  {
    NatText840();
    Pbkdf2ArcsLater();
    ArcsTextCons(840, [113549, 1, 5, 12]);
    assert ArcsText(arcs) == ".840" + ".113549.1.5.12";
  }

  lemma Pbkdf2ArcsLater()
    ensures ArcsText([113549, 1, 5, 12]) == ".113549.1.5.12"
  {
    NatText113549();
    Pbkdf2ArcsTail();
    ArcsTextCons(113549, [1, 5, 12]);
    assert ArcsText([113549, 1, 5, 12]) == ".113549" + ".1.5.12";
  }

  /** The dotted form of 1.2.arcs is "1.2" followed by the arcs' text. */
  lemma DottedOneTwo(arcs: seq<nat>, t: string)
    requires ArcsText(arcs) == t
    ensures Dotted(1, 2, arcs) == "1.2" + t
  {
    assert NatText(1) == "1" && NatText(2) == "2";
    assert "1" + "." + "2" == "1.2";
  }

  /** The reader turns the stored PBKDF2 identifier back into its text. */
  lemma Pbkdf2OidText()
    ensures OidText(Pbkdf2OidBytes) == Some(Pbkdf2Oid)
  {
    var arcs: seq<nat> := [840, 113549, 1, 5, 12];
    AsnOid.Pbkdf2Oid(Pbkdf2Oid, arcs);
    AsnOid.OidRoundTrip(1, 2, arcs);
    assert AsnOid.DecodeOid(Pbkdf2OidBytes) == Some((1, 2, arcs));
    Pbkdf2Dotted(arcs);
  }
}
