/** The DER layouts of the token's elements, as values: the content of each
    field, and the octets, if any, that are left inside an element after its
    last field (its tail). `pkcs_15_generate_token` produces these layouts
    with empty tails; `pkcs_15_parse_token` and its helpers are specified
    against them. Each content is written as its first element followed by
    the rest, and lists in the order they are read.

    Every primitive content is bounded by `LeafMax` and every list by 255
    entries, which keeps every element within the four-octet lengths the
    reader accepts. */
module TokenLayout {
  import opened Common
  import opened AsnLength
  import opened TokenModel

  /** The longest content of a primitive element of a layout. */
  const LeafMax: nat := 0xFFFF

  predicate Leaf(s: seq<byte>) { |s| <= LeafMax }

  /** An optional primitive element: no octets when it is absent. */
  function OptTlv(tag: byte, v: Option<seq<byte>>): (r: seq<byte>)
    requires v.Some? ==> Leaf(v.value)
    ensures |r| <= 0x1_0010
    ensures v.None? <==> r == []
  {
    if v.Some? then Tlv(tag, v.value) else []
  }

  /** The error every leftover check of the reader returns, or the value
      read and where the reader is left. */
  function Outcome<T, W>(padded: bool, v: T, next: W): (r: Result<(T, W)>)
    ensures padded <==> r == Err(InvalidToken)
    ensures !padded ==> r == Ok((v, next))
  {
    if padded then Err(InvalidToken) else Ok((v, next))
  }

  /** Every entry present. */
  function AllSome<T>(s: seq<T>): (r: seq<Option<T>>)
    ensures |r| == |s| && forall i :: 0 <= i < |s| ==> r[i] == Some(s[i])
  {
    seq(|s|, i requires 0 <= i < |s| => Some(s[i]))
  }

  // ---------------------------------------------------------------------
  // PBKDF2-params
  // ---------------------------------------------------------------------

  /** PBKDF2-params (RFC 8018, appendix A.2): salt, iterationCount, an
      optional keyLength and the prf AlgorithmIdentifier holding only its
      OBJECT IDENTIFIER, with the tails of the prf element and of the
      whole. */
  datatype ParamsDer = ParamsDer(
    salt: seq<byte>, iterations: seq<byte>, keyLen: Option<seq<byte>>,
    prf: seq<byte>, prfTail: seq<byte>, tail: seq<byte>)

  predicate ParamsFit(x: ParamsDer) {
    Leaf(x.salt) && Leaf(x.iterations) && (x.keyLen.Some? ==> Leaf(x.keyLen.value)) &&
    Leaf(x.prf) && OidText(x.prf).Some? && Leaf(x.prfTail) && Leaf(x.tail)
  }

  function PrfElem(x: ParamsDer): (r: seq<byte>)
    requires ParamsFit(x)
    ensures 2 <= |r| <= 0x2_0100 && r[0] == TagSequence
  {
    Tlv(TagSequence, Tlv(TagOid, x.prf) + x.prfTail)
  }

  function ParamsContent(x: ParamsDer): (r: seq<byte>)
    requires ParamsFit(x)
    ensures |r| <= 0x6_0100
  {
    Tlv(TagOctetString, x.salt) + (Tlv(TagInteger, x.iterations) + (OptTlv(TagInteger, x.keyLen) + (PrfElem(x) + x.tail)))
  }

  function ParamsBytes(x: ParamsDer): (r: seq<byte>)
    requires ParamsFit(x)
    ensures 2 <= |r| <= 0x6_1000 && r[0] == TagSequence
  {
    Tlv(TagSequence, ParamsContent(x))
  }

  predicate ParamsPadded(x: ParamsDer) { x.prfTail != [] || x.tail != [] }

  /** What `pkcs_15_get_params_pbkdf2` stores in `p`: a keyLength is kept
      when none is read. */
  function ParamsRead(p: PwdInfo, x: ParamsDer): PwdInfo {
    p.(salt := Some(x.salt), iterationCount := Some(x.iterations),
       keyLen := if x.keyLen.Some? then x.keyLen else p.keyLen, prfId := OidText(x.prf))
  }

  // ---------------------------------------------------------------------
  // AlgorithmIdentifier and password information
  // ---------------------------------------------------------------------

  /** The key derivation AlgorithmIdentifier. A tail needs parameters in
      front of it: octets right after the identifier are read as
      parameters. */
  datatype AlgIdDer = AlgIdDer(alg: seq<byte>, params: Option<ParamsDer>, tail: seq<byte>)

  predicate AlgIdFit(a: AlgIdDer) {
    Leaf(a.alg) && OidText(a.alg).Some? && (a.params.Some? ==> ParamsFit(a.params.value)) &&
    Leaf(a.tail) && (a.params.None? ==> a.tail == [])
  }

  /** What follows the identifier. */
  function AlgIdRest(a: AlgIdDer): (r: seq<byte>)
    requires AlgIdFit(a)
    ensures |r| <= 0x7_1000
    ensures a.params.None? <==> r == []
  {
    if a.params.Some? then ParamsBytes(a.params.value) + a.tail else []
  }

  function AlgIdBytes(a: AlgIdDer): (r: seq<byte>)
    requires AlgIdFit(a)
    ensures 2 <= |r| <= 0x8_2000 && r[0] == TagSequence
  {
    Tlv(TagSequence, Tlv(TagOid, a.alg) + AlgIdRest(a))
  }

  predicate AlgIdPadded(a: AlgIdDer) {
    a.tail != [] || (a.params.Some? && ParamsPadded(a.params.value))
  }

  function AlgIdRead(p: PwdInfo, a: AlgIdDer): PwdInfo {
    var p1 := p.(algorithm := OidText(a.alg));
    if a.params.Some? then ParamsRead(p1, a.params.value) else p1
  }

  /** The [0] password information: an optional UTF8String hint and the
      AlgorithmIdentifier. */
  datatype PwdInfoDer = PwdInfoDer(hint: Option<seq<byte>>, algId: AlgIdDer, tail: seq<byte>)

  predicate PwdInfoFit(w: PwdInfoDer) {
    (w.hint.Some? ==> Leaf(w.hint.value)) && AlgIdFit(w.algId) && Leaf(w.tail)
  }

  function PwdInfoContent(w: PwdInfoDer): (r: seq<byte>)
    requires PwdInfoFit(w)
    ensures |r| <= 0xA_2100
  {
    OptTlv(TagUtf8, w.hint) + (AlgIdBytes(w.algId) + w.tail)
  }

  function PwdInfoBytes(w: PwdInfoDer): (r: seq<byte>)
    requires PwdInfoFit(w)
    ensures 2 <= |r| <= 0xA_3000 && r[0] == TagCtx0
  {
    Tlv(TagCtx0, PwdInfoContent(w))
  }

  predicate PwdInfoPadded(w: PwdInfoDer) { w.tail != [] || AlgIdPadded(w.algId) }

  function HintRead(h: Option<seq<byte>>): Option<string> {
    if h.Some? then Some(BytesText(h.value)) else None
  }

  /** What `pkcs_15_get_password_info` makes of `p`. */
  function PwdInfoRead(p: PwdInfo, w: PwdInfoDer): PwdInfo {
    AlgIdRead(if w.hint.Some? then p.(hint := HintRead(w.hint)) else p, w.algId)
  }

  // ---------------------------------------------------------------------
  // Key management entries
  // ---------------------------------------------------------------------

  /** The tags that make `pkcs_15_get_sngl_kmi` read key information:
      PWD_INFO, KEKRI and PWRI. */
  predicate InfoTag(b: byte) { b == TagCtx0 || b == TagCtx2 || b == TagCtx3 }

  /** Octets that do not start with a key information tag. */
  predicate NoInfoFirst(s: seq<byte>) { s == [] || !InfoTag(s[0]) }

  /** A key management SEQUENCE: the key id and optional password
      information. Without password information the tail must not start
      with a key information tag, which would be read as one. */
  datatype KmiDer = KmiDer(keyId: seq<byte>, pwd: Option<PwdInfoDer>, tail: seq<byte>)

  predicate KmiFit(k: KmiDer) {
    Leaf(k.keyId) && (k.pwd.Some? ==> PwdInfoFit(k.pwd.value)) && Leaf(k.tail) &&
    (k.pwd.None? ==> NoInfoFirst(k.tail))
  }

  /** What follows the key id. */
  function KmiRest(k: KmiDer): (r: seq<byte>)
    requires KmiFit(k)
    ensures |r| <= 0xB_3000
  {
    if k.pwd.Some? then PwdInfoBytes(k.pwd.value) + k.tail else k.tail
  }

  function KmiBytes(k: KmiDer): (r: seq<byte>)
    requires KmiFit(k)
    ensures 2 <= |r| <= 0xC_4000 && r[0] == TagSequence
  {
    Tlv(TagSequence, Tlv(TagOctetString, k.keyId) + KmiRest(k))
  }

  predicate KmiPadded(k: KmiDer) { k.tail != [] || (k.pwd.Some? && PwdInfoPadded(k.pwd.value)) }

  /** What `pkcs_15_get_sngl_kmi` makes of a fresh entry: `m_type` is only
      ever set to PWD_INFO, which is also its zeroed value. */
  function KmiRead(k: KmiDer): KeyManagementInfo {
    KeyManagementInfo(PasswordInfo, k.keyId, if k.pwd.Some? then Some(PwdInfoRead(EmptyPwdInfo, k.pwd.value)) else None)
  }

  predicate KmisFit(ks: seq<KmiDer>) { forall i :: 0 <= i < |ks| ==> KmiFit(ks[i]) }

  /** The entries one after the other. */
  function KmisBytes(ks: seq<KmiDer>): (r: seq<byte>)
    requires KmisFit(ks)
    ensures |r| <= |ks| * 0xC_4000
    ensures ks != [] ==> 2 <= |r| && r[0] == TagSequence
  {
    if ks == [] then [] else KmiBytes(ks[0]) + KmisBytes(ks[1..])
  }

  function KmisRead(ks: seq<KmiDer>): (r: seq<KeyManagementInfo>)
    ensures |r| == |ks|
  {
    if ks == [] then [] else [KmiRead(ks[0])] + KmisRead(ks[1..])
  }

  predicate KmisPadded(ks: seq<KmiDer>) {
    ks != [] && (KmiPadded(ks[0]) || KmisPadded(ks[1..]))
  }

  /** The [0] keyManagementInfo element. */
  function KmiElem(ks: seq<KmiDer>): (r: seq<byte>)
    requires KmisFit(ks) && |ks| <= 255
    ensures 2 <= |r| <= 0xC34_C010 && r[0] == TagCtx0
  {
    Tlv(TagCtx0, KmisBytes(ks))
  }

  // ---------------------------------------------------------------------
  // Objects
  // ---------------------------------------------------------------------

  /** A secret key object: [3] around a [0] direct element holding the
      key's [27] element, each with its tail. */
  datatype ObjDer = ObjDer(key: seq<byte>, directTail: seq<byte>, tail: seq<byte>)

  predicate ObjFit(o: ObjDer) { Leaf(o.key) && Leaf(o.directTail) && Leaf(o.tail) }

  function DirectBytes(o: ObjDer): (r: seq<byte>)
    requires ObjFit(o)
    ensures 2 <= |r| <= 0x2_0100 && r[0] == TagCtx0
  {
    Tlv(TagCtx0, Tlv(TagGostKey, o.key) + o.directTail)
  }

  function ObjBytes(o: ObjDer): (r: seq<byte>)
    requires ObjFit(o)
    ensures 2 <= |r| <= 0x3_1000 && r[0] == TagCtx3
  {
    Tlv(TagCtx3, DirectBytes(o) + o.tail)
  }

  predicate ObjPadded(o: ObjDer) { o.directTail != [] || o.tail != [] }

  function ObjRead(o: ObjDer): Pkcs15Object { Pkcs15Object(SecKey, Some(o.key)) }

  predicate ObjsFit(os: seq<ObjDer>) { forall i :: 0 <= i < |os| ==> ObjFit(os[i]) }

  function ObjsBytes(os: seq<ObjDer>): (r: seq<byte>)
    requires ObjsFit(os)
    ensures |r| <= |os| * 0x3_1000
  {
    if os == [] then [] else ObjBytes(os[0]) + ObjsBytes(os[1..])
  }

  function ObjsRead(os: seq<ObjDer>): (r: seq<Pkcs15Object>)
    ensures |r| == |os|
  {
    if os == [] then [] else [ObjRead(os[0])] + ObjsRead(os[1..])
  }

  predicate ObjsPadded(os: seq<ObjDer>) {
    os != [] && (ObjPadded(os[0]) || ObjsPadded(os[1..]))
  }

  /** The SEQUENCE of objects. */
  function ObjectsElem(os: seq<ObjDer>): (r: seq<byte>)
    requires ObjsFit(os) && |os| <= 255
    ensures 2 <= |r| <= 0x30D_0000 && r[0] == TagSequence
  {
    Tlv(TagSequence, ObjsBytes(os))
  }

  // ---------------------------------------------------------------------
  // The token
  // ---------------------------------------------------------------------

  /** The token SEQUENCE: version, the optional [0] key management
      information, and the objects. */
  datatype TokenDer = TokenDer(version: seq<byte>, kmis: Option<seq<KmiDer>>, objs: seq<ObjDer>, tail: seq<byte>)

  predicate TokenFit(v: TokenDer) {
    Leaf(v.version) && (v.kmis.Some? ==> KmisFit(v.kmis.value) && |v.kmis.value| <= 255) &&
    ObjsFit(v.objs) && |v.objs| <= 255 && Leaf(v.tail)
  }

  /** The key management element, when there is one. */
  function KmisOpt(v: TokenDer): (r: seq<byte>)
    requires TokenFit(v)
    ensures |r| <= 0xC34_C010
  {
    if v.kmis.Some? then KmiElem(v.kmis.value) else []
  }

  function TokenContent(v: TokenDer): (r: seq<byte>)
    requires TokenFit(v)
    ensures |r| <= 0x1000_0000
  {
    Tlv(TagInteger, v.version) + (KmisOpt(v) + (ObjectsElem(v.objs) + v.tail))
  }

  function TokenBytes(v: TokenDer): (r: seq<byte>)
    requires TokenFit(v)
  {
    Tlv(TagSequence, TokenContent(v))
  }

  predicate TokenPadded(v: TokenDer) {
    v.tail != [] || (v.kmis.Some? && KmisPadded(v.kmis.value)) || ObjsPadded(v.objs)
  }

  /** What `pkcs_15_parse_token` leaves in `t`: the version, the entries
      read and their counts. Without key management information the
      caller's key management fields are left alone. */
  function TokenRead(t: Token, v: TokenDer): Token
    requires |v.objs| <= 255 && (v.kmis.Some? ==> |v.kmis.value| <= 255)
  {
    var t1 := t.(version := v.version);
    var t2 := if v.kmis.Some? then t1.(infoSize := |v.kmis.value|, keyInfos := Some(AllSome(KmisRead(v.kmis.value)))) else t1;
    t2.(objSize := |v.objs|, objects := Some(AllSome(ObjsRead(v.objs))))
  }
}
