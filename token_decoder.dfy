/** `pkcs_15_parse_token` and the `pkcs_15_get_*` helpers: the token is read
    front to back through nested read windows (`s_der_buffer` in read
    mode). */
module TokenDecoder {
  import opened Common
  import opened AsnLength
  import opened TokenModel
  import opened TokenLayout

  // ---------------------------------------------------------------------
  // Read windows and the reading helpers the parser calls
  // ---------------------------------------------------------------------

  /** A read window: `rest` is every octet of the input from the cursor to
      the end of the input, `size` is what `ps_get_curr_size` reports. The
      C helpers read through the cursor pointer without looking at the
      window's end, so `rest` may run on past it; a window may also claim
      more octets than the input holds. */
  datatype Window = Window(rest: seq<byte>, size: nat)

  /** `asn_get_tag` under the cursor compared with `tag`: the octet is read
      even when the window is used up; past the end of the input there is
      no tag. */
  predicate PeekIs(w: Window, tag: byte) {
    |w.rest| > 0 && w.rest[0] == tag
  }

  /** `asn_get_len` right after the tag under the cursor: the length and
      the number of octets of the length field. */
  function LenAfterTag(w: Window): (r: Result<(nat, nat)>)
    ensures r.Ok? ==> 1 <= r.value.1 <= 5 && 1 + r.value.1 <= |w.rest|
  {
    if |w.rest| == 0 then Err(ReadFailed)
    else match ReadLen(w.rest[1..])
      case None => Err(ReadFailed)
      case Some(f) => Ok(f)
  }

  /** `asn_get_expected_tlv` into a window: the element under the cursor
      must carry `tag` and lie inside the window; the result is the window
      of its content and the outer window moved past it. */
  function Enter(w: Window, tag: byte): (r: Result<(Window, Window)>)
    ensures r.Ok? ==> r.value.0.size <= |r.value.0.rest| && r.value.1.size < w.size
  {
    if w.size == 0 || !PeekIs(w, tag) then Err(ReadFailed)
    else
      match LenAfterTag(w)
      case Err(e) => Err(e)
      case Ok(f) =>
        var n := 1 + f.1 + f.0;
        if n > w.size || n > |w.rest| then Err(ReadFailed)
        else Ok((Window(w.rest[1 + f.1..], f.0), Window(w.rest[n..], w.size - n)))
  }

  /** `asn_get_expected_tlv` into a value: the content octets of a
      primitive element, copied, and the outer window moved past it. */
  function ExpectPrim(w: Window, tag: byte): (r: Result<(seq<byte>, Window)>)
    ensures r.Ok? ==> r.value.1.size < w.size
  {
    match Enter(w, tag)
    case Err(e) => Err(e)
    case Ok((v, next)) => Ok((v.rest[..v.size], next))
  }

  /** `asn_get_expected_tlv` on an OBJECT IDENTIFIER, which it stores as
      its dotted text. */
  function ExpectOid(w: Window): (r: Result<(string, Window)>)
    ensures r.Ok? ==> r.value.1.size < w.size
  {
    match ExpectPrim(w, TagOid)
    case Err(e) => Err(e)
    case Ok((v, next)) =>
      match OidText(v)
      case None => Err(ReadFailed)
      case Some(id) => Ok((id, next))
  }

  /** An optional primitive element: read when the tag under the cursor is
      `tag`, otherwise `dflt` is kept and the window is left as it is. */
  function OptPrim(w: Window, tag: byte, dflt: Option<seq<byte>>): (r: Result<(Option<seq<byte>>, Window)>)
    ensures r.Ok? ==> r.value.1.size <= w.size
  {
    if PeekIs(w, tag) then
      match ExpectPrim(w, tag)
      case Err(e) => Err(e)
      case Ok((v, next)) => Ok((Some(v), next))
    else Ok((dflt, w))
  }

  /** `ps_move_cursor` by `n` octets, which is not part of this model: a
      move past the end of the window is refused. */
  function MoveCursor(w: Window, n: nat): (r: Result<Window>)
    ensures r.Ok? <==> n <= w.size
    ensures r.Ok? ==> r.value.size == w.size - n
  {
    if n > w.size then Err(CursorOutOfRange)
    else Ok(Window(if n <= |w.rest| then w.rest[n..] else [], w.size - n))
  }

  /** The skip of an element the reader does not support: the length after
      the tag under the cursor is read, and the cursor is moved by that
      length and the size of the length field (the tag octet is not
      counted). */
  function Skip(w: Window): (r: Result<Window>)
    ensures r.Ok? ==> r.value.size < w.size
  {
    match LenAfterTag(w)
    case Err(e) => Err(e)
    case Ok(f) => MoveCursor(w, f.0 + f.1)
  }

  /** `asn_get_num_of_elems_in_constructed_obj`, which is not part of this
      model: the number of elements, whatever their tags, that fill the
      window exactly. */
  function CountElems(w: Window): (r: Result<nat>)
    decreases w.size
  {
    if w.size == 0 then Ok(0)
    else if |w.rest| == 0 then Err(ReadFailed)
    else
      match Enter(w, w.rest[0])
      case Err(e) => Err(e)
      case Ok((_, next)) =>
        match CountElems(next)
        case Err(e) => Err(e)
        case Ok(n) => Ok(n + 1)
  }

  // ---------------------------------------------------------------------
  // Reading well-formed elements
  // ---------------------------------------------------------------------

  /** The window whose content is `c`, followed in the input by `after`. */
  function In(c: seq<byte>, after: seq<byte>): Window { Window(c + after, |c|) }

  /** What follows the tag, the length field, and the content. */
  lemma TlvSlices(t: byte, v: seq<byte>, after: seq<byte>)
    requires |v| <= 0xFFFF_FFFF
    ensures var s := Tlv(t, v) + after;
      s[1..] == LenField(|v|) + (v + after) &&
      s[1 + LenByteCnt(|v|)..] == v + after &&
      s[1 + LenByteCnt(|v|) + |v|..] == after
  {
    var l := LenField(|v|);
    var s := Tlv(t, v) + after;
    assert s == [t] + (l + (v + after));
    assert s == ([t] + l) + (v + after);
    assert s == ([t] + l + v) + after;
  }

  /** The first element of a window is entered. */
  lemma EnterNext(t: byte, v: seq<byte>, c: seq<byte>, after: seq<byte>)
    requires |v| <= 0xFFFF_FFFF
    ensures PeekIs(In(Tlv(t, v) + c, after), t)
    ensures Enter(In(Tlv(t, v) + c, after), t) == Ok((In(v, c + after), In(c, after)))
  {
    TlvSlices(t, v, c + after);
    LenFieldRoundTrip(|v|, v + (c + after));
    ConcatAssoc(Tlv(t, v), c, after);
  }

  /** The first element of a window is read whole. */
  lemma PrimNext(t: byte, v: seq<byte>, c: seq<byte>, after: seq<byte>)
    requires |v| <= 0xFFFF_FFFF
    ensures PeekIs(In(Tlv(t, v) + c, after), t)
    ensures ExpectPrim(In(Tlv(t, v) + c, after), t) == Ok((v, In(c, after)))
  {
    EnterNext(t, v, c, after);
    assert (v + (c + after))[..|v|] == v;
  }

  lemma OidNext(v: seq<byte>, c: seq<byte>, after: seq<byte>)
    requires |v| <= 0xFFFF_FFFF && OidText(v).Some?
    ensures ExpectOid(In(Tlv(TagOid, v) + c, after)) == Ok((OidText(v).value, In(c, after)))
  {
    PrimNext(TagOid, v, c, after);
  }

  // ---------------------------------------------------------------------
  // The helpers of the parser
  // ---------------------------------------------------------------------

  /** `pkcs_15_get_params_pbkdf2`: salt, iterationCount, keyLength when the
      next tag is an INTEGER, and prf, inside a SEQUENCE; the prf SEQUENCE
      and the parameters SEQUENCE must both be used up. The prf identifier
      is not compared with anything. */
  function GetParams(w: Window, p: PwdInfo): (r: Result<(PwdInfo, Window)>)
    ensures r.Ok? ==> r.value.1.size < w.size
  {
    match Enter(w, TagSequence)
    case Err(e) => Err(e)
    case Ok((prms, next)) =>
      match ExpectPrim(prms, TagOctetString)
      case Err(e) => Err(e)
      case Ok((salt, w1)) =>
        match ExpectPrim(w1, TagInteger)
        case Err(e) => Err(e)
        case Ok((it, w2)) =>
          match OptPrim(w2, TagInteger, p.keyLen)
          case Err(e) => Err(e)
          case Ok((keyLen, w3)) =>
            match Enter(w3, TagSequence)
            case Err(e) => Err(e)
            case Ok((prf, w4)) =>
              match ExpectOid(prf)
              case Err(e) => Err(e)
              case Ok((id, prf1)) =>
                if prf1.size != 0 || w4.size != 0 then Err(InvalidToken)
                else Ok((p.(salt := Some(salt), iterationCount := Some(it), keyLen := keyLen, prfId := Some(id)), next))
  }

  /** `pkcs_15_get_alg_id`: the key derivation identifier, and PBKDF2
      parameters when anything follows it, inside a SEQUENCE that must be
      used up. The identifier is not compared with anything. */
  function GetAlgId(w: Window, p: PwdInfo): (r: Result<(PwdInfo, Window)>)
    ensures r.Ok? ==> r.value.1.size < w.size
  {
    match Enter(w, TagSequence)
    case Err(e) => Err(e)
    case Ok((alg, next)) =>
      match ExpectOid(alg)
      case Err(e) => Err(e)
      case Ok((id, a1)) =>
        match (if a1.size != 0 then GetParams(a1, p.(algorithm := Some(id)))
               else Ok((p.(algorithm := Some(id)), a1)))
        case Err(e) => Err(e)
        case Ok((p2, a2)) => if a2.size != 0 then Err(InvalidToken) else Ok((p2, next))
  }

  /** `pkcs_15_get_password_info`: a hint when the next tag is a
      UTF8String, then the algorithm identifier, inside a [0] element that
      must be used up. */
  function GetPasswordInfo(w: Window, p: PwdInfo): (r: Result<(PwdInfo, Window)>)
    ensures r.Ok? ==> r.value.1.size < w.size
  {
    match Enter(w, TagCtx0)
    case Err(e) => Err(e)
    case Ok((info, next)) =>
      match OptPrim(info, TagUtf8, None)
      case Err(e) => Err(e)
      case Ok((h, i1)) =>
        match GetAlgId(i1, if h.Some? then p.(hint := Some(BytesText(h.value))) else p)
        case Err(e) => Err(e)
        case Ok((p2, i2)) => if i2.size != 0 then Err(InvalidToken) else Ok((p2, next))
  }

  /** `pkcs_15_get_sngl_kmi` on a fresh entry: the key id, then by the next
      tag password information, or a skip of the PWRI or KEKRI element
      (made on the window of the list, after the entry), or nothing; the
      entry must be used up. `m_type` keeps its zeroed value, PWD_INFO. */
  function GetSnglKmi(w: Window): (r: Result<(KeyManagementInfo, Window)>)
    ensures r.Ok? ==> r.value.1.size < w.size
  {
    match Enter(w, TagSequence)
    case Err(e) => Err(e)
    case Ok((entry, next)) =>
      match ExpectPrim(entry, TagOctetString)
      case Err(e) => Err(e)
      case Ok((keyId, e1)) =>
        if PeekIs(e1, TagCtx0) then
          match GetPasswordInfo(e1, EmptyPwdInfo)
          case Err(e) => Err(e)
          case Ok((info, e2)) =>
            if e2.size != 0 then Err(InvalidToken)
            else Ok((KeyManagementInfo(PasswordInfo, keyId, Some(info)), next))
        else if PeekIs(e1, TagCtx3) || PeekIs(e1, TagCtx2) then
          match Skip(next)
          case Err(e) => Err(e)
          case Ok(next1) =>
            if e1.size != 0 then Err(InvalidToken)
            else Ok((KeyManagementInfo(PasswordInfo, keyId, None), next1))
        else if e1.size != 0 then Err(InvalidToken)
        else Ok((KeyManagementInfo(PasswordInfo, keyId, None), next))
  }

  /** `n` NULL pointers, as `calloc` hands them out. */
  function Nulls<T>(n: nat): (r: seq<Option<T>>)
    ensures |r| == n && forall i :: 0 <= i < n ==> r[i].None?
  {
    seq(n, _ => None)
  }

  /** A store into a pointer array of `|s|` cells, as C does it, with no
      bounds check. A store past the end of the block lands outside it: the
      sequence then grows to reach the cell written, so its cells from
      `|s|` on are memory past the block. The cells skipped over are shown
      as NULL. */
  function PutAt<T>(s: seq<Option<T>>, i: nat, v: T): (r: seq<Option<T>>)
    ensures i < |s| ==> r == s[i := Some(v)]
    ensures i >= |s| ==> |r| == i + 1 && r[..|s|] == s && r[i] == Some(v)
  {
    if i < |s| then s[i := Some(v)] else s + Nulls(i - |s|) + [Some(v)]
  }

  /** The end of `pkcs_15_get_sngl_kmi`: the entry is stored at
      `m_info_size`, which is incremented as an 8-bit count. The array is
      never longer after a store inside it, and reaches just past the
      store otherwise. */
  function StoreKmi(t: Token, e: KeyManagementInfo): (r: Token)
    requires t.keyInfos.Some?
    ensures r.keyInfos.Some?
    ensures |r.keyInfos.value| == if (t.infoSize as nat) < |t.keyInfos.value| then |t.keyInfos.value| else t.infoSize as nat + 1
    ensures r.keyInfos.value[t.infoSize] == Some(e)
  {
    t.(keyInfos := Some(PutAt(t.keyInfos.value, t.infoSize as nat, e)), infoSize := (t.infoSize + 1) % 256)
  }

  /** The iterations of the loop of `pkcs_15_get_key_management_info`
      that are left: one entry read while the window is not used up. */
  function ReadKmis(k: Window, t: Token): (r: Result<(Token, Window)>)
    requires t.keyInfos.Some?
    ensures r.Ok? ==> r.value.0.keyInfos.Some? && |r.value.0.keyInfos.value| >= |t.keyInfos.value|
    decreases k.size
  {
    if k.size == 0 then Ok((t, k))
    else
      match GetSnglKmi(k)
      case Err(e) => Err(e)
      case Ok((entry, k1)) => ReadKmis(k1, StoreKmi(t, entry))
  }

  /** `pkcs_15_get_key_management_info`: the [0] element, an array as long
      as its element count taken as an 8-bit value, and the entries. */
  function KeyInfos(w: Window, t: Token): (r: Result<(Token, Window)>)
  {
    match Enter(w, TagCtx0)
    case Err(e) => Err(e)
    case Ok((k, next)) =>
      match CountElems(k)
      case Err(e) => Err(e)
      case Ok(n) =>
        match ReadKmis(k, t.(infoSize := 0, keyInfos := Some(Nulls(n % 256))))
        case Err(e) => Err(e)
        case Ok((t1, k1)) => if k1.size != 0 then Err(InvalidToken) else Ok((t1, next))
  }

  /** The object `calloc` hands out: `m_type` 0 is PRI_KEY. */
  const ZeroObject := Pkcs15Object(PriKey, None)

  /** `pkcs_15_get_gost_key`, which is not part of this model: the content
      of the [27] element is the key. */
  function GetGostKey(w: Window): (r: Result<(seq<byte>, Window)>)
    ensures r.Ok? ==> r.value.1.size < w.size
  {
    ExpectPrim(w, TagGostKey)
  }

  /** `pkcs_15_get_direct_obj`: the key when the next tag is [27], inside a
      [0] element that must be used up. */
  function GetDirectObj(w: Window, o: Pkcs15Object): (r: Result<(Pkcs15Object, Window)>)
    ensures r.Ok? ==> r.value.1.size < w.size
  {
    match Enter(w, TagCtx0)
    case Err(e) => Err(e)
    case Ok((d, next)) =>
      if PeekIs(d, TagGostKey) then
        match GetGostKey(d)
        case Err(e) => Err(e)
        case Ok((key, d1)) => if d1.size != 0 then Err(InvalidToken) else Ok((o.(secKey := Some(key)), next))
      else if d.size != 0 then Err(InvalidToken)
      else Ok((o, next))
  }

  /** The start of `pkcs_15_get_obj`, by the tag under the cursor: the type
      is set to SEC_KEY ([3]), or the window of the list is skipped along
      (PRI_KEY [0], PUB_KEY [1]), or nothing is done. */
  function ObjKind(w: Window, o: Pkcs15Object): (r: Result<(Pkcs15Object, Window)>)
  {
    if PeekIs(w, TagCtx3) then Ok((o.(objType := SecKey), w))
    else if PeekIs(w, TagCtx0) || PeekIs(w, TagCtx1) then
      match Skip(w)
      case Err(e) => Err(e)
      case Ok(w1) => Ok((o, w1))
    else Ok((o, w))
  }

  /** The content of an object, by its first tag: the direct object is
      read ([0]), or the protected one skipped ([2]), or nothing is done. */
  function ObjContent(v: Window, o: Pkcs15Object): (r: Result<(Pkcs15Object, Window)>)
  {
    if PeekIs(v, TagCtx0) then GetDirectObj(v, o)
    else if PeekIs(v, TagCtx2) then
      match Skip(v)
      case Err(e) => Err(e)
      case Ok(v1) => Ok((o, v1))
    else Ok((o, v))
  }

  /** `pkcs_15_get_obj`: `ObjKind`, then the element with the tag first
      seen is entered (past the end of the input there is no tag and it
      cannot be), its content read by `ObjContent`, and the element must be
      used up. */
  function GetObj(w: Window, o: Pkcs15Object): (r: Result<(Pkcs15Object, Window)>)
  {
    match ObjKind(w, o)
    case Err(e) => Err(e)
    case Ok((o1, w1)) =>
      match Enter(w1, if |w.rest| > 0 then w.rest[0] else 0)
      case Err(e) => Err(e)
      case Ok((v, next)) =>
        match ObjContent(v, o1)
        case Err(e) => Err(e)
        case Ok((o2, v1)) => if v1.size != 0 then Err(InvalidToken) else Ok((o2, next))
  }

  /** Iterations `i` onwards of the loop of `pkcs_15_get_pkcs_objects`:
      each reads a fresh object into slot `i`. */
  function ReadObjs(o: Window, s: seq<Option<Pkcs15Object>>, i: nat): (r: Result<(seq<Option<Pkcs15Object>>, Window)>)
    requires i <= |s|
    decreases |s| - i
  {
    if i == |s| then Ok((s, o))
    else
      match GetObj(o, ZeroObject)
      case Err(e) => Err(e)
      case Ok((ob, o1)) => ReadObjs(o1, s[i := Some(ob)], i + 1)
  }

  /** `pkcs_15_get_pkcs_objects`: the SEQUENCE of objects, its element
      count taken as an 8-bit value, and that many objects; the SEQUENCE
      must be used up. */
  function Objects(w: Window, t: Token): (r: Result<(Token, Window)>)
  {
    match Enter(w, TagSequence)
    case Err(e) => Err(e)
    case Ok((o, next)) =>
      match CountElems(o)
      case Err(e) => Err(e)
      case Ok(n) =>
        match ReadObjs(o, Nulls(n % 256), 0)
        case Err(e) => Err(e)
        case Ok((s1, o1)) =>
          if o1.size != 0 then Err(InvalidToken) else Ok((t.(objSize := n % 256, objects := Some(s1)), next))
  }

  /** The fields of the token SEQUENCE `k`: the version, the key
      management information when the next tag is [0], and the objects;
      the SEQUENCE must be used up. */
  function TokenFields(k: Window, t: Token): (r: Result<Token>)
  {
    match ExpectPrim(k, TagInteger)
    case Err(e) => Err(e)
    case Ok((version, k0)) =>
      match (if PeekIs(k0, TagCtx0) then KeyInfos(k0, t.(version := version))
             else Ok((t.(version := version), k0)))
      case Err(e) => Err(e)
      case Ok((t1, k1)) =>
        match Objects(k1, t1)
        case Err(e) => Err(e)
        case Ok((t2, k2)) => if k2.size != 0 then Err(InvalidToken) else Ok(t2)
  }

  /** The start of `pkcs_15_parse_token` on the `size` octets `data`: a
      SEQUENCE tag, and the window its length field gives. That length is
      not compared with `size`, so octets after it are not looked at. */
  function TokenWindow(data: seq<byte>): (r: Result<Window>)
  {
    if |data| == 0 then Err(NullPointer)
    else if data[0] != TagSequence then Err(InvalidToken)
    else
      match LenAfterTag(Window(data, |data|))
      case Err(e) => Err(e)
      case Ok(f) => Ok(Window(data[1 + f.1..], f.0))
  }

  /** `pkcs_15_parse_token` on the `size` octets `data` and the structure
      `t`. */
  function Parse(data: seq<byte>, t: Token): (r: Result<Token>)
  {
    match TokenWindow(data)
    case Err(e) => Err(e)
    case Ok(k) => TokenFields(k, t)
  }

  // ---------------------------------------------------------------------
  // The loops
  // ---------------------------------------------------------------------

  /** `pkcs_15_get_key_management_info`, with its loop. */
  method GetKeyManagementInfo(w: Window, t: Token) returns (r: Result<(Token, Window)>)
    ensures r == KeyInfos(w, t)
  {
    var e := Enter(w, TagCtx0);
    if e.Err? { return Err(e.error); }
    var k := e.value.0;
    var n := CountElems(k);
    if n.Err? { return Err(n.error); }
    var cur := t.(infoSize := 0, keyInfos := Some(Nulls(n.value % 256)));
    ghost var whole := ReadKmis(k, cur);
    while k.size != 0
      invariant cur.keyInfos.Some?
      invariant ReadKmis(k, cur) == whole
      decreases k.size
    {
      var s := GetSnglKmi(k);
      if s.Err? { return Err(s.error); }
      cur := StoreKmi(cur, s.value.0);
      k := s.value.1;
    }
    if k.size != 0 { return Err(InvalidToken); }
    return Ok((cur, e.value.1));
  }

  /** `pkcs_15_get_pkcs_objects`, with its loop. */
  method GetPkcsObjects(w: Window, t: Token) returns (r: Result<(Token, Window)>)
    ensures r == Objects(w, t)
  {
    var e := Enter(w, TagSequence);
    if e.Err? { return Err(e.error); }
    var o := e.value.0;
    var n := CountElems(o);
    if n.Err? { return Err(n.error); }
    var cnt: byte := n.value % 256;
    var objs := Nulls(cnt);
    ghost var whole := ReadObjs(o, objs, 0);
    for i := 0 to cnt
      invariant |objs| == cnt
      invariant ReadObjs(o, objs, i) == whole
    {
      var s := GetObj(o, ZeroObject);
      if s.Err? { return Err(s.error); }
      objs := objs[i := Some(s.value.0)];
      o := s.value.1;
    }
    if o.size != 0 { return Err(InvalidToken); }
    return Ok((t.(objSize := cnt, objects := Some(objs)), e.value.1));
  }

  /** The body of `pkcs_15_parse_token` after the token SEQUENCE is
      entered. */
  method ReadTokenFields(k: Window, t: Token) returns (r: Result<Token>)
    ensures r == TokenFields(k, t)
  {
    var v := ExpectPrim(k, TagInteger);
    if v.Err? { return Err(v.error); }
    var cur := t.(version := v.value.0);
    var k1 := v.value.1;
    if PeekIs(k1, TagCtx0) {
      var ki := GetKeyManagementInfo(k1, cur);
      if ki.Err? { return Err(ki.error); }
      cur, k1 := ki.value.0, ki.value.1;
    }
    var ob := GetPkcsObjects(k1, cur);
    if ob.Err? { return Err(ob.error); }
    if ob.value.1.size != 0 { return Err(InvalidToken); }
    return Ok(ob.value.0);
  }

  /** The start of `pkcs_15_parse_token`. */
  method GetTokenWindow(data: seq<byte>) returns (r: Result<Window>)
    ensures r == TokenWindow(data)
  {
    if |data| == 0 { return Err(NullPointer); }
    if data[0] != TagSequence { return Err(InvalidToken); }
    var f := LenAfterTag(Window(data, |data|));
    if f.Err? { return Err(f.error); }
    return Ok(Window(data[1 + f.value.1..], f.value.0));
  }

  /** `pkcs_15_parse_token`. */
  method ParseToken(data: seq<byte>, t: Token) returns (r: Result<Token>)
    ensures r == Parse(data, t)
  {
    var k := GetTokenWindow(data);
    if k.Err? { return Err(k.error); }
    r := ReadTokenFields(k.value, t);
  }

  // ---------------------------------------------------------------------
  // Reading the layouts back
  // ---------------------------------------------------------------------

  lemma ParamsDecodes(p: PwdInfo, x: ParamsDer, c: seq<byte>, after: seq<byte>)
    requires ParamsFit(x)
    ensures GetParams(In(ParamsBytes(x) + c, after), p) == Outcome(ParamsPadded(x), ParamsRead(p, x), In(c, after))
  {
    var b := Tlv(TagInteger, x.iterations) + (OptTlv(TagInteger, x.keyLen) + (PrfElem(x) + x.tail));
    var k := OptTlv(TagInteger, x.keyLen) + (PrfElem(x) + x.tail);
    var f := PrfElem(x) + x.tail;
    EnterNext(TagSequence, ParamsContent(x), c, after);
    var rest := c + after;
    PrimNext(TagOctetString, x.salt, b, rest);
    PrimNext(TagInteger, x.iterations, k, rest);
    OptNext(TagInteger, x.keyLen, f, rest, p.keyLen);
    EnterNext(TagSequence, Tlv(TagOid, x.prf) + x.prfTail, x.tail, rest);
    OidNext(x.prf, x.prfTail, x.tail + rest);
    GetParamsSteps(In(ParamsBytes(x) + c, after), p, In(ParamsContent(x), rest), In(c, after), x.salt, In(b, rest),
      x.iterations, In(k, rest), if x.keyLen.Some? then x.keyLen else p.keyLen, In(f, rest),
      In(Tlv(TagOid, x.prf) + x.prfTail, x.tail + rest), In(x.tail, rest), OidText(x.prf).value, In(x.prfTail, x.tail + rest));
  }

  /** An optional primitive element, followed by an element with another
      tag. */
  lemma OptNext(tag: byte, k: Option<seq<byte>>, c: seq<byte>, after: seq<byte>, dflt: Option<seq<byte>>)
    requires k.Some? ==> Leaf(k.value)
    requires |c| > 0 && c[0] != tag
    ensures OptPrim(In(OptTlv(tag, k) + c, after), tag, dflt) == Ok((if k.Some? then k else dflt, In(c, after)))
  {
    if k.Some? {
      PrimNext(tag, k.value, c, after);
    } else {
      assert OptTlv(tag, k) + c == c;
    }
  }

  /** `GetParams` step by step. */
  lemma GetParamsSteps(w: Window, p: PwdInfo, prms: Window, next: Window, salt: seq<byte>, w1: Window,
                       it: seq<byte>, w2: Window, keyLen: Option<seq<byte>>, w3: Window,
                       prf: Window, w4: Window, id: string, prf1: Window)
    requires Enter(w, TagSequence) == Ok((prms, next))
    requires ExpectPrim(prms, TagOctetString) == Ok((salt, w1))
    requires ExpectPrim(w1, TagInteger) == Ok((it, w2))
    requires OptPrim(w2, TagInteger, p.keyLen) == Ok((keyLen, w3))
    requires Enter(w3, TagSequence) == Ok((prf, w4))
    requires ExpectOid(prf) == Ok((id, prf1))
    ensures GetParams(w, p) == if prf1.size != 0 || w4.size != 0 then Err(InvalidToken)
      else Ok((p.(salt := Some(salt), iterationCount := Some(it), keyLen := keyLen, prfId := Some(id)), next))
  {
  }

  lemma AlgIdDecodes(p: PwdInfo, a: AlgIdDer, c: seq<byte>, after: seq<byte>)
    requires AlgIdFit(a)
    ensures GetAlgId(In(AlgIdBytes(a) + c, after), p) == Outcome(AlgIdPadded(a), AlgIdRead(p, a), In(c, after))
  {
    var rest := c + after;
    var r := AlgIdRest(a);
    EnterNext(TagSequence, Tlv(TagOid, a.alg) + r, c, after);
    OidNext(a.alg, r, rest);
    var id := OidText(a.alg).value;
    var p1 := p.(algorithm := Some(id));
    if a.params.Some? {
      ParamsDecodes(p1, a.params.value, a.tail, rest);
      GetAlgIdSteps(In(AlgIdBytes(a) + c, after), p, In(Tlv(TagOid, a.alg) + r, rest), In(c, after), id, In(r, rest),
        GetParams(In(r, rest), p1));
    } else {
      assert r == [];
      GetAlgIdSteps(In(AlgIdBytes(a) + c, after), p, In(Tlv(TagOid, a.alg) + r, rest), In(c, after), id, In(r, rest),
        Ok((p1, In(r, rest))));
    }
  }

  /** `GetAlgId` step by step. */
  lemma GetAlgIdSteps(w: Window, p: PwdInfo, alg: Window, next: Window, id: string, a1: Window,
                      rp: Result<(PwdInfo, Window)>)
    requires Enter(w, TagSequence) == Ok((alg, next))
    requires ExpectOid(alg) == Ok((id, a1))
    requires rp == if a1.size != 0 then GetParams(a1, p.(algorithm := Some(id))) else Ok((p.(algorithm := Some(id)), a1))
    ensures GetAlgId(w, p) == match rp
      case Err(e) => Err(e)
      case Ok((p2, a2)) => if a2.size != 0 then Err(InvalidToken) else Ok((p2, next))
  {
  }

  lemma PwdInfoDecodes(p: PwdInfo, x: PwdInfoDer, c: seq<byte>, after: seq<byte>)
    requires PwdInfoFit(x)
    ensures GetPasswordInfo(In(PwdInfoBytes(x) + c, after), p) == Outcome(PwdInfoPadded(x), PwdInfoRead(p, x), In(c, after))
  {
    var rest := c + after;
    var b := AlgIdBytes(x.algId) + x.tail;
    EnterNext(TagCtx0, PwdInfoContent(x), c, after);
    OptNext(TagUtf8, x.hint, b, rest, None);
    var p1 := if x.hint.Some? then p.(hint := Some(BytesText(x.hint.value))) else p;
    AlgIdDecodes(p1, x.algId, x.tail, rest);
    GetPasswordInfoSteps(In(PwdInfoBytes(x) + c, after), p, In(PwdInfoContent(x), rest), In(c, after), x.hint, In(b, rest),
      GetAlgId(In(b, rest), p1));
  }

  /** `GetPasswordInfo` step by step. */
  lemma GetPasswordInfoSteps(w: Window, p: PwdInfo, info: Window, next: Window, h: Option<seq<byte>>, i1: Window,
                             ra: Result<(PwdInfo, Window)>)
    requires Enter(w, TagCtx0) == Ok((info, next))
    requires OptPrim(info, TagUtf8, None) == Ok((h, i1))
    requires ra == GetAlgId(i1, if h.Some? then p.(hint := Some(BytesText(h.value))) else p)
    ensures GetPasswordInfo(w, p) == match ra
      case Err(e) => Err(e)
      case Ok((p2, i2)) => if i2.size != 0 then Err(InvalidToken) else Ok((p2, next))
  {
  }

  /** A key management entry, followed in its list by `c`. Without
      password information and tail, the reader looks at the octet after
      the entry, which must not be a key information tag either. */
  lemma KmiDecodes(k: KmiDer, c: seq<byte>, after: seq<byte>)
    requires KmiFit(k)
    requires k.pwd.None? && k.tail == [] ==> NoInfoFirst(c + after)
    ensures GetSnglKmi(In(KmiBytes(k) + c, after)) == Outcome(KmiPadded(k), KmiRead(k), In(c, after))
  {
    var rest := c + after;
    var r := KmiRest(k);
    var w := In(KmiBytes(k) + c, after);
    var entry := In(Tlv(TagOctetString, k.keyId) + r, rest);
    EnterNext(TagSequence, Tlv(TagOctetString, k.keyId) + r, c, after);
    PrimNext(TagOctetString, k.keyId, r, rest);
    var e1 := In(r, rest);
    if k.pwd.Some? {
      var x := k.pwd.value;
      assert e1.rest[0] == PwdInfoBytes(x)[0];
      PwdInfoDecodes(EmptyPwdInfo, x, k.tail, rest);
      KmiPwdSteps(w, entry, In(c, after), k.keyId, e1, GetPasswordInfo(e1, EmptyPwdInfo));
    } else {
      assert r == k.tail;
      if k.tail == [] {
        assert e1.rest == rest;
      } else {
        assert e1.rest[0] == k.tail[0];
      }
      assert |e1.rest| == 0 || !InfoTag(e1.rest[0]);
      KmiBareSteps(w, entry, In(c, after), k.keyId, e1);
    }
  }

  /** `GetSnglKmi` with password information after the key id. */
  lemma KmiPwdSteps(w: Window, entry: Window, next: Window, keyId: seq<byte>, e1: Window,
                    ri: Result<(PwdInfo, Window)>)
    requires Enter(w, TagSequence) == Ok((entry, next))
    requires ExpectPrim(entry, TagOctetString) == Ok((keyId, e1))
    requires PeekIs(e1, TagCtx0) && ri == GetPasswordInfo(e1, EmptyPwdInfo)
    ensures GetSnglKmi(w) ==
      match ri
      case Err(e) => Err(e)
      case Ok((info, e2)) =>
        if e2.size != 0 then Err(InvalidToken) else Ok((KeyManagementInfo(PasswordInfo, keyId, Some(info)), next))
  {
  }

  /** `GetSnglKmi` with no key information after the key id. */
  lemma KmiBareSteps(w: Window, entry: Window, next: Window, keyId: seq<byte>, e1: Window)
    requires Enter(w, TagSequence) == Ok((entry, next))
    requires ExpectPrim(entry, TagOctetString) == Ok((keyId, e1))
    requires !PeekIs(e1, TagCtx0) && !PeekIs(e1, TagCtx2) && !PeekIs(e1, TagCtx3)
    ensures GetSnglKmi(w) ==
      if e1.size != 0 then Err(InvalidToken) else Ok((KeyManagementInfo(PasswordInfo, keyId, None), next))
  {
  }

  /** `s` with the entries from `i` on replaced by `es`, all present. */
  function Fill<T>(s: seq<Option<T>>, i: nat, es: seq<T>): (r: seq<Option<T>>)
    requires i + |es| <= |s|
    ensures |r| == |s|
    ensures forall j :: 0 <= j < |s| ==> r[j] == if i <= j < i + |es| then Some(es[j - i]) else s[j]
  {
    s[..i] + AllSome(es) + s[i + |es|..]
  }

  /** One more entry of the key management list, read with the outcome
      `padded`, `e`, `w1`. */
  lemma ReadKmisStep(t: Token, w: Window, padded: bool, e: KeyManagementInfo, w1: Window, rr: Result<(Token, Window)>)
    requires t.keyInfos.Some? && w.size != 0
    requires GetSnglKmi(w) == Outcome(padded, e, w1)
    requires !padded ==> ReadKmis(w1, StoreKmi(t, e)) == rr
    ensures ReadKmis(w, t) == if padded then Err(InvalidToken) else rr
  {
  }

  /** The entries of a key management list are read into the array from
      `m_info_size` on. The octet after the list must not be a key
      information tag (see `KmiDecodes`). */
  lemma {:induction false} KmisDecodes(t: Token, ks: seq<KmiDer>, after: seq<byte>)
    requires KmisFit(ks) && NoInfoFirst(after)
    requires t.keyInfos.Some? && t.infoSize as nat + |ks| <= |t.keyInfos.value| <= 255
    ensures ReadKmis(In(KmisBytes(ks), after), t) == KmisOutcome(t, ks, after)
    decreases |ks|
  {
    if ks == [] {
      KmisEmpty(t, after);
    } else {
      KmisHead(t, ks, after);
      if !KmiPadded(ks[0]) {
        var t1 := StoreKmi(t, KmiRead(ks[0]));
        StoreKmiNext(t, KmiRead(ks[0]));
        KmisDecodes(t1, ks[1..], after);
        KmisTail(t, ks, t1, after);
      }
    }
  }

  /** What reading the list `ks` into `t` gives. */
  function KmisOutcome(t: Token, ks: seq<KmiDer>, after: seq<byte>): Result<(Token, Window)>
    requires t.keyInfos.Some? && t.infoSize as nat + |ks| <= |t.keyInfos.value| <= 255
  {
    if KmisPadded(ks) then Err(InvalidToken)
    else Ok((t.(infoSize := t.infoSize + |ks|, keyInfos := Some(Fill(t.keyInfos.value, t.infoSize as nat, KmisRead(ks)))),
             In([], after)))
  }

  lemma KmisEmpty(t: Token, after: seq<byte>)
    requires t.keyInfos.Some? && t.infoSize as nat <= |t.keyInfos.value| <= 255
    ensures ReadKmis(In(KmisBytes([]), after), t) == KmisOutcome(t, [], after)
  {
    assert Fill(t.keyInfos.value, t.infoSize as nat, []) == t.keyInfos.value;
  }

  /** The first entry of a non-empty list. */
  lemma KmisHead(t: Token, ks: seq<KmiDer>, after: seq<byte>)
    requires KmisFit(ks) && NoInfoFirst(after) && ks != []
    requires t.keyInfos.Some?
    ensures KmisFit(ks[1..])
    ensures ReadKmis(In(KmisBytes(ks), after), t) ==
      if KmiPadded(ks[0]) then Err(InvalidToken) else ReadKmis(In(KmisBytes(ks[1..]), after), StoreKmi(t, KmiRead(ks[0])))
  {
    var k := ks[0];
    var tl := KmisBytes(ks[1..]);
    assert KmisBytes(ks) == KmiBytes(k) + tl;
    assert KmisFit(ks[1..]);
    assert NoInfoFirst(tl + after) by {
      if ks[1..] != [] { assert (tl + after)[0] == tl[0]; } else { assert tl + after == after; }
    }
    KmiDecodes(k, tl, after);
    var t1 := StoreKmi(t, KmiRead(k));
    ReadKmisStep(t, In(KmisBytes(ks), after), KmiPadded(k), KmiRead(k), In(tl, after), ReadKmis(In(tl, after), t1));
  }

  /** The rest of the list, read after the first entry was stored. */
  lemma KmisTail(t: Token, ks: seq<KmiDer>, t1: Token, after: seq<byte>)
    requires ks != [] && !KmiPadded(ks[0]) && t.keyInfos.Some? && t.infoSize as nat + |ks| <= |t.keyInfos.value| <= 255
    requires t1 == t.(infoSize := t.infoSize + 1, keyInfos := Some(t.keyInfos.value[t.infoSize as nat := Some(KmiRead(ks[0]))]))
    ensures KmisOutcome(t1, ks[1..], after) == KmisOutcome(t, ks, after)
  {
    assert KmisRead(ks) == [KmiRead(ks[0])] + KmisRead(ks[1..]);
    FillStep(t.keyInfos.value, t.infoSize as nat, KmiRead(ks[0]), KmisRead(ks[1..]));
  }

  /** A store into the array that does not wrap the count. */
  lemma StoreKmiNext(t: Token, e: KeyManagementInfo)
    requires t.keyInfos.Some? && t.infoSize as nat < |t.keyInfos.value| <= 255
    ensures StoreKmi(t, e) == t.(infoSize := t.infoSize + 1, keyInfos := Some(t.keyInfos.value[t.infoSize as nat := Some(e)]))
  {
  }

  /** Filling one entry and then the rest. */
  lemma FillStep<T>(s: seq<Option<T>>, i: nat, e: T, es: seq<T>)
    requires i + 1 + |es| <= |s|
    ensures Fill(s[i := Some(e)], i + 1, es) == Fill(s, i, [e] + es)
  {
    var a := Fill(s[i := Some(e)], i + 1, es);
    var b := Fill(s, i, [e] + es);
    forall j | 0 <= j < |s| ensures a[j] == b[j] {
      if i + 1 <= j < i + 1 + |es| { assert ([e] + es)[j - i] == es[j - i - 1]; }
    }
  }

  /** One more element is counted. */
  lemma CountNext(tag: byte, v: seq<byte>, c: seq<byte>, after: seq<byte>)
    requires |v| <= 0xFFFF_FFFF
    ensures CountElems(In(Tlv(tag, v) + c, after)) ==
      var n := CountElems(In(c, after)); if n.Err? then n else Ok(n.value + 1)
  {
    EnterNext(tag, v, c, after);
    var w := In(Tlv(tag, v) + c, after);
    assert w.rest[0] == tag;
    CountStep(w, In(v, c + after), In(c, after));
  }

  /** A list of k elements with one more in front counts k + 1. */
  lemma CountMore(tag: byte, v: seq<byte>, c: seq<byte>, after: seq<byte>, k: nat)
    requires |v| <= 0xFFFF_FFFF && CountElems(In(c, after)) == Ok(k)
    ensures CountElems(In(Tlv(tag, v) + c, after)) == Ok(k + 1)
  {
    CountNext(tag, v, c, after);
  }

  /** `CountElems` past its first element. */
  lemma CountStep(w: Window, v: Window, next: Window)
    requires w.size != 0 && |w.rest| > 0 && Enter(w, w.rest[0]) == Ok((v, next))
    ensures CountElems(w) == var n := CountElems(next); if n.Err? then n else Ok(n.value + 1)
  {
  }

  /** Every entry of a key management list is counted. */
  lemma {:induction false} KmisCount(ks: seq<KmiDer>, after: seq<byte>)
    requires KmisFit(ks)
    ensures CountElems(In(KmisBytes(ks), after)) == Ok(|ks|)
    decreases |ks|
  {
    if ks != [] {
      var v := KmisCons(ks);
      KmisCount(ks[1..], after);
      CountMore(TagSequence, v, KmisBytes(ks[1..]), after, |ks| - 1);
    }
  }

  /** A list of entries is the first entry's element and the rest. */
  lemma KmisCons(ks: seq<KmiDer>) returns (v: seq<byte>)
    requires KmisFit(ks) && ks != []
    ensures KmisFit(ks[1..]) && |v| <= 0xFFFF_FFFF
    ensures KmisBytes(ks) == Tlv(TagSequence, v) + KmisBytes(ks[1..])
  {
    assert KmisFit(ks[1..]);
    v := Tlv(TagOctetString, ks[0].keyId) + KmiRest(ks[0]);
  }

  /** The [0] key management element, followed in the token by `c`, which
      must not start with a key information tag. */
  lemma KeyInfosDecodes(t: Token, ks: seq<KmiDer>, c: seq<byte>, after: seq<byte>)
    requires KmisFit(ks) && |ks| <= 255 && NoInfoFirst(c + after)
    ensures KeyInfos(In(KmiElem(ks) + c, after), t) ==
      Outcome(KmisPadded(ks), t.(infoSize := |ks|, keyInfos := Some(AllSome(KmisRead(ks)))), In(c, after))
  {
    var rest := c + after;
    KeyInfosEnter(ks, c, after);
    KmisFromFresh(t, ks, rest);
    KeyInfosSteps(In(KmiElem(ks) + c, after), t, In(KmisBytes(ks), rest), In(c, after), |ks|,
      Outcome(KmisPadded(ks), t.(infoSize := |ks|, keyInfos := Some(AllSome(KmisRead(ks)))), In([], rest)));
  }

  /** The [0] element holds the list and counts its entries. */
  lemma KeyInfosEnter(ks: seq<KmiDer>, c: seq<byte>, after: seq<byte>)
    requires KmisFit(ks) && |ks| <= 255
    ensures Enter(In(KmiElem(ks) + c, after), TagCtx0) == Ok((In(KmisBytes(ks), c + after), In(c, after)))
    ensures CountElems(In(KmisBytes(ks), c + after)) == Ok(|ks|)
  {
    assert KmiElem(ks) == Tlv(TagCtx0, KmisBytes(ks));
    EnterNext(TagCtx0, KmisBytes(ks), c, after);
    KmisCount(ks, c + after);
  }

  /** The list read into a fresh array. */
  lemma KmisFromFresh(t: Token, ks: seq<KmiDer>, after: seq<byte>)
    requires KmisFit(ks) && |ks| <= 255 && NoInfoFirst(after)
    ensures ReadKmis(In(KmisBytes(ks), after), t.(infoSize := 0, keyInfos := Some(Nulls(|ks| % 256)))) ==
      Outcome(KmisPadded(ks), t.(infoSize := |ks|, keyInfos := Some(AllSome(KmisRead(ks)))), In([], after))
  {
    KmisFresh(t, ks, after);
    KmisDecodes(t.(infoSize := 0, keyInfos := Some(Nulls(|ks| % 256))), ks, after);
  }

  /** The list read into a fresh array as long as the list. */
  lemma KmisFresh(t: Token, ks: seq<KmiDer>, after: seq<byte>)
    requires |ks| <= 255
    ensures var t0 := t.(infoSize := 0, keyInfos := Some(Nulls(|ks| % 256)));
      t0.infoSize as nat + |ks| <= |t0.keyInfos.value| <= 255 &&
      KmisOutcome(t0, ks, after) == Outcome(KmisPadded(ks), t.(infoSize := |ks|, keyInfos := Some(AllSome(KmisRead(ks)))), In([], after))
  {
    assert |ks| % 256 == |ks|;
    FillFresh<KeyManagementInfo>(KmisRead(ks));
  }

  /** A fresh array filled from its start. */
  lemma FillFresh<T>(es: seq<T>)
    ensures Fill(Nulls(|es|), 0, es) == AllSome(es)
  {
    var f := Fill(Nulls(|es|), 0, es);
    assert |f| == |AllSome(es)|;
    forall j | 0 <= j < |f| ensures f[j] == AllSome(es)[j] { }
  }

  /** `KeyInfos` step by step. */
  lemma KeyInfosSteps(w: Window, t: Token, k: Window, next: Window, n: nat, rr: Result<(Token, Window)>)
    requires Enter(w, TagCtx0) == Ok((k, next))
    requires CountElems(k) == Ok(n)
    requires rr == ReadKmis(k, t.(infoSize := 0, keyInfos := Some(Nulls(n % 256))))
    ensures KeyInfos(w, t) == if rr.Err? then Err(rr.error)
      else if rr.value.1.size != 0 then Err(InvalidToken) else Ok((rr.value.0, next))
  {
  }

  // ---------------------------------------------------------------------
  // More key management entries than the array has cells
  // ---------------------------------------------------------------------

  /** As written: entries stored from the end of the array on land past
      the block, one cell after another, while the 8-bit count runs up to
      the number of cells in use modulo 256. */
  lemma {:induction false} KmisPastBlock(t: Token, ks: seq<KmiDer>, after: seq<byte>)
    requires KmisFit(ks) && NoInfoFirst(after) && t.keyInfos.Some?
    requires t.infoSize as nat == |t.keyInfos.value| % 256 && |t.keyInfos.value| + |ks| <= 256
    ensures ReadKmis(In(KmisBytes(ks), after), t) == Outcome(KmisPadded(ks), Appended(t, ks), In([], after))
    decreases |ks|
  {
    if ks == [] {
      AppendEmpty(t, after);
    } else {
      KmisHead(t, ks, after);
      if KmiPadded(ks[0]) {
        assert KmisPadded(ks);
      } else {
        SmallMod(|t.keyInfos.value|, 256);
        var t1 := StoreKmi(t, KmiRead(ks[0]));
        StoreKmiAppends(t, KmiRead(ks[0]));
        KmisPastBlock(t1, ks[1..], after);
        AppendTail(t, ks, t1, after);
      }
    }
  }

  /** `t` with the entries of `ks` appended to its array and counted
      modulo 256. */
  function Appended(t: Token, ks: seq<KmiDer>): Token
    requires t.keyInfos.Some?
  {
    t.(infoSize := (|t.keyInfos.value| + |ks|) % 256, keyInfos := Some(t.keyInfos.value + AllSome(KmisRead(ks))))
  }

  lemma AppendEmpty(t: Token, after: seq<byte>)
    requires t.keyInfos.Some? && t.infoSize as nat == |t.keyInfos.value| % 256
    ensures ReadKmis(In(KmisBytes([]), after), t) == Outcome(KmisPadded([]), Appended(t, []), In([], after))
  {
    assert t.keyInfos.value + AllSome(KmisRead([])) == t.keyInfos.value;
    assert In(KmisBytes([]), after) == In([], after);
  }

  /** A store at the end of the array extends it by one cell. */
  lemma StoreKmiAppends(t: Token, e: KeyManagementInfo)
    requires t.keyInfos.Some? && t.infoSize as nat == |t.keyInfos.value|
    ensures StoreKmi(t, e) == t.(infoSize := (|t.keyInfos.value| + 1) % 256, keyInfos := Some(t.keyInfos.value + [Some(e)]))
  {
    var s := t.keyInfos.value;
    assert PutAt(s, |s|, e) == s + [Some(e)];
  }

  /** The rest of the list, read after the first entry was appended. */
  lemma AppendTail(t: Token, ks: seq<KmiDer>, t1: Token, after: seq<byte>)
    requires ks != [] && !KmiPadded(ks[0]) && t.keyInfos.Some?
    requires t1 == t.(infoSize := (|t.keyInfos.value| + 1) % 256, keyInfos := Some(t.keyInfos.value + [Some(KmiRead(ks[0]))]))
    ensures KmisPadded(ks[1..]) == KmisPadded(ks) && Appended(t1, ks[1..]) == Appended(t, ks)
  {
    var s := t.keyInfos.value;
    var e := KmiRead(ks[0]);
    assert KmisRead(ks) == [e] + KmisRead(ks[1..]);
    assert AllSome(KmisRead(ks)) == [Some(e)] + AllSome(KmisRead(ks[1..]));
    assert (s + [Some(e)]) + AllSome(KmisRead(ks[1..])) == s + AllSome(KmisRead(ks));
  }

  /** As written: a [0] element holding 256 entries is counted as 256, so
      `calloc` is asked for 256 % 256 = 0 cells. The loop still stores all
      256 entries, every one of them past that empty block, and the read
      succeeds with the count wrapped back to 0. */
  lemma KeyInfosOverrun(t: Token, ks: seq<KmiDer>, c: seq<byte>, after: seq<byte>)
    requires KmisFit(ks) && |ks| == 256 && !KmisPadded(ks) && NoInfoFirst(c + after)
    ensures |KmisBytes(ks)| <= 0xFFFF_FFFF
    ensures CountElems(In(KmisBytes(ks), c + after)) == Ok(256)
    ensures KeyInfos(In(Tlv(TagCtx0, KmisBytes(ks)) + c, after), t) ==
      Ok((t.(infoSize := 0, keyInfos := Some(AllSome(KmisRead(ks)))), In(c, after)))
  {
    var rest := c + after;
    var v := KmisBytes(ks);
    EnterNext(TagCtx0, v, c, after);
    KmisCount(ks, rest);
    var t0 := t.(infoSize := 0, keyInfos := Some(Nulls(256 % 256)));
    KmisPastBlock(t0, ks, rest);
    AppendFromEmpty(t0, ks);
    KeyInfosSteps(In(Tlv(TagCtx0, v) + c, after), t, In(v, rest), In(c, after), 256, ReadKmis(In(v, rest), t0));
  }

  /** Entries appended to an empty array are the whole array. */
  lemma AppendFromEmpty(t: Token, ks: seq<KmiDer>)
    requires t.keyInfos.Some? && t.keyInfos.value == []
    ensures Appended(t, ks) == t.(infoSize := |ks| % 256, keyInfos := Some(AllSome(KmisRead(ks))))
  {
    var a := Appended(t, ks);
    assert a.keyInfos == Some(AllSome(KmisRead(ks))) by {
      assert t.keyInfos.value + AllSome(KmisRead(ks)) == AllSome(KmisRead(ks));
    }
    assert a.infoSize == |ks| % 256;
    assert a.version == t.version && a.objSize == t.objSize && a.objects == t.objects;
  }

  /** The store with the bounds check the loop lacks: an entry that would
      land past the block is refused with `ak_error_invalid_token`, and the
      array keeps its length. */
  function StoreKmiChecked(t: Token, e: KeyManagementInfo): (r: Result<Token>)
    requires t.keyInfos.Some?
    ensures r.Ok? <==> (t.infoSize as nat) < |t.keyInfos.value|
    ensures r.Ok? ==> r.value.keyInfos.Some? && |r.value.keyInfos.value| == |t.keyInfos.value|
    ensures r.Ok? ==> r.value == StoreKmi(t, e)
    ensures r.Err? ==> r.error == InvalidToken
  {
    if (t.infoSize as nat) < |t.keyInfos.value| then Ok(StoreKmi(t, e)) else Err(InvalidToken)
  }

  /** The entry loop with the checked store. Whatever the input, the array
      that comes out has as many cells as the one that went in. */
  function ReadKmisChecked(k: Window, t: Token): (r: Result<(Token, Window)>)
    requires t.keyInfos.Some?
    ensures r.Ok? ==> r.value.0.keyInfos.Some? && |r.value.0.keyInfos.value| == |t.keyInfos.value|
    decreases k.size
  {
    if k.size == 0 then Ok((t, k))
    else
      match GetSnglKmi(k)
      case Err(e) => Err(e)
      case Ok((entry, k1)) =>
        match StoreKmiChecked(t, entry)
        case Err(e) => Err(e)
        case Ok(t1) => ReadKmisChecked(k1, t1)
  }

  /** `pkcs_15_get_key_management_info` with the checked store: a success
      leaves exactly the cells `calloc` handed out, the element count
      modulo 256, so no entry is ever written past the block. */
  function KeyInfosChecked(w: Window, t: Token): (r: Result<(Token, Window)>)
    ensures r.Ok? ==> Enter(w, TagCtx0).Ok? && CountElems(Enter(w, TagCtx0).value.0).Ok?
    ensures r.Ok? ==> r.value.0.keyInfos.Some?
    ensures r.Ok? ==> |r.value.0.keyInfos.value| == CountElems(Enter(w, TagCtx0).value.0).value % 256
  {
    match Enter(w, TagCtx0)
    case Err(e) => Err(e)
    case Ok((k, next)) =>
      match CountElems(k)
      case Err(e) => Err(e)
      case Ok(n) =>
        match ReadKmisChecked(k, t.(infoSize := 0, keyInfos := Some(Nulls(n % 256))))
        case Err(e) => Err(e)
        case Ok((t1, k1)) => if k1.size != 0 then Err(InvalidToken) else Ok((t1, next))
  }

  /** Whenever the checked loop succeeds, the loop as written gives the
      same; and whenever the loop as written succeeds without growing the
      array, the checked loop gives the same. */
  lemma {:induction false} ReadKmisCheckedAgrees(k: Window, t: Token)
    requires t.keyInfos.Some?
    ensures ReadKmisChecked(k, t).Ok? ==> ReadKmis(k, t) == ReadKmisChecked(k, t)
    ensures ReadKmis(k, t).Ok? && |ReadKmis(k, t).value.0.keyInfos.value| == |t.keyInfos.value| ==>
      ReadKmisChecked(k, t) == ReadKmis(k, t)
    decreases k.size
  {
    if k.size != 0 {
      var s := GetSnglKmi(k);
      if s.Ok? && (t.infoSize as nat) < |t.keyInfos.value| {
        ReadKmisCheckedAgrees(s.value.1, StoreKmi(t, s.value.0));
      }
    }
  }

  /** The checked reader reads every well-formed [0] element of at most 255
      entries exactly as the reader as written does. */
  lemma KeyInfosCheckedDecodes(t: Token, ks: seq<KmiDer>, c: seq<byte>, after: seq<byte>)
    requires KmisFit(ks) && |ks| <= 255 && NoInfoFirst(c + after)
    ensures KeyInfosChecked(In(KmiElem(ks) + c, after), t) ==
      Outcome(KmisPadded(ks), t.(infoSize := |ks|, keyInfos := Some(AllSome(KmisRead(ks)))), In(c, after))
  {
    var rest := c + after;
    var k := In(KmisBytes(ks), rest);
    var t0 := t.(infoSize := 0, keyInfos := Some(Nulls(|ks| % 256)));
    var rr := Outcome(KmisPadded(ks), t.(infoSize := |ks|, keyInfos := Some(AllSome(KmisRead(ks)))), In([], rest));
    KeyInfosEnter(ks, c, after);
    KmisFromFresh(t, ks, rest);
    SmallMod(|ks|, 256);
    if KmisPadded(ks) {
      KmisCheckedPadded(t0, ks, rest);
    } else {
      ReadKmisCheckedAgrees(k, t0);
    }
    assert ReadKmisChecked(k, t0) == rr;
    KeyInfosCheckedSteps(In(KmiElem(ks) + c, after), t, k, In(c, after), |ks|, rr);
  }

  /** `KeyInfosChecked` step by step. */
  lemma KeyInfosCheckedSteps(w: Window, t: Token, k: Window, next: Window, n: nat, rr: Result<(Token, Window)>)
    requires Enter(w, TagCtx0) == Ok((k, next))
    requires CountElems(k) == Ok(n)
    requires rr == ReadKmisChecked(k, t.(infoSize := 0, keyInfos := Some(Nulls(n % 256))))
    ensures KeyInfosChecked(w, t) == if rr.Err? then Err(rr.error)
      else if rr.value.1.size != 0 then Err(InvalidToken) else Ok((rr.value.0, next))
  {
  }


  /** A list with a padded entry is refused by the checked reader too, as
      long as it fits the array. */
  lemma {:induction false} KmisCheckedPadded(t: Token, ks: seq<KmiDer>, after: seq<byte>)
    requires KmisFit(ks) && NoInfoFirst(after) && KmisPadded(ks)
    requires t.keyInfos.Some? && t.infoSize as nat + |ks| <= |t.keyInfos.value| <= 255
    ensures ReadKmisChecked(In(KmisBytes(ks), after), t) == Err(InvalidToken)
    decreases |ks|
  {
    KmisFirst(ks, after);
    if !KmiPadded(ks[0]) {
      StoreKmiNext(t, KmiRead(ks[0]));
      KmisCheckedPadded(StoreKmi(t, KmiRead(ks[0])), ks[1..], after);
    }
  }

  /** The first entry of a non-empty list is read whole. */
  lemma KmisFirst(ks: seq<KmiDer>, after: seq<byte>)
    requires KmisFit(ks) && NoInfoFirst(after) && ks != []
    ensures KmisFit(ks[1..])
    ensures GetSnglKmi(In(KmisBytes(ks), after)) == Outcome(KmiPadded(ks[0]), KmiRead(ks[0]), In(KmisBytes(ks[1..]), after))
  {
    var k := ks[0];
    var tl := KmisBytes(ks[1..]);
    assert KmisBytes(ks) == KmiBytes(k) + tl;
    assert KmisFit(ks[1..]);
    assert NoInfoFirst(tl + after) by {
      if ks[1..] != [] { assert (tl + after)[0] == tl[0]; } else { assert tl + after == after; }
    }
    KmiDecodes(k, tl, after);
  }

  /** The checked reader refuses a [0] element of 256 entries, which the
      reader as written stores past its block (`KeyInfosOverrun`). */
  lemma KeyInfosCheckedRefuses(t: Token, ks: seq<KmiDer>, c: seq<byte>, after: seq<byte>)
    requires KmisFit(ks) && |ks| == 256 && NoInfoFirst(c + after)
    ensures |KmisBytes(ks)| <= 0xFFFF_FFFF
    ensures KeyInfosChecked(In(Tlv(TagCtx0, KmisBytes(ks)) + c, after), t) == Err(InvalidToken)
  {
    var rest := c + after;
    var v := KmisBytes(ks);
    EnterNext(TagCtx0, v, c, after);
    KmisCount(ks, rest);
    KmisFirst(ks, rest);
    var t0 := t.(infoSize := 0, keyInfos := Some(Nulls(256 % 256)));
    assert ReadKmisChecked(In(v, rest), t0) == Err(InvalidToken);
    KeyInfosCheckedSteps(In(Tlv(TagCtx0, v) + c, after), t, In(v, rest), In(c, after), 256, Err(InvalidToken));
  }

  /** The [0] direct element of a secret key object. */
  lemma DirectDecodes(ob: Pkcs15Object, o: ObjDer, c: seq<byte>, after: seq<byte>)
    requires ObjFit(o)
    ensures GetDirectObj(In(DirectBytes(o) + c, after), ob) == Outcome(o.directTail != [], ob.(secKey := Some(o.key)), In(c, after))
  {
    var rest := c + after;
    EnterNext(TagCtx0, Tlv(TagGostKey, o.key) + o.directTail, c, after);
    PrimNext(TagGostKey, o.key, o.directTail, rest);
    GetDirectObjSteps(In(DirectBytes(o) + c, after), ob, In(Tlv(TagGostKey, o.key) + o.directTail, rest), In(c, after),
      o.key, In(o.directTail, rest));
  }

  /** `GetDirectObj` with a key. */
  lemma GetDirectObjSteps(w: Window, ob: Pkcs15Object, d: Window, next: Window, key: seq<byte>, d1: Window)
    requires Enter(w, TagCtx0) == Ok((d, next))
    requires PeekIs(d, TagGostKey) && GetGostKey(d) == Ok((key, d1))
    ensures GetDirectObj(w, ob) == if d1.size != 0 then Err(InvalidToken) else Ok((ob.(secKey := Some(key)), next))
  {
  }

  /** A secret key object, read into a fresh object. */
  lemma ObjDecodes(o: ObjDer, c: seq<byte>, after: seq<byte>)
    requires ObjFit(o)
    ensures GetObj(In(ObjBytes(o) + c, after), ZeroObject) == Outcome(ObjPadded(o), ObjRead(o), In(c, after))
  {
    var rest := c + after;
    var w := In(ObjBytes(o) + c, after);
    var v := In(DirectBytes(o) + o.tail, rest);
    EnterNext(TagCtx3, DirectBytes(o) + o.tail, c, after);
    assert v.rest[0] == DirectBytes(o)[0];
    DirectDecodes(ZeroObject.(objType := SecKey), o, o.tail, rest);
    GetObjSteps(w, ZeroObject, v, In(c, after), GetDirectObj(v, ZeroObject.(objType := SecKey)));
  }

  /** `GetObj` on an element with tag [3] whose content starts with [0]. */
  lemma GetObjSteps(w: Window, ob: Pkcs15Object, v: Window, next: Window, rd: Result<(Pkcs15Object, Window)>)
    requires PeekIs(w, TagCtx3) && Enter(w, TagCtx3) == Ok((v, next))
    requires PeekIs(v, TagCtx0) && rd == GetDirectObj(v, ob.(objType := SecKey))
    ensures GetObj(w, ob) == if rd.Err? then Err(rd.error)
      else if rd.value.1.size != 0 then Err(InvalidToken) else Ok((rd.value.0, next))
  {
  }

  /** What reading the objects `os` into slots `i` onwards of `s` gives. */
  function ObjsOutcome(s: seq<Option<Pkcs15Object>>, os: seq<ObjDer>, i: nat, after: seq<byte>): Result<(seq<Option<Pkcs15Object>>, Window)>
    requires i + |os| <= |s|
  {
    if ObjsPadded(os) then Err(InvalidToken) else Ok((Fill(s, i, ObjsRead(os)), In([], after)))
  }

  /** The objects of a list fill the slots from `i` to the end. */
  lemma {:induction false} ObjsDecodes(s: seq<Option<Pkcs15Object>>, os: seq<ObjDer>, i: nat, after: seq<byte>)
    requires ObjsFit(os) && i + |os| == |s|
    ensures ReadObjs(In(ObjsBytes(os), after), s, i) == ObjsOutcome(s, os, i, after)
    decreases |os|
  {
    if os == [] {
      ObjsEmpty(s, i, after);
    } else {
      ObjsHead(s, os, i, after);
      if !ObjPadded(os[0]) {
        var s1 := s[i := Some(ObjRead(os[0]))];
        ObjsDecodes(s1, os[1..], i + 1, after);
        ObjsTail(s, s1, os, i, after);
      }
    }
  }

  lemma ObjsEmpty(s: seq<Option<Pkcs15Object>>, i: nat, after: seq<byte>)
    requires i == |s|
    ensures ReadObjs(In(ObjsBytes([]), after), s, i) == ObjsOutcome(s, [], i, after)
  {
    assert Fill(s, i, []) == s;
  }

  /** The first object of the list, read into slot `i`. */
  lemma ObjsHead(s: seq<Option<Pkcs15Object>>, os: seq<ObjDer>, i: nat, after: seq<byte>)
    requires ObjsFit(os) && os != [] && i + |os| == |s|
    ensures ObjsFit(os[1..])
    ensures ReadObjs(In(ObjsBytes(os), after), s, i) ==
      if ObjPadded(os[0]) then Err(InvalidToken)
      else ReadObjs(In(ObjsBytes(os[1..]), after), s[i := Some(ObjRead(os[0]))], i + 1)
  {
    ObjsFitSuffix(os, 1);
    assert os[0..] == os;
    ObjsAt(os, 0, after);
    ObjsReadAt(os, 0);
    ReadObjsStep(s, i, In(ObjsBytes(os), after), ObjPadded(os[0]), ObjRead(os[0]), In(ObjsBytes(os[1..]), after));
  }

  /** The outcome for the rest of the list, once the first object is in
      slot `i`, is the outcome for the whole list. */
  lemma ObjsTail(s: seq<Option<Pkcs15Object>>, s1: seq<Option<Pkcs15Object>>, os: seq<ObjDer>, i: nat, after: seq<byte>)
    requires os != [] && !ObjPadded(os[0]) && i + |os| == |s|
    requires s1 == s[i := Some(ObjRead(os[0]))]
    ensures ObjsOutcome(s1, os[1..], i + 1, after) == ObjsOutcome(s, os, i, after)
  {
    assert ObjsPadded(os) == ObjsPadded(os[1..]);
    assert ObjsRead(os) == [ObjRead(os[0])] + ObjsRead(os[1..]);
    FillStep(s, i, ObjRead(os[0]), ObjsRead(os[1..]));
  }

  /** The object at `j` is read from its window. */
  lemma ObjsAt(os: seq<ObjDer>, j: nat, after: seq<byte>)
    requires ObjsFit(os) && j < |os|
    ensures GetObj(In(ObjsBytes(os[j..]), after), ZeroObject) ==
      Outcome(ObjPadded(os[j]), ObjsRead(os)[j], In(ObjsBytes(os[j + 1..]), after))
  {
    var s := os[j..];
    assert s[0] == os[j] && s[1..] == os[j + 1..];
    ObjsFitSuffix(os, j);
    assert ObjsBytes(s) == ObjBytes(os[j]) + ObjsBytes(os[j + 1..]);
    ObjDecodes(os[j], ObjsBytes(os[j + 1..]), after);
    ObjsReadAt(os, j);
  }

  lemma ObjsFitSuffix(os: seq<ObjDer>, j: nat)
    requires ObjsFit(os) && j <= |os|
    ensures ObjsFit(os[j..])
  {
  }

  lemma {:induction false} ObjsReadAt(os: seq<ObjDer>, j: nat)
    requires j < |os|
    ensures ObjsRead(os)[j] == ObjRead(os[j])
    decreases j
  {
    assert ObjsRead(os) == [ObjRead(os[0])] + ObjsRead(os[1..]);
    if j > 0 {
      ObjsReadAt(os[1..], j - 1);
    }
  }

  /** One more object, read with the outcome `padded`, `ob`, `w1`. */
  lemma ReadObjsStep(s: seq<Option<Pkcs15Object>>, i: nat, w: Window, padded: bool, ob: Pkcs15Object, w1: Window)
    requires i < |s|
    requires GetObj(w, ZeroObject) == Outcome(padded, ob, w1)
    ensures ReadObjs(w, s, i) == if padded then Err(InvalidToken) else ReadObjs(w1, s[i := Some(ob)], i + 1)
  {
  }

  /** Every object of a list is counted. */
  lemma {:induction false} ObjsCount(os: seq<ObjDer>, after: seq<byte>)
    requires ObjsFit(os)
    ensures CountElems(In(ObjsBytes(os), after)) == Ok(|os|)
    decreases |os|
  {
    if os != [] {
      var v := ObjsCons(os);
      ObjsCount(os[1..], after);
      CountMore(TagCtx3, v, ObjsBytes(os[1..]), after, |os| - 1);
    }
  }

  /** A list of objects is the first object's element and the rest. */
  lemma ObjsCons(os: seq<ObjDer>) returns (v: seq<byte>)
    requires ObjsFit(os) && os != []
    ensures ObjsFit(os[1..]) && |v| <= 0xFFFF_FFFF
    ensures ObjsBytes(os) == Tlv(TagCtx3, v) + ObjsBytes(os[1..])
  {
    assert ObjsFit(os[1..]);
    v := DirectBytes(os[0]) + os[0].tail;
  }

  /** The SEQUENCE of objects, followed in the token by `c`. */
  lemma ObjectsDecodes(t: Token, os: seq<ObjDer>, c: seq<byte>, after: seq<byte>)
    requires ObjsFit(os) && |os| <= 255
    ensures Objects(In(ObjectsElem(os) + c, after), t) ==
      Outcome(ObjsPadded(os), t.(objSize := |os|, objects := Some(AllSome(ObjsRead(os)))), In(c, after))
  {
    var rest := c + after;
    EnterNext(TagSequence, ObjsBytes(os), c, after);
    ObjsCount(os, rest);
    ObjsFresh(os, rest);
    ObjsDecodes(Nulls(|os| % 256), os, 0, rest);
    ObjectsSteps(In(ObjectsElem(os) + c, after), t, In(ObjsBytes(os), rest), In(c, after), |os|, ObjsOutcome(Nulls(|os| % 256), os, 0, rest));
  }

  /** The list read into a fresh array as long as the list. */
  lemma ObjsFresh(os: seq<ObjDer>, after: seq<byte>)
    requires |os| <= 255
    ensures |os| % 256 == |os| && |Nulls<Pkcs15Object>(|os| % 256)| == |os|
    ensures ObjsOutcome(Nulls(|os| % 256), os, 0, after) == Outcome(ObjsPadded(os), AllSome(ObjsRead(os)), In([], after))
  {
    assert |os| % 256 == |os|;
    FillFresh<Pkcs15Object>(ObjsRead(os));
  }

  /** `Objects` step by step. */
  lemma ObjectsSteps(w: Window, t: Token, o: Window, next: Window, n: nat, rr: Result<(seq<Option<Pkcs15Object>>, Window)>)
    requires Enter(w, TagSequence) == Ok((o, next))
    requires CountElems(o) == Ok(n)
    requires rr == ReadObjs(o, Nulls(n % 256), 0)
    ensures Objects(w, t) == if rr.Err? then Err(rr.error)
      else if rr.value.1.size != 0 then Err(InvalidToken) else Ok((t.(objSize := n % 256, objects := Some(rr.value.0)), next))
  {
  }

  /** What reading the token layout `v` into `t` gives. */
  function TokenOutcome(t: Token, v: TokenDer): Result<Token>
    requires TokenFit(v)
  {
    if TokenPadded(v) then Err(InvalidToken) else Ok(TokenRead(t, v))
  }

  /** The fields of the token SEQUENCE. */
  lemma TokenFieldsDecodes(t: Token, v: TokenDer, after: seq<byte>)
    requires TokenFit(v)
    ensures TokenFields(In(TokenContent(v), after), t) == TokenOutcome(t, v)
  {
    if v.kmis.Some? {
      FieldsWithKmis(t, v, after);
    } else {
      FieldsWithoutKmis(t, v, after);
    }
  }

  lemma FieldsWithKmis(t: Token, v: TokenDer, after: seq<byte>)
    requires TokenFit(v) && v.kmis.Some?
    ensures TokenFields(In(TokenContent(v), after), t) == TokenOutcome(t, v)
  {
    var os := ObjectsElem(v.objs) + v.tail;
    PrimNext(TagInteger, v.version, KmisOpt(v) + os, after);
    var k0 := In(KmiElem(v.kmis.value) + os, after);
    var ks := v.kmis.value;
    var t0 := t.(version := v.version);
    assert k0.rest[0] == TagCtx0;
    assert (os + after)[0] == TagSequence;
    KeyInfosDecodes(t0, ks, os, after);
    var t1 := t0.(infoSize := |ks|, keyInfos := Some(AllSome(KmisRead(ks))));
    ObjectsDecodes(t1, v.objs, v.tail, after);
    TokenFieldsSteps(In(TokenContent(v), after), t, v.version, k0, KeyInfos(k0, t0), Objects(In(os, after), t1));
  }

  lemma FieldsWithoutKmis(t: Token, v: TokenDer, after: seq<byte>)
    requires TokenFit(v) && v.kmis.None?
    ensures TokenFields(In(TokenContent(v), after), t) == TokenOutcome(t, v)
  {
    var os := ObjectsElem(v.objs) + v.tail;
    assert KmisOpt(v) + os == os;
    PrimNext(TagInteger, v.version, os, after);
    var k0 := In(os, after);
    var t0 := t.(version := v.version);
    assert k0.rest[0] == TagSequence;
    ObjectsDecodes(t0, v.objs, v.tail, after);
    TokenFieldsSteps(In(TokenContent(v), after), t, v.version, k0, Ok((t0, k0)), Objects(k0, t0));
  }

  /** `TokenFields` step by step. */
  lemma TokenFieldsSteps(k: Window, t: Token, version: seq<byte>, k0: Window, rk: Result<(Token, Window)>, ro: Result<(Token, Window)>)
    requires ExpectPrim(k, TagInteger) == Ok((version, k0))
    requires rk == if PeekIs(k0, TagCtx0) then KeyInfos(k0, t.(version := version)) else Ok((t.(version := version), k0))
    requires rk.Ok? ==> ro == Objects(rk.value.1, rk.value.0)
    ensures TokenFields(k, t) == if rk.Err? then Err(rk.error)
      else if ro.Err? then Err(ro.error) else if ro.value.1.size != 0 then Err(InvalidToken) else Ok(ro.value.0)
  {
  }

  /** The window of a SEQUENCE at the start of the input. */
  lemma TokenWindowRead(content: seq<byte>, trailing: seq<byte>)
    requires |content| <= 0xFFFF_FFFF
    ensures TokenWindow(Tlv(TagSequence, content) + trailing) == Ok(In(content, trailing))
  {
    TlvSlices(TagSequence, content, trailing);
    LenFieldRoundTrip(|content|, content + trailing);
  }

  /** `pkcs_15_parse_token` reads back every token layout, whatever octets
      follow it in the input. */
  lemma TokenDecodes(t: Token, v: TokenDer, trailing: seq<byte>)
    requires TokenFit(v)
    ensures Parse(TokenBytes(v) + trailing, t) == TokenOutcome(t, v)
  {
    TokenWindowRead(TokenContent(v), trailing);
    TokenFieldsDecodes(t, v, trailing);
  }

  // ---------------------------------------------------------------------
  // Inputs the reader refuses
  // ---------------------------------------------------------------------

  /** No input is a NULL pointer; a first octet other than a SEQUENCE tag is
      an invalid token. */
  lemma ParseRejectsStart(data: seq<byte>, t: Token)
    ensures |data| == 0 ==> Parse(data, t) == Err(NullPointer)
    ensures |data| > 0 && data[0] != TagSequence ==> Parse(data, t) == Err(InvalidToken)
  {
  }

  /** The length field after the tag of the first element of a window. */
  lemma LenNext(t: byte, v: seq<byte>, c: seq<byte>, after: seq<byte>)
    requires |v| <= 0xFFFF_FFFF
    ensures LenAfterTag(In(Tlv(t, v) + c, after)) == Ok((|v|, LenByteCnt(|v|)))
  {
    ConcatAssoc(Tlv(t, v), c, after);
    TlvSlices(t, v, c + after);
    LenFieldRoundTrip(|v|, v + (c + after));
  }

  /** A PWRI ([3]) or KEKRI ([2]) element after the key id is skipped on the
      window of the list, not on the entry, so the entry keeps that element
      and its leftover check fails, unless the skip itself fails first. */
  lemma KmiSkipFails(id: seq<byte>, tag: byte, v: seq<byte>, tail: seq<byte>, c: seq<byte>, after: seq<byte>)
    requires tag == TagCtx3 || tag == TagCtx2
    requires Leaf(id) && Leaf(v) && Leaf(tail)
    ensures var w := In(Tlv(TagSequence, Tlv(TagOctetString, id) + (Tlv(tag, v) + tail)) + c, after);
      GetSnglKmi(w) == if Skip(In(c, after)).Err? then Err(Skip(In(c, after)).error) else Err(InvalidToken)
  {
    var info := Tlv(tag, v) + tail;
    EnterNext(TagSequence, Tlv(TagOctetString, id) + info, c, after);
    PrimNext(TagOctetString, id, info, c + after);
    assert info[0] == tag;
  }

  /** A PRI_KEY ([0]) or PUB_KEY ([1]) object is skipped by its length and
      the size of its length field, which leaves the cursor on its last
      octet; the element expected there has the object's tag, so the read
      fails whenever that octet is something else. */
  lemma ObjSkipFails(tag: byte, v: seq<byte>, c: seq<byte>, after: seq<byte>, o: Pkcs15Object)
    requires tag == TagCtx0 || tag == TagCtx1
    requires Leaf(v) && Tlv(tag, v)[|v| + LenByteCnt(|v|)] != tag
    ensures GetObj(In(Tlv(tag, v) + c, after), o) == Err(ReadFailed)
  {
    var e := Tlv(tag, v);
    var w := In(e + c, after);
    LenNext(tag, v, c, after);
    var n := |v| + LenByteCnt(|v|);
    assert w.rest[n] == e[n];
    ObjSkipEnter(w, tag, n, o);
  }

  lemma ObjSkipEnter(w: Window, tag: byte, n: nat, o: Pkcs15Object)
    requires tag == TagCtx0 || tag == TagCtx1
    requires PeekIs(w, tag) && LenAfterTag(w).Ok? && LenAfterTag(w).value.0 + LenAfterTag(w).value.1 == n
    requires n < w.size && n < |w.rest| && w.rest[n] != tag
    ensures GetObj(w, o) == Err(ReadFailed)
  {
    assert Skip(w) == Ok(Window(w.rest[n..], w.size - n));
  }

  /** A protected object ([2] inside [3]) is skipped on the object's window
      by the length and the size of the length field of [2], which leaves
      an octet of it unread: the leftover check fails. */
  lemma ProtectedFails(p: seq<byte>, rest: seq<byte>, c: seq<byte>, after: seq<byte>, o: Pkcs15Object)
    requires Leaf(p) && Leaf(rest)
    ensures GetObj(In(Tlv(TagCtx3, Tlv(TagCtx2, p) + rest) + c, after), o) == Err(InvalidToken)
  {
    var inner := Tlv(TagCtx2, p) + rest;
    var w := In(Tlv(TagCtx3, inner) + c, after);
    EnterNext(TagCtx3, inner, c, after);
    var v := In(inner, c + after);
    LenNext(TagCtx2, p, rest, c + after);
    assert v.rest[0] == TagCtx2;
    ProtectedSkip(w, v, In(c, after), o.(objType := SecKey));
  }

  lemma ProtectedSkip(w: Window, v: Window, next: Window, o: Pkcs15Object)
    requires PeekIs(w, TagCtx3) && Enter(w, TagCtx3) == Ok((v, next))
    requires PeekIs(v, TagCtx2) && LenAfterTag(v).Ok?
    requires LenAfterTag(v).value.0 + LenAfterTag(v).value.1 < v.size
    ensures GetObj(w, o) == Err(InvalidToken)
  {
  }

  /** The count of a list of objects is kept in 8 bits: a list of 256 reads
      as an array of none, and the list is left unread. */
  lemma ObjectsCountWraps(os: seq<ObjDer>, c: seq<byte>, after: seq<byte>, t: Token)
    requires ObjsFit(os) && |os| == 256
    ensures Objects(In(Tlv(TagSequence, ObjsBytes(os)) + c, after), t) == Err(InvalidToken)
  {
    var rest := c + after;
    EnterNext(TagSequence, ObjsBytes(os), c, after);
    ObjsCount(os, rest);
    assert ObjsBytes(os) == ObjBytes(os[0]) + ObjsBytes(os[1..]);
    var o := In(ObjsBytes(os), rest);
    assert ReadObjs(o, Nulls(256 % 256), 0) == Ok((Nulls(0), o));
    ObjectsSteps(In(Tlv(TagSequence, ObjsBytes(os)) + c, after), t, o, In(c, after), 256, Ok((Nulls(0), o)));
  }

  // ---------------------------------------------------------------------
  // Octets after the token
  // ---------------------------------------------------------------------

  /** `pkcs_15_parse_token` as written reads a token the same way whatever
      octets follow it inside `size`. */
  lemma ParseIgnoresTrailing(t: Token, v: TokenDer, trailing: seq<byte>)
    requires TokenFit(v)
    ensures Parse(TokenBytes(v) + trailing, t) == Parse(TokenBytes(v), t)
  {
    TokenDecodes(t, v, trailing);
    TokenDecodes(t, v, []);
    assert TokenBytes(v) + [] == TokenBytes(v);
  }

  /** The start of the parser with the outer length compared with `size`:
      the token SEQUENCE must fill the input. */
  function TokenWindowStrict(data: seq<byte>): (r: Result<Window>)
  {
    if |data| == 0 then Err(NullPointer)
    else if data[0] != TagSequence then Err(InvalidToken)
    else
      match LenAfterTag(Window(data, |data|))
      case Err(e) => Err(e)
      case Ok(f) =>
        if 1 + f.1 + f.0 != |data| then Err(InvalidToken) else Ok(Window(data[1 + f.1..], f.0))
  }

  /** `pkcs_15_parse_token` with the outer length compared with `size`. */
  function ParseStrict(data: seq<byte>, t: Token): (r: Result<Token>)
    ensures r.Ok? ==> Parse(data, t) == r
  {
    match TokenWindowStrict(data)
    case Err(e) => Err(e)
    case Ok(k) => TokenFields(k, t)
  }

  /** The strict parser reads back every token layout that fills the input,
      and refuses one followed by anything. */
  lemma ParseStrictDecodes(t: Token, v: TokenDer, trailing: seq<byte>)
    requires TokenFit(v)
    ensures ParseStrict(TokenBytes(v) + trailing, t) ==
      if trailing != [] then Err(InvalidToken) else TokenOutcome(t, v)
  {
    var content := TokenContent(v);
    TlvSlices(TagSequence, content, trailing);
    LenFieldRoundTrip(|content|, content + trailing);
    if trailing == [] {
      TokenDecodes(t, v, trailing);
    }
  }
}
