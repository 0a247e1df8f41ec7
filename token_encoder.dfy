/** `pkcs_15_generate_token` and the `pkcs_15_put_*` helpers: the token is
    built back to front in one 2000-octet buffer. Every helper first writes its
    children, each in front of the one before, then reserves the tag and
    length octets in front of them.

    Each helper is specified by a function of its input and of the room left
    in front of the cursor. The function gives the octets the helper puts in
    front of what is already there, or the error it returns, including the
    failure of a cursor move past the start of the buffer. */
module TokenEncoder {
  import opened Common
  import opened AsnLength
  import opened TokenModel

  // ---------------------------------------------------------------------
  // Specification
  // ---------------------------------------------------------------------

  /** An outcome once `done` has been written: the octets still to come in
      front of `done`. */
  function Prefixed(rest: Result<seq<byte>>, done: seq<byte>): (r: Result<seq<byte>>)
    ensures r.Ok? <==> rest.Ok?
    ensures r.Ok? ==> r.value == rest.value + done
    ensures r.Err? ==> r == rest
  {
    if rest.Ok? then Ok(rest.value + done) else rest
  }

  /** `asn_put_universal_tlv` with a value: one cursor move over the whole
      element, then tag, length and content. The helper is not part of this
      model; this is the contract its callers rely on. */
  function PrimSpec(tag: byte, content: seq<byte>, room: nat): (r: Result<seq<byte>>)
    requires room <= BufferSize
    ensures r.Ok? ==> |r.value| <= room
  {
    if FullSize(|content|) > room then Err(CursorOutOfRange) else Ok(Tlv(tag, content))
  }

  /** The tag and length of a constructed element in front of its `inner`
      octets, written either by `asn_put_universal_tlv` with no value or by
      `ps_move_cursor`, `asn_put_tag` and `asn_put_len`. `room` is what is left
      in front of `inner`. */
  function WrapSpec(tag: byte, inner: seq<byte>, room: nat): (r: Result<seq<byte>>)
    requires room + |inner| <= BufferSize
    ensures r.Ok? ==> |r.value| <= room + |inner|
  {
    if 1 + LenByteCnt(|inner|) > room then Err(CursorOutOfRange) else Ok(Tlv(tag, inner))
  }

  /** An optional primitive: nothing when the pointer is NULL. */
  function OptionalPrim(tag: byte, value: Option<seq<byte>>, room: nat): (r: Result<seq<byte>>)
    requires room <= BufferSize
    ensures r.Ok? ==> |r.value| <= room
  {
    if value.None? then Ok([]) else PrimSpec(tag, value.value, room)
  }

  /** The prf element: the PRF identifier inside a SEQUENCE. */
  function PrfSpec(room: nat): (r: Result<seq<byte>>)
    requires room <= BufferSize
    ensures r.Ok? ==> |r.value| <= room
  {
    var oid :- PrimSpec(TagOid, PrfOidBytes, room);
    WrapSpec(TagSequence, oid, room - |oid|)
  }

  /** iterationCount, then salt in front of it. */
  function IterationAndSalt(p: PwdInfo, room: nat): (r: Result<seq<byte>>)
    requires p.salt.Some? && p.iterationCount.Some? && room <= BufferSize
    ensures r.Ok? ==> |r.value| <= room
  {
    var it :- PrimSpec(TagInteger, p.iterationCount.value, room);
    Prefixed(PrimSpec(TagOctetString, p.salt.value, room - |it|), it)
  }

  /** keyLength when present, then iterationCount and salt. */
  function KeyLengthOnward(p: PwdInfo, room: nat): (r: Result<seq<byte>>)
    requires p.salt.Some? && p.iterationCount.Some? && room <= BufferSize
    ensures r.Ok? ==> |r.value| <= room
  {
    var kl :- OptionalPrim(TagInteger, p.keyLen, room);
    Prefixed(IterationAndSalt(p, room - |kl|), kl)
  }

  /** The fields of the PBKDF2 parameters in the order they are written:
      prf, keyLength, iterationCount, salt, each in front of the one before. */
  function ParamsFields(p: PwdInfo, room: nat): (r: Result<seq<byte>>)
    requires p.salt.Some? && p.iterationCount.Some? && room <= BufferSize
    ensures r.Ok? ==> |r.value| <= room
  {
    var prf :- PrfSpec(room);
    Prefixed(KeyLengthOnward(p, room - |prf|), prf)
  }

  /** `pkcs_15_put_params_pbkdf2`: the fields inside a SEQUENCE. */
  function PutParamsSpec(p: PwdInfo, room: nat): (r: Result<seq<byte>>)
    requires room <= BufferSize
    ensures r.Ok? ==> |r.value| <= room
  {
    if p.salt.None? || p.iterationCount.None? || p.prfId.None? then Err(NullPointer)
    else if !SameCString(p.prfId.value, PrfOid) then Err(WrongOid)
    else
      var inner :- ParamsFields(p, room);
      WrapSpec(TagSequence, inner, room - |inner|)
  }

  /** `pkcs_15_put_alg_id`: the PBKDF2 parameters when a salt is present,
      the PBKDF2 identifier in front of them, inside a SEQUENCE. */
  function PutAlgIdSpec(p: PwdInfo, room: nat): (r: Result<seq<byte>>)
    requires room <= BufferSize
    ensures r.Ok? ==> |r.value| <= room
  {
    if p.algorithm.None? then Err(NullPointer)
    else if !SameCString(p.algorithm.value, Pbkdf2Oid) then Err(WrongOid)
    else
      var params :- if p.salt.Some? then PutParamsSpec(p, room) else Ok([]);
      var oid :- PrimSpec(TagOid, Pbkdf2OidBytes, room - |params|);
      WrapSpec(TagSequence, oid + params, room - |params| - |oid|)
  }

  /** `pkcs_15_put_password_info`: the algorithm identifier, the hint in
      front of it when there is one, inside a [0] element. */
  function PutPasswordInfoSpec(p: Option<PwdInfo>, room: nat): (r: Result<seq<byte>>)
    requires room <= BufferSize
    ensures r.Ok? ==> |r.value| <= room
  {
    if p.None? then Err(NullPointer)
    else
      var alg :- PutAlgIdSpec(p.value, room);
      var hint :- if p.value.hint.Some? then PrimSpec(TagUtf8, HintBytes(p.value.hint.value), room - |alg|) else Ok([]);
      WrapSpec(TagCtx0, hint + alg, room - |alg| - |hint|)
  }

  /** The switch of `pkcs_15_put_key_management_info` on the type: password
      information is written, the two other named types are refused, and an
      unnamed type writes nothing. */
  function KmiInfoSpec(k: KeyManagementInfo, room: nat): (r: Result<seq<byte>>)
    requires room <= BufferSize
    ensures r.Ok? ==> |r.value| <= room
  {
    match k.kmiType
    case PasswordInfo => PutPasswordInfoSpec(k.pwdInfo, room)
    case Kekri => Err(InvalidValue)
    case Pwri => Err(InvalidValue)
    case OtherKmi(_) => Ok([])
  }

  /** `pkcs_15_put_key_management_info`: the key information (none for a
      type the switch does not name), the key id in front of it, inside a
      SEQUENCE. */
  function PutKmiSpec(k: KeyManagementInfo, room: nat): (r: Result<seq<byte>>)
    requires room <= BufferSize
    ensures r.Ok? ==> |r.value| <= room
  {
    if |k.keyId| > 255 then Err(WrongLength)
    else
      var info :- KmiInfoSpec(k, room);
      var id :- PrimSpec(TagOctetString, k.keyId, room - |info|);
      WrapSpec(TagSequence, id + info, room - |info| - |id|)
  }

  /** `pkcs_15_put_gost_key`, which is not part of this model: a NULL key is
      refused, otherwise the key's [27] element is written. */
  function PutGostKeySpec(key: Option<seq<byte>>, room: nat): (r: Result<seq<byte>>)
    requires room <= BufferSize
    ensures r.Ok? ==> |r.value| <= room
  {
    if key.None? then Err(NullPointer) else PrimSpec(TagGostKey, key.value, room)
  }

  /** `pkcs_15_put_obj_direct`: a secret key inside a [0] element; every
      other type is refused. */
  function PutObjDirectSpec(o: Pkcs15Object, room: nat): (r: Result<seq<byte>>)
    requires room <= BufferSize
    ensures r.Ok? ==> |r.value| <= room
  {
    var key :- if o.objType.SecKey? then PutGostKeySpec(o.secKey, room) else Err(InvalidValue);
    WrapSpec(TagCtx0, key, room - |key|)
  }

  /** `pkcs_15_put_obj`: the direct element inside a [3] element. The cursor
      is moved before the type is looked at again. */
  function PutObjSpec(o: Pkcs15Object, room: nat): (r: Result<seq<byte>>)
    requires room <= BufferSize
    ensures r.Ok? ==> |r.value| <= room
  {
    var d :- PutObjDirectSpec(o, room);
    if 1 + LenByteCnt(|d|) > room - |d| then Err(CursorOutOfRange)
    else if !o.objType.SecKey? then Err(InvalidValue)
    else Ok(Tlv(TagCtx3, d))
  }

  /** Iterations i..n-1 of the loop of `pkcs_15_put_pkcs_objects`. */
  function PutObjectsFrom(objs: seq<Option<Pkcs15Object>>, i: nat, n: nat, room: nat): (r: Result<seq<byte>>)
    requires n <= |objs| && room <= BufferSize
    ensures r.Ok? ==> |r.value| <= room
    decreases n - i
  {
    if i >= n then Ok([])
    else if objs[i].None? then Err(NullPointer)
    else
      var b :- PutObjSpec(objs[i].value, room);
      Prefixed(PutObjectsFrom(objs, i + 1, n, room - |b|), b)
  }

  /** `pkcs_15_put_pkcs_objects` with its `int8_t` count `size`: the objects,
      each in front of the one before, inside a SEQUENCE. A negative count
      runs the loop zero times. */
  function PutObjectsSpec(objs: seq<Option<Pkcs15Object>>, size: int, room: nat): (r: Result<seq<byte>>)
    requires size <= |objs| && room <= BufferSize
    ensures r.Ok? ==> |r.value| <= room
  {
    if size == 0 then Err(NullPointer)
    else
      var body :- PutObjectsFrom(objs, 0, if size < 0 then 0 else size, room);
      WrapSpec(TagSequence, body, room - |body|)
  }

  /** Iterations i..n-1 of the key management loop of
      `pkcs_15_generate_token`. */
  function PutKmisFrom(kis: seq<Option<KeyManagementInfo>>, i: nat, n: nat, room: nat): (r: Result<seq<byte>>)
    requires n <= |kis| && room <= BufferSize
    ensures r.Ok? ==> |r.value| <= room
    decreases n - i
  {
    if i >= n then Ok([])
    else if kis[i].None? then Err(NullPointer)
    else
      var b :- PutKmiSpec(kis[i].value, room);
      Prefixed(PutKmisFrom(kis, i + 1, n, room - |b|), b)
  }

  /** The arrays of a token hold at least as many entries as their counts. */
  predicate Counted(t: Token) {
    (t.objects.Some? ==> t.objSize as int <= |t.objects.value|) &&
    (t.keyInfos.Some? ==> t.infoSize as int <= |t.keyInfos.value|)
  }

  /** The key management part of `pkcs_15_generate_token`: nothing when
      `m_info_size` is 0, otherwise the entries inside a [0] element. */
  function PutKeyInfosSpec(t: Token, room: nat): (r: Result<seq<byte>>)
    requires Counted(t) && room <= BufferSize
    ensures r.Ok? ==> |r.value| <= room
  {
    if t.infoSize == 0 then Ok([])
    else if t.keyInfos.None? then Err(NullPointer)
    else
      var body :- PutKmisFrom(t.keyInfos.value, 0, t.infoSize as int, room);
      if |body| == 0 then Ok([]) else WrapSpec(TagCtx0, body, room - |body|)
  }

  /** The key management information, then the version in front of it. */
  function KmiAndVersion(t: Token, room: nat): (r: Result<seq<byte>>)
    requires Counted(t) && room <= BufferSize
    ensures r.Ok? ==> |r.value| <= room
  {
    var kmi :- PutKeyInfosSpec(t, room);
    Prefixed(PrimSpec(TagInteger, t.version, room - |kmi|), kmi)
  }

  /** The objects, the key management information and the version, each in
      front of the one before. */
  function TokenFields(t: Token, size: int, room: nat): (r: Result<seq<byte>>)
    requires Counted(t) && t.objects.Some? && size <= |t.objects.value| && room <= BufferSize
    ensures r.Ok? ==> |r.value| <= room
  {
    var objs :- PutObjectsSpec(t.objects.value, size, room);
    Prefixed(KmiAndVersion(t, room - |objs|), objs)
  }

  /** `pkcs_15_generate_token` with the object loop run `size` times: the
      fields inside a SEQUENCE. */
  function GenerateWith(t: Token, size: int): (r: Result<seq<byte>>)
    requires Counted(t)
    requires t.objects.Some? ==> size <= |t.objects.value|
    ensures r.Ok? ==> |r.value| <= BufferSize
    ensures r.Ok? ==> t.objects.Some? && t.objSize != 0
  {
    if t.objects.None? || t.objSize == 0 then Err(InvalidValue)
    else
      var inner :- TokenFields(t, size, BufferSize);
      WrapSpec(TagSequence, inner, BufferSize - |inner|)
  }

  /** `pkcs_15_generate_token` as written: `m_obj_size` reaches
      `pkcs_15_put_pkcs_objects` through an `int8_t` parameter. */
  function Generate(t: Token): (r: Result<seq<byte>>)
    requires Counted(t)
    ensures r.Ok? ==> |r.value| <= BufferSize
    ensures r.Ok? ==> t.objects.Some? && t.objSize != 0
  {
    GenerateWith(t, Int8(t.objSize as int))
  }

  /** `pkcs_15_generate_token` with the count passed unconverted. */
  function GenerateIntended(t: Token): (r: Result<seq<byte>>)
    requires Counted(t)
    ensures r.Ok? ==> |r.value| <= BufferSize
    ensures r.Ok? ==> t.objects.Some? && t.objSize != 0
  {
    GenerateWith(t, t.objSize as int)
  }

  /** The state after a helper returned `st`: on success the octets `spec`
      gives stand in front of `below`; on failure the error is the one `spec`
      gives. */
  ghost predicate Done(st: Status, now: seq<byte>, below: seq<byte>, spec: Result<seq<byte>>) {
    if spec.Ok? then st == Success && now == spec.value + below else st == Failure(spec.error)
  }

  // ---------------------------------------------------------------------
  // The buffer
  // ---------------------------------------------------------------------

  /** `s_der_buffer` in write mode: an array of `BufferSize` octets whose
      written part runs from `cursor` to the end. */
  class DerBuffer {
    var data: array<byte>
    var cursor: nat

    ghost predicate Valid()
      reads this
    {
      data.Length == BufferSize && cursor <= BufferSize
    }

    /** The octets written so far (`ps_get_curr_size` of them). */
    function Contents(): (c: seq<byte>)
      reads this, data
      requires Valid()
      ensures |c| + cursor == BufferSize
    {
      data[cursor..]
    }

    /** `ps_alloc(&der, 2000, PS_W_MODE)`. */
    constructor ()
      ensures Valid() && fresh(data) && Contents() == []
    {
      data := new byte[BufferSize];
      cursor := BufferSize;
    }

    /** The tag and length of a constructed element whose `len` content
        octets are the first ones written. */
    method Wrap(tag: byte, len: nat) returns (st: Status)
      requires Valid() && len <= |Contents()|
      modifies this, data
      ensures Valid() && data == old(data)
      ensures Done(st, Contents(), old(Contents())[len..], WrapSpec(tag, old(Contents())[..len], old(cursor)))
    {
      ghost var before := Contents();
      var cnt := LenByteCnt(len);
      if 1 + cnt > cursor {
        return Failure(CursorOutOfRange);
      }
      var start := cursor - (1 + cnt);
      var p := PutTag(tag, data, start);
      ghost var mid := data[..];
      p := PutLen(len, cnt, data, p);
      assert data[start + 1..cursor] == LenField(len);
      assert data[start] == tag by { assert data[..start + 1] == mid[..start + 1]; }
      assert data[cursor..] == before by { assert mid[cursor..] == before; }
      assert data[start..] == [tag] + data[start + 1..cursor] + data[cursor..];
      cursor := start;
      assert before == before[..len] + before[len..];
      st := Success;
    }

    /** An element with the given content octets. */
    method Prim(tag: byte, content: seq<byte>) returns (st: Status)
      requires Valid()
      modifies this, data
      ensures Valid() && data == old(data)
      ensures Done(st, Contents(), old(Contents()), PrimSpec(tag, content, old(cursor)))
    {
      ghost var before := Contents();
      if FullSize(|content|) > cursor {
        return Failure(CursorOutOfRange);
      }
      var end := cursor;
      var cnt := LenByteCnt(|content|);
      var at := cursor - |content|;
      forall i | at <= i < end {
        data[i] := content[i - at];
      }
      assert data[at..end] == content;
      assert data[end..] == before;
      cursor := at;
      st := Wrap(tag, |content|);
      assert old(Contents()) == before;
    }
  }

  // ---------------------------------------------------------------------
  // The writers
  // ---------------------------------------------------------------------

  /** Two helpers run one after the other: the second one's outcome in front
      of what the first one wrote. */
  lemma DoneThen(c0: seq<byte>, c1: seq<byte>, a: Result<seq<byte>>, st: Status, c2: seq<byte>, b: Result<seq<byte>>)
    requires a.Ok? && c1 == a.value + c0
    requires Done(st, c2, c1, b)
    ensures Done(st, c2, c0, Prefixed(b, a.value))
  {
  }

  /** `pkcs_15_put_params_pbkdf2`. */
  method PutParamsPbkdf2(der: DerBuffer, p: PwdInfo) returns (st: Status)
    requires der.Valid()
    modifies der, der.data
    ensures der.Valid() && der.data == old(der.data)
    ensures Done(st, der.Contents(), old(der.Contents()), PutParamsSpec(p, old(der.cursor)))
  {
    if p.salt.None? || p.iterationCount.None? || p.prfId.None? {
      return Failure(NullPointer);
    }
    if !SameCString(p.prfId.value, PrfOid) {
      return Failure(WrongOid);
    }
    ghost var c0 := der.Contents();
    var start := der.cursor;
    st := PutParamsFields(der, p);
    if st != Success { return; }
    var len := start - der.cursor;
    ghost var inner := ParamsFields(p, start).value;
    assert (inner + c0)[..len] == inner && (inner + c0)[len..] == c0;
    st := der.Wrap(TagSequence, len);
  }

  /** prf, keyLength, iterationCount and salt. */
  method PutParamsFields(der: DerBuffer, p: PwdInfo) returns (st: Status)
    requires der.Valid() && p.salt.Some? && p.iterationCount.Some?
    modifies der, der.data
    ensures der.Valid() && der.data == old(der.data)
    ensures Done(st, der.Contents(), old(der.Contents()), ParamsFields(p, old(der.cursor)))
  {
    ghost var c0, r0 := der.Contents(), der.cursor;
    st := PutPrf(der);
    if st != Success { return; }
    ghost var c1, r1 := der.Contents(), der.cursor;
    st := PutKeyLengthOnward(der, p);
    DoneThen(c0, c1, PrfSpec(r0), st, der.Contents(), KeyLengthOnward(p, r1));
  }

  /** The `else` branch of `pkcs_15_put_params_pbkdf2`: the PRF identifier
      inside a SEQUENCE. */
  method PutPrf(der: DerBuffer) returns (st: Status)
    requires der.Valid()
    modifies der, der.data
    ensures der.Valid() && der.data == old(der.data)
    ensures Done(st, der.Contents(), old(der.Contents()), PrfSpec(old(der.cursor)))
  {
    ghost var c0 := der.Contents();
    st := der.Prim(TagOid, PrfOidBytes);
    if st != Success { return; }
    ghost var oid := Tlv(TagOid, PrfOidBytes);
    assert (oid + c0)[..|oid|] == oid && (oid + c0)[|oid|..] == c0;
    st := der.Wrap(TagSequence, FullSize(|PrfOidBytes|));
  }

  /** keyLength when present, iterationCount, salt. */
  method PutKeyLengthOnward(der: DerBuffer, p: PwdInfo) returns (st: Status)
    requires der.Valid() && p.salt.Some? && p.iterationCount.Some?
    modifies der, der.data
    ensures der.Valid() && der.data == old(der.data)
    ensures Done(st, der.Contents(), old(der.Contents()), KeyLengthOnward(p, old(der.cursor)))
  {
    ghost var c0, r0 := der.Contents(), der.cursor;
    if p.keyLen.Some? {
      st := der.Prim(TagInteger, p.keyLen.value);
      if st != Success { return; }
    }
    ghost var c1, r1 := der.Contents(), der.cursor;
    assert c1 == OptionalPrim(TagInteger, p.keyLen, r0).value + c0;
    st := PutIterationAndSalt(der, p);
    DoneThen(c0, c1, OptionalPrim(TagInteger, p.keyLen, r0), st, der.Contents(), IterationAndSalt(p, r1));
  }

  /** iterationCount, then salt. */
  method PutIterationAndSalt(der: DerBuffer, p: PwdInfo) returns (st: Status)
    requires der.Valid() && p.salt.Some? && p.iterationCount.Some?
    modifies der, der.data
    ensures der.Valid() && der.data == old(der.data)
    ensures Done(st, der.Contents(), old(der.Contents()), IterationAndSalt(p, old(der.cursor)))
  {
    ghost var c0, r0 := der.Contents(), der.cursor;
    st := der.Prim(TagInteger, p.iterationCount.value);
    if st != Success { return; }
    ghost var c1, r1 := der.Contents(), der.cursor;
    st := der.Prim(TagOctetString, p.salt.value);
    DoneThen(c0, c1, PrimSpec(TagInteger, p.iterationCount.value, r0), st, der.Contents(), PrimSpec(TagOctetString, p.salt.value, r1));
  }

  lemma PrefixedNil(x: Result<seq<byte>>)
    ensures Prefixed(x, []) == x
  {
    if x.Ok? { assert x.value + [] == x.value; }
  }

  /** A loop outcome carried over one more element `b` written in front
      of `done`. */
  lemma PrefixedStep(whole: Result<seq<byte>>, x: Result<seq<byte>>, y: Result<seq<byte>>, b: seq<byte>, done: seq<byte>)
    requires whole == Prefixed(x, done) && x == Prefixed(y, b)
    ensures whole == Prefixed(y, b + done)
  {
    if y.Ok? { assert y.value + b + done == y.value + (b + done); }
  }

  /** One iteration of the object loop whose object is written as `b`. */
  lemma ObjectsStep(objs: seq<Option<Pkcs15Object>>, i: nat, n: nat, r: nat, b: seq<byte>)
    requires i < n <= |objs| && r <= BufferSize && objs[i].Some?
    requires PutObjSpec(objs[i].value, r) == Ok(b)
    ensures |b| <= r
    ensures PutObjectsFrom(objs, i, n, r) == Prefixed(PutObjectsFrom(objs, i + 1, n, r - |b|), b)
  {
  }

  /** An object refused ends the loop with its error. */
  lemma ObjectsFail(objs: seq<Option<Pkcs15Object>>, i: nat, n: nat, r: nat, e: Error)
    requires i < n <= |objs| && r <= BufferSize && objs[i].Some?
    requires PutObjSpec(objs[i].value, r) == Err(e)
    ensures PutObjectsFrom(objs, i, n, r) == Err(e)
  {
  }

  /** The loop outcome once every iteration has written its element. */
  lemma ObjectsEnd(objs: seq<Option<Pkcs15Object>>, n: nat, r: nat, whole: Result<seq<byte>>, done: seq<byte>)
    requires n <= |objs| && r <= BufferSize
    requires LoopAt(whole, objs, n, n, r, done)
    ensures whole == Ok(done)
  {
    assert PutObjectsFrom(objs, n, n, r) == Ok([]);
    assert [] + done == done;
  }

  /** `pkcs_15_put_alg_id`. */
  method PutAlgId(der: DerBuffer, p: PwdInfo) returns (st: Status)
    requires der.Valid()
    modifies der, der.data
    ensures der.Valid() && der.data == old(der.data)
    ensures Done(st, der.Contents(), old(der.Contents()), PutAlgIdSpec(p, old(der.cursor)))
  {
    if p.algorithm.None? {
      return Failure(NullPointer);
    }
    if !SameCString(p.algorithm.value, Pbkdf2Oid) {
      return Failure(WrongOid);
    }
    ghost var c0 := der.Contents();
    var start := der.cursor;
    if p.salt.Some? {
      st := PutParamsPbkdf2(der, p);
      if st != Success { return; }
    }
    ghost var params := if p.salt.Some? then PutParamsSpec(p, start).value else [];
    assert der.Contents() == params + c0;
    st := der.Prim(TagOid, Pbkdf2OidBytes);
    if st != Success { return; }
    ghost var oid := Tlv(TagOid, Pbkdf2OidBytes);
    var len := start - der.cursor;
    assert der.Contents() == (oid + params) + c0;
    assert ((oid + params) + c0)[..len] == oid + params && ((oid + params) + c0)[len..] == c0;
    st := der.Wrap(TagSequence, len);
  }

  /** `pkcs_15_put_password_info`. */
  method PutPasswordInfo(der: DerBuffer, p: Option<PwdInfo>) returns (st: Status)
    requires der.Valid()
    modifies der, der.data
    ensures der.Valid() && der.data == old(der.data)
    ensures Done(st, der.Contents(), old(der.Contents()), PutPasswordInfoSpec(p, old(der.cursor)))
  {
    if p.None? {
      return Failure(NullPointer);
    }
    ghost var c0 := der.Contents();
    var start := der.cursor;
    st := PutAlgId(der, p.value);
    if st != Success { return; }
    ghost var alg := PutAlgIdSpec(p.value, start).value;
    if p.value.hint.Some? {
      st := der.Prim(TagUtf8, HintBytes(p.value.hint.value));
      if st != Success { return; }
    }
    ghost var hint := if p.value.hint.Some? then Tlv(TagUtf8, HintBytes(p.value.hint.value)) else [];
    var len := start - der.cursor;
    assert der.Contents() == (hint + alg) + c0;
    assert ((hint + alg) + c0)[..len] == hint + alg && ((hint + alg) + c0)[len..] == c0;
    st := der.Wrap(TagCtx0, len);
  }

  /** `pkcs_15_put_key_management_info`. */
  method PutKeyManagementInfo(der: DerBuffer, k: KeyManagementInfo) returns (st: Status)
    requires der.Valid()
    modifies der, der.data
    ensures der.Valid() && der.data == old(der.data)
    ensures Done(st, der.Contents(), old(der.Contents()), PutKmiSpec(k, old(der.cursor)))
  {
    if |k.keyId| > 255 {
      return Failure(WrongLength);
    }
    ghost var c0 := der.Contents();
    var start := der.cursor;
    st := PutKmiInfo(der, k);
    if st != Success { return; }
    ghost var info := KmiInfoSpec(k, start).value;
    st := der.Prim(TagOctetString, k.keyId);
    if st != Success { return; }
    ghost var id := Tlv(TagOctetString, k.keyId);
    var len := start - der.cursor;
    assert der.Contents() == (id + info) + c0;
    assert ((id + info) + c0)[..len] == id + info && ((id + info) + c0)[len..] == c0;
    st := der.Wrap(TagSequence, len);
  }

  /** The switch on the type in `pkcs_15_put_key_management_info`. */
  method PutKmiInfo(der: DerBuffer, k: KeyManagementInfo) returns (st: Status)
    requires der.Valid()
    modifies der, der.data
    ensures der.Valid() && der.data == old(der.data)
    ensures Done(st, der.Contents(), old(der.Contents()), KmiInfoSpec(k, old(der.cursor)))
  {
    match k.kmiType {
      case PasswordInfo =>
        st := PutPasswordInfo(der, k.pwdInfo);
      case Kekri =>
        st := Failure(InvalidValue);
      case Pwri =>
        st := Failure(InvalidValue);
      case OtherKmi(_) =>
        st := Success;
        assert der.Contents() == [] + der.Contents();
    }
  }

  /** `pkcs_15_put_gost_key`, as its callers rely on it. */
  method PutGostKey(der: DerBuffer, key: Option<seq<byte>>) returns (st: Status)
    requires der.Valid()
    modifies der, der.data
    ensures der.Valid() && der.data == old(der.data)
    ensures Done(st, der.Contents(), old(der.Contents()), PutGostKeySpec(key, old(der.cursor)))
  {
    if key.None? {
      return Failure(NullPointer);
    }
    st := der.Prim(TagGostKey, key.value);
  }

  /** `pkcs_15_put_obj_direct`. */
  method PutObjDirect(der: DerBuffer, o: Pkcs15Object) returns (st: Status)
    requires der.Valid()
    modifies der, der.data
    ensures der.Valid() && der.data == old(der.data)
    ensures Done(st, der.Contents(), old(der.Contents()), PutObjDirectSpec(o, old(der.cursor)))
  {
    if !o.objType.SecKey? {
      return Failure(InvalidValue);
    }
    ghost var c0 := der.Contents();
    var start := der.cursor;
    st := PutGostKey(der, o.secKey);
    if st != Success { return; }
    ghost var key := PutGostKeySpec(o.secKey, start).value;
    var len := start - der.cursor;
    assert (key + c0)[..len] == key && (key + c0)[len..] == c0;
    st := der.Wrap(TagCtx0, len);
  }

  /** `pkcs_15_put_obj`. The type test after the cursor move cannot refuse
      anything: the direct element has already refused every type but a
      secret key. */
  method PutObj(der: DerBuffer, o: Pkcs15Object) returns (st: Status)
    requires der.Valid()
    modifies der, der.data
    ensures der.Valid() && der.data == old(der.data)
    ensures Done(st, der.Contents(), old(der.Contents()), PutObjSpec(o, old(der.cursor)))
  {
    ghost var c0 := der.Contents();
    var start := der.cursor;
    st := PutObjDirect(der, o);
    if st != Success { return; }
    ghost var d := PutObjDirectSpec(o, start).value;
    var len := start - der.cursor;
    assert (d + c0)[..len] == d && (d + c0)[len..] == c0;
    st := der.Wrap(TagCtx3, len);
  }

  ghost predicate LoopAt(whole: Result<seq<byte>>, objs: seq<Option<Pkcs15Object>>, i: nat, n: nat, room: nat, done: seq<byte>)
    requires n <= |objs| && room <= BufferSize
  {
    whole == Prefixed(PutObjectsFrom(objs, i, n, room), done)
  }

  /** One iteration of the loop of `pkcs_15_put_pkcs_objects`: `whole` is
      the outcome of the whole loop, `done` what the iterations before wrote
      in front of `c0`. */
  method PutObjectAt(der: DerBuffer, objs: seq<Option<Pkcs15Object>>, i: nat, n: nat, ghost c0: seq<byte>, ghost done: seq<byte>, ghost whole: Result<seq<byte>>)
    returns (st: Status, ghost done': seq<byte>)
    requires i < n <= |objs| && der.Valid()
    requires der.Contents() == done + c0
    requires whole == Prefixed(PutObjectsFrom(objs, i, n, der.cursor), done)
    modifies der, der.data
    ensures der.Valid() && der.data == old(der.data)
    ensures st == Success ==> der.Contents() == done' + c0 && LoopAt(whole, objs, i + 1, n, der.cursor, done')
    ensures st != Success ==> st.Failure? && whole == Err(st.error)
  {
    done' := done;
    if objs[i].None? {
      assert PutObjectsFrom(objs, i, n, der.cursor) == Err(NullPointer);
      st := Failure(NullPointer);
      return;
    }
    var r := der.cursor;
    ghost var c := der.Contents();
    st := PutObj(der, objs[i].value);
    if st != Success {
      ObjectsFail(objs, i, n, r, st.error);
      return;
    }
    ghost var b := PutObjSpec(objs[i].value, r).value;
    ObjectsStep(objs, i, n, r, b);
    PrefixedStep(whole, PutObjectsFrom(objs, i, n, r), PutObjectsFrom(objs, i + 1, n, r - |b|), b, done);
    assert der.Contents() == b + c && der.cursor == r - |b|;
    ConcatAssoc(b, done, c0);
    done' := b + done;
  }

  /** `pkcs_15_put_pkcs_objects` with its `int8_t` count `size`. */
  method PutPkcsObjects(der: DerBuffer, objs: seq<Option<Pkcs15Object>>, size: int) returns (st: Status)
    requires der.Valid() && size <= |objs|
    modifies der, der.data
    ensures der.Valid() && der.data == old(der.data)
    ensures Done(st, der.Contents(), old(der.Contents()), PutObjectsSpec(objs, size, old(der.cursor)))
  {
    if size == 0 {
      return Failure(NullPointer);
    }
    ghost var c0 := der.Contents();
    var n: nat := if size < 0 then 0 else size;
    var start := der.cursor;
    var i: nat := 0;
    ghost var done: seq<byte> := [];
    ghost var whole := PutObjectsFrom(objs, 0, n, start);
    PrefixedNil(whole);
    while i < n
      invariant 0 <= i <= n && der.Valid() && der.data == old(der.data)
      invariant der.Contents() == done + c0
      invariant LoopAt(whole, objs, i, n, der.cursor, done)
    {
      st, done := PutObjectAt(der, objs, i, n, c0, done, whole);
      if st != Success {
        assert PutObjectsSpec(objs, size, start) == Err(st.error);
        return;
      }
      i := i + 1;
    }
    ObjectsEnd(objs, n, der.cursor, whole, done);
    assert PutObjectsSpec(objs, size, start) == WrapSpec(TagSequence, done, start - |done|);
    var len := start - der.cursor;
    assert (done + c0)[..len] == done && (done + c0)[len..] == c0;
    st := der.Wrap(TagSequence, len);
  }

  /** One iteration of the key management loop whose entry is written as
      `b`. */
  lemma KmisStep(kis: seq<Option<KeyManagementInfo>>, i: nat, n: nat, r: nat, b: seq<byte>)
    requires i < n <= |kis| && r <= BufferSize && kis[i].Some?
    requires PutKmiSpec(kis[i].value, r) == Ok(b)
    ensures |b| <= r
    ensures PutKmisFrom(kis, i, n, r) == Prefixed(PutKmisFrom(kis, i + 1, n, r - |b|), b)
  {
  }

  /** An entry refused ends the loop with its error. */
  lemma KmisFail(kis: seq<Option<KeyManagementInfo>>, i: nat, n: nat, r: nat, e: Error)
    requires i < n <= |kis| && r <= BufferSize && kis[i].Some?
    requires PutKmiSpec(kis[i].value, r) == Err(e)
    ensures PutKmisFrom(kis, i, n, r) == Err(e)
  {
  }

  ghost predicate KmiLoopAt(whole: Result<seq<byte>>, kis: seq<Option<KeyManagementInfo>>, i: nat, n: nat, room: nat, done: seq<byte>)
    requires n <= |kis| && room <= BufferSize
  {
    whole == Prefixed(PutKmisFrom(kis, i, n, room), done)
  }

  /** The loop outcome once every entry has been written. */
  lemma KmisEnd(kis: seq<Option<KeyManagementInfo>>, n: nat, r: nat, whole: Result<seq<byte>>, done: seq<byte>)
    requires n <= |kis| && r <= BufferSize
    requires KmiLoopAt(whole, kis, n, n, r, done)
    ensures whole == Ok(done)
  {
    assert PutKmisFrom(kis, n, n, r) == Ok([]);
    assert [] + done == done;
  }

  /** One iteration of the key management loop of `pkcs_15_generate_token`. */
  method PutKmiAt(der: DerBuffer, kis: seq<Option<KeyManagementInfo>>, i: nat, n: nat, ghost c0: seq<byte>, ghost done: seq<byte>, ghost whole: Result<seq<byte>>)
    returns (st: Status, ghost done': seq<byte>)
    requires i < n <= |kis| && der.Valid()
    requires der.Contents() == done + c0
    requires whole == Prefixed(PutKmisFrom(kis, i, n, der.cursor), done)
    modifies der, der.data
    ensures der.Valid() && der.data == old(der.data)
    ensures st == Success ==> der.Contents() == done' + c0 && KmiLoopAt(whole, kis, i + 1, n, der.cursor, done')
    ensures st != Success ==> st.Failure? && whole == Err(st.error)
  {
    done' := done;
    if kis[i].None? {
      assert PutKmisFrom(kis, i, n, der.cursor) == Err(NullPointer);
      st := Failure(NullPointer);
      return;
    }
    var r := der.cursor;
    ghost var c := der.Contents();
    st := PutKeyManagementInfo(der, kis[i].value);
    if st != Success {
      KmisFail(kis, i, n, r, st.error);
      return;
    }
    ghost var b := PutKmiSpec(kis[i].value, r).value;
    KmisStep(kis, i, n, r, b);
    PrefixedStep(whole, PutKmisFrom(kis, i, n, r), PutKmisFrom(kis, i + 1, n, r - |b|), b, done);
    assert der.Contents() == b + c && der.cursor == r - |b|;
    ConcatAssoc(b, done, c0);
    done' := b + done;
  }

  /** The key management part of `pkcs_15_generate_token`. */
  method PutKeyInfos(der: DerBuffer, t: Token) returns (st: Status)
    requires der.Valid() && Counted(t)
    modifies der, der.data
    ensures der.Valid() && der.data == old(der.data)
    ensures Done(st, der.Contents(), old(der.Contents()), PutKeyInfosSpec(t, old(der.cursor)))
  {
    if t.infoSize == 0 {
      st := Success;
      assert der.Contents() == [] + der.Contents();
      return;
    }
    if t.keyInfos.None? {
      return Failure(NullPointer);
    }
    var kis := t.keyInfos.value;
    var n: nat := t.infoSize as int;
    ghost var c0 := der.Contents();
    var start := der.cursor;
    var i: nat := 0;
    ghost var done: seq<byte> := [];
    ghost var whole := PutKmisFrom(kis, 0, n, start);
    PrefixedNil(whole);
    while i < n
      invariant 0 <= i <= n && der.Valid() && der.data == old(der.data)
      invariant der.Contents() == done + c0
      invariant KmiLoopAt(whole, kis, i, n, der.cursor, done)
    {
      st, done := PutKmiAt(der, kis, i, n, c0, done, whole);
      if st != Success {
        assert PutKeyInfosSpec(t, start) == Err(st.error);
        return;
      }
      i := i + 1;
    }
    KmisEnd(kis, n, der.cursor, whole, done);
    var len := start - der.cursor;
    assert |done| == len;
    if len == 0 {
      st := Success;
      assert der.Contents() == [] + c0;
      return;
    }
    assert PutKeyInfosSpec(t, start) == WrapSpec(TagCtx0, done, start - |done|);
    assert (done + c0)[..len] == done && (done + c0)[len..] == c0;
    st := der.Wrap(TagCtx0, len);
  }

  /** The key management information and the version. */
  method PutKmiAndVersion(der: DerBuffer, t: Token) returns (st: Status)
    requires der.Valid() && Counted(t)
    modifies der, der.data
    ensures der.Valid() && der.data == old(der.data)
    ensures Done(st, der.Contents(), old(der.Contents()), KmiAndVersion(t, old(der.cursor)))
  {
    ghost var c0, r0 := der.Contents(), der.cursor;
    st := PutKeyInfos(der, t);
    if st != Success { return; }
    ghost var c1, r1 := der.Contents(), der.cursor;
    st := der.Prim(TagInteger, t.version);
    DoneThen(c0, c1, PutKeyInfosSpec(t, r0), st, der.Contents(), PrimSpec(TagInteger, t.version, r1));
  }

  /** The objects, the key management information and the version. */
  method PutTokenFields(der: DerBuffer, t: Token, size: int) returns (st: Status)
    requires der.Valid() && Counted(t) && t.objects.Some? && size <= |t.objects.value|
    modifies der, der.data
    ensures der.Valid() && der.data == old(der.data)
    ensures Done(st, der.Contents(), old(der.Contents()), TokenFields(t, size, old(der.cursor)))
  {
    ghost var c0, r0 := der.Contents(), der.cursor;
    st := PutPkcsObjects(der, t.objects.value, size);
    if st != Success { return; }
    ghost var c1, r1 := der.Contents(), der.cursor;
    st := PutKmiAndVersion(der, t);
    DoneThen(c0, c1, PutObjectsSpec(t.objects.value, size, r0), st, der.Contents(), KmiAndVersion(t, r1));
  }

  /** `pkcs_15_generate_token`: `None` is a NULL token. On success the
      output holds exactly the octets of the token, otherwise it is empty. */
  method GenerateToken(token: Option<Token>) returns (st: Status, out: seq<byte>)
    requires token.Some? ==> Counted(token.value)
    ensures token.None? ==> st == Failure(NullPointer) && out == []
    ensures token.Some? ==>
      var r := Generate(token.value);
      if r.Ok? then st == Success && out == r.value else st == Failure(r.error) && out == []
  {
    out := [];
    if token.None? {
      return Failure(NullPointer), [];
    }
    var t := token.value;
    var der := new DerBuffer();
    if t.objects.None? || t.objSize == 0 {
      return Failure(InvalidValue), [];
    }
    var size := Int8(t.objSize as int);
    st := PutTokenFields(der, t, size);
    if st != Success { return; }
    ghost var inner := TokenFields(t, size, BufferSize).value;
    var len := BufferSize - der.cursor;
    assert der.Contents() == inner + [];
    assert (inner + [])[..len] == inner && (inner + [])[len..] == [];
    st := der.Wrap(TagSequence, len);
    if st != Success { return; }
    out := der.Contents();
  }
}
