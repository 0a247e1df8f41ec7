/** What `pkcs_15_generate_token` writes, as the layouts of TokenLayout, and
    the round trip through `pkcs_15_parse_token`: a token the generator
    accepts is read back with its version, its key management entries and
    its objects, each list in reverse order (both loops of the generator
    put each entry in front of the one before). */
module TokenRoundTrip {
  import opened Common
  import opened AsnLength
  import opened TokenModel
  import opened TokenLayout
  import E = TokenEncoder
  import D = TokenDecoder

  // ---------------------------------------------------------------------
  // The layouts the generator writes: no tails anywhere
  // ---------------------------------------------------------------------

  /** A salt and an iteration count: what makes the generator write
      PBKDF2 parameters that the reader takes back. */
  predicate HasParams(p: PwdInfo) { p.salt.Some? && p.iterationCount.Some? }

  function ParamsOf(p: PwdInfo): ParamsDer
    requires HasParams(p)
  {
    ParamsDer(p.salt.value, p.iterationCount.value, p.keyLen, PrfOidBytes, [], [])
  }

  function AlgIdOf(p: PwdInfo): AlgIdDer {
    AlgIdDer(Pbkdf2OidBytes, if HasParams(p) then Some(ParamsOf(p)) else None, [])
  }

  function PwdInfoOf(p: PwdInfo): PwdInfoDer {
    PwdInfoDer(if p.hint.Some? then Some(HintBytes(p.hint.value)) else None, AlgIdOf(p), [])
  }

  function KmiOf(k: KeyManagementInfo): KmiDer {
    KmiDer(k.keyId, if k.kmiType.PasswordInfo? && k.pwdInfo.Some? then Some(PwdInfoOf(k.pwdInfo.value)) else None, [])
  }

  /** Entries i..n-1 in the order they stand in the output: the last first. */
  function KmisOf(kis: seq<Option<KeyManagementInfo>>, i: nat, n: nat): seq<KmiDer>
    requires n <= |kis|
    decreases n - i
  {
    if i >= n then [] else KmisOf(kis, i + 1, n) + (if kis[i].Some? then [KmiOf(kis[i].value)] else [])
  }

  function ObjOf(o: Pkcs15Object): ObjDer {
    ObjDer(if o.secKey.Some? then o.secKey.value else [], [], [])
  }

  function ObjsOf(objs: seq<Option<Pkcs15Object>>, i: nat, n: nat): seq<ObjDer>
    requires n <= |objs|
    decreases n - i
  {
    if i >= n then [] else ObjsOf(objs, i + 1, n) + (if objs[i].Some? then [ObjOf(objs[i].value)] else [])
  }

  /** The token with the object loop run n times. */
  function TokenOf(t: Token, n: nat): TokenDer
    requires E.Counted(t) && t.objects.Some? && n <= |t.objects.value|
  {
    TokenDer(t.version,
             if t.infoSize != 0 && t.keyInfos.Some? then Some(KmisOf(t.keyInfos.value, 0, t.infoSize as int)) else None,
             ObjsOf(t.objects.value, 0, n), [])
  }

  /** Entries i..n-1 are all present. */
  predicate KmisPresent(kis: seq<Option<KeyManagementInfo>>, i: nat, n: nat)
    requires n <= |kis|
    decreases n - i
  {
    i >= n || (kis[i].Some? && KmisPresent(kis, i + 1, n))
  }

  /** Objects i..n-1 are all secret keys that hold a key. */
  predicate ObjsKeys(objs: seq<Option<Pkcs15Object>>, i: nat, n: nat)
    requires n <= |objs|
    decreases n - i
  {
    i >= n || (objs[i].Some? && objs[i].value.objType.SecKey? && objs[i].value.secKey.Some? && ObjsKeys(objs, i + 1, n))
  }

  // ---------------------------------------------------------------------
  // Lists grown at the end
  // ---------------------------------------------------------------------

  lemma KmisFitSnoc(xs: seq<KmiDer>, x: KmiDer)
    requires KmisFit(xs) && KmiFit(x)
    ensures KmisFit(xs + [x])
  {
    var ys := xs + [x];
    forall i | 0 <= i < |ys| ensures KmiFit(ys[i]) {
      if i < |xs| { assert ys[i] == xs[i]; }
    }
  }

  lemma KmisFitTail(ks: seq<KmiDer>)
    requires ks != [] && KmisFit(ks)
    ensures KmiFit(ks[0]) && KmisFit(ks[1..])
  {
    forall i | 0 <= i < |ks[1..]| ensures KmiFit(ks[1..][i]) { assert ks[1..][i] == ks[i + 1]; }
  }

  lemma {:induction false} KmisBytesSnoc(xs: seq<KmiDer>, x: KmiDer)
    requires KmisFit(xs) && KmiFit(x) && KmisFit(xs + [x])
    ensures KmisBytes(xs + [x]) == KmisBytes(xs) + KmiBytes(x)
    decreases |xs|
  {
    var ys := xs + [x];
    if xs == [] {
      assert ys[1..] == [];
    } else {
      assert ys[0] == xs[0] && ys[1..] == xs[1..] + [x];
      KmisFitTail(xs);
      KmisFitTail(ys);
      KmisBytesSnoc(xs[1..], x);
    }
  }

  /** An entry written in front of the octets of the entries after it. */
  lemma KmisAppend(xs: seq<KmiDer>, x: KmiDer, rest: seq<byte>, b: seq<byte>)
    requires KmisFit(xs) && KmiFit(x) && rest == KmisBytes(xs) && b == KmiBytes(x)
    ensures KmisFit(xs + [x]) && rest + b == KmisBytes(xs + [x])
  {
    KmisFitSnoc(xs, x);
    KmisBytesSnoc(xs, x);
  }

  lemma {:induction false} KmisPaddedSnoc(xs: seq<KmiDer>, x: KmiDer)
    ensures KmisPadded(xs + [x]) == (KmisPadded(xs) || KmiPadded(x))
    decreases |xs|
  {
    var ys := xs + [x];
    if xs == [] {
      assert ys[1..] == [];
    } else {
      assert ys[0] == xs[0] && ys[1..] == xs[1..] + [x];
      KmisPaddedSnoc(xs[1..], x);
    }
  }

  lemma ObjsFitSnoc(xs: seq<ObjDer>, x: ObjDer)
    requires ObjsFit(xs) && ObjFit(x)
    ensures ObjsFit(xs + [x])
  {
    var ys := xs + [x];
    forall i | 0 <= i < |ys| ensures ObjFit(ys[i]) {
      if i < |xs| { assert ys[i] == xs[i]; }
    }
  }

  lemma ObjsFitTail(os: seq<ObjDer>)
    requires os != [] && ObjsFit(os)
    ensures ObjFit(os[0]) && ObjsFit(os[1..])
  {
    forall i | 0 <= i < |os[1..]| ensures ObjFit(os[1..][i]) { assert os[1..][i] == os[i + 1]; }
  }

  lemma {:induction false} ObjsBytesSnoc(xs: seq<ObjDer>, x: ObjDer)
    requires ObjsFit(xs) && ObjFit(x) && ObjsFit(xs + [x])
    ensures ObjsBytes(xs + [x]) == ObjsBytes(xs) + ObjBytes(x)
    decreases |xs|
  {
    var ys := xs + [x];
    if xs == [] {
      assert ys[1..] == [];
    } else {
      assert ys[0] == xs[0] && ys[1..] == xs[1..] + [x];
      ObjsFitTail(xs);
      ObjsFitTail(ys);
      ObjsBytesSnoc(xs[1..], x);
    }
  }

  lemma {:induction false} ObjsPaddedSnoc(xs: seq<ObjDer>, x: ObjDer)
    ensures ObjsPadded(xs + [x]) == (ObjsPadded(xs) || ObjPadded(x))
    decreases |xs|
  {
    var ys := xs + [x];
    if xs == [] {
      assert ys[1..] == [];
    } else {
      assert ys[0] == xs[0] && ys[1..] == xs[1..] + [x];
      ObjsPaddedSnoc(xs[1..], x);
    }
  }

  // ---------------------------------------------------------------------
  // The octets of each helper are the octets of its layout
  // ---------------------------------------------------------------------

  /** A primitive that fits the buffer is a layout leaf. */
  lemma PrimWritten(tag: byte, c: seq<byte>, room: nat)
    requires room <= BufferSize && E.PrimSpec(tag, c, room).Ok?
    ensures Leaf(c) && E.PrimSpec(tag, c, room).value == Tlv(tag, c)
  {
  }

  lemma PrfWritten(room: nat)
    requires room <= BufferSize && E.PrfSpec(room).Ok?
    ensures E.PrfSpec(room).value == Tlv(TagSequence, Tlv(TagOid, PrfOidBytes) + [])
  {
  }

  lemma IterationAndSaltWritten(p: PwdInfo, room: nat)
    requires HasParams(p) && room <= BufferSize && E.IterationAndSalt(p, room).Ok?
    ensures Leaf(p.salt.value) && Leaf(p.iterationCount.value)
    ensures E.IterationAndSalt(p, room).value == Tlv(TagOctetString, p.salt.value) + Tlv(TagInteger, p.iterationCount.value)
  {
  }

  lemma KeyLengthOnwardWritten(p: PwdInfo, room: nat)
    requires HasParams(p) && room <= BufferSize && E.KeyLengthOnward(p, room).Ok?
    ensures Leaf(p.salt.value) && Leaf(p.iterationCount.value) && (p.keyLen.Some? ==> Leaf(p.keyLen.value))
    ensures E.KeyLengthOnward(p, room).value ==
      Tlv(TagOctetString, p.salt.value) + Tlv(TagInteger, p.iterationCount.value) + OptTlv(TagInteger, p.keyLen)
  {
    var kl := E.OptionalPrim(TagInteger, p.keyLen, room).value;
    assert E.KeyLengthOnward(p, room) == E.Prefixed(E.IterationAndSalt(p, room - |kl|), kl);
    IterationAndSaltWritten(p, room - |kl|);
  }

  /** The four fields of `pkcs_15_put_params_pbkdf2`. */
  lemma ParamsFieldsWritten(p: PwdInfo, room: nat)
    requires HasParams(p) && room <= BufferSize && E.ParamsFields(p, room).Ok?
    ensures ParamsFit(ParamsOf(p))
    ensures E.ParamsFields(p, room).value == ParamsContent(ParamsOf(p))
  {
    var prf := E.PrfSpec(room).value;
    PrfWritten(room);
    assert E.ParamsFields(p, room) == E.Prefixed(E.KeyLengthOnward(p, room - |prf|), prf);
    KeyLengthOnwardWritten(p, room - |prf|);
    PrfOidText();
    var x := ParamsOf(p);
    assert ParamsFit(x);
    var a, b, c := Tlv(TagOctetString, x.salt), Tlv(TagInteger, x.iterations), OptTlv(TagInteger, x.keyLen);
    assert PrfElem(x) == prf;
    assert E.ParamsFields(p, room).value == a + b + c + prf;
    assert prf + [] == prf;
    ConcatAssoc(a, b, c + prf);
    ConcatAssoc(a + b, c, prf);
  }

  /** `pkcs_15_put_params_pbkdf2` writes the parameters only for a PRF
      named by its identifier. */
  lemma ParamsWritten(p: PwdInfo, room: nat)
    requires room <= BufferSize && E.PutParamsSpec(p, room).Ok?
    ensures HasParams(p) && p.prfId.Some? && SameCString(p.prfId.value, PrfOid)
    ensures ParamsFit(ParamsOf(p)) && E.PutParamsSpec(p, room).value == ParamsBytes(ParamsOf(p))
  {
    var inner := E.ParamsFields(p, room).value;
    ParamsFieldsWritten(p, room);
    assert E.PutParamsSpec(p, room) == E.WrapSpec(TagSequence, inner, room - |inner|);
  }

  /** The octets of the parameters `pkcs_15_put_alg_id` writes. */
  function ParamsPart(p: PwdInfo, room: nat): seq<byte>
    requires room <= BufferSize
  {
    if p.salt.Some? && E.PutParamsSpec(p, room).Ok? then E.PutParamsSpec(p, room).value else []
  }

  /** The steps of `pkcs_15_put_alg_id`. */
  lemma AlgIdSteps(p: PwdInfo, room: nat)
    requires room <= BufferSize && E.PutAlgIdSpec(p, room).Ok?
    ensures p.algorithm.Some? && SameCString(p.algorithm.value, Pbkdf2Oid)
    ensures p.salt.Some? ==> E.PutParamsSpec(p, room).Ok?
    ensures E.PutAlgIdSpec(p, room).value == Tlv(TagSequence, Tlv(TagOid, Pbkdf2OidBytes) + ParamsPart(p, room))
  {
    var params := ParamsPart(p, room);
    PrimWritten(TagOid, Pbkdf2OidBytes, room - |params|);
    var oid := Tlv(TagOid, Pbkdf2OidBytes);
    assert E.PrimSpec(TagOid, Pbkdf2OidBytes, room - |params|) == Ok(oid);
    if p.salt.Some? {
      assert E.PutAlgIdSpec(p, room) == E.WrapSpec(TagSequence, oid + params, room - |params| - |oid|);
    } else {
      assert E.PutAlgIdSpec(p, room) == E.WrapSpec(TagSequence, oid + params, room - |params| - |oid|);
    }
  }

  /** `pkcs_15_put_alg_id`: the PBKDF2 identifier, with parameters exactly
      when a salt is given. */
  lemma AlgIdWritten(p: PwdInfo, room: nat)
    requires room <= BufferSize && E.PutAlgIdSpec(p, room).Ok?
    ensures p.algorithm.Some? && SameCString(p.algorithm.value, Pbkdf2Oid)
    ensures p.salt.Some? ==> HasParams(p) && p.prfId.Some? && SameCString(p.prfId.value, PrfOid)
    ensures AlgIdFit(AlgIdOf(p)) && E.PutAlgIdSpec(p, room).value == AlgIdBytes(AlgIdOf(p))
  {
    AlgIdSteps(p, room);
    if p.salt.Some? { ParamsWritten(p, room); }
    Pbkdf2OidText();
    var a := AlgIdOf(p);
    assert AlgIdFit(a);
    assert AlgIdRest(a) == ParamsPart(p, room) + [];
    assert ParamsPart(p, room) + [] == ParamsPart(p, room);
  }

  /** The steps of `pkcs_15_put_password_info`. */
  lemma PwdInfoSteps(p: Option<PwdInfo>, room: nat)
    requires room <= BufferSize && E.PutPasswordInfoSpec(p, room).Ok?
    ensures p.Some? && E.PutAlgIdSpec(p.value, room).Ok?
    ensures p.value.hint.Some? ==> Leaf(HintBytes(p.value.hint.value))
    ensures E.PutPasswordInfoSpec(p, room).value ==
      Tlv(TagCtx0, OptTlv(TagUtf8, PwdInfoOf(p.value).hint) + E.PutAlgIdSpec(p.value, room).value)
  {
    var q := p.value;
    var alg := E.PutAlgIdSpec(q, room).value;
    if q.hint.Some? { PrimWritten(TagUtf8, HintBytes(q.hint.value), room - |alg|); }
    var hint := OptTlv(TagUtf8, PwdInfoOf(q).hint);
    assert E.PutPasswordInfoSpec(p, room) == E.WrapSpec(TagCtx0, hint + alg, room - |alg| - |hint|);
  }

  /** `pkcs_15_put_password_info`. */
  lemma PwdInfoWritten(p: Option<PwdInfo>, room: nat)
    requires room <= BufferSize && E.PutPasswordInfoSpec(p, room).Ok?
    ensures p.Some? && PwdInfoFit(PwdInfoOf(p.value))
    ensures E.PutPasswordInfoSpec(p, room).value == PwdInfoBytes(PwdInfoOf(p.value))
  {
    PwdInfoSteps(p, room);
    var q := p.value;
    AlgIdWritten(q, room);
    var w := PwdInfoOf(q);
    assert PwdInfoFit(w);
    PwdInfoContentOf(w);
  }

  /** The content of password information with no tail: the hint, then the algorithm. */
  lemma PwdInfoContentOf(w: PwdInfoDer)
    requires PwdInfoFit(w) && w.tail == []
    ensures PwdInfoContent(w) == OptTlv(TagUtf8, w.hint) + AlgIdBytes(w.algId)
  {
    assert AlgIdBytes(w.algId) + [] == AlgIdBytes(w.algId);
  }

  /** `pkcs_15_put_key_management_info`: only password information and
      types the switch does not name are written; the latter as a bare key
      id. */
  lemma KmiWritten(k: KeyManagementInfo, room: nat)
    requires room <= BufferSize && E.PutKmiSpec(k, room).Ok?
    ensures k.kmiType.PasswordInfo? || k.kmiType.OtherKmi?
    ensures k.kmiType.PasswordInfo? ==> k.pwdInfo.Some?
    ensures KmiFit(KmiOf(k)) && E.PutKmiSpec(k, room).value == KmiBytes(KmiOf(k))
  {
    KmiSteps(k, room);
    if k.kmiType.PasswordInfo? { PwdInfoWritten(k.pwdInfo, room); }
    KmiLayout(k.keyId, KmiOf(k).pwd, E.KmiInfoSpec(k, room).value);
  }

  /** A key management entry without tail around its key id and the
      octets of its password information, if any. */
  lemma KmiLayout(keyId: seq<byte>, pwd: Option<PwdInfoDer>, info: seq<byte>)
    requires Leaf(keyId)
    requires pwd.Some? ==> PwdInfoFit(pwd.value) && info == PwdInfoBytes(pwd.value)
    requires pwd.None? ==> info == []
    ensures KmiFit(KmiDer(keyId, pwd, []))
    ensures KmiBytes(KmiDer(keyId, pwd, [])) == Tlv(TagSequence, Tlv(TagOctetString, keyId) + info)
  {
    assert KmiRest(KmiDer(keyId, pwd, [])) == info;
  }

  /** The steps of `pkcs_15_put_key_management_info`. */
  lemma KmiSteps(k: KeyManagementInfo, room: nat)
    requires room <= BufferSize && E.PutKmiSpec(k, room).Ok?
    ensures k.kmiType.PasswordInfo? || k.kmiType.OtherKmi?
    ensures E.KmiInfoSpec(k, room).Ok? && Leaf(k.keyId)
    ensures k.kmiType.PasswordInfo? ==>
      E.PutPasswordInfoSpec(k.pwdInfo, room).Ok? &&
      E.KmiInfoSpec(k, room).value == E.PutPasswordInfoSpec(k.pwdInfo, room).value
    ensures k.kmiType.OtherKmi? ==> E.KmiInfoSpec(k, room).value == []
    ensures E.PutKmiSpec(k, room).value == Tlv(TagSequence, Tlv(TagOctetString, k.keyId) + E.KmiInfoSpec(k, room).value)
  {
    var info := E.KmiInfoSpec(k, room).value;
    PrimWritten(TagOctetString, k.keyId, room - |info|);
    var id := Tlv(TagOctetString, k.keyId);
    assert E.PutKmiSpec(k, room) == E.WrapSpec(TagSequence, id + info, room - |info| - |id|);
  }

  /** One iteration of the key management loop that writes its entry. */
  lemma KmisSteps(kis: seq<Option<KeyManagementInfo>>, i: nat, n: nat, room: nat)
    requires i < n <= |kis| && room <= BufferSize && E.PutKmisFrom(kis, i, n, room).Ok?
    ensures kis[i].Some? && E.PutKmiSpec(kis[i].value, room).Ok?
    ensures var b := E.PutKmiSpec(kis[i].value, room).value;
      |b| <= room && E.PutKmisFrom(kis, i + 1, n, room - |b|).Ok? &&
      E.PutKmisFrom(kis, i, n, room).value == E.PutKmisFrom(kis, i + 1, n, room - |b|).value + b
  {
    KmisHead(kis, i, n, room);
    E.KmisStep(kis, i, n, room, E.PutKmiSpec(kis[i].value, room).value);
  }

  lemma KmisHead(kis: seq<Option<KeyManagementInfo>>, i: nat, n: nat, room: nat)
    requires i < n <= |kis| && room <= BufferSize && E.PutKmisFrom(kis, i, n, room).Ok?
    ensures kis[i].Some? && E.PutKmiSpec(kis[i].value, room).Ok?
  {
  }

  /** Iterations i..n-1 of the key management loop. */
  lemma {:induction false} KmisWritten(kis: seq<Option<KeyManagementInfo>>, i: nat, n: nat, room: nat)
    requires i <= n <= |kis| && room <= BufferSize && E.PutKmisFrom(kis, i, n, room).Ok?
    ensures KmisPresent(kis, i, n) && |KmisOf(kis, i, n)| == n - i
    ensures KmisFit(KmisOf(kis, i, n)) && E.PutKmisFrom(kis, i, n, room).value == KmisBytes(KmisOf(kis, i, n))
    decreases n - i
  {
    if i < n {
      KmisSteps(kis, i, n, room);
      var b := E.PutKmiSpec(kis[i].value, room).value;
      KmiWritten(kis[i].value, room);
      KmisWritten(kis, i + 1, n, room - |b|);
      var xs, x := KmisOf(kis, i + 1, n), KmiOf(kis[i].value);
      assert KmisOf(kis, i, n) == xs + [x];
      KmisAppend(xs, x, E.PutKmisFrom(kis, i + 1, n, room - |b|).value, b);
    } else {
      assert KmisOf(kis, i, n) == [];
    }
  }

  /** `pkcs_15_put_obj`: a secret key holding a key. */
  lemma ObjWritten(o: Pkcs15Object, room: nat)
    requires room <= BufferSize && E.PutObjSpec(o, room).Ok?
    ensures o.objType.SecKey? && o.secKey.Some?
    ensures ObjFit(ObjOf(o)) && E.PutObjSpec(o, room).value == ObjBytes(ObjOf(o))
  {
    PrimWritten(TagGostKey, o.secKey.value, room);
    var key := Tlv(TagGostKey, o.secKey.value);
    assert E.PutObjDirectSpec(o, room) == E.WrapSpec(TagCtx0, key, room - |key|);
    var x := ObjOf(o);
    assert DirectBytes(x) == E.PutObjDirectSpec(o, room).value;
    assert DirectBytes(x) + [] == DirectBytes(x);
  }

  /** One iteration of the object loop that writes its object. */
  lemma ObjsSteps(objs: seq<Option<Pkcs15Object>>, i: nat, n: nat, room: nat)
    requires i < n <= |objs| && room <= BufferSize && E.PutObjectsFrom(objs, i, n, room).Ok?
    ensures objs[i].Some? && E.PutObjSpec(objs[i].value, room).Ok?
    ensures var b := E.PutObjSpec(objs[i].value, room).value;
      |b| <= room && E.PutObjectsFrom(objs, i + 1, n, room - |b|).Ok? &&
      E.PutObjectsFrom(objs, i, n, room).value == E.PutObjectsFrom(objs, i + 1, n, room - |b|).value + b
  {
    ObjsHead(objs, i, n, room);
    E.ObjectsStep(objs, i, n, room, E.PutObjSpec(objs[i].value, room).value);
  }

  lemma ObjsHead(objs: seq<Option<Pkcs15Object>>, i: nat, n: nat, room: nat)
    requires i < n <= |objs| && room <= BufferSize && E.PutObjectsFrom(objs, i, n, room).Ok?
    ensures objs[i].Some? && E.PutObjSpec(objs[i].value, room).Ok?
  {
  }

  /** Iterations i..n-1 of the loop of `pkcs_15_put_pkcs_objects`. */
  lemma {:induction false} ObjsWritten(objs: seq<Option<Pkcs15Object>>, i: nat, n: nat, room: nat)
    requires i <= n <= |objs| && room <= BufferSize && E.PutObjectsFrom(objs, i, n, room).Ok?
    ensures ObjsKeys(objs, i, n) && |ObjsOf(objs, i, n)| == n - i
    ensures ObjsFit(ObjsOf(objs, i, n)) && E.PutObjectsFrom(objs, i, n, room).value == ObjsBytes(ObjsOf(objs, i, n))
    decreases n - i
  {
    if i < n {
      ObjsSteps(objs, i, n, room);
      var b := E.PutObjSpec(objs[i].value, room).value;
      ObjWritten(objs[i].value, room);
      ObjsWritten(objs, i + 1, n, room - |b|);
      var xs, x := ObjsOf(objs, i + 1, n), ObjOf(objs[i].value);
      assert ObjsOf(objs, i, n) == xs + [x];
      ObjsFitSnoc(xs, x);
      ObjsBytesSnoc(xs, x);
    } else {
      assert ObjsOf(objs, i, n) == [];
    }
  }

  /** The number of times the object loop runs for a count. */
  function Runs(size: int): nat { if size < 0 then 0 else size }

  /** `pkcs_15_put_pkcs_objects`. */
  lemma ObjectsWritten(objs: seq<Option<Pkcs15Object>>, size: int, room: nat)
    requires size <= |objs| && size <= 255 && room <= BufferSize && E.PutObjectsSpec(objs, size, room).Ok?
    ensures ObjsKeys(objs, 0, Runs(size)) && |ObjsOf(objs, 0, Runs(size))| == Runs(size)
    ensures ObjsFit(ObjsOf(objs, 0, Runs(size)))
    ensures E.PutObjectsSpec(objs, size, room).value == ObjectsElem(ObjsOf(objs, 0, Runs(size)))
  {
    var body := E.PutObjectsFrom(objs, 0, Runs(size), room).value;
    assert E.PutObjectsSpec(objs, size, room) == E.WrapSpec(TagSequence, body, room - |body|);
    ObjsWritten(objs, 0, Runs(size), room);
  }

  /** The key management part: nothing for a count of 0, otherwise the
      [0] element around all entries. */
  lemma KeyInfosWritten(t: Token, n: nat, room: nat)
    requires E.Counted(t) && t.objects.Some? && n <= |t.objects.value| && n <= 255
    requires room <= BufferSize && E.PutKeyInfosSpec(t, room).Ok?
    ensures t.infoSize != 0 ==> t.keyInfos.Some? && KmisPresent(t.keyInfos.value, 0, t.infoSize as int)
    ensures TokenOf(t, n).kmis.Some? ==> KmisFit(TokenOf(t, n).kmis.value) && |TokenOf(t, n).kmis.value| <= 255
    ensures E.PutKeyInfosSpec(t, room).value == (if TokenOf(t, n).kmis.Some? then KmiElem(TokenOf(t, n).kmis.value) else [])
  {
    if t.infoSize != 0 {
      var kis := t.keyInfos.value;
      var body := E.PutKmisFrom(kis, 0, t.infoSize as int, room).value;
      KmisWritten(kis, 0, t.infoSize as int, room);
      assert KmisOf(kis, 0, t.infoSize as int) != [];
      assert E.PutKeyInfosSpec(t, room) == E.WrapSpec(TagCtx0, body, room - |body|);
    }
  }

  /** The fields of the token SEQUENCE. */
  lemma FieldsWritten(t: Token, size: int, room: nat)
    requires E.Counted(t) && t.objects.Some? && size <= |t.objects.value| && size <= 255
    requires room <= BufferSize && E.TokenFields(t, size, room).Ok?
    ensures ObjsKeys(t.objects.value, 0, Runs(size))
    ensures t.infoSize != 0 ==> t.keyInfos.Some? && KmisPresent(t.keyInfos.value, 0, t.infoSize as int)
    ensures TokenFit(TokenOf(t, Runs(size))) && |TokenOf(t, Runs(size)).objs| == Runs(size)
    ensures E.TokenFields(t, size, room).value == TokenContent(TokenOf(t, Runs(size)))
  {
    var objs := E.PutObjectsSpec(t.objects.value, size, room).value;
    ObjectsWritten(t.objects.value, size, room);
    var r1 := room - |objs|;
    FieldsSteps(t, size, room, objs, E.KmiAndVersion(t, r1));
    var kmi := E.PutKeyInfosSpec(t, r1).value;
    KmiAndVersionWritten(t, Runs(size), r1);
    TokenOfFit(t, Runs(size));
    ContentOf(TokenOf(t, Runs(size)), kmi, objs);
  }

  /** The steps of the body of `pkcs_15_generate_token`: the objects, then
      the version and key management information in front of them. */
  lemma FieldsSteps(t: Token, size: int, room: nat, objs: seq<byte>, rk: Result<seq<byte>>)
    requires E.Counted(t) && t.objects.Some? && size <= |t.objects.value| && room <= BufferSize
    requires E.PutObjectsSpec(t.objects.value, size, room) == Ok(objs) && |objs| <= room
    requires rk == E.KmiAndVersion(t, room - |objs|)
    ensures E.TokenFields(t, size, room) == E.Prefixed(rk, objs)
  {
  }

  /** The layout of a token read back from its written parts fits. */
  lemma TokenOfFit(t: Token, n: nat)
    requires E.Counted(t) && t.objects.Some? && n <= |t.objects.value| && n <= 255 && Leaf(t.version)
    requires TokenOf(t, n).kmis.Some? ==> KmisFit(TokenOf(t, n).kmis.value) && |TokenOf(t, n).kmis.value| <= 255
    requires ObjsFit(ObjsOf(t.objects.value, 0, n)) && |ObjsOf(t.objects.value, 0, n)| == n
    ensures TokenFit(TokenOf(t, n)) && TokenOf(t, n).tail == []
    ensures KmisOpt(TokenOf(t, n)) == if TokenOf(t, n).kmis.Some? then KmiElem(TokenOf(t, n).kmis.value) else []
    ensures ObjectsElem(TokenOf(t, n).objs) == ObjectsElem(ObjsOf(t.objects.value, 0, n))
  {
  }

  /** The content of a token with no tail, from its three parts. */
  lemma ContentOf(v: TokenDer, kmi: seq<byte>, objs: seq<byte>)
    requires TokenFit(v) && v.tail == [] && KmisOpt(v) == kmi && ObjectsElem(v.objs) == objs
    ensures TokenContent(v) == Tlv(TagInteger, v.version) + kmi + objs
  {
    var version := Tlv(TagInteger, v.version);
    assert objs + [] == objs;
    ConcatAssoc(version, kmi, objs);
  }

  /** The version in front of the key management part. */
  lemma KmiAndVersionWritten(t: Token, n: nat, room: nat)
    requires E.Counted(t) && t.objects.Some? && n <= |t.objects.value| && n <= 255
    requires room <= BufferSize && E.KmiAndVersion(t, room).Ok?
    ensures E.PutKeyInfosSpec(t, room).Ok? && Leaf(t.version)
    ensures t.infoSize != 0 ==> t.keyInfos.Some? && KmisPresent(t.keyInfos.value, 0, t.infoSize as int)
    ensures TokenOf(t, n).kmis.Some? ==> KmisFit(TokenOf(t, n).kmis.value) && |TokenOf(t, n).kmis.value| <= 255
    ensures E.PutKeyInfosSpec(t, room).value == (if TokenOf(t, n).kmis.Some? then KmiElem(TokenOf(t, n).kmis.value) else [])
    ensures E.KmiAndVersion(t, room).value == Tlv(TagInteger, t.version) + E.PutKeyInfosSpec(t, room).value
  {
    var kmi := E.PutKeyInfosSpec(t, room).value;
    assert E.KmiAndVersion(t, room) == E.Prefixed(E.PrimSpec(TagInteger, t.version, room - |kmi|), kmi);
    KeyInfosWritten(t, n, room);
    PrimWritten(TagInteger, t.version, room - |kmi|);
  }

  /** `pkcs_15_generate_token` with the object loop run for `size`. */
  lemma TokenWritten(t: Token, size: int)
    requires E.Counted(t) && (t.objects.Some? ==> size <= |t.objects.value|) && size <= 255
    requires E.GenerateWith(t, size).Ok?
    ensures t.objects.Some? && Runs(size) <= |t.objects.value|
    ensures ObjsKeys(t.objects.value, 0, Runs(size))
    ensures t.infoSize != 0 ==> t.keyInfos.Some? && KmisPresent(t.keyInfos.value, 0, t.infoSize as int)
    ensures TokenFit(TokenOf(t, Runs(size))) && |TokenOf(t, Runs(size)).objs| == Runs(size)
    ensures E.GenerateWith(t, size).value == TokenBytes(TokenOf(t, Runs(size)))
  {
    var inner := E.TokenFields(t, size, BufferSize).value;
    assert E.GenerateWith(t, size) == E.WrapSpec(TagSequence, inner, BufferSize - |inner|);
    FieldsWritten(t, size, BufferSize);
  }

  // ---------------------------------------------------------------------
  // What the reader makes of it
  // ---------------------------------------------------------------------

  lemma {:induction false} KmisOfUnpadded(kis: seq<Option<KeyManagementInfo>>, i: nat, n: nat)
    requires n <= |kis|
    ensures !KmisPadded(KmisOf(kis, i, n))
    decreases n - i
  {
    if i < n {
      var xs := KmisOf(kis, i + 1, n);
      KmisOfUnpadded(kis, i + 1, n);
      if kis[i].Some? {
        KmisPaddedSnoc(xs, KmiOf(kis[i].value));
      } else {
        assert KmisOf(kis, i, n) == xs;
      }
    }
  }

  lemma {:induction false} ObjsOfUnpadded(objs: seq<Option<Pkcs15Object>>, i: nat, n: nat)
    requires n <= |objs|
    ensures !ObjsPadded(ObjsOf(objs, i, n))
    decreases n - i
  {
    if i < n {
      var xs := ObjsOf(objs, i + 1, n);
      ObjsOfUnpadded(objs, i + 1, n);
      if objs[i].Some? {
        ObjsPaddedSnoc(xs, ObjOf(objs[i].value));
      } else {
        assert ObjsOf(objs, i, n) == xs;
      }
    }
  }

  /** The generator leaves no octets that the reader's leftover checks
      would refuse. */
  lemma TokenOfUnpadded(t: Token, n: nat)
    requires E.Counted(t) && t.objects.Some? && n <= |t.objects.value|
    ensures !TokenPadded(TokenOf(t, n))
  {
    var v := TokenOf(t, n);
    if v.kmis.Some? { KmisOfUnpadded(t.keyInfos.value, 0, t.infoSize as int); }
    ObjsOfUnpadded(t.objects.value, 0, n);
  }

  /** A sequence in reverse order. */
  function Rev<T>(s: seq<T>): (r: seq<T>)
    ensures |r| == |s|
  {
    if s == [] then [] else Rev(s[1..]) + [s[0]]
  }

  lemma {:induction false} RevAt<T>(s: seq<T>, i: nat)
    requires i < |s|
    ensures Rev(s)[i] == s[|s| - 1 - i]
    decreases |s|
  {
    if i < |s| - 1 {
      assert Rev(s)[i] == Rev(s[1..])[i];
      RevAt(s[1..], i);
    }
  }

  /** The password information the reader rebuilds: the identifiers as
      their text, the hint as text of its octets, and the parameters only
      when both salt and iteration count were given. */
  function PwdBack(p: PwdInfo): PwdInfo {
    var q := PwdInfo(Some(Pbkdf2Oid), if p.hint.Some? then Some(BytesText(HintBytes(p.hint.value))) else None,
                     None, None, None, None);
    if HasParams(p) then q.(salt := p.salt, iterationCount := p.iterationCount, keyLen := p.keyLen, prfId := Some(PrfOid))
    else q
  }

  /** A key management entry as the reader rebuilds it: always of type
      PWD_INFO, with password information only for type PWD_INFO. */
  function KmiBack(k: KeyManagementInfo): KeyManagementInfo {
    KeyManagementInfo(PasswordInfo, k.keyId,
                      if k.kmiType.PasswordInfo? && k.pwdInfo.Some? then Some(PwdBack(k.pwdInfo.value)) else None)
  }

  function KmisBack(s: seq<Option<KeyManagementInfo>>): (r: seq<Option<KeyManagementInfo>>)
    ensures |r| == |s|
  {
    seq(|s|, j requires 0 <= j < |s| => if s[j].Some? then Some(KmiBack(s[j].value)) else None)
  }

  lemma PwdReadBack(p: PwdInfo)
    ensures PwdInfoRead(EmptyPwdInfo, PwdInfoOf(p)) == PwdBack(p)
  {
    Pbkdf2OidText();
    PrfOidText();
    var h := if p.hint.Some? then Some(BytesText(HintBytes(p.hint.value))) else None;
    var q := EmptyPwdInfo.(hint := h);
    assert PwdInfoRead(EmptyPwdInfo, PwdInfoOf(p)) == AlgIdRead(q, AlgIdOf(p));
  }

  lemma KmiReadBack(k: KeyManagementInfo)
    ensures KmiRead(KmiOf(k)) == KmiBack(k)
  {
    if k.kmiType.PasswordInfo? && k.pwdInfo.Some? { PwdReadBack(k.pwdInfo.value); }
  }

  lemma {:induction false} KmisReadBack(kis: seq<Option<KeyManagementInfo>>, i: nat, n: nat)
    requires i <= n <= |kis| && KmisPresent(kis, i, n)
    ensures AllSome(KmisRead(KmisOf(kis, i, n))) == Rev(KmisBack(kis[i..n]))
    decreases n - i
  {
    if i < n {
      var xs := KmisOf(kis, i + 1, n);
      var x := KmiOf(kis[i].value);
      assert KmisOf(kis, i, n) == xs + [x];
      KmisReadBack(kis, i + 1, n);
      KmiReadBack(kis[i].value);
      KmisReadTail(xs, x);
      assert AllSome(KmisRead(xs) + [KmiRead(x)]) == AllSome(KmisRead(xs)) + [Some(KmiRead(x))];
      var b := KmisBack(kis[i..n]);
      assert b[1..] == KmisBack(kis[i + 1..n]);
      assert b[0] == Some(KmiBack(kis[i].value));
    } else {
      assert KmisOf(kis, i, n) == [];
      assert kis[i..n] == [];
    }
  }

  lemma {:induction false} KmisReadTail(xs: seq<KmiDer>, x: KmiDer)
    ensures KmisRead(xs + [x]) == KmisRead(xs) + [KmiRead(x)]
    decreases |xs|
  {
    if xs != [] {
      assert (xs + [x])[0] == xs[0] && (xs + [x])[1..] == xs[1..] + [x];
      KmisReadTail(xs[1..], x);
    } else {
      assert (xs + [x])[1..] == [];
    }
  }

  lemma {:induction false} ObjsReadTail(xs: seq<ObjDer>, x: ObjDer)
    ensures ObjsRead(xs + [x]) == ObjsRead(xs) + [ObjRead(x)]
    decreases |xs|
  {
    if xs != [] {
      assert (xs + [x])[0] == xs[0] && (xs + [x])[1..] == xs[1..] + [x];
      ObjsReadTail(xs[1..], x);
    } else {
      assert (xs + [x])[1..] == [];
    }
  }

  lemma {:induction false} ObjsReadBack(objs: seq<Option<Pkcs15Object>>, i: nat, n: nat)
    requires i <= n <= |objs| && ObjsKeys(objs, i, n)
    ensures AllSome(ObjsRead(ObjsOf(objs, i, n))) == Rev(objs[i..n])
    decreases n - i
  {
    if i < n {
      var xs := ObjsOf(objs, i + 1, n);
      var x := ObjOf(objs[i].value);
      assert ObjsOf(objs, i, n) == xs + [x];
      ObjsReadBack(objs, i + 1, n);
      ObjsReadTail(xs, x);
      assert ObjRead(x) == objs[i].value;
      assert AllSome(ObjsRead(xs) + [ObjRead(x)]) == AllSome(ObjsRead(xs)) + [Some(ObjRead(x))];
      assert objs[i..n][1..] == objs[i + 1..n];
    } else {
      assert ObjsOf(objs, i, n) == [];
      assert objs[i..n] == [];
    }
  }

  // ---------------------------------------------------------------------
  // The round trip
  // ---------------------------------------------------------------------

  /** What `pkcs_15_parse_token` leaves in `t0` after reading what the
      generator wrote for `t` with its object loop run n times: the
      version; the first n objects in reverse order; and, when `t` has key
      management entries, their count and the entries in reverse order as
      the reader rebuilds them. */
  function Readback(t0: Token, t: Token, n: nat): Token
    requires E.Counted(t) && t.objects.Some? && n <= |t.objects.value| && n <= 255
  {
    var t1 := t0.(version := t.version);
    var t2 := if t.infoSize != 0 && t.keyInfos.Some?
      then t1.(infoSize := t.infoSize, keyInfos := Some(Rev(KmisBack(t.keyInfos.value[..t.infoSize]))))
      else t1;
    t2.(objSize := n as byte, objects := Some(Rev(t.objects.value[..n])))
  }

  lemma ReadBack(t0: Token, t: Token, n: nat)
    requires E.Counted(t) && t.objects.Some? && n <= |t.objects.value| && n <= 255
    requires ObjsKeys(t.objects.value, 0, n)
    requires t.infoSize != 0 && t.keyInfos.Some? ==> KmisPresent(t.keyInfos.value, 0, t.infoSize as int)
    ensures |TokenOf(t, n).objs| <= 255 && (TokenOf(t, n).kmis.Some? ==> |TokenOf(t, n).kmis.value| <= 255)
    ensures TokenRead(t0, TokenOf(t, n)) == Readback(t0, t, n)
  {
    var v := TokenOf(t, n);
    ObjsReadBack(t.objects.value, 0, n);
    assert t.objects.value[0..n] == t.objects.value[..n];
    if v.kmis.Some? {
      var kis := t.keyInfos.value;
      KmisReadBack(kis, 0, t.infoSize as int);
      assert kis[0..t.infoSize] == kis[..t.infoSize];
    }
  }

  /** Whatever `pkcs_15_generate_token` writes with its object loop run for
      `size`, `pkcs_15_parse_token` accepts and reads back. */
  lemma RoundTripWith(t: Token, size: int, t0: Token)
    requires E.Counted(t) && (t.objects.Some? ==> size <= |t.objects.value|) && size <= 255
    requires E.GenerateWith(t, size).Ok?
    ensures t.objects.Some? && Runs(size) <= |t.objects.value|
    ensures D.Parse(E.GenerateWith(t, size).value, t0) == Ok(Readback(t0, t, Runs(size)))
  {
    TokenWritten(t, size);
    var v := TokenOf(t, Runs(size));
    TokenOfUnpadded(t, Runs(size));
    D.TokenDecodes(t0, v, []);
    assert TokenBytes(v) + [] == TokenBytes(v);
    ReadBack(t0, t, Runs(size));
  }

  /** The round trip of the generator with the object count passed whole:
      every token it accepts is read back with all its objects. */
  lemma RoundTrip(t: Token, t0: Token)
    requires E.Counted(t) && E.GenerateIntended(t).Ok?
    ensures D.Parse(E.GenerateIntended(t).value, t0) == Ok(Readback(t0, t, t.objSize as nat))
  {
    RoundTripWith(t, t.objSize as int, t0);
  }

  /** Below 128 objects the `int8_t` parameter carries the count unchanged. */
  lemma GenerateSmallCount(t: Token)
    requires E.Counted(t) && t.objSize < 128
    ensures E.Generate(t) == E.GenerateIntended(t)
  {
    assert Int8(t.objSize as int) == t.objSize as int;
  }

  /** From 128 objects on, the generator as written passes a negative count
      to `pkcs_15_put_pkcs_objects`, whose loop then writes no object: the
      token is read back with none. */
  lemma GenerateDropsObjects(t: Token, t0: Token)
    requires E.Counted(t) && t.objSize >= 128 && E.Generate(t).Ok?
    ensures t.objects.Some?
    ensures D.Parse(E.Generate(t).value, t0) == Ok(Readback(t0, t, 0))
    ensures Readback(t0, t, 0).objSize == 0 && Readback(t0, t, 0).objects == Some([])
  {
    Int8Negative(t.objSize as int);
    RoundTripWith(t, Int8(t.objSize as int), t0);
    assert t.objects.value[..0] == [];
  }

  lemma Int8Negative(n: int)
    requires 128 <= n < 256
    ensures Int8(n) == n - 256 && Runs(Int8(n)) == 0
  {
  }

  /** 128 object slots, the first of them NULL: the generator as written
      emits a token with an empty object SEQUENCE; passed whole, the count
      makes it refuse the NULL object. */
  lemma GenerateCountWraps(objs: seq<Option<Pkcs15Object>>)
    requires |objs| == 128 && objs[0].None?
    ensures E.Generate(Token([], 128, Some(objs), 0, None)) == Ok([TagSequence, 4, TagInteger, 0, TagSequence, 0])
    ensures E.GenerateIntended(Token([], 128, Some(objs), 0, None)) == Err(NullPointer)
  {
    var t := Token([], 128, Some(objs), 0, None);
    assert Int8(128) == -128;
    assert LenField(0) == [0] && LenField(4) == [4];
    assert Tlv(TagSequence, []) == [TagSequence, 0] && Tlv(TagInteger, []) == [TagInteger, 0];
    assert E.PutObjectsFrom(t.objects.value, 0, 0, BufferSize) == Ok([]);
    assert E.PutObjectsSpec(t.objects.value, -128, BufferSize) == Ok([TagSequence, 0]);
    assert E.PutKeyInfosSpec(t, BufferSize - 2) == Ok([]);
    assert E.PrimSpec(TagInteger, t.version, BufferSize - 2) == Ok([TagInteger, 0]);
    assert [TagInteger, 0] + [] == [TagInteger, 0];
    assert E.KmiAndVersion(t, BufferSize - 2) == E.Prefixed(Ok([TagInteger, 0]), []);
    assert [TagInteger, 0] + [TagSequence, 0] == [TagInteger, 0, TagSequence, 0];
    assert E.TokenFields(t, -128, BufferSize) == E.Prefixed(Ok([TagInteger, 0]), [TagSequence, 0]);
    var inner: seq<byte> := [TagInteger, 0, TagSequence, 0];
    assert Tlv(TagSequence, inner) == [TagSequence, 4] + inner;
    assert E.GenerateWith(t, -128) == E.WrapSpec(TagSequence, inner, BufferSize - 4);
    assert [TagSequence, 4] + inner == [TagSequence, 4, TagInteger, 0, TagSequence, 0];
    assert E.Generate(t) == Ok([TagSequence, 4] + inner);
    assert E.PutObjectsFrom(t.objects.value, 0, 128, BufferSize) == Err(NullPointer);
    assert E.PutObjectsSpec(t.objects.value, 128, BufferSize) == Err(NullPointer);
    assert E.TokenFields(t, 128, BufferSize) == Err(NullPointer);
  }
}
