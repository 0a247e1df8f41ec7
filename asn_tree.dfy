/** The TLV tree of the new ASN.1 interface (`ak_asn_tlv`) and its DER
    encoder: `ak_asn_encode_tlv`, which writes a node and, depth first, its
    children at an advancing write position; `ak_asn_encode`, which
    recomputes the cached lengths, allocates the output and rewinds the
    write position; and `ak_asn_add`, which stores a new constructed child. */
module AsnTree {
  import opened Common
  import opened AsnLength

  /** A node. `dataLen` and `lenByteCnt` are the lengths the node caches
      (`m_data_len`, `m_len_byte_cnt`); the encoder trusts them and
      `ak_asn_update_size` recomputes them. */
  datatype Tlv = Tlv(tag: byte, dataLen: nat, lenByteCnt: nat, data: Data)

  /** The node's payload: the bytes a primitive node points to, or the
      child array of a constructed node (`m_arr_of_data`, whose length is
      `m_alloc_size`) of which the first `currSize` slots are in use. A
      slot holds a NULL pointer as `None`. */
  datatype Data =
    | Primitive(bytes: seq<byte>)
    | Children(slots: seq<Option<Tlv>>, currSize: nat)

  /** The CONSTRUCTED bit (0x20) of an identifier octet (X.690 8.1.2.5). */
  predicate IsConstructedTag(tag: byte) { (tag / 0x20) % 2 == 1 }

  /** `ak_asn_get_size`: the identifier octet, the length field and the
      contents, all as cached in the node. */
  function Size(t: Tlv): nat { 1 + t.lenByteCnt + t.dataLen }

  /** The size of a slot; a NULL slot occupies nothing. */
  function SlotSize(o: Option<Tlv>): nat {
    if o.None? then 0 else Size(o.value)
  }

  /** The structure the encoder dereferences: the tag's CONSTRUCTED bit
      agrees with the kind of payload, a primitive payload holds at least
      `dataLen` bytes, and in-use slots lie inside the child array. */
  predicate Shaped(o: Option<Tlv>)
    decreases o
  {
    match o
    case None => true
    case Some(t) =>
      (IsConstructedTag(t.tag) <==> t.data.Children?) &&
      match t.data
      case Primitive(b) => t.dataLen <= |b|
      case Children(slots, n) =>
        n <= |slots| && forall i :: 0 <= i < n ==> Shaped(slots[i])
  }

  /** Every cached length-octet count is one `new_asn_put_len` can write. */
  predicate Counted(o: Option<Tlv>)
    decreases o
  {
    match o
    case None => true
    case Some(t) =>
      1 <= t.lenByteCnt <= 9 &&
      match t.data
      case Primitive(_) => true
      case Children(slots, n) => forall i :: 0 <= i < n && i < |slots| ==> Counted(slots[i])
  }

  /** What `ak_asn_encode_tlv` demands of the tree it is given. */
  predicate Framed(o: Option<Tlv>) { Shaped(o) && Counted(o) }

  /** The summed sizes of the in-use slots from index i on. */
  function ChildSizes(d: Data, i: nat): nat
    requires d.Children?
    decreases |d.slots| - i
  {
    if i >= d.currSize || i >= |d.slots| then 0
    else SlotSize(d.slots[i]) + ChildSizes(d, i + 1)
  }

  /** The cached lengths are the true ones: each node's length-octet count
      is the DER count of its length, and a constructed node's length is the
      sum of the sizes of its in-use children. */
  predicate Sized(o: Option<Tlv>)
    decreases o
  {
    match o
    case None => true
    case Some(t) =>
      t.lenByteCnt == LenByteCnt(t.dataLen) &&
      match t.data
      case Primitive(_) => true
      case Children(slots, n) =>
        t.dataLen == ChildSizes(t.data, 0) &&
        forall i :: 0 <= i < n && i < |slots| ==> Sized(slots[i])
  }

  predicate WellSized(o: Option<Tlv>) { Framed(o) && Sized(o) }

  /** No NULL pointer among the in-use slots, at any depth. */
  predicate Complete(o: Option<Tlv>)
    decreases o
  {
    match o
    case None => false
    case Some(t) =>
      match t.data
      case Primitive(_) => true
      case Children(slots, n) => forall i :: 0 <= i < n && i < |slots| ==> Complete(slots[i])
  }

  predicate ChildrenComplete(t: Tlv, i: nat)
    requires t.data.Children?
  {
    forall j :: i <= j < t.data.currSize && j < |t.data.slots| ==> Complete(t.data.slots[j])
  }

  lemma ChildrenCompleteStep(t: Tlv, i: nat)
    requires t.data.Children? && i < t.data.currSize && i < |t.data.slots|
    ensures ChildrenComplete(t, i) <==> Complete(t.data.slots[i]) && ChildrenComplete(t, i + 1)
  {
  }

  /** The DER encoding (X.690 8.1.1) of a node: identifier octet, length
      octets, then the first `dataLen` payload bytes or the encodings of the
      in-use children in array order. */
  function Der(o: Option<Tlv>): seq<byte>
    requires Framed(o)
    decreases o, 1
  {
    match o
    case None => []
    case Some(t) =>
      [t.tag] + LenOctets(t.dataLen, t.lenByteCnt) +
      match t.data
      case Primitive(b) => b[..t.dataLen]
      case Children(_, _) => DerChildren(t, 0)
  }

  function DerChildren(t: Tlv, i: nat): seq<byte>
    requires Framed(Some(t)) && t.data.Children?
    decreases t, 0, |t.data.slots| - i
  {
    if i >= t.data.currSize || i >= |t.data.slots| then []
    else Der(t.data.slots[i]) + DerChildren(t, i + 1)
  }

  /** Every constructed node in use has fewer than 256 in-use children, so
      the 8-bit child index of `ak_asn_encode_tlv` reaches each count. */
  predicate Narrow(o: Option<Tlv>)
    decreases o
  {
    match o
    case None => true
    case Some(t) =>
      match t.data
      case Primitive(_) => true
      case Children(slots, n) => n < 256 && forall i :: 0 <= i < n && i < |slots| ==> Narrow(slots[i])
  }

  /** What `ak_asn_encode_tlv` does, started at position `pos` of a buffer
      ending at `end`: its return code and the bytes it writes from `pos`
      on. They are written even when a failure comes later, and the write
      position stays past them. A node that succeeds writes at least its
      tag and one length octet. */
  function Emit(o: Option<Tlv>, pos: nat, end: nat): (r: (Status, seq<byte>))
    requires Framed(o) && pos <= end
    ensures pos + |r.1| <= end
    ensures pos + SlotSize(o) > end ==> r.1 == []
    ensures r.0 == Success ==> |r.1| >= 2
    ensures r.0 == Success || r.0 == Failure(NullPointer) || r.0 == Failure(OutOfMemory)
    decreases o, 1
  {
    match o
    case None => (Failure(NullPointer), [])
    case Some(t) =>
      if pos + Size(t) > end then (Failure(OutOfMemory), [])
      else
        var header := [t.tag] + LenOctets(t.dataLen, t.lenByteCnt);
        if IsConstructedTag(t.tag) then
          var c := EmitChildren(t, 0, pos + |header|, end);
          (c.0, header + c.1)
        else (Success, header + t.data.bytes[..t.dataLen])
  }

  /** The in-use children from index i on, each started where the previous
      one stopped, up to the first failure. The index is an `ak_uint8`:
      after 255 it wraps to 0, so with 256 or more in-use children the
      walk starts again at the first child and ends only when a child
      fails. */
  function EmitChildren(t: Tlv, i: byte, pos: nat, end: nat): (r: (Status, seq<byte>))
    requires Framed(Some(t)) && t.data.Children? && pos <= end
    ensures pos + |r.1| <= end
    ensures r.0 == Success || r.0 == Failure(NullPointer) || r.0 == Failure(OutOfMemory)
    decreases t, 0, end - pos
  {
    if i >= t.data.currSize then (Success, [])
    else
      var c := Emit(t.data.slots[i], pos, end);
      if c.0 != Success then c
      else
        var rest := EmitChildren(t, (i + 1) % 256, pos + |c.1|, end);
        (rest.0, c.1 + rest.1)
  }

  /** With lengths that are the true ones and room for the whole node, the
      encoder succeeds exactly when no in-use slot is NULL and no node has
      256 or more in-use children, and then writes the DER encoding, which
      occupies exactly `ak_asn_get_size` bytes. Without such a wide node, a
      NULL in-use slot gives `ak_error_null_pointer`. */
  lemma EmitWellSized(o: Option<Tlv>, pos: nat, end: nat)
    requires WellSized(o) && pos + SlotSize(o) <= end
    ensures Emit(o, pos, end).0 == Success <==> Complete(o) && Narrow(o)
    ensures Narrow(o) && !Complete(o) ==> Emit(o, pos, end).0 == Failure(NullPointer)
    ensures Complete(o) && Narrow(o) ==> Emit(o, pos, end).1 == Der(o) && |Der(o)| == SlotSize(o)
  {
    if !Narrow(o) {
      EmitNotNarrow(o, pos, end);
    } else if Complete(o) {
      EmitComplete(o, pos, end);
    } else {
      EmitIncomplete(o, pos, end);
    }
  }

  /** A complete node is written whole as its DER encoding. */
  lemma {:induction false} EmitComplete(o: Option<Tlv>, pos: nat, end: nat)
    requires WellSized(o) && Complete(o) && Narrow(o) && pos + SlotSize(o) <= end
    ensures Emit(o, pos, end) == (Success, Der(o)) && |Der(o)| == SlotSize(o)
    decreases o, 1
  {
    var t := o.value;
    var header := [t.tag] + LenOctets(t.dataLen, t.lenByteCnt);
    if IsConstructedTag(t.tag) {
      assert ChildrenComplete(t, 0);
      EmitChildrenComplete(t, 0, pos + |header|, end);
    }
  }

  lemma {:induction false} EmitChildrenComplete(t: Tlv, i: byte, pos: nat, end: nat)
    requires WellSized(Some(t)) && Narrow(Some(t)) && t.data.Children? && ChildrenComplete(t, i)
    requires i <= t.data.currSize && pos + ChildSizes(t.data, i) <= end
    ensures EmitChildren(t, i, pos, end) == (Success, DerChildren(t, i))
    ensures |DerChildren(t, i)| == ChildSizes(t.data, i)
    decreases t, 0, |t.data.slots| - i
  {
    if i < t.data.currSize {
      ChildOf(t, i);
      var c := t.data.slots[i];
      ChildrenCompleteStep(t, i);
      assert ChildSizes(t.data, i) == SlotSize(c) + ChildSizes(t.data, i + 1);
      EmitComplete(c, pos, end);
      SmallMod(i + 1, 256);
      var j: byte := i + 1;
      EmitChildrenComplete(t, j, pos + SlotSize(c), end);
      ChildStep(t, i, pos, end, EmitChildren(t, i, pos, end), Success, Der(c));
      assert DerChildren(t, i) == Der(c) + DerChildren(t, j);
    }
  }

  /** An in-use child of a narrow node with true lengths. */
  lemma ChildOf(t: Tlv, i: nat)
    requires WellSized(Some(t)) && Narrow(Some(t)) && t.data.Children? && i < t.data.currSize
    ensures i < |t.data.slots| && t.data.currSize < 256
    ensures WellSized(t.data.slots[i]) && Narrow(t.data.slots[i])
  {
  }

  /** A node with a NULL in-use slot fails with `ak_error_null_pointer`. */
  lemma {:induction false} EmitIncomplete(o: Option<Tlv>, pos: nat, end: nat)
    requires WellSized(o) && Narrow(o) && !Complete(o) && pos + SlotSize(o) <= end
    ensures Emit(o, pos, end).0 == Failure(NullPointer)
    decreases o, 1
  {
    if o.Some? {
      var t := o.value;
      var header := [t.tag] + LenOctets(t.dataLen, t.lenByteCnt);
      assert IsConstructedTag(t.tag) && !ChildrenComplete(t, 0);
      EmitChildrenIncomplete(t, 0, pos + |header|, end);
    }
  }

  lemma {:induction false} EmitChildrenIncomplete(t: Tlv, i: byte, pos: nat, end: nat)
    requires WellSized(Some(t)) && Narrow(Some(t)) && t.data.Children? && !ChildrenComplete(t, i)
    requires pos + ChildSizes(t.data, i) <= end
    ensures EmitChildren(t, i, pos, end).0 == Failure(NullPointer)
    decreases t, 0, |t.data.slots| - i
  {
    assert i < t.data.currSize;
    ChildOf(t, i);
    var c := t.data.slots[i];
    ChildrenCompleteStep(t, i);
    assert ChildSizes(t.data, i) == SlotSize(c) + ChildSizes(t.data, i + 1);
    if Complete(c) {
      EmitComplete(c, pos, end);
      SmallMod(i + 1, 256);
      var j: byte := i + 1;
      EmitChildrenIncomplete(t, j, pos + SlotSize(c), end);
      ChildStep(t, i, pos, end, EmitChildren(t, i, pos, end), Success, Der(c));
    } else {
      EmitIncomplete(c, pos, end);
      ChildStep(t, i, pos, end, EmitChildren(t, i, pos, end), Failure(NullPointer), Emit(c, pos, end).1);
    }
  }

  /** A node with 256 or more in-use children, at any depth, is never
      encoded: the 8-bit child index wraps before it reaches the count. */
  lemma {:induction false} EmitNotNarrow(o: Option<Tlv>, pos: nat, end: nat)
    requires Framed(o) && !Narrow(o) && pos <= end
    ensures Emit(o, pos, end).0 != Success
    decreases o, 1
  {
    var t := o.value;
    if pos + Size(t) <= end {
      var header := [t.tag] + LenOctets(t.dataLen, t.lenByteCnt);
      if t.data.currSize >= 256 {
        ChildrenNeverEnd(t, 0, pos + |header|, end);
      } else {
        ChildrenNotNarrow(t, 0, pos + |header|, end);
      }
    }
  }

  /** The in-use children from index i on are all narrow. */
  predicate NarrowFrom(t: Tlv, i: nat)
    requires t.data.Children?
  {
    forall j :: i <= j < t.data.currSize && j < |t.data.slots| ==> Narrow(t.data.slots[j])
  }

  /** With fewer than 256 in-use children, one of them wide, the walk
      fails at that child or earlier. */
  lemma {:induction false} ChildrenNotNarrow(t: Tlv, i: byte, pos: nat, end: nat)
    requires Framed(Some(t)) && t.data.Children? && t.data.currSize < 256 && !NarrowFrom(t, i)
    requires pos <= end
    ensures EmitChildren(t, i, pos, end).0 != Success
    decreases t, 0, t.data.currSize - i
  {
    var c := t.data.slots[i];
    assert Framed(c);
    if !Narrow(c) {
      EmitNotNarrow(c, pos, end);
    } else {
      var r := Emit(c, pos, end);
      if r.0 == Success {
        SmallMod(i + 1, 256);
        ChildrenNotNarrow(t, i + 1, pos + |r.1|, end);
      }
    }
  }

  /** With 256 or more in-use children the index never reaches the count,
      so the walk can only end in a failure. */
  lemma {:induction false} ChildrenNeverEnd(t: Tlv, i: byte, pos: nat, end: nat)
    requires Framed(Some(t)) && t.data.Children? && t.data.currSize >= 256 && pos <= end
    ensures EmitChildren(t, i, pos, end).0 != Success
    decreases end - pos
  {
    var r := Emit(t.data.slots[i], pos, end);
    if r.0 == Success {
      ChildrenNeverEnd(t, (i + 1) % 256, pos + |r.1|, end);
    }
  }

  /** The first 256 slots hold encodable children: true lengths, no NULL
      slot and no wide node inside. */
  predicate First256Encodable(t: Tlv)
    requires t.data.Children?
  {
    forall j :: 0 <= j < 256 && j < |t.data.slots| ==>
      WellSized(t.data.slots[j]) && Complete(t.data.slots[j]) && Narrow(t.data.slots[j])
  }

  /** A node with 256 or more in-use children whose first 256 children are
      encodable is walked round and round from its first child until one
      no longer fits before `end`: it fails with `ak_error_out_of_memory`
      whatever room it is given, never with success, and never reaches the
      children from index 256 on. */
  lemma EmitWraps(t: Tlv, pos: nat, end: nat)
    requires Framed(Some(t)) && t.data.Children? && t.data.currSize >= 256 && First256Encodable(t)
    requires pos <= end
    ensures Emit(Some(t), pos, end).0 == Failure(OutOfMemory)
  {
    if pos + Size(t) <= end {
      var header := [t.tag] + LenOctets(t.dataLen, t.lenByteCnt);
      ChildrenWrap(t, 0, pos + |header|, end);
    }
  }

  lemma {:induction false} ChildrenWrap(t: Tlv, i: byte, pos: nat, end: nat)
    requires Framed(Some(t)) && t.data.Children? && t.data.currSize >= 256 && First256Encodable(t)
    requires pos <= end
    ensures EmitChildren(t, i, pos, end).0 == Failure(OutOfMemory)
    decreases end - pos
  {
    var c := t.data.slots[i];
    if pos + SlotSize(c) <= end {
      EmitComplete(c, pos, end);
      ChildrenWrap(t, (i + 1) % 256, pos + SlotSize(c), end);
    }
  }

  /** `ak_asn_encode_tlv`: a NULL node fails with `ak_error_null_pointer`
      and a node whose cached size does not fit before `end` fails with
      `ak_error_out_of_memory`, both before writing anything; otherwise the
      tag and length are written, then the payload or each in-use child in
      array order, returning at the first child that fails. The method does
      what `Emit` says and writes nowhere else. */
  method EncodeTlv(o: Option<Tlv>, buf: array<byte>, pos: nat, end: nat) returns (st: Status, next: nat)
    requires Framed(o) && pos <= end <= buf.Length
    modifies buf
    ensures pos <= next <= end
    ensures (st, buf[pos..next]) == Emit(o, pos, end)
    ensures buf[..pos] == old(buf[..pos]) && buf[next..] == old(buf[next..])
    ensures pos + SlotSize(o) > end ==> next == pos && buf[..] == old(buf[..])
    decreases o, 1
  {
    if o.None? {
      return Failure(NullPointer), pos;
    }
    var t := o.value;
    var size := Size(t);
    if pos + size > end {
      assert Emit(o, pos, end) == (Failure(OutOfMemory), []);
      assert buf[pos..pos] == [];
      return Failure(OutOfMemory), pos;
    }
    ghost var b0 := buf[..];
    var start := PutHeader(t, buf, pos);
    ghost var b1 := buf[..];
    if IsConstructedTag(t.tag) {
      st, next := EncodeChildren(t, buf, start, end);
    } else {
      next := CopyBytes(t.data.bytes, t.dataLen, buf, start);
      st := Success;
    }
    FrameCompose(b0, b1, buf[..], pos, start, next);
  }

  /** The tag and length octets of a node, written by `new_asn_put_tag` and
      `new_asn_put_len`. */
  method PutHeader(t: Tlv, buf: array<byte>, pos: nat) returns (next: nat)
    requires 1 <= t.lenByteCnt <= 9 && pos + 1 + t.lenByteCnt <= buf.Length
    modifies buf
    ensures next == pos + 1 + t.lenByteCnt
    ensures buf[pos..next] == [t.tag] + LenOctets(t.dataLen, t.lenByteCnt)
    ensures buf[..pos] == old(buf[..pos]) && buf[next..] == old(buf[next..])
  {
    ghost var b0 := buf[..];
    next := PutTag(t.tag, buf, pos);
    ghost var b1 := buf[..];
    assert b1[..pos] == b0[..pos] && b1[next..] == b0[next..];
    assert b1[pos..next] == [t.tag];
    var start := next;
    next := PutLen(t.dataLen, t.lenByteCnt, buf, start);
    FrameCompose(b0, b1, buf[..], pos, start, next);
  }

  /** Two writes to adjacent regions, the second after the first, leave
      everything outside both unchanged and the first region's bytes intact. */
  lemma FrameCompose(a: seq<byte>, b: seq<byte>, c: seq<byte>, p: nat, q: nat, r: nat)
    requires p <= q <= r <= |a| && |b| == |a| && |c| == |a|
    requires b[..p] == a[..p] && b[q..] == a[q..]
    requires c[..q] == b[..q] && c[r..] == b[r..]
    ensures c[..p] == a[..p] && c[r..] == a[r..]
    ensures c[p..r] == b[p..q] + c[q..r]
  {
    assert c[..p] == c[..q][..p];
    assert b[..p] == b[..q][..p];
    assert b[r..] == b[q..][r - q..];
    assert a[r..] == a[q..][r - q..];
    assert c[p..q] == c[..q][p..] == b[..q][p..] == b[p..q];
  }

  /** One pass of the child loop keeps the bytes before `pos` and after the
      new write position, and extends what the loop has written. */
  lemma LoopFrame(a: seq<byte>, b: seq<byte>, c: seq<byte>, p: nat, q: nat, r: nat, done: seq<byte>)
    requires p <= q <= r <= |a| && |b| == |a| && |c| == |a|
    requires b[..p] == a[..p] && b[q..] == a[q..] && b[p..q] == done
    requires c[..q] == b[..q] && c[r..] == b[r..]
    ensures c[..p] == a[..p] && c[r..] == a[r..]
    ensures c[p..r] == done + c[q..r]
  {
    FrameCompose(a, b, c, p, q, r);
  }

  /** The loop of `ak_asn_encode_tlv` over the in-use children of a
      constructed node, with its 8-bit index. Every child written moves the
      write position on, so the loop ends even when the index wraps. */
  method EncodeChildren(t: Tlv, buf: array<byte>, pos: nat, end: nat) returns (st: Status, next: nat)
    requires Framed(Some(t)) && t.data.Children? && pos <= end <= buf.Length
    modifies buf
    ensures pos <= next <= end
    ensures (st, buf[pos..next]) == EmitChildren(t, 0, pos, end)
    ensures buf[..pos] == old(buf[..pos]) && buf[next..] == old(buf[next..])
    decreases t, 0
  {
    var slots := t.data.slots;
    assert t.data.currSize <= |slots|;
    var index: byte := 0;
    next := pos;
    ghost var done: seq<byte> := [];
    ghost var whole := EmitChildren(t, 0, pos, end);
    assert done + whole.1 == whole.1;
    while index < t.data.currSize
      invariant pos <= next <= end
      invariant buf[..pos] == old(buf[..pos]) && buf[next..] == old(buf[next..])
      invariant buf[pos..next] == done
      invariant ChildrenAt(t, whole, index, next, end, done)
      decreases end - next
    {
      ghost var before := buf[..];
      var child := slots[index];
      assert Framed(child);
      var cst, cnext := EncodeTlv(child, buf, next, end);
      ghost var out := buf[next..cnext];
      LoopFrame(old(buf[..]), before, buf[..], pos, next, cnext, done);
      if cst != Success {
        ChildFails(t, whole, index, next, end, done, cst, out);
        return cst, cnext;
      }
      ChildAdvance(t, whole, index, next, cnext, end, done, out);
      done := done + out;
      next := cnext;
      index := (index + 1) % 256;
    }
    assert EmitChildren(t, index, next, end) == (Success, []);
    assert done + [] == done;
    st := Success;
  }

  /** The loop of `EncodeChildren` once the children before `index` have
      written `done` and the next one is written at `next`. */
  ghost predicate ChildrenAt(t: Tlv, whole: (Status, seq<byte>), index: byte, next: nat, end: nat, done: seq<byte>)
    requires Framed(Some(t)) && t.data.Children? && next <= end
  {
    whole == Prefixed(done, EmitChildren(t, index, next, end))
  }

  /** A child that is written whole moves the loop on past it. */
  lemma ChildAdvance(t: Tlv, whole: (Status, seq<byte>), index: byte, next: nat, cnext: nat, end: nat, done: seq<byte>, out: seq<byte>)
    requires Framed(Some(t)) && t.data.Children? && cnext == next + |out| <= end
    requires index < t.data.currSize && index < |t.data.slots|
    requires ChildrenAt(t, whole, index, next, end, done)
    requires (Success, out) == Emit(t.data.slots[index], next, end)
    ensures ChildrenAt(t, whole, (index + 1) % 256, cnext, end, done + out)
  {
    ChildStep(t, index, next, end, EmitChildren(t, index, next, end), Success, out);
    PrefixedStep(done, out, EmitChildren(t, (index + 1) % 256, next + |out|, end));
  }

  /** A child that fails ends the loop with its status. */
  lemma ChildFails(t: Tlv, whole: (Status, seq<byte>), index: byte, next: nat, end: nat, done: seq<byte>, cst: Status, out: seq<byte>)
    requires Framed(Some(t)) && t.data.Children? && next <= end
    requires index < t.data.currSize && index < |t.data.slots|
    requires ChildrenAt(t, whole, index, next, end, done)
    requires cst != Success && (cst, out) == Emit(t.data.slots[index], next, end)
    ensures whole == (cst, done + out)
  {
    ChildStep(t, index, next, end, EmitChildren(t, index, next, end), cst, out);
    PrefixedStop(done, out, cst);
  }

  /** A run's outcome with the bytes `a` already written in front of it. */
  function Prefixed(a: seq<byte>, r: (Status, seq<byte>)): (Status, seq<byte>) {
    (r.0, a + r.1)
  }

  lemma PrefixedStep(a: seq<byte>, b: seq<byte>, r: (Status, seq<byte>))
    ensures Prefixed(a, Prefixed(b, r)) == Prefixed(a + b, r)
  {
    assert a + (b + r.1) == (a + b) + r.1;
  }

  lemma PrefixedStop(a: seq<byte>, b: seq<byte>, st: Status)
    ensures Prefixed(a, (st, b)) == (st, a + b)
  {
  }

  /** One step of `EmitChildren`: a failing child ends it, a succeeding one
      is followed by the rest. */
  lemma ChildStep(t: Tlv, i: byte, pos: nat, end: nat, here: (Status, seq<byte>), cst: Status, out: seq<byte>)
    requires Framed(Some(t)) && t.data.Children? && pos <= end
    requires i < t.data.currSize && i < |t.data.slots|
    requires here == EmitChildren(t, i, pos, end)
    requires (cst, out) == Emit(t.data.slots[i], pos, end)
    ensures cst != Success ==> here == (cst, out)
    ensures cst == Success ==> here == Prefixed(out, EmitChildren(t, (i + 1) % 256, pos + |out|, end))
  {
  }

  /** The `memcpy` of a primitive payload: the first n bytes of `b` are
      copied to the write position, which advances by n. */
  method CopyBytes(b: seq<byte>, n: nat, buf: array<byte>, pos: nat) returns (next: nat)
    requires n <= |b| && pos + n <= buf.Length
    modifies buf
    ensures next == pos + n
    ensures buf[pos..next] == b[..n]
    ensures buf[..pos] == old(buf[..pos]) && buf[next..] == old(buf[next..])
  {
    forall i | 0 <= i < n {
      buf[pos + i] := b[i];
    }
    next := pos + n;
    assert buf[..pos] == old(buf[..pos]);
    assert buf[next..] == old(buf[next..]);
  }

  /** `ak_asn_update_size`, whose body is not part of this model, as
      `ak_asn_encode` relies on it: bottom up, every constructed node's
      length becomes the summed sizes of its in-use children and every
      node's length-octet count the DER count of its length. Slots past
      `currSize` are not visited. */
  function UpdateSize(o: Option<Tlv>): (r: Option<Tlv>)
    ensures r.None? <==> o.None?
    ensures Shaped(o) ==> Shaped(r)
    decreases o, 1
  {
    match o
    case None => None
    case Some(t) =>
      match t.data
      case Primitive(_) => Some(t.(lenByteCnt := LenByteCnt(t.dataLen)))
      case Children(slots, n) =>
        var u := t.(data := Children(UpdateSlots(t), n));
        var len := ChildSizes(u.data, 0);
        Some(u.(dataLen := len, lenByteCnt := LenByteCnt(len)))
  }

  function UpdateSlots(t: Tlv): (s: seq<Option<Tlv>>)
    requires t.data.Children?
    ensures |s| == |t.data.slots|
    decreases t, 0
  {
    seq(|t.data.slots|, j requires 0 <= j < |t.data.slots| =>
      if j < t.data.currSize then UpdateSize(t.data.slots[j]) else t.data.slots[j])
  }

  /** After `ak_asn_update_size` the cached lengths are the true ones,
      provided every recomputed length fits the four length octets the
      writer supports; recomputing adds and removes no NULL slot. */
  lemma {:induction false} UpdateSizeWellSized(o: Option<Tlv>)
    requires Shaped(o) && Counted(UpdateSize(o))
    ensures WellSized(UpdateSize(o))
    ensures Complete(UpdateSize(o)) <==> Complete(o)
    ensures Narrow(UpdateSize(o)) <==> Narrow(o)
    decreases o
  {
    if o.Some? && o.value.data.Children? {
      var t := o.value;
      var s := UpdateSlots(t);
      var u := UpdateSize(o).value;
      assert u.data.slots == s && u.data.currSize == t.data.currSize;
      forall j | 0 <= j < t.data.currSize
        ensures WellSized(s[j]) && (Complete(s[j]) <==> Complete(t.data.slots[j]))
        ensures Narrow(s[j]) <==> Narrow(t.data.slots[j])
      {
        assert Counted(u.data.slots[j]);
        UpdateSizeWellSized(t.data.slots[j]);
      }
    }
  }

  /** A tree whose cached lengths are already the true ones is left as it is. */
  lemma {:induction false} UpdateSizeFixes(o: Option<Tlv>)
    requires WellSized(o)
    ensures UpdateSize(o) == o
    decreases o
  {
    if o.Some? && o.value.data.Children? {
      var t := o.value;
      var s := UpdateSlots(t);
      forall j | 0 <= j < |s|
        ensures s[j] == t.data.slots[j]
      {
        if j < t.data.currSize {
          UpdateSizeFixes(t.data.slots[j]);
        }
      }
      assert s == t.data.slots;
    }
  }

  /** `ak_asn_encode`: a NULL tree fails with `ak_error_null_pointer` and
      leaves `*p_size` as it was; otherwise the lengths are recomputed,
      `*p_size` becomes the tree's size, a buffer of that size is allocated
      and the tree is encoded into it. On success the buffer holds the DER
      encoding and the returned position is rewound to its start. Success
      comes exactly for a tree without NULL in-use slots and without a node
      of 256 or more in-use children. The failures are a NULL in-use slot
      and, for a root with 256 or more encodable children, running out of
      the buffer; after either the position stays past what was written.
      `out` is the allocated buffer and `cursor` the offset the caller's
      pointer is left at. */
  method Encode(o: Option<Tlv>, size: nat) returns (st: Status, out: seq<byte>, cursor: nat, newSize: nat)
    requires Shaped(o) && Counted(UpdateSize(o))
    ensures o.None? ==> st == Failure(NullPointer) && out == [] && cursor == 0 && newSize == size
    ensures o.Some? ==> newSize == SlotSize(UpdateSize(o)) && |out| == newSize
    ensures o.Some? ==> (st == Success <==> Complete(o) && Narrow(o))
    ensures o.Some? && Narrow(o) && st != Success ==> st == Failure(NullPointer)
    ensures st == Success || st == Failure(NullPointer) || st == Failure(OutOfMemory)
    ensures o.Some? && o.value.data.Children? && o.value.data.currSize >= 256 && First256Encodable(o.value) ==>
      st == Failure(OutOfMemory)
    ensures st == Success ==> out == Der(UpdateSize(o)) && cursor == 0
    ensures o.Some? && st != Success ==>
      cursor <= |out| && out[..cursor] == Emit(UpdateSize(o), 0, newSize).1
  {
    if o.None? {
      return Failure(NullPointer), [], 0, size;
    }
    var u := UpdateSize(o);
    UpdateSizeWellSized(o);
    newSize := Size(u.value);
    var buf := new byte[newSize];
    var next;
    st, next := EncodeTlv(u, buf, 0, newSize);
    EmitWellSized(u, 0, newSize);
    if o.value.data.Children? && o.value.data.currSize >= 256 && First256Encodable(o.value) {
      UpdateKeepsFirst256(o.value);
      EmitWraps(u.value, 0, newSize);
    }
    out := buf[..];
    if st != Success {
      assert out[..next] == buf[0..next];
      return st, out, next, newSize;
    }
    assert |Der(u)| == newSize;
    assert out == buf[0..next];
    cursor := next - newSize;
  }

  /** Recomputing the lengths keeps the first 256 children encodable. */
  lemma UpdateKeepsFirst256(t: Tlv)
    requires Shaped(Some(t)) && Counted(UpdateSize(Some(t))) && t.data.Children? && First256Encodable(t)
    ensures UpdateSize(Some(t)).value.data.Children? && First256Encodable(UpdateSize(Some(t)).value)
  {
    var s := UpdateSlots(t);
    var u := UpdateSize(Some(t)).value;
    assert u.data.slots == s;
    forall j | 0 <= j < 256 && j < |s|
      ensures WellSized(s[j]) && Complete(s[j]) && Narrow(s[j])
    {
      UpdateSizeFixes(t.data.slots[j]);
    }
  }

  /** The return code of `ak_asn_add`: `ak_error_ok`, or -1 when the child
      array is full. */
  datatype AddCode = AddOk | AddFull

  /** `ak_asn_create_constructed_tlv`, whose body is not part of this model,
      as `ak_asn_add` uses it: an empty constructed node with the given tag,
      length 0 (one length octet) and a child array of `capacity` NULL slots. */
  function NewConstructed(tag: byte, capacity: nat): (c: Tlv)
    ensures c.data.Children?
  {
    Tlv(tag, 0, 1, Children(seq(capacity, _ => None), 0))
  }

  /** `ak_asn_add`, on values: a tag without the CONSTRUCTED bit changes
      nothing and returns `ak_error_ok`. Otherwise the new empty constructed
      child goes to slot `m_curr_size` (read into an 8-bit position), unless
      that position equals the array's capacity, which returns -1. The
      count of in-use slots is not incremented, and the node's length
      becomes 1 plus twice the child's length. */
  function Add(t: Tlv, dataTag: byte, capacity: nat): (r: (AddCode, Tlv))
    requires IsConstructedTag(dataTag) ==> t.data.Children? && t.data.currSize <= |t.data.slots|
  {
    if !IsConstructedTag(dataTag) then (AddOk, t)
    else
      var p := t.data.currSize % 256;
      var child := NewConstructed(dataTag, capacity);
      if p == |t.data.slots| then (AddFull, t)
      else
        var len := 1 + child.dataLen + child.dataLen;
        (AddOk, Tlv(t.tag, len, LenByteCnt(len), Children(t.data.slots[p := Some(child)], t.data.currSize)))
  }

  /** What `ak_asn_add` returns and leaves: a non-constructed tag is a
      no-op; a full array is refused and the node left as it was; otherwise
      the child sits in the slot the count points at, no other slot changes
      and the count stays where it was. */
  lemma AddOutcomes(t: Tlv, dataTag: byte, capacity: nat)
    requires IsConstructedTag(dataTag) ==> t.data.Children? && t.data.currSize <= |t.data.slots|
    ensures !IsConstructedTag(dataTag) ==> Add(t, dataTag, capacity) == (AddOk, t)
    ensures IsConstructedTag(dataTag) && t.data.currSize == |t.data.slots| < 256 ==>
      Add(t, dataTag, capacity) == (AddFull, t)
    ensures IsConstructedTag(dataTag) && t.data.currSize < |t.data.slots| && t.data.currSize < 256 ==>
      var (code, t2) := Add(t, dataTag, capacity);
      && code == AddOk && t2.tag == t.tag && t2.data.Children?
      && t2.data.currSize == t.data.currSize && |t2.data.slots| == |t.data.slots|
      && t2.data.slots[t.data.currSize] == Some(NewConstructed(dataTag, capacity))
      && (forall j :: 0 <= j < |t.data.slots| && j != t.data.currSize ==> t2.data.slots[j] == t.data.slots[j])
  {
  }

  /** Two nodes that agree on their header and on every in-use slot. */
  predicate SameUsed(a: Tlv, b: Tlv) {
    && a.tag == b.tag && a.dataLen == b.dataLen && a.lenByteCnt == b.lenByteCnt
    && (a.data.Primitive? <==> b.data.Primitive?)
    && (a.data.Primitive? ==> a.data == b.data)
    && (a.data.Children? ==>
          && a.data.currSize == b.data.currSize
          && a.data.currSize <= |a.data.slots| && a.data.currSize <= |b.data.slots|
          && forall j :: 0 <= j < a.data.currSize ==> a.data.slots[j] == b.data.slots[j])
  }

  lemma {:induction false} ChildSizesSame(a: Tlv, b: Tlv, i: nat)
    requires SameUsed(a, b) && a.data.Children?
    ensures ChildSizes(a.data, i) == ChildSizes(b.data, i)
    decreases a.data.currSize - i
  {
    if i < a.data.currSize {
      ChildSizesSame(a, b, i + 1);
    }
  }

  lemma {:induction false} DerChildrenSame(a: Tlv, b: Tlv, i: nat)
    requires SameUsed(a, b) && a.data.Children? && Framed(Some(a)) && Framed(Some(b))
    ensures DerChildren(a, i) == DerChildren(b, i)
    decreases a.data.currSize - i
  {
    if i < a.data.currSize {
      DerChildrenSame(a, b, i + 1);
    }
  }

  /** The child `ak_asn_add` stores is never encoded: because the count is
      not incremented, the slot lies past the in-use ones, and after the
      lengths are recomputed the tree encodes exactly as it did before. */
  lemma AddNotEncoded(t: Tlv, dataTag: byte, capacity: nat)
    requires Shaped(Some(t)) && Counted(UpdateSize(Some(t)))
    requires IsConstructedTag(dataTag) && t.data.Children?
    requires t.data.currSize < |t.data.slots| && t.data.currSize < 256
    ensures Add(t, dataTag, capacity).0 == AddOk
    ensures Shaped(Some(Add(t, dataTag, capacity).1)) && Counted(UpdateSize(Some(Add(t, dataTag, capacity).1)))
    ensures Der(UpdateSize(Some(Add(t, dataTag, capacity).1))) == Der(UpdateSize(Some(t)))
  {
    var t2 := Add(t, dataTag, capacity).1;
    AddOutcomes(t, dataTag, capacity);
    assert SameUsed(t, t2.(dataLen := t.dataLen, lenByteCnt := t.lenByteCnt));
    UpdateSameUsed(t, t2);
    var u1 := UpdateSize(Some(t)).value;
    var u2 := UpdateSize(Some(t2)).value;
    FramedSame(t, t2.(dataLen := t.dataLen, lenByteCnt := t.lenByteCnt));
    assert Shaped(Some(t2));
    FramedSame(u1, u2);
    DerChildrenSame(u1, u2, 0);
  }

  /** Recomputing the lengths of two constructed nodes that agree on their
      tag and in-use slots gives nodes that agree on everything encoded. */
  lemma UpdateSameUsed(a: Tlv, b: Tlv)
    requires a.data.Children? && SameUsed(a, b.(dataLen := a.dataLen, lenByteCnt := a.lenByteCnt))
    ensures SameUsed(UpdateSize(Some(a)).value, UpdateSize(Some(b)).value)
  {
    var s1 := UpdateSlots(a);
    var s2 := UpdateSlots(b);
    assert forall j :: 0 <= j < a.data.currSize ==> s1[j] == s2[j];
    var v1 := a.(data := Children(s1, a.data.currSize));
    var v2 := a.(data := Children(s2, a.data.currSize));
    assert SameUsed(v1, v2);
    ChildSizesSame(v1, v2, 0);
  }

  /** Whether a node is shaped and counted depends only on its header and
      its in-use slots. */
  lemma FramedSame(a: Tlv, b: Tlv)
    requires SameUsed(a, b)
    ensures Shaped(Some(a)) <==> Shaped(Some(b))
    ensures Counted(Some(a)) <==> Counted(Some(b))
  {
  }

  /** Every in-use child occupies at least two octets, so a constructed
      node's true length is never 1. */
  lemma {:induction false} ChildSizesNotOne(t: Tlv, i: nat)
    requires Framed(Some(t)) && t.data.Children?
    ensures ChildSizes(t.data, i) != 1
    decreases |t.data.slots| - i
  {
    if i < t.data.currSize && i < |t.data.slots| {
      assert Counted(t.data.slots[i]);
      ChildSizesNotOne(t, i + 1);
    }
  }

  /** The length `ak_asn_add` caches is never the true one, which is why
      `ak_asn_encode` recomputes every length before encoding. */
  lemma AddBreaksSize(t: Tlv, dataTag: byte, capacity: nat)
    requires Framed(Some(t)) && IsConstructedTag(dataTag) && t.data.Children?
    requires t.data.currSize < |t.data.slots| && t.data.currSize < 256
    ensures !Sized(Some(Add(t, dataTag, capacity).1))
  {
    var t2 := Add(t, dataTag, capacity).1;
    AddOutcomes(t, dataTag, capacity);
    assert t2.dataLen == 1;
    assert SameUsed(t, t2.(dataLen := t.dataLen, lenByteCnt := t.lenByteCnt));
    ChildSizesSame(t, t2.(dataLen := t.dataLen, lenByteCnt := t.lenByteCnt), 0);
    ChildSizesNotOne(t, 0);
  }

  /** `ak_asn_add` as its callers evidently expect it to behave: the new
      child takes the next free slot, the count of in-use slots grows by
      one and the node's length grows by the child's size. */
  function AddIntended(t: Tlv, dataTag: byte, capacity: nat): (r: (AddCode, Tlv))
    requires IsConstructedTag(dataTag) ==> t.data.Children? && t.data.currSize <= |t.data.slots|
  {
    if !IsConstructedTag(dataTag) then (AddOk, t)
    else
      var p := t.data.currSize;
      var child := NewConstructed(dataTag, capacity);
      if p == |t.data.slots| then (AddFull, t)
      else
        var len := t.dataLen + Size(child);
        (AddOk, Tlv(t.tag, len, LenByteCnt(len), Children(t.data.slots[p := Some(child)], p + 1)))
  }

  lemma {:induction false} ChildSizesAppend(a: Tlv, b: Tlv, c: Option<Tlv>, i: nat)
    requires a.data.Children? && b.data.Children?
    requires a.data.currSize < |a.data.slots| && b.data.currSize == a.data.currSize + 1
    requires |b.data.slots| == |a.data.slots| && b.data.slots == a.data.slots[a.data.currSize := c]
    requires i <= a.data.currSize
    ensures ChildSizes(b.data, i) == ChildSizes(a.data, i) + SlotSize(c)
    decreases a.data.currSize - i
  {
    if i < a.data.currSize {
      ChildSizesAppend(a, b, c, i + 1);
    } else {
      assert ChildSizes(b.data, i + 1) == 0;
    }
  }

  lemma {:induction false} DerChildrenAppend(a: Tlv, b: Tlv, c: Option<Tlv>, i: nat)
    requires Framed(Some(a)) && Framed(Some(b)) && Framed(c) && a.data.Children? && b.data.Children?
    requires a.data.currSize < |a.data.slots| && b.data.currSize == a.data.currSize + 1
    requires |b.data.slots| == |a.data.slots| && b.data.slots == a.data.slots[a.data.currSize := c]
    requires i <= a.data.currSize
    ensures DerChildren(b, i) == DerChildren(a, i) + Der(c)
    decreases a.data.currSize - i
  {
    if i < a.data.currSize {
      DerChildrenAppend(a, b, c, i + 1);
      ConcatAssoc(Der(a.data.slots[i]), DerChildren(a, i + 1), Der(c));
    } else {
      assert DerChildren(b, i + 1) == [];
    }
  }

  /** The intended `ak_asn_add` keeps the cached lengths true (so long as the
      new length still fits the length octets), keeps the tree free of NULL
      slots, and its child is encoded: the node's contents gain the
      child's encoding, an empty constructed TLV, at the end. */
  lemma AddIntendedEncoded(t: Tlv, dataTag: byte, capacity: nat)
    requires WellSized(Some(t)) && IsConstructedTag(dataTag) && t.data.Children?
    requires t.data.currSize < |t.data.slots| && t.dataLen + 2 <= 0xFFFF_FFFF
    ensures AddIntended(t, dataTag, capacity).0 == AddOk
    ensures WellSized(Some(AddIntended(t, dataTag, capacity).1))
    ensures Complete(Some(AddIntended(t, dataTag, capacity).1)) <==> Complete(Some(t))
    ensures DerChildren(AddIntended(t, dataTag, capacity).1, 0) == DerChildren(t, 0) + [dataTag, 0x00]
  {
    var c := NewConstructed(dataTag, capacity);
    var t2 := AddIntended(t, dataTag, capacity).1;
    AddIntendedSized(t, dataTag, capacity);
    DerChildrenAppend(t, t2, Some(c), 0);
    assert Der(Some(c)) == [dataTag, 0x00];
  }

  lemma AddIntendedSized(t: Tlv, dataTag: byte, capacity: nat)
    requires WellSized(Some(t)) && IsConstructedTag(dataTag) && t.data.Children?
    requires t.data.currSize < |t.data.slots| && t.dataLen + 2 <= 0xFFFF_FFFF
    ensures var t2 := AddIntended(t, dataTag, capacity).1;
      t2.data.Children? && t2.data.slots == t.data.slots[t.data.currSize := Some(NewConstructed(dataTag, capacity))] &&
      t2.data.currSize == t.data.currSize + 1 && WellSized(Some(t2)) && (Complete(Some(t2)) <==> Complete(Some(t)))
  {
    var c := NewConstructed(dataTag, capacity);
    var t2 := AddIntended(t, dataTag, capacity).1;
    assert Shaped(Some(c)) && Counted(Some(c)) && Sized(Some(c)) && Complete(Some(c));
    ChildSizesAppend(t, t2, Some(c), 0);
    assert forall j :: 0 <= j < t2.data.currSize && j < |t2.data.slots| ==>
      t2.data.slots[j] == (if j < t.data.currSize then t.data.slots[j] else Some(c));
  }

  /** Under the size invariant the DER encoding occupies exactly the size
      the node caches. */
  lemma {:induction false} DerSize(o: Option<Tlv>)
    requires WellSized(o)
    ensures |Der(o)| == SlotSize(o)
    decreases o, 1
  {
    if o.Some? && o.value.data.Children? {
      DerChildrenSize(o.value, 0);
    }
  }

  lemma {:induction false} DerChildrenSize(t: Tlv, i: nat)
    requires WellSized(Some(t)) && t.data.Children?
    ensures |DerChildren(t, i)| == ChildSizes(t.data, i)
    decreases t, 0, |t.data.slots| - i
  {
    if i < t.data.currSize && i < |t.data.slots| {
      assert WellSized(t.data.slots[i]);
      DerSize(t.data.slots[i]);
      DerChildrenSize(t, i + 1);
    }
  }

  /** The encoding of a tree with true lengths and no NULL slot is one TLV:
      its first octet is the tag, a DER length reader recovers the node's
      length and the size of the length field from what follows, and the
      whole occupies exactly the node's size. */
  lemma DerHeaderReadBack(t: Tlv)
    requires WellSized(Some(t)) && Complete(Some(t))
    ensures |Der(Some(t))| == Size(t)
    ensures Der(Some(t))[0] == t.tag
    ensures ReadLen(Der(Some(t))[1..]) == Some((t.dataLen, t.lenByteCnt))
  {
    DerSize(Some(t));
    var rest := Der(Some(t))[1 + t.lenByteCnt..];
    assert Der(Some(t))[1..] == LenField(t.dataLen) + rest;
    LenFieldRoundTrip(t.dataLen, rest);
  }

  /** SEQUENCE { INTEGER 2000 } encodes as 30 04 02 02 07 D0, the lengths
      being recomputed from a tree whose cached ones are all zero. */
  lemma EncodeExample(t: Tlv)
    requires t == Tlv(0x30, 0, 0, Children([Some(Tlv(0x02, 2, 0, Primitive([0x07, 0xD0])))], 1))
    ensures Shaped(Some(t)) && Counted(UpdateSize(Some(t))) && Complete(Some(t))
    ensures Der(UpdateSize(Some(t))) == [0x30, 0x04, 0x02, 0x02, 0x07, 0xD0]
  {
    var c := Tlv(0x02, 2, 1, Primitive([0x07, 0xD0]));
    assert UpdateSlots(t) == [Some(c)];
    var u := Tlv(0x30, 4, 1, Children([Some(c)], 1));
    assert UpdateSize(Some(t)) == Some(u);
    assert Der(Some(c)) == [0x02, 0x02, 0x07, 0xD0];
    assert DerChildren(u, 0) == Der(Some(c)) + DerChildren(u, 1);
  }
}
