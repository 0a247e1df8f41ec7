/** Values shared by the ASN.1 writer and the PKCS #15 token codec: octets, the
    library's error codes, and the option/result wrappers that replace C's
    nullable pointers and integer return codes. */
module Common {

  /** One octet (`ak_byte`, `ak_uint8`). */
  type byte = x: int | 0 <= x < 256

  /** A nullable pointer: `None` is NULL. */
  datatype Option<+T> = None | Some(value: T)

  /** The field of a GeneralizedTime string whose check failed; the source
      reports each with `ak_error_wrong_asn1_encode` and a message naming it. */
  datatype TimeField =
    | Year | Month | Day | Hour | Minute | Second
    | FractionAbsent        // a '.' that no digit follows
    | FractionTrailingZero  // a fraction whose last digit is '0'
    | FractionDigit         // a non-digit inside the fraction

  /** The `ak_error_*` codes the modelled code returns. */
  datatype Error =
    | NullPointer                  // ak_error_null_pointer
    | InvalidValue                 // ak_error_invalid_value
    | OutOfMemory                  // ak_error_out_of_memory
    | WrongAsn1Encode(field: TimeField)  // ak_error_wrong_asn1_encode
    | WrongOid                     // ak_error_wrong_oid
    | WrongLength                  // ak_error_wrong_length
    | InvalidToken                 // ak_error_invalid_token
    | CursorOutOfRange             // a cursor move past its window (ps_move_cursor)
    | ReadFailed                   // whatever asn_get_expected_tlv, asn_get_len or
                                   // asn_get_num_of_elems_in_constructed_obj returns
                                   // on input they cannot read

  /** A C function's return code together with its out-parameter. */
  datatype Result<+T> = Ok(value: T) | Err(error: Error) {
    predicate IsFailure() { Err? }
    function PropagateFailure<U>(): Result<U> requires Err? { Err(error) }
    function Extract(): T requires Ok? { value }
  }

  /** A C function's return code alone: `ak_error_ok` or an error. */
  datatype Status = Success | Failure(error: Error)

  lemma ConcatAssoc(a: seq<byte>, b: seq<byte>, c: seq<byte>)
    ensures a + (b + c) == (a + b) + c
  {
  }

  /** The `(ak_byte)` cast of a C `char`. */
  function CharByte(c: char): byte { (c as int) % 256 }

  /** The bytes of a text, one per character. */
  function TextBytes(s: string): seq<byte> {
    seq(|s|, i requires 0 <= i < |s| => CharByte(s[i]))
  }

  /** `strlen`: the number of characters before the first NUL. */
  function Strlen(s: string): (n: nat)
    ensures n <= |s|
    ensures n < |s| ==> s[n] == '\0'
  {
    if s == [] || s[0] == '\0' then 0 else 1 + Strlen(s[1..])
  }

  /** No character before `strlen` is NUL. */
  lemma {:induction false} StrlenBefore(s: string, i: nat)
    requires i < Strlen(s)
    ensures s[i] != '\0'
  {
    if i > 0 {
      StrlenBefore(s[1..], i - 1);
    }
  }

  /** `strlen` of a text without NUL is its length. */
  lemma {:induction false} StrlenNoNul(s: string)
    requires '\0' !in s
    ensures Strlen(s) == |s|
  {
    if s != [] {
      assert s[0] in s;
      assert forall c :: c in s[1..] ==> c in s;
      StrlenNoNul(s[1..]);
    }
  }

  /** The character at index `i` of a C string, reading the terminator as NUL
      at and past the end of the text. */
  function At(s: string, i: nat): char {
    if i < |s| then s[i] else '\0'
  }

  /** The `(int8_t)` cast: the representative of n modulo 256 in -128..127. */
  function Int8(n: int): (r: int)
    ensures -128 <= r < 128
  {
    if n % 256 < 128 then n % 256 else n % 256 - 256
  }

  /** The cast keeps the value modulo 256. */
  lemma Int8Congruent(n: int)
    ensures (n - Int8(n)) % 256 == 0
  {
  }

  /** The cast leaves a value of -128..127 as it is. */
  lemma Int8Small(n: int)
    requires -128 <= n < 128
    ensures Int8(n) == n
  {
    if n >= 0 { assert n % 256 == n; } else { assert (n + 256) % 256 == n + 256; }
  }

  /** `isdigit`. */
  predicate IsDigit(c: char) { '0' <= c <= '9' }
}
