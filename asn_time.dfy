/** The GeneralizedTime writer (`new_asn_put_generalized_time`,
    `new_asn_get_gentime_byte_cnt`). Its input is a text of the form
    "YYYY-MM-DD HH:MM:SS[.fff] UTC"; it stores the DER form of X.690 11.7,
    "YYYYMMDDHHMMSS[.fff]Z": the fourteen digits without their separators,
    the fraction if there is one, and a closing 'Z'. */
module AsnTime {
  import opened Common
  import opened AsnLength
  import opened AsnPrimitives

  /** The number of separators the writer has skipped once it has taken
      `j` digits: one after the year, month, day, hour and minute. */
  function Skipped(j: nat): nat {
    if j < 4 then 0
    else if j < 6 then 1
    else if j < 8 then 2
    else if j < 10 then 3
    else if j < 12 then 4
    else 5
  }

  /** Where the text is read next once `j` digits have been taken: the j-th
      digit of "YYYY-MM-DD HH:MM:SS" for j below 14 (0-3, 5-6, 8-9, 11-12,
      14-15, 17-18), then index 19, where a fraction's '.' is looked for. */
  function ReadPosition(j: nat): nat {
    j + Skipped(j)
  }

  /** The field the j-th digit belongs to, which the error names. */
  function FieldAt(j: nat): TimeField {
    if j < 4 then Year
    else if j < 6 then Month
    else if j < 8 then Day
    else if j < 10 then Hour
    else if j < 12 then Minute
    else Second
  }

  /** `new_asn_get_gentime_byte_cnt`: `strlen(time) - 8`, taken modulo 256
      by the cast to `ak_uint8` (so a text shorter than 8 characters gives
      248 to 255), and 0 for NULL. */
  function GenTimeByteCnt(time: Option<string>): (n: nat)
    ensures n < 256
    ensures time.Some? && Strlen(time.value) >= 8 ==> n == (Strlen(time.value) - 8) % 256
    ensures time.Some? && Strlen(time.value) < 8 ==> n == 256 + Strlen(time.value) - 8
    ensures time.None? ==> n == 0
  {
    match time
    case None => 0
    case Some(s) => (Strlen(s) - 8) % 256
  }

  /** The character at a C index that may lie before the start of the text,
      where the source reads memory it does not own; it is taken here as NUL. */
  function AtInt(s: string, i: int): char {
    if i < 0 then '\0' else At(s, i)
  }

  /** `strchr(time + k, ' ')`: the index of the first space from `k` on. A
      text without one has no well-defined result in C; it is taken here as
      the index of the terminating NUL. */
  function SpaceFrom(s: string, k: nat): (r: nat)
    ensures r >= k
    ensures k <= |s| ==> r <= |s|
    ensures r < |s| ==> s[r] == ' ' || s[r] == '\0'
    decreases |s| - k
  {
    if k >= |s| || s[k] == ' ' || s[k] == '\0' then k else SpaceFrom(s, k + 1)
  }

  /** No character between `k` and the result is a space or the NUL:
      the result is the first of them. */
  lemma {:induction false} SpaceFromFirst(s: string, k: nat, i: nat)
    requires k <= i < SpaceFrom(s, k)
    ensures At(s, i) != ' ' && At(s, i) != '\0'
    decreases |s| - k
  {
    if k < i { SpaceFromFirst(s, k + 1, i); }
  }

  /** The number of characters between the '.' at index 19 and the next
      space: the length of the fraction the text spells. */
  function FractionLength(s: string): (n: int)
    ensures At(s, 19) == '.' ==> n >= 0
  {
    assert At(s, 19) == '.' ==> SpaceFrom(s, 19) == SpaceFrom(s, 20);
    SpaceFrom(s, 19) - 20
  }

  /** A value of 128..255 modulo 256 is cast to -128..-1. */
  lemma Int8Wraps(n: int)
    requires n % 256 >= 128
    ensures Int8(n) == n % 256 - 256 < 0
  {
  }

  /** The j-th date position holds a digit. */
  predicate DigitAt(s: string, j: nat) {
    IsDigit(At(s, ReadPosition(j)))
  }

  /** The number of date digits the text holds from the j-th on before the
      first position that does not hold a digit. */
  function DateDigits(s: string, j: nat): (n: nat)
    requires j <= 14
    ensures j <= n <= 14
    decreases 14 - j
  {
    if j == 14 || !DigitAt(s, j) then j else DateDigits(s, j + 1)
  }

  /** The octets the writer stores for the date: the digits it finds, in
      order, up to the first position that does not hold one. */
  function DateRun(s: string): (r: seq<byte>)
    ensures |r| == DateDigits(s, 0)
  {
    seq(DateDigits(s, 0), j requires 0 <= j < DateDigits(s, 0) => CharByte(At(s, ReadPosition(j))))
  }

  /** The octets of the digits among the n characters from `pos` on, up to
      the first one that is not a digit. */
  function DigitRun(s: string, pos: nat, n: nat): seq<byte>
    decreases n
  {
    if n == 0 || !IsDigit(At(s, pos)) then []
    else [CharByte(At(s, pos))] + DigitRun(s, pos + 1, n - 1)
  }

  lemma {:induction false} DigitRunLength(s: string, pos: nat, n: nat)
    ensures |DigitRun(s, pos, n)| <= n
    decreases n
  {
    if n > 0 && IsDigit(At(s, pos)) { DigitRunLength(s, pos + 1, n - 1); }
  }

  /** What the writer does once it knows the block size `cnt` and has
      decided whether the size is acceptable (`tooShort`), given the
      fraction count `ms` it derives from the text. */
  function GenTimeRun(s: string, tooShort: bool, cnt: nat, ms: int): PutResult {
    if tooShort then PutResult(Failure(InvalidValue), Untouched, 0, cnt)
    else
      var date := DateRun(s);
      if |date| < 14 then
        PutResult(Failure(WrongAsn1Encode(FieldAt(|date|))), Allocated(cnt, date), |date|, cnt)
      else if At(s, 19) != '.' then
        PutResult(Success, Allocated(cnt, date + [CharByte('Z')]), 14, cnt)
      else FractionRun(s, cnt, ms, date)
  }

  /** The fraction branch of `GenTimeRun`, once the date digits `date`
      have been stored and a '.' follows them. */
  function FractionRun(s: string, cnt: nat, ms: int, date: seq<byte>): PutResult {
    if ms == 0 then
      PutResult(Failure(WrongAsn1Encode(FractionAbsent)), Allocated(cnt, date), |date|, cnt)
    else if AtInt(s, 19 + ms) == '0' then
      PutResult(Failure(WrongAsn1Encode(FractionTrailingZero)), Allocated(cnt, date), |date|, cnt)
    else
      var frac := if ms > 0 then DigitRun(s, 20, ms) else [];
      var stored := date + [CharByte('.')] + frac;
      if ms > 0 && |frac| < ms then
        PutResult(Failure(WrongAsn1Encode(FractionDigit)), Allocated(cnt, stored), |stored|, cnt)
      else
        PutResult(Success, Allocated(cnt, stored + [CharByte('Z')]), |stored|, cnt)
  }

  /** The result of `new_asn_put_generalized_time` as the source computes
      it: the size is `new_asn_get_gentime_byte_cnt`, a size below 15 is
      refused, and the fraction count is the `int8_t` cast of the fraction
      length. */
  function GenTimeAsWritten(time: Option<string>, size: nat): PutResult {
    match time
    case None => PutResult(Failure(NullPointer), Untouched, 0, size)
    case Some(s) =>
      var cnt := GenTimeByteCnt(time);
      GenTimeRun(s, cnt < 15, cnt, Int8(FractionLength(s)))
  }

  /** `new_asn_put_generalized_time`. `size` is `*p_size` on entry. */
  method PutGeneralizedTime(time: Option<string>, size: nat) returns (r: PutResult)
    ensures r == GenTimeAsWritten(time, size)
  {
    if time.None? {
      return PutResult(Failure(NullPointer), Untouched, 0, size);
    }
    var s := time.value;
    var cnt := GenTimeByteCnt(time);
    if cnt < 15 {
      return PutResult(Failure(InvalidValue), Untouched, 0, cnt);
    }
    assert GenTimeAsWritten(time, size) == GenTimeRun(s, false, cnt, Int8(FractionLength(s)));
    var stored := PutDate(s);
    if |stored| < 14 {
      return PutResult(Failure(WrongAsn1Encode(FieldAt(|stored|))), Allocated(cnt, stored), |stored|, cnt);
    }
    if At(s, 19) == '.' {
      // the count is `strchr(time + 19, ' ') - (time + 19) - 1`, cast to `int8_t`
      var ms := Int8(FractionLength(s));
      AsWrittenFraction(s, size);
      r := PutFraction(s, cnt, ms, stored);
    } else {
      // 'Z' is stored without advancing the pointer
      r := PutResult(Success, Allocated(cnt, stored + [CharByte('Z')]), |stored|, cnt);
    }
  }

  /** The count of date digits is the first position without one. */
  lemma {:induction false} DateDigitsIs(s: string, j: nat, n: nat)
    requires j <= n <= 14
    requires forall i :: j <= i < n ==> DigitAt(s, i)
    requires n < 14 ==> !DigitAt(s, n)
    ensures DateDigits(s, j) == n
    decreases n - j
  {
    if j < n { DateDigitsIs(s, j + 1, n); }
  }

  /** One more separator is skipped exactly after the 4th, 6th, 8th, 10th
      and 12th digit. */
  lemma SkippedStep(j: nat)
    ensures Skipped(j + 1) == Skipped(j) + (if j + 1 in {4, 6, 8, 10, 12} then 1 else 0)
  {
  }

  /** The date part of `new_asn_put_generalized_time`: the fourteen digit
      checks of the source (one loop per field) are one loop here over the
      fourteen digit positions. It stores digits until the first position
      that does not hold one. */
  method PutDate(s: string) returns (stored: seq<byte>)
    ensures stored == DateRun(s)
  {
    stored := [];
    var pos := 0;
    var j := 0;
    while j < 14
      invariant 0 <= j <= 14
      invariant pos == ReadPosition(j)
      invariant |stored| == j
      invariant forall i :: 0 <= i < j ==> stored[i] == CharByte(At(s, ReadPosition(i)))
      invariant forall i :: 0 <= i < j ==> DigitAt(s, i)
    {
      if !IsDigit(At(s, pos)) {
        DateDigitsIs(s, 0, j);
        return;
      }
      stored := stored + [CharByte(At(s, pos))];
      pos := pos + 1;
      j := j + 1;
      SkippedStep(j - 1);
      if j == 4 || j == 6 || j == 8 || j == 10 || j == 12 {
        pos := pos + 1;  // the separator is skipped unread
      }
      assert pos == ReadPosition(j);
    }
    DateDigitsIs(s, 0, 14);
  }

  /** The fraction part of `new_asn_put_generalized_time`: the checks on
      the count `ms`, then the '.', then `ms` digits, then 'Z'. */
  method PutFraction(s: string, cnt: nat, ms: int, date: seq<byte>) returns (r: PutResult)
    requires |date| == 14
    ensures r == FractionRun(s, cnt, ms, date)
  {
    if ms == 0 {
      return PutResult(Failure(WrongAsn1Encode(FractionAbsent)), Allocated(cnt, date), 14, cnt);
    }
    if AtInt(s, 19 + ms) == '0' {
      return PutResult(Failure(WrongAsn1Encode(FractionTrailingZero)), Allocated(cnt, date), 14, cnt);
    }
    var stored := date + [CharByte('.')];
    var pos := 20;
    var i := 0;
    while i < ms
      invariant 0 <= i && (ms > 0 ==> i <= ms)
      invariant pos == 20 + i
      invariant ms > 0 ==> stored + DigitRun(s, pos, ms - i) == date + [CharByte('.')] + DigitRun(s, 20, ms)
      invariant ms < 0 ==> stored == date + [CharByte('.')]
      invariant |stored| == 15 + i
    {
      if !IsDigit(At(s, pos)) {
        assert DigitRun(s, pos, ms - i) == [];
        assert stored == date + [CharByte('.')] + DigitRun(s, 20, ms);
        r := PutResult(Failure(WrongAsn1Encode(FractionDigit)), Allocated(cnt, stored), |stored|, cnt);
        assert r == FractionRun(s, cnt, ms, date);
        return;
      }
      stored := stored + [CharByte(At(s, pos))];
      pos := pos + 1;
      i := i + 1;
    }
    ghost var frac := if ms > 0 then DigitRun(s, 20, ms) else [];
    if ms > 0 {
      assert DigitRun(s, pos, ms - i) == [];
      assert stored == date + [CharByte('.')] + frac;
      assert |frac| == ms;
    } else {
      assert stored == date + [CharByte('.')] + frac;
    }
    // 'Z' is stored without advancing the pointer
    r := PutResult(Success, Allocated(cnt, stored + [CharByte('Z')]), |stored|, cnt);
    assert r == FractionRun(s, cnt, ms, date);
  }

  /** A GeneralizedTime value: the fourteen digits of year to second and
      the digits of the fraction of a second (none when there is none). */
  datatype TimeValue = TimeValue(date: seq<byte>, fraction: seq<byte>)

  predicate IsDigitByte(b: byte) { 0x30 <= b <= 0x39 }

  /** A reader of the DER form of X.690 11.7: fourteen digits, then either
      'Z' alone or a '.', at least one digit with a last digit other than
      '0', and 'Z'. */
  function ReadDerTime(o: seq<byte>): Option<TimeValue> {
    if |o| < 15 || o[|o| - 1] != CharByte('Z') then None
    else if exists i :: 0 <= i < 14 && !IsDigitByte(o[i]) then None
    else if |o| == 15 then Some(TimeValue(o[..14], []))
    else if |o| >= 17 && o[14] == CharByte('.') && o[|o| - 2] != CharByte('0')
      && forall i :: 15 <= i < |o| - 1 ==> IsDigitByte(o[i])
    then Some(TimeValue(o[..14], o[15..|o| - 1]))
    else None
  }

  /** The value a text "YYYY-MM-DD HH:MM:SS[.fff] UTC" spells: the
      characters at the fourteen digit positions, and those between the '.'
      and the next space. */
  function InputTime(s: string): TimeValue {
    TimeValue(
      seq(14, j requires 0 <= j < 14 => CharByte(At(s, ReadPosition(j)))),
      if At(s, 19) == '.' then seq(FractionLength(s), i requires 0 <= i < FractionLength(s) => CharByte(At(s, 20 + i)))
      else [])
  }

  /** A full date run means every date position holds a digit. */
  lemma {:induction false} DateDigitsAt(s: string, j: nat, i: nat)
    requires j <= i < 14 && DateDigits(s, j) == 14
    ensures DigitAt(s, i)
    decreases i - j
  {
    if j < i { DateDigitsAt(s, j + 1, i); }
  }

  /** A full digit run holds the characters themselves, all of them digits. */
  lemma {:induction false} DigitRunAt(s: string, pos: nat, n: nat, k: nat)
    requires |DigitRun(s, pos, n)| == n && pos <= k < pos + n
    ensures IsDigit(At(s, k)) && DigitRun(s, pos, n)[k - pos] == CharByte(At(s, k))
    decreases n
  {
    DigitRunLength(s, pos + 1, n - 1);
    if k > pos {
      DigitRunAt(s, pos + 1, n - 1, k);
      assert DigitRun(s, pos, n)[k - pos] == DigitRun(s, pos + 1, n - 1)[k - (pos + 1)];
    }
  }

  lemma DigitRunAll(s: string, pos: nat, n: nat)
    requires |DigitRun(s, pos, n)| == n
    ensures forall k :: pos <= k < pos + n ==> IsDigit(At(s, k)) && DigitRun(s, pos, n)[k - pos] == CharByte(At(s, k))
  {
    forall k | pos <= k < pos + n
      ensures IsDigit(At(s, k)) && DigitRun(s, pos, n)[k - pos] == CharByte(At(s, k))
    {
      DigitRunAt(s, pos, n, k);
    }
  }

  /** The run stops at the first character that is not a digit. */
  lemma {:induction false} DigitRunStops(s: string, pos: nat, n: nat, k: nat)
    requires pos <= k < pos + n && !IsDigit(At(s, k))
    ensures |DigitRun(s, pos, n)| <= k - pos
    decreases k - pos
  {
    if k > pos && IsDigit(At(s, pos)) { DigitRunStops(s, pos + 1, n - 1, k); }
  }

  /** A run of n digits is full. */
  lemma {:induction false} DigitRunFull(s: string, pos: nat, n: nat)
    requires forall k :: pos <= k < pos + n ==> IsDigit(At(s, k))
    ensures |DigitRun(s, pos, n)| == n
    decreases n
  {
    if n > 0 {
      DigitRunFull(s, pos + 1, n - 1);
    }
  }

  /** The date octets of a text with fourteen date digits are the digits
      the text spells. */
  lemma DateIsInput(s: string)
    requires DateDigits(s, 0) == 14
    ensures DateRun(s) == InputTime(s).date
    ensures forall i :: 0 <= i < 14 ==> IsDigitByte(DateRun(s)[i])
  {
    forall i | 0 <= i < 14 ensures IsDigitByte(DateRun(s)[i]) {
      DateDigitsAt(s, 0, i);
      DigitCharByte(At(s, ReadPosition(i)));
    }
  }

  /** The octet of a digit is its character code, a digit octet. */
  lemma DigitCharByte(c: char)
    requires IsDigit(c)
    ensures CharByte(c) == c as int && IsDigitByte(CharByte(c))
  {
    SmallMod(c as int, 256);
  }

  /** The DER reader accepts fourteen digits and 'Z'. */
  lemma ReadDerWhole(date: seq<byte>)
    requires |date| == 14 && forall i :: 0 <= i < 14 ==> IsDigitByte(date[i])
    ensures ReadDerTime(date + [CharByte('Z')]) == Some(TimeValue(date, []))
  {
    var o := date + [CharByte('Z')];
    assert o[..14] == date;
  }

  /** The DER reader accepts fourteen digits, '.', digits not ending in '0',
      and 'Z'. */
  lemma ReadDerFraction(date: seq<byte>, frac: seq<byte>)
    requires |date| == 14 && forall i :: 0 <= i < 14 ==> IsDigitByte(date[i])
    requires |frac| >= 1 && forall i :: 0 <= i < |frac| ==> IsDigitByte(frac[i])
    requires frac[|frac| - 1] != CharByte('0')
    ensures ReadDerTime(date + [CharByte('.')] + frac + [CharByte('Z')]) == Some(TimeValue(date, frac))
  {
    var o := date + [CharByte('.')] + frac + [CharByte('Z')];
    assert o[..14] == date;
    assert o[15..|o| - 1] == frac;
    forall i | 15 <= i < |o| - 1 ensures IsDigitByte(o[i]) {
      assert o[i] == frac[i - 15];
    }
  }

  /** The fraction octets of a full run of ms digits are the first ms
      digits of the fraction the text spells. */
  lemma FractionIsInput(s: string, ms: int)
    requires At(s, 19) == '.' && 1 <= ms <= FractionLength(s)
    requires |DigitRun(s, 20, ms)| == ms
    ensures DigitRun(s, 20, ms) == InputTime(s).fraction[..ms]
    ensures forall i :: 0 <= i < ms ==> IsDigitByte(DigitRun(s, 20, ms)[i])
    ensures DigitRun(s, 20, ms)[ms - 1] == CharByte(At(s, 19 + ms)) && IsDigit(At(s, 19 + ms))
  {
    var frac := DigitRun(s, 20, ms);
    forall i | 0 <= i < ms ensures IsDigitByte(frac[i]) && frac[i] == InputTime(s).fraction[i] {
      DigitRunAt(s, 20, ms, 20 + i);
      DigitCharByte(At(s, 20 + i));
    }
    DigitRunAt(s, 20, ms, 19 + ms);
  }

  lemma DigitNotZero(c: char)
    requires IsDigit(c) && c != '0'
    ensures CharByte(c) != CharByte('0')
  {
    DigitCharByte(c);
  }

  /** What a successful run of the writer has checked and stored. */
  lemma RunSuccessShape(s: string, tooShort: bool, cnt: nat, ms: int)
    requires GenTimeRun(s, tooShort, cnt, ms).status == Success
    ensures !tooShort && DateDigits(s, 0) == 14
    ensures GenTimeRun(s, tooShort, cnt, ms).size == cnt
    ensures GenTimeRun(s, tooShort, cnt, ms).cursor + 1 == |GenTimeRun(s, tooShort, cnt, ms).buffer.stored|
    ensures At(s, 19) != '.' ==>
      GenTimeRun(s, tooShort, cnt, ms).buffer == Allocated(cnt, DateRun(s) + [CharByte('Z')])
    ensures At(s, 19) == '.' ==>
      ms != 0 && AtInt(s, 19 + ms) != '0' && (ms > 0 ==> |DigitRun(s, 20, ms)| == ms)
      && GenTimeRun(s, tooShort, cnt, ms).buffer
         == Allocated(cnt, DateRun(s) + [CharByte('.')] + (if ms > 0 then DigitRun(s, 20, ms) else []) + [CharByte('Z')])
  {
    if At(s, 19) == '.' {
      var r := FractionRun(s, cnt, ms, DateRun(s));
      assert GenTimeRun(s, tooShort, cnt, ms) == r;
      if ms > 0 {
        DigitRunLength(s, 20, ms);
      }
    }
  }

  /** The octets a successful run stores are the DER form of the value the
      text spells, when the fraction count is the fraction length. */
  lemma ShapeReadBack(s: string, ms: int, o: seq<byte>)
    requires DateDigits(s, 0) == 14
    requires At(s, 19) != '.' ==> o == DateRun(s) + [CharByte('Z')]
    requires At(s, 19) == '.' ==>
      ms == FractionLength(s) && ms != 0 && AtInt(s, 19 + ms) != '0' && |DigitRun(s, 20, ms)| == ms
      && o == DateRun(s) + [CharByte('.')] + DigitRun(s, 20, ms) + [CharByte('Z')]
    ensures ReadDerTime(o) == Some(InputTime(s))
    ensures |o| == 15 + (if At(s, 19) == '.' then 1 + ms else 0)
  {
    if At(s, 19) == '.' {
      FractionReadBack(s, ms, o);
    } else {
      DateIsInput(s);
      ReadDerWhole(DateRun(s));
      assert InputTime(s) == TimeValue(DateRun(s), []);
    }
  }

  /** The fraction case of `ShapeReadBack`. */
  lemma FractionReadBack(s: string, ms: int, o: seq<byte>)
    requires DateDigits(s, 0) == 14 && At(s, 19) == '.'
    requires ms == FractionLength(s) && ms != 0 && AtInt(s, 19 + ms) != '0' && |DigitRun(s, 20, ms)| == ms
    requires o == DateRun(s) + [CharByte('.')] + DigitRun(s, 20, ms) + [CharByte('Z')]
    ensures ReadDerTime(o) == Some(InputTime(s))
    ensures |o| == 16 + ms
  {
    var date := DateRun(s);
    var frac := DigitRun(s, 20, ms);
    assert ms >= 1;
    DateIsInput(s);
    FractionIsInput(s, ms);
    assert InputTime(s).fraction[..ms] == InputTime(s).fraction;
    assert At(s, 19 + ms) != '0';
    DigitNotZero(At(s, 19 + ms));
    ReadDerFraction(date, frac);
    assert InputTime(s) == TimeValue(date, frac);
  }

  /** A successful run of the writer, with a fraction count equal to the
      fraction length, stores the DER form of the value the text spells. */
  lemma RunReadBack(s: string, tooShort: bool, cnt: nat, ms: int)
    requires GenTimeRun(s, tooShort, cnt, ms).status == Success
    requires At(s, 19) == '.' ==> ms == FractionLength(s)
    ensures GenTimeRun(s, tooShort, cnt, ms).buffer.Allocated?
    ensures ReadDerTime(GenTimeRun(s, tooShort, cnt, ms).buffer.stored) == Some(InputTime(s))
    ensures |GenTimeRun(s, tooShort, cnt, ms).buffer.stored| == 15 + (if At(s, 19) == '.' then 1 + ms else 0)
  {
    RunSuccessShape(s, tooShort, cnt, ms);
    ShapeReadBack(s, ms, GenTimeRun(s, tooShort, cnt, ms).buffer.stored);
  }

  /** On success, and for a fraction shorter than 128 characters, the
      stored octets are the DER form of the value the text spells, and the
      pointer is left on the closing 'Z'. */
  lemma GenTimeReadBack(s: string, size: nat)
    requires GenTimeAsWritten(Some(s), size).status == Success
    requires At(s, 19) == '.' ==> FractionLength(s) < 128
    ensures GenTimeAsWritten(Some(s), size).buffer.Allocated?
    ensures ReadDerTime(GenTimeAsWritten(Some(s), size).buffer.stored) == Some(InputTime(s))
    ensures |GenTimeAsWritten(Some(s), size).buffer.stored|
      == 15 + (if At(s, 19) == '.' then 1 + FractionLength(s) else 0)
    ensures GenTimeAsWritten(Some(s), size).cursor + 1 == |GenTimeAsWritten(Some(s), size).buffer.stored|
  {
    var cnt := GenTimeByteCnt(Some(s));
    var ms := Int8(FractionLength(s));
    if At(s, 19) == '.' { Int8Small(FractionLength(s)); }
    RunSuccessShape(s, cnt < 15, cnt, ms);
    RunReadBack(s, cnt < 15, cnt, ms);
  }

  /** On success the block and `*p_size` are `new_asn_get_gentime_byte_cnt`. */
  lemma GenTimeBlock(s: string, size: nat)
    requires GenTimeAsWritten(Some(s), size).status == Success
    ensures GenTimeAsWritten(Some(s), size).buffer.Allocated?
    ensures GenTimeAsWritten(Some(s), size).size == GenTimeAsWritten(Some(s), size).buffer.capacity
    ensures GenTimeAsWritten(Some(s), size).size == GenTimeByteCnt(Some(s))
  {
    var cnt := GenTimeByteCnt(Some(s));
    RunSuccessShape(s, cnt < 15, cnt, Int8(FractionLength(s)));
  }

  /** Where the text ends before its " UTC": after the fraction if there is
      one, else after the seconds. */
  function TextEnd(s: string): nat {
    if At(s, 19) == '.' then SpaceFrom(s, 19) else 19
  }

  /** A text of the documented form "YYYY-MM-DD HH:MM:SS[.fff] UTC", four
      characters after the seconds or the fraction, gets a block exactly as
      long as what is stored in it. */
  lemma GenTimeFits(s: string, size: nat)
    requires GenTimeAsWritten(Some(s), size).status == Success
    requires At(s, 19) == '.' ==> FractionLength(s) < 128
    requires Strlen(s) == TextEnd(s) + 4
    ensures GenTimeAsWritten(Some(s), size).buffer.Allocated?
    ensures |GenTimeAsWritten(Some(s), size).buffer.stored| == GenTimeAsWritten(Some(s), size).buffer.capacity
    ensures GenTimeAsWritten(Some(s), size).size == GenTimeAsWritten(Some(s), size).buffer.capacity
  {
    GenTimeReadBack(s, size);
    GenTimeBlock(s, size);
    ByteCntOfText(s);
  }

  /** The size of a text of the documented form is four less than where
      its seconds or fraction end. */
  lemma ByteCntOfText(s: string)
    requires At(s, 19) == '.' ==> FractionLength(s) < 128
    requires Strlen(s) == TextEnd(s) + 4
    ensures GenTimeByteCnt(Some(s)) == Strlen(s) - 8 == TextEnd(s) - 4
    ensures GenTimeByteCnt(Some(s)) == GenTimeIntendedByteCnt(s)
  {
    assert TextEnd(s) >= 19;
    SmallMod(Strlen(s) - 8, 256);
  }

  /** A fraction followed by a single space and nothing else gets a block
      three octets shorter than what is stored in it. */
  lemma GenTimeOverrun(s: string, size: nat)
    requires GenTimeAsWritten(Some(s), size).status == Success
    requires At(s, 19) == '.' && FractionLength(s) < 128
    requires Strlen(s) == SpaceFrom(s, 19) + 1
    ensures GenTimeAsWritten(Some(s), size).buffer.Allocated?
    ensures |GenTimeAsWritten(Some(s), size).buffer.stored| == GenTimeAsWritten(Some(s), size).buffer.capacity + 3
  {
    GenTimeReadBack(s, size);
    GenTimeBlock(s, size);
    SmallMod(Strlen(s) - 8, 256);
  }

  /** A run with a full date, a fraction count that passes its checks and
      a full fraction succeeds. */
  lemma RunSucceeds(s: string, tooShort: bool, cnt: nat, ms: int)
    requires !tooShort && DateDigits(s, 0) == 14 && At(s, 19) == '.'
    requires ms > 0 && AtInt(s, 19 + ms) != '0' && |DigitRun(s, 20, ms)| == ms
    ensures GenTimeRun(s, tooShort, cnt, ms).status == Success
  {
  }

  lemma OverrunTextDate(s: string)
    requires s == "2023-01-01 00:00:00.55 "
    ensures DateDigits(s, 0) == 14
  {
    assert forall i :: 0 <= i < 14 ==> DigitAt(s, i);
    DateDigitsIs(s, 0, 14);
  }

  lemma OverrunTextFraction(s: string)
    requires s == "2023-01-01 00:00:00.55 "
    ensures At(s, 19) == '.' && SpaceFrom(s, 19) == 22
    ensures AtInt(s, 21) != '0' && |DigitRun(s, 20, 2)| == 2 && FractionLength(s) == 2
  {
    assert SpaceFrom(s, 22) == 22;
    assert SpaceFrom(s, 21) == 22;
    assert SpaceFrom(s, 20) == 22;
    DigitRunFull(s, 20, 2);
  }

  /** "2023-01-01 00:00:00.55 " gets a block of 15 octets and 18 are stored
      into it. */
  lemma GenTimeOverrunExample(s: string)
    requires s == "2023-01-01 00:00:00.55 "
    ensures GenTimeAsWritten(Some(s), 0).status == Success
    ensures GenTimeAsWritten(Some(s), 0).buffer.Allocated?
    ensures GenTimeAsWritten(Some(s), 0).buffer.capacity == 15
    ensures |GenTimeAsWritten(Some(s), 0).buffer.stored| == 18
  {
    OverrunTextSucceeds(s);
    GenTimeOverrun(s, 0);
    GenTimeBlock(s, 0);
  }

  lemma OverrunTextSucceeds(s: string)
    requires s == "2023-01-01 00:00:00.55 "
    ensures GenTimeAsWritten(Some(s), 0).status == Success
    ensures GenTimeByteCnt(Some(s)) == 15
    ensures At(s, 19) == '.' && FractionLength(s) == 2 && Strlen(s) == SpaceFrom(s, 19) + 1
  {
    OverrunTextLength(s);
    OverrunTextDate(s);
    OverrunTextFraction(s);
    Int8Small(2);
    RunSucceeds(s, false, 15, 2);
  }

  lemma OverrunTextLength(s: string)
    requires s == "2023-01-01 00:00:00.55 "
    ensures Strlen(s) == 23 && GenTimeByteCnt(Some(s)) == 15
  {
    assert |s| == 23;
    StrlenNoNul(s);
    SmallMod(15, 256);
  }

  /** The date run stops at the first position without a digit. */
  lemma {:induction false} DateDigitsBound(s: string, j: nat, k: nat)
    requires j <= k < 14 && !DigitAt(s, k)
    ensures DateDigits(s, j) <= k
    decreases k - j
  {
    if j < k && DigitAt(s, j) { DateDigitsBound(s, j + 1, k); }
  }

  /** The first date position without a digit names the field of the
      error; the digits before it are what is stored, and the pointer is
      left after them. */
  lemma GenTimeFieldError(s: string, size: nat, j: nat)
    requires GenTimeByteCnt(Some(s)) >= 15
    requires j < 14 && (forall i :: 0 <= i < j ==> DigitAt(s, i)) && !DigitAt(s, j)
    ensures GenTimeAsWritten(Some(s), size)
      == PutResult(Failure(WrongAsn1Encode(FieldAt(j))), Allocated(GenTimeByteCnt(Some(s)), InputTime(s).date[..j]),
                   j, GenTimeByteCnt(Some(s)))
  {
    DateDigitsIs(s, 0, j);
    assert DateRun(s) == InputTime(s).date[..j];
  }

  /** A text of 8 to 22 characters is refused as too short, before anything
      is allocated. */
  lemma GenTimeShortRefused(s: string, size: nat)
    requires 8 <= Strlen(s) < 23
    ensures GenTimeAsWritten(Some(s), size) == PutResult(Failure(InvalidValue), Untouched, 0, Strlen(s) - 8)
  {
    var cnt := GenTimeByteCnt(Some(s));
    SmallMod(Strlen(s) - 8, 256);
    assert cnt == Strlen(s) - 8;
    assert GenTimeAsWritten(Some(s), size) == GenTimeRun(s, true, cnt, Int8(FractionLength(s)));
  }

  /** A text of fewer than 8 characters passes the size check, its count
      having wrapped to 248..255, and fails on a digit check instead. */
  lemma GenTimeVeryShort(s: string, size: nat)
    requires Strlen(s) == |s| && |s| < 8
    ensures GenTimeAsWritten(Some(s), size).status.Failure?
    ensures GenTimeAsWritten(Some(s), size).status.error.WrongAsn1Encode?
    ensures GenTimeByteCnt(Some(s)) >= 248
  {
    assert ReadPosition(6) == 8 && At(s, 8) == '\0';
    DateDigitsBound(s, 0, 6);
  }

  /** How far the date loop reads in a text shorter than 8 characters. The
      terminator of a text of 0-3, 5 or 6 characters is a position the loop
      reads, so the loop stops on it or earlier. A text of 4 or 7 characters
      whose read positions all hold digits, such as "2023" or "2023-01",
      sends the loop one position past its terminator, to index 5 or 8: the
      refusal of `GenTimeVeryShort` then rests on what lies past the text. */
  lemma GenTimeShortReads(s: string)
    requires Strlen(s) == |s| && |s| < 8
    ensures |s| != 4 && |s| != 7 ==> ReadPosition(DateDigits(s, 0)) <= |s|
    ensures (|s| == 4 || |s| == 7) && (forall j :: 0 <= j < 14 && ReadPosition(j) < |s| ==> DigitAt(s, j)) ==>
      ReadPosition(DateDigits(s, 0)) == |s| + 1
  {
    if |s| != 4 && |s| != 7 {
      var k := if |s| <= 3 then |s| else |s| - 1;
      assert ReadPosition(k) == |s|;
      DateDigitsBound(s, 0, k);
    } else if forall j :: 0 <= j < 14 && ReadPosition(j) < |s| ==> DigitAt(s, j) {
      var n := if |s| == 4 then 4 else 6;
      assert ReadPosition(n) == |s| + 1;
      forall i | 0 <= i < n ensures DigitAt(s, i) {
        assert ReadPosition(i) < |s|;
      }
      DateDigitsIs(s, 0, n);
    }
  }

  /** The checks on the fraction of a text whose date is well formed and
      whose fraction is shorter than 128 characters: an empty fraction, a
      last character '0', and a character that is not a digit are each
      refused with their own error, and nothing else is refused. */
  lemma GenTimeFractionChecks(s: string, size: nat)
    requires GenTimeByteCnt(Some(s)) >= 15 && DateDigits(s, 0) == 14
    requires At(s, 19) == '.' && FractionLength(s) < 128
    ensures FractionLength(s) == 0 ==>
      GenTimeAsWritten(Some(s), size).status == Failure(WrongAsn1Encode(FractionAbsent))
    ensures FractionLength(s) > 0 && At(s, 19 + FractionLength(s)) == '0' ==>
      GenTimeAsWritten(Some(s), size).status == Failure(WrongAsn1Encode(FractionTrailingZero))
    ensures FractionLength(s) > 0 && At(s, 19 + FractionLength(s)) != '0' ==>
      (GenTimeAsWritten(Some(s), size).status == Success
       <==> forall k :: 20 <= k < 20 + FractionLength(s) ==> IsDigit(At(s, k)))
    ensures FractionLength(s) > 0 && At(s, 19 + FractionLength(s)) != '0' ==>
      GenTimeAsWritten(Some(s), size).status in {Success, Failure(WrongAsn1Encode(FractionDigit))}
  {
    var n := FractionLength(s);
    var cnt := GenTimeByteCnt(Some(s));
    Int8Small(n);
    AsWrittenFraction(s, size);
    if n > 0 && At(s, 19 + n) != '0' {
      FractionDigitsChecked(s, cnt, n, DateRun(s));
    }
  }

  /** Past the count checks, the fraction is stored whole exactly when
      every one of its characters is a digit. */
  lemma FractionDigitsChecked(s: string, cnt: nat, n: nat, date: seq<byte>)
    requires n > 0 && At(s, 19 + n) != '0'
    ensures FractionRun(s, cnt, n, date).status == Success
      <==> forall k :: 20 <= k < 20 + n ==> IsDigit(At(s, k))
    ensures FractionRun(s, cnt, n, date).status in {Success, Failure(WrongAsn1Encode(FractionDigit))}
  {
    assert AtInt(s, 19 + n) == At(s, 19 + n);
    DigitRunLength(s, 20, n);
    if forall k :: 20 <= k < 20 + n ==> IsDigit(At(s, k)) {
      DigitRunFull(s, 20, n);
    } else {
      var k :| 20 <= k < 20 + n && !IsDigit(At(s, k));
      DigitRunStops(s, 20, n, k);
    }
  }

  /** The indices of the five separators the writer skips. */
  predicate IsSeparatorIndex(i: nat) {
    i == 4 || i == 7 || i == 10 || i == 13 || i == 16
  }

  lemma {:induction false} StrlenSame(s: string, t: string)
    requires |s| == |t| && forall i :: 0 <= i < |s| ==> (s[i] == '\0') == (t[i] == '\0')
    ensures Strlen(s) == Strlen(t)
  {
    if s != [] && s[0] != '\0' {
      StrlenSame(s[1..], t[1..]);
    }
  }

  lemma {:induction false} DateDigitsSame(s: string, t: string, j: nat)
    requires j <= 14
    requires forall i :: 0 <= i < 14 ==> At(s, ReadPosition(i)) == At(t, ReadPosition(i))
    ensures DateDigits(s, j) == DateDigits(t, j)
    decreases 14 - j
  {
    if j < 14 { DateDigitsSame(s, t, j + 1); }
  }

  lemma {:induction false} SpaceFromSame(s: string, t: string, k: nat)
    requires |s| == |t| && forall i :: k <= i < |s| ==> s[i] == t[i]
    ensures SpaceFrom(s, k) == SpaceFrom(t, k)
    decreases |s| - k
  {
    if k < |s| { SpaceFromSame(s, t, k + 1); }
  }

  lemma {:induction false} DigitRunSame(s: string, t: string, pos: nat, n: nat)
    requires |s| == |t| && forall i :: pos <= i < |s| ==> s[i] == t[i]
    ensures DigitRun(s, pos, n) == DigitRun(t, pos, n)
    decreases n
  {
    if n > 0 { DigitRunSame(s, t, pos + 1, n - 1); }
  }

  /** The separators are skipped unread: two texts that differ only there
      (and have no NUL there) are written alike, when the fraction, if any,
      is shorter than 128 characters. */
  lemma SeparatorsIgnored(s: string, t: string, size: nat)
    requires |s| == |t|
    requires forall i :: 0 <= i < |s| && !IsSeparatorIndex(i) ==> s[i] == t[i]
    requires forall i :: 0 <= i < |s| && IsSeparatorIndex(i) ==> s[i] != '\0' && t[i] != '\0'
    requires At(s, 19) == '.' ==> FractionLength(s) < 128
    ensures GenTimeAsWritten(Some(s), size) == GenTimeAsWritten(Some(t), size)
  {
    StrlenSame(s, t);
    var cnt := GenTimeByteCnt(Some(s));
    assert cnt == GenTimeByteCnt(Some(t));
    DateRunSame(s, t);
    assert At(s, 19) == At(t, 19) by { assert !IsSeparatorIndex(19); }
    SpaceFromSame(s, t, 19);
    assert FractionLength(s) == FractionLength(t);
    var ms := Int8(FractionLength(s));
    if At(s, 19) == '.' {
      Int8Small(FractionLength(s));
      DigitRunSame(s, t, 20, ms);
      assert AtInt(s, 19 + ms) == AtInt(t, 19 + ms) by { assert !IsSeparatorIndex(19 + ms); }
    }
    RunSame(s, t, cnt < 15, cnt, ms);
    assert GenTimeAsWritten(Some(s), size) == GenTimeRun(s, cnt < 15, cnt, ms);
    assert GenTimeAsWritten(Some(t), size) == GenTimeRun(t, cnt < 15, cnt, ms);
  }

  /** Texts that agree off the separators have the same date run. */
  lemma DateRunSame(s: string, t: string)
    requires |s| == |t|
    requires forall i :: 0 <= i < |s| && !IsSeparatorIndex(i) ==> s[i] == t[i]
    ensures DateRun(s) == DateRun(t)
  {
    forall i | 0 <= i < 14 ensures At(s, ReadPosition(i)) == At(t, ReadPosition(i)) {
      assert !IsSeparatorIndex(ReadPosition(i));
    }
    DateDigitsSame(s, t, 0);
  }

  /** Two texts that agree on what the writer reads are written alike. */
  lemma RunSame(s: string, t: string, tooShort: bool, cnt: nat, ms: int)
    requires DateRun(s) == DateRun(t) && At(s, 19) == At(t, 19)
    requires At(s, 19) == '.' ==>
      ms >= 0 && AtInt(s, 19 + ms) == AtInt(t, 19 + ms) && DigitRun(s, 20, ms) == DigitRun(t, 20, ms)
    ensures GenTimeRun(s, tooShort, cnt, ms) == GenTimeRun(t, tooShort, cnt, ms)
  {
    if !tooShort && |DateRun(s)| == 14 && At(s, 19) == '.' {
      assert GenTimeRun(s, tooShort, cnt, ms) == FractionRun(s, cnt, ms, DateRun(s));
      assert GenTimeRun(t, tooShort, cnt, ms) == FractionRun(t, cnt, ms, DateRun(s));
      FractionRunSame(s, t, cnt, ms, DateRun(s));
    }
  }

  lemma FractionRunSame(s: string, t: string, cnt: nat, ms: int, date: seq<byte>)
    requires ms >= 0 && AtInt(s, 19 + ms) == AtInt(t, 19 + ms) && DigitRun(s, 20, ms) == DigitRun(t, 20, ms)
    ensures FractionRun(s, cnt, ms, date) == FractionRun(t, cnt, ms, date)
  {
  }

  /** The block size the writer evidently intends: the octets it stores,
      fourteen digits and 'Z', plus the '.' and the fraction if there is
      one. */
  function GenTimeIntendedByteCnt(s: string): (n: nat)
    ensures n >= 15
  {
    if At(s, 19) == '.' then 16 + FractionLength(s) else 15
  }

  /** The writer with the intended size and the fraction count taken
      without the `int8_t` cast; a text shorter than
      "YYYY-MM-DD HH:MM:SS UTC" is refused as before. */
  function GenTimeIntended(time: Option<string>, size: nat): PutResult {
    match time
    case None => PutResult(Failure(NullPointer), Untouched, 0, size)
    case Some(s) => GenTimeRun(s, Strlen(s) < 23, GenTimeIntendedByteCnt(s), FractionLength(s))
  }

  /** The intended writer always fills exactly the block it allocates, with
      the DER form of the value the text spells. */
  lemma GenTimeIntendedFits(s: string, size: nat)
    requires GenTimeIntended(Some(s), size).status == Success
    ensures GenTimeIntended(Some(s), size).buffer.Allocated?
    ensures ReadDerTime(GenTimeIntended(Some(s), size).buffer.stored) == Some(InputTime(s))
    ensures |GenTimeIntended(Some(s), size).buffer.stored| == GenTimeIntended(Some(s), size).buffer.capacity
    ensures GenTimeIntended(Some(s), size).size == GenTimeIntended(Some(s), size).buffer.capacity
  {
    var cnt := GenTimeIntendedByteCnt(s);
    RunSuccessShape(s, Strlen(s) < 23, cnt, FractionLength(s));
    RunReadBack(s, Strlen(s) < 23, cnt, FractionLength(s));
  }

  /** On texts of the documented form, with a fraction shorter than 128
      characters, the source's writer and the intended one agree. */
  lemma GenTimeIntendedAgrees(s: string, size: nat)
    requires Strlen(s) == TextEnd(s) + 4
    requires At(s, 19) == '.' ==> FractionLength(s) < 128
    ensures GenTimeIntended(Some(s), size) == GenTimeAsWritten(Some(s), size)
  {
    var cnt := GenTimeByteCnt(Some(s));
    ByteCntOfText(s);
    assert cnt == GenTimeIntendedByteCnt(s);
    assert GenTimeAsWritten(Some(s), size) == GenTimeRun(s, cnt < 15, cnt, Int8(FractionLength(s)));
    assert GenTimeIntended(Some(s), size) == GenTimeRun(s, cnt < 15, cnt, FractionLength(s));
    if At(s, 19) == '.' {
      Int8Small(FractionLength(s));
    } else {
      RunWithoutFraction(s, cnt < 15, cnt, Int8(FractionLength(s)), FractionLength(s));
    }
  }

  /** The fraction count does not matter to a text without a fraction. */
  lemma RunWithoutFraction(s: string, tooShort: bool, cnt: nat, ms: int, ms': int)
    requires At(s, 19) != '.'
    ensures GenTimeRun(s, tooShort, cnt, ms) == GenTimeRun(s, tooShort, cnt, ms')
  {
  }

  /** A fraction whose length is 128..255 modulo 256 gets a negative count
      from the `int8_t` cast. The trailing-zero check then reads the
      character 19 + count: one of the date for 237..255, one before the
      text (here '\0') for 128..236. No fraction digit is stored, and what
      is stored, digits followed by ".Z", is not a DER GeneralizedTime. */
  lemma FractionWrapNotDer(s: string, size: nat)
    requires GenTimeByteCnt(Some(s)) >= 15 && DateDigits(s, 0) == 14 && At(s, 19) == '.'
    requires FractionLength(s) % 256 >= 128
    requires AtInt(s, 19 + Int8(FractionLength(s))) != '0'
    ensures GenTimeAsWritten(Some(s), size).status == Success
    ensures GenTimeAsWritten(Some(s), size).buffer.Allocated?
    ensures |GenTimeAsWritten(Some(s), size).buffer.stored| == 16
    ensures ReadDerTime(GenTimeAsWritten(Some(s), size).buffer.stored) == None
  {
    var cnt := GenTimeByteCnt(Some(s));
    var ms := Int8(FractionLength(s));
    Int8Wraps(FractionLength(s));
    AsWrittenFraction(s, size);
    var o := DateRun(s) + [CharByte('.')] + [CharByte('Z')];
    assert DateRun(s) + [CharByte('.')] + [] == DateRun(s) + [CharByte('.')];
    assert FractionRun(s, cnt, ms, DateRun(s)) == PutResult(Success, Allocated(cnt, o), 15, cnt);
    assert |o| == 16;
  }

  /** A fraction of L digits, L one of 1..127 modulo 256, is written with
      only its first L % 256 digits when those are digits and the last of
      them is not '0': the write succeeds, and the stored octets read back
      as the value with its fraction cut to L % 256 digits, which for
      L >= 256 is not the value the text spells. */
  lemma FractionTruncated(s: string, size: nat)
    requires GenTimeByteCnt(Some(s)) >= 15 && DateDigits(s, 0) == 14 && At(s, 19) == '.'
    requires 1 <= FractionLength(s) % 256 < 128
    requires forall k :: 20 <= k < 20 + FractionLength(s) % 256 ==> IsDigit(At(s, k))
    requires At(s, 19 + FractionLength(s) % 256) != '0'
    ensures GenTimeAsWritten(Some(s), size).status == Success
    ensures GenTimeAsWritten(Some(s), size).buffer.Allocated?
    ensures |GenTimeAsWritten(Some(s), size).buffer.stored| == 16 + FractionLength(s) % 256
    ensures ReadDerTime(GenTimeAsWritten(Some(s), size).buffer.stored).Some?
    ensures ReadDerTime(GenTimeAsWritten(Some(s), size).buffer.stored).value.date == InputTime(s).date
    ensures |ReadDerTime(GenTimeAsWritten(Some(s), size).buffer.stored).value.fraction| == FractionLength(s) % 256
    ensures ReadDerTime(GenTimeAsWritten(Some(s), size).buffer.stored).value.fraction <= InputTime(s).fraction
    ensures FractionLength(s) >= 256 ==>
      ReadDerTime(GenTimeAsWritten(Some(s), size).buffer.stored) != Some(InputTime(s))
  {
    var L := FractionLength(s);
    var m := L % 256;
    assert Int8(L) == m;
    assert m <= L by {
      assert L == 256 * (L / 256) + m && L / 256 >= 0;
    }
    AsWrittenFraction(s, size);
    PrefixRun(s, GenTimeByteCnt(Some(s)), m);
    assert |InputTime(s).fraction| == L;
  }

  /** The fraction branch with a count m of at most the fraction length,
      whose first m characters are digits ending in one that is not '0',
      stores the date and those m digits, which read back as the date and
      the first m digits of the fraction. */
  lemma PrefixRun(s: string, cnt: nat, m: nat)
    requires DateDigits(s, 0) == 14 && At(s, 19) == '.' && 1 <= m <= FractionLength(s)
    requires forall k :: 20 <= k < 20 + m ==> IsDigit(At(s, k))
    requires At(s, 19 + m) != '0'
    ensures FractionRun(s, cnt, m, DateRun(s)).status == Success
    ensures FractionRun(s, cnt, m, DateRun(s)).buffer.Allocated?
    ensures |FractionRun(s, cnt, m, DateRun(s)).buffer.stored| == 16 + m
    ensures ReadDerTime(FractionRun(s, cnt, m, DateRun(s)).buffer.stored)
      == Some(TimeValue(InputTime(s).date, InputTime(s).fraction[..m]))
  {
    DigitRunFull(s, 20, m);
    var frac := DigitRun(s, 20, m);
    assert AtInt(s, 19 + m) == At(s, 19 + m);
    assert FractionRun(s, cnt, m, DateRun(s)).buffer.stored
      == DateRun(s) + [CharByte('.')] + frac + [CharByte('Z')];
    DateIsInput(s);
    FractionIsInput(s, m);
    DigitNotZero(At(s, 19 + m));
    ReadDerFraction(DateRun(s), frac);
  }

  /** A fraction of a multiple of 256 digits gets the count 0 from the
      `int8_t` cast and is refused as an absent fraction. */
  lemma FractionCountZero(s: string, size: nat)
    requires GenTimeByteCnt(Some(s)) >= 15 && DateDigits(s, 0) == 14 && At(s, 19) == '.'
    requires FractionLength(s) % 256 == 0
    ensures GenTimeAsWritten(Some(s), size).status == Failure(WrongAsn1Encode(FractionAbsent))
    ensures GenTimeAsWritten(Some(s), size).buffer == Allocated(GenTimeByteCnt(Some(s)), DateRun(s))
  {
    AsWrittenFraction(s, size);
  }

  /** Past the size and date checks, a text with a '.' after its seconds
      is written by the fraction branch. */
  lemma AsWrittenFraction(s: string, size: nat)
    requires GenTimeByteCnt(Some(s)) >= 15 && DateDigits(s, 0) == 14 && At(s, 19) == '.'
    ensures GenTimeAsWritten(Some(s), size)
      == FractionRun(s, GenTimeByteCnt(Some(s)), Int8(FractionLength(s)), DateRun(s))
  {
  }
}
