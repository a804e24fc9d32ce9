/** Timestamps: a reading of some clock plus a signed offset to Unix time, in
    64-bit arithmetic that must not wrap. */
module Clock {
  import opened Wire

  const MAX_INT64 := 0x7fff_ffff_ffff_ffff
  const MIN_INT64 := -0x8000_0000_0000_0000

  type i64 = v: int | MIN_INT64 <= v <= MAX_INT64

  datatype Domain = ClockUnknown | ClockRealtime | ClockMonotonic | ClockBoot | ClockTAI

  datatype Timestamp = Timestamp(nanoseconds: u64, domain: Domain, epochOffset: i64, epochOffsetKnown: bool)

  predicate InInt64(v: int) { MIN_INT64 <= v <= MAX_INT64 }

  /** Unsigned subtraction wraps in the source; every branch here stays in range. */
  function UnixNano(t: Timestamp): Option<i64> {
    if !t.epochOffsetKnown then None
    else if t.epochOffset >= 0 then
      var offset: u64 := t.epochOffset;
      if t.nanoseconds > MAX_INT64 - offset then None else Some(t.nanoseconds + offset)
    else
      var magnitude: u64 := -(t.epochOffset + 1) + 1;
      if t.nanoseconds >= magnitude then
        var value: u64 := t.nanoseconds - magnitude;
        if value > MAX_INT64 then None else Some(value)
      else
        var negative: u64 := magnitude - t.nanoseconds;
        if negative > MAX_INT64 + 1 then None
        else if negative == MAX_INT64 + 1 then Some(MIN_INT64)
        else Some(0 - negative)
  }

  function CompareUint64(a: u64, b: u64): int { if a < b then -1 else if a > b then 1 else 0 }

  /** None stands for the error that the clocks are incomparable. */
  function Compare(t: Timestamp, u: Timestamp): Option<int> {
    if t.domain == u.domain && (!t.epochOffsetKnown || !u.epochOffsetKnown || t.epochOffset == u.epochOffset)
    then Some(CompareUint64(t.nanoseconds, u.nanoseconds))
    else
      match (UnixNano(t), UnixNano(u))
      case (Some(a), Some(b)) => Some(if a < b then -1 else if a > b then 1 else 0)
      case (_, _) => None
  }

  function SignedDifference(a: u64, b: u64): Option<i64> {
    if a >= b then
      var d: u64 := a - b;
      if d > MAX_INT64 then None else Some(d)
    else
      var d: u64 := b - a;
      if d > MAX_INT64 + 1 then None
      else if d == MAX_INT64 + 1 then Some(MIN_INT64)
      else Some(0 - d)
  }

  /** The conversion is exact, and unavailable exactly when the offset is unknown
      or the sum leaves int64. */
  lemma UnixNanoExact(t: Timestamp)
    ensures UnixNano(t) ==
            if t.epochOffsetKnown && InInt64(t.nanoseconds + t.epochOffset) then Some(t.nanoseconds + t.epochOffset) else None
  {
  }

  lemma SignedDifferenceExact(a: u64, b: u64)
    ensures SignedDifference(a, b) == if InInt64(a - b) then Some(a - b) else None
  {
  }

  /** Times whose conversion succeeds are ordered by it, whatever their clocks. */
  lemma CompareAgrees(t: Timestamp, u: Timestamp)
    requires UnixNano(t).Some? && UnixNano(u).Some?
    ensures Compare(t, u) == Some(if UnixNano(t).value < UnixNano(u).value then -1
                                  else if UnixNano(t).value > UnixNano(u).value then 1 else 0)
  {
    UnixNanoExact(t);
    UnixNanoExact(u);
  }

  /** Readings of one clock need no conversion, unless both say it and disagree on
      its offset; readings that do not convert are otherwise incomparable. */
  lemma CompareSame(t: Timestamp, u: Timestamp)
    ensures t.domain == u.domain && (t.epochOffsetKnown && u.epochOffsetKnown ==> t.epochOffset == u.epochOffset) ==>
              Compare(t, u) == Some(if t.nanoseconds < u.nanoseconds then -1 else if t.nanoseconds > u.nanoseconds then 1 else 0)
    ensures t.domain != u.domain && (UnixNano(t).None? || UnixNano(u).None?) ==> Compare(t, u).None?
    ensures t.epochOffsetKnown && u.epochOffsetKnown && t.epochOffset != u.epochOffset && (UnixNano(t).None? || UnixNano(u).None?) ==>
              Compare(t, u).None?
  {
  }
}
