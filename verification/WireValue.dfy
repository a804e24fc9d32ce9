/** Reading one value off the payload: fixed width, terminated and counted. */
module WireValue {
  import opened Wire
  import opened Format
  import opened Names

  /** The value bytes, where they start, and the position after the value. */
  datatype Reading = Reading(raw: Bytes, offset: nat, next: nat)

  predicate ZeroUnit(payload: Bytes, pos: nat, width: nat) {
    pos + width <= |payload| && forall i :: pos <= i < pos + width ==> payload[i] == 0
  }

  /** The first zero unit at `pos`, `pos + width`, ... that lies in the payload. */
  function FindTerminator(payload: Bytes, pos: nat, width: nat): (r: Option<nat>)
    requires width > 0
    ensures r.Some? ==> pos <= r.value && ZeroUnit(payload, r.value, width)
    decreases |payload| - pos
  {
    if pos + width > |payload| then None
    else if ZeroUnit(payload, pos, width) then Some(pos)
    else FindTerminator(payload, pos + width, width)
  }

  /** `at` is `k` units after `pos`. */
  ghost predicate Units(pos: nat, at: nat, width: nat, k: nat)
    decreases k
  {
    if k == 0 then at == pos else Units(pos + width, at, width, k - 1)
  }

  /** Every unit before the one found is nonzero; none is found only if all are. */
  lemma {:induction false} TerminatorIsFirst(payload: Bytes, pos: nat, width: nat, k: nat, at: nat)
    requires width > 0 && Units(pos, at, width, k) && pos <= at
    requires FindTerminator(payload, pos, width).Some? ==> at < FindTerminator(payload, pos, width).value
    ensures !ZeroUnit(payload, at, width)
    decreases k
  {
    if k > 0 {
      UnitsGrow(pos + width, at, width, k - 1);
      if pos + width <= |payload| {
        TerminatorIsFirst(payload, pos + width, width, k - 1, at);
      }
    }
  }

  lemma {:induction false} UnitsGrow(pos: nat, at: nat, width: nat, k: nat)
    requires Units(pos, at, width, k)
    ensures pos <= at
    decreases k
  {
    if k > 0 {
      UnitsGrow(pos + width, at, width, k - 1);
    }
  }

  function ReadWireValue(order: ByteOrder, encoding: byte, payload: Bytes, pos: nat): (r: Result<Reading, DecodeError>)
    requires pos <= |payload|
    ensures r.Ok? ==> pos <= r.value.offset && r.value.offset + |r.value.raw| <= r.value.next <= |payload|
    ensures r.Ok? ==> r.value.raw == payload[r.value.offset..r.value.offset + |r.value.raw|]
  {
    var width := FixedWidth(encoding);
    if width != 0 then
      if |payload| - pos < width then Err(DecodeError(pos, Truncated))
      else Ok(Reading(payload[pos..pos + width], pos, pos + width))
    else if Terminated(encoding) then
      match FindTerminator(payload, pos, UnitWidth(encoding))
      case Some(i) => Ok(Reading(payload[pos..i], pos, i + UnitWidth(encoding)))
      case None => Ok(Reading(payload[pos..], pos, |payload|))
    else if Counted(encoding) then
      if |payload| - pos < 2 then Err(DecodeError(pos, Truncated))
      else
        var count, unit := Get16(order, payload, pos), UnitWidth(encoding);
        if count > (|payload| - (pos + 2)) / unit then Err(DecodeError(pos + 2, Truncated))
        else Ok(Reading(payload[pos + 2..pos + 2 + count * unit], pos + 2, pos + 2 + count * unit))
    else Err(DecodeError(pos, Unsupported))
  }

  method UnitIsZero(payload: Bytes, pos: nat, width: nat) returns (zero: bool)
    requires pos + width <= |payload|
    ensures zero <==> ZeroUnit(payload, pos, width)
  {
    zero := true;
    var i := pos;
    while i < pos + width
      invariant pos <= i <= pos + width
      invariant zero <==> forall k :: pos <= k < i ==> payload[k] == 0
    {
      zero := zero && payload[i] == 0;
      i := i + 1;
    }
  }

  /** `readWireValue`, with its search loop. */
  method ReadValue(order: ByteOrder, encoding: byte, payload: Bytes, pos: nat) returns (r: Result<Reading, DecodeError>)
    requires pos <= |payload|
    ensures r == ReadWireValue(order, encoding, payload, pos)
  {
    hide Get16, UnitWidth, ZeroUnit;
    var width := FixedWidth(encoding);
    if width != 0 {
      if |payload| - pos < width {
        return Err(DecodeError(pos, Truncated));
      }
      return Ok(Reading(payload[pos..pos + width], pos, pos + width));
    }
    if Terminated(encoding) {
      var unit := UnitWidth(encoding);
      var i := pos;
      while i + unit <= |payload|
        invariant pos <= i <= |payload|
        invariant FindTerminator(payload, i, unit) == FindTerminator(payload, pos, unit)
      {
        var zero := UnitIsZero(payload, i, unit);
        if zero {
          return Ok(Reading(payload[pos..i], pos, i + unit));
        }
        i := i + unit;
      }
      return Ok(Reading(payload[pos..], pos, |payload|));
    }
    if Counted(encoding) {
      if |payload| - pos < 2 {
        return Err(DecodeError(pos, Truncated));
      }
      var count := Get16(order, payload, pos);
      var unit := UnitWidth(encoding);
      var at := pos + 2;
      if count > (|payload| - at) / unit {
        return Err(DecodeError(at, Truncated));
      }
      return Ok(Reading(payload[at..at + count * unit], at, at + count * unit));
    }
    return Err(DecodeError(pos, Unsupported));
  }

  /** A value that was written is read back whole. */
  lemma ReadBack(order: ByteOrder, encoding: byte, payload: Bytes, pos: nat, raw: Bytes)
    requires Writable(encoding) && ValidElem(encoding, raw)
    requires At(payload, pos, WireElem(order, encoding, raw))
    ensures pos <= |payload|
    ensures ReadWireValue(order, encoding, payload, pos)
         == Ok(Reading(raw, pos + if Counted(encoding) then 2 else 0, pos + |WireElem(order, encoding, raw)|))
  {
    if Counted(encoding) {
      var unit := UnitWidth(encoding);
      var count := |raw| / unit;
      assert count * unit == |raw|;
      AtConcat(payload, pos, Put16(order, count), raw);
      Get16At(order, payload, pos, count);
      assert count * unit <= |payload| - (pos + 2);
    }
  }
}
