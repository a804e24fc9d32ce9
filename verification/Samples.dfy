/** PERF_RECORD_SAMPLE bodies: the layout that a sample type selects, its parser,
    and the constant offset at which a sample names its descriptor. */
module Samples {
  import opened Wire

  const SAMPLE_IP: u64 := 0x1
  const SAMPLE_TID: u64 := 0x2
  const SAMPLE_TIME: u64 := 0x4
  const SAMPLE_ADDR: u64 := 0x8
  const SAMPLE_READ: u64 := 0x10
  const SAMPLE_CALLCHAIN: u64 := 0x20
  const SAMPLE_ID: u64 := 0x40
  const SAMPLE_CPU: u64 := 0x80
  const SAMPLE_PERIOD: u64 := 0x100
  const SAMPLE_STREAM_ID: u64 := 0x200
  const SAMPLE_RAW: u64 := 0x400
  const SAMPLE_IDENTIFIER: u64 := 0x1_0000

  /** The eight-byte fields of a sample, in wire order. */
  const FIXED: seq<u64> :=
    [SAMPLE_IDENTIFIER, SAMPLE_IP, SAMPLE_TID, SAMPLE_TIME, SAMPLE_ADDR, SAMPLE_ID, SAMPLE_STREAM_ID, SAMPLE_CPU, SAMPLE_PERIOD]

  datatype SampleError = Truncated | Limit | Unsupported

  /** `mask & bit != 0` for a power of two. */
  predicate Has(mask: u64, bit: u64) {
    bit != 0 && mask / bit % 2 == 1
  }

  // ------------------------------------------------------------ eight-byte words

  function WordCount(mask: u64, bits: seq<u64>): nat {
    if bits == [] then 0 else (if Has(mask, bits[0]) then 1 else 0) + WordCount(mask, bits[1..])
  }

  function Selected(mask: u64, bits: seq<u64>): set<u64> {
    set b | b in bits && Has(mask, b)
  }

  /** One word for each selected bit, in the order of `bits`. */
  predicate WordsFit(mask: u64, bits: seq<u64>, words: map<u64, Bytes>) {
    words.Keys == Selected(mask, bits) && forall b :: b in words ==> |words[b]| == 8
  }

  function WordBytes(mask: u64, bits: seq<u64>, words: map<u64, Bytes>): Bytes
    requires forall b :: b in Selected(mask, bits) ==> b in words
  {
    if bits == [] then []
    else
      assert forall b :: b in Selected(mask, bits[1..]) ==> b in Selected(mask, bits);
      (if Has(mask, bits[0]) then assert bits[0] in Selected(mask, bits); words[bits[0]] else [])
      + WordBytes(mask, bits[1..], words)
  }

  function ParseWords(data: Bytes, pos: nat, mask: u64, bits: seq<u64>): (r: Result<map<u64, Bytes>, SampleError>)
    requires pos <= |data|
    ensures r.Ok? ==> pos + 8 * WordCount(mask, bits) <= |data|
    decreases bits
  {
    if bits == [] then Ok(map[])
    else if !Has(mask, bits[0]) then ParseWords(data, pos, mask, bits[1..])
    else if |data| - pos < 8 then Err(Truncated)
    else
      match ParseWords(data, pos + 8, mask, bits[1..])
      case Err(e) => Err(e)
      case Ok(words) => Ok(words[bits[0] := data[pos..pos + 8]])
  }

  predicate Distinct(bits: seq<u64>) {
    forall i, j :: 0 <= i < j < |bits| ==> bits[i] != bits[j]
  }

  lemma SelectedSplit(mask: u64, bits: seq<u64>)
    requires bits != []
    ensures Selected(mask, bits) == Selected(mask, bits[1..]) + if Has(mask, bits[0]) then {bits[0]} else {}
  {
    assert bits == [bits[0]] + bits[1..];
  }

  /** Parsing finds exactly the words that stand in the data. */
  lemma WordsIff(data: Bytes, pos: nat, mask: u64, bits: seq<u64>, words: map<u64, Bytes>)
    requires pos <= |data| && Distinct(bits) && WordsFit(mask, bits, words)
    ensures |WordBytes(mask, bits, words)| == 8 * WordCount(mask, bits)
    ensures ParseWords(data, pos, mask, bits) == Ok(words) <==> At(data, pos, WordBytes(mask, bits, words))
  {
    hide Has, ParseWords, WordBytes;
    if At(data, pos, WordBytes(mask, bits, words)) {
      WordsBack(data, pos, mask, bits, words);
    }
    if ParseWords(data, pos, mask, bits) == Ok(words) {
      WordsFound(data, pos, mask, bits);
    }
    WordsSize(mask, bits, words);
  }

  lemma {:induction false} WordsSize(mask: u64, bits: seq<u64>, words: map<u64, Bytes>)
    requires forall b :: b in Selected(mask, bits) ==> b in words && |words[b]| == 8
    ensures |WordBytes(mask, bits, words)| == 8 * WordCount(mask, bits)
  {
    hide Has;
    if bits != [] {
      SelectedSplit(mask, bits);
      WordsSize(mask, bits[1..], words);
    }
  }

  lemma {:induction false} WordsBack(data: Bytes, pos: nat, mask: u64, bits: seq<u64>, words: map<u64, Bytes>)
    requires pos <= |data| && Distinct(bits) && WordsFit(mask, bits, words)
    requires At(data, pos, WordBytes(mask, bits, words))
    ensures ParseWords(data, pos, mask, bits) == Ok(words)
    decreases bits
  {
    hide Has;
    if bits != [] {
      SelectedSplit(mask, bits);
      if Has(mask, bits[0]) {
        var first, rest := words[bits[0]], words - {bits[0]};
        SameWords(mask, bits[1..], words, rest);
        AtConcat(data, pos, first, WordBytes(mask, bits[1..], words));
        WordsBack(data, pos + 8, mask, bits[1..], rest);
        assert words == rest[bits[0] := first];
      } else {
        assert [] + WordBytes(mask, bits[1..], words) == WordBytes(mask, bits[1..], words);
        WordsBack(data, pos, mask, bits[1..], words);
      }
    }
  }

  lemma {:induction false} WordsFound(data: Bytes, pos: nat, mask: u64, bits: seq<u64>)
    requires pos <= |data| && Distinct(bits) && ParseWords(data, pos, mask, bits).Ok?
    ensures WordsFit(mask, bits, ParseWords(data, pos, mask, bits).value)
    ensures At(data, pos, WordBytes(mask, bits, ParseWords(data, pos, mask, bits).value))
    decreases bits
  {
    hide Has;
    ParsedKeys(data, pos, mask, bits);
    if bits != [] {
      SelectedSplit(mask, bits);
      var words := ParseWords(data, pos, mask, bits).value;
      if Has(mask, bits[0]) {
        ParsedKeys(data, pos + 8, mask, bits[1..]);
        var rest := ParseWords(data, pos + 8, mask, bits[1..]).value;
        WordsFound(data, pos + 8, mask, bits[1..]);
        SameWords(mask, bits[1..], words, rest);
        AtJoin(data, pos, words[bits[0]], WordBytes(mask, bits[1..], rest));
      } else {
        WordsFound(data, pos, mask, bits[1..]);
        assert [] + WordBytes(mask, bits[1..], words) == WordBytes(mask, bits[1..], words);
      }
    }
  }

  lemma {:induction false} SameWords(mask: u64, bits: seq<u64>, a: map<u64, Bytes>, b: map<u64, Bytes>)
    requires forall k :: k in Selected(mask, bits) ==> k in a && k in b && a[k] == b[k]
    ensures WordBytes(mask, bits, a) == WordBytes(mask, bits, b)
  {
    hide Has;
    if bits != [] {
      SelectedSplit(mask, bits);
      SameWords(mask, bits[1..], a, b);
    }
  }

  lemma {:induction false} ParsedKeys(data: Bytes, pos: nat, mask: u64, bits: seq<u64>)
    requires pos <= |data| && ParseWords(data, pos, mask, bits).Ok? && Distinct(bits)
    ensures WordsFit(mask, bits, ParseWords(data, pos, mask, bits).value)
    decreases bits
  {
    hide Has;
    if bits != [] {
      SelectedSplit(mask, bits);
      ParsedKeys(data, if Has(mask, bits[0]) then pos + 8 else pos, mask, bits[1..]);
    }
  }

  /** The word of a bit stands behind those of the selected bits before it. */
  lemma {:induction false} WordPlace(data: Bytes, pos: nat, mask: u64, bits: seq<u64>, i: nat)
    requires pos <= |data| && ParseWords(data, pos, mask, bits).Ok? && Distinct(bits) && i < |bits| && Has(mask, bits[i])
    ensures var at := pos + 8 * WordCount(mask, bits[..i]);
            && at + 8 <= |data| && bits[i] in ParseWords(data, pos, mask, bits).value
            && ParseWords(data, pos, mask, bits).value[bits[i]] == data[at..at + 8]
    decreases i
  {
    hide Has;
    if i > 0 {
      assert bits[..i][0] == bits[0] && bits[..i][1..] == bits[1..][..i - 1];
      WordPlace(data, if Has(mask, bits[0]) then pos + 8 else pos, mask, bits[1..], i - 1);
    }
  }

  // ------------------------------------------------- the order of the perf ABI

  /** A bit is set in a number exactly if it is odd in the binary digits from
      that bit on. */
  lemma HasDigit(high: nat, low: nat, bit: u64)
    requires low < bit && (2 * high + 1) * bit + low < 0x1_0000_0000_0000_0000
    requires 0 <= 2 * high * bit + low < 0x1_0000_0000_0000_0000
    ensures Has((2 * high + 1) * bit + low, bit) && !Has(2 * high * bit + low, bit)
  {
    Divides(2 * high + 1, bit, low);
    Divides(2 * high, bit, low);
  }

  lemma Divides(quotient: nat, divisor: nat, rest: nat)
    requires rest < divisor
    ensures (quotient * divisor + rest) / divisor == quotient
  {
    var n := quotient * divisor + rest;
    OneQuotient(quotient, n / divisor, divisor, rest, n % divisor);
  }

  lemma OneQuotient(p: nat, q: nat, divisor: nat, r: nat, s: nat)
    requires r < divisor && s < divisor && p * divisor + r == q * divisor + s
    ensures p == q
  {
    if p < q {
      Monotone(p + 1, q, divisor);
    } else if q < p {
      Monotone(q + 1, p, divisor);
    }
  }

  lemma Monotone(a: nat, b: nat, factor: nat)
    requires a <= b
    ensures a * factor <= b * factor
    ensures a > 0 ==> a * factor == (a - 1) * factor + factor
  {
  }

  function Word(mask: u64, bit: u64, words: map<u64, Bytes>): Bytes {
    if Has(mask, bit) && bit in words then words[bit] else []
  }

  /** IDENTIFIER, IP, TID, TIME, ADDR, ID, STREAM_ID, CPU, PERIOD. */
  function FixedBytes(mask: u64, words: map<u64, Bytes>): Bytes {
    Word(mask, 0x1_0000, words)
    + (Word(mask, 0x1, words) + (Word(mask, 0x2, words) + (Word(mask, 0x4, words) + (Word(mask, 0x8, words)
    + (Word(mask, 0x40, words) + (Word(mask, 0x200, words) + (Word(mask, 0x80, words) + Word(mask, 0x100, words))))))))
  }

  predicate FixedFit(mask: u64, words: map<u64, Bytes>) {
    && (forall b :: b in words <==> b in {0x1_0000, 0x1, 0x2, 0x4, 0x8, 0x40, 0x200, 0x80, 0x100} && Has(mask, b))
    && (forall b :: b in words ==> |words[b]| == 8)
  }

  lemma WordFirst(mask: u64, bit: u64, bits: seq<u64>, words: map<u64, Bytes>)
    requires forall b :: b in Selected(mask, [bit] + bits) ==> b in words
    ensures forall b :: b in Selected(mask, bits) ==> b in words
    ensures WordBytes(mask, [bit] + bits, words) == Word(mask, bit, words) + WordBytes(mask, bits, words)
  {
    hide Has;
    SelectedSplit(mask, [bit] + bits);
    assert ([bit] + bits)[1..] == bits;
  }

  /** The fixed fields stand in the order of the perf ABI. */
  lemma FixedInOrder(mask: u64, words: map<u64, Bytes>)
    requires FixedFit(mask, words)
    ensures WordsFit(mask, FIXED, words) && WordBytes(mask, FIXED, words) == FixedBytes(mask, words)
  {
    hide Has, WordBytes, Word;
    assert words.Keys == Selected(mask, FIXED);
    WordsUnfold(mask, FIXED, words);
    assert FIXED[0..] == FIXED && FIXED[9..] == [];
    NoBits(mask, words);
    assert Word(mask, 0x100, words) + [] == Word(mask, 0x100, words);
    assert WordBytes(mask, FIXED[8..], words) == Word(mask, 0x100, words);
    assert WordBytes(mask, FIXED[7..], words) == Word(mask, 0x80, words) + WordBytes(mask, FIXED[8..], words);
    assert WordBytes(mask, FIXED[6..], words) == Word(mask, 0x200, words) + WordBytes(mask, FIXED[7..], words);
    assert WordBytes(mask, FIXED[5..], words) == Word(mask, 0x40, words) + WordBytes(mask, FIXED[6..], words);
    assert WordBytes(mask, FIXED[4..], words) == Word(mask, 0x8, words) + WordBytes(mask, FIXED[5..], words);
    assert WordBytes(mask, FIXED[3..], words) == Word(mask, 0x4, words) + WordBytes(mask, FIXED[4..], words);
    assert WordBytes(mask, FIXED[2..], words) == Word(mask, 0x2, words) + WordBytes(mask, FIXED[3..], words);
    assert WordBytes(mask, FIXED[1..], words) == Word(mask, 0x1, words) + WordBytes(mask, FIXED[2..], words);
  }

  lemma NoBits(mask: u64, words: map<u64, Bytes>)
    ensures WordBytes(mask, [], words) == []
  {
  }

  lemma WordsUnfold(mask: u64, bits: seq<u64>, words: map<u64, Bytes>)
    requires forall b :: b in Selected(mask, bits) ==> b in words
    ensures forall k :: 0 <= k <= |bits| ==> forall b :: b in Selected(mask, bits[k..]) ==> b in words
    ensures forall k :: 0 <= k < |bits| ==>
              WordBytes(mask, bits[k..], words) == Word(mask, bits[k], words) + WordBytes(mask, bits[k + 1..], words)
  {
    hide Has, WordBytes, Word;
    forall k | 0 <= k <= |bits| ensures forall b :: b in Selected(mask, bits[k..]) ==> b in words {
      assert forall b :: b in bits[k..] ==> b in bits;
    }
    forall k | 0 <= k < |bits|
      ensures WordBytes(mask, bits[k..], words) == Word(mask, bits[k], words) + WordBytes(mask, bits[k + 1..], words)
    {
      assert bits[k..] == [bits[k]] + bits[k + 1..];
      WordFirst(mask, bits[k], bits[k + 1..], words);
    }
  }

  // ---------------------------------------------------------- descriptor lookup

  /** `sampleLookupOffset`: where a sample of this type carries its ID, or -1. */
  function LookupOffset(sampleType: u64): int {
    if Has(sampleType, SAMPLE_IDENTIFIER) then 8
    else if !Has(sampleType, SAMPLE_ID) then -1
    else 8 * (1 + WordCount(sampleType, [SAMPLE_IP, SAMPLE_TID, SAMPLE_TIME, SAMPLE_ADDR]))
  }

  /** The bytes at the constant offset are those that the full parser takes for
      IDENTIFIER, or for ID in a sample without one. */
  lemma LookupIsParsed(raw: Bytes, sampleType: u64)
    requires |raw| >= 8 && ParseWords(raw, 8, sampleType, FIXED).Ok?
    ensures var at := LookupOffset(sampleType);
            at >= 0 ==>
              && at + 8 <= |raw|
              && var words, bit := ParseWords(raw, 8, sampleType, FIXED).value, if Has(sampleType, 0x1_0000) then 0x1_0000 else 0x40;
                 bit in words && words[bit] == raw[at..at + 8]
  {
    hide Has, ParseWords;
    if Has(sampleType, SAMPLE_IDENTIFIER) {
      WordPlace(raw, 8, sampleType, FIXED, 0);
      assert WordCount(sampleType, FIXED[..0]) == 0;
    } else if Has(sampleType, SAMPLE_ID) {
      WordPlace(raw, 8, sampleType, FIXED, 5);
      var before := FIXED[..5];
      assert before[0] == SAMPLE_IDENTIFIER && before[1..] == [SAMPLE_IP, SAMPLE_TID, SAMPLE_TIME, SAMPLE_ADDR];
    }
  }

  // --------------------------------------------------------------- 64-bit fields

  function Put64(order: ByteOrder, v: u64): (r: Bytes)
    ensures |r| == 8
  {
    Put(order, 8, v)
  }

  datatype Cursor<+T> = Cursor(value: T, pos: nat)

  function U64(order: ByteOrder, data: Bytes, pos: nat): (r: Result<Cursor<u64>, SampleError>)
    requires pos <= |data|
    ensures r.Ok? ==> pos + 8 == r.value.pos <= |data|
  {
    if |data| - pos < 8 then Err(Truncated)
    else
      PutGet(order, data[pos..pos + 8]);
      PowersOf256();
      Ok(Cursor(Get(order, data[pos..pos + 8]), pos + 8))
  }

  lemma U64Back(order: ByteOrder, data: Bytes, pos: nat, v: u64)
    requires pos <= |data| && At(data, pos, Put64(order, v))
    ensures U64(order, data, pos) == Ok(Cursor(v, pos + 8))
  {
    PowersOf256();
    GetPut(order, 8, v);
  }

  /** A field that is there only if its bit is set. */
  function Optional64(order: ByteOrder, data: Bytes, pos: nat, present: bool): (r: Result<Cursor<Option<u64>>, SampleError>)
    requires pos <= |data|
    ensures r.Ok? ==> pos <= r.value.pos <= |data| && r.value.value.Some? == present
  {
    if !present then Ok(Cursor(None, pos))
    else
      match U64(order, data, pos)
      case Err(e) => Err(e)
      case Ok(c) => Ok(Cursor(Some(c.value), c.pos))
  }

  function PutOptional(order: ByteOrder, v: Option<u64>): Bytes {
    if v.Some? then Put64(order, v.value) else []
  }

  lemma OptionalBack(order: ByteOrder, data: Bytes, pos: nat, v: Option<u64>)
    requires pos <= |data| && At(data, pos, PutOptional(order, v))
    ensures Optional64(order, data, pos, v.Some?) == Ok(Cursor(v, pos + |PutOptional(order, v)|))
  {
    if v.Some? {
      U64Back(order, data, pos, v.value);
    }
  }

  function Numbers(order: ByteOrder, data: Bytes, pos: nat, n: nat): (r: seq<u64>)
    requires pos + 8 * n <= |data|
    ensures |r| == n
    decreases n
  {
    if n == 0 then [] else [U64(order, data, pos).value.value] + Numbers(order, data, pos + 8, n - 1)
  }

  function PutNumbers(order: ByteOrder, s: seq<u64>): (r: Bytes)
    ensures |r| == 8 * |s|
  {
    if s == [] then [] else Put64(order, s[0]) + PutNumbers(order, s[1..])
  }

  lemma {:induction false} NumbersBack(order: ByteOrder, data: Bytes, pos: nat, s: seq<u64>)
    requires At(data, pos, PutNumbers(order, s))
    ensures Numbers(order, data, pos, |s|) == s
    decreases s
  {
    hide Put64, U64;
    if s != [] {
      AtConcat(data, pos, Put64(order, s[0]), PutNumbers(order, s[1..]));
      U64Back(order, data, pos, s[0]);
      NumbersBack(order, data, pos + 8, s[1..]);
      assert s == [s[0]] + s[1..];
    }
  }

  // --------------------------------------------------------------- counter reads

  const FORMAT_TIME_ENABLED: u64 := 1
  const FORMAT_TIME_RUNNING: u64 := 2
  const FORMAT_ID: u64 := 4
  const FORMAT_GROUP: u64 := 8
  const FORMAT_LOST: u64 := 16

  datatype ReadValue = ReadValue(value: u64, id: Option<u64>, lost: Option<u64>)

  datatype ReadSet = ReadSet(enabled: Option<u64>, running: Option<u64>, values: seq<ReadValue>)

  predicate ValueFits(format: u64, v: ReadValue) {
    v.id.Some? == Has(format, 4) && v.lost.Some? == Has(format, 16)
  }

  predicate ReadFits(format: u64, s: ReadSet) {
    && format < 32
    && s.enabled.Some? == Has(format, 1) && s.running.Some? == Has(format, 2)
    && (!Has(format, 8) ==> |s.values| == 1)
    && |s.values| < 0x1_0000_0000_0000_0000
    && forall i :: 0 <= i < |s.values| ==> ValueFits(format, s.values[i])
  }

  /** In a group the value stands with each ID, otherwise in front of the times. */
  function ValueBytes(order: ByteOrder, group: bool, v: ReadValue): Bytes {
    (if group then Put64(order, v.value) else []) + (PutOptional(order, v.id) + PutOptional(order, v.lost))
  }

  function ValuesBytes(order: ByteOrder, group: bool, vs: seq<ReadValue>): (r: Bytes)
    ensures group ==> |r| >= 8 * |vs|
  {
    if vs == [] then [] else ValueBytes(order, group, vs[0]) + ValuesBytes(order, group, vs[1..])
  }

  function ReadHead(order: ByteOrder, group: bool, s: ReadSet): (r: Bytes)
    requires group ==> |s.values| < 0x1_0000_0000_0000_0000
    requires !group ==> |s.values| == 1
    ensures |r| == 8
  {
    Put64(order, if group then |s.values| else s.values[0].value)
  }

  function ReadBytes(order: ByteOrder, format: u64, s: ReadSet): Bytes
    requires ReadFits(format, s)
  {
    var group := Has(format, 8);
    ReadHead(order, group, s)
    + (PutOptional(order, s.enabled) + (PutOptional(order, s.running) + ValuesBytes(order, group, s.values)))
  }

  function ParseValue(order: ByteOrder, data: Bytes, pos: nat, format: u64, single: u64): (r: Result<Cursor<ReadValue>, SampleError>)
    requires pos <= |data|
    ensures r.Ok? ==> pos <= r.value.pos <= |data|
  {
    var group := Has(format, FORMAT_GROUP);
    match Optional64(order, data, pos, group)
    case Err(e) => Err(e)
    case Ok(v) =>
      match Optional64(order, data, v.pos, Has(format, FORMAT_ID))
      case Err(e) => Err(e)
      case Ok(id) =>
        match Optional64(order, data, id.pos, Has(format, FORMAT_LOST))
        case Err(e) => Err(e)
        case Ok(lost) => Ok(Cursor(ReadValue(if group then v.value.value else single, id.value, lost.value), lost.pos))
  }

  function ParseValues(order: ByteOrder, data: Bytes, pos: nat, format: u64, single: u64, n: nat): (r: Result<Cursor<seq<ReadValue>>, SampleError>)
    requires pos <= |data|
    ensures r.Ok? ==> pos <= r.value.pos <= |data|
    decreases n
  {
    if n == 0 then Ok(Cursor([], pos))
    else
      match ParseValue(order, data, pos, format, single)
      case Err(e) => Err(e)
      case Ok(v) =>
        match ParseValues(order, data, v.pos, format, single, n - 1)
        case Err(e) => Err(e)
        case Ok(rest) => Ok(Cursor([v.value] + rest.value, rest.pos))
  }

  /** `parseRead` behind the count: the value of a single read, then the times. */
  function ParseTimes(order: ByteOrder, data: Bytes, pos: nat, format: u64, count: nat): (r: Result<Cursor<ReadSet>, SampleError>)
    requires pos <= |data|
    ensures r.Ok? ==> pos <= r.value.pos <= |data|
  {
    var group := Has(format, FORMAT_GROUP);
    match Optional64(order, data, pos, !group)
    case Err(e) => Err(e)
    case Ok(single) =>
      match Optional64(order, data, single.pos, Has(format, FORMAT_TIME_ENABLED))
      case Err(e) => Err(e)
      case Ok(enabled) =>
        match Optional64(order, data, enabled.pos, Has(format, FORMAT_TIME_RUNNING))
        case Err(e) => Err(e)
        case Ok(running) =>
          match ParseValues(order, data, running.pos, format, if group then 0 else single.value.value, count)
          case Err(e) => Err(e)
          case Ok(values) => Ok(Cursor(ReadSet(enabled.value, running.value, values.value), values.pos))
  }

  function ParseRead(order: ByteOrder, data: Bytes, pos: nat, format: u64, maxReadValues: nat): (r: Result<Cursor<ReadSet>, SampleError>)
    requires pos <= |data|
    ensures r.Ok? ==> pos <= r.value.pos <= |data|
  {
    if format >= 32 then Err(Unsupported)
    else
      var group := Has(format, FORMAT_GROUP);
      match Optional64(order, data, pos, group)
      case Err(e) => Err(e)
      case Ok(head) =>
        var count := if group then head.value.value else 1;
        if count > maxReadValues || count > (|data| - head.pos) / 8 then Err(Limit)
        else ParseTimes(order, data, head.pos, format, count)
  }

  lemma ValueBack(order: ByteOrder, data: Bytes, pos: nat, format: u64, single: u64, v: ReadValue)
    requires pos <= |data| && ValueFits(format, v) && (!Has(format, FORMAT_GROUP) ==> v.value == single)
    requires At(data, pos, ValueBytes(order, Has(format, FORMAT_GROUP), v))
    ensures ParseValue(order, data, pos, format, single)
         == Ok(Cursor(v, pos + |ValueBytes(order, Has(format, FORMAT_GROUP), v)|))
  {
    hide Has, Optional64, PutOptional, Put64;
    var group := Has(format, FORMAT_GROUP);
    var value := if group then Some(v.value) else None;
    var head := PutOptional(order, value);
    assert head == if group then Put64(order, v.value) else [] by { PutOptionalCases(order, value); }
    AtConcat(data, pos, head, PutOptional(order, v.id) + PutOptional(order, v.lost));
    AtConcat(data, pos + |head|, PutOptional(order, v.id), PutOptional(order, v.lost));
    OptionalBack(order, data, pos, value);
    OptionalBack(order, data, pos + |head|, v.id);
    OptionalBack(order, data, pos + |head| + |PutOptional(order, v.id)|, v.lost);
  }

  lemma PutOptionalCases(order: ByteOrder, v: Option<u64>)
    ensures PutOptional(order, v) == if v.Some? then Put64(order, v.value) else []
  {
  }

  lemma {:induction false} ValuesBack(order: ByteOrder, data: Bytes, pos: nat, format: u64, single: u64, vs: seq<ReadValue>)
    requires pos <= |data| && forall i :: 0 <= i < |vs| ==> ValueFits(format, vs[i])
    requires !Has(format, FORMAT_GROUP) ==> forall i :: 0 <= i < |vs| ==> vs[i].value == single
    requires At(data, pos, ValuesBytes(order, Has(format, FORMAT_GROUP), vs))
    ensures ParseValues(order, data, pos, format, single, |vs|)
         == Ok(Cursor(vs, pos + |ValuesBytes(order, Has(format, FORMAT_GROUP), vs)|))
    decreases vs
  {
    hide Has, ParseValue, ValueBytes, ValueFits;
    if vs != [] {
      var group := Has(format, FORMAT_GROUP);
      AtConcat(data, pos, ValueBytes(order, group, vs[0]), ValuesBytes(order, group, vs[1..]));
      ValueBack(order, data, pos, format, single, vs[0]);
      ValuesBack(order, data, pos + |ValueBytes(order, group, vs[0])|, format, single, vs[1..]);
      assert vs == [vs[0]] + vs[1..];
    }
  }

  /** Where the parts of a written read set stand. */
  lemma ReadParts(order: ByteOrder, data: Bytes, pos: nat, format: u64, s: ReadSet)
    requires ReadFits(format, s) && At(data, pos, ReadBytes(order, format, s))
    ensures var enabled, running := PutOptional(order, s.enabled), PutOptional(order, s.running);
            var values := ValuesBytes(order, Has(format, 8), s.values);
            && At(data, pos, ReadHead(order, Has(format, 8), s)) && At(data, pos + 8, enabled)
            && At(data, pos + 8 + |enabled|, running) && At(data, pos + 8 + |enabled| + |running|, values)
            && |ReadBytes(order, format, s)| == 8 + |enabled| + |running| + |values|
  {
    hide Has, PutOptional, Put64, ValuesBytes, ValueFits;
    var group := Has(format, 8);
    var enabled, running, values := PutOptional(order, s.enabled), PutOptional(order, s.running), ValuesBytes(order, group, s.values);
    AtConcat(data, pos, ReadHead(order, group, s), enabled + (running + values));
    AtConcat(data, pos + 8, enabled, running + values);
    AtConcat(data, pos + 8 + |enabled|, running, values);
  }

  /** The times and values behind the count of a group, or the whole of a single read. */
  lemma TimesBack(order: ByteOrder, data: Bytes, pos: nat, format: u64, s: ReadSet)
    requires pos <= |data| && ReadFits(format, s) && At(data, pos, ReadBytes(order, format, s))
    ensures ParseTimes(order, data, if Has(format, 8) then pos + 8 else pos, format, |s.values|)
         == Ok(Cursor(s, pos + |ReadBytes(order, format, s)|))
  {
    hide Has, Optional64, PutOptional, Put64, ParseValues, ValuesBytes, ValueFits, ReadBytes;
    ReadParts(order, data, pos, format, s);
    var group := Has(format, 8);
    var enabled, running := PutOptional(order, s.enabled), PutOptional(order, s.running);
    if group {
      AbsentBack(order, data, pos + 8);
    } else {
      FirstBack(order, data, pos, s.values[0].value);
    }
    OptionalBack(order, data, pos + 8, s.enabled);
    OptionalBack(order, data, pos + 8 + |enabled|, s.running);
    ValuesBack(order, data, pos + 8 + |enabled| + |running|, format, if group then 0 else s.values[0].value, s.values);
  }

  lemma FirstBack(order: ByteOrder, data: Bytes, pos: nat, v: u64)
    requires At(data, pos, Put64(order, v))
    ensures Optional64(order, data, pos, true) == Ok(Cursor(Some(v), pos + 8))
  {
    OptionalBack(order, data, pos, Some(v));
  }

  /** A read set written for a format parses back, grouped or not, unless it has
      more values than the limit. */
  lemma ReadBack(order: ByteOrder, data: Bytes, pos: nat, format: u64, maxReadValues: nat, s: ReadSet)
    requires pos <= |data| && ReadFits(format, s) && At(data, pos, ReadBytes(order, format, s))
    ensures ParseRead(order, data, pos, format, maxReadValues)
         == if |s.values| > maxReadValues then Err(Limit) else Ok(Cursor(s, pos + |ReadBytes(order, format, s)|))
  {
    hide Has, Optional64, PutOptional, Put64, ParseTimes, ValuesBytes, ValueFits, ReadBytes;
    TimesBack(order, data, pos, format, s);
    ReadParts(order, data, pos, format, s);
    ReadRoom(order, format, s);
    if Has(format, 8) {
      FirstBack(order, data, pos, |s.values|);
    } else {
      AbsentBack(order, data, pos);
    }
  }

  /** The values alone take eight bytes each. */
  lemma ReadRoom(order: ByteOrder, format: u64, s: ReadSet)
    requires ReadFits(format, s)
    ensures |ReadBytes(order, format, s)| >= 8 + if Has(format, 8) then 8 * |s.values| else 0
  {
    hide Has, ReadHead;
  }

  lemma AbsentBack(order: ByteOrder, data: Bytes, pos: nat)
    requires pos <= |data|
    ensures Optional64(order, data, pos, false) == Ok(Cursor(None, pos))
  {
  }

  // --------------------------------------------------------------- whole samples

  datatype SampleLimits = SampleLimits(maxReadValues: nat, maxCallchain: nat)

  datatype Sample = Sample(
    words: map<u64, Bytes>, read: Option<ReadSet>, callchain: Option<seq<u64>>, raw: Option<Bytes>,
    unsupported: u64, trailing: Bytes)

  const SUPPORTED: seq<u64> :=
    [SAMPLE_IP, SAMPLE_TID, SAMPLE_TIME, SAMPLE_ADDR, SAMPLE_READ, SAMPLE_CALLCHAIN, SAMPLE_ID, SAMPLE_CPU, SAMPLE_PERIOD,
     SAMPLE_STREAM_ID, SAMPLE_RAW, SAMPLE_IDENTIFIER]

  /** `mask &^ bits` */
  function Clear(mask: u64, bits: seq<u64>): u64 {
    if bits == [] then mask
    else Clear(if Has(mask, bits[0]) && mask >= bits[0] then mask - bits[0] else mask, bits[1..])
  }

  /** The sample bits that leave trailing data: 11 to 15, and those from 17 on. */
  function Leftover(mask: u64): u64 {
    mask / 0x2_0000 * 0x2_0000 + mask % 0x1_0000 / 0x800 * 0x800
  }

  lemma ClearFirst(mask: u64, bit: u64, bits: seq<u64>)
    ensures Clear(mask, [bit] + bits) == Clear(if Has(mask, bit) && mask >= bit then mask - bit else mask, bits)
  {
    assert ([bit] + bits)[1..] == bits;
  }

  /** Clearing the supported bits leaves exactly those. */
  lemma LeftoverRemains(mask: u64)
    ensures Clear(mask, SUPPORTED) == Leftover(mask)
  {
    hide Clear;
    LowDropped(mask);
    var rest := mask / 0x800 * 0x800;
    assert SUPPORTED[11..] == [SAMPLE_IDENTIFIER] + [];
    IdentifierDropped(mask);
    ClearFirst(rest, SAMPLE_IDENTIFIER, []);
    ClearNone(Leftover(mask));
  }

  /** Bit 16 goes last. */
  lemma IdentifierDropped(mask: u64)
    ensures var rest := mask / 0x800 * 0x800;
            0 <= rest <= mask
            && (if Has(rest, SAMPLE_IDENTIFIER) && rest >= SAMPLE_IDENTIFIER then rest - SAMPLE_IDENTIFIER else rest) == Leftover(mask)
  {
    var high, bit, low := mask / 0x2_0000, mask / 0x1_0000 % 2, mask % 0x1_0000 / 0x800;
    assert mask / 0x1_0000 == 2 * high + bit;
    assert mask / 0x800 == (2 * high + bit) * 0x20 + low;
    var rest := mask / 0x800 * 0x800;
    assert rest == high * 0x2_0000 + bit * 0x1_0000 + low * 0x800;
    assert rest / 0x1_0000 == 2 * high + bit;
  }

  lemma LowDropped(mask: u64)
    ensures 0 <= mask / 0x800 * 0x800 <= mask
    ensures Clear(mask, SUPPORTED) == Clear(mask / 0x800 * 0x800, SUPPORTED[11..])
  {
    hide Clear;
    ClearDrop(mask, 0x1, 0);
    ClearDrop(mask, 0x2, 1);
    ClearDrop(mask, 0x4, 2);
    ClearDrop(mask, 0x8, 3);
    ClearDrop(mask, 0x10, 4);
    ClearDrop(mask, 0x20, 5);
    ClearDrop(mask, 0x40, 6);
    ClearDrop(mask, 0x80, 7);
    ClearDrop(mask, 0x100, 8);
    ClearDrop(mask, 0x200, 9);
    ClearDrop(mask, 0x400, 10);
    assert SUPPORTED[0..] == SUPPORTED;
  }

  lemma ClearNone(mask: u64)
    ensures Clear(mask, []) == mask
  {
  }

  /** One of the low bits, the ones below it gone already. */
  lemma ClearDrop(mask: u64, bit: u64, i: nat)
    requires i < 11 && bit == SUPPORTED[i]
    ensures var low, high := mask / bit * bit, mask / (2 * bit) * (2 * bit);
            0 <= high <= low <= mask && Clear(low, SUPPORTED[i..]) == Clear(high, SUPPORTED[i + 1..])
  {
    hide Clear;
    Halves(mask, bit);
    var low := mask / bit * bit;
    assert SUPPORTED[i..] == [bit] + SUPPORTED[i + 1..];
    ClearFirst(low, bit, SUPPORTED[i + 1..]);
  }

  lemma Halves(mask: u64, bit: u64)
    requires bit > 0
    ensures var low, high := mask / bit * bit, mask / (2 * bit) * (2 * bit);
            0 <= high <= low <= mask && high == if Has(low, bit) && low >= bit then low - bit else low
  {
    var q, r := mask / bit, mask % bit;
    HalfOf(mask, q, r, bit);
    Divides(q, bit, 0);
    Monotone(0, q, bit);
    assert mask == q * bit + r;
    if q % 2 == 1 {
      Monotone(1, q, bit);
    }
  }

  lemma HalfOf(mask: nat, q: nat, r: nat, bit: nat)
    requires r < bit && mask == q * bit + r
    ensures mask / (2 * bit) * (2 * bit) == if q % 2 == 1 then (q - 1) * bit else q * bit
    ensures q > 0 ==> (q - 1) * bit == q * bit - bit
  {
    var half, twice := q / 2, 2 * bit;
    Twice(half, bit);
    Divides(half, twice, if q % 2 == 1 then bit + r else r);
    assert mask == half * twice + if q % 2 == 1 then bit + r else r;
  }

  lemma Twice(half: nat, bit: nat)
    ensures half * (2 * bit) == (2 * half) * bit && (2 * half + 1) * bit == (2 * half) * bit + bit
    ensures half > 0 ==> (2 * half - 1) * bit == (2 * half) * bit - bit
  {
  }

  function ParseCallchain(order: ByteOrder, data: Bytes, pos: nat, present: bool, max: nat): (r: Result<Cursor<Option<seq<u64>>>, SampleError>)
    requires pos <= |data|
    ensures r.Ok? ==> pos <= r.value.pos <= |data|
  {
    if !present then Ok(Cursor(None, pos))
    else
      match U64(order, data, pos)
      case Err(e) => Err(e)
      case Ok(count) =>
        if count.value > max || count.value > (|data| - count.pos) / 8 then Err(Limit)
        else Ok(Cursor(Some(Numbers(order, data, count.pos, count.value)), count.pos + 8 * count.value))
  }

  /** Bytes that bring `pos` to the next multiple of eight. */
  function Padding(pos: nat): nat { (8 - pos % 8) % 8 }

  function ParseRaw(order: ByteOrder, data: Bytes, pos: nat, present: bool): (r: Result<Cursor<Option<Bytes>>, SampleError>)
    requires pos <= |data|
    ensures r.Ok? ==> pos <= r.value.pos <= |data|
  {
    if !present then Ok(Cursor(None, pos))
    else if |data| - pos < 4 then Err(Truncated)
    else
      var size := Get(order, data[pos..pos + 4]);
      var start := pos + 4;
      if size > |data| - start then Err(Truncated)
      else
        var end := (start + size + 7) / 8 * 8;
        if end > |data| then Err(Truncated) else Ok(Cursor(Some(data[start..start + size]), end))
  }

  function ParseOptionalRead(order: ByteOrder, data: Bytes, pos: nat, present: bool, format: u64, max: nat): (r: Result<Cursor<Option<ReadSet>>, SampleError>)
    requires pos <= |data|
    ensures r.Ok? ==> pos <= r.value.pos <= |data|
  {
    if !present then Ok(Cursor(None, pos))
    else
      match ParseRead(order, data, pos, format, max)
      case Err(e) => Err(e)
      case Ok(c) => Ok(Cursor(Some(c.value), c.pos))
  }

  /** `parseSample` on a record of at least a header. */
  function ParseSample(order: ByteOrder, data: Bytes, sampleType: u64, format: u64, limits: SampleLimits): Result<Sample, SampleError>
    requires |data| >= 8
  {
    match ParseWords(data, 8, sampleType, FIXED)
    case Err(e) => Err(e)
    case Ok(words) =>
      match ParseOptionalRead(order, data, 8 + 8 * WordCount(sampleType, FIXED), Has(sampleType, SAMPLE_READ), format, limits.maxReadValues)
      case Err(e) => Err(e)
      case Ok(read) =>
        match ParseCallchain(order, data, read.pos, Has(sampleType, SAMPLE_CALLCHAIN), limits.maxCallchain)
        case Err(e) => Err(e)
        case Ok(chain) =>
          match ParseRaw(order, data, chain.pos, Has(sampleType, SAMPLE_RAW))
          case Err(e) => Err(e)
          case Ok(raw) =>
            Ok(Sample(words, read.value, chain.value, raw.value, Clear(sampleType, SUPPORTED), data[raw.pos..]))
  }

  // The kernel's side: the bytes of a sample.

  function CallchainBytes(order: ByteOrder, chain: Option<seq<u64>>): Bytes
    requires chain.Some? ==> |chain.value| < 0x1_0000_0000_0000_0000
  {
    if chain.Some? then Put64(order, |chain.value|) + PutNumbers(order, chain.value) else []
  }

  function RawBytes(order: ByteOrder, raw: Option<Bytes>, padding: Bytes): Bytes {
    if raw.Some? then Put(order, 4, |raw.value|) + (raw.value + padding) else []
  }

  predicate SampleFits(sampleType: u64, format: u64, s: Sample) {
    && FixedFit(sampleType, s.words)
    && s.read.Some? == Has(sampleType, 0x10) && (s.read.Some? ==> ReadFits(format, s.read.value))
    && s.callchain.Some? == Has(sampleType, 0x20)
    && (s.callchain.Some? ==> |s.callchain.value| < 0x1_0000_0000_0000_0000)
    && s.raw.Some? == Has(sampleType, 0x400) && (s.raw.Some? ==> |s.raw.value| < 0x1_0000_0000)
    && s.unsupported == Leftover(sampleType)
  }

  function OptionalReadBytes(order: ByteOrder, format: u64, read: Option<ReadSet>): Bytes
    requires read.Some? ==> ReadFits(format, read.value)
  {
    if read.Some? then ReadBytes(order, format, read.value) else []
  }

  /** The fields up to the raw data. */
  function SampleHead(order: ByteOrder, sampleType: u64, format: u64, s: Sample): Bytes
    requires SampleFits(sampleType, format, s)
  {
    FixedBytes(sampleType, s.words)
    + (OptionalReadBytes(order, format, s.read) + CallchainBytes(order, s.callchain))
  }

  lemma CallchainBack(order: ByteOrder, data: Bytes, pos: nat, chain: Option<seq<u64>>, max: nat)
    requires pos <= |data| && (chain.Some? ==> |chain.value| < 0x1_0000_0000_0000_0000)
    requires At(data, pos, CallchainBytes(order, chain))
    ensures ParseCallchain(order, data, pos, chain.Some?, max)
         == if chain.Some? && |chain.value| > max then Err(Limit)
            else Ok(Cursor(chain, pos + |CallchainBytes(order, chain)|))
  {
    hide Put64, U64;
    if chain.Some? {
      AtConcat(data, pos, Put64(order, |chain.value|), PutNumbers(order, chain.value));
      U64Back(order, data, pos, |chain.value|);
      NumbersBack(order, data, pos + 8, chain.value);
    }
  }

  lemma RawBack(order: ByteOrder, data: Bytes, pos: nat, raw: Option<Bytes>, padding: Bytes)
    requires pos <= |data| && (raw.Some? ==> |raw.value| < 0x1_0000_0000)
    requires raw.Some? ==> |padding| == Padding(pos + 4 + |raw.value|)
    requires At(data, pos, RawBytes(order, raw, padding))
    ensures ParseRaw(order, data, pos, raw.Some?) == Ok(Cursor(raw, pos + |RawBytes(order, raw, padding)|))
  {
    hide Put, Get, Padding;
    if raw.Some? {
      var size := Put(order, 4, |raw.value|);
      AtConcat(data, pos, size, raw.value + padding);
      AtConcat(data, pos + 4, raw.value, padding);
      assert Get(order, size) == |raw.value| by {
        PowersOf256();
        GetPut(order, 4, |raw.value|);
      }
      Aligned(pos + 4 + |raw.value|);
    }
  }

  lemma Aligned(end: nat)
    ensures (end + 7) / 8 * 8 == end + Padding(end)
  {
  }

  lemma OptionalReadBack(order: ByteOrder, data: Bytes, pos: nat, format: u64, max: nat, read: Option<ReadSet>)
    requires pos <= |data| && (read.Some? ==> ReadFits(format, read.value))
    requires At(data, pos, OptionalReadBytes(order, format, read))
    ensures ParseOptionalRead(order, data, pos, read.Some?, format, max)
         == if read.Some? && |read.value.values| > max then Err(Limit)
            else Ok(Cursor(read, pos + |OptionalReadBytes(order, format, read)|))
  {
    hide ParseRead, ReadBytes, ReadFits;
    if read.Some? {
      ReadBack(order, data, pos, format, max, read.value);
    }
  }

  /** Where the parts of a sample stand. */
  lemma SampleParts(order: ByteOrder, header: Bytes, sampleType: u64, format: u64, s: Sample, raw: Bytes)
    requires |header| == 8 && SampleFits(sampleType, format, s)
    ensures var words := FixedBytes(sampleType, s.words);
            var read, chain := OptionalReadBytes(order, format, s.read), CallchainBytes(order, s.callchain);
            var data := header + SampleHead(order, sampleType, format, s) + raw + s.trailing;
            var end := 8 + |words| + |read| + |chain|;
            && end == 8 + |SampleHead(order, sampleType, format, s)|
            && At(data, 8, words) && At(data, 8 + |words|, read) && At(data, 8 + |words| + |read|, chain) && At(data, end, raw)
            && data[end + |raw|..] == s.trailing
  {
    hide FixedFit, ReadFits, Leftover, Has, FixedBytes, OptionalReadBytes, CallchainBytes;
    var words := FixedBytes(sampleType, s.words);
    var read, chain := OptionalReadBytes(order, format, s.read), CallchainBytes(order, s.callchain);
    var head := SampleHead(order, sampleType, format, s);
    var data := header + head + raw + s.trailing;
    assert At(data, 8, head) by { assert data[8..8 + |head|] == head; }
    AtConcat(data, 8, words, read + chain);
    AtConcat(data, 8 + |words|, read, chain);
    assert At(data, 8 + |head|, raw) by { assert data[8 + |head|..8 + |head| + |raw|] == raw; }
    assert data[8 + |head| + |raw|..] == s.trailing;
  }

  /** Parsing a sample laid out for its type recovers every field: fixed words,
      grouped or single reads, callchain, padded raw data and whatever unsupported
      fields leave behind. Only the limits on counts can refuse it. */
  lemma SampleBack(order: ByteOrder, header: Bytes, sampleType: u64, format: u64, limits: SampleLimits, s: Sample, padding: Bytes)
    requires |header| == 8 && SampleFits(sampleType, format, s)
    requires s.raw.Some? ==> |padding| == Padding(8 + |SampleHead(order, sampleType, format, s)| + 4 + |s.raw.value|)
    ensures ParseSample(order, header + SampleHead(order, sampleType, format, s) + RawBytes(order, s.raw, padding) + s.trailing,
                        sampleType, format, limits)
         == if || (s.read.Some? && |s.read.value.values| > limits.maxReadValues)
               || (s.callchain.Some? && |s.callchain.value| > limits.maxCallchain)
            then Err(Limit) else Ok(s)
  {
    hide Has, ParseWords, WordBytes, ParseOptionalRead, OptionalReadBytes, ParseCallchain, CallchainBytes, ParseRaw, RawBytes, Clear,
         WordCount, ReadFits, Selected, FixedFit, FixedBytes, Leftover, SampleHead, WordsFit;
    FixedInOrder(sampleType, s.words);
    LeftoverRemains(sampleType);
    var raw := RawBytes(order, s.raw, padding);
    SampleParts(order, header, sampleType, format, s, raw);
    var words := FixedBytes(sampleType, s.words);
    var read, chain := OptionalReadBytes(order, format, s.read), CallchainBytes(order, s.callchain);
    var data := header + SampleHead(order, sampleType, format, s) + raw + s.trailing;
    WordsIff(data, 8, sampleType, FIXED, s.words);
    OptionalReadBack(order, data, 8 + |words|, format, limits.maxReadValues, s.read);
    CallchainBack(order, data, 8 + |words| + |read|, s.callchain, limits.maxCallchain);
    RawBack(order, data, 8 + |words| + |read| + |chain|, s.raw, padding);
  }

  // ------------------------------------------------------------------ the cursor

  /** A loop that has read `done` of what a parser reads from here on. */
  function Prepend<T>(done: seq<T>, r: Result<Cursor<seq<T>>, SampleError>): Result<Cursor<seq<T>>, SampleError> {
    match r
    case Err(e) => Err(e)
    case Ok(c) => Ok(Cursor(done + c.value, c.pos))
  }

  function WithWords(words: map<u64, Bytes>, r: Result<map<u64, Bytes>, SampleError>): Result<map<u64, Bytes>, SampleError> {
    match r
    case Err(e) => Err(e)
    case Ok(rest) => Ok(words + rest)
  }

  lemma NoWords(r: Result<map<u64, Bytes>, SampleError>)
    ensures WithWords(map[], r) == r
  {
    if r.Ok? {
      assert map[] + r.value == r.value;
    }
  }

  lemma NoMoreWords(words: map<u64, Bytes>)
    ensures WithWords(words, Ok(map[])) == Ok(words)
  {
    assert words + map[] == words;
  }

  /** One selected bit of the list, after the words already taken. */
  lemma WordStep(data: Bytes, pos: nat, mask: u64, bits: seq<u64>, words: map<u64, Bytes>)
    requires pos <= |data| && Distinct(bits) && bits != [] && Has(mask, bits[0])
    ensures WithWords(words, ParseWords(data, pos, mask, bits))
         == if |data| - pos < 8 then Err(Truncated)
            else WithWords(words[bits[0] := data[pos..pos + 8]], ParseWords(data, pos + 8, mask, bits[1..]))
  {
    hide Has;
    if |data| - pos >= 8 && ParseWords(data, pos + 8, mask, bits[1..]).Ok? {
      ParsedKeys(data, pos + 8, mask, bits[1..]);
      var word, rest := data[pos..pos + 8], ParseWords(data, pos + 8, mask, bits[1..]).value;
      assert bits[0] !in rest;
      assert words[bits[0] := word] + rest == words + rest[bits[0] := word];
    }
  }

  class WireCursor {
    const data: Bytes
    const order: ByteOrder
    var pos: nat

    constructor (data: Bytes, order: ByteOrder, pos: nat)
      requires pos <= |data|
      ensures this.data == data && this.order == order && this.pos == pos
    {
      this.data, this.order, this.pos := data, order, pos;
    }

    /** The cursor ends where the parser does. */
    twostate predicate Follows<T>(new spec: Result<Cursor<T>, SampleError>, new r: Result<T, SampleError>)
      reads this
    {
      match spec
      case Err(e) => r == Err(e) && old(pos) <= pos <= |data|
      case Ok(c) => r == Ok(c.value) && pos == c.pos
    }

    method TakeU64() returns (r: Result<u64, SampleError>)
      requires pos <= |data|
      modifies this
      ensures Follows(U64(order, data, old(pos)), r)
    {
      if |data| - pos < 8 {
        return Err(Truncated);
      }
      PutGet(order, data[pos..pos + 8]);
      PowersOf256();
      var v: u64 := Get(order, data[pos..pos + 8]);
      pos := pos + 8;
      return Ok(v);
    }

    method TakeOptional(present: bool) returns (r: Result<Option<u64>, SampleError>)
      requires pos <= |data|
      modifies this
      ensures Follows(Optional64(order, data, old(pos), present), r)
    {
      if !present {
        return Ok(None);
      }
      var v := TakeU64();
      match v {
        case Err(e) => return Err(e);
        case Ok(x) => return Ok(Some(x));
      }
    }

    /** The `if` statements of the parser, one for each bit of the list. */
    method TakeWords(mask: u64, bits: seq<u64>) returns (r: Result<map<u64, Bytes>, SampleError>)
      requires pos <= |data| && Distinct(bits)
      modifies this
      ensures r == ParseWords(data, old(pos), mask, bits)
      ensures r.Ok? ==> pos == old(pos) + 8 * WordCount(mask, bits) <= |data|
    {
      hide Has, WithWords;
      var words: map<u64, Bytes> := map[];
      var i := 0;
      NoWords(ParseWords(data, pos, mask, bits));
      assert bits[0..] == bits;
      while i < |bits|
        invariant 0 <= i <= |bits| && pos <= |data|
        invariant ParseWords(data, old(pos), mask, bits) == WithWords(words, ParseWords(data, pos, mask, bits[i..]))
        invariant pos + 8 * WordCount(mask, bits[i..]) == old(pos) + 8 * WordCount(mask, bits)
      {
        assert bits[i..][0] == bits[i] && bits[i..][1..] == bits[i + 1..];
        if Has(mask, bits[i]) {
          WordStep(data, pos, mask, bits[i..], words);
          if |data| - pos < 8 {
            return Err(Truncated);
          }
          words := words[bits[i] := data[pos..pos + 8]];
          pos := pos + 8;
        }
        i := i + 1;
      }
      NoMoreWords(words);
      return Ok(words);
    }

    method TakeValue(format: u64, single: u64) returns (r: Result<ReadValue, SampleError>)
      requires pos <= |data|
      modifies this
      ensures Follows(ParseValue(order, data, old(pos), format, single), r)
    {
      hide Has, Optional64;
      var value := TakeOptional(Has(format, FORMAT_GROUP));
      if value.Err? {
        return Err(value.error);
      }
      var id := TakeOptional(Has(format, FORMAT_ID));
      if id.Err? {
        return Err(id.error);
      }
      var lost := TakeOptional(Has(format, FORMAT_LOST));
      if lost.Err? {
        return Err(lost.error);
      }
      return Ok(ReadValue(if Has(format, FORMAT_GROUP) then value.value.value else single, id.value, lost.value));
    }

    method TakeValues(format: u64, single: u64, count: nat) returns (r: Result<seq<ReadValue>, SampleError>)
      requires pos <= |data|
      modifies this
      ensures Follows(ParseValues(order, data, old(pos), format, single, count), r)
    {
      hide ParseValue;
      var values: seq<ReadValue> := [];
      var i := 0;
      if ParseValues(order, data, pos, format, single, count).Ok? {
        assert values + ParseValues(order, data, pos, format, single, count).value.value
            == ParseValues(order, data, pos, format, single, count).value.value;
      }
      while i < count
        invariant 0 <= i <= count && old(pos) <= pos <= |data|
        invariant ParseValues(order, data, old(pos), format, single, count)
               == Prepend(values, ParseValues(order, data, pos, format, single, count - i))
      {
        ghost var start := pos;
        var v := TakeValue(format, single);
        if v.Err? {
          return Err(v.error);
        }
        ghost var rest := ParseValues(order, data, pos, format, single, count - i - 1);
        if rest.Ok? {
          assert values + ([v.value] + rest.value.value) == values + [v.value] + rest.value.value;
        }
        values := values + [v.value];
        i := i + 1;
      }
      assert values + [] == values;
      return Ok(values);
    }

    /** `parseRead` */
    method TakeRead(format: u64, max: nat) returns (r: Result<ReadSet, SampleError>)
      requires pos <= |data|
      modifies this
      ensures Follows(ParseRead(order, data, old(pos), format, max), r)
    {
      hide Has, Optional64, ParseValues;
      if format >= 32 {
        return Err(Unsupported);
      }
      var group := Has(format, FORMAT_GROUP);
      var count: nat := 1;
      var head := TakeOptional(group);
      if head.Err? {
        return Err(head.error);
      }
      if group {
        count := head.value.value;
      }
      if count > max || count > (|data| - pos) / 8 {
        return Err(Limit);
      }
      var first := TakeOptional(!group);
      if first.Err? {
        return Err(first.error);
      }
      var enabled := TakeOptional(Has(format, FORMAT_TIME_ENABLED));
      if enabled.Err? {
        return Err(enabled.error);
      }
      var running := TakeOptional(Has(format, FORMAT_TIME_RUNNING));
      if running.Err? {
        return Err(running.error);
      }
      var values := TakeValues(format, if group then 0 else first.value.value, count);
      if values.Err? {
        return Err(values.error);
      }
      return Ok(ReadSet(enabled.value, running.value, values.value));
    }

    method TakeCallchain(max: nat) returns (r: Result<seq<u64>, SampleError>)
      requires pos <= |data|
      modifies this
      ensures match ParseCallchain(order, data, old(pos), true, max)
              case Err(e) => r == Err(e)
              case Ok(c) => r == Ok(c.value.value) && pos == c.pos
    {
      var count := TakeU64();
      if count.Err? {
        return Err(count.error);
      }
      if count.value > max || count.value > (|data| - pos) / 8 {
        return Err(Limit);
      }
      ghost var start := pos;
      var chain: seq<u64> := [];
      var i := 0;
      while i < count.value
        invariant 0 <= i <= count.value && pos == start + 8 * i <= |data|
        invariant start + 8 * count.value <= |data|
        invariant Numbers(order, data, start, count.value) == chain + Numbers(order, data, pos, count.value - i)
      {
        var v := TakeU64();
        ghost var rest := Numbers(order, data, pos, count.value - i - 1);
        assert chain + ([v.value] + rest) == chain + [v.value] + rest;
        chain := chain + [v.value];
        i := i + 1;
      }
      assert chain + [] == chain;
      return Ok(chain);
    }

    method TakeRaw() returns (r: Result<Bytes, SampleError>)
      requires pos <= |data|
      modifies this
      ensures match ParseRaw(order, data, old(pos), true)
              case Err(e) => r == Err(e)
              case Ok(c) => r == Ok(c.value.value) && pos == c.pos
    {
      if |data| - pos < 4 {
        return Err(Truncated);
      }
      var size := Get(order, data[pos..pos + 4]);
      pos := pos + 4;
      if size > |data| - pos {
        return Err(Truncated);
      }
      var raw := data[pos..pos + size];
      pos := pos + size;
      pos := (pos + 7) / 8 * 8;
      if pos > |data| {
        return Err(Truncated);
      }
      return Ok(raw);
    }
  }

  /** `parseSample` */
  method TakeSample(order: ByteOrder, data: Bytes, sampleType: u64, format: u64, limits: SampleLimits)
    returns (r: Result<Sample, SampleError>)
    requires |data| >= 8
    ensures r == ParseSample(order, data, sampleType, format, limits)
  {
    hide Has, ParseWords, ParseRead, U64, Clear, WordCount;
    var c := new WireCursor(data, order, 8);
    var words := c.TakeWords(sampleType, FIXED);
    if words.Err? {
      return Err(words.error);
    }
    var read: Option<ReadSet> := None;
    if Has(sampleType, SAMPLE_READ) {
      var taken := c.TakeRead(format, limits.maxReadValues);
      if taken.Err? {
        return Err(taken.error);
      }
      read := Some(taken.value);
    }
    var chain: Option<seq<u64>> := None;
    if Has(sampleType, SAMPLE_CALLCHAIN) {
      var taken := c.TakeCallchain(limits.maxCallchain);
      if taken.Err? {
        return Err(taken.error);
      }
      chain := Some(taken.value);
    }
    var raw: Option<Bytes> := None;
    if Has(sampleType, SAMPLE_RAW) {
      var taken := c.TakeRaw();
      if taken.Err? {
        return Err(taken.error);
      }
      raw := Some(taken.value);
    }
    return Ok(Sample(words.value, read, chain, raw, Clear(sampleType, SUPPORTED), data[c.pos..]));
  }
}
