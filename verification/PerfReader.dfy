/** The metadata state of a perf.data reader: its clock, its event descriptors and
    the layout that every record suffix must share. */
module PerfReader {
  import opened Wire
  import opened Clock
  import opened Samples

  /** The fields that the reader compares; `rest` stands for all it only compares. */
  datatype Attr = Attr(sampleType: u64, readFormat: u64, sampleIdAll: bool, useClockId: bool, clockId: int, rest: Bytes)

  datatype Desc = Desc(attr: Attr, name: Bytes, ids: seq<u64>)

  datatype ClockInfo = ClockInfo(
    idKnown: bool, id: int, domain: Domain, dataVersion: nat, epochOffset: i64, epochOffsetKnown: bool)

  datatype PerfError = ErrInvalid | ErrLimit | ErrTruncated | ErrUnknownId

  /** Everything but the clock ID, which is compared on its own. */
  predicate Compatible(a: Attr, b: Attr) {
    a == b.(clockId := a.clockId)
  }

  /** The bits that a record suffix carries, in wire order. */
  const SUFFIX: seq<u64> := [SAMPLE_TID, SAMPLE_TIME, SAMPLE_ID, SAMPLE_STREAM_ID, SAMPLE_CPU, SAMPLE_IDENTIFIER]

  /** TID, TIME, ID, STREAM_ID, CPU, IDENTIFIER: the suffix in the order of the
      perf ABI. */
  function SuffixBytes(mask: u64, words: map<u64, Bytes>): Bytes {
    Word(mask, 0x2, words)
    + (Word(mask, 0x4, words) + (Word(mask, 0x40, words) + (Word(mask, 0x200, words) + (Word(mask, 0x80, words) + Word(mask, 0x1_0000, words)))))
  }

  function SuffixBits(mask: u64): set<u64> {
    set b | b in {0x2, 0x4, 0x40, 0x200, 0x80, 0x1_0000} && Has(mask, b)
  }

  lemma SuffixInOrder(mask: u64, words: map<u64, Bytes>)
    requires words.Keys == SuffixBits(mask) && forall b :: b in words ==> |words[b]| == 8
    ensures WordsFit(mask, SUFFIX, words) && WordBytes(mask, SUFFIX, words) == SuffixBytes(mask, words)
    ensures Selected(mask, SUFFIX) == SuffixBits(mask)
  {
    hide Has, WordBytes, Word;
    assert words.Keys == Selected(mask, SUFFIX);
    WordsUnfold(mask, SUFFIX, words);
    assert SUFFIX[0..] == SUFFIX && SUFFIX[6..] == [];
    NoBits(mask, words);
    assert Word(mask, 0x1_0000, words) + [] == Word(mask, 0x1_0000, words);
    assert WordBytes(mask, SUFFIX[5..], words) == Word(mask, 0x1_0000, words);
    assert WordBytes(mask, SUFFIX[4..], words) == Word(mask, 0x80, words) + WordBytes(mask, SUFFIX[5..], words);
    assert WordBytes(mask, SUFFIX[3..], words) == Word(mask, 0x200, words) + WordBytes(mask, SUFFIX[4..], words);
    assert WordBytes(mask, SUFFIX[2..], words) == Word(mask, 0x40, words) + WordBytes(mask, SUFFIX[3..], words);
    assert WordBytes(mask, SUFFIX[1..], words) == Word(mask, 0x4, words) + WordBytes(mask, SUFFIX[2..], words);
  }

  /** `mask & suffix bits` */
  function SuffixOf(attr: Attr): set<u64> { Selected(attr.sampleType, SUFFIX) }

  function LinuxClock(id: int): Domain {
    if id == 0 then ClockRealtime
    else if id == 1 then ClockMonotonic
    else if id == 7 then ClockBoot
    else if id == 11 then ClockTAI
    else ClockUnknown
  }

  /** IDs and descriptors are inverse to each other, so that no ID belongs to two
      descriptors or to one of them twice. */
  ghost predicate Inverse(attrs: seq<Desc>, byId: map<u64, nat>) {
    && (forall id :: id in byId ==> byId[id] < |attrs| && id in attrs[byId[id]].ids)
    && (forall d, k :: 0 <= d < |attrs| && 0 <= k < |attrs[d].ids| ==> attrs[d].ids[k] in byId && byId[attrs[d].ids[k]] == d)
    && (forall d :: 0 <= d < |attrs| ==> Distinct(attrs[d].ids))
  }

  lemma CompatibleFields(a: Attr, b: Attr)
    ensures Compatible(a, b) <==>
      && a.sampleType == b.sampleType && a.readFormat == b.readFormat && a.sampleIdAll == b.sampleIdAll
      && a.useClockId == b.useClockId && a.rest == b.rest
  {
  }

  lemma CompatibleSelf(attr: Attr)
    ensures Compatible(attr, attr)
  {
  }

  function IdSet(ids: seq<u64>): set<u64> { set id | id in ids }

  lemma InIdSet(ids: seq<u64>)
    ensures forall id :: id in ids <==> id in IdSet(ids)
  {
  }

  lemma EmptyIds(ids: seq<u64>)
    ensures IdSet(ids[..0]) == {}
  {
  }

  lemma IdSetNext(ids: seq<u64>, i: nat)
    requires i < |ids|
    ensures IdSet(ids[..i + 1]) == IdSet(ids[..i]) + {ids[i]}
    ensures ids[i] in IdSet(ids) && IdSet(ids[..i]) <= IdSet(ids)
  {
    assert ids[..i + 1] == ids[..i] + [ids[i]];
  }

  predicate KnownIn(byId: map<u64, nat>, ids: seq<u64>) {
    exists k :: 0 <= k < |ids| && ids[k] in byId
  }

  /** The IDs seen before lead to one descriptor, `at`, with the same attribute. */
  predicate Meets(attrs: seq<Desc>, byId: map<u64, nat>, attr: Attr, ids: seq<u64>, at: nat) {
    && at < |attrs|
    && forall k :: 0 <= k < |ids| && ids[k] in byId ==> byId[ids[k]] == at && Compatible(attrs[at].attr, attr)
  }

  predicate Nameable(attrs: seq<Desc>, at: nat, name: Bytes) {
    at < |attrs| && (name == [] || attrs[at].name in {[], name})
  }

  lemma MeetsOne(attrs: seq<Desc>, byId: map<u64, nat>, attr: Attr, ids: seq<u64>, at: nat)
    requires KnownIn(byId, ids) && Meets(attrs, byId, attr, ids, at)
    ensures forall other: nat :: Meets(attrs, byId, attr, ids, other) ==> other == at
    ensures forall k :: 0 <= k < |ids| && ids[k] in byId ==> byId[ids[k]] == at
  {
  }

  function WithId(attrs: seq<Desc>, at: nat, id: u64): seq<Desc>
    requires at < |attrs|
  {
    attrs[at := attrs[at].(ids := attrs[at].ids + [id])]
  }

  /** The map with `ids` added, new ones going to `at`. */
  predicate Assigned(before: map<u64, nat>, after: map<u64, nat>, ids: set<u64>, at: nat) {
    && after.Keys == before.Keys + ids
    && forall id :: id in after ==> after[id] == if id in before then before[id] else at
  }

  /** What was found is found as before, and nothing new but `ids` is. */
  predicate Grew(before: map<u64, nat>, after: map<u64, nat>, ids: seq<u64>) {
    && (forall id :: id in before ==> id in after && after[id] == before[id])
    && (forall id :: id in after ==> id in before || id in ids)
  }

  lemma AssignedGrew(before: map<u64, nat>, after: map<u64, nat>, ids: seq<u64>, n: nat, at: nat)
    requires n <= |ids| && Assigned(before, after, IdSet(ids[..n]), at)
    ensures Grew(before, after, ids)
  {
  }

  lemma GrewNothing(byId: map<u64, nat>, ids: seq<u64>)
    ensures Grew(byId, byId, ids)
  {
  }

  lemma NoneAssigned(byId: map<u64, nat>, ids: seq<u64>, at: nat)
    ensures Assigned(byId, byId, IdSet(ids[..0]), at)
  {
    EmptyIds(ids);
  }

  lemma AssignedNext(before: map<u64, nat>, after: map<u64, nat>, ids: seq<u64>, i: nat, at: nat)
    requires i < |ids| && Assigned(before, after, IdSet(ids[..i]), at)
    requires forall k :: 0 <= k < |ids| && ids[k] in before ==> before[ids[k]] == at
    ensures ids[i] in after ==> after[ids[i]] == at
    ensures Assigned(before, after[ids[i] := at], IdSet(ids[..i + 1]), at)
  {
    IdSetNext(ids, i);
    hide IdSet;
  }

  lemma AssignedKeys(before: map<u64, nat>, after: map<u64, nat>, ids: seq<u64>, at: nat)
    requires Assigned(before, after, IdSet(ids), at)
    ensures |after| == |before.Keys + IdSet(ids)|
  {
    assert |after| == |after.Keys|;
  }

  lemma AssignedAll(before: map<u64, nat>, after: map<u64, nat>, ids: seq<u64>, at: nat)
    requires Assigned(before, after, IdSet(ids), at) && forall k :: 0 <= k < |ids| && ids[k] in before ==> before[ids[k]] == at
    ensures forall id :: id in ids ==> id in after && after[id] == at
  {
    InIdSet(ids);
  }

  lemma TooMany(before: map<u64, nat>, after: map<u64, nat>, ids: seq<u64>, i: nat, at: nat)
    requires i < |ids| && Assigned(before, after, IdSet(ids[..i]), at) && ids[i] !in after
    ensures |before.Keys + IdSet(ids)| > |after|
  {
    IdSetNext(ids, i);
    hide IdSet;
    SubsetSize(after.Keys + {ids[i]}, before.Keys + IdSet(ids));
  }

  /** Attributes, names and the IDs of other descriptors stay. */
  predicate SameBut(before: seq<Desc>, after: seq<Desc>, at: nat) {
    |after| == |before| && forall d :: 0 <= d < |after| ==>
      after[d].attr == before[d].attr && after[d].name == before[d].name && (d != at ==> after[d].ids == before[d].ids)
  }

  lemma SameButAgain(a: seq<Desc>, b: seq<Desc>, c: seq<Desc>, at: nat)
    requires SameBut(a, b, at) && SameBut(b, c, at)
    ensures SameBut(a, c, at)
  {
  }

  lemma SameAll(a: seq<Desc>, at: nat)
    ensures SameBut(a, a, at)
  {
  }

  lemma InverseAdd(attrs: seq<Desc>, byId: map<u64, nat>, at: nat, id: u64)
    requires Inverse(attrs, byId) && at < |attrs| && (id in byId ==> byId[id] == at)
    ensures id in attrs[at].ids <==> id in byId
    ensures id in byId ==> byId[id := at] == byId
    ensures id !in byId ==> Inverse(WithId(attrs, at, id), byId[id := at])
  {
    if id !in byId {
      var more, ids := WithId(attrs, at, id), byId[id := at];
      forall x | x in ids ensures ids[x] < |more| && x in more[ids[x]].ids {
      }
      forall d, k | 0 <= d < |more| && 0 <= k < |more[d].ids| ensures more[d].ids[k] in ids && ids[more[d].ids[k]] == d {
        if d != at || k < |attrs[at].ids| {
          assert more[d].ids[k] == attrs[d].ids[k];
        }
      }
    }
  }

  /** What an index says of descriptors does not depend on their names, and a new
      descriptor starts without IDs. */
  lemma InverseRename(attrs: seq<Desc>, byId: map<u64, nat>, at: nat, name: Bytes)
    requires Inverse(attrs, byId) && at < |attrs|
    ensures Inverse(attrs[at := attrs[at].(name := name)], byId)
  {
  }

  lemma InverseExtend(attrs: seq<Desc>, byId: map<u64, nat>, attr: Attr, name: Bytes)
    requires Inverse(attrs, byId)
    ensures Inverse(attrs + [Desc(attr, name, [])], byId)
  {
  }

  /** Where a suffix starts and the sample bits that lay it out. */
  datatype SuffixLayout = SuffixLayout(start: nat, bits: set<u64>)

  function SizeOf(bits: set<u64>, order: seq<u64>): nat {
    if order == [] then 0 else (if order[0] in bits then 8 else 0) + SizeOf(bits, order[1..])
  }

  class Reader {
    const order: ByteOrder
    const maxAttrs: nat
    const maxIds: nat
    var clock: ClockInfo
    var attrs: seq<Desc>
    /** Descriptor of each ID, as an index into `attrs`. */
    var byId: map<u64, nat>
    var layoutSet: bool
    var sampleIdOffset: int
    var suffixLayoutSet: bool
    var suffixMask: set<u64>
    var suffixIdAll: bool
    var sampleIdAll: bool
    var noSampleIdAll: bool

    ghost predicate Valid()
      reads this
    {
      Indexed() && Layout() && |byId| <= maxIds
    }

    ghost predicate Indexed()
      reads this`attrs, this`byId
    {
      Inverse(attrs, byId)
    }

    /** Every accepted attribute agrees with the layout of the whole file. */
    ghost predicate Layout()
      reads this`attrs, this`layoutSet, this`sampleIdOffset, this`suffixLayoutSet, this`suffixMask, this`suffixIdAll,
        this`sampleIdAll, this`noSampleIdAll
    {
      && (attrs != [] ==> layoutSet && (suffixLayoutSet || noSampleIdAll))
      && !(suffixLayoutSet && noSampleIdAll)
      && sampleIdAll == suffixLayoutSet
      && (suffixLayoutSet ==> suffixIdAll == (SAMPLE_IDENTIFIER in suffixMask))
      && (forall d :: 0 <= d < |attrs| ==> Agrees(attrs[d].attr))
    }

    ghost predicate Agrees(attr: Attr)
      reads this`sampleIdOffset, this`suffixLayoutSet, this`suffixMask, this`suffixIdAll
    {
      && LookupOffset(attr.sampleType) == sampleIdOffset
      && attr.sampleIdAll == suffixLayoutSet
      && (suffixLayoutSet ==>
           if suffixIdAll then SAMPLE_IDENTIFIER in SuffixOf(attr) else SuffixOf(attr) == suffixMask)
    }

    constructor (order: ByteOrder, maxAttrs: nat, maxIds: nat)
      ensures Valid() && attrs == [] && byId == map[] && !layoutSet && !suffixLayoutSet && !noSampleIdAll && !clock.idKnown
      ensures this.order == order && this.maxAttrs == maxAttrs && this.maxIds == maxIds
    {
      this.order, this.maxAttrs, this.maxIds := order, maxAttrs, maxIds;
      clock := ClockInfo(false, 0, ClockUnknown, 0, 0, false);
      attrs, byId := [], map[];
      layoutSet, sampleIdOffset := false, 0;
      suffixLayoutSet, suffixMask, suffixIdAll, sampleIdAll, noSampleIdAll := false, {}, false, false, false;
    }

    // ------------------------------------------------------------------ clock

    function Stamp(ns: u64): Timestamp
      reads this
    {
      Timestamp(ns, clock.domain, clock.epochOffset, clock.epochOffsetKnown)
    }

    /** A timestamp of this reader keeps the reading and names the reader's clock, so
        that two of them compare as their readings do. */
    lemma StampsCompare(a: u64, b: u64)
      ensures Stamp(a).nanoseconds == a && Stamp(a).domain == clock.domain
      ensures Compare(Stamp(a), Stamp(b)) == Some(if a < b then -1 else if a > b then 1 else 0)
    {
      CompareSame(Stamp(a), Stamp(b));
    }

    method SetClockId(id: int)
      modifies this`clock
      ensures clock.idKnown && clock.id == id && clock.domain == LinuxClock(id) && clock.dataVersion == old(clock.dataVersion)
      ensures id == 0 <==> clock.domain == ClockRealtime
      ensures id == 1 <==> clock.domain == ClockMonotonic
      ensures id == 7 <==> clock.domain == ClockBoot
      ensures id == 11 <==> clock.domain == ClockTAI
      ensures if id == 0 && clock.dataVersion == 0 then clock.epochOffset == 0 && clock.epochOffsetKnown
              else clock.epochOffset == old(clock.epochOffset) && clock.epochOffsetKnown == old(clock.epochOffsetKnown)
    {
      clock := clock.(id := id, idKnown := true, domain := LinuxClock(id));
      if id == 0 && clock.dataVersion == 0 {
        clock := clock.(epochOffset := 0, epochOffsetKnown := true);
      }
    }

    /** `parseClockData` on the decoded fields: from then on a timestamp converts
        exactly by the measured difference, or is reported unavailable. */
    method ParseClockData(version: u32, id: int, wall: u64, clockTime: u64) returns (err: Option<PerfError>)
      modifies this`clock
      ensures err == if version < 1 || (old(clock.idKnown) && old(clock.id) != id) then Some(ErrInvalid) else None
      ensures err.Some? ==> unchanged(this)
      ensures err.None? ==> clock.idKnown && clock.id == id
      ensures err.None? ==> forall ns: u64 ::
        UnixNano(Stamp(ns))
        == if InInt64(wall - clockTime) && InInt64(ns + wall - clockTime) then Some(ns + wall - clockTime) else None
    {
      if version < 1 {
        return Some(ErrInvalid);
      }
      if clock.idKnown && clock.id != id {
        return Some(ErrInvalid);
      }
      clock := clock.(dataVersion := version);
      SetClockId(id);
      var difference := SignedDifference(wall, clockTime);
      SignedDifferenceExact(wall, clockTime);
      if difference.Some? {
        clock := clock.(epochOffset := difference.value, epochOffsetKnown := true);
      } else {
        clock := clock.(epochOffsetKnown := false);
      }
      forall ns: u64 ensures UnixNano(Stamp(ns))
        == if InInt64(wall - clockTime) && InInt64(ns + wall - clockTime) then Some(ns + wall - clockTime) else None
      {
        UnixNanoExact(Stamp(ns));
      }
      return None;
    }

    // ------------------------------------------------------------ descriptors

    /** The clock and layout checks that open `addDescriptor`. */
    ghost predicate LayoutAccepts(attr: Attr)
      reads this
    {
      && (attr.useClockId && clock.idKnown ==> clock.id == attr.clockId)
      && (layoutSet ==> sampleIdOffset == LookupOffset(attr.sampleType))
      && SuffixAccepts(attr)
    }

    ghost predicate SuffixAccepts(attr: Attr)
      reads this
    {
      if attr.sampleIdAll
      then !noSampleIdAll
           && (suffixLayoutSet && suffixMask != SuffixOf(attr) ==> suffixIdAll && SAMPLE_IDENTIFIER in SuffixOf(attr))
      else !suffixLayoutSet
    }

    ghost predicate Accepts(attr: Attr, name: Bytes, ids: seq<u64>)
      reads this
    {
      && LayoutAccepts(attr)
      && (if KnownIn(byId, ids)
          then exists at: nat :: Meets(attrs, byId, attr, ids, at) && Nameable(attrs, at, name)
          else |attrs| < maxAttrs)
      && |byId.Keys + IdSet(ids)| <= maxIds
    }

    method CheckLayout(attr: Attr) returns (err: Option<PerfError>)
      requires Valid()
      modifies this`clock, this`layoutSet, this`sampleIdOffset, this`suffixLayoutSet, this`suffixMask, this`suffixIdAll,
        this`sampleIdAll, this`noSampleIdAll
      ensures Valid()
      ensures err.None? <==> old(LayoutAccepts(attr))
      ensures err.None? ==> layoutSet && (suffixLayoutSet || noSampleIdAll) && Agrees(attr)
    {
      hide LookupOffset, Indexed, SuffixOf, Layout, Agrees;
      if attr.useClockId {
        if clock.idKnown && clock.id != attr.clockId {
          return Some(ErrInvalid);
        }
        if !clock.idKnown {
          SetClockId(attr.clockId);
        }
      }
      err := CheckOffset(attr);
      if err.Some? {
        return;
      }
      err := CheckSuffix(attr);
    }

    method CheckOffset(attr: Attr) returns (err: Option<PerfError>)
      requires Valid()
      modifies this`layoutSet, this`sampleIdOffset
      ensures Valid()
      ensures err.None? <==> old(layoutSet ==> sampleIdOffset == LookupOffset(attr.sampleType))
      ensures err.None? ==> layoutSet && sampleIdOffset == LookupOffset(attr.sampleType)
    {
      hide LookupOffset, Indexed, SuffixOf;
      var offset := LookupOffset(attr.sampleType);
      if !layoutSet {
        layoutSet, sampleIdOffset := true, offset;
      } else if sampleIdOffset != offset {
        return Some(ErrInvalid);
      }
      return None;
    }

    /** No record suffix may become ambiguous. */
    method CheckSuffix(attr: Attr) returns (err: Option<PerfError>)
      requires Valid() && layoutSet && sampleIdOffset == LookupOffset(attr.sampleType)
      modifies this`suffixLayoutSet, this`suffixMask, this`suffixIdAll, this`sampleIdAll, this`noSampleIdAll
      ensures Valid()
      ensures err.None? <==> old(SuffixAccepts(attr))
      ensures err.None? ==> (suffixLayoutSet || noSampleIdAll) && Agrees(attr)
    {
      hide LookupOffset, Indexed, SuffixOf;
      var suffix := SuffixOf(attr);
      if attr.sampleIdAll {
        if noSampleIdAll {
          return Some(ErrInvalid);
        }
        var hasIdentifier := SAMPLE_IDENTIFIER in suffix;
        if suffixLayoutSet {
          if suffixMask != suffix {
            if !suffixIdAll || !hasIdentifier {
              return Some(ErrInvalid);
            }
          }
          suffixIdAll := suffixIdAll && hasIdentifier;
        } else {
          suffixIdAll := hasIdentifier;
        }
        suffixLayoutSet, suffixMask, sampleIdAll := true, suffix, true;
      } else {
        if suffixLayoutSet {
          return Some(ErrInvalid);
        }
        noSampleIdAll := true;
      }
      return None;
    }
  
    /** The descriptor that the known IDs lead to. */
    method FindExisting(attr: Attr, ids: seq<u64>) returns (r: Result<Option<nat>, PerfError>)
      requires Valid()
      ensures r.Ok? && r.value.None? ==> !KnownIn(byId, ids)
      ensures r.Ok? && r.value.Some? ==> KnownIn(byId, ids) && Meets(attrs, byId, attr, ids, r.value.value)
      ensures r.Err? ==> KnownIn(byId, ids) && forall at: nat :: !Meets(attrs, byId, attr, ids, at)
    {
      hide Layout, Compatible;
      var existing: Option<nat> := None;
      var i := 0;
      while i < |ids|
        invariant 0 <= i <= |ids|
        invariant existing.None? ==> forall k :: 0 <= k < i ==> ids[k] !in byId
        invariant existing.Some? ==>
          && existing.value < |attrs| && (exists k :: 0 <= k < i && ids[k] in byId && byId[ids[k]] == existing.value)
          && forall k :: 0 <= k < i && ids[k] in byId ==> byId[ids[k]] == existing.value && Compatible(attrs[existing.value].attr, attr)
      {
        if ids[i] in byId {
          var d := byId[ids[i]];
          if !Compatible(attrs[d].attr, attr) {
            return Err(ErrInvalid);
          }
          if existing.Some? && existing.value != d {
            return Err(ErrInvalid);
          }
          existing := Some(d);
        }
        i := i + 1;
      }
      return Ok(existing);
    }

    /** IDs are no part of the layout. */
    twostate lemma KeepsLayout()
      requires old(Layout()) && exists at: nat :: SameBut(old(attrs), attrs, at)
      requires layoutSet == old(layoutSet) && sampleIdOffset == old(sampleIdOffset) && suffixLayoutSet == old(suffixLayoutSet)
      requires suffixMask == old(suffixMask) && suffixIdAll == old(suffixIdAll) && sampleIdAll == old(sampleIdAll)
      requires noSampleIdAll == old(noSampleIdAll)
      ensures Layout()
    {
    }

    /** One ID goes to descriptor `at`, unless the limit is reached. */
    method AddId(at: nat, id: u64) returns (ok: bool)
      requires Indexed() && at < |attrs| && |byId| <= maxIds && (id in byId ==> byId[id] == at)
      modifies this`attrs, this`byId
      ensures Indexed() && |byId| <= maxIds
      ensures SameBut(old(attrs), attrs, at) && |attrs| == |old(attrs)|
      ensures byId == if ok then old(byId)[id := at] else old(byId)
      ensures ok <==> old(id in byId || |byId| < maxIds)
    {
      hide Compatible, Inverse;
      InverseAdd(attrs, byId, at, id);
      if id !in attrs[at].ids {
        if |byId| >= maxIds {
          return false;
        }
        attrs := WithId(attrs, at, id);
      }
      byId := byId[id := at];
      return true;
    }

    /** The IDs go to descriptor `at`, without duplicates, up to the limit. */
    method AddIds(at: nat, ids: seq<u64>) returns (err: Option<PerfError>)
      requires Valid() && at < |attrs|
      requires forall k :: 0 <= k < |ids| && ids[k] in byId ==> byId[ids[k]] == at
      modifies this`attrs, this`byId
      ensures Valid()
      ensures SameBut(old(attrs), attrs, at)
      ensures Grew(old(byId), byId, ids)
      ensures err.None? ==> Assigned(old(byId), byId, IdSet(ids), at)
      ensures err.None? <==> |old(byId).Keys + IdSet(ids)| <= maxIds
    {
      hide Layout, Inverse, IdSet, SameBut, Assigned, Grew;
      SameAll(attrs, at);
      NoneAssigned(byId, ids, at);
      var i := 0;
      while i < |ids|
        invariant 0 <= i <= |ids|
        invariant Indexed() && |byId| <= maxIds && SameBut(old(attrs), attrs, at) && at < |attrs|
        invariant Assigned(old(byId), byId, IdSet(ids[..i]), at)
      {
        ghost var before, known := attrs, byId;
        AssignedNext(old(byId), byId, ids, i, at);
        var ok := AddId(at, ids[i]);
        SameButAgain(old(attrs), before, attrs, at);
        if !ok {
          KeepsLayout();
          TooMany(old(byId), byId, ids, i, at);
          AssignedGrew(old(byId), byId, ids, i, at);
          return Some(ErrLimit);
        }
        i := i + 1;
      }
      KeepsLayout();
      AssignedGrew(old(byId), byId, ids, i, at);
      assert ids[..i] == ids;
      AssignedKeys(old(byId), byId, ids, at);
      return None;
    }

    /** Descriptor `at` carries this attribute and name, and all the IDs. */
    ghost predicate Describes(at: nat, attr: Attr, name: Bytes, ids: seq<u64>)
      reads this`attrs, this`byId
    {
      && at < |attrs| && Compatible(attrs[at].attr, attr) && (name != [] ==> attrs[at].name == name)
      && forall id :: id in ids ==> id in byId && byId[id] == at
    }

    method Append(attr: Attr, name: Bytes)
      requires Valid() && layoutSet && (suffixLayoutSet || noSampleIdAll) && Agrees(attr)
      modifies this`attrs
      ensures Valid() && attrs == old(attrs) + [Desc(attr, name, [])]
    {
      hide Agrees, Inverse;
      InverseExtend(attrs, byId, attr, name);
      attrs := attrs + [Desc(attr, name, [])];
    }

    method Rename(at: nat, name: Bytes)
      requires Valid() && at < |attrs|
      modifies this`attrs
      ensures Valid() && attrs == old(attrs)[at := old(attrs)[at].(name := name)]
    {
      hide Agrees, Inverse;
      InverseRename(attrs, byId, at, name);
      attrs := attrs[at := attrs[at].(name := name)];
    }

    /** The descriptor that the IDs go to: the one they already lead to, or a new one. */
    method Place(attr: Attr, name: Bytes, ghost ids: seq<u64>, existing: Option<nat>) returns (r: Result<nat, PerfError>)
      requires Valid() && layoutSet && (suffixLayoutSet || noSampleIdAll) && Agrees(attr)
      requires if existing.Some? then KnownIn(byId, ids) && Meets(attrs, byId, attr, ids, existing.value) else !KnownIn(byId, ids)
      modifies this`attrs
      ensures Valid()
      ensures r.Ok? <==> if existing.None? then |old(attrs)| < maxAttrs else Nameable(old(attrs), existing.value, name)
      ensures r.Err? ==> attrs == old(attrs)
      ensures r.Ok? ==>
        && r.value < |attrs| && Compatible(attrs[r.value].attr, attr) && (name != [] ==> attrs[r.value].name == name)
        && (existing.Some? ==> r.value == existing.value)
      ensures |old(attrs)| <= |attrs| && forall d :: 0 <= d < |old(attrs)| ==> attrs[d].attr == old(attrs)[d].attr
    {
      hide Inverse, Agrees, Layout, Compatible;
      CompatibleSelf(attr);
      if existing.None? {
        if |attrs| >= maxAttrs {
          return Err(ErrLimit);
        }
        r := Ok(|attrs|);
        Append(attr, name);
      } else {
        var at := existing.value;
        if name != [] {
          if attrs[at].name != [] && attrs[at].name != name {
            return Err(ErrInvalid);
          }
          Rename(at, name);
        }
        r := Ok(at);
      }
    }

    /** `addDescriptor`: accepted exactly when the attribute agrees with the file's
        layout and its IDs with one descriptor, within the limits. */
    method AddDescriptor(attr: Attr, name: Bytes, ids: seq<u64>) returns (err: Option<PerfError>)
      requires Valid()
      modifies this
      ensures Valid()
      ensures err.None? <==> old(Accepts(attr, name, ids))
      // what was found by ID is found as before, and nothing else is
      ensures Grew(old(byId), byId, ids)
      ensures |old(attrs)| <= |attrs| && forall d :: 0 <= d < |old(attrs)| ==> attrs[d].attr == old(attrs)[d].attr
      // all the IDs lead to one descriptor that carries this attribute
      ensures err.None? ==> exists at: nat :: Describes(at, attr, name, ids)
    {
      hide Layout, Inverse, Agrees, LayoutAccepts, Compatible, Meets, Nameable, Grew, Assigned;
      GrewNothing(byId, ids);
      err := CheckLayout(attr);
      if err.Some? {
        return;
      }
      var existing := FindExisting(attr, ids);
      if existing.Err? {
        return Some(existing.error);
      }
      if existing.value.Some? {
        MeetsOne(attrs, byId, attr, ids, existing.value.value);
      }
      var at := Place(attr, name, ids, existing.value);
      if at.Err? {
        return Some(at.error);
      }
      err := AddIds(at.value, ids);
      if err.None? {
        AssignedAll(old(byId), byId, ids, at.value);
        assert Describes(at.value, attr, name, ids);
      }
    }

    // ----------------------------------------------------------------- samples

    /** How `decodeSample` finds the descriptor, before it knows the layout. */
    function LookupSample(raw: Bytes): Result<nat, PerfError>
      reads this
    {
      if sampleIdOffset < 0 || sampleIdOffset + 8 > |raw| then Err(ErrUnknownId)
      else
        var id := Get(order, raw[sampleIdOffset..sampleIdOffset + 8]);
        if id !in byId then Err(ErrUnknownId) else Ok(byId[id])
    }

    /** The eight bytes are an ID of descriptor `d`. */
    ghost predicate Owns(d: nat, word: Bytes)
      reads this
    {
      d < |attrs| && Get(order, word) in attrs[d].ids
    }

    ghost predicate Owned(word: Bytes)
      reads this
    {
      exists d: nat :: Owns(d, word)
    }

    lemma OwnerFound(word: Bytes)
      requires Valid()
      ensures Owned(word) <==> Get(order, word) in byId
      ensures forall d: nat :: Owns(d, word) <==> Get(order, word) in byId && d == byId[Get(order, word)]
    {
      hide Layout;
      forall d: nat | Owns(d, word) ensures Get(order, word) in byId && d == byId[Get(order, word)] {
        var k :| 0 <= k < |attrs[d].ids| && attrs[d].ids[k] == Get(order, word);
      }
      if Get(order, word) in byId {
        assert Owns(byId[Get(order, word)], word);
      }
    }

    /** A sample leads to the descriptor that owns the eight bytes at the lookup
        offset, and to none if there is no such descriptor, offset or word. */
    lemma SampleOwner(raw: Bytes, d: nat)
      requires Valid()
      ensures LookupSample(raw) == Ok(d) <==>
              sampleIdOffset >= 0 && sampleIdOffset + 8 <= |raw| && Owns(d, raw[sampleIdOffset..sampleIdOffset + 8])
      ensures LookupSample(raw).Err? ==> LookupSample(raw).error == ErrUnknownId
    {
      hide Inverse, Layout;
      if sampleIdOffset >= 0 && sampleIdOffset + 8 <= |raw| {
        OwnerFound(raw[sampleIdOffset..sampleIdOffset + 8]);
      }
    }

    /** A sample written for descriptor `d` finds `d`: the eight bytes at the one
        offset that the whole file shares are the IDENTIFIER, or the ID, of the very
        layout that `d` describes. */
    lemma SampleDispatch(d: nat, raw: Bytes)
      requires Valid() && d < |attrs| && |raw| >= 8
      requires ParseWords(raw, 8, attrs[d].attr.sampleType, FIXED).Ok?
      requires var mask, words := attrs[d].attr.sampleType, ParseWords(raw, 8, attrs[d].attr.sampleType, FIXED).value;
               || (0x1_0000 in words && Get(order, words[0x1_0000]) in attrs[d].ids)
               || (0x1_0000 !in words && 0x40 in words && Get(order, words[0x40]) in attrs[d].ids)
      ensures LookupSample(raw) == Ok(d)
    {
      hide ParseWords, LookupOffset, Compatible;
      var mask := attrs[d].attr.sampleType;
      var words := ParseWords(raw, 8, mask, FIXED).value;
      ParsedKeys(raw, 8, mask, FIXED);
      LookupIsParsed(raw, mask);
      LookupExists(mask);
      assert Agrees(attrs[d].attr);
      var bit := if Has(mask, SAMPLE_IDENTIFIER) then SAMPLE_IDENTIFIER else SAMPLE_ID;
      var k :| 0 <= k < |attrs[d].ids| && attrs[d].ids[k] == Get(order, words[bit]);
      assert byId[attrs[d].ids[k]] == d;
    }

    // ---------------------------------------------------------------- suffixes

    /** `resolveSuffix` */
    function ResolveSuffix(raw: Bytes): Result<SuffixLayout, PerfError>
      requires Indexed()
      reads this
    {
      if !sampleIdAll then Ok(SuffixLayout(|raw|, {}))
      else if !suffixIdAll then Sized(raw, suffixMask)
      else if |raw| < 16 then Err(ErrTruncated)
      else
        var identifier := Get(order, raw[|raw| - 8..]);
        if identifier !in byId then Err(ErrUnknownId)
        else
          var attr := attrs[byId[identifier]].attr;
          if !attr.sampleIdAll || SAMPLE_IDENTIFIER !in SuffixOf(attr) then Err(ErrInvalid)
          else Sized(raw, SuffixOf(attr))
    }

    function Sized(raw: Bytes, bits: set<u64>): Result<SuffixLayout, PerfError> {
      var size := SizeOf(bits, SUFFIX);
      if |raw| - size < 8 then Err(ErrTruncated) else Ok(SuffixLayout(|raw| - size, bits))
    }

    /** A record whose suffix was written for descriptor `d`, naming one of its IDs
        when it carries IDENTIFIER, resolves to that descriptor's bits and to the
        true start, although the record itself does not say which descriptor it
        belongs to; reading the suffix gives every word back and ends exactly at the
        end of the record. */
    lemma SuffixDispatch(d: nat, body: Bytes, words: map<u64, Bytes>)
      requires Valid() && d < |attrs| && |body| >= 8
      requires attrs[d].attr.sampleIdAll
      requires words.Keys == SuffixBits(attrs[d].attr.sampleType) && forall b :: b in words ==> |words[b]| == 8
      requires 0x1_0000 in words ==> Get(order, words[0x1_0000]) in attrs[d].ids
      ensures var mask := attrs[d].attr.sampleType;
              var raw := body + SuffixBytes(mask, words);
              && ResolveSuffix(raw) == Ok(SuffixLayout(|body|, SuffixBits(mask)))
              && ParseWords(raw, |body|, mask, SUFFIX) == Ok(words)
              && |body| + 8 * WordCount(mask, SUFFIX) == |raw|
    {
      hide Has, WordBytes, SuffixBytes, ParseWords, LookupOffset, Compatible, SizeOf;
      var mask := attrs[d].attr.sampleType;
      SuffixInOrder(mask, words);
      var tail := WordBytes(mask, SUFFIX, words);
      var raw := body + tail;
      WordsIff(raw, |body|, mask, SUFFIX, words);
      assert raw[|body|..|body| + |tail|] == tail;
      SizeOfKept(mask, SUFFIX);
      assert Agrees(attrs[d].attr);
      if suffixIdAll {
        LastWord(mask, words);
        assert raw[|raw| - 8..] == tail[|tail| - 8..];
        var k :| 0 <= k < |attrs[d].ids| && attrs[d].ids[k] == Get(order, words[SAMPLE_IDENTIFIER]);
        assert byId[attrs[d].ids[k]] == d;
      }
    }

    /** In a file with suffixes: one that resolves has eight bytes for each of its
        bits and starts behind the record header, its bits are the shared ones or
        those of the descriptor that owns the last word; an unknown owner is
        reported, everything else is too short. */
    lemma SuffixResolved(raw: Bytes)
      requires Valid() && sampleIdAll
      ensures match ResolveSuffix(raw)
              case Ok(layout) =>
                && layout.start >= 8 && |raw| == layout.start + SizeOf(layout.bits, [0x2, 0x4, 0x40, 0x200, 0x80, 0x1_0000])
                && (if suffixIdAll
                    then |raw| >= 16 && exists d: nat :: Owns(d, raw[|raw| - 8..]) && layout.bits == SuffixBits(attrs[d].attr.sampleType)
                    else layout.bits == suffixMask)
              case Err(e) =>
                if suffixIdAll && |raw| >= 16 && !Owned(raw[|raw| - 8..]) then e == ErrUnknownId
                else e == ErrTruncated
    {
      hide LookupOffset, Compatible, SizeOf, Has;
      if suffixIdAll && |raw| >= 16 {
        var last := raw[|raw| - 8..];
        OwnerFound(last);
        if Get(order, last) in byId {
          var d := byId[Get(order, last)];
          assert Owns(d, last);
          assert Agrees(attrs[d].attr);
          assert SuffixOf(attrs[d].attr) == SuffixBits(attrs[d].attr.sampleType);
        }
      }
    }
  }

  lemma LookupExists(mask: u64)
    ensures LookupOffset(mask) >= 0 <==> Has(mask, SAMPLE_IDENTIFIER) || Has(mask, SAMPLE_ID)
  {
  }

  lemma {:induction false} SizeOfKept(mask: u64, bits: seq<u64>)
    ensures SizeOf(Selected(mask, bits), bits) == 8 * WordCount(mask, bits)
  {
    SizeOfSelected(mask, bits, Selected(mask, bits));
  }

  lemma {:induction false} SizeOfSelected(mask: u64, bits: seq<u64>, kept: set<u64>)
    requires forall k :: 0 <= k < |bits| ==> (bits[k] in kept <==> Has(mask, bits[k]))
    ensures SizeOf(kept, bits) == 8 * WordCount(mask, bits)
  {
    hide Has;
    if bits != [] {
      SizeOfSelected(mask, bits[1..], kept);
    }
  }

  /** IDENTIFIER stands last. */
  lemma LastWord(mask: u64, words: map<u64, Bytes>)
    requires WordsFit(mask, SUFFIX, words) && SAMPLE_IDENTIFIER in words
    ensures var tail := WordBytes(mask, SUFFIX, words);
            |tail| >= 8 && tail[|tail| - 8..] == words[SAMPLE_IDENTIFIER]
  {
    LastWordOf(mask, SUFFIX, words);
  }

  lemma {:induction false} LastWordOf(mask: u64, bits: seq<u64>, words: map<u64, Bytes>)
    requires bits != [] && Has(mask, bits[|bits| - 1])
    requires forall b :: b in Selected(mask, bits) ==> b in words && |words[b]| == 8
    ensures var tail := WordBytes(mask, bits, words);
            |tail| >= 8 && bits[|bits| - 1] in words && tail[|tail| - 8..] == words[bits[|bits| - 1]]
  {
    hide Has;
    assert bits[|bits| - 1] in Selected(mask, bits);
    if |bits| == 1 {
      assert WordBytes(mask, bits[1..], words) == [];
      assert words[bits[0]] + [] == words[bits[0]];
    } else {
      SelectedSplit(mask, bits);
      LastWordOf(mask, bits[1..], words);
    }
  }


  lemma SubsetSize(a: set<u64>, b: set<u64>)
    requires a <= b
    ensures |a| <= |b|
  {
    assert b == a + (b - a);
  }
}
