/** The stable merge of several record streams with one record of lookahead. */
module Merging {
  import opened Wire
  import opened Clock

  datatype Read = Record(stamp: Timestamp, body: Bytes) | Broken

  /** A record as the merge hands it out, with its absolute time. */
  datatype Out = Out(reader: nat, time: i64, stamp: Timestamp, body: Bytes)

  datatype Pull<+T> = Got(value: T) | Eof | Failed

  datatype MergeError = ErrLimit | ErrInvalid | ErrIncomparableClocks

  /** A reader: the buffers of a record are its own until it is advanced again. */
  class Source {
    const input: seq<Read>
    const clock: Option<i64>
    var pos: nat

    constructor (input: seq<Read>, clock: Option<i64>)
      ensures this.input == input && this.clock == clock && pos == 0
    {
      this.input, this.clock, pos := input, clock, 0;
    }

    /** An error other than the end is sticky. */
    method Advance() returns (r: Pull<Read>)
      modifies this
      ensures r == if old(pos) >= |input| then Eof else if input[old(pos)].Broken? then Failed else Got(input[old(pos)])
      ensures pos == old(pos) + if r.Got? then 1 else 0
    {
      if pos >= |input| {
        return Eof;
      }
      if input[pos].Broken? {
        return Failed;
      }
      r := Got(input[pos]);
      pos := pos + 1;
    }
  }

  function Shift(stamp: Timestamp, offset: i64): Timestamp {
    stamp.(epochOffset := offset, epochOffsetKnown := true)
  }

  predicate Timely(read: Read, offset: i64) {
    read.Record? && UnixNano(Shift(read.stamp, offset)).Some?
  }

  function OutOf(reader: nat, read: Read, offset: i64): Out
    requires Timely(read, offset)
  {
    var stamp := Shift(read.stamp, offset);
    Out(reader, UnixNano(stamp).value, stamp, read.body)
  }

  /** What is handed out has the reader's offset as its own, and its time is exactly
      the clock reading plus that offset. */
  lemma OutExact(reader: nat, stamp: Timestamp, body: Bytes, offset: i64)
    ensures Timely(Record(stamp, body), offset) <==> InInt64(stamp.nanoseconds + offset)
    ensures Timely(Record(stamp, body), offset) ==>
              OutOf(reader, Record(stamp, body), offset)
              == Out(reader, stamp.nanoseconds + offset, Timestamp(stamp.nanoseconds, stamp.domain, offset, true), body)
    ensures !Timely(Broken, offset)
  {
    UnixNanoExact(Shift(stamp, offset));
  }

  const BLANK := Out(0, 0, Timestamp(0, ClockUnknown, 0, false), [])

  /** The lookahead record has been read already. */
  function Start(pos: nat, ready: bool): nat { if ready && pos > 0 then pos - 1 else pos }

  predicate TimelyFrom(input: seq<Read>, start: nat, offset: i64) {
    forall k :: start <= k < |input| ==> Timely(input[k], offset)
  }

  function OutsFrom(reader: nat, input: seq<Read>, start: nat, offset: i64): (r: seq<Out>)
    requires start <= |input| && TimelyFrom(input, start, offset)
    ensures |r| == |input| - start
    ensures forall k :: 0 <= k < |r| ==> r[k] == OutOf(reader, input[start + k], offset)
  {
    seq(|input| - start, k requires 0 <= k < |input| - start => OutOf(reader, input[start + k], offset))
  }

  lemma PulledTimely(i: nat, stamp: Timestamp, body: Bytes, offset: i64)
    ensures Timely(Record(stamp, body), offset) <==> UnixNano(Shift(stamp, offset)).Some?
    ensures Timely(Record(stamp, body), offset) ==>
      OutOf(i, Record(stamp, body), offset) == Out(i, UnixNano(Shift(stamp, offset)).value, Shift(stamp, offset), body)
  {
  }

  lemma TailOuts(reader: nat, input: seq<Read>, start: nat, offset: i64)
    requires start < |input| && TimelyFrom(input, start, offset)
    ensures TimelyFrom(input, start + 1, offset)
    ensures OutsFrom(reader, input, start, offset) != []
    ensures OutsFrom(reader, input, start, offset)[0] == OutOf(reader, input[start], offset)
    ensures OutsFrom(reader, input, start + 1, offset) == OutsFrom(reader, input, start, offset)[1..]
  {
  }

  /** A lookahead record is the last record its reader produced, so its buffers
      are still intact; a reader is done only at its end. */
  predicate SlotFits(i: nat, input: seq<Read>, pos: nat, offset: i64, head: Out, ready: bool, done: bool) {
    && pos <= |input|
    && (done ==> pos == |input|)
    && (ready ==> pos > 0 && Timely(input[pos - 1], offset) && head == OutOf(i, input[pos - 1], offset))
  }

  // ---------------------------------------------------- the merge of sequences

  /** Earlier, or at the same time from an earlier reader. */
  predicate Before(a: Out, b: Out) {
    a.time < b.time || (a.time == b.time && a.reader < b.reader)
  }

  predicate IsLeast(rest: seq<seq<Out>>, best: nat) {
    && best < |rest| && rest[best] != []
    && forall i :: 0 <= i < |rest| && i != best && rest[i] != [] ==> Before(rest[best][0], rest[i][0])
  }

  function Total(rest: seq<seq<Out>>): nat {
    if rest == [] then 0 else Total(rest[..|rest| - 1]) + |rest[|rest| - 1]|
  }

  predicate Tagged(rest: seq<seq<Out>>) {
    forall i, k :: 0 <= i < |rest| && 0 <= k < |rest[i]| ==> rest[i][k].reader == i
  }

  /** `out` is what repeated selection of the least head gives. */
  ghost predicate Merges(rest: seq<seq<Out>>, out: seq<Out>)
    decreases |out|
  {
    if out == [] then forall i :: 0 <= i < |rest| ==> rest[i] == []
    else exists best: nat :: IsLeast(rest, best) && out[0] == rest[best][0] && Merges(rest[best := rest[best][1..]], out[1..])
  }

  function OfReader(out: seq<Out>, i: nat): seq<Out> {
    if out == [] then [] else (if out[0].reader == i then [out[0]] else []) + OfReader(out[1..], i)
  }

  predicate Sorted(s: seq<Out>) {
    forall j, k :: 0 <= j < k < |s| ==> s[j].time <= s[k].time
  }

  /** Sorted by time, ties in reader order. */
  predicate StableSorted(s: seq<Out>) {
    forall j, k :: 0 <= j < k < |s| ==> s[j].time < s[k].time || (s[j].time == s[k].time && s[j].reader <= s[k].reader)
  }

  lemma FirstPick(rest: seq<seq<Out>>, out: seq<Out>) returns (best: nat)
    requires Merges(rest, out) && out != []
    ensures IsLeast(rest, best) && best < |rest| && rest[best] != []
    ensures out[0] == rest[best][0] && Merges(rest[best := rest[best][1..]], out[1..])
  {
    best :| IsLeast(rest, best) && out[0] == rest[best][0] && Merges(rest[best := rest[best][1..]], out[1..]);
  }

  lemma TaggedNext(rest: seq<seq<Out>>, best: nat)
    requires Tagged(rest) && best < |rest| && rest[best] != []
    ensures Tagged(rest[best := rest[best][1..]]) && rest[best][0].reader == best
  {
  }

  /** A merge loses nothing, repeats nothing and keeps each reader's own order. */
  lemma {:induction false} MergeInterleaves(rest: seq<seq<Out>>, out: seq<Out>, i: nat)
    requires Merges(rest, out) && Tagged(rest) && i < |rest|
    ensures OfReader(out, i) == rest[i]
    decreases |out|
  {
    if out != [] {
      hide Merges, IsLeast, Tagged;
      var best := FirstPick(rest, out);
      TaggedNext(rest, best);
      MergeInterleaves(rest[best := rest[best][1..]], out[1..], i);
      assert rest[best] == [rest[best][0]] + rest[best][1..];
    }
  }

  lemma {:induction false} MergeMember(rest: seq<seq<Out>>, out: seq<Out>, k: nat)
    requires Merges(rest, out) && k < |out|
    ensures exists i :: 0 <= i < |rest| && out[k] in rest[i]
    decreases |out|
  {
    hide Merges, IsLeast;
    var best := FirstPick(rest, out);
    if k == 0 {
      assert out[0] in rest[best];
    } else {
      var next := rest[best := rest[best][1..]];
      MergeMember(next, out[1..], k - 1);
      var i :| 0 <= i < |next| && out[1..][k - 1] in next[i];
      assert out[k] in rest[i];
    }
  }

  /** The first record of a merge of sorted readers is the least of all. */
  lemma MergeHead(rest: seq<seq<Out>>, best: nat, rests: seq<Out>, k: nat)
    requires IsLeast(rest, best) && Tagged(rest) && Merges(rest[best := rest[best][1..]], rests) && k < |rests|
    requires forall i :: 0 <= i < |rest| ==> Sorted(rest[i])
    ensures var a, b := rest[best][0], rests[k];
            a.time < b.time || (a.time == b.time && a.reader <= b.reader)
  {
    hide Merges;
    var next := rest[best := rest[best][1..]];
    MergeMember(next, rests, k);
    var i :| 0 <= i < |next| && rests[k] in next[i];
    var at :| 0 <= at < |next[i]| && next[i][at] == rests[k];
    assert rest[i][if i == best then at + 1 else at] == rests[k];
  }

  /** Readers that are sorted by time give a sorted merge, and a stable one. */
  lemma {:induction false} MergeSorted(rest: seq<seq<Out>>, out: seq<Out>)
    requires Merges(rest, out) && Tagged(rest)
    requires forall i :: 0 <= i < |rest| ==> Sorted(rest[i])
    ensures StableSorted(out)
    decreases |out|
  {
    if out != [] {
      hide Merges;
      var best := FirstPick(rest, out);
      var next := rest[best := rest[best][1..]];
      TaggedNext(rest, best);
      MergeSorted(next, out[1..]);
      forall j, k | 0 <= j < k < |out|
        ensures out[j].time < out[k].time || (out[j].time == out[k].time && out[j].reader <= out[k].reader)
      {
        assert out[k] == out[1..][k - 1];
        if j == 0 {
          hide IsLeast, Tagged, Sorted;
          MergeHead(rest, best, out[1..], k - 1);
        } else {
          assert out[1..][j - 1] == out[j];
        }
      }
    }
  }

  /** The merge of given readers is unique. */
  lemma {:induction false} MergeUnique(rest: seq<seq<Out>>, a: seq<Out>, b: seq<Out>)
    requires Merges(rest, a) && Merges(rest, b)
    ensures a == b
    decreases |a|
  {
    if a != [] && b != [] {
      var i := FirstPick(rest, a);
      var j := FirstPick(rest, b);
      hide Merges;
      assert i == j;
      MergeUnique(rest[i := rest[i][1..]], a[1..], b[1..]);
      assert a == [a[0]] + a[1..] && b == [b[0]] + b[1..];
    }
  }

  // ------------------------------------------------------------ the merged reader

  class MergedReader {
    var readers: seq<Source>
    const offsets: seq<i64>
    var heads: seq<Out>
    var ready: seq<bool>
    var done: seq<bool>
    var closed: bool

    ghost predicate Valid()
      reads this, readers
    {
      && |offsets| >= |readers| && |heads| == |ready| == |done| == |readers| && (closed ==> readers == [])
      && (forall i, j :: 0 <= i < j < |readers| ==> readers[i] != readers[j])
      && forall i :: 0 <= i < |readers| ==>
           SlotFits(i, readers[i].input, readers[i].pos, offsets[i], heads[i], ready[i], done[i])
    }

    /** Every record not yet handed out converts to an absolute time. */
    ghost predicate AllTimely()
      requires Valid()
      reads this, readers
    {
      forall i :: 0 <= i < |readers| ==> TimelyFrom(readers[i].input, Start(readers[i].pos, ready[i]), offsets[i])
    }

    /** What one reader still has to give, its lookahead included. */
    ghost function RestOf(i: nat): seq<Out>
      requires Valid() && AllTimely() && i < |readers|
      reads this, readers
    {
      OutsFrom(i, readers[i].input, Start(readers[i].pos, ready[i]), offsets[i])
    }

    ghost function Rest(): (r: seq<seq<Out>>)
      requires Valid() && AllTimely()
      reads this, readers
      ensures |r| == |readers| && forall i :: 0 <= i < |readers| ==> r[i] == RestOf(i)
    {
      seq(|readers|, i requires Valid() && AllTimely() && 0 <= i < |readers| reads this, readers => RestOf(i))
    }

    constructor (readers: seq<Source>, offsets: seq<i64>)
      requires |offsets| == |readers|
      requires forall i, j :: 0 <= i < j < |readers| ==> readers[i] != readers[j]
      requires forall i :: 0 <= i < |readers| ==> readers[i].pos <= |readers[i].input|
      ensures Valid() && this.readers == readers && this.offsets == offsets && !closed
      ensures ready == seq(|readers|, _ => false)
    {
      this.readers, this.offsets := readers, offsets;
      heads := seq(|readers|, _ => BLANK);
      ready, done := seq(|readers|, _ => false), seq(|readers|, _ => false);
      closed := false;
    }
  
    /** Reads one record of reader `i` and converts its time. */
    method PullFrom(i: nat) returns (r: Pull<Out>)
      requires i < |readers| && i < |offsets| && readers[i].pos <= |readers[i].input|
      modifies readers[i]
      ensures old(readers[i].pos) <= readers[i].pos <= old(readers[i].pos) + 1 && readers[i].pos <= |readers[i].input|
      ensures r.Eof? ==> readers[i].pos == old(readers[i].pos) == |readers[i].input|
      ensures r.Got? ==>
        && readers[i].pos == old(readers[i].pos) + 1 && Timely(readers[i].input[old(readers[i].pos)], offsets[i])
        && r.value == OutOf(i, readers[i].input[old(readers[i].pos)], offsets[i])
      ensures r.Failed? ==> !TimelyFrom(readers[i].input, old(readers[i].pos), offsets[i])
    {
      var pulled := readers[i].Advance();
      match pulled {
        case Eof =>
          return Eof;
        case Failed =>
          return Failed;
        case Got(Record(stamp, body)) =>
          PulledTimely(i, stamp, body, offsets[i]);
          var shifted := Shift(stamp, offsets[i]);
          var absolute := UnixNano(shifted);
          if absolute.None? {
            return Failed;
          }
          return Got(Out(i, absolute.value, shifted, body));
      }
    }

    /** The next record of reader `i` becomes its lookahead. */
    method Fill(i: nat) returns (r: Pull<Out>)
      requires Valid() && i < |readers| && !ready[i] && !done[i]
      modifies this`heads, this`ready, this`done, readers[i]
      ensures Valid()
      ensures readers[i].pos <= old(readers[i].pos) + 1
      ensures forall j :: 0 <= j < |readers| && j != i ==> ready[j] == old(ready[j]) && done[j] == old(done[j])
      ensures r.Got? ==> ready[i] && !done[i]
      ensures r.Eof? ==> done[i] && !ready[i]
      ensures r.Failed? ==> !ready[i] && !done[i]
      ensures old(AllTimely()) ==> !r.Failed? && AllTimely() && Rest() == old(Rest())
    {
      hide Timely, OutOf, OutsFrom, TimelyFrom;
      r := PullFrom(i);
      match r {
        case Eof =>
          done := done[i := true];
        case Failed =>
        case Got(head) =>
          heads := heads[i := head];
          ready := ready[i := true];
      }
    }

    /** The least head among the readers that have one. */
    method Best() returns (best: Option<nat>)
      requires Valid()
      ensures best.None? <==> forall i :: 0 <= i < |readers| ==> !ready[i]
      ensures best.Some? ==>
        && best.value < |readers| && ready[best.value]
        && forall i :: 0 <= i < |readers| && ready[i] && i != best.value ==> Before(heads[best.value], heads[i])
    {
      best := None;
      var i := 0;
      while i < |readers|
        invariant 0 <= i <= |readers|
        invariant best.None? ==> forall k :: 0 <= k < i ==> !ready[k]
        invariant best.Some? ==>
          && best.value < i && ready[best.value]
          && forall k :: 0 <= k < i && ready[k] && k != best.value ==> Before(heads[best.value], heads[k])
      {
        if ready[i] && (best.None? || heads[i].time < heads[best.value].time) {
          best := Some(i);
        }
        i := i + 1;
      }
    }

    /** `Next`. A reader is advanced only when its previous record has been
        handed out, and then by one record. */
    method Next() returns (r: Pull<Out>)
      requires Valid()
      modifies this`heads, this`ready, this`done, readers
      ensures Valid()
      ensures forall i :: 0 <= i < |readers| ==> readers[i].pos <= old(readers[i].pos) + 1
      ensures forall i :: 0 <= i < |readers| && old(ready[i]) ==> readers[i].pos == old(readers[i].pos)
      ensures old(AllTimely()) ==> !r.Failed? && AllTimely()
      ensures old(AllTimely()) && r.Eof? ==> forall i :: 0 <= i < |readers| ==> old(Rest())[i] == []
      ensures old(AllTimely()) && r.Got? ==>
        exists best: nat :: IsLeast(old(Rest()), best) && r.value == old(Rest())[best][0]
                       && Rest() == old(Rest())[best := old(Rest())[best][1..]]
    {
      hide SlotFits, AllTimely, RestOf, IsLeast;
      if closed {
        return Eof;
      }
      ghost var rest := if AllTimely() then Rest() else [];
      var filled := FillAll();
      if !filled {
        return Failed;
      }
      var best := Best();
      if best.None? {
        if old(AllTimely()) {
          forall k | 0 <= k < |readers| ensures rest[k] == [] {
            DoneRest(k);
          }
        }
        return Eof;
      }
      if old(AllTimely()) {
        LeastHead(best.value);
      }
      r := Got(heads[best.value]);
      Release(best.value);
    }

    /** Every reader that is not at its end gets a lookahead record. */
    method FillAll() returns (ok: bool)
      requires Valid()
      modifies this`heads, this`ready, this`done, readers
      ensures Valid()
      ensures forall i :: 0 <= i < |readers| ==> readers[i].pos <= old(readers[i].pos) + 1
      ensures forall i :: 0 <= i < |readers| && old(ready[i]) ==> readers[i].pos == old(readers[i].pos)
      ensures ok ==> forall i :: 0 <= i < |readers| ==> ready[i] || done[i]
      ensures old(AllTimely()) ==> ok && AllTimely() && Rest() == old(Rest())
    {
      hide SlotFits, AllTimely, RestOf;
      ghost var timely := AllTimely();
      ghost var rest := if timely then Rest() else [];
      var i := 0;
      while i < |readers|
        invariant 0 <= i <= |readers|
        invariant Valid()
        invariant timely ==> AllTimely() && Rest() == rest
        invariant forall k :: 0 <= k < i ==> ready[k] || done[k]
        invariant forall k :: i <= k < |readers| ==> ready[k] == old(ready[k]) && readers[k].pos == old(readers[k].pos)
        invariant forall k :: 0 <= k < |readers| ==> readers[k].pos <= old(readers[k].pos) + 1
        invariant forall k :: 0 <= k < |readers| && old(ready[k]) ==> ready[k] && readers[k].pos == old(readers[k].pos)
      {
        if !(done[i] || ready[i]) {
          var pulled := Fill(i);
          if pulled.Failed? {
            return false;
          }
        }
        i := i + 1;
      }
      return true;
    }

    lemma DoneRest(i: nat)
      requires Valid() && AllTimely() && i < |readers| && done[i] && !ready[i]
      ensures RestOf(i) == []
    {
    }

    /** The head of reader `best` is handed out; its reader may be advanced again. */
    method Release(best: nat)
      requires Valid() && best < |readers| && ready[best]
      modifies this`heads, this`ready
      ensures Valid()
      ensures old(AllTimely()) ==> AllTimely() && old(Rest())[best] != [] && Rest() == old(Rest())[best := old(Rest())[best][1..]]
    {
      hide Timely, OutOf, OutsFrom, TimelyFrom;
      if AllTimely() {
        TailOuts(best, readers[best].input, readers[best].pos - 1, offsets[best]);
      }
      heads := heads[best := BLANK];
      ready := ready[best := false];
      if old(AllTimely()) {
        assert forall j :: 0 <= j < |readers| && j != best ==> RestOf(j) == old(RestOf(j));
      }
    }

    /** `Close` drops the lookahead and leaves the readers alone. */
    method Close()
      requires Valid()
      modifies this
      ensures Valid() && closed && readers == []
    {
      closed := true;
      heads, readers, ready, done := [], [], [], [];
    }

    lemma LeastHead(best: nat)
      requires Valid() && AllTimely()
      requires forall k :: 0 <= k < |readers| ==> ready[k] || done[k]
      requires best < |readers| && ready[best]
      requires forall i :: 0 <= i < |readers| && ready[i] && i != best ==> Before(heads[best], heads[i])
      ensures IsLeast(Rest(), best) && Rest()[best][0] == heads[best]
    {
      forall i | 0 <= i < |readers|
        ensures Rest()[i] != [] <==> ready[i]
        ensures ready[i] ==> Rest()[i][0] == heads[i]
      {
      }
    }
  }

  // ------------------------------------------------------------------ opening

  /** Offsets given for a reader's index come first, then those given for the
      reader itself, then what its own clock knows. */
  function OffsetOf(reader: Source, i: nat, byIndex: map<nat, i64>, byReader: map<Source, i64>): Option<i64> {
    if i in byIndex then Some(byIndex[i])
    else if reader in byReader then Some(byReader[reader])
    else reader.clock
  }

  /** `Merge`: readers must be distinct and each must have an offset. */
  method Merge(readers: seq<Source>, maxReaders: int, byIndex: map<nat, i64>, byReader: map<Source, i64>)
    returns (r: Result<MergedReader, MergeError>)
    requires forall i :: 0 <= i < |readers| ==> readers[i].pos <= |readers[i].input|
    ensures r.Ok? <==>
      && maxReaders >= 0 && |readers| <= (if maxReaders == 0 then 64 else maxReaders)
      && (forall i, j :: 0 <= i < j < |readers| ==> readers[i] != readers[j])
      && (forall i :: 0 <= i < |readers| ==> OffsetOf(readers[i], i, byIndex, byReader).Some?)
    ensures r.Ok? ==>
      && fresh(r.value) && r.value.Valid() && !r.value.closed && r.value.readers == readers
      && (forall i :: 0 <= i < |readers| ==> OffsetOf(readers[i], i, byIndex, byReader) == Some(r.value.offsets[i]))
      && r.value.ready == seq(|readers|, _ => false)
    // an offset given for the index, else one given for the reader, else its clock's
    ensures r.Ok? ==> forall i :: 0 <= i < |readers| ==>
      && (i in byIndex ==> r.value.offsets[i] == byIndex[i])
      && (i !in byIndex && readers[i] in byReader ==> r.value.offsets[i] == byReader[readers[i]])
      && (i !in byIndex && readers[i] !in byReader ==> readers[i].clock == Some(r.value.offsets[i]))
    ensures r == Err(ErrLimit) <==> maxReaders < 0 || |readers| > (if maxReaders == 0 then 64 else maxReaders)
  {
    var max := if maxReaders == 0 then 64 else maxReaders;
    if max < 0 || |readers| > max {
      return Err(ErrLimit);
    }
    var offsets: seq<i64> := [];
    var i := 0;
    while i < |readers|
      invariant 0 <= i <= |readers| && |offsets| == i
      invariant forall j, k :: 0 <= j < k < i ==> readers[j] != readers[k]
      invariant forall k :: 0 <= k < i ==> OffsetOf(readers[k], k, byIndex, byReader) == Some(offsets[k])
    {
      if readers[i] in readers[..i] {
        return Err(ErrInvalid);
      }
      var offset := OffsetOf(readers[i], i, byIndex, byReader);
      if offset.None? {
        return Err(ErrIncomparableClocks);
      }
      offsets := offsets + [offset.value];
      i := i + 1;
    }
    var m := new MergedReader(readers, offsets);
    return Ok(m);
  }


  lemma {:induction false} TotalUpdate(rest: seq<seq<Out>>, i: nat, s: seq<Out>)
    requires i < |rest|
    ensures Total(rest[i := s]) + |rest[i]| == Total(rest) + |s|
  {
    var last := |rest| - 1;
    if i < last {
      TotalUpdate(rest[..last], i, s);
      assert rest[i := s][..last] == rest[..last][i := s];
    } else {
      assert rest[i := s][..last] == rest[..last];
    }
  }

  /** Read to the end, records that all convert come out as the merge of the
      readers' remaining records. */
  method Drain(m: MergedReader) returns (out: seq<Out>)
    requires m.Valid() && m.AllTimely()
    modifies m`heads, m`ready, m`done, m.readers
    ensures Merges(old(m.Rest()), out)
    decreases Total(m.Rest())
  {
    hide MergedReader.AllTimely, Total;
    ghost var rest := m.Rest();
    var next := m.Next();
    if next.Eof? {
      return [];
    }
    ghost var best: nat :| IsLeast(rest, best) && next.value == rest[best][0] && m.Rest() == rest[best := rest[best][1..]];
    TotalUpdate(rest, best, rest[best][1..]);
    var others := Drain(m);
    out := [next.value] + others;
    assert out[1..] == others;
  }

  /** Reading a merge to its end hands out every record of every reader, once and in
      that reader's order; if each reader is sorted by time, all together are, with
      ties in reader order. */
  method DrainAll(m: MergedReader) returns (out: seq<Out>)
    requires m.Valid() && m.AllTimely()
    modifies m`heads, m`ready, m`done, m.readers
    ensures forall i :: 0 <= i < |old(m.Rest())| ==> OfReader(out, i) == old(m.Rest())[i]
    ensures forall k :: 0 <= k < |out| ==> out[k].reader < |old(m.Rest())|
    ensures (forall i :: 0 <= i < |old(m.Rest())| ==> Sorted(old(m.Rest())[i])) ==> StableSorted(out)
  {
    hide Merges, Sorted, StableSorted;
    ghost var rest := m.Rest();
    assert Tagged(rest);
    hide MergedReader.Valid, MergedReader.AllTimely, MergedReader.Rest;
    out := Drain(m);
    forall i | 0 <= i < |rest| ensures OfReader(out, i) == rest[i] {
      MergeInterleaves(rest, out, i);
    }
    forall k | 0 <= k < |out| ensures out[k].reader < |rest| {
      MergeMember(rest, out, k);
      var i :| 0 <= i < |rest| && out[k] in rest[i];
      var at :| 0 <= at < |rest[i]| && rest[i][at] == out[k];
    }
    if forall i :: 0 <= i < |rest| ==> Sorted(rest[i]) {
      MergeSorted(rest, out);
    }
  }
}
