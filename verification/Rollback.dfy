/** The bounded rollback of a replaced output, against a writer who may change the
    target between any two steps. */
module Rollback {
  import opened Wire

  /** What `sameOutputState` compares: the identity of a file and its data. */
  datatype File = File(id: nat, data: Bytes)

  datatype Path = Target | Backup | Recovery(race: nat) | Other(name: Bytes)

  /** What the other writer leaves at the target, at each of its chances. */
  datatype Moves = Moves(beforeReplace: Option<File>, beforeRead: Option<File>, beforeRemove: Option<File>)

  datatype Fault = NoFault | ReplaceFails | ReadFails | RemoveFails

  datatype Outcome = Restored | ReplaceFailed(from: Path) | Unread(kept: Path) | Unremoved(kept: Path) | Exhausted(kept: Path)

  const RACE_LIMIT := 8

  class Disk {
    var files: map<Path, File>
    /** Files this process deleted, in order. */
    ghost var removed: seq<File>

    /** The other writer's move. */
    method Interfere(move: Option<File>)
      modifies this`files
      ensures files == if move.Some? then old(files)[Target := move.value] else old(files)
    {
      if move.Some? {
        files := files[Target := move.value];
      }
    }

    /** The target takes the replacement and its file goes to the backup path, in
        one step; a failure changes nothing. */
    method Replace(replacement: Path, backup: Path, fails: bool) returns (ok: bool)
      requires Target in files && replacement in files && replacement != Target && backup != replacement && backup != Target
      modifies this`files
      ensures ok == !fails
      ensures files == if ok then (old(files) - {replacement})[Target := old(files)[replacement]][backup := old(files)[Target]]
                       else old(files)
    {
      if fails {
        return false;
      }
      var current, next := files[Target], files[replacement];
      files := (files - {replacement})[Target := next][backup := current];
      return true;
    }

    /** `removeVerifiedOutputState` */
    method RemoveVerified(path: Path, expected: File, fails: bool) returns (ok: bool)
      modifies this
      ensures ok <==> !fails && path in old(files) && old(files)[path] == expected
      ensures files == if ok then old(files) - {path} else old(files)
      ensures removed == if ok then old(removed) + [expected] else old(removed)
    {
      if fails || path !in files || files[path] != expected {
        return false;
      }
      removed := removed + [files[path]];
      files := files - {path};
      return true;
    }
  }

  /** What the `k`-th replace puts at the target: the prior output first, then what
      the replace before it displaced. */
  function Placed(prior: File, taken: seq<File>, k: nat): File
    requires k <= |taken|
  {
    if k == 0 then prior else taken[k - 1]
  }

  /** What the `k`-th replace should find there: the staged output first, then what
      the replace before it placed. */
  function Expected(staged: File, prior: File, taken: seq<File>, k: nat): File
    requires k <= |taken|
  {
    if k == 0 then staged else Placed(prior, taken, k - 1)
  }

  function Overwritten(f: File, move: Option<File>): File { if move.Some? then move.value else f }

  /** The target, one spare path and files that nobody touches. */
  ghost predicate Laid(files: map<Path, File>, target: File, spare: Path, content: File, others: map<Path, File>) {
    && (forall p :: p in others ==> !p.Target? && !p.Backup? && !p.Recovery?)
    && !spare.Target? && !spare.Other?
    && files == map[Target := target, spare := content] + others
  }

  lemma LaidFiles(files: map<Path, File>, target: File, spare: Path, content: File, others: map<Path, File>)
    requires Laid(files, target, spare, content, others)
    ensures Target in files && files[Target] == target && spare in files && files[spare] == content
    ensures files - {spare} == map[Target := target] + others
  {
  }

  lemma LaidMove(files: map<Path, File>, target: File, spare: Path, content: File, others: map<Path, File>, move: Option<File>)
    requires Laid(files, target, spare, content, others)
    ensures Laid(if move.Some? then files[Target := move.value] else files, Overwritten(target, move), spare, content, others)
  {
    if move.Some? {
      assert files[Target := move.value] == map[Target := move.value, spare := content] + others;
    }
  }

  lemma LaidAtFirst(files: map<Path, File>, prior: File)
    requires Target in files && Backup in files && files[Backup] == prior && forall race :: Recovery(race) !in files
    ensures Laid(files, files[Target], Backup, prior, files - {Target, Backup})
  {
    assert files == map[Target := files[Target], Backup := prior] + (files - {Target, Backup});
  }

  lemma NoneMissed(staged: File, prior: File)
    ensures Missed(staged, prior, [])
  {
  }

  /** No replace so far has found what it expected. */
  predicate Missed(staged: File, prior: File, taken: seq<File>) {
    forall k :: 0 <= k < |taken| ==> taken[k] != Expected(staged, prior, taken, k)
  }

  lemma MissedPrefix(staged: File, prior: File, taken: seq<File>)
    requires Missed(staged, prior, taken)
    ensures taken != [] ==> Missed(staged, prior, taken[..|taken| - 1])
  {
    if taken != [] {
      var shorter := taken[..|taken| - 1];
      forall k | 0 <= k < |shorter| ensures shorter[k] != Expected(staged, prior, shorter, k) {
        assert Expected(staged, prior, taken, k) == Expected(staged, prior, shorter, k);
      }
    }
  }

  lemma MissedNext(staged: File, prior: File, taken: seq<File>, x: File)
    requires Missed(staged, prior, taken)
    ensures Missed(staged, prior, taken + [x]) <==> x != Expected(staged, prior, taken, |taken|)
    ensures Expected(staged, prior, taken + [x], |taken|) == Expected(staged, prior, taken, |taken|)
    ensures Placed(prior, taken + [x], |taken|) == Placed(prior, taken, |taken|)
  {
    var more := taken + [x];
    forall k | 0 <= k < |taken| ensures Expected(staged, prior, more, k) == Expected(staged, prior, taken, k) {
    }
    assert more[|taken|] == x;
  }

  /** One replace with the other writer's moves around it. */
  method Displace(disk: Disk, spare: Path, backup: Path, move: Moves, fails: bool, ghost target: File, ghost content: File,
                  ghost others: map<Path, File>) returns (ok: bool)
    requires Laid(disk.files, target, spare, content, others) && backup.Recovery? && spare != backup
    modifies disk`files
    ensures ok == !fails
    ensures ok ==> Laid(disk.files, Overwritten(content, move.beforeRead), backup, Overwritten(target, move.beforeReplace), others)
    ensures !ok ==> Laid(disk.files, Overwritten(target, move.beforeReplace), spare, content, others)
  {
    disk.Interfere(move.beforeReplace);
    ghost var current := Overwritten(target, move.beforeReplace);
    assert disk.files == map[Target := current, spare := content] + others;
    ok := disk.Replace(spare, backup, fails);
    if ok {
      assert disk.files == map[Target := content, backup := current] + others;
      disk.Interfere(move.beforeRead);
    }
  }

  /** `rollbackReplaceFile`; `taken` records what each replace displaced. */
  method Restore(disk: Disk, staged: File, prior: File, moves: nat -> Moves, faults: nat -> Fault)
    returns (r: Outcome, ghost taken: seq<File>)
    requires Target in disk.files && Backup in disk.files && disk.files[Backup] == prior
    requires forall race :: Recovery(race) !in disk.files
    modifies disk
    ensures |taken| <= RACE_LIMIT && Target in disk.files
    // it goes on only past content that it did not expect
    ensures taken != [] ==> Missed(staged, prior, taken[..|taken| - 1])
    ensures r.Exhausted? ==> Missed(staged, prior, taken)
    // at most one file is ever deleted: the one expected, which is the staged output
    // or content that this very loop placed at the target
    ensures disk.removed == old(disk.removed) +
      (if r.Restored? && taken != [] then [Expected(staged, prior, taken, |taken| - 1)] else [])
    // on success the target holds the content displaced last that was not expected,
    // or the prior output, unless it was overwritten after that
    ensures r.Restored? ==>
      && taken != [] && taken[|taken| - 1] == Expected(staged, prior, taken, |taken| - 1)
      && var last := |taken| - 1;
         disk.files == map[Target := Overwritten(Overwritten(Placed(prior, taken, last), moves(last).beforeRead), moves(last).beforeRemove)]
                       + (old(disk.files) - {Target, Backup})
    // otherwise what was displaced last survives at the path reported
    ensures r.ReplaceFailed? ==> r.from in disk.files && disk.files[r.from] == Placed(prior, taken, |taken|)
    ensures r.Unread? || r.Unremoved? || r.Exhausted? ==>
      taken != [] && r.kept == Recovery(|taken| - 1) && r.kept in disk.files && disk.files[r.kept] == taken[|taken| - 1]
    // it gives up only after the other writer has won every race
    ensures r.Exhausted? ==> |taken| == RACE_LIMIT
    ensures r.Exhausted? ==> forall k :: 0 < k < RACE_LIMIT ==>
      moves(k - 1).beforeRead.Some? || moves(k).beforeReplace.Some?
  {
    hide Laid, Missed;
    var replacementName, expectedTarget, replacement := Backup, staged, prior;
    taken := [];
    var race := 0;
    ghost var others := old(disk.files) - {Target, Backup};
    ghost var target := disk.files[Target];
    LaidAtFirst(disk.files, prior);
    NoneMissed(staged, prior);
    while true
      invariant 0 <= race == |taken| < RACE_LIMIT
      invariant replacementName == if race == 0 then Backup else Recovery(race - 1)
      invariant expectedTarget == Expected(staged, prior, taken, race) && replacement == Placed(prior, taken, race)
      invariant Laid(disk.files, target, replacementName, replacement, others)
      invariant disk.removed == old(disk.removed)
      invariant Missed(staged, prior, taken)
      invariant race > 0 ==> target == Overwritten(expectedTarget, moves(race - 1).beforeRead)
      invariant forall k :: 0 < k < race ==> moves(k - 1).beforeRead.Some? || moves(k).beforeReplace.Some?
      decreases RACE_LIMIT - race
    {
      var displacedName := Recovery(race);
      var replaced := Displace(disk, replacementName, displacedName, moves(race), faults(race).ReplaceFails?, target, replacement, others);
      if !replaced {
        LaidFiles(disk.files, Overwritten(target, moves(race).beforeReplace), replacementName, replacement, others);
        MissedPrefix(staged, prior, taken);
        return ReplaceFailed(replacementName), taken;
      }
      ghost var current := Overwritten(target, moves(race).beforeReplace);
      MissedNext(staged, prior, taken, current);
      assert (taken + [current])[..race] == taken;
      taken := taken + [current];
      target := Overwritten(replacement, moves(race).beforeRead);
      LaidFiles(disk.files, target, displacedName, current, others);
      if faults(race).ReadFails? {
        return Unread(displacedName), taken;
      }
      var displaced := disk.files[displacedName];
      if expectedTarget == displaced {
        LaidMove(disk.files, target, displacedName, current, others, moves(race).beforeRemove);
        disk.Interfere(moves(race).beforeRemove);
        LaidFiles(disk.files, Overwritten(target, moves(race).beforeRemove), displacedName, current, others);
        var gone := disk.RemoveVerified(displacedName, expectedTarget, faults(race).RemoveFails?);
        if !gone {
          return Unremoved(displacedName), taken;
        }
        return Restored, taken;
      }
      if race + 1 == RACE_LIMIT {
        return Exhausted(displacedName), taken;
      }
      replacementName, expectedTarget, replacement := displacedName, replacement, displaced;
      race := race + 1;
    }
  }
}
