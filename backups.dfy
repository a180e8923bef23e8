/**
 * The backup engine (src/backupmanager.cpp): timestamped copies of one file
 * in a backup directory, a rotation policy that deletes and compresses old
 * copies, and restoring from a copy. The external `xz` tool and `fs::remove`
 * are modelled by their outcome, given as a predicate on the path.
 */
module Backups {
  import opened Text
  import opened FileSystem

  /** getBackupBaseName: the original's file name followed by ".bak". */
  function BackupBaseName(original: string): (base: string)
    ensures EndsWith(base, ".bak") && PlainName(base)
    ensures |base| <= |original| + 4
  {
    BakIsPlain();
    PlainNameAppend(FileName(original), ".bak");
    AppendedSuffix(FileName(original), ".bak");
    FileName(original) + ".bak"
  }

  /** The shape generateTimestamp produces: YYYYMMDD_HHMMSS. */
  predicate IsTimestamp(stamp: string) {
    |stamp| == 15 && stamp[8] == '_' &&
    forall i :: 0 <= i < 15 && i != 8 ==> '0' <= stamp[i] <= '9'
  }

  /** A name with no directory separator in it. */
  predicate PlainName(s: string) {
    forall i :: 0 <= i < |s| ==> s[i] != '/'
  }

  lemma {:induction false} PlainNameAppend(a: string, b: string)
    requires PlainName(a) && PlainName(b)
    ensures PlainName(a + b)
  {
  }

  lemma {:induction false} StartsWithAppend(a: string, b: string)
    ensures StartsWith(a + b, a)
  {
    assert (a + b)[..|a|] == a;
  }

  lemma {:induction false} BakIsPlain()
    ensures PlainName(".bak")
  {
  }

  lemma {:induction false} TimestampIsPlain(stamp: string)
    requires IsTimestamp(stamp)
    ensures PlainName(stamp)
  {
  }

  /** The name createBackup gives a backup: the base name followed by the timestamp, a plain file name. */
  function BackupFileName(original: string, stamp: string): (name: string)
    requires IsTimestamp(stamp)
    ensures StartsWith(name, BackupBaseName(original))
    ensures PlainName(name)
  {
    var base := BackupBaseName(original);
    TimestampIsPlain(stamp);
    PlainNameAppend(base, stamp);
    StartsWithAppend(base, stamp);
    base + stamp
  }

  /** What listBackups reports: a file right below the backup directory whose name contains the base name. */
  predicate Listed(files: map<string, Entry>, dir: string, base: string, path: string) {
    dir != [] && path in files && InDir(path, dir) && Contains(FileName(path), base)
  }

  predicate Distinct(paths: seq<string>) {
    forall i, j :: 0 <= i < j < |paths| ==> paths[i] != paths[j]
  }

  /** Every path names a file, and modification times never increase along the sequence. */
  predicate NewestFirst(paths: seq<string>, files: map<string, Entry>) {
    && (forall i :: 0 <= i < |paths| ==> paths[i] in files)
    && (forall i, j :: 0 <= i < j < |paths| && paths[i] in files && paths[j] in files ==>
          files[paths[i]].mtime >= files[paths[j]].mtime)
  }

  /** A ranking of the listed backups as the rotation sees it: each once, newest first, ties in any order. */
  ghost predicate IsRanking(ranking: seq<string>, files: map<string, Entry>, dir: string, base: string) {
    && Distinct(ranking)
    && (forall p :: p in ranking <==> Listed(files, dir, base, p))
    && NewestFirst(ranking, files)
  }

  /** isNewer: both files exist and the first was written later. */
  predicate IsNewer(files: map<string, Entry>, first: string, second: string) {
    first in files && second in files && files[first].mtime > files[second].mtime
  }

  /** isNewer is a strict order: never both ways, never of a file and itself, and transitive. */
  lemma {:induction false} IsNewerIsStrictOrder(files: map<string, Entry>, a: string, b: string, c: string)
    ensures !IsNewer(files, a, a)
    ensures IsNewer(files, a, b) ==> !IsNewer(files, b, a)
    ensures IsNewer(files, a, b) && IsNewer(files, b, c) ==> IsNewer(files, a, c)
    ensures a in files && b in files ==> IsNewer(files, a, b) || IsNewer(files, b, a) || files[a].mtime == files[b].mtime
    ensures a !in files ==> !IsNewer(files, a, b) && !IsNewer(files, b, a)
  {
  }

  /** In a newest-first ranking no later entry is newer than an earlier one. */
  lemma {:induction false} RankingNeverNewerLater(ranking: seq<string>, files: map<string, Entry>, i: nat, j: nat)
    requires NewestFirst(ranking, files) && i < j < |ranking|
    ensures !IsNewer(files, ranking[j], ranking[i])
  {
  }

  /** The cap the rotation applies: a non-positive request means 20. */
  function Cap(maxBackups: int): (cap: int)
    ensures cap > 0
    ensures maxBackups > 0 ==> cap == maxBackups
    ensures maxBackups <= 0 ==> cap == 20
  {
    if maxBackups <= 0 then 20 else maxBackups
  }

  /** The ranks the rotation compresses when they are below the cap; fixed, whatever the cap. */
  predicate InCompressionBand(rank: nat) {
    10 <= rank < 20
  }

  /** What the rotation loop carries from one backup to the next. */
  datatype RotationState = RotationState(files: map<string, Entry>, deleted: int, lastError: string)

  /**
   * The rotation's treatment of the backup at `rank`: at or past the cap it is
   * removed (counted only when removal succeeds); below the cap and in the
   * band it is compressed unless it already ends in ".xz", a failure only
   * recorded; anything else is left alone.
   */
  function RotateStep(st: RotationState, rank: nat, path: string, cap: int,
                      compressOk: string -> bool, removeOk: string -> bool): (r: RotationState)
    ensures st.deleted <= r.deleted <= st.deleted + 1
    ensures r.files - {path, path + ".xz"} == st.files - {path, path + ".xz"}
    ensures r.lastError == st.lastError || r.lastError == "Failed to compress backup: " + path
  {
    if rank >= cap then
      if removeOk(path) then st.(files := st.files - {path}, deleted := st.deleted + 1) else st
    else if InCompressionBand(rank) && !EndsWith(path, ".xz") then
      if compressOk(path) && path in st.files && path + ".xz" !in st.files
      then st.(files := (st.files - {path})[path + ".xz" := st.files[path]])
      else st.(lastError := "Failed to compress backup: " + path)
    else st
  }

  /** The state after the rotation has treated the first `k` ranks. */
  function Rotate(st: RotationState, ranking: seq<string>, k: nat, cap: int,
                  compressOk: string -> bool, removeOk: string -> bool): (r: RotationState)
    requires k <= |ranking|
    ensures st.deleted <= r.deleted <= st.deleted + k
  {
    if k == 0 then st
    else RotateStep(Rotate(st, ranking, k - 1, cap, compressOk, removeOk), k - 1, ranking[k - 1], cap, compressOk, removeOk)
  }

  /** How many of the first `k` ranks are at or past the cap and let go when removed. */
  function RemovedAmong(ranking: seq<string>, k: nat, cap: int, removeOk: string -> bool): (n: nat)
    requires k <= |ranking|
    ensures n <= k
  {
    if k == 0 then 0
    else RemovedAmong(ranking, k - 1, cap, removeOk) + (if k - 1 >= cap && removeOk(ranking[k - 1]) then 1 else 0)
  }

  /** The rotation's count is the number of successful removals. */
  lemma {:induction false} RotationCountsRemovals(st: RotationState, ranking: seq<string>, k: nat, cap: int,
                                                  compressOk: string -> bool, removeOk: string -> bool)
    requires k <= |ranking|
    ensures Rotate(st, ranking, k, cap, compressOk, removeOk).deleted == st.deleted + RemovedAmong(ranking, k, cap, removeOk)
  {
    if k > 0 {
      RotationCountsRemovals(st, ranking, k - 1, cap, compressOk, removeOk);
    }
  }

  /** When every removal succeeds, the rotation deletes exactly the ranks past the cap. */
  lemma {:induction false} AllRemovalsCounted(ranking: seq<string>, k: nat, cap: int, removeOk: string -> bool)
    requires k <= |ranking| && cap > 0
    requires forall p :: removeOk(p)
    ensures RemovedAmong(ranking, k, cap, removeOk) == if k > cap then k - cap else 0
  {
    if k > 0 {
      AllRemovalsCounted(ranking, k - 1, cap, removeOk);
    }
  }

  /** A rank the rotation leaves as it is: below the cap and either outside the band or already compressed. */
  predicate KeptAsIs(rank: nat, path: string, cap: int) {
    rank < cap && (!InCompressionBand(rank) || EndsWith(path, ".xz"))
  }

  /**
   * A backup the rotation keeps as it is stays present with the same content
   * and time: no other rank removes it, and no compression lands on its name
   * because xz refuses an existing output.
   */
  lemma {:induction false} KeptBackupSurvives(st: RotationState, ranking: seq<string>, k: nat, i: nat, cap: int,
                                              compressOk: string -> bool, removeOk: string -> bool)
    requires Distinct(ranking) && i < |ranking| && k <= |ranking|
    requires KeptAsIs(i, ranking[i], cap) && ranking[i] in st.files
    ensures ranking[i] in Rotate(st, ranking, k, cap, compressOk, removeOk).files
    ensures Rotate(st, ranking, k, cap, compressOk, removeOk).files[ranking[i]] == st.files[ranking[i]]
  {
    if k > 0 {
      KeptBackupSurvives(st, ranking, k - 1, i, cap, compressOk, removeOk);
      if k - 1 != i {
        assert ranking[k - 1] != ranking[i];
      }
    }
  }

  /**
   * Rotation is best effort: a backup at or past the cap whose removal fails
   * is skipped and stays present with its entry.
   */
  lemma {:induction false} FailedRemovalKeeps(st: RotationState, ranking: seq<string>, k: nat, i: nat, cap: int,
                                              compressOk: string -> bool, removeOk: string -> bool)
    requires Distinct(ranking) && i < |ranking| && k <= |ranking|
    requires i >= cap && !removeOk(ranking[i]) && ranking[i] in st.files
    ensures ranking[i] in Rotate(st, ranking, k, cap, compressOk, removeOk).files
    ensures Rotate(st, ranking, k, cap, compressOk, removeOk).files[ranking[i]] == st.files[ranking[i]]
  {
    if k > 0 {
      FailedRemovalKeeps(st, ranking, k - 1, i, cap, compressOk, removeOk);
      if k - 1 != i {
        assert ranking[k - 1] != ranking[i];
      }
    }
  }

  /** A band backup below the cap whose compression fails keeps its plain file and entry. */
  lemma {:induction false} FailedCompressionKeeps(st: RotationState, ranking: seq<string>, k: nat, i: nat, cap: int,
                                                  compressOk: string -> bool, removeOk: string -> bool)
    requires Distinct(ranking) && i < |ranking| && k <= |ranking|
    requires i < cap && InCompressionBand(i) && !EndsWith(ranking[i], ".xz") && !compressOk(ranking[i])
    requires ranking[i] in st.files
    ensures ranking[i] in Rotate(st, ranking, k, cap, compressOk, removeOk).files
    ensures Rotate(st, ranking, k, cap, compressOk, removeOk).files[ranking[i]] == st.files[ranking[i]]
  {
    if k > 0 {
      FailedCompressionKeeps(st, ranking, k - 1, i, cap, compressOk, removeOk);
      if k - 1 != i {
        assert ranking[k - 1] != ranking[i];
      }
    }
  }

  /** What the rotation leaves in lastError: the old message, or the compression failure of a band backup. */
  lemma {:induction false} RotationErrorIsCompression(st: RotationState, ranking: seq<string>, k: nat, cap: int,
                                                      compressOk: string -> bool, removeOk: string -> bool)
    requires k <= |ranking|
    ensures var err := Rotate(st, ranking, k, cap, compressOk, removeOk).lastError;
      || err == st.lastError
      || exists j :: 0 <= j < k && j < cap && InCompressionBand(j) && !EndsWith(ranking[j], ".xz") &&
                     err == "Failed to compress backup: " + ranking[j]
  {
    if k > 0 {
      RotationErrorIsCompression(st, ranking, k - 1, cap, compressOk, removeOk);
    }
  }

  /**
   * A band backup below the cap whose compression fails is reported in
   * lastError when every later band backup compresses: the message names the
   * last failure.
   */
  lemma {:induction false} FailedCompressionRecorded(st: RotationState, ranking: seq<string>, k: nat, i: nat, cap: int,
                                                     compressOk: string -> bool, removeOk: string -> bool)
    requires Distinct(ranking) && i < k <= |ranking|
    requires i < cap && InCompressionBand(i) && !EndsWith(ranking[i], ".xz") && !compressOk(ranking[i])
    requires forall j :: i < j < k && j < cap && InCompressionBand(j) && !EndsWith(ranking[j], ".xz") ==>
      compressOk(ranking[j]) && ranking[j] in st.files && ranking[j] + ".xz" !in st.files && ranking[j] + ".xz" !in ranking
    ensures Rotate(st, ranking, k, cap, compressOk, removeOk).lastError == "Failed to compress backup: " + ranking[i]
  {
    var prev := Rotate(st, ranking, k - 1, cap, compressOk, removeOk);
    assert Rotate(st, ranking, k, cap, compressOk, removeOk) == RotateStep(prev, k - 1, ranking[k - 1], cap, compressOk, removeOk);
    if k - 1 > i {
      FailedCompressionRecorded(st, ranking, k - 1, i, cap, compressOk, removeOk);
      var j := k - 1;
      if j < cap && InCompressionBand(j) && !EndsWith(ranking[j], ".xz") {
        BeforeOwnTurn(st, ranking, j, j, cap, compressOk, removeOk);
      }
    }
  }

  /** A backup at or past the cap whose removal succeeds is gone once the rotation passes it. */
  lemma {:induction false} RemovedBackupGone(st: RotationState, ranking: seq<string>, k: nat, i: nat, cap: int,
                                             compressOk: string -> bool, removeOk: string -> bool)
    requires i < k <= |ranking|
    requires i >= cap && removeOk(ranking[i])
    ensures ranking[i] !in Rotate(st, ranking, k, cap, compressOk, removeOk).files
  {
    if k - 1 > i {
      RemovedBackupGone(st, ranking, k - 1, i, cap, compressOk, removeOk);
    }
  }

  /**
   * A backup in the band below the cap, not yet compressed, whose compression
   * succeeds and whose ".xz" name is free and not itself a ranked backup, ends
   * up compressed: the plain file is gone and the ".xz" file holds its content
   * and time.
   */
  lemma {:induction false} BandBackupCompressed(st: RotationState, ranking: seq<string>, k: nat, i: nat, cap: int,
                                                compressOk: string -> bool, removeOk: string -> bool)
    requires Distinct(ranking) && i < k <= |ranking|
    requires i < cap && InCompressionBand(i) && !EndsWith(ranking[i], ".xz") && compressOk(ranking[i])
    requires ranking[i] in st.files && ranking[i] + ".xz" !in st.files && ranking[i] + ".xz" !in ranking
    ensures var after := Rotate(st, ranking, k, cap, compressOk, removeOk).files;
      ranking[i] !in after && ranking[i] + ".xz" in after && after[ranking[i] + ".xz"] == st.files[ranking[i]]
  {
    var p := ranking[i];
    var before := Rotate(st, ranking, k - 1, cap, compressOk, removeOk);
    if k - 1 == i {
      BeforeOwnTurn(st, ranking, i, i, cap, compressOk, removeOk);
      StepCompressesOwn(before, i, p, cap, compressOk, removeOk);
    } else {
      BandBackupCompressed(st, ranking, k - 1, i, cap, compressOk, removeOk);
      StepKeepsCompressed(before, k - 1, ranking[k - 1], cap, compressOk, removeOk, p);
    }
  }

  /** A band backup below the cap whose compression succeeds and whose ".xz" name is free is compressed by its own step. */
  lemma {:induction false} StepCompressesOwn(st: RotationState, rank: nat, p: string, cap: int,
                                             compressOk: string -> bool, removeOk: string -> bool)
    requires rank < cap && InCompressionBand(rank) && !EndsWith(p, ".xz") && compressOk(p)
    requires p in st.files && p + ".xz" !in st.files
    ensures var now := RotateStep(st, rank, p, cap, compressOk, removeOk).files;
      p !in now && p + ".xz" in now && now[p + ".xz"] == st.files[p]
  {
    AppendedSuffix(p, ".xz");
  }

  /** Treating the backup `q` leaves the compressed form of another backup `p` as it was. */
  lemma {:induction false} StepKeepsCompressed(st: RotationState, rank: nat, q: string, cap: int,
                                               compressOk: string -> bool, removeOk: string -> bool, p: string)
    requires p !in st.files && p + ".xz" in st.files
    requires q != p && q != p + ".xz" && !EndsWith(p, ".xz")
    ensures var now := RotateStep(st, rank, q, cap, compressOk, removeOk).files;
      p !in now && p + ".xz" in now && now[p + ".xz"] == st.files[p + ".xz"]
  {
    XzNamesApart(p, q);
  }

  /**
   * Before the rotation reaches rank `i`, that backup is still there with its
   * content, and its ".xz" name is still free when it was free at the start
   * and is not a ranked backup.
   */
  lemma {:induction false} BeforeOwnTurn(st: RotationState, ranking: seq<string>, k: nat, i: nat, cap: int,
                                         compressOk: string -> bool, removeOk: string -> bool)
    requires Distinct(ranking) && k <= i < |ranking|
    requires ranking[i] in st.files && ranking[i] + ".xz" !in st.files && ranking[i] + ".xz" !in ranking
    requires !EndsWith(ranking[i], ".xz")
    ensures var now := Rotate(st, ranking, k, cap, compressOk, removeOk).files;
      ranking[i] in now && now[ranking[i]] == st.files[ranking[i]] && ranking[i] + ".xz" !in now
  {
    var p := ranking[i];
    if k > 0 {
      var prev := Rotate(st, ranking, k - 1, cap, compressOk, removeOk);
      BeforeOwnTurn(st, ranking, k - 1, i, cap, compressOk, removeOk);
      assert ranking[k - 1] != p;
      StepKeepsOther(prev, k - 1, ranking[k - 1], cap, compressOk, removeOk, p);
      assert Rotate(st, ranking, k, cap, compressOk, removeOk) == RotateStep(prev, k - 1, ranking[k - 1], cap, compressOk, removeOk);
    }
  }

  /** Treating the backup `q` leaves another file `p` and the free ".xz" name of `p` as they were. */
  lemma {:induction false} StepKeepsOther(st: RotationState, rank: nat, q: string, cap: int,
                                          compressOk: string -> bool, removeOk: string -> bool, p: string)
    requires p in st.files && p + ".xz" !in st.files
    requires q != p && !EndsWith(p, ".xz")
    ensures var now := RotateStep(st, rank, q, cap, compressOk, removeOk).files;
      p in now && now[p] == st.files[p] && p + ".xz" !in now
  {
    XzNamesApart(p, q);
  }

  /** Compressing another file never produces `p`, which has no ".xz" ending, nor `p`'s own ".xz" name. */
  lemma {:induction false} XzNamesApart(p: string, q: string)
    requires q != p && !EndsWith(p, ".xz")
    ensures q + ".xz" != p && q + ".xz" != p + ".xz"
  {
    AppendedSuffix(q, ".xz");
    assert (q + ".xz")[..|q|] == q;
    assert (p + ".xz")[..|p|] == p;
  }

  /** A file that is neither a ranked backup nor the ".xz" name of one is untouched by the rotation. */
  lemma {:induction false} OtherFilesUntouched(st: RotationState, ranking: seq<string>, k: nat, cap: int,
                                               compressOk: string -> bool, removeOk: string -> bool, other: string)
    requires k <= |ranking|
    requires forall j :: 0 <= j < |ranking| ==> other != ranking[j] && other != ranking[j] + ".xz"
    ensures var after := Rotate(st, ranking, k, cap, compressOk, removeOk).files;
      (other in after <==> other in st.files) && (other in after ==> after[other] == st.files[other])
  {
    if k > 0 {
      OtherFilesUntouched(st, ranking, k - 1, cap, compressOk, removeOk, other);
    }
  }

  /**
   * The rotation when every removal and compression succeeds on backups with
   * no ".xz" ending and free ".xz" names: the newest ten below the cap are
   * untouched, the rest below the cap and under 20 are compressed, everything
   * from the cap on is deleted and counted.
   */
  lemma {:induction false} RotationWhenAllSucceed(st: RotationState, ranking: seq<string>, cap: int,
                               compressOk: string -> bool, removeOk: string -> bool)
    requires Distinct(ranking) && cap > 0
    requires forall p :: compressOk(p) && removeOk(p)
    requires forall i :: 0 <= i < |ranking| ==>
      ranking[i] in st.files && !EndsWith(ranking[i], ".xz") && ranking[i] + ".xz" !in st.files
    ensures var after := Rotate(st, ranking, |ranking|, cap, compressOk, removeOk);
      && after.deleted == st.deleted + (if |ranking| > cap then |ranking| - cap else 0)
      && (forall i :: 0 <= i < |ranking| && i < cap && !InCompressionBand(i) ==>
            ranking[i] in after.files && after.files[ranking[i]] == st.files[ranking[i]])
      && (forall i :: 0 <= i < |ranking| && i < cap && InCompressionBand(i) ==>
            ranking[i] !in after.files && ranking[i] + ".xz" in after.files && after.files[ranking[i] + ".xz"] == st.files[ranking[i]])
      && (forall i :: cap <= i < |ranking| ==> ranking[i] !in after.files)
  {
    var n := |ranking|;
    RotationCountsRemovals(st, ranking, n, cap, compressOk, removeOk);
    AllRemovalsCounted(ranking, n, cap, removeOk);
    forall i | 0 <= i < n && i < cap && !InCompressionBand(i)
      ensures var after := Rotate(st, ranking, n, cap, compressOk, removeOk);
        ranking[i] in after.files && after.files[ranking[i]] == st.files[ranking[i]]
    {
      KeptBackupSurvives(st, ranking, n, i, cap, compressOk, removeOk);
    }
    forall i | 0 <= i < n && i < cap && InCompressionBand(i)
      ensures var after := Rotate(st, ranking, n, cap, compressOk, removeOk);
        ranking[i] !in after.files && ranking[i] + ".xz" in after.files &&
        after.files[ranking[i] + ".xz"] == st.files[ranking[i]]
    {
      assert ranking[i] + ".xz" !in ranking;
      BandBackupCompressed(st, ranking, n, i, cap, compressOk, removeOk);
    }
    forall i | cap <= i < n
      ensures ranking[i] !in Rotate(st, ranking, n, cap, compressOk, removeOk).files
    {
      RemovedBackupGone(st, ranking, n, i, cap, compressOk, removeOk);
    }
  }

  /** In a newest-first ranking, a backup strictly newer than every other one comes first. */
  lemma {:induction false} StrictlyNewestRanksFirst(ranking: seq<string>, files: map<string, Entry>, p: string)
    requires NewestFirst(ranking, files) && p in ranking
    requires forall q :: q in ranking && q != p ==> files[q].mtime < files[p].mtime
    ensures ranking[0] == p
  {
    var i :| 0 <= i < |ranking| && ranking[i] == p;
    if i != 0 {
      assert files[ranking[0]].mtime >= files[p].mtime;
    }
  }

  /** Inserting `p` where the newer files end keeps the order and the files ranked. */
  lemma {:induction false} InsertKeepsOrder(ranked: seq<string>, j: nat, p: string, files: map<string, Entry>)
    requires NewestFirst(ranked, files) && j <= |ranked| && p in files
    requires forall k :: 0 <= k < j ==> files[ranked[k]].mtime >= files[p].mtime
    requires j < |ranked| ==> files[ranked[j]].mtime < files[p].mtime
    ensures NewestFirst(ranked[..j] + [p] + ranked[j..], files)
  {
    var s := ranked[..j] + [p] + ranked[j..];
    assert forall k :: 0 <= k < j ==> s[k] == ranked[k];
    assert s[j] == p;
    assert forall k :: j < k < |s| ==> s[k] == ranked[k - 1];
  }

  /**
   * The ordering step of the rotation and of getLastBackupPath, std::sort
   * with a newer-first comparison: the same paths, newest first. Realised as
   * an insertion sort; std::sort promises no more than this ordering and
   * permutation, so which of two equally old files comes first is left open.
   */
  method SortNewestFirst(paths: seq<string>, files: map<string, Entry>) returns (ranked: seq<string>)
    requires forall i :: 0 <= i < |paths| ==> paths[i] in files
    ensures multiset(ranked) == multiset(paths) && |ranked| == |paths|
    ensures NewestFirst(ranked, files)
    ensures Distinct(paths) ==> Distinct(ranked)
  {
    ranked := [];
    for i := 0 to |paths|
      invariant |ranked| == i
      invariant multiset(ranked) == multiset(paths[..i])
      invariant NewestFirst(ranked, files)
      invariant Distinct(paths) ==> Distinct(ranked)
    {
      if Distinct(paths) {
        assert paths[i] !in paths[..i];
        assert paths[i] !in multiset(ranked);
      }
      ranked := InsertNewestFirst(ranked, paths[i], files);
      assert paths[..i + 1] == paths[..i] + [paths[i]];
    }
    assert paths[..|paths|] == paths;
  }

  /** One round of the insertion sort: `p` goes after every file at least as new. */
  method InsertNewestFirst(ranked: seq<string>, p: string, files: map<string, Entry>) returns (next: seq<string>)
    requires NewestFirst(ranked, files) && p in files
    ensures multiset(next) == multiset(ranked) + multiset{p} && |next| == |ranked| + 1
    ensures NewestFirst(next, files)
    ensures Distinct(ranked) && p !in ranked ==> Distinct(next)
  {
    var j := InsertionPoint(ranked, p, files);
    InsertKeepsOrder(ranked, j, p, files);
    if Distinct(ranked) && p !in ranked {
      InsertKeepsDistinct(ranked, j, p);
    }
    InsertedCounts(ranked, j, p);
    next := ranked[..j] + [p] + ranked[j..];
  }

  /** Inserting `p` anywhere adds exactly one occurrence of it. */
  lemma {:induction false} InsertedCounts(ranked: seq<string>, j: nat, p: string)
    requires j <= |ranked|
    ensures multiset(ranked[..j] + [p] + ranked[j..]) == multiset(ranked) + multiset{p}
  {
    assert ranked == ranked[..j] + ranked[j..];
  }

  /** Where a file goes in a newest-first ranking: after every file at least as new. */
  method InsertionPoint(ranked: seq<string>, p: string, files: map<string, Entry>) returns (j: nat)
    requires NewestFirst(ranked, files) && p in files
    ensures j <= |ranked|
    ensures forall k :: 0 <= k < j ==> files[ranked[k]].mtime >= files[p].mtime
    ensures j < |ranked| ==> files[ranked[j]].mtime < files[p].mtime
  {
    j := 0;
    while j < |ranked| && files[ranked[j]].mtime >= files[p].mtime
      invariant j <= |ranked|
      invariant forall k :: 0 <= k < j ==> files[ranked[k]].mtime >= files[p].mtime
    {
      j := j + 1;
    }
  }

  /** Inserting a path not yet present keeps the paths distinct. */
  lemma {:induction false} InsertKeepsDistinct(ranked: seq<string>, j: nat, p: string)
    requires Distinct(ranked) && j <= |ranked| && p !in ranked
    ensures Distinct(ranked[..j] + [p] + ranked[j..])
  {
    var s := ranked[..j] + [p] + ranked[j..];
    assert forall k :: 0 <= k < j ==> s[k] == ranked[k];
    assert forall k :: j < k < |s| ==> s[k] == ranked[k - 1];
  }

  /** Sorting the listing newest first ranks exactly the listed backups. */
  lemma {:induction false} SortedListingIsRanking(backups: seq<string>, ranked: seq<string>, files: map<string, Entry>,
                               dir: string, base: string)
    requires Distinct(backups) && forall p :: p in backups <==> Listed(files, dir, base, p)
    requires multiset(ranked) == multiset(backups) && NewestFirst(ranked, files)
    requires Distinct(backups) ==> Distinct(ranked)
    ensures IsRanking(ranked, files, dir, base)
  {
    assert forall p :: p in ranked <==> p in multiset(backups);
  }

  /** The head of a non-empty ranking is listed and no listed backup is newer. */
  lemma {:induction false} FirstRankedIsNewest(ranking: seq<string>, files: map<string, Entry>, dir: string, base: string)
    requires IsRanking(ranking, files, dir, base) && ranking != []
    ensures Listed(files, dir, base, ranking[0])
    ensures forall p :: Listed(files, dir, base, p) ==> !IsNewer(files, p, ranking[0])
  {
    assert ranking[0] in ranking;
    forall p | Listed(files, dir, base, p)
      ensures !IsNewer(files, p, ranking[0])
    {
      var i :| 0 <= i < |ranking| && ranking[i] == p;
    }
  }

  /** The backups of one file, and the last failure. */
  class BackupManager {
    const originalFilePath: string
    const backupDir: string
    const disk: Disk
    var lastError: string

    /** `backupDir` is what getBackupDirectory resolves to ($HOME/.shellbackup, or the original's directory). */
    constructor (originalFilePath: string, backupDir: string, disk: Disk)
      ensures this.originalFilePath == originalFilePath && this.backupDir == backupDir && this.disk == disk
      ensures lastError == ""
    {
      this.originalFilePath := originalFilePath;
      this.backupDir := backupDir;
      this.disk := disk;
      lastError := "";
    }

    /** A path listBackups reports in the current state of the disk. */
    predicate IsListed(path: string)
      reads disk
    {
      Listed(disk.files, backupDir, BackupBaseName(originalFilePath), path)
    }

    /**
     * listBackups: the directory's files whose name contains the base name,
     * each once, in the iterator's order (left open). An empty directory path
     * makes the iterator throw, and the empty list comes back.
     */
    method ListBackups() returns (backups: seq<string>)
      ensures Distinct(backups)
      ensures forall p :: p in backups <==> IsListed(p)
    {
      backups := [];
      if backupDir == [] {
        return;
      }
      var unvisited := disk.files.Keys;
      while unvisited != {}
        invariant unvisited <= disk.files.Keys
        invariant Distinct(backups)
        invariant forall p :: p in backups ==> IsListed(p) && p !in unvisited
        invariant forall p :: IsListed(p) && p !in unvisited ==> p in backups
        decreases |unvisited|
      {
        var path :| path in unvisited;
        if IsListed(path) {
          backups := backups + [path];
        }
        unvisited := unvisited - {path};
      }
    }

    /** The first half of cleanupAndCompressOldBackups: the listed backups, newest first. */
    method RankBackups() returns (ranked: seq<string>)
      ensures IsRanking(ranked, disk.files, backupDir, BackupBaseName(originalFilePath))
    {
      var backups := ListBackups();
      ranked := SortListing(backups);
    }

    /** The std::sort step applied to a listing: it becomes a ranking. */
    method SortListing(backups: seq<string>) returns (ranked: seq<string>)
      requires Distinct(backups) && forall p :: p in backups <==> IsListed(p)
      ensures IsRanking(ranked, disk.files, backupDir, BackupBaseName(originalFilePath))
      ensures |ranked| == |backups|
    {
      assert forall i :: 0 <= i < |backups| ==> backups[i] in backups;
      ranked := SortNewestFirst(backups, disk.files);
      SortedListingIsRanking(backups, ranked, disk.files, backupDir, BackupBaseName(originalFilePath));
    }

    /**
     * cleanupAndCompressOldBackups: ranks the listed backups newest first,
     * then removes every rank at or past the cap and compresses ranks 10 to 19
     * below it; failures are skipped. Returns how many removals succeeded.
     */
    method CleanupAndCompressOldBackups(maxBackups: int, compressOk: string -> bool, removeOk: string -> bool)
      returns (deleted: int, ghost ranking: seq<string>)
      modifies this`lastError, disk`files
      ensures IsRanking(ranking, old(disk.files), backupDir, BackupBaseName(originalFilePath))
      ensures var st := Rotate(RotationState(old(disk.files), 0, old(lastError)), ranking, |ranking|,
                               Cap(maxBackups), compressOk, removeOk);
        disk.files == st.files && deleted == st.deleted && lastError == st.lastError
    {
      var cap := if maxBackups <= 0 then 20 else maxBackups;
      var ranked := RankBackups();
      ranking := ranked;
      ghost var start := RotationState(disk.files, 0, lastError);
      deleted := 0;
      for i := 0 to |ranked|
        invariant RotationState(disk.files, deleted, lastError) == Rotate(start, ranked, i, cap, compressOk, removeOk)
      {
        deleted := RotateOne(i, ranked[i], cap, deleted, compressOk, removeOk);
      }
    }

    /** One round of the rotation loop: the backup at rank `rank`. */
    method RotateOne(rank: nat, path: string, cap: int, deleted: int, compressOk: string -> bool, removeOk: string -> bool)
      returns (count: int)
      modifies this`lastError, disk`files
      ensures RotationState(disk.files, count, lastError) ==
              RotateStep(RotationState(old(disk.files), deleted, old(lastError)), rank, path, cap, compressOk, removeOk)
    {
      count := deleted;
      if rank >= cap {
        var removed := disk.Remove(path, removeOk(path));
        if removed {
          count := count + 1;
        }
      } else if 10 <= rank < 20 {
        if !EndsWith(path, ".xz") {
          var compressed := disk.Compress(path, compressOk(path));
          if !compressed {
            lastError := "Failed to compress backup: " + path;
          }
        }
      }
    }

    /** Where createBackup puts the backup taken at `stamp`. */
    function BackupTarget(stamp: string): string
      requires IsTimestamp(stamp)
    {
      Join(backupDir, BackupFileName(originalFilePath, stamp))
    }

    /**
     * createBackup: copies the original to the backup directory under
     * `<name>.bak<timestamp>`, overwriting a same-named copy, then rotates with
     * cap 20. `stamp` is what generateTimestamp returns.
     */
    method CreateBackup(stamp: string, compressOk: string -> bool, removeOk: string -> bool)
      returns (path: string, ghost ranking: seq<string>)
      requires IsTimestamp(stamp)
      modifies this`lastError, disk`files
      ensures if originalFilePath !in old(disk.files) then
          path == "" && lastError == "Original file does not exist: " + originalFilePath &&
          disk.files == old(disk.files)
        else if disk.CopyRefused(originalFilePath, BackupTarget(stamp)) then
          path == "" && StartsWith(lastError, "Failed to create backup: ") && disk.files == old(disk.files)
        else
          var copied := old(disk.files)[BackupTarget(stamp) := Entry(old(disk.files)[originalFilePath].content, disk.clock)];
          var st := Rotate(RotationState(copied, 0, old(lastError)), ranking, |ranking|, 20, compressOk, removeOk);
          && path == BackupTarget(stamp)
          && IsRanking(ranking, copied, backupDir, BackupBaseName(originalFilePath))
          && disk.files == st.files && lastError == st.lastError
    {
      path, ranking := "", [];
      if !disk.Exists(originalFilePath) {
        lastError := "Original file does not exist: " + originalFilePath;
        return;
      }
      var target := BackupTarget(stamp);
      var copied, what := disk.CopyFile(originalFilePath, target);
      if !copied {
        lastError := "Failed to create backup: " + what;
        StartsWithAppend("Failed to create backup: ", what);
        return;
      }
      ghost var refused := disk.CopyRefused(originalFilePath, target);
      var _, r := CleanupAndCompressOldBackups(20, compressOk, removeOk);
      assert disk.CopyRefused(originalFilePath, target) == refused;
      ranking := r;
      path := target;
    }

    /**
     * What restoreFromBackup does with `backupPath`, from the state before the
     * call to the state after it: an unpack that fails, a backup that does not
     * exist, a copy that is refused, or the original overwritten with the
     * backup's content. Each case fixes `ok`, `lastError` and the files.
     */
    twostate predicate RestoredFrom(backupPath: string, decompressOk: bool, ok: bool)
      requires |backupPath| >= 3
      reads this, disk
    {
      var packed := EndsWith(backupPath, ".xz");
      var actual := if packed then backupPath[..|backupPath| - 3] else backupPath;
      var before := old(disk.files);
      if packed && !(decompressOk && backupPath in before) then
        !ok && lastError == "Failed to decompress backup: " + backupPath && disk.files == before
      else if !packed && actual !in before then
        !ok && lastError == "Backup file does not exist: " + actual && disk.files == before
      else
        var unpacked := if packed then before[actual := before[backupPath]] else before;
        && (ok <==> actual !in disk.unreadable && originalFilePath !in disk.unwritable && actual != originalFilePath)
        && (ok ==> disk.files == unpacked[originalFilePath := Entry(before[backupPath].content, disk.clock)] &&
                   lastError == old(lastError))
        && (!ok ==> disk.files == unpacked && StartsWith(lastError, "Failed to restore from backup: "))
    }

    /**
     * restoreFromBackup: a path ending in ".xz" is first unpacked next to
     * itself; then the unpacked (or given) file is copied over the original.
     */
    method RestoreFromBackup(backupPath: string, decompressOk: bool) returns (ok: bool)
      requires |backupPath| >= 3
      modifies this`lastError, disk`files
      ensures RestoredFrom(backupPath, decompressOk, ok)
      ensures ok ==> originalFilePath in disk.files &&
                     disk.files[originalFilePath].content == old(disk.files)[backupPath].content
    {
      var actual := backupPath;
      if EndsWith(backupPath, ".xz") {
        var unpacked := disk.Decompress(backupPath, decompressOk);
        if !unpacked {
          lastError := "Failed to decompress backup: " + backupPath;
          return false;
        }
        actual := backupPath[..|backupPath| - 3];
      }
      if !disk.Exists(actual) {
        lastError := "Backup file does not exist: " + actual;
        return false;
      }
      var what;
      ok, what := disk.CopyFile(actual, originalFilePath);
      if !ok {
        lastError := "Failed to restore from backup: " + what;
        StartsWithAppend("Failed to restore from backup: ", what);
      }
    }

    /** getLastBackupPath: "" when nothing is listed, otherwise a listed backup no other one is newer than. */
    method GetLastBackupPath() returns (last: string)
      ensures last == "" <==> forall p :: !IsListed(p)
      ensures last != "" ==> IsListed(last) && forall p :: IsListed(p) ==> !IsNewer(disk.files, p, last)
    {
      var backups := ListBackups();
      if backups == [] {
        assert forall p :: !IsListed(p);
        return "";
      }
      var ranked := SortListing(backups);
      FirstRankedIsNewest(ranked, disk.files, backupDir, BackupBaseName(originalFilePath));
      last := ranked[0];
      ListedNonEmpty(last);
      assert IsListed(last);
    }

    /** A listed backup's path is never empty: its name holds the base name. */
    lemma {:induction false} ListedNonEmpty(path: string)
      requires IsListed(path)
      ensures |path| >= 4
    {
      ContainsLength(FileName(path), BackupBaseName(originalFilePath));
    }

    /** restoreFromLastBackup: "No backup found" when nothing is listed, otherwise a restore from the newest backup. */
    method RestoreFromLastBackup(decompressOk: bool) returns (ok: bool, ghost chosen: string)
      modifies this`lastError, disk`files
      ensures var base := BackupBaseName(originalFilePath);
        (forall p :: !Listed(old(disk.files), backupDir, base, p)) ==>
          !ok && lastError == "No backup found" && disk.files == old(disk.files)
      ensures var base := BackupBaseName(originalFilePath);
        (exists p :: Listed(old(disk.files), backupDir, base, p)) ==>
          Listed(old(disk.files), backupDir, base, chosen) &&
          forall p :: Listed(old(disk.files), backupDir, base, p) ==> !IsNewer(old(disk.files), p, chosen)
      ensures var base := BackupBaseName(originalFilePath);
        (exists p :: Listed(old(disk.files), backupDir, base, p)) ==>
          |chosen| >= 3 && RestoredFrom(chosen, decompressOk, ok)
      ensures ok ==> originalFilePath in disk.files &&
                     disk.files[originalFilePath].content == old(disk.files)[chosen].content
    {
      var last := GetLastBackupPath();
      chosen := last;
      if last == "" {
        forall p
          ensures !Listed(old(disk.files), backupDir, BackupBaseName(originalFilePath), p)
        {
          assert !IsListed(p);
        }
        lastError := "No backup found";
        return false, chosen;
      }
      ListedNonEmpty(last);
      ok := RestoreFromBackup(last, decompressOk);
    }
  }

  /**
   * After createBackup, the new backup keeps the original's content when it
   * is strictly newer than every other backup: it ranks first, and rank 0 is
   * never removed or compressed.
   */
  lemma {:induction false} NewBackupKept(copied: map<string, Entry>, target: string, ranking: seq<string>, dir: string, base: string,
                      lastError: string, compressOk: string -> bool, removeOk: string -> bool)
    requires IsRanking(ranking, copied, dir, base) && target in ranking
    requires forall q :: q in ranking && q != target ==> copied[q].mtime < copied[target].mtime
    ensures var st := Rotate(RotationState(copied, 0, lastError), ranking, |ranking|, 20, compressOk, removeOk);
      target in st.files && st.files[target] == copied[target]
  {
    StrictlyNewestRanksFirst(ranking, copied, target);
    KeptBackupSurvives(RotationState(copied, 0, lastError), ranking, |ranking|, 0, 20, compressOk, removeOk);
  }

  /** The new backup is one of the backups listed afterwards. */
  lemma {:induction false} NewBackupListed(original: string, dir: string, stamp: string, files: map<string, Entry>)
    requires IsTimestamp(stamp) && dir != []
    requires Join(dir, BackupFileName(original, stamp)) in files
    ensures Listed(files, dir, BackupBaseName(original), Join(dir, BackupFileName(original, stamp)))
  {
    var name := BackupFileName(original, stamp);
    FileNameOfJoin(dir, name);
    assert StartsWith(name, BackupBaseName(original));
  }
}
