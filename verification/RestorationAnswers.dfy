/** What a restore answers, whatever other processes do and whichever calls fail: every file it counts has been seen at
    home, and its answer and the manifest it leaves agree. */
module RestorationAnswers {
  import opened Wrappers
  import opened Text
  import opened FileSystem
  import opened Paths
  import opened Manifest
  import opened Quarantine
  import opened QuarantineRuns
  import opened ExecutionAnswers
  import Service = QuarantineService

  /** In some state of the run the file this task describes was home and its quarantine name vacant. */
  ghost predicate HomeWithin(o: Oracle, d: Disk, trace: seq<Disk>, t: RestoreTask) {
    exists b: nat :: b <= |trace| && SafelyHome(o, DiskAt(d, trace, b).fs, t)
  }

  ghost predicate SafelyHome(o: Oracle, fs: Fs, t: RestoreTask) { SafelyRestored(o, fs, t) }

  /** In some state of the run this restore was tried, with these circumstances, and did not put or find the file. */
  ghost predicate RefusedWithin(o: Oracle, d: Disk, trace: seq<Disk>, t: RestoreTask, x: Interference) {
    exists a: nat :: a <= |trace| && NotRestored(o, DiskAt(d, trace, a).fs, t, x)
  }

  ghost predicate NotRestored(o: Oracle, fs: Fs, t: RestoreTask, x: Interference) { !RestoreOne(o, fs, t, x).restored }

  lemma HomeLater(o: Oracle, d: Disk, first: seq<Disk>, rest: seq<Disk>, t: RestoreTask)
    requires HomeWithin(o, LastDisk(d, first), rest, t)
    ensures HomeWithin(o, d, first + rest, t)
  {
    hide SafelyHome;
    var here := LastDisk(d, first);
    var b: nat :| b <= |rest| && SafelyHome(o, DiskAt(here, rest, b).fs, t);
    assert DiskAt(d, first + rest, |first| + b) == DiskAt(here, rest, b);
  }

  lemma HomeEarlier(o: Oracle, d: Disk, first: seq<Disk>, rest: seq<Disk>, t: RestoreTask)
    requires HomeWithin(o, d, first, t)
    ensures HomeWithin(o, d, first + rest, t)
  {
    hide SafelyHome;
    var b: nat :| b <= |first| && SafelyHome(o, DiskAt(d, first, b).fs, t);
    assert DiskAt(d, first + rest, b) == DiskAt(d, first, b);
  }

  lemma RefusedLater(o: Oracle, d: Disk, first: seq<Disk>, rest: seq<Disk>, t: RestoreTask, x: Interference)
    requires RefusedWithin(o, LastDisk(d, first), rest, t, x)
    ensures RefusedWithin(o, d, first + rest, t, x)
  {
    hide NotRestored;
    var here := LastDisk(d, first);
    var a: nat :| a <= |rest| && NotRestored(o, DiskAt(here, rest, a).fs, t, x);
    assert DiskAt(d, first + rest, |first| + a) == DiskAt(here, rest, a);
  }

  lemma OneRestore(o: Oracle, d: Disk, t: RestoreTask, x: Interference, after: seq<Disk>)
    ensures var run := RestoreOne(o, d.fs, t, x);
            && (run.restored ==> HomeWithin(o, d, Lift(d, run.trace), t))
            && (!run.restored ==> RefusedWithin(o, d, Lift(d, run.trace) + after, t, x))
  {
    hide RestoreOne, SafelyRestored;
    var run := RestoreOne(o, d.fs, t, x);
    var lifted := Lift(d, run.trace);
    if run.restored {
      RestoreContract(o, d.fs, t, x);
      Service.LiftEnds(d, run.trace);
      assert DiskAt(d, lifted, |lifted|).fs == Last(d.fs, run.trace);
      assert SafelyHome(o, DiskAt(d, lifted, |lifted|).fs, t);
    } else {
      assert DiskAt(d, lifted + after, 0) == d;
      assert NotRestored(o, DiskAt(d, lifted + after, 0).fs, t, x);
    }
  }

  /** The same restore, whatever progress on earlier files the manifest records. */
  lemma SameRestore(site: Site, m: OperationManifest, i: nat, k: nat, digest: seq<byte>, now: nat)
    requires i < k < |m.files|
    ensures RestoreTaskFor(site, Stamp(SetState(m, i, Restored), now), k, digest) == RestoreTaskFor(site, m, k, digest)
  {
  }

  /** The manifest at the end of a run that responds, and the root where it was. */
  predicate ClosedAs(d: Disk, site: Site, m: OperationManifest, verified: nat, status: Status) {
    && Walk(d.fs, d.fs.slash, site.root.selected) == Some(site.root.dir)
    && site.opDir in d.manifests && d.manifests[site.opDir].status == status
    && |d.manifests[site.opDir].files| == |m.files|
    && forall k :: 0 <= k < |m.files| ==>
         d.manifests[site.opDir].files[k] == if k < verified then m.files[k].(state := Restored) else m.files[k]
  }

  /** The first i files are recorded as restored. */
  predicate RestoredSoFar(m: OperationManifest, i: nat) {
    i <= |m.files| && forall k :: 0 <= k < i ==> m.files[k].state == Restored
  }

  lemma CloseAnswers(d: Disk, site: Site, m: OperationManifest, i: nat, x: Adversary)
    requires RestoredSoFar(m, i)
    ensures var close := CloseRestore(d, site, m, i, x);
            && close.verified == i && close.end in {RestoreDone, RestoreStopped, RestoreWriteStopped}
            && (close.end == RestoreDone ==>
                  i == |m.files| && ClosedAs(LastDisk(d, close.trace), site, m, i, AllRestored))
            && (close.end == RestoreStopped ==>
                  i < |m.files| && ClosedAs(LastDisk(d, close.trace), site, m, i, PartiallyRestored))
  {
    hide ValidManifest, Walk;
    forall k | 0 <= k < i
      ensures m.files[k] == m.files[k].(state := Restored)
    {
    }
  }

  /** The loop from the i-th file on: what it counts, where it stopped, and what it recorded. */
  lemma {:induction false} RestoreFromAnswers(o: Oracle, d: Disk, site: Site, m: OperationManifest, digest: seq<byte>,
                                              i: nat, x: Adversary)
    requires RestoredSoFar(m, i)
    ensures var run := RestoreFrom(o, d, site, m, digest, i, x);
            && i <= run.verified <= |m.files|
            && (forall k: nat :: i <= k < run.verified ==>
                  HomeWithin(o, d, run.trace, RestoreTaskFor(site, m, k, digest)))
            && run.end in {RestoreDone, RestoreStopped, RestoreWriteStopped}
            && (run.end == RestoreDone ==>
                  run.verified == |m.files| && ClosedAs(LastDisk(d, run.trace), site, m, run.verified, AllRestored))
            && (run.end == RestoreStopped ==>
                  && run.verified < |m.files|
                  && ClosedAs(LastDisk(d, run.trace), site, m, run.verified, PartiallyRestored)
                  && RefusedWithin(o, d, run.trace, RestoreTaskFor(site, m, run.verified, digest),
                                   x.moves(run.verified)))
    decreases |m.files| - i
  {
    hide RestoreFrom, RestoreOne, Write, Lift, CloseRestore, HomeWithin, RefusedWithin, ClosedAs, RestoreTaskFor;
    var run := RestoreFrom(o, d, site, m, digest, i, x);
    if i == |m.files| {
      Service.RestoreFromCloses(o, d, site, m, digest, x);
      CloseAnswers(d, site, m, i, x);
    } else {
      Service.RestoreFromNext(o, d, site, m, digest, i, x);
      var t := RestoreTaskFor(site, m, i, digest);
      var one := RestoreOne(o, d.fs, t, x.moves(i));
      var lifted := Lift(d, one.trace);
      var here := LastDisk(d, lifted);
      var close := CloseRestore(here, site, m, i, x);
      OneRestore(o, d, t, x.moves(i), close.trace);
      if !one.restored {
        CloseAnswers(here, site, m, i, x);
        assert LastDisk(d, lifted + close.trace) == LastDisk(here, close.trace);
      } else {
        TurnAnswers(o, d, site, m, digest, i, x);
      }
    }
  }

  lemma {:induction false} TurnAnswers(o: Oracle, d: Disk, site: Site, m: OperationManifest, digest: seq<byte>,
                                       i: nat, x: Adversary)
    requires i < |m.files| && RestoredSoFar(m, i)
    requires RestoreOne(o, d.fs, RestoreTaskFor(site, m, i, digest), x.moves(i)).restored
    ensures var run := RestoreFrom(o, d, site, m, digest, i, x);
            && i <= run.verified <= |m.files|
            && (forall k: nat :: i <= k < run.verified ==>
                  HomeWithin(o, d, run.trace, RestoreTaskFor(site, m, k, digest)))
            && run.end in {RestoreDone, RestoreStopped, RestoreWriteStopped}
            && (run.end == RestoreDone ==>
                  run.verified == |m.files| && ClosedAs(LastDisk(d, run.trace), site, m, run.verified, AllRestored))
            && (run.end == RestoreStopped ==>
                  && run.verified < |m.files|
                  && ClosedAs(LastDisk(d, run.trace), site, m, run.verified, PartiallyRestored)
                  && RefusedWithin(o, d, run.trace, RestoreTaskFor(site, m, run.verified, digest),
                                   x.moves(run.verified)))
    decreases |m.files| - i, 0
  {
    hide RestoreFrom, RestoreOne, Write, Lift, HomeWithin, RefusedWithin, ClosedAs, RestoreTaskFor, RestoredSoFar;
    Service.RestoreFromNext(o, d, site, m, digest, i, x);
    var t := RestoreTaskFor(site, m, i, digest);
    var lifted := Lift(d, RestoreOne(o, d.fs, t, x.moves(i)).trace);
    OneRestore(o, d, t, x.moves(i), []);
    var after := SetState(m, i, Restored);
    var w := Write(LastDisk(d, lifted), site.opDir, after, x, i + 1);
    var run := RestoreFrom(o, d, site, m, digest, i, x);
    if w.Some? {
      HomeEarlier(o, d, lifted, [w.value], t);
    }
    if w.Some? && !x.syncFails(i + 1) {
      var next := Stamp(after, x.now(i + 1));
      NextRestored(m, i, x.now(i + 1));
      RestoreFromAnswers(o, w.value, site, next, digest, i + 1, x);
      var rest := RestoreFrom(o, w.value, site, next, digest, i + 1, x);
      var first := lifted + [w.value];
      assert LastDisk(d, first) == w.value && LastDisk(d, first + rest.trace) == LastDisk(w.value, rest.trace);
      HomeEarlier(o, d, first, rest.trace, t);
      forall k: nat | i < k < rest.verified
        ensures HomeWithin(o, d, first + rest.trace, RestoreTaskFor(site, m, k, digest))
      {
        SameRestore(site, m, i, k, digest, x.now(i + 1));
        HomeLater(o, d, first, rest.trace, RestoreTaskFor(site, m, k, digest));
      }
      if rest.end == RestoreStopped {
        SameRestore(site, m, i, rest.verified, digest, x.now(i + 1));
        RefusedLater(o, d, first, rest.trace, RestoreTaskFor(site, m, rest.verified, digest), x.moves(rest.verified));
      }
      ClosedEarlier(LastDisk(d, run.trace), site, m, i, rest.verified, x.now(i + 1));
    }
  }

  lemma NextRestored(m: OperationManifest, i: nat, now: nat)
    requires i < |m.files| && RestoredSoFar(m, i)
    ensures RestoredSoFar(Stamp(SetState(m, i, Restored), now), i + 1)
    ensures |Stamp(SetState(m, i, Restored), now).files| == |m.files|
  {
  }

  lemma ClosedEarlier(d: Disk, site: Site, m: OperationManifest, i: nat, verified: nat, now: nat)
    requires i < |m.files| && i < verified
    ensures forall s :: ClosedAs(d, site, Stamp(SetState(m, i, Restored), now), verified, s)
                        ==> ClosedAs(d, site, m, verified, s)
  {
  }

  /** The site of an operation: its directories below the standing root, and a valid manifest of it. */
  ghost predicate HasSite(d: Disk, root: Root, operationId: string, site: Site) {
    && site.root == root && site.operationId == operationId
    && Walk(d.fs, d.fs.slash, root.selected) == Some(root.dir)
    && Walk(d.fs, root.dir, [QUARANTINE_DIRECTORY, OPERATIONS_DIRECTORY, operationId]) == Some(site.opDir)
    && Walk(d.fs, root.dir, [QUARANTINE_DIRECTORY, OPERATIONS_DIRECTORY, operationId, FILES_DIRECTORY])
       == Some(site.filesDir)
    && site.opDir in d.manifests && ValidManifest(d.manifests[site.opDir], operationId)
  }

  lemma SiteIsFound(d: Disk, root: Root, operationId: string)
    ensures forall site :: HasSite(d, root, operationId, site) <==> FindSite(d, root, operationId) == Some(site)
  {
    hide Walk, ValidManifest;
    assert FilesPath(operationId)[..3] == [QUARANTINE_DIRECTORY, OPERATIONS_DIRECTORY, operationId];
  }

  /** What a restore answers. It is refused exactly if the operation cannot be found or opened, and then nothing is
      touched. Every file it counts has been seen at home as the manifest describes it. If it says that it is done, all
      files are counted, and the manifest it leaves says that all are restored; if it says that it stopped, the manifest
      says partially restored, and the first file not counted was tried and could not be put or found at home. In both
      cases the manifest records the counted files as restored and leaves the entries of the others as they were. */
  lemma RestorationAnswersTruly(o: Oracle, d: Disk, root: Root, operationId: string, x: Adversary)
    ensures var run := RestoreOp(o, d, root, operationId, x);
            && (run.end == RestoreRefused <==> x.openFails || forall site :: !HasSite(d, root, operationId, site))
            && (run.end == RestoreRefused ==> run.trace == [] && run.verified == 0)
            && (run.end != RestoreRefused ==>
                  var site := FindSite(d, root, operationId).value;
                  var m := d.manifests[site.opDir];
                  && HasSite(d, root, operationId, site) && Unhex32(m.contentDigestHex).Some?
                  && var digest := Unhex32(m.contentDigestHex).value;
                     && run.verified <= |m.files|
                     && (forall k: nat :: k < run.verified ==>
                           HomeWithin(o, d, run.trace, RestoreTaskFor(site, m, k, digest)))
                     && (run.end == RestoreDone ==>
                           && run.verified == |m.files|
                           && ClosedAs(LastDisk(d, run.trace), site, m, |m.files|, AllRestored))
                     && (run.end == RestoreStopped ==>
                           && run.verified < |m.files|
                           && ClosedAs(LastDisk(d, run.trace), site, m, run.verified, PartiallyRestored)
                           && RefusedWithin(o, d, run.trace, RestoreTaskFor(site, m, run.verified, digest),
                                            x.moves(run.verified))))
  {
    SiteIsFound(d, root, operationId);
    hide FindSite, RestoreFrom, Write, HomeWithin, RefusedWithin, ClosedAs, RestoreTaskFor, ValidManifest, HasSite;
    var found := FindSite(d, root, operationId);
    if found.Some? && !x.openFails {
      var site := found.value;
      assert HasSite(d, root, operationId, site);
      Service.SiteHolds(d, root, operationId);
      var m := d.manifests[site.opDir].(status := Restoring);
      var w := Write(d, site.opDir, m, x, 0);
      if w.Some? && !x.syncFails(0) {
        RestartAnswers(o, d, site, m, Unhex32(m.contentDigestHex).value, x, w.value);
      }
    }
  }

  lemma RestartAnswers(o: Oracle, d: Disk, site: Site, m: OperationManifest, digest: seq<byte>, x: Adversary, w: Disk)
    requires site.opDir in d.manifests && m == d.manifests[site.opDir].(status := Restoring)
    ensures var rest := RestoreFrom(o, w, site, Stamp(m, x.now(0)), digest, 0, x);
            var m0 := d.manifests[site.opDir];
            var trace := [w] + rest.trace;
            && rest.verified <= |m0.files| && rest.end in {RestoreDone, RestoreStopped, RestoreWriteStopped}
            && (forall k: nat :: k < rest.verified ==> HomeWithin(o, d, trace, RestoreTaskFor(site, m0, k, digest)))
            && (rest.end == RestoreDone ==>
                  rest.verified == |m0.files| && ClosedAs(LastDisk(d, trace), site, m0, |m0.files|, AllRestored))
            && (rest.end == RestoreStopped ==>
                  && rest.verified < |m0.files|
                  && ClosedAs(LastDisk(d, trace), site, m0, rest.verified, PartiallyRestored)
                  && RefusedWithin(o, d, trace, RestoreTaskFor(site, m0, rest.verified, digest),
                                   x.moves(rest.verified)))
  {
    hide RestoreFrom, HomeWithin, RefusedWithin;
    var m0 := d.manifests[site.opDir];
    var stamped := Stamp(m, x.now(0));
    RestoreFromAnswers(o, w, site, stamped, digest, 0, x);
    var rest := RestoreFrom(o, w, site, stamped, digest, 0, x);
    assert LastDisk(d, [w]) == w && LastDisk(d, [w] + rest.trace) == LastDisk(w, rest.trace);
    forall k: nat | k < rest.verified
      ensures HomeWithin(o, d, [w] + rest.trace, RestoreTaskFor(site, m0, k, digest))
    {
      assert RestoreTaskFor(site, m0, k, digest) == RestoreTaskFor(site, stamped, k, digest);
      HomeLater(o, d, [w], rest.trace, RestoreTaskFor(site, m0, k, digest));
    }
    if rest.end == RestoreStopped {
      assert RestoreTaskFor(site, m0, rest.verified, digest) == RestoreTaskFor(site, stamped, rest.verified, digest);
      RefusedLater(o, d, [w], rest.trace, RestoreTaskFor(site, m0, rest.verified, digest), x.moves(rest.verified));
    }
  }
}
