/** Group evidence, the recovery manifest built from it, and the manifest's validator. */
module Manifest {
  import opened Wrappers
  import opened Text
  import opened Paths

  const MAX_GROUP_MEMBERS: int := 256
  const MAX_GROUP_LOGICAL_BYTES: int := 64 * 1024 * 1024 * 1024
  const MAX_MANIFEST_FILES: nat := 255
  const OPERATION_ID_PREFIX: string := "op-"
  const TOKEN_HEX_BYTES: nat := 64

  // ------------------------------------------------------------- evidence

  datatype MemberEvidence = MemberEvidence(
    ordinal: int, observationId: int, path: string, size: int, key: seq<byte>, birth: Option<int>, modified: int)

  datatype GroupEvidence = GroupEvidence(
    scanRunId: int, groupBuildId: int, keeperOrdinal: int, groupKey: seq<byte>, manifestDigest: seq<byte>,
    memberCount: int, logicalBytes: int, members: seq<MemberEvidence>)

  datatype Eligibility = Eligible | ReviewRequired | Blocked

  /** `classify_group_eligibility`. */
  function Classify(memberCount: int, independentCount: int, logicalBytes: int): Eligibility {
    if memberCount < 2 then Blocked
    else if independentCount != memberCount then Blocked
    else if logicalBytes < 0 then Blocked
    else if memberCount > MAX_GROUP_MEMBERS then ReviewRequired
    else if logicalBytes > MAX_GROUP_LOGICAL_BYTES then ReviewRequired
    else Eligible
  }

  /** One row of a member page as the store reports it. */
  datatype MemberRecord = MemberRecord(
    groupBuildId: int, ordinal: int, sortRank: int, unixBytes: bool, stablePathKey: seq<byte>,
    sourceSignature: seq<byte>, key: Option<seq<byte>>, path: string, size: int, observationId: int,
    birth: Option<int>, modified: int)

  datatype MemberPage = MemberPage(items: seq<MemberRecord>, more: bool)

  predicate AcceptableRecord(r: MemberRecord, groupBuildId: int, position: nat, expected: nat) {
    && r.key.Some? && |r.key.value| == 32
    && r.groupBuildId == groupBuildId && r.ordinal == position && r.sortRank == position
    && r.unixBytes && r.path != "" && |r.stablePathKey| == 32 && |r.sourceSignature| == 32
    && r.size >= 0 && position < expected
  }

  predicate CanonicalMembers(members: seq<MemberEvidence>) {
    forall i :: 0 <= i < |members| ==>
      members[i].ordinal == i && |members[i].key| == 32 && members[i].size >= 0 && members[i].path != ""
  }

  /** What the loader promises of the evidence it hands to a plan. */
  predicate Loaded(e: GroupEvidence) {
    && CanonicalMembers(e.members)
    && |e.members| == e.memberCount && 2 <= e.memberCount <= MAX_GROUP_MEMBERS
    && 0 <= e.keeperOrdinal < e.memberCount
    && 0 <= e.logicalBytes <= MAX_GROUP_LOGICAL_BYTES
  }

  /** The records of the first n pages, in order. */
  function Records(page: nat -> MemberPage, n: nat): seq<MemberRecord> {
    if n == 0 then [] else Records(page, n - 1) + page(n - 1).items
  }

  /** The n-th page is the last: every page before it has records and announces another. */
  predicate PagesEnd(page: nat -> MemberPage, n: nat) {
    n > 0 && !page(n - 1).more && forall i :: 0 <= i < n - 1 ==> page(i).more && page(i).items != []
  }

  predicate AcceptableRecords(records: seq<MemberRecord>, groupBuildId: int, expected: nat) {
    forall i :: 0 <= i < |records| ==> AcceptableRecord(records[i], groupBuildId, i, expected)
  }

  /** The evidence a plan keeps of one record. */
  function EvidenceOf(r: MemberRecord): MemberEvidence {
    var key := if r.key.Some? then r.key.value else [];
    MemberEvidence(r.ordinal, r.observationId, r.path, r.size, key, r.birth, r.modified)
  }

  function AllEvidence(records: seq<MemberRecord>): (members: seq<MemberEvidence>)
    ensures |members| == |records| && forall i :: 0 <= i < |members| ==> members[i] == EvidenceOf(records[i])
  {
    seq(|records|, i requires 0 <= i < |records| => EvidenceOf(records[i]))
  }

  /** The records are those announced of the group: as many, each at its own place in the order, with its exact path
      bytes, its fingerprints and its object key. */
  ghost predicate Announced(records: seq<MemberRecord>, groupBuildId: int, expected: nat) {
    && |records| == expected
    && forall i :: 0 <= i < expected ==>
         && records[i].groupBuildId == groupBuildId && records[i].ordinal == i == records[i].sortRank
         && records[i].unixBytes && records[i].path != "" && records[i].size >= 0
         && |records[i].stablePathKey| == 32 && |records[i].sourceSignature| == 32
         && records[i].key.Some? && |records[i].key.value| == 32
  }

  lemma AnnouncedExactly(records: seq<MemberRecord>, groupBuildId: int, expected: nat)
    ensures Announced(records, groupBuildId, expected)
            <==> |records| == expected && AcceptableRecords(records, groupBuildId, expected)
  {
  }

  /** The store's pages are a complete, well-formed list of exactly the announced members. */
  ghost predicate Delivers(page: nat -> MemberPage, n: nat, groupBuildId: int, expected: nat) {
    PagesEnd(page, n) && Announced(Records(page, n), groupBuildId, expected)
  }

  lemma {:induction false} RecordsPrefix(page: nat -> MemberPage, a: nat, b: nat)
    requires a <= b
    ensures Records(page, a) <= Records(page, b)
  {
    if a < b {
      RecordsPrefix(page, a, b - 1);
    }
  }

  /** A bad record on a page that is read spoils every complete list. */
  lemma BadRecordSpoils(page: nat -> MemberPage, cursor: nat, groupBuildId: int, expected: nat)
    requires forall i :: 0 <= i < cursor ==> page(i).more
    requires !AcceptableRecords(Records(page, cursor + 1), groupBuildId, expected)
    ensures forall n: nat :: !Delivers(page, n, groupBuildId, expected)
  {
    hide AcceptableRecord, Announced;
    forall n: nat
      ensures !Delivers(page, n, groupBuildId, expected)
    {
      if PagesEnd(page, n) {
        RecordsPrefix(page, cursor + 1, n);
        AnnouncedExactly(Records(page, n), groupBuildId, expected);
      }
    }
  }

  /** The records of one page after those already taken. */
  method TakePage(items: seq<MemberRecord>, taken: seq<MemberEvidence>, groupBuildId: int, expected: nat,
                  ghost before: seq<MemberRecord>)
    returns (r: Option<seq<MemberEvidence>>)
    requires taken == AllEvidence(before) && AcceptableRecords(before, groupBuildId, expected) && |taken| <= expected
    ensures r.Some? <==> AcceptableRecords(before + items, groupBuildId, expected)
    ensures r.Some? ==> r.value == AllEvidence(before + items) && |r.value| <= expected
  {
    hide AcceptableRecord, EvidenceOf;
    ghost var all := before + items;
    var members := taken;
    assert all[..|before|] == before;
    for i := 0 to |items|
      invariant |members| == |before| + i <= expected
      invariant members == AllEvidence(all[..|before| + i])
      invariant AcceptableRecords(all[..|before| + i], groupBuildId, expected)
    {
      var m := items[i];
      assert m == all[|before| + i];
      if !AcceptableRecord(m, groupBuildId, |members|, expected) {
        return None;
      }
      AcceptableCounts(m, groupBuildId, |members|, expected);
      members := members + [EvidenceOf(m)];
    }
    assert all[..|all|] == all;
    return Some(members);
  }

  lemma AcceptableCounts(r: MemberRecord, groupBuildId: int, position: nat, expected: nat)
    requires AcceptableRecord(r, groupBuildId, position, expected)
    ensures position < expected
  {
  }

  lemma AcceptedAreLoaded(records: seq<MemberRecord>, groupBuildId: int, expected: nat)
    requires AcceptableRecords(records, groupBuildId, expected)
    ensures CanonicalMembers(AllEvidence(records))
  {
  }

  lemma OnlyEnd(page: nat -> MemberPage, n: nat)
    requires PagesEnd(page, n)
    ensures forall k: nat :: PagesEnd(page, k) ==> k == n
  {
  }

  /** The member loop of `load_quarantine_group_evidence`, over whatever pages the store returns: it accepts exactly
      an eligible group whose pages deliver the announced members, and hands on those records. */
  method LoadEvidence(scanRunId: int, groupBuildId: int, keeperOrdinal: int, groupKey: seq<byte>,
                      manifestDigest: seq<byte>, memberCount: int, independentCount: int, logicalBytes: int,
                      page: nat -> MemberPage)
    returns (r: Option<GroupEvidence>)
    requires keeperOrdinal >= 0
    ensures r.Some? <==>
              && 2 <= memberCount == independentCount <= 256 && 0 <= logicalBytes <= 64 * 1024 * 1024 * 1024
              && keeperOrdinal < memberCount
              && exists n: nat :: Delivers(page, n, groupBuildId, memberCount)
    ensures r.Some? ==> Loaded(r.value) && memberCount == independentCount
    ensures r.Some? ==> exists n: nat :: Delivers(page, n, groupBuildId, memberCount)
                          && r.value == GroupEvidence(scanRunId, groupBuildId, keeperOrdinal, groupKey, manifestDigest,
                                                      memberCount, logicalBytes, AllEvidence(Records(page, n)))
  {
    hide AcceptableRecords, EvidenceOf, Announced;
    if Classify(memberCount, independentCount, logicalBytes) != Eligible || keeperOrdinal >= memberCount {
      return None;
    }
    var members: seq<MemberEvidence> := [];
    var cursor := 0;
    var more := true;
    NoRecordsAcceptable(groupBuildId, memberCount);
    while more
      invariant |members| <= memberCount
      invariant members == AllEvidence(Records(page, cursor))
      invariant AcceptableRecords(Records(page, cursor), groupBuildId, memberCount)
      invariant forall i :: 0 <= i < cursor - 1 ==> page(i).more && page(i).items != []
      invariant cursor > 0 ==> (more <==> page(cursor - 1).more) && (more ==> page(cursor - 1).items != [])
      invariant !more ==> cursor > 0
      decreases memberCount - |members|, more
    {
      var items := page(cursor).items;
      more := page(cursor).more;
      if items == [] && more {
        assert forall n: nat :: !PagesEnd(page, n);
        return None;
      }
      var next := TakePage(items, members, groupBuildId, memberCount, Records(page, cursor));
      if next.None? {
        BadRecordSpoils(page, cursor, groupBuildId, memberCount);
        return None;
      }
      members := next.value;
      cursor := cursor + 1;
    }
    OnlyEnd(page, cursor);
    AnnouncedExactly(Records(page, cursor), groupBuildId, memberCount);
    if |members| != memberCount {
      return None;
    }
    AcceptedAreLoaded(Records(page, cursor), groupBuildId, memberCount);
    assert Delivers(page, cursor, groupBuildId, memberCount);
    r := Some(GroupEvidence(scanRunId, groupBuildId, keeperOrdinal, groupKey, manifestDigest, memberCount, logicalBytes,
                            members));
  }

  lemma NoRecordsAcceptable(groupBuildId: int, expected: nat)
    ensures AcceptableRecords([], groupBuildId, expected)
  {
  }

  /** The members other than the keeper, in order: the ones a plan moves. */
  function Movers(members: seq<MemberEvidence>, keeper: int): seq<MemberEvidence> {
    if members == [] then []
    else
      var last := members[|members| - 1];
      Movers(members[..|members| - 1], keeper) + if last.ordinal != keeper then [last] else []
  }

  lemma WithoutOne(members: seq<MemberEvidence>, k: nat)
    requires k < |members| - 1
    ensures var init := members[..|members| - 1];
            members[..k] + members[k + 1..] == init[..k] + init[k + 1..] + [members[|members| - 1]]
  {
  }

  lemma LastMover(members: seq<MemberEvidence>, keeper: int)
    ensures Movers([], keeper) == []
    ensures members != [] ==> var n := |members| - 1;
              Movers(members, keeper)
              == Movers(members[..n], keeper) + if members[n].ordinal != keeper then [members[n]] else []
  {
  }

  lemma {:induction false} MoversSkipKeeper(members: seq<MemberEvidence>, keeper: nat)
    requires CanonicalMembers(members)
    ensures keeper >= |members| ==> Movers(members, keeper) == members
    ensures keeper < |members| ==> Movers(members, keeper) == members[..keeper] + members[keeper + 1..]
  {
    hide Movers;
    LastMover(members, keeper);
    if members != [] {
      var n := |members| - 1;
      MoversSkipKeeper(members[..n], keeper);
      assert members[n].ordinal == n;
      if keeper < n {
        WithoutOne(members, keeper);
      } else if keeper == n {
        assert members[..keeper] + members[keeper + 1..] == members[..n];
      } else {
        assert members == members[..n] + [members[n]];
      }
    }
  }

  /** The loop index of the i-th move: movers keep their order, skip only the keeper, and
      carry their own distinct ordinals. */
  lemma MoverAt(e: GroupEvidence, i: nat)
    requires Loaded(e) && i < |Movers(e.members, e.keeperOrdinal)|
    ensures |Movers(e.members, e.keeperOrdinal)| == e.memberCount - 1 <= MAX_MANIFEST_FILES
    ensures Movers(e.members, e.keeperOrdinal)[i] == e.members[if i < e.keeperOrdinal then i else i + 1]
    ensures Movers(e.members, e.keeperOrdinal)[i].ordinal == if i < e.keeperOrdinal then i else i + 1
  {
    MoversSkipKeeper(e.members, e.keeperOrdinal);
  }

  // ------------------------------------------------------------- manifest

  datatype FileState = Planned | Quarantined | Restored | UnknownState(text: string)

  datatype Status =
    | Prepared | Quarantining | AllQuarantined | NeedsRecovery | Restoring | AllRestored | PartiallyRestored
    | UnknownStatus(text: string)

  /** Numbers, keys and digests are text, as they are in the JSON document. */
  datatype ManifestFile = ManifestFile(
    ordinal: string, observationId: string, path: string, quarantineName: string,
    sizeBytes: string, keyHex: string, state: FileState)

  datatype OperationManifest = OperationManifest(
    schemaVersion: nat, operationId: string, scanRunId: string, groupBuildId: string, keeperOrdinal: string,
    groupKeyHex: string, evidenceManifestHex: string, digestAlgorithm: string, contentDigestHex: string,
    created: string, updated: string, status: Status, files: seq<ManifestFile>)

  predicate ValidOperationId(id: string) {
    && |id| == |OPERATION_ID_PREFIX| + TOKEN_HEX_BYTES
    && id[..|OPERATION_ID_PREFIX|] == OPERATION_ID_PREFIX
    && forall i :: |OPERATION_ID_PREFIX| <= i < |id| ==> IsLowerHex(id[i])
  }

  predicate ValidInternalName(name: string) {
    0 < |name| <= 128 && '/' !in name && '\0' !in name && name != "." && name != ".."
  }

  predicate IsU64Text(s: string) { ParseCanonicalU64(s).Some? }

  predicate ValidFile(f: ManifestFile) {
    && IsU64Text(f.ordinal) && IsU64Text(f.observationId) && IsU64Text(f.sizeBytes)
    && Unhex32(f.keyHex).Some?
    && ValidMediaPath(f.path)
    && ValidInternalName(f.quarantineName)
    && !f.state.UnknownState?
  }

  predicate ValidUpTo(files: seq<ManifestFile>, n: nat)
    requires n <= |files|
  {
    forall i :: 0 <= i < n ==> ValidFile(files[i])
  }

  predicate Distinct(xs: seq<string>, n: nat)
    requires n <= |xs|
  {
    forall i, j :: 0 <= i < j < n ==> xs[i] != xs[j]
  }

  function Names(files: seq<ManifestFile>): (xs: seq<string>)
    ensures |xs| == |files| && forall i :: 0 <= i < |files| ==> xs[i] == files[i].quarantineName
  {
    seq(|files|, i requires 0 <= i < |files| => files[i].quarantineName)
  }

  function OriginalPaths(files: seq<ManifestFile>): (xs: seq<string>)
    ensures |xs| == |files| && forall i :: 0 <= i < |files| ==> xs[i] == files[i].path
  {
    seq(|files|, i requires 0 <= i < |files| => files[i].path)
  }

  predicate DistinctUpTo(files: seq<ManifestFile>, n: nat)
    requires n <= |files|
  {
    Distinct(Names(files), n) && Distinct(OriginalPaths(files), n)
  }

  predicate ValidHeader(m: OperationManifest, expectedId: string) {
    && ValidOperationId(expectedId)
    && m.schemaVersion == 1 && m.operationId == expectedId && m.digestAlgorithm == "blake3"
    && !m.status.UnknownStatus?
    && 0 < |m.files| <= MAX_MANIFEST_FILES
    && Unhex32(m.groupKeyHex).Some? && Unhex32(m.evidenceManifestHex).Some? && Unhex32(m.contentDigestHex).Some?
    && IsU64Text(m.scanRunId) && IsU64Text(m.groupBuildId) && IsU64Text(m.keeperOrdinal)
    && IsU64Text(m.created) && IsU64Text(m.updated)
    && ParseCanonicalU64(m.created).value <= ParseCanonicalU64(m.updated).value
  }

  /** What `validate_manifest` accepts. */
  predicate ValidManifest(m: OperationManifest, expectedId: string) {
    && ValidHeader(m, expectedId)
    && ValidUpTo(m.files, |m.files|)
    && DistinctUpTo(m.files, |m.files|)
  }

  ghost predicate Seen(xs: seq<string>, n: nat, s: set<string>)
    requires n <= |xs|
  {
    && (forall j :: 0 <= j < n ==> xs[j] in s)
    && (forall x :: x in s ==> exists j :: 0 <= j < n && xs[j] == x)
  }

  lemma SeenNext(xs: seq<string>, n: nat, s: set<string>)
    requires n < |xs| && Seen(xs, n, s) && Distinct(xs, n)
    ensures Seen(xs, n + 1, s + {xs[n]})
    ensures Distinct(xs, n + 1) <==> xs[n] !in s
  {
    forall x | x in s + {xs[n]}
      ensures exists j :: 0 <= j < n + 1 && xs[j] == x
    {
      if x !in s {
        assert xs[n] == x;
      }
    }
  }

  /** `validate_manifest`: one pass over the files with two sets of names already seen. */
  method ValidateManifest(m: OperationManifest, expectedId: string) returns (ok: bool)
    ensures ok <==> ValidManifest(m, expectedId)
  {
    if !ValidHeader(m, expectedId) {
      return false;
    }
    ok := ValidateFiles(m.files);
  }

  method ValidateFiles(files: seq<ManifestFile>) returns (ok: bool)
    ensures ok <==> ValidUpTo(files, |files|) && DistinctUpTo(files, |files|)
  {
    var seenNames: set<string>, seenPaths: set<string> := {}, {};
    var i := 0;
    while i < |files|
      invariant 0 <= i <= |files|
      invariant ValidUpTo(files, i) && DistinctUpTo(files, i)
      invariant Seen(Names(files), i, seenNames) && Seen(OriginalPaths(files), i, seenPaths)
    {
      if !ValidFile(files[i]) {
        return false;
      }
      SeenNext(Names(files), i, seenNames);
      SeenNext(OriginalPaths(files), i, seenPaths);
      if files[i].quarantineName in seenNames || files[i].path in seenPaths {
        return false;
      }
      seenNames, seenPaths := seenNames + {files[i].quarantineName}, seenPaths + {files[i].path};
      i := i + 1;
    }
    return true;
  }

  // ------------------------------------------------- building and updating

  function MemberName(ordinal: nat): string { "member-" + Padded6(ordinal) + ".bin" }

  function PlannedFile(m: MemberEvidence): ManifestFile
    requires m.ordinal >= 0
  {
    ManifestFile(SignedDecimal(m.ordinal), SignedDecimal(m.observationId), m.path, MemberName(m.ordinal),
                 SignedDecimal(m.size), HexOf(m.key), Planned)
  }

  function PlannedFiles(movers: seq<MemberEvidence>): (files: seq<ManifestFile>)
    requires forall i :: 0 <= i < |movers| ==> movers[i].ordinal >= 0
    ensures |files| == |movers| && forall i :: 0 <= i < |movers| ==> files[i] == PlannedFile(movers[i])
  {
    seq(|movers|, i requires 0 <= i < |movers| => PlannedFile(movers[i]))
  }

  lemma MoversNonNegative(e: GroupEvidence)
    requires Loaded(e)
    ensures |Movers(e.members, e.keeperOrdinal)| == e.memberCount - 1
    ensures forall i :: 0 <= i < |Movers(e.members, e.keeperOrdinal)| ==>
              Movers(e.members, e.keeperOrdinal)[i].ordinal >= 0
  {
    MoversSkipKeeper(e.members, e.keeperOrdinal);
  }

  /** `manifest_from_plan`, with the status the executor gives it before the first write. */
  function FromPlan(operationId: string, contentDigest: seq<byte>, e: GroupEvidence, now: nat): (m: OperationManifest)
    requires Loaded(e)
    ensures |m.files| == e.memberCount - 1
  {
    MoversNonNegative(e);
    OperationManifest(1, operationId, SignedDecimal(e.scanRunId), SignedDecimal(e.groupBuildId),
                      SignedDecimal(e.keeperOrdinal), HexOf(e.groupKey), HexOf(e.manifestDigest), "blake3",
                      HexOf(contentDigest), Decimal(now), Decimal(now), Quarantining,
                      PlannedFiles(Movers(e.members, e.keeperOrdinal)))
  }

  /** A clock reading or database number the manifest can carry. */
  predicate Representable(n: int) { 0 <= n <= U64_MAX }

  lemma SignedDecimalText(n: int)
    requires n <= U64_MAX
    ensures IsU64Text(SignedDecimal(n)) <==> Representable(n)
    ensures Representable(n) ==> ParseCanonicalU64(SignedDecimal(n)) == Some(n)
  {
    if n >= 0 {
      CanonicalU64Exact(Decimal(n), n);
    } else {
      var s := SignedDecimal(n);
      if IsU64Text(s) {
        CanonicalU64Exact(s, ParseCanonicalU64(s).value);
      }
    }
  }

  lemma MemberNamesDistinct(m: nat, n: nat)
    requires m <= U64_MAX && n <= U64_MAX && MemberName(m) == MemberName(n)
    ensures m == n
  {
    var a, b := MemberName(m), MemberName(n);
    assert a[7..|a| - 4] == Padded6(m) && b[7..|b| - 4] == Padded6(n);
    Padded6Injective(m, n);
  }

  lemma {:induction false} DecimalShort(n: nat)
    requires n < 1000
    ensures |Decimal(n)| <= 3
  {
    assert |Decimal(n / 10 / 10)| == 1;
    assert n >= 10 ==> |Decimal(n / 10)| <= 2;
  }

  lemma MemberNameValid(n: nat)
    requires n < 1000
    ensures ValidInternalName(MemberName(n))
  {
    DecimalShort(n);
    var s := Padded6(n);
    assert forall i :: 0 <= i < |s| ==> IsDigit(s[i]);
    var name := MemberName(n);
    assert name[0] == 'm';
    forall i | 0 <= i < |name|
      ensures name[i] != '/' && name[i] != '\0'
    {
      assert i < 7 || i >= |name| - 4 || IsDigit(name[i]);
    }
  }

  /** When the plan's manifest passes its own validator: exactly when the identifiers and the clock
      fit the text codecs and the movers' paths are supported and pairwise different. File count,
      member names, ordinals, sizes and object keys need no condition: the loader settles them. */
  predicate Manifestable(operationId: string, contentDigest: seq<byte>, e: GroupEvidence, now: nat)
    requires Loaded(e)
  {
    var movers := Movers(e.members, e.keeperOrdinal);
    && ValidOperationId(operationId)
    && |contentDigest| == 32 && |e.groupKey| == 32 && |e.manifestDigest| == 32
    && Representable(e.scanRunId) && Representable(e.groupBuildId) && Representable(now)
    && (forall i :: 0 <= i < |movers| ==> Representable(movers[i].observationId) && ValidMediaPath(movers[i].path))
    && (forall i, j :: 0 <= i < j < |movers| ==> movers[i].path != movers[j].path)
  }

  lemma HexText(bytes: seq<byte>)
    ensures Unhex32(HexOf(bytes)).Some? <==> |bytes| == 32
    ensures |bytes| == 32 ==> Unhex32(HexOf(bytes)) == Some(bytes)
  {
    if |bytes| == 32 {
      Hex32Exact(HexOf(bytes), bytes);
    }
  }

  predicate I64(e: GroupEvidence) {
    && e.scanRunId <= U64_MAX && e.groupBuildId <= U64_MAX
    && forall i :: 0 <= i < |e.members| ==> e.members[i].observationId <= U64_MAX && e.members[i].size <= U64_MAX
  }

  lemma PlannedFileValid(m: MemberEvidence)
    requires 0 <= m.ordinal < 1000 && |m.key| == 32 && 0 <= m.size <= U64_MAX && m.observationId <= U64_MAX
    ensures ValidFile(PlannedFile(m)) <==> Representable(m.observationId) && ValidMediaPath(m.path)
  {
    SignedDecimalText(m.ordinal);
    SignedDecimalText(m.observationId);
    SignedDecimalText(m.size);
    HexText(m.key);
    MemberNameValid(m.ordinal);
  }

  lemma HeaderFromPlan(operationId: string, contentDigest: seq<byte>, e: GroupEvidence, now: nat)
    requires Loaded(e) && I64(e) && now <= U64_MAX
    ensures ValidHeader(FromPlan(operationId, contentDigest, e, now), operationId) <==>
              && ValidOperationId(operationId)
              && |contentDigest| == 32 && |e.groupKey| == 32 && |e.manifestDigest| == 32
              && Representable(e.scanRunId) && Representable(e.groupBuildId)
  {
    SignedDecimalText(e.scanRunId);
    SignedDecimalText(e.groupBuildId);
    SignedDecimalText(e.keeperOrdinal);
    CanonicalU64Exact(Decimal(now), now);
    HexText(contentDigest);
    HexText(e.groupKey);
    HexText(e.manifestDigest);
  }

  lemma FilesFromPlan(e: GroupEvidence, i: nat)
    requires Loaded(e) && I64(e) && i < |Movers(e.members, e.keeperOrdinal)|
    ensures Movers(e.members, e.keeperOrdinal)[i].ordinal >= 0
    ensures var m := Movers(e.members, e.keeperOrdinal)[i];
            ValidFile(PlannedFile(m)) <==> Representable(m.observationId) && ValidMediaPath(m.path)
  {
    MoverAt(e, i);
    PlannedFileValid(Movers(e.members, e.keeperOrdinal)[i]);
  }

  lemma NamesFromPlan(e: GroupEvidence, i: nat, j: nat)
    requires Loaded(e) && i < j < |Movers(e.members, e.keeperOrdinal)|
    ensures var movers := Movers(e.members, e.keeperOrdinal);
            0 <= movers[i].ordinal && 0 <= movers[j].ordinal
            && MemberName(movers[i].ordinal) != MemberName(movers[j].ordinal)
  {
    MoverAt(e, i);
    MoverAt(e, j);
    var movers := Movers(e.members, e.keeperOrdinal);
    if MemberName(movers[i].ordinal) == MemberName(movers[j].ordinal) {
      MemberNamesDistinct(movers[i].ordinal, movers[j].ordinal);
    }
  }

  lemma PlannedFilesValid(e: GroupEvidence)
    requires Loaded(e) && I64(e)
    ensures var movers := Movers(e.members, e.keeperOrdinal);
            && (forall i :: 0 <= i < |movers| ==> movers[i].ordinal >= 0)
            && (ValidUpTo(PlannedFiles(movers), |movers|) <==>
                  forall i :: 0 <= i < |movers| ==>
                    Representable(movers[i].observationId) && ValidMediaPath(movers[i].path))
  {
    MoversNonNegative(e);
    var movers := Movers(e.members, e.keeperOrdinal);
    forall i | 0 <= i < |movers|
      ensures ValidFile(PlannedFiles(movers)[i]) <==>
                Representable(movers[i].observationId) && ValidMediaPath(movers[i].path)
    {
      FilesFromPlan(e, i);
    }
  }

  lemma PlannedFilesDistinct(e: GroupEvidence)
    requires Loaded(e)
    ensures var movers := Movers(e.members, e.keeperOrdinal);
            && (forall i :: 0 <= i < |movers| ==> movers[i].ordinal >= 0)
            && (DistinctUpTo(PlannedFiles(movers), |movers|) <==>
                  forall i, j :: 0 <= i < j < |movers| ==> movers[i].path != movers[j].path)
  {
    MoversNonNegative(e);
    var movers := Movers(e.members, e.keeperOrdinal);
    var files := PlannedFiles(movers);
    forall i, j | 0 <= i < j < |movers|
      ensures files[i].quarantineName != files[j].quarantineName
    {
      NamesFromPlan(e, i, j);
    }
    assert forall i :: 0 <= i < |movers| ==> files[i].path == movers[i].path;
  }

  lemma PlannedManifestValid(operationId: string, contentDigest: seq<byte>, e: GroupEvidence, now: nat)
    requires Loaded(e) && I64(e) && now <= U64_MAX
    ensures ValidManifest(FromPlan(operationId, contentDigest, e, now), operationId)
            <==> Manifestable(operationId, contentDigest, e, now)
  {
    HeaderFromPlan(operationId, contentDigest, e, now);
    PlannedFilesValid(e);
    PlannedFilesDistinct(e);
  }

  // ------------------------------------------------ progress and reporting

  /** The only file states a run leaves behind: restored, then quarantined, then planned. */
  predicate Shape(files: seq<ManifestFile>, restored: nat, quarantined: nat) {
    && restored + quarantined <= |files|
    && forall i :: 0 <= i < |files| ==>
         files[i].state == if i < restored then Restored else if i < restored + quarantined then Quarantined
         else Planned
  }

  function SetState(m: OperationManifest, i: nat, state: FileState): OperationManifest
    requires i < |m.files|
  {
    m.(files := m.files[i := m.files[i].(state := state)])
  }

  function Stamp(m: OperationManifest, now: nat): OperationManifest { m.(updated := Decimal(now)) }

  /** Equal apart from progress: states, status and the update time. */
  predicate SameOperation(a: OperationManifest, b: OperationManifest) {
    && |a.files| == |b.files|
    && a.(status := b.status, updated := b.updated, files := b.files) == b
    && forall i :: 0 <= i < |a.files| ==> a.files[i].(state := b.files[i].state) == b.files[i]
  }

  predicate KnownStates(m: OperationManifest) {
    !m.status.UnknownStatus? && forall i :: 0 <= i < |m.files| ==> !m.files[i].state.UnknownState?
  }

  /** Progress never breaks the manifest: an updated valid manifest passes the validator again
      exactly when the clock has not gone back behind the creation time. */
  lemma UpdateValid(a: OperationManifest, b: OperationManifest, now: nat)
    requires ValidManifest(a, a.operationId) && SameOperation(a, b) && KnownStates(b) && now <= U64_MAX
    ensures ParseCanonicalU64(a.created).Some?
    ensures ValidManifest(Stamp(b, now), a.operationId) <==> ParseCanonicalU64(a.created).value <= now
  {
    CanonicalU64Exact(Decimal(now), now);
    assert Names(b.files) == Names(a.files) && OriginalPaths(b.files) == OriginalPaths(a.files);
    forall i | 0 <= i < |b.files|
      ensures ValidFile(b.files[i])
    {
      assert a.files[i].(state := b.files[i].state) == b.files[i];
      assert ValidFile(a.files[i]);
    }
  }

  datatype OperationItem = OperationItem(status: Status, fileCount: nat, quarantinedCount: nat, restoredCount: nat,
                                         logicalBytes: nat)

  function SizeOf(f: ManifestFile): nat {
    if IsU64Text(f.sizeBytes) then ParseCanonicalU64(f.sizeBytes).value else 0
  }

  function TotalSize(files: seq<ManifestFile>): nat {
    if files == [] then 0 else TotalSize(files[..|files| - 1]) + SizeOf(files[|files| - 1])
  }

  lemma {:induction false} TotalSizeMonotone(files: seq<ManifestFile>, i: nat)
    requires i <= |files|
    ensures TotalSize(files[..i]) <= TotalSize(files)
    decreases |files| - i
  {
    if i == |files| {
      assert files[..i] == files;
    } else {
      TotalSizeMonotone(files, i + 1);
      assert files[..i + 1][..i] == files[..i];
    }
  }

  function CountState(files: seq<ManifestFile>, state: FileState): nat {
    if files == [] then 0
    else CountState(files[..|files| - 1], state) + if files[|files| - 1].state == state then 1 else 0
  }

  /** In every manifest a run leaves behind, the counts are the lengths of the two leading blocks. */
  lemma {:induction false} ShapeCounts(files: seq<ManifestFile>, restored: nat, quarantined: nat)
    requires Shape(files, restored, quarantined)
    ensures CountState(files, Restored) == restored && CountState(files, Quarantined) == quarantined
  {
    if files != [] {
      var n := |files| - 1;
      var a := if restored <= n then restored else n;
      var b := if a + quarantined <= n then quarantined else n - a;
      assert Shape(files[..n], a, b);
      ShapeCounts(files[..n], a, b);
    }
  }

  lemma TakeNext(files: seq<ManifestFile>, i: nat)
    requires i < |files|
    ensures TotalSize(files[..i + 1]) == TotalSize(files[..i]) + SizeOf(files[i])
    ensures forall s :: CountState(files[..i + 1], s)
                        == CountState(files[..i], s) + if files[i].state == s then 1 else 0
  {
    assert files[..i + 1][..i] == files[..i];
  }

  /** The counting loop of `operation_item`; `None` when the byte total overflows. */
  method Tally(files: seq<ManifestFile>) returns (r: Option<(nat, nat, nat)>)
    ensures r.Some? <==> TotalSize(files) <= U64_MAX
    ensures r.Some? ==> r.value == (CountState(files, Quarantined), CountState(files, Restored), TotalSize(files))
  {
    var quarantined, restored, logicalBytes := 0, 0, 0;
    var i := 0;
    assert files[..0] == [];
    while i < |files|
      invariant 0 <= i <= |files|
      invariant logicalBytes == TotalSize(files[..i]) <= U64_MAX
      invariant restored == CountState(files[..i], Restored)
      invariant quarantined == CountState(files[..i], Quarantined)
    {
      TakeNext(files, i);
      if logicalBytes + SizeOf(files[i]) > U64_MAX {
        TotalSizeMonotone(files, i + 1);
        return None;
      }
      logicalBytes := logicalBytes + SizeOf(files[i]);
      match files[i].state {
        case Quarantined => quarantined := quarantined + 1;
        case Restored => restored := restored + 1;
        case _ =>
      }
      i := i + 1;
    }
    assert files[..|files|] == files;
    r := Some((quarantined, restored, logicalBytes));
  }

  /** `operation_item`: the listing reports exactly the progress the manifest records. */
  method DescribeOperation(m: OperationManifest) returns (r: Option<OperationItem>)
    ensures r.Some? <==> ValidManifest(m, m.operationId) && TotalSize(m.files) <= U64_MAX
    ensures r.Some? ==> r.value == OperationItem(m.status, |m.files|, CountState(m.files, Quarantined),
                                                 CountState(m.files, Restored), TotalSize(m.files))
  {
    var valid := ValidateManifest(m, m.operationId);
    if !valid {
      return None;
    }
    var tally := Tally(m.files);
    match tally {
      case None => r := None;
      case Some(t) => r := Some(OperationItem(m.status, |m.files|, t.0, t.1, t.2));
    }
  }
}
