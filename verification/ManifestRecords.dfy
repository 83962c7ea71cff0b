/** What the accepted manifests are: exactly the texts of operation records, each of one record only. */
module ManifestRecords {
  import opened Wrappers
  import opened Text
  import opened Paths
  import opened Manifest

  // ---------------------------------------------------------- media paths

  /** A name the directory calls can be given. */
  predicate PlainName(name: string) {
    name != "" && name != "." && name != ".." && '/' !in name && '\0' !in name
  }

  predicate MediaExtension(extension: string) {
    LowerAll(extension) in {"jpg", "jpeg", "png", "gif", "webp", "heic", "heif", "tif", "tiff", "bmp", "avif"}
  }

  /** A name made of a stem and one of the eleven media extensions, in any letter case. */
  predicate MediaName(name: string) {
    exists dot :: 0 < dot < |name| && name[dot] == '.' && '.' !in name[dot + 1..] && MediaExtension(name[dot + 1..])
  }

  /** The way to a media file: plain names, none of them too long or too many, the last a media name, the first not the
      quarantine directory. */
  predicate MediaRoute(parts: seq<string>) {
    && 0 < |parts| <= 1024
    && (forall i :: 0 <= i < |parts| ==> PlainName(parts[i]) && |parts[i]| <= 16 * 1024)
    && MediaName(parts[|parts| - 1]) && parts[0] != ".guiying-quarantine"
  }

  lemma {:induction false} PartsHaveNoSlash(raw: string)
    ensures forall i :: 0 <= i < |Split(raw)| ==> '/' !in Split(raw)[i]
    ensures '\0' in raw <==> exists i :: 0 <= i < |Split(raw)| && '\0' in Split(raw)[i]
  {
    if raw != [] {
      var init, c := raw[..|raw| - 1], raw[|raw| - 1];
      PartsHaveNoSlash(init);
      assert raw == init + [c];
      var parts, all := Split(init), Split(raw);
      var n := |parts| - 1;
      if c == '/' {
        assert forall i :: 0 <= i <= n ==> all[i] == parts[i];
        assert all[n + 1] == "";
      } else {
        assert forall i :: 0 <= i < n ==> all[i] == parts[i];
        assert all[n] == parts[n] + [c];
      }
    }
  }

  lemma {:induction false} SplitAppends(raw: string, part: string)
    requires '/' !in part
    ensures Split(raw + "/" + part) == Split(raw) + [part]
  {
    if part == "" {
      assert (raw + "/" + "")[..|raw|] == raw && raw + "/" + "" == raw + "/";
    } else {
      var n := |part| - 1;
      SplitAppends(raw, part[..n]);
      var all := raw + "/" + part;
      assert all[..|all| - 1] == raw + "/" + part[..n] && part == part[..n] + [part[n]];
      assert (Split(raw) + [part[..n]])[..|Split(raw)|] == Split(raw);
    }
  }

  lemma {:induction false} SplitJoin(parts: seq<string>)
    requires |parts| > 0 && forall i :: 0 <= i < |parts| ==> '/' !in parts[i]
    ensures Split(Join(parts)) == parts
  {
    var n := |parts| - 1;
    if n == 0 {
      OneComponent(parts[0]);
    } else {
      SplitJoin(parts[..n]);
      SplitAppends(Join(parts[..n]), parts[n]);
      assert parts == parts[..n] + [parts[n]];
    }
  }

  lemma {:induction false} LastDotIsLast(name: string)
    ensures forall i :: AfterLastDot(name) <= i < |name| ==> name[i] != '.'
  {
    if name != [] && name[|name| - 1] != '.' {
      LastDotIsLast(name[..|name| - 1]);
    }
  }

  lemma ExtensionExact(extension: string)
    ensures MediaExtension(extension) <==> LowerAll(extension) in MEDIA_EXTENSIONS
    ensures MediaExtension(extension) ==> extension != ""
  {
    hide LowerAll;
  }

  lemma MediaNameExact(name: string)
    ensures MediaName(name) <==>
              var dot := AfterLastDot(name); 1 < dot < |name| && LowerAll(name[dot..]) in MEDIA_EXTENSIONS
  {
    hide LowerAll, MediaExtension, MEDIA_EXTENSIONS;
    LastDotIsLast(name);
    var dot := AfterLastDot(name);
    ExtensionExact(name[dot..]);
    if 1 < dot < |name| && MediaExtension(name[dot..]) {
      assert name[dot - 1] == '.' && name[dot - 1 + 1..] == name[dot..];
    }
    if MediaName(name) {
      var d :| 0 < d < |name| && name[d] == '.' && '.' !in name[d + 1..] && MediaExtension(name[d + 1..]);
      assert forall i :: d + 1 <= i < |name| ==> name[i] == name[d + 1..][i - d - 1];
      ExtensionStarts(name, d + 1);
      ExtensionExact(name[d + 1..]);
    }
  }

  lemma ComponentsExact(raw: string)
    ensures var parts := Split(raw);
            (forall i :: 0 <= i < |parts| ==> SafeComponent(parts[i])) && '\0' !in raw
            <==> forall i :: 0 <= i < |parts| ==> PlainName(parts[i]) && |parts[i]| <= 16 * 1024
  {
    PartsHaveNoSlash(raw);
    hide Split;
  }

  /** The accepted media paths are exactly the joined media routes, each of one route only. */
  lemma MediaPathExact(raw: string)
    ensures ValidMediaPath(raw) <==> MediaRoute(Split(raw))
    ensures PathText(Split(raw)) == raw
  {
    hide MediaName, Split, SafeComponent, PlainName, AfterLastDot, LowerAll, MEDIA_EXTENSIONS;
    JoinSplit(raw);
    ComponentsExact(raw);
    var parts := Split(raw);
    MediaNameExact(parts[|parts| - 1]);
    if raw == [] || raw[0] == '/' {
      FirstIsEmpty(raw);
    }
  }

  lemma FirstIsEmpty(raw: string)
    requires raw == [] || raw[0] == '/'
    ensures !PlainName(Split(raw)[0]) && !SafeComponent(Split(raw)[0])
  {
    if raw != [] {
      SplitFirst(raw);
    }
  }

  lemma {:induction false} SplitFirst(raw: string)
    requires raw != [] && raw[0] == '/'
    ensures Split(raw)[0] == "" && |Split(raw)| > 1
  {
    if |raw| > 1 {
      SplitFirst(raw[..|raw| - 1]);
    } else {
      assert raw[..0] == "";
    }
  }

  lemma RouteIsPath(parts: seq<string>)
    requires MediaRoute(parts)
    ensures ValidMediaPath(PathText(parts)) && Split(PathText(parts)) == parts
  {
    SplitJoin(parts);
    MediaPathExact(Join(parts));
  }

  // -------------------------------------------------------------- records

  datatype FileRecord = FileRecord(
    ordinal: nat, observation: nat, route: seq<string>, name: string, size: nat, key: seq<byte>, state: FileState)

  datatype OperationRecord = OperationRecord(
    id: seq<byte>, run: nat, group: nat, keeper: nat, groupKey: seq<byte>, evidence: seq<byte>, content: seq<byte>,
    created: nat, updated: nat, status: Status, files: seq<FileRecord>)

  predicate SoundFile(f: FileRecord) {
    && f.ordinal <= U64_MAX && f.observation <= U64_MAX && f.size <= U64_MAX && |f.key| == 32
    && MediaRoute(f.route) && PlainName(f.name) && |f.name| <= 128
    && f.state in {Planned, Quarantined, Restored}
  }

  predicate SoundFiles(files: seq<FileRecord>) {
    && (forall i :: 0 <= i < |files| ==> SoundFile(files[i]))
    && forall i, j :: 0 <= i < j < |files| ==> files[i].name != files[j].name && files[i].route != files[j].route
  }

  predicate SoundRecord(r: OperationRecord) {
    && |r.id| == 32 && |r.groupKey| == 32 && |r.evidence| == 32 && |r.content| == 32
    && r.run <= U64_MAX && r.group <= U64_MAX && r.keeper <= U64_MAX && r.created <= r.updated <= U64_MAX
    && r.status in {Prepared, Quarantining, AllQuarantined, NeedsRecovery, Restoring, AllRestored, PartiallyRestored}
    && 1 <= |r.files| <= 255 && SoundFiles(r.files)
  }

  function PathText(route: seq<string>): string { if route == [] then "" else Join(route) }

  function FileText(f: FileRecord): ManifestFile {
    ManifestFile(Decimal(f.ordinal), Decimal(f.observation), PathText(f.route), f.name, Decimal(f.size), HexOf(f.key),
                 f.state)
  }

  function FileTexts(files: seq<FileRecord>): (texts: seq<ManifestFile>)
    ensures |texts| == |files| && forall i :: 0 <= i < |files| ==> texts[i] == FileText(files[i])
  {
    seq(|files|, i requires 0 <= i < |files| => FileText(files[i]))
  }

  function IdText(id: seq<byte>): string { "op-" + HexOf(id) }

  function RecordText(r: OperationRecord): OperationManifest {
    OperationManifest(1, IdText(r.id), Decimal(r.run), Decimal(r.group), Decimal(r.keeper), HexOf(r.groupKey),
                      HexOf(r.evidence), "blake3", HexOf(r.content), Decimal(r.created), Decimal(r.updated), r.status,
                      FileTexts(r.files))
  }

  // -------------------------------------------------- reading them back

  function Number(s: string): nat { if IsU64Text(s) then ParseCanonicalU64(s).value else 0 }

  function Key(s: string): seq<byte> { if Unhex32(s).Some? then Unhex32(s).value else [] }

  lemma NumberExact(s: string)
    ensures IsU64Text(s) <==> Number(s) <= U64_MAX && s == Decimal(Number(s))
  {
    CanonicalU64Exact(s, Number(s));
  }

  lemma NumberOf(n: nat)
    requires n <= U64_MAX
    ensures IsU64Text(Decimal(n)) && Number(Decimal(n)) == n
  {
    CanonicalU64Exact(Decimal(n), n);
  }

  lemma KeyExact(s: string)
    ensures Unhex32(s).Some? <==> |Key(s)| == 32 && s == HexOf(Key(s))
  {
    Hex32Exact(s, Key(s));
  }

  lemma KeyOf(bytes: seq<byte>)
    requires |bytes| == 32
    ensures Unhex32(HexOf(bytes)).Some? && Key(HexOf(bytes)) == bytes
  {
    Hex32Exact(HexOf(bytes), bytes);
  }

  lemma IdExact(id: string)
    ensures ValidOperationId(id) <==> |id| == 67 && id[..3] == "op-" && IsHex32(id[3..])
  {
    if |id| == 67 {
      assert forall i :: 3 <= i < 67 ==> id[i] == id[3..][i - 3];
      assert forall i :: 0 <= i < 64 ==> id[3..][i] == id[i + 3];
    }
  }

  /** The record a file entry is the text of. */
  function FileRead(f: ManifestFile): FileRecord {
    FileRecord(Number(f.ordinal), Number(f.observationId), Split(f.path), f.quarantineName, Number(f.sizeBytes),
               Key(f.keyHex), f.state)
  }

  function FilesRead(files: seq<ManifestFile>): (records: seq<FileRecord>)
    ensures |records| == |files| && forall i :: 0 <= i < |files| ==> records[i] == FileRead(files[i])
  {
    seq(|files|, i requires 0 <= i < |files| => FileRead(files[i]))
  }

  function RecordRead(m: OperationManifest): OperationRecord {
    var id := if |m.operationId| >= 3 then m.operationId[3..] else "";
    OperationRecord(Key(id), Number(m.scanRunId), Number(m.groupBuildId), Number(m.keeperOrdinal), Key(m.groupKeyHex),
                    Key(m.evidenceManifestHex), Key(m.contentDigestHex), Number(m.created), Number(m.updated), m.status,
                    FilesRead(m.files))
  }

  lemma FileExact(f: ManifestFile)
    ensures ValidFile(f) <==> SoundFile(FileRead(f)) && FileText(FileRead(f)) == f
  {
    hide ValidMediaPath, MediaRoute, Decimal, HexOf, Number, Key, IsU64Text, Unhex32, Join, Split, PathText, PlainName;
    NumberExact(f.ordinal);
    NumberExact(f.observationId);
    NumberExact(f.sizeBytes);
    KeyExact(f.keyHex);
    MediaPathExact(f.path);
    NameIsInternal(f.quarantineName);
  }

  lemma FileOf(f: FileRecord)
    requires SoundFile(f)
    ensures ValidFile(FileText(f)) && FileRead(FileText(f)) == f
  {
    hide ValidMediaPath, MediaRoute, Decimal, HexOf, Number, Key, IsU64Text, Unhex32, Join, Split, PathText, PlainName;
    NumberOf(f.ordinal);
    NumberOf(f.observation);
    NumberOf(f.size);
    KeyOf(f.key);
    RouteIsPath(f.route);
    NameIsInternal(f.name);
  }

  lemma NameIsInternal(name: string)
    ensures ValidInternalName(name) <==> PlainName(name) && |name| <= 128
  {
  }

  /** The header of the manifest is the text of a sound record's. */
  predicate HeaderIs(m: OperationManifest, expectedId: string, r: OperationRecord) {
    && m.operationId == expectedId == IdText(r.id) && m.schemaVersion == 1 && m.digestAlgorithm == "blake3"
    && |r.id| == 32 && |r.groupKey| == 32 && |r.evidence| == 32 && |r.content| == 32
    && r.run <= U64_MAX && r.group <= U64_MAX && r.keeper <= U64_MAX && r.created <= r.updated <= U64_MAX
    && m.status == r.status && 1 <= |m.files| <= 255
    && r.status in {Prepared, Quarantining, AllQuarantined, NeedsRecovery, Restoring, AllRestored, PartiallyRestored}
    && m.scanRunId == Decimal(r.run) && m.groupBuildId == Decimal(r.group) && m.keeperOrdinal == Decimal(r.keeper)
    && m.groupKeyHex == HexOf(r.groupKey) && m.evidenceManifestHex == HexOf(r.evidence)
    && m.contentDigestHex == HexOf(r.content)
    && m.created == Decimal(r.created) && m.updated == Decimal(r.updated)
  }

  lemma HeaderExact(m: OperationManifest, expectedId: string)
    ensures ValidHeader(m, expectedId) <==> HeaderIs(m, expectedId, RecordRead(m))
  {
    hide Decimal, HexOf, ParseCanonicalU64, Unhex32, ValidOperationId, IdText;
    NumberExact(m.scanRunId);
    NumberExact(m.groupBuildId);
    NumberExact(m.keeperOrdinal);
    NumberExact(m.created);
    NumberExact(m.updated);
    KeyExact(m.groupKeyHex);
    KeyExact(m.evidenceManifestHex);
    KeyExact(m.contentDigestHex);
    IdIsText(m.operationId);
  }

  lemma IdIsText(id: string)
    ensures var key := Key(if |id| >= 3 then id[3..] else "");
            ValidOperationId(id) <==> |key| == 32 && id == IdText(key)
  {
    IdExact(id);
    var rest := if |id| >= 3 then id[3..] else "";
    KeyExact(rest);
    var key := Key(rest);
    if |key| == 32 && id == IdText(key) {
      assert id[..3] == "op-" && id[3..] == HexOf(key);
    }
    if |id| == 67 && id[..3] == "op-" {
      assert id == id[..3] + id[3..];
    }
    hide HexOf;
  }

  lemma FilesExact(files: seq<ManifestFile>)
    ensures ValidUpTo(files, |files|) && DistinctUpTo(files, |files|)
            <==> SoundFiles(FilesRead(files)) && FileTexts(FilesRead(files)) == files
  {
    hide ValidFile, SoundFile, FileText, Split;
    var records := FilesRead(files);
    forall i | 0 <= i < |files|
      ensures ValidFile(files[i]) <==> SoundFile(records[i]) && FileText(records[i]) == files[i]
    {
      FileExact(files[i]);
    }
    forall i, j | 0 <= i < j < |files|
      ensures files[i].path != files[j].path <==> records[i].route != records[j].route
    {
      JoinSplit(files[i].path);
      JoinSplit(files[j].path);
    }
    assert forall i :: 0 <= i < |files| ==> records[i].name == files[i].quarantineName;
  }

  /** What the validator accepts under an operation's identifier is exactly the text of a sound record with that
      identifier, and the record can be read from it. */
  lemma AcceptsExactlyRecords(m: OperationManifest, expectedId: string)
    ensures ValidManifest(m, expectedId) <==>
              SoundRecord(RecordRead(m)) && m == RecordText(RecordRead(m)) && expectedId == m.operationId
  {
    HeaderExact(m, expectedId);
    FilesExact(m.files);
    hide ValidHeader, SoundFiles, FileTexts, FilesRead, ValidUpTo, DistinctUpTo, Decimal, HexOf, IdText, Number, Key;
    assert RecordRead(m).files == FilesRead(m.files);
  }

  /** Writing a sound record gives a manifest the validator accepts, and reading it gives the record back. */
  lemma RecordsReadBack(r: OperationRecord)
    requires SoundRecord(r)
    ensures ValidManifest(RecordText(r), IdText(r.id)) && RecordRead(RecordText(r)) == r
  {
    var m := RecordText(r);
    forall i | 0 <= i < |r.files|
      ensures FileRead(m.files[i]) == r.files[i]
    {
      FileOf(r.files[i]);
    }
    assert FilesRead(m.files) == r.files;
    NumberOf(r.run);
    NumberOf(r.group);
    NumberOf(r.keeper);
    NumberOf(r.created);
    NumberOf(r.updated);
    KeyOf(r.id);
    KeyOf(r.groupKey);
    KeyOf(r.evidence);
    KeyOf(r.content);
    assert IdText(r.id)[3..] == HexOf(r.id);
    hide FileRead, FileText, Decimal, HexOf, Number, Key, SoundFile;
    assert RecordRead(m) == r;
    AcceptsExactlyRecords(m, IdText(r.id));
  }

  /** Numbers are written in decimal, keys in lower-case hexadecimal, member numbers with six digits at least. */
  lemma WrittenForms()
    ensures Decimal(1207) == "1207" && HexOf([0xab, 0x0f]) == "ab0f"
    ensures MemberName(7) == "member-000007.bin"
  {
    assert Decimal(120) == "120" && Decimal(12) == "12" && Decimal(1) == "1" && Decimal(7) == "7";
    assert HexOf([0xab]) == "ab" by {
      assert [0xab as byte][..0] == [];
    }
    assert [0xab as byte, 0x0f][..1] == [0xab] && [0xab as byte, 0x0f][1..] == [0x0f];
    assert Zeros(5) == "00000";
  }

  // ------------------------------------------------------- from the store

  /** What a manifest made from a plan reads back as: the plan, and file by file what the store recorded of the members
      other than the keeper. */
  lemma PlanReadsBack(id: seq<byte>, content: seq<byte>, e: GroupEvidence, now: nat)
    requires Loaded(e) && I64(e) && now <= U64_MAX && |id| == 32 && Manifestable(IdText(id), content, e, now)
    ensures e.scanRunId >= 0 && e.groupBuildId >= 0
    ensures var r := RecordRead(FromPlan(IdText(id), content, e, now));
            r == OperationRecord(id, e.scanRunId, e.groupBuildId, e.keeperOrdinal, e.groupKey, e.manifestDigest,
                                 content, now, now, Quarantining, r.files)
            && |r.files| == e.memberCount - 1
  {
    NumberOf(e.scanRunId);
    NumberOf(e.groupBuildId);
    NumberOf(e.keeperOrdinal);
    NumberOf(now);
    KeyOf(id);
    KeyOf(content);
    KeyOf(e.groupKey);
    KeyOf(e.manifestDigest);
    assert IdText(id)[3..] == HexOf(id);
    hide HexOf, Decimal, Number, Key;
  }

  lemma PlannedFileReadsBack(groupBuildId: int, records: seq<MemberRecord>, e: GroupEvidence, operationId: string,
                             content: seq<byte>, now: nat, i: nat)
    requires Loaded(e) && I64(e) && Announced(records, groupBuildId, e.memberCount) && e.members == AllEvidence(records)
    requires Manifestable(operationId, content, e, now) && i < e.memberCount - 1
    ensures var k := if i < e.keeperOrdinal then i else i + 1;
            && e.members[k].birth == records[k].birth && e.members[k].modified == records[k].modified
            && records[k].observationId >= 0
            && FileRead(FromPlan(operationId, content, e, now).files[i])
               == FileRecord(k, records[k].observationId, Split(records[k].path), "member-" + Padded6(k) + ".bin",
                             records[k].size, records[k].key.value, Planned)
  {
    MoversNonNegative(e);
    MoverAt(e, i);
    var k := if i < e.keeperOrdinal then i else i + 1;
    var m := Movers(e.members, e.keeperOrdinal)[i];
    assert m == e.members[k] == EvidenceOf(records[k]);
    assert FromPlan(operationId, content, e, now).files[i] == PlannedFile(m);
    NumberOf(m.ordinal);
    NumberOf(m.observationId);
    NumberOf(m.size);
    KeyOf(m.key);
    hide HexOf, Decimal, Number, Key, Split, Movers, Manifestable, Loaded, Announced, Padded6;
  }
}
