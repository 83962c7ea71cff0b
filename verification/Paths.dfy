/** Relative media paths: splitting into components, the supported-media rule,
    companion-asset names, and resolution below the authorised root. */
module Paths {
  import opened Wrappers
  import opened FileSystem

  const QUARANTINE_DIRECTORY: string := ".guiying-quarantine"
  const OPERATIONS_DIRECTORY: string := "operations"
  const FILES_DIRECTORY: string := "files"
  const MAX_COMPONENTS: nat := 1024
  const MAX_COMPONENT_BYTES: nat := 16 * 1024

  /** `raw.split('/')`: always at least one, possibly empty, component. */
  function Split(raw: string): (parts: seq<string>)
    ensures |parts| > 0
  {
    if raw == [] then [""]
    else
      var parts := Split(raw[..|raw| - 1]);
      var c := raw[|raw| - 1];
      if c == '/' then parts + [""]
      else parts[..|parts| - 1] + [parts[|parts| - 1] + [c]]
  }

  function Join(parts: seq<string>): string
    requires |parts| > 0
  {
    if |parts| == 1 then parts[0] else Join(parts[..|parts| - 1]) + "/" + parts[|parts| - 1]
  }

  lemma {:induction false} JoinSplit(raw: string)
    ensures Join(Split(raw)) == raw
  {
    if raw != [] {
      var init, c := raw[..|raw| - 1], raw[|raw| - 1];
      JoinSplit(init);
      var parts := Split(init);
      var n := |parts| - 1;
      if c == '/' {
        assert Split(raw)[..n + 1] == parts;
        assert init + "/" + "" == raw;
      } else {
        assert Split(raw)[..n] == parts[..n];
        if n > 0 {
          assert Join(Split(raw)) == Join(parts[..n]) + "/" + (parts[n] + [c]);
          assert Join(parts[..n]) + "/" + (parts[n] + [c]) == Join(parts) + [c];
        }
        assert init + [c] == raw;
      }
    }
  }

  predicate SafeComponent(part: string) {
    part != "" && part != "." && part != ".." && |part| <= MAX_COMPONENT_BYTES
  }

  /** `split_relative_components`. */
  function SplitRelative(raw: string): Option<seq<string>> {
    if raw == [] || raw[0] == '/' || '\0' in raw then None
    else
      var parts := Split(raw);
      if |parts| <= MAX_COMPONENTS && (forall i :: 0 <= i < |parts| ==> SafeComponent(parts[i]))
      then Some(parts) else None
  }

  lemma SplitRelativeInjective(p: string, q: string)
    requires SplitRelative(p).Some? && SplitRelative(p) == SplitRelative(q)
    ensures p == q
  {
    JoinSplit(p);
    JoinSplit(q);
  }

  /** Index just after the last dot, or 0 when there is none. */
  function AfterLastDot(name: string): (i: nat)
    ensures i <= |name|
    ensures i > 0 ==> name[i - 1] == '.'
  {
    if name == [] then 0
    else if name[|name| - 1] == '.' then |name|
    else AfterLastDot(name[..|name| - 1])
  }

  lemma {:induction false} OneComponent(raw: string)
    requires '/' !in raw
    ensures Split(raw) == [raw]
  {
    if raw == [] {
      assert Split(raw) == [raw];
    } else {
      OneComponent(raw[..|raw| - 1]);
      assert raw[..|raw| - 1] + [raw[|raw| - 1]] == raw;
    }
  }

  lemma {:induction false} ExtensionStarts(raw: string, dot: nat)
    requires 0 < dot <= |raw| && raw[dot - 1] == '.' && forall i :: dot <= i < |raw| ==> raw[i] != '.'
    ensures AfterLastDot(raw) == dot
  {
    if dot < |raw| {
      ExtensionStarts(raw[..|raw| - 1], dot);
    }
  }

  function Lower(c: char): char { if 'A' <= c <= 'Z' then c + ('a' - 'A') else c }

  function LowerAll(s: string): (r: string)
    ensures |r| == |s|
  {
    seq(|s|, i requires 0 <= i < |s| => Lower(s[i]))
  }

  const MEDIA_EXTENSIONS: set<string> :=
    {"jpg", "jpeg", "png", "gif", "webp", "heic", "heif", "tif", "tiff", "bmp", "avif"}

  /** `validate_standalone_media_path`. */
  predicate ValidMediaPath(raw: string) {
    var split := SplitRelative(raw);
    split.Some? &&
    var parts := split.value;
    var name := parts[|parts| - 1];
    var dot := AfterLastDot(name);
    && 1 < dot < |name|
    && LowerAll(name[dot..]) in MEDIA_EXTENSIONS
    && parts[0] != QUARANTINE_DIRECTORY
  }

  const SIDECAR_EXTENSIONS: seq<string> :=
    ["xmp", "XMP", "aae", "AAE", "thm", "THM", "dop", "DOP", "pp3", "PP3", "on1", "ON1", "json", "JSON", "xml", "XML"]

  /** The names `ensure_no_known_companion` probes beside a file. */
  predicate IsCompanionName(name: string, candidate: string) {
    var dot := AfterLastDot(name);
    && candidate != name
    && (|| candidate == "._" + name
        || (exists i :: 0 <= i < |SIDECAR_EXTENSIONS| &&
              (candidate == name + "." + SIDECAR_EXTENSIONS[i] ||
               (dot > 0 && candidate == name[..dot] + SIDECAR_EXTENSIONS[i]))))
  }

  predicate NoCompanion(fs: Fs, at: Slot) {
    AfterLastDot(at.name) > 0 && forall s :: s in fs.entries && s.dir == at.dir ==> !IsCompanionName(at.name, s.name)
  }

  /** `open_relative_parent`: the slot a media path denotes, if every parent resolves. */
  function Resolve(fs: Fs, root: DirId, raw: string): Option<Slot> {
    match SplitRelative(raw)
    case None => None
    case Some(parts) =>
      if parts[0] == QUARANTINE_DIRECTORY then None
      else
        match Walk(fs, root, parts[..|parts| - 1])
        case None => None
        case Some(dir) => Some(Slot(dir, parts[|parts| - 1]))
  }

  lemma ResolveSame(a: Fs, b: Fs, root: DirId, raw: string)
    requires SameDirectories(a, b)
    ensures Resolve(a, root, raw) == Resolve(b, root, raw)
  {
    var parts := SplitRelative(raw);
    if parts.Some? {
      WalkSame(a, b, root, parts.value[..|parts.value| - 1]);
    }
  }

  /** In a directory tree, different media paths denote different slots. */
  lemma ResolveInjective(fs: Fs, rank: DirId -> nat, root: DirId, p: string, q: string)
    requires Tree(fs, rank)
    requires Resolve(fs, root, p).Some? && Resolve(fs, root, p) == Resolve(fs, root, q)
    ensures p == q
  {
    var pp, qq := SplitRelative(p).value, SplitRelative(q).value;
    WalkInjective(fs, rank, root, pp[..|pp| - 1], qq[..|qq| - 1]);
    assert pp == pp[..|pp| - 1] + [pp[|pp| - 1]] && qq == qq[..|qq| - 1] + [qq[|qq| - 1]];
    SplitRelativeInjective(p, q);
  }
}
