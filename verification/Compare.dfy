/** Exact comparison of two files that other processes may be changing, and its linearisation. */
module Compare {
  import opened Wrappers
  import opened Text
  import opened FileSystem
  import opened Reading
  import Quarantine

  type Oracle = Quarantine.Oracle

  const VERIFY_BUFFER_BYTES: nat := 1024 * 1024

  /** How a file is reached: by path below trusted directories, component by component from a bound
      root, or through a descriptor pinned earlier. */
  datatype Access =
    | ByPath(dir: DirId, name: Name)
    | RootRelative(anchor: DirId, components: seq<Name>)
    | Pinned(file: FileId)

  datatype OpenError = OpenFailed | NotRegular | Changed

  datatype CompareError = Cancelled | CannotOpen | NotRegularFile | ChangedDuringRead | CannotRead | CannotStat

  datatype ByteComparison = ByteComparison(identical: bool, bytesCompared: nat)

  // ------------------------------------------------------ stable opening

  function EntryNode(w: World, dir: DirId, name: Name, t: nat): Option<Node> { w.entry(dir, name, t) }

  /** `fstat` on an open object. */
  method Stat(m: Machine, f: FileId) returns (r: Option<Snapshot>)
    modifies m`calls, m`now
    ensures m.now >= old(m.now) && m.calls >= old(m.calls)
    ensures r.Some? ==> r.value == SnapshotOf(m.world, f, m.now)
    ensures m.Faultless() ==> r.Some?
  {
    var e := m.Call();
    assert e.Fails? ==> e in m.events;
    return if e.Fails? then None else Some(SnapshotOf(m.world, f, m.now));
  }

  /** One directory entry, looked up without following links. */
  method Lookup(m: Machine, dir: DirId, name: Name) returns (r: Result<Option<Node>, OpenError>)
    modifies m`calls, m`now
    ensures m.now >= old(m.now) && m.calls >= old(m.calls)
    ensures r.Ok? ==> r.value == EntryNode(m.world, dir, name, m.now)
    ensures m.Faultless() ==> r.Ok?
  {
    var e := m.Call();
    assert e.Fails? ==> e in m.events;
    return if e.Fails? then Err(OpenFailed) else Ok(EntryNode(m.world, dir, name, m.now));
  }

  /** Every file and every entry reads the same at all instants. */
  ghost predicate Static(w: World) {
    && (forall f, s, t :: w.content(f, s) == w.content(f, t) && w.metadata(f, s) == w.metadata(f, t))
    && (forall d, n, s, t :: EntryNode(w, d, n, s) == EntryNode(w, d, n, t))
  }

  /** The directory a list of components leads to in a world that does not change. */
  ghost function Descend(w: World, start: DirId, components: seq<Name>): Option<DirId> {
    if components == [] then Some(start)
    else
      var parent := Descend(w, start, components[..|components| - 1]);
      if parent.None? then None
      else
        var node := EntryNode(w, parent.value, components[|components| - 1], 0);
        if node.Some? && node.value.DirNode? then Some(node.value.dir) else None
  }

  /** What an access leads to in a world that does not change. */
  ghost function Target(w: World, a: Access): Option<Node> {
    match a
    case Pinned(f) => Some(FileNode(f))
    case ByPath(dir, name) => EntryNode(w, dir, name, 0)
    case RootRelative(anchor, components) =>
      if components == [] then None
      else
        var parent := Descend(w, anchor, components[..|components| - 1]);
        if parent.None? then None else EntryNode(w, parent.value, components[|components| - 1], 0)
  }

  /** The outcome of opening in a world that does not change: the file the access leads to, if it is a regular file and
      still matches what was recorded about it. Only a path may be opened with nothing recorded. */
  ghost function OpenAnswer(w: World, a: Access, expected: Option<Snapshot>): Result<FileId, OpenError> {
    if expected.None? && !a.ByPath? then Err(Changed)
    else if a.RootRelative? && a.components == [] then Err(NotRegular)
    else
      match Target(w, a)
      case None => Err(OpenFailed)
      case Some(FileNode(f)) =>
        if expected.Some? && !Same(SnapshotOf(w, f, 0), expected.value) then Err(Changed) else Ok(f)
      case Some(_) => Err(NotRegular)
  }

  /** An open that answers as it must in a world that does not change. */
  ghost predicate Opens(w: World, a: Access, expected: Option<Snapshot>, r: Result<(FileId, Snapshot), OpenError>) {
    OpenAnswer(w, a, expected) == match r case Ok(v) => Ok(v.0) case Err(e) => Err(e)
  }

  ghost predicate Names(w: World, dir: DirId, name: Name, f: FileId, t: nat) {
    EntryNode(w, dir, name, t) == Some(FileNode(f))
  }

  /** At some instant between the two the access led to this object. */
  ghost predicate Found(w: World, a: Access, f: FileId, from: nat, until: nat) {
    match a
    case Pinned(g) => g == f
    case ByPath(dir, name) => exists t :: from <= t <= until && Names(w, dir, name, f, t)
    case RootRelative(_, components) =>
      components != [] &&
      var last := components[|components| - 1];
      exists dir, t :: from <= t <= until && Names(w, dir, last, f, t)
  }

  /** `file_io::open_stable`: the same snapshot by path before the open and by descriptor after it. */
  method OpenByPath(m: Machine, dir: DirId, name: Name, expected: Option<Snapshot>)
    returns (r: Result<(FileId, Snapshot), OpenError>)
    modifies m`calls, m`now
    ensures m.now >= old(m.now) && m.calls >= old(m.calls)
    ensures r.Ok? ==> r.value.1 == SnapshotOf(m.world, r.value.0, m.now)
    ensures r.Ok? ==> Found(m.world, ByPath(dir, name), r.value.0, old(m.now), m.now)
    ensures r.Ok? && expected.Some? ==> Same(expected.value, r.value.1)
    ensures Static(m.world) && m.Faultless() ==> Opens(m.world, ByPath(dir, name), expected, r)
  {
    var looked := Lookup(m, dir, name);
    if looked.Err? || looked.value.None? {
      return Err(OpenFailed);
    }
    if !looked.value.value.FileNode? {
      return Err(NotRegular);
    }
    var before := SnapshotOf(m.world, looked.value.value.file, m.now);
    if expected.Some? && !Same(expected.value, before) {
      return Err(Changed);
    }
    var reopened := Lookup(m, dir, name);
    if reopened.Err? || reopened.value.None? {
      return Err(OpenFailed);
    }
    if !reopened.value.value.FileNode? {
      return Err(NotRegular);
    }
    var f := reopened.value.value.file;
    assert Names(m.world, dir, name, f, m.now);
    var after := Stat(m, f);
    if after.None? {
      return Err(OpenFailed);
    }
    if !Same(after.value, before) {
      return Err(Changed);
    }
    return Ok((f, after.value));
  }

  /** The directory chain of `open_root_relative`. */
  method OpenParents(m: Machine, anchor: DirId, components: seq<Name>) returns (r: Option<DirId>)
    modifies m`calls, m`now
    ensures m.now >= old(m.now) && m.calls >= old(m.calls)
    ensures Static(m.world) && m.Faultless() ==> r == Descend(m.world, anchor, components)
  {
    var current := anchor;
    for i := 0 to |components|
      invariant m.now >= old(m.now) && m.calls >= old(m.calls)
      invariant Static(m.world) && m.Faultless() ==> Some(current) == Descend(m.world, anchor, components[..i])
    {
      assert components[..i + 1][..i] == components[..i];
      var looked := Lookup(m, current, components[i]);
      assert Static(m.world) ==>
               EntryNode(m.world, current, components[i], m.now) == EntryNode(m.world, current, components[i], 0);
      if looked.Err? || looked.value.None? || !looked.value.value.DirNode? {
        DescendStops(m.world, anchor, components, i + 1);
        return None;
      }
      current := looked.value.value.dir;
    }
    assert components[..|components|] == components;
    return Some(current);
  }

  lemma {:induction false} DescendStops(w: World, start: DirId, components: seq<Name>, i: nat)
    requires i <= |components|
    ensures Descend(w, start, components[..i]).None? ==> Descend(w, start, components).None?
    decreases |components|
  {
    if i < |components| {
      var init := components[..|components| - 1];
      assert init[..i] == components[..i];
      DescendStops(w, start, init, i);
    } else {
      assert components[..i] == components;
    }
  }

  /** `open_root_relative`: no-follow, component by component, then one snapshot by descriptor. */
  method OpenRelative(m: Machine, anchor: DirId, components: seq<Name>, expected: Snapshot)
    returns (r: Result<(FileId, Snapshot), OpenError>)
    modifies m`calls, m`now
    ensures m.now >= old(m.now) && m.calls >= old(m.calls)
    ensures r.Ok? ==> r.value.1 == SnapshotOf(m.world, r.value.0, m.now) && Same(expected, r.value.1)
    ensures r.Ok? ==> Found(m.world, RootRelative(anchor, components), r.value.0, old(m.now), m.now)
    ensures Static(m.world) && m.Faultless() ==> Opens(m.world, RootRelative(anchor, components), Some(expected), r)
  {
    if components == [] {
      return Err(NotRegular);
    }
    var last := components[|components| - 1];
    var parent := OpenParents(m, anchor, components[..|components| - 1]);
    if parent.None? {
      return Err(OpenFailed);
    }
    var looked := Lookup(m, parent.value, last);
    assert Static(m.world) ==>
             EntryNode(m.world, parent.value, last, m.now) == EntryNode(m.world, parent.value, last, 0);
    if looked.Err? || looked.value.None? {
      return Err(OpenFailed);
    }
    if !looked.value.value.FileNode? {
      return Err(NotRegular);
    }
    var f := looked.value.value.file;
    assert Names(m.world, parent.value, last, f, m.now);
    var after := Stat(m, f);
    if after.None? {
      return Err(OpenFailed);
    }
    if !Same(after.value, expected) {
      return Err(Changed);
    }
    return Ok((f, after.value));
  }

  /** `ComparisonAccess::open`. */
  method Open(m: Machine, a: Access, expected: Option<Snapshot>) returns (r: Result<(FileId, Snapshot), OpenError>)
    modifies m`calls, m`now
    ensures m.now >= old(m.now) && m.calls >= old(m.calls)
    ensures r.Ok? ==> r.value.1 == SnapshotOf(m.world, r.value.0, m.now)
    ensures r.Ok? ==> Found(m.world, a, r.value.0, old(m.now), m.now)
    ensures r.Ok? && expected.Some? ==> Same(expected.value, r.value.1)
    ensures Static(m.world) && m.Faultless() ==> Opens(m.world, a, expected, r)
  {
    match a
    case ByPath(dir, name) => r := OpenByPath(m, dir, name, expected);
    case RootRelative(anchor, components) =>
      if expected.None? {
        return Err(Changed);
      }
      r := OpenRelative(m, anchor, components, expected.value);
    case Pinned(f) =>
      if expected.None? {
        return Err(Changed);
      }
      var after := Stat(m, f);
      if after.None? {
        return Err(OpenFailed);
      }
      if !Same(after.value, expected.value) {
        return Err(Changed);
      }
      return Ok((f, after.value));
  }

  ghost predicate Undisturbed(w: World, a: Access, f: FileId, before: Snapshot) {
    OpenAnswer(w, a, if a.ByPath? then None else Some(before)) == Ok(f) && Same(SnapshotOf(w, f, 0), before)
  }

  /** `unchanged_after_read`: by descriptor first, then again by path. `at` is the instant of the first. */
  method Unchanged(m: Machine, a: Access, f: FileId, before: Snapshot)
    returns (r: Result<bool, CompareError>, ghost at: nat)
    requires before.file == f
    modifies m`calls, m`now
    ensures old(m.now) <= at <= m.now && m.calls >= old(m.calls)
    ensures r.Err? ==> r.error == CannotStat
    ensures r == Ok(true) ==> Same(SnapshotOf(m.world, f, at), before) && Found(m.world, a, f, at, m.now)
    ensures Static(m.world) && m.Faultless() && Undisturbed(m.world, a, f, before) ==> r == Ok(true)
  {
    var stat := Stat(m, f);
    at := m.now;
    if stat.None? {
      return Err(CannotStat), at;
    }
    match a
    case ByPath(dir, name) =>
      var looked := Lookup(m, dir, name);
      if looked.Err? || looked.value.None? {
        return Err(CannotStat), at;
      }
      var node := looked.value.value;
      if !node.FileNode? {
        return Ok(false), at;
      }
      assert Names(m.world, dir, name, node.file, m.now);
      return Ok(Same(stat.value, before) && Same(SnapshotOf(m.world, node.file, m.now), before)), at;
    case _ =>
      if !Same(stat.value, before) {
        return Ok(false), at;
      }
      var again := Open(m, a, Some(before));
      match again
      case Ok(_) => return Ok(true), at;
      case Err(OpenFailed) => return Err(CannotStat), at;
      case Err(_) => return Ok(false), at;
  }

  // ------------------------------------------------------------ contents

  function CommonPrefix(a: seq<byte>, b: seq<byte>): (n: nat)
    ensures n <= |a| && n <= |b| && a[..n] == b[..n]
    ensures n < |a| && n < |b| ==> a[n] != b[n]
  {
    if a == [] || b == [] || a[0] != b[0] then 0 else 1 + CommonPrefix(a[1..], b[1..])
  }

  /** What `bytes_compared` means for two whole contents. */
  function BytesCompared(a: seq<byte>, b: seq<byte>): nat {
    if |a| != |b| then 0 else if a == b then |a| else CommonPrefix(a, b) + 1
  }

  lemma FirstDifferenceIsPrefix(a: seq<byte>, b: seq<byte>, n: nat)
    requires n < |a| == |b| && a[..n] == b[..n] && a[n] != b[n]
    ensures a != b && BytesCompared(a, b) == n + 1
  {
    var p := CommonPrefix(a, b);
  }

  /** The first position where the two buffers differ. */
  method Position(left: array<byte>, right: array<byte>, chunk: nat) returns (p: Option<nat>)
    requires chunk <= left.Length && chunk <= right.Length
    ensures p.None? ==> left[..chunk] == right[..chunk]
    ensures p.Some? ==> p.value < chunk && left[..p.value] == right[..p.value] && left[p.value] != right[p.value]
  {
    for i := 0 to chunk
      invariant left[..i] == right[..i]
    {
      if left[i] != right[i] {
        return Some(i);
      }
    }
    return None;
  }

  /** As long as neither object changes after it was opened, the first `n` bytes agree. */
  ghost predicate Agree(w: World, lf: FileId, lo: nat, rf: FileId, ro: nat, now: nat, n: nat) {
    Steady(w, lf, lo, now) && Steady(w, rf, ro, now) && n > 0 ==>
      var l, r := w.content(lf, lo), w.content(rf, ro);
      n <= |l| && n <= |r| && l[..n] == r[..n]
  }

  /** As long as neither object changes after it was opened, the comparison is about their contents. */
  ghost predicate Verdict(w: World, lf: FileId, lo: nat, rf: FileId, ro: nat, now: nat, c: ByteComparison) {
    Steady(w, lf, lo, now) && Steady(w, rf, ro, now) ==>
      var l, r := w.content(lf, lo), w.content(rf, ro);
      |l| == |r| ==> (c.identical <==> l == r) && c.bytesCompared == BytesCompared(l, r)
  }

  lemma ChunkAgrees(w: World, lf: FileId, lo: nat, rf: FileId, ro: nat, before: nat, now: nat, n: nat, ls: seq<byte>,
                    rs: seq<byte>)
    requires lo <= before <= now && ro <= before && ls != [] && rs != []
    requires Agree(w, lf, lo, rf, ro, before, n)
    requires ReadAs(w, lf, lo, now, n, ls) && ReadAs(w, rf, ro, now, n, rs)
    ensures ls == rs ==> Agree(w, lf, lo, rf, ro, now, n + |ls|)
    ensures forall p :: 0 <= p < |ls| && p < |rs| && ls[..p] == rs[..p] && ls[p] != rs[p] ==>
              Verdict(w, lf, lo, rf, ro, now, ByteComparison(false, n + p + 1))
  {
    if Steady(w, lf, lo, now) && Steady(w, rf, ro, now) {
      var l, r := w.content(lf, lo), w.content(rf, ro);
      assert Steady(w, lf, lo, before) && Steady(w, rf, ro, before);
      assert l[..n] == r[..n];
      if ls == rs {
        assert l[..n + |ls|] == l[..n] + ls && r[..n + |ls|] == r[..n] + rs;
      }
      forall p | 0 <= p < |ls| && p < |rs| && ls[..p] == rs[..p] && ls[p] != rs[p]
        ensures Verdict(w, lf, lo, rf, ro, now, ByteComparison(false, n + p + 1))
      {
        if |l| == |r| {
          assert l[..n + p] == l[..n] + ls[..p] && r[..n + p] == r[..n] + rs[..p];
          FirstDifferenceIsPrefix(l, r, n + p);
        }
      }
    }
  }

  /** No cancellation was overlooked: only the last look can have seen one, and then that is the answer. */
  ghost predicate Heeds(m: Machine, first: nat, next: nat, r: Result<ByteComparison, CompareError>) {
    && first <= next && (r == Err(Cancelled) ==> first < next && m.cancels(next - 1))
    && forall i :: first <= i < next && m.cancels(i) ==> r == Err(Cancelled) && i == next - 1
  }

  /** The bytes that so many looks for a cancellation cover, one before each buffer. */
  ghost function Covered(looks: nat, buffer: nat): nat { if looks == 0 then 0 else Covered(looks - 1, buffer) + buffer }

  lemma {:induction false} CoversMore(looks: nat, more: nat, buffer: nat, larger: nat)
    requires looks <= more && buffer <= larger
    ensures Covered(looks, buffer) <= Covered(more, larger)
  {
    if looks < more {
      CoversMore(looks, more - 1, buffer, larger);
    } else if looks > 0 {
      CoversMore(looks - 1, more - 1, buffer, larger);
    }
  }

  /** The chunk loop, for any buffer size, any split of the reads and any interruptions. */
  method CompareContents(m: Machine, left: Reader, right: Reader, len: nat, bufferBytes: nat, ghost lo: nat,
                         ghost ro: nat)
    returns (r: Result<ByteComparison, CompareError>)
    requires left != right && left.offset == 0 && right.offset == 0 && 0 < bufferBytes && lo <= ro <= m.now
    modifies left`offset, right`offset, m
    ensures m.now >= old(m.now) && m.calls >= old(m.calls)
    ensures r.Ok? ==> Verdict(m.world, left.file, lo, right.file, ro, m.now, r.value)
    ensures && Static(m.world) && m.Faultless() && m.NeverCancels()
            && |m.world.content(left.file, lo)| == len && |m.world.content(right.file, ro)| == len
            ==> r.Ok?
    ensures Heeds(m, old(m.checks), m.checks, r)
    ensures r.Ok? ==> r.value.bytesCompared <= Covered(m.checks - old(m.checks), bufferBytes)
  {
    hide Verdict, Agree, ReadAs, Ends, Static, Steady;
    StaticIsSteady(m.world, left.file, lo);
    StaticIsSteady(m.world, right.file, ro);
    AgreeNothing(m.world, left.file, lo, right.file, ro, m.now);
    var w := m.world;
    var leftBuffer, rightBuffer := new byte[bufferBytes], new byte[bufferBytes];
    var bytesCompared := 0;
    while bytesCompared < len
      invariant bytesCompared <= len && left.offset == bytesCompared && right.offset == bytesCompared
      invariant lo <= ro <= m.now && m.now >= old(m.now) && m.calls >= old(m.calls)
      invariant Agree(w, left.file, lo, right.file, ro, m.now, bytesCompared)
      invariant m.checks >= old(m.checks) && forall i :: old(m.checks) <= i < m.checks ==> !m.cancels(i)
      invariant bytesCompared <= Covered(m.checks - old(m.checks), bufferBytes)
    {
      var cancelled := m.CancelRequested();
      if cancelled {
        return Err(Cancelled);
      }
      var chunk := Min(len - bytesCompared, bufferBytes);
      var position := CompareChunk(m, left, right, leftBuffer, rightBuffer, chunk, lo, ro, bytesCompared);
      if position.Err? {
        return Err(CannotRead);
      }
      if position.value.Some? {
        return Ok(ByteComparison(false, bytesCompared + position.value.value + 1));
      }
      bytesCompared := bytesCompared + chunk;
    }
    var ended := BothEnd(m, left, right, lo, ro, bytesCompared);
    if !ended {
      return Err(CannotRead);
    }
    return Ok(ByteComparison(true, bytesCompared));
  }

  /** One chunk of both files: the first position where they differ. */
  method CompareChunk(m: Machine, left: Reader, right: Reader, leftBuffer: array<byte>, rightBuffer: array<byte>,
                      chunk: nat, ghost lo: nat, ghost ro: nat, ghost n: nat)
    returns (r: Result<Option<nat>, IoError>)
    requires left != right && left.offset == n && right.offset == n && lo <= ro <= m.now
    requires 0 < chunk <= leftBuffer.Length && chunk <= rightBuffer.Length && leftBuffer != rightBuffer
    requires Agree(m.world, left.file, lo, right.file, ro, m.now, n)
    modifies left`offset, right`offset, m`calls, m`now, leftBuffer, rightBuffer
    ensures m.now >= old(m.now) && m.calls >= old(m.calls)
    ensures r == Ok(None) ==> left.offset == n + chunk && right.offset == n + chunk
                              && Agree(m.world, left.file, lo, right.file, ro, m.now, n + chunk)
    ensures r.Ok? && r.value.Some? ==>
              && r.value.value < chunk
              && Verdict(m.world, left.file, lo, right.file, ro, m.now, ByteComparison(false, n + r.value.value + 1))
    ensures && r.Err? && m.Faultless()
            && Steady(m.world, left.file, lo, m.now) && Steady(m.world, right.file, ro, m.now)
            ==> |m.world.content(left.file, lo)| < n + chunk || |m.world.content(right.file, ro)| < n + chunk
  {
    hide Verdict, Agree, ReadAs;
    var w := m.world;
    ghost var before := m.now;
    var read := ReadExact(m, left, leftBuffer, chunk, lo);
    if read.Err? {
      return Err(read.error);
    }
    ghost var between := m.now;
    read := ReadExact(m, right, rightBuffer, chunk, ro);
    if read.Err? {
      return Err(read.error);
    }
    ReadLater(w, left.file, lo, between, m.now, n, leftBuffer[..chunk]);
    ChunkAgrees(w, left.file, lo, right.file, ro, before, m.now, n, leftBuffer[..chunk], rightBuffer[..chunk]);
    var position := Position(leftBuffer, rightBuffer, chunk);
    if position.Some? {
      assert leftBuffer[..chunk][..position.value] == leftBuffer[..position.value];
      assert rightBuffer[..chunk][..position.value] == rightBuffer[..position.value];
    }
    return Ok(position);
  }

  /** Both files end where the loop stopped. */
  method BothEnd(m: Machine, left: Reader, right: Reader, ghost lo: nat, ghost ro: nat, ghost n: nat)
    returns (ended: bool)
    requires left != right && left.offset == n && right.offset == n && lo <= ro <= m.now
    requires Agree(m.world, left.file, lo, right.file, ro, m.now, n)
    modifies left`offset, right`offset, m`calls, m`now
    ensures m.now >= old(m.now) && m.calls >= old(m.calls)
    ensures ended ==> Verdict(m.world, left.file, lo, right.file, ro, m.now, ByteComparison(true, n))
    ensures && !ended && m.Faultless()
            && Steady(m.world, left.file, lo, m.now) && Steady(m.world, right.file, ro, m.now)
            ==> |m.world.content(left.file, lo)| > n || |m.world.content(right.file, ro)| > n
  {
    hide Verdict, Agree, Ends;
    ghost var before := m.now;
    var end := EnsureEof(m, left, lo);
    if end.Err? {
      return false;
    }
    ghost var between := m.now;
    end := EnsureEof(m, right, ro);
    if end.Err? {
      return false;
    }
    WholeAgrees(m.world, left.file, lo, right.file, ro, before, between, m.now, n);
    return true;
  }

  lemma StaticIsSteady(w: World, f: FileId, from: nat)
    ensures Static(w) ==> forall t :: Steady(w, f, from, t)
  {
  }

  lemma AgreeNothing(w: World, lf: FileId, lo: nat, rf: FileId, ro: nat, now: nat)
    ensures Agree(w, lf, lo, rf, ro, now, 0)
  {
  }

  lemma ReadLater(w: World, f: FileId, since: nat, before: nat, now: nat, at: nat, bytes: seq<byte>)
    requires since <= before <= now && ReadAs(w, f, since, before, at, bytes)
    ensures ReadAs(w, f, since, now, at, bytes)
  {
    assert Steady(w, f, since, now) ==> Steady(w, f, since, before);
  }

  lemma WholeAgrees(w: World, lf: FileId, lo: nat, rf: FileId, ro: nat, before: nat, between: nat, now: nat, n: nat)
    requires lo <= ro <= before <= between <= now
    requires Agree(w, lf, lo, rf, ro, before, n)
    requires Ends(w, lf, lo, between, n) && Ends(w, rf, ro, now, n)
    ensures Verdict(w, lf, lo, rf, ro, now, ByteComparison(true, n))
  {
    if Steady(w, lf, lo, now) && Steady(w, rf, ro, now) {
      assert Steady(w, lf, lo, before) && Steady(w, rf, ro, before) && Steady(w, lf, lo, between);
      var l, r := w.content(lf, lo), w.content(rf, ro);
      assert n > 0 ==> l == l[..n] && r == r[..n];
    }
  }

  // ------------------------------------------------------- linearisation

  /** The two objects compared and the instants between which the answer is about both. */
  datatype Window = Window(left: FileId, right: FileId, begun: nat, rechecked: nat)

  /** The answer is true of both files at every instant of the window. */
  ghost predicate Linearised(w: World, x: Window, c: ByteComparison) {
    forall t :: x.begun <= t <= x.rechecked ==>
      && (c.identical <==> w.content(x.left, t) == w.content(x.right, t))
      && c.bytesCompared == BytesCompared(w.content(x.left, t), w.content(x.right, t))
  }

  /** Snapshots taken before and after turn a conditional verdict into a fact about a whole window. */
  lemma VerdictLinearises(w: World, x: Window, lo: nat, read: nat, right: nat, c: ByteComparison)
    requires Versioned(w) && lo <= x.begun <= read <= x.rechecked <= right
    requires Same(SnapshotOf(w, x.left, x.rechecked), SnapshotOf(w, x.left, lo))
    requires Same(SnapshotOf(w, x.right, right), SnapshotOf(w, x.right, x.begun))
    requires if |w.content(x.left, lo)| != |w.content(x.right, x.begun)| then c == ByteComparison(false, 0)
             else Verdict(w, x.left, lo, x.right, x.begun, read, c)
    ensures Linearised(w, x, c)
  {
    SnapshotsBracket(w, x.left, lo, x.rechecked);
    SnapshotsBracket(w, x.right, x.begun, right);
    assert Steady(w, x.left, lo, read) && Steady(w, x.right, x.begun, read);
    forall t | x.begun <= t <= x.rechecked
      ensures w.content(x.left, t) == w.content(x.left, lo) && w.content(x.right, t) == w.content(x.right, x.begun)
    {
    }
  }

  /** Comparing two files just opened, and looking at both again. */
  method CompareOpen(m: Machine, left: Access, leftBefore: Snapshot, right: Access, rightBefore: Snapshot, buffer: nat,
                     ghost lo: nat)
    returns (r: Result<ByteComparison, CompareError>, ghost rechecked: nat)
    requires Versioned(m.world) && lo <= m.now && buffer > 0
    requires leftBefore == SnapshotOf(m.world, leftBefore.file, lo)
    requires rightBefore == SnapshotOf(m.world, rightBefore.file, m.now)
    modifies m
    ensures r.Ok? ==> old(m.now) <= rechecked <= m.now
    ensures r.Ok? ==> Linearised(m.world, Window(leftBefore.file, rightBefore.file, old(m.now), rechecked), r.value)
    ensures r.Ok? ==>
              && Found(m.world, left, leftBefore.file, rechecked, m.now)
              && Found(m.world, right, rightBefore.file, rechecked, m.now)
                      && Same(SnapshotOf(m.world, leftBefore.file, rechecked), leftBefore)
    ensures && Static(m.world) && m.Faultless() && m.NeverCancels()
            && Undisturbed(m.world, left, leftBefore.file, leftBefore)
            && Undisturbed(m.world, right, rightBefore.file, rightBefore)
            ==> r.Ok?
    ensures Heeds(m, old(m.checks), m.checks, r)
    ensures r.Ok? ==> r.value.bytesCompared <= Covered(m.checks - old(m.checks), buffer)
  {
    hide Verdict, Steady, Linearised, OpenAnswer, Versioned, Undisturbed, Found;
    var w := m.world;
    rechecked := 0;
    var lf, rf := leftBefore.file, rightBefore.file;
    ghost var ro := m.now;
    var c := ByteComparison(false, 0);
    if leftBefore.len == rightBefore.len {
      var leftReader := new Reader(lf);
      var rightReader := new Reader(rf);
      var compared := CompareContents(m, leftReader, rightReader, leftBefore.len, buffer, lo, ro);
      if compared.Err? {
        return Err(compared.error), rechecked;
      }
      c := compared.value;
    }
    ghost var read := m.now;
    var verified, la := Unchanged(m, left, lf, leftBefore);
    if verified != Ok(true) {
      return Err(if verified.Err? then verified.error else ChangedDuringRead), rechecked;
    }
    ghost var between := m.now;
    ghost var ra: nat;
    verified, ra := Unchanged(m, right, rf, rightBefore);
    if verified != Ok(true) {
      return Err(if verified.Err? then verified.error else ChangedDuringRead), rechecked;
    }
    FoundWider(w, left, lf, la, between, la, m.now);
    FoundWider(w, right, rf, ra, m.now, la, m.now);
    VerdictLinearises(w, Window(lf, rf, ro, la), lo, read, ra, c);
    return Ok(c), la;
  }

  lemma FoundWider(w: World, a: Access, f: FileId, from: nat, until: nat, earlier: nat, later: nat)
    requires Found(w, a, f, from, until) && earlier <= from && until <= later
    ensures Found(w, a, f, earlier, later)
  {
  }

  /** The answer about two files in a world that does not change. */
  ghost function StaticAnswer(w: World, left: Access, leftExpected: Option<Snapshot>, right: Access,
                              rightExpected: Option<Snapshot>): Result<ByteComparison, CompareError> {
    match (OpenAnswer(w, left, leftExpected), OpenAnswer(w, right, rightExpected))
    case (Err(OpenFailed), _) | (Ok(_), Err(OpenFailed)) => Err(CannotOpen)
    case (Err(NotRegular), _) | (Ok(_), Err(NotRegular)) => Err(NotRegularFile)
    case (Err(Changed), _) | (Ok(_), Err(Changed)) => Err(ChangedDuringRead)
    case (Ok(f), Ok(g)) =>
      var l, r := w.content(f, 0), w.content(g, 0);
      Ok(ByteComparison(l == r, BytesCompared(l, r)))
  }

  lemma AnswersStatically(w: World, left: Access, leftExpected: Option<Snapshot>, right: Access,
                          rightExpected: Option<Snapshot>, x: Window, c: ByteComparison)
    requires x.begun <= x.rechecked && Linearised(w, x, c)
    ensures && Static(w) && OpenAnswer(w, left, leftExpected) == Ok(x.left)
            && OpenAnswer(w, right, rightExpected) == Ok(x.right)
            ==> StaticAnswer(w, left, leftExpected, right, rightExpected) == Ok(c)
  {
    hide OpenAnswer, BytesCompared;
    if Static(w) {
      assert w.content(x.left, x.begun) == w.content(x.left, 0) && w.content(x.right, x.begun) == w.content(x.right, 0);
    }
  }

  /** A file that cannot be opened decides the answer, the left one first. */
  lemma RefusesStatically(w: World, left: Access, leftExpected: Option<Snapshot>, right: Access,
                          rightExpected: Option<Snapshot>, e: OpenError)
    ensures OpenAnswer(w, left, leftExpected) == Err(e)
            || (OpenAnswer(w, left, leftExpected).Ok? && OpenAnswer(w, right, rightExpected) == Err(e))
            ==> StaticAnswer(w, left, leftExpected, right, rightExpected) == Err(OpenFailure(e))
    ensures OpenFailure(e) != Cancelled
  {
    hide OpenAnswer;
  }

  /** `compare_files_exact_inner`. */
  method CompareFilesExact(m: Machine, left: Access, leftExpected: Option<Snapshot>, right: Access,
                           rightExpected: Option<Snapshot>,
                           bufferBytes: nat) returns (r: Result<ByteComparison, CompareError>, ghost x: Window)
    requires Versioned(m.world)
    modifies m
    ensures r.Ok? ==> old(m.now) <= x.begun <= x.rechecked <= m.now && Linearised(m.world, x, r.value)
    ensures r.Ok? ==>
              && Found(m.world, left, x.left, old(m.now), x.begun) && Found(m.world, left, x.left, x.rechecked, m.now)
                      && Found(m.world, right, x.right, old(m.now), x.begun)
                      && Found(m.world, right, x.right, x.rechecked, m.now)
    ensures r.Ok? && leftExpected.Some? ==> Same(SnapshotOf(m.world, x.left, x.rechecked), leftExpected.value)
    ensures r.Ok? && rightExpected.Some? ==> Same(SnapshotOf(m.world, x.right, x.begun), rightExpected.value)
    ensures && Static(m.world) && m.Faultless() && m.NeverCancels()
            ==> r == StaticAnswer(m.world, left, leftExpected, right, rightExpected)
    ensures Heeds(m, old(m.checks), m.checks, r) && (m.cancels(old(m.checks)) ==> r == Err(Cancelled))
    ensures r.Ok? ==> r.value.bytesCompared <= Covered(m.checks - old(m.checks), VERIFY_BUFFER_BYTES)
  {
    hide Linearised, OpenAnswer, StaticAnswer, OpenFailure, Versioned, Found, Static, Undisturbed;
    var w := m.world;
    x := Window(0, 0, 0, 0);
    var buffer := if bufferBytes == 0 then 1 else Min(bufferBytes, VERIFY_BUFFER_BYTES);
    var cancelled := m.CancelRequested();
    if cancelled {
      return Err(Cancelled), x;
    }
    var leftOpen := Open(m, left, leftExpected);
    if leftOpen.Err? {
      RefusesStatically(w, left, leftExpected, right, rightExpected, leftOpen.error);
      return Err(OpenFailure(leftOpen.error)), x;
    }
    var leftBefore := leftOpen.value.1;
    ghost var lo := m.now;
    var rightOpen := Open(m, right, rightExpected);
    if rightOpen.Err? {
      RefusesStatically(w, left, leftExpected, right, rightExpected, rightOpen.error);
      return Err(OpenFailure(rightOpen.error)), x;
    }
    var rightBefore := rightOpen.value.1;
    ghost var ro := m.now;
    FoundWider(w, left, leftBefore.file, old(m.now), lo, old(m.now), ro);
    FoundWider(w, right, rightBefore.file, lo, ro, old(m.now), ro);
    StaysReachable(w, left, leftExpected, leftOpen.value.0, lo);
    StaysReachable(w, right, rightExpected, rightOpen.value.0, ro);
    ghost var rechecked: nat;
    ghost var looks := m.checks;
    r, rechecked := CompareOpen(m, left, leftBefore, right, rightBefore, buffer, lo);
    CoversMore(m.checks - looks, m.checks - old(m.checks), buffer, VERIFY_BUFFER_BYTES);
    x := Window(leftBefore.file, rightBefore.file, ro, rechecked);
    if r.Ok? {
      AnswersStatically(w, left, leftExpected, right, rightExpected, x, r.value);
    }
  }

  /** In a world that does not change, what could be opened can be opened and recognised again. */
  lemma StaysReachable(w: World, a: Access, expected: Option<Snapshot>, f: FileId, t: nat)
    ensures Static(w) && OpenAnswer(w, a, expected) == Ok(f) ==> Undisturbed(w, a, f, SnapshotOf(w, f, t))
  {
    if Static(w) {
      assert w.content(f, t) == w.content(f, 0) && w.metadata(f, t) == w.metadata(f, 0);
    }
  }

  function OpenFailure(e: OpenError): CompareError {
    match e
    case OpenFailed => CannotOpen
    case NotRegular => NotRegularFile
    case Changed => ChangedDuringRead
  }

  // ------------------------------------------- exact readers and digests

  datatype ExactError = IoFailed | Truncated | Mismatch | Grew

  /** `blake3::Hasher`: the bytes fed so far; `finalize` hashes them. */
  class Hasher {
    var fed: seq<byte>

    constructor ()
      ensures fed == []
    {
      fed := [];
    }

    method Update(bytes: seq<byte>)
      modifies this
      ensures fed == old(fed) + bytes
    {
      fed := fed + bytes;
    }
  }

  const COPY_BUFFER_BYTES: nat := 1024 * 1024

  /** One probe past the expected size; unlike the reads before it, it is not retried when interrupted. */
  method ProbeEnd(m: Machine, reader: Reader, ghost since: nat) returns (r: Result<bool, ExactError>)
    requires since <= m.now
    modifies reader`offset, m`calls, m`now
    ensures m.now >= old(m.now) && m.calls >= old(m.calls)
    ensures r.Err? ==> r.error == IoFailed && m.Disturbed(old(m.calls))
    ensures r.Ok? && Steady(m.world, reader.file, since, m.now) ==>
              (r.value <==> |m.world.content(reader.file, since)| <= old(reader.offset))
  {
    var extra := new byte[1];
    var got := reader.Read(m, extra, 0, 1);
    assert Steady(m.world, reader.file, since, m.now) ==>
        m.world.content(reader.file, m.now) == m.world.content(reader.file, since);
    return if got.Err? then Err(IoFailed) else Ok(got.value == 0);
  }

  lemma ReadOn(w: World, f: FileId, since: nat, before: nat, now: nat, bytes: seq<byte>, more: seq<byte>)
    requires since <= before <= now && more != []
    requires ReadAs(w, f, since, before, 0, bytes) && ReadAs(w, f, since, now, |bytes|, more)
    ensures ReadAs(w, f, since, now, 0, bytes + more)
  {
    if Steady(w, f, since, now) {
      assert Steady(w, f, since, before);
      var c := w.content(f, since);
      assert bytes == [] ==> bytes + more == more;
      assert bytes != [] ==> c[0..|bytes| + |more|] == c[0..|bytes|] + c[|bytes|..|bytes| + |more|];
    }
  }

  /** What a completed read and probe say about the whole content. */
  lemma ReadAll(w: World, f: FileId, since: nat, before: nat, now: nat, bytes: seq<byte>, ended: bool)
    requires since <= before <= now && Steady(w, f, since, now) && ReadAs(w, f, since, before, 0, bytes)
    requires ended <==> |w.content(f, since)| <= |bytes|
    ensures ended <==> w.content(f, since) == bytes
    ensures !ended ==> |w.content(f, since)| > |bytes|
  {
    assert Steady(w, f, since, before);
  }

  /** `digest_exact_file`: the digest of the whole content, if it has exactly the expected size. */
  method DigestExactFile(o: Oracle, m: Machine, reader: Reader, expectedSize: nat)
    returns (r: Result<seq<byte>, ExactError>)
    requires reader.offset == 0
    modifies reader`offset, m`calls, m`now
    ensures m.now >= old(m.now) && m.calls >= old(m.calls)
    ensures r.Err? && r.error == IoFailed ==> m.Disturbed(old(m.calls))
    ensures (r.Ok? || r.error != IoFailed) && Steady(m.world, reader.file, old(m.now), m.now) ==>
              Quarantine.DigestExact(o, m.world.content(reader.file, old(m.now)), expectedSize)
              == if r.Ok? then Some(r.value) else None
    ensures Steady(m.world, reader.file, old(m.now), m.now) ==>
              && (r == Err(Truncated) ==> |m.world.content(reader.file, old(m.now))| < expectedSize)
              && (r == Err(Grew) ==> |m.world.content(reader.file, old(m.now))| > expectedSize)
    ensures r != Err(Mismatch)
  {
    var w := m.world;
    ghost var since, calls := m.now, m.calls;
    var hasher := new Hasher();
    var buffer := new byte[COPY_BUFFER_BYTES];
    var remaining := expectedSize;
    while remaining > 0
      invariant 0 <= remaining <= expectedSize && reader.offset == |hasher.fed| == expectedSize - remaining
      invariant since <= m.now && m.calls >= calls
      invariant ReadAs(w, reader.file, since, m.now, 0, hasher.fed)
    {
      var chunk := Min(remaining, COPY_BUFFER_BYTES);
      ghost var before := m.now;
      var read := ReadExact(m, reader, buffer, chunk, since);
      if read.Err? {
        return Err(if read.error == UnexpectedEof then Truncated else IoFailed);
      }
      ReadOn(w, reader.file, since, before, m.now, hasher.fed, buffer[..chunk]);
      hasher.Update(buffer[..chunk]);
      remaining := remaining - chunk;
    }
    ghost var before := m.now;
    var ended := ProbeEnd(m, reader, since);
    if ended.Err? {
      return Err(ended.error);
    }
    if Steady(w, reader.file, since, m.now) {
      ReadAll(w, reader.file, since, before, m.now, hasher.fed, ended.value);
    }
    return if ended.value then Ok(o.digest(hasher.fed)) else Err(Grew);
  }

  lemma ReadNothing(w: World, f: FileId, since: nat)
    ensures ReadAs(w, f, since, since, 0, [])
  {
  }

  /** Different chunks after the same bytes mean different contents. */
  lemma ChunksDiffer(w: World, lf: FileId, rf: FileId, since: nat, now: nat, fed: seq<byte>, ls: seq<byte>,
                     rs: seq<byte>)
    requires |ls| == |rs| && ls != rs
    requires ReadAs(w, lf, since, now, 0, fed + ls) && ReadAs(w, rf, since, now, 0, fed + rs)
    ensures Steady(w, lf, since, now) && Steady(w, rf, since, now) ==> w.content(lf, since) != w.content(rf, since)
  {
    assert (fed + ls)[|fed|..] == ls && (fed + rs)[|fed|..] == rs;
  }

  /** `compare_exact_readers`: accepts exactly two equal contents of the expected size, and digests them. */
  method CompareExactReaders(o: Oracle, m: Machine, left: Reader, right: Reader, expectedSize: nat)
    returns (r: Result<seq<byte>, ExactError>)
    requires left != right && left.offset == 0 && right.offset == 0
    modifies left`offset, right`offset, m`calls, m`now
    ensures m.now >= old(m.now) && m.calls >= old(m.calls)
    ensures r.Err? && r.error == IoFailed ==> m.Disturbed(old(m.calls))
    ensures && (r.Ok? || r.error != IoFailed)
            && Steady(m.world, left.file, old(m.now), m.now) && Steady(m.world, right.file, old(m.now), m.now)
            ==> Quarantine.CompareDigest(o, m.world.content(left.file, old(m.now)),
                                         m.world.content(right.file, old(m.now)), expectedSize)
                == if r.Ok? then Some(r.value) else None
    ensures && Steady(m.world, left.file, old(m.now), m.now) && Steady(m.world, right.file, old(m.now), m.now)
            ==>
              var l, r0 := m.world.content(left.file, old(m.now)), m.world.content(right.file, old(m.now));
              && (r == Err(Truncated) ==> |l| < expectedSize || |r0| < expectedSize)
              && (r == Err(Grew) ==> |l| > expectedSize || |r0| > expectedSize)
              && (r == Err(Mismatch) ==> l != r0)
  {
    hide ReadAs;
    var w := m.world;
    ghost var since, calls := m.now, m.calls;
    ReadNothing(w, left.file, since);
    ReadNothing(w, right.file, since);
    ghost var l, r0 := w.content(left.file, since), w.content(right.file, since);
    var hasher := new Hasher();
    var leftBuffer, rightBuffer := new byte[COPY_BUFFER_BYTES], new byte[COPY_BUFFER_BYTES];
    var remaining := expectedSize;
    while remaining > 0
      invariant 0 <= remaining <= expectedSize
                && left.offset == right.offset == |hasher.fed| == expectedSize - remaining
      invariant since <= m.now && m.calls >= calls
      invariant ReadAs(w, left.file, since, m.now, 0, hasher.fed) && ReadAs(w, right.file, since, m.now, 0, hasher.fed)
    {
      var chunk := Min(remaining, COPY_BUFFER_BYTES);
      ghost var before := m.now;
      var read := ReadExact(m, left, leftBuffer, chunk, since);
      if read.Err? {
        return Err(if read.error == UnexpectedEof then Truncated else IoFailed);
      }
      ghost var between := m.now;
      read := ReadExact(m, right, rightBuffer, chunk, since);
      if read.Err? {
        return Err(if read.error == UnexpectedEof then Truncated else IoFailed);
      }
      ReadLater(w, left.file, since, between, m.now, |hasher.fed|, leftBuffer[..chunk]);
      ReadOn(w, left.file, since, before, m.now, hasher.fed, leftBuffer[..chunk]);
      ReadOn(w, right.file, since, before, m.now, hasher.fed, rightBuffer[..chunk]);
      if leftBuffer[..chunk] != rightBuffer[..chunk] {
        ChunksDiffer(w, left.file, right.file, since, m.now, hasher.fed, leftBuffer[..chunk], rightBuffer[..chunk]);
        return Err(Mismatch);
      }
      hasher.Update(leftBuffer[..chunk]);
      remaining := remaining - chunk;
    }
    ghost var before := m.now;
    var ended := ProbeEnd(m, left, since);
    if ended.Err? {
      return Err(ended.error);
    }
    ghost var between := m.now;
    if Steady(w, left.file, since, between) {
      ReadAll(w, left.file, since, before, between, hasher.fed, ended.value);
    }
    assert Steady(w, left.file, since, m.now) ==> Steady(w, left.file, since, between);
    if !ended.value {
      return Err(Grew);
    }
    ended := ProbeEnd(m, right, since);
    if ended.Err? {
      return Err(ended.error);
    }
    if Steady(w, right.file, since, m.now) {
      ReadAll(w, right.file, since, before, m.now, hasher.fed, ended.value);
    }
    assert Steady(w, left.file, since, m.now) ==> Steady(w, left.file, since, between);
    return if ended.value then Ok(o.digest(hasher.fed)) else Err(Grew);
  }
}
