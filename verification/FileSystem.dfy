/** An abstract POSIX volume: directory entries as one map from (directory, name) to node,
    file objects with identity, metadata, change time and bytes. The one axiom about the
    operating system is built into the primitives: whatever touches a file object gives it
    a change time that has never been used before. */
module FileSystem {
  import opened Wrappers
  import opened Text

  type Name = string
  type DirId = nat
  type FileId = nat

  datatype Attrs = Attrs(mode: nat, links: nat, size: nat, birth: int, modified: int)

  datatype Inode = Inode(attrs: Attrs, ctime: nat, content: seq<byte>)

  /** `OtherNode` is a symbolic link, FIFO, socket or device: never followed, never opened. */
  datatype Node = FileNode(file: FileId) | DirNode(dir: DirId) | OtherNode

  datatype Slot = Slot(dir: DirId, name: Name)

  datatype Fs = Fs(entries: map<Slot, Node>, files: map<FileId, Inode>, slash: DirId,
                   nextFile: FileId, nextDir: DirId, clock: nat)

  /** What `fstat` reports of a regular file. */
  datatype Identity = Identity(file: FileId, attrs: Attrs, ctime: nat)

  ghost predicate Sane(fs: Fs) {
    && (forall s :: s in fs.entries ==> s.dir < fs.nextDir)
    && (forall s :: s in fs.entries && fs.entries[s].FileNode? ==> fs.entries[s].file in fs.files)
    && (forall s :: s in fs.entries && fs.entries[s].DirNode? ==> fs.entries[s].dir < fs.nextDir)
    && (forall f :: f in fs.files ==> f < fs.nextFile && fs.files[f].ctime <= fs.clock)
    && (forall f :: f in fs.files ==> fs.files[f].attrs.size == |fs.files[f].content|)
    && fs.slash < fs.nextDir
  }

  function FileAt(fs: Fs, s: Slot): Option<FileId> {
    if s in fs.entries && fs.entries[s].FileNode? && fs.entries[s].file in fs.files
    then Some(fs.entries[s].file) else None
  }

  function DirAt(fs: Fs, s: Slot): Option<DirId> {
    if s in fs.entries && fs.entries[s].DirNode? then Some(fs.entries[s].dir) else None
  }

  function IdentityOf(fs: Fs, f: FileId): Identity
    requires f in fs.files
  {
    Identity(f, fs.files[f].attrs, fs.files[f].ctime)
  }

  // -------------------------------------------------------------- primitives

  function Touch(fs: Fs, f: FileId, attrs: Attrs, content: seq<byte>): Fs {
    fs.(files := fs.files[f := Inode(attrs.(size := |content|), fs.clock + 1, content)], clock := fs.clock + 1)
  }

  predicate CanRename(fs: Fs, src: Slot, dst: Slot) { src in fs.entries && dst !in fs.entries && dst.dir < fs.nextDir }

  /** `renameatx_np(.., RENAME_EXCL)`: the entry moves to a vacant slot. */
  function Rename(fs: Fs, src: Slot, dst: Slot): Fs
    requires CanRename(fs, src, dst)
  {
    var moved := fs.(entries := (fs.entries - {src})[dst := fs.entries[src]]);
    match FileAt(fs, src)
    case Some(f) => moved.(files := fs.files[f := fs.files[f].(ctime := fs.clock + 1)], clock := fs.clock + 1)
    case None => moved
  }

  function Mkdir(fs: Fs, at: Slot): Fs {
    fs.(entries := fs.entries[at := DirNode(fs.nextDir)], nextDir := fs.nextDir + 1)
  }

  /** Everything another process may do: it never removes the last name of an object. */
  datatype EnvOp =
    | EnvRename(src: Slot, dst: Slot)
    | EnvCreate(at: Slot, attrs: Attrs, content: seq<byte>)
    | EnvWrite(file: FileId, attrs: Attrs, content: seq<byte>)
    | EnvLink(file: FileId, at: Slot, attrs: Attrs)
    | EnvMkdir(at: Slot)
    | EnvOther(at: Slot)

  function Free(fs: Fs, s: Slot): bool { s !in fs.entries && s.dir < fs.nextDir }

  function ApplyEnv(fs: Fs, op: EnvOp): Fs {
    match op
    case EnvRename(src, dst) =>
      if CanRename(fs, src, dst) then Rename(fs, src, dst) else fs
    case EnvCreate(at, attrs, content) =>
      if Free(fs, at)
      then Touch(fs.(entries := fs.entries[at := FileNode(fs.nextFile)], nextFile := fs.nextFile + 1),
                 fs.nextFile, attrs, content)
      else fs
    case EnvWrite(f, attrs, content) =>
      if f in fs.files then Touch(fs, f, attrs, content) else fs
    case EnvLink(f, at, attrs) =>
      if f in fs.files && Free(fs, at)
      then Touch(fs.(entries := fs.entries[at := FileNode(f)]), f, attrs, fs.files[f].content)
      else fs
    case EnvMkdir(at) => if Free(fs, at) then Mkdir(fs, at) else fs
    case EnvOther(at) => if Free(fs, at) then fs.(entries := fs.entries[at := OtherNode]) else fs
  }

  /** The states a batch of environment actions passes through, oldest first. */
  function EnvTrace(fs: Fs, batch: seq<EnvOp>): (trace: seq<Fs>)
    ensures |trace| == |batch|
    decreases |batch|
  {
    if batch == [] then [] else [ApplyEnv(fs, batch[0])] + EnvTrace(ApplyEnv(fs, batch[0]), batch[1..])
  }

  function Last(fs: Fs, trace: seq<Fs>): Fs { if trace == [] then fs else trace[|trace| - 1] }

  // ------------------------------------------------ conservation along a run

  ghost predicate Bound(fs: Fs, f: FileId) { exists s :: s in fs.entries && fs.entries[s] == FileNode(f) }

  /** What every step keeps, and what therefore holds between any two states of a run:
      no object disappears, every bound object stays bound, and an object whose change
      time is the same has not changed at all in between, nor gained a name. */
  ghost predicate Evolves(a: Fs, b: Fs) {
    && a.nextFile <= b.nextFile && a.nextDir <= b.nextDir && a.clock <= b.clock && a.slash == b.slash
    && (forall f :: f in a.files ==> f in b.files && a.files[f].ctime <= b.files[f].ctime)
    && (forall f :: f in a.files && f in b.files && a.files[f].ctime == b.files[f].ctime ==> a.files[f] == b.files[f])
    && (forall f :: Bound(a, f) ==> Bound(b, f))
    && (forall s :: GainedName(a, b, s) ==> a.files[FileAt(b, s).value].ctime < b.files[FileAt(b, s).value].ctime)
  }

  ghost predicate GainedName(a: Fs, b: Fs, s: Slot)
    ensures GainedName(a, b, s) ==> FileAt(b, s).Some? && FileAt(b, s).value in a.files && FileAt(b, s).value in b.files
  {
    FileAt(b, s).Some? && FileAt(b, s).value in a.files && FileAt(a, s) != FileAt(b, s)
  }

  /** One step of the application on media: one node leaves one name for one vacant name. */
  ghost predicate ExclusiveRename(a: Fs, b: Fs) {
    exists src, dst :: CanRename(a, src, dst) && b == Rename(a, src, dst)
  }

  ghost predicate EnvStep(a: Fs, b: Fs) { exists op :: b == ApplyEnv(a, op) }

  ghost predicate NewDirectory(a: Fs, b: Fs) {
    exists at: Slot :: at !in a.entries && at.dir < a.nextDir && b == Mkdir(a, at)
  }

  ghost predicate Step(a: Fs, b: Fs) { a == b || ExclusiveRename(a, b) || EnvStep(a, b) || NewDirectory(a, b) }

  /** `trace` is a run from `fs`: each state is one step after the state before it. */
  ghost predicate Steps(fs: Fs, trace: seq<Fs>) {
    trace == [] || (Steps(fs, trace[..|trace| - 1]) && Step(Last(fs, trace[..|trace| - 1]), trace[|trace| - 1]))
  }

  lemma RenameBound(fs: Fs, src: Slot, dst: Slot)
    requires CanRename(fs, src, dst)
    ensures forall f :: Bound(fs, f) ==> Bound(Rename(fs, src, dst), f)
  {
    var after := Rename(fs, src, dst);
    forall f | Bound(fs, f)
      ensures Bound(after, f)
    {
      var s :| s in fs.entries && fs.entries[s] == FileNode(f);
      var t := if s == src then dst else s;
      assert t in after.entries && after.entries[t] == FileNode(f);
    }
  }

  /** An added or unchanged entry never unbinds anything. */
  lemma ExtendBound(a: Fs, b: Fs)
    requires forall s :: s in a.entries ==> s in b.entries && b.entries[s] == a.entries[s]
    ensures forall f :: Bound(a, f) ==> Bound(b, f)
  {
    forall f | Bound(a, f)
      ensures Bound(b, f)
    {
      var s :| s in a.entries && a.entries[s] == FileNode(f);
      assert s in b.entries && b.entries[s] == FileNode(f);
    }
  }

  lemma RenameEvolves(fs: Fs, src: Slot, dst: Slot)
    requires Sane(fs) && CanRename(fs, src, dst)
    ensures Evolves(fs, Rename(fs, src, dst)) && Sane(Rename(fs, src, dst))
  {
    RenameBound(fs, src, dst);
  }

  lemma CreateEvolves(fs: Fs, at: Slot, attrs: Attrs, content: seq<byte>)
    requires Sane(fs)
    ensures var next := ApplyEnv(fs, EnvCreate(at, attrs, content)); Evolves(fs, next) && Sane(next)
  {
    ExtendBound(fs, ApplyEnv(fs, EnvCreate(at, attrs, content)));
  }

  lemma LinkEvolves(fs: Fs, f: FileId, at: Slot, attrs: Attrs)
    requires Sane(fs)
    ensures var next := ApplyEnv(fs, EnvLink(f, at, attrs)); Evolves(fs, next) && Sane(next)
  {
    ExtendBound(fs, ApplyEnv(fs, EnvLink(f, at, attrs)));
  }

  lemma EnvEvolves(fs: Fs, op: EnvOp)
    requires Sane(fs)
    ensures Evolves(fs, ApplyEnv(fs, op)) && Sane(ApplyEnv(fs, op))
  {
    match op
    case EnvRename(src, dst) =>
      if CanRename(fs, src, dst) {
        RenameEvolves(fs, src, dst);
      }
    case EnvCreate(at, attrs, content) => CreateEvolves(fs, at, attrs, content);
    case EnvLink(f, at, attrs) => LinkEvolves(fs, f, at, attrs);
    case _ => ExtendBound(fs, ApplyEnv(fs, op));
  }

  lemma MkdirEvolves(fs: Fs, at: Slot)
    requires Sane(fs) && at !in fs.entries && at.dir < fs.nextDir
    ensures Evolves(fs, Mkdir(fs, at)) && Sane(Mkdir(fs, at))
  {
    ExtendBound(fs, Mkdir(fs, at));
  }

  lemma EvolvesTransitive(a: Fs, b: Fs, c: Fs)
    requires Evolves(a, b) && Evolves(b, c)
    ensures Evolves(a, c)
  {
  }

  lemma StepEvolves(a: Fs, b: Fs)
    requires Sane(a) && Step(a, b)
    ensures Evolves(a, b) && Sane(b)
  {
    if a == b {
    } else if ExclusiveRename(a, b) {
      var src, dst :| CanRename(a, src, dst) && b == Rename(a, src, dst);
      RenameEvolves(a, src, dst);
    } else if EnvStep(a, b) {
      var op :| b == ApplyEnv(a, op);
      EnvEvolves(a, op);
    } else {
      var at: Slot :| at !in a.entries && at.dir < a.nextDir && b == Mkdir(a, at);
      MkdirEvolves(a, at);
    }
  }

  lemma {:induction false} RunEvolves(fs: Fs, trace: seq<Fs>)
    requires Sane(fs) && Steps(fs, trace)
    ensures Sane(Last(fs, trace)) && Evolves(fs, Last(fs, trace))
  {
    if trace != [] {
      var init := trace[..|trace| - 1];
      RunEvolves(fs, init);
      StepEvolves(Last(fs, init), trace[|trace| - 1]);
      EvolvesTransitive(fs, Last(fs, init), trace[|trace| - 1]);
    }
  }

  lemma {:induction false} StepsSplit(fs: Fs, trace: seq<Fs>, i: nat)
    requires Steps(fs, trace) && i <= |trace|
    ensures Steps(fs, trace[..i]) && Steps(Last(fs, trace[..i]), trace[i..])
  {
    if i == |trace| {
      assert trace[..i] == trace && trace[i..] == [];
    } else {
      var init := trace[..|trace| - 1];
      StepsSplit(fs, init, i);
      assert init[..i] == trace[..i];
      assert trace[i..][..|trace| - i - 1] == init[i..];
    }
  }

  /** Conservation over whole runs: whatever mixture of application steps and environment
      actions happens, no media object is lost between any two moments of the run, and an
      unchanged change time means an unchanged object. */
  lemma RunConserves(fs: Fs, trace: seq<Fs>, i: nat, j: nat)
    requires Sane(fs) && Steps(fs, trace)
    requires i <= j < |trace|
    ensures Evolves(fs, trace[i]) && Evolves(trace[i], trace[j])
  {
    hide Steps, Evolves, Sane;
    StepsSplit(fs, trace, i + 1);
    RunEvolves(fs, trace[..i + 1]);
    var rest := trace[i + 1..];
    StepsSplit(trace[i], rest, j - i);
    RunEvolves(trace[i], rest[..j - i]);
  }

  lemma {:induction false} StepsAppend(fs: Fs, first: seq<Fs>, second: seq<Fs>)
    requires Steps(fs, first) && Steps(Last(fs, first), second)
    ensures Steps(fs, first + second) && Last(fs, first + second) == Last(Last(fs, first), second)
  {
    var all := first + second;
    if second == [] {
      assert all == first;
    } else {
      StepsAppend(fs, first, second[..|second| - 1]);
      assert all[..|all| - 1] == first + second[..|second| - 1];
    }
  }

  lemma OneStep(fs: Fs, next: Fs)
    requires Step(fs, next)
    ensures Steps(fs, [next])
  {
    assert [next][..0] == [];
  }

  lemma {:induction false} EnvTraceSteps(fs: Fs, batch: seq<EnvOp>)
    ensures Steps(fs, EnvTrace(fs, batch))
    decreases |batch|
  {
    if batch != [] {
      var next := ApplyEnv(fs, batch[0]);
      OneStep(fs, next);
      EnvTraceSteps(next, batch[1..]);
      StepsAppend(fs, [next], EnvTrace(next, batch[1..]));
    }
  }

  // ------------------------------------------------------------ resolution

  /** Opening directory after directory, never following a link. */
  function Walk(fs: Fs, start: DirId, components: seq<Name>): Option<DirId> {
    if components == [] then Some(start)
    else
      var parent := Walk(fs, start, components[..|components| - 1]);
      if parent.None? then None else DirAt(fs, Slot(parent.value, components[|components| - 1]))
  }

  /** Two states that agree on every directory entry resolve every path alike. */
  ghost predicate SameDirectories(a: Fs, b: Fs) {
    a.slash == b.slash && forall s :: DirAt(a, s) == DirAt(b, s)
  }

  lemma {:induction false} WalkSame(a: Fs, b: Fs, start: DirId, components: seq<Name>)
    requires SameDirectories(a, b)
    ensures Walk(a, start, components) == Walk(b, start, components)
  {
    if components != [] {
      WalkSame(a, b, start, components[..|components| - 1]);
    }
  }

  /** A directory tree: one parent entry for each directory, and no directory above itself. */
  ghost predicate Tree(fs: Fs, rank: DirId -> nat) {
    && (forall s, t :: DirAt(fs, s).Some? && DirAt(fs, s) == DirAt(fs, t) ==> s == t)
    && (forall s :: DirAt(fs, s).Some? ==> rank(s.dir) < rank(DirAt(fs, s).value))
  }

  lemma {:induction false} WalkDescends(fs: Fs, rank: DirId -> nat, start: DirId, components: seq<Name>)
    requires Tree(fs, rank) && Walk(fs, start, components).Some?
    ensures rank(start) <= rank(Walk(fs, start, components).value)
    ensures components != [] ==> rank(start) < rank(Walk(fs, start, components).value)
  {
    if components != [] {
      WalkDescends(fs, rank, start, components[..|components| - 1]);
    }
  }

  /** In a tree, different component lists lead to different directories. */
  lemma {:induction false} WalkInjective(fs: Fs, rank: DirId -> nat, start: DirId, p: seq<Name>, q: seq<Name>)
    requires Tree(fs, rank)
    requires Walk(fs, start, p).Some? && Walk(fs, start, p) == Walk(fs, start, q)
    ensures p == q
  {
    if p == [] || q == [] {
      WalkDescends(fs, rank, start, p);
      WalkDescends(fs, rank, start, q);
    } else {
      var pp, qq := p[..|p| - 1], q[..|q| - 1];
      assert DirAt(fs, Slot(Walk(fs, start, pp).value, p[|p| - 1]))
             == DirAt(fs, Slot(Walk(fs, start, qq).value, q[|q| - 1]));
      WalkInjective(fs, rank, start, pp, qq);
      assert p == pp + [p[|p| - 1]] && q == qq + [q[|q| - 1]];
    }
  }
}
