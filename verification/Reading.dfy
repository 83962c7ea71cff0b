/** A volume seen over time, and reading a file through system calls that may be cut short,
    interrupted or fail while other processes keep writing. */
module Reading {
  import opened Wrappers
  import opened Text
  import opened FileSystem

  /** What the kernel reports about a file object, `len` and `file` included. */
  datatype Snapshot = Snapshot(
    file: FileId, len: nat, mode: nat, links: nat, created: int, modified: int, changed: nat, accessed: int)

  /** `FileSnapshot::eq`: the access time is observed, never compared. */
  predicate Same(a: Snapshot, b: Snapshot) { a.(accessed := b.accessed) == b }

  /** Two snapshots pass for the same exactly if nothing but the access time differs. */
  lemma SameExactly(a: Snapshot, b: Snapshot)
    ensures Same(a, b) <==>
              && a.file == b.file && a.len == b.len && a.mode == b.mode && a.links == b.links
              && a.created == b.created && a.modified == b.modified && a.changed == b.changed
  {
    assert a.(accessed := b.accessed)
        == Snapshot(a.file, a.len, a.mode, a.links, a.created, a.modified, a.changed, b.accessed);
  }

  datatype Metadata = Metadata(mode: nat, links: nat, created: int, modified: int, changed: nat, accessed: int)

  /** Every file object and every directory entry at every instant. */
  datatype World = World(
    content: (FileId, nat) -> seq<byte>, metadata: (FileId, nat) -> Metadata, entry: (DirId, Name, nat) -> Option<Node>)

  function SnapshotOf(w: World, f: FileId, t: nat): Snapshot {
    var d := w.metadata(f, t);
    Snapshot(f, |w.content(f, t)|, d.mode, d.links, d.created, d.modified, d.changed, d.accessed)
  }

  /** The change time of an object is a version counter from one instant to the next. */
  ghost predicate Counted(w: World, f: FileId, t: nat) {
    && w.metadata(f, t).changed <= w.metadata(f, t + 1).changed
    && (w.content(f, t) != w.content(f, t + 1) ==> w.metadata(f, t).changed < w.metadata(f, t + 1).changed)
  }

  /** The one assumption about the operating system. */
  ghost predicate Versioned(w: World) { forall f, t :: Counted(w, f, t) }

  ghost predicate Steady(w: World, f: FileId, from: nat, to: nat) {
    forall t :: from <= t <= to ==> w.content(f, t) == w.content(f, from)
  }

  /** Equal snapshots at two instants bracket an unchanged object: the seqlock argument. */
  lemma {:induction false} SnapshotsBracket(w: World, f: FileId, first: nat, last: nat)
    requires Versioned(w) && first <= last
    ensures w.metadata(f, first).changed <= w.metadata(f, last).changed
    ensures w.metadata(f, first).changed == w.metadata(f, last).changed ==> Steady(w, f, first, last)
    decreases last
  {
    if first < last {
      SnapshotsBracket(w, f, first, last - 1);
      assert Counted(w, f, last - 1);
    }
  }

  // ------------------------------------------------------- system calls

  datatype Event = Normal | Fails | Interrupted | Short(most: nat)

  datatype IoError = Failed | WasInterrupted | UnexpectedEof | TrailingData

  /** The machine the program runs on. Each system call happens at a later or equal instant than the one
      before it; after the scripted events every call is a normal one. */
  class Machine {
    const world: World
    const events: seq<Event>
    const delays: nat -> nat
    const cancels: nat -> bool
    var calls: nat
    var checks: nat
    var now: nat

    constructor (world: World, events: seq<Event>, delays: nat -> nat, cancels: nat -> bool)
      ensures this.world == world && this.events == events && this.delays == delays && this.cancels == cancels
      ensures calls == 0 && checks == 0 && now == 0
    {
      this.world := world;
      this.events := events;
      this.delays := delays;
      this.cancels := cancels;
      calls, checks, now := 0, 0, 0;
    }

    predicate Faultless() {
      (forall e :: e in events ==> !e.Fails?)
    }

    ghost predicate NeverCancels() { forall i :: !cancels(i) }

    /** Some call from the `from`-th on was failed or interrupted by the kernel. */
    ghost predicate Disturbed(from: nat)
      reads this
    {
      exists i :: from <= i < calls && i < |events| && (events[i].Fails? || events[i].Interrupted?)
    }

    method Call() returns (e: Event)
      modifies this`calls, this`now
      ensures calls == old(calls) + 1 && now >= old(now)
      ensures e == if old(calls) < |events| then events[old(calls)] else Normal
    {
      e := if calls < |events| then events[calls] else Normal;
      now := now + delays(calls);
      calls := calls + 1;
    }

    method CancelRequested() returns (b: bool)
      modifies this`checks
      ensures checks == old(checks) + 1 && b == cancels(old(checks))
    {
      b := cancels(checks);
      checks := checks + 1;
    }
  }

  function Min(a: nat, b: nat): nat { if a <= b then a else b }

  /** An open file description: an object and an offset. */
  class Reader {
    const file: FileId
    var offset: nat

    constructor (file: FileId)
      ensures this.file == file && offset == 0
    {
      this.file := file;
      offset := 0;
    }

    /** One `read(2)`: up to `to - from` bytes, at least one unless at the end of the file. */
    method Read(m: Machine, destination: array<byte>, from: nat, to: nat) returns (r: Result<nat, IoError>)
      requires from <= to <= destination.Length
      modifies this`offset, m`calls, m`now, destination
      ensures m.calls == old(m.calls) + 1 && m.now >= old(m.now)
      ensures r.Err? ==> offset == old(offset) && destination[..] == old(destination[..])
      ensures r.Err? ==> r.error in {Failed, WasInterrupted} && m.Disturbed(old(m.calls))
      ensures r.Err? && r.error == WasInterrupted ==> old(m.calls) < |m.events|
      ensures r.Err? && m.Faultless() ==> r.error == WasInterrupted
      ensures r.Ok? ==>
                var c := m.world.content(file, m.now);
                var n := r.value;
                && n <= to - from && offset == old(offset) + n
                && (n == 0 <==> from == to || |c| <= old(offset))
                && (n > 0 ==> old(offset) + n <= |c| && destination[from..from + n] == c[old(offset)..old(offset) + n])
                && destination[..from] == old(destination[..from])
    {
      var e := m.Call();
      if e.Fails? || e.Interrupted? {
        assert m.events[old(m.calls)] == e;
        assert e in m.events;
        return Err(if e.Fails? then Failed else WasInterrupted);
      }
      var content := m.world.content(file, m.now);
      var available := if offset < |content| then |content| - offset else 0;
      var n := Min(to - from, available);
      if e.Short? && 0 < e.most < n {
        n := e.most;
      }
      forall k | 0 <= k < n {
        destination[from + k] := content[offset + k];
      }
      offset := offset + n;
      return Ok(n);
    }
  }

  /** The bytes read are those the object held at `at`, provided it did not change since `since`. */
  ghost predicate ReadAs(w: World, f: FileId, since: nat, now: nat, at: nat, bytes: seq<byte>) {
    Steady(w, f, since, now) && bytes != [] ==>
      at + |bytes| <= |w.content(f, since)| && bytes == w.content(f, since)[at..at + |bytes|]
  }

  ghost predicate Ends(w: World, f: FileId, since: nat, now: nat, at: nat) {
    Steady(w, f, since, now) ==> |w.content(f, since)| <= at
  }

  lemma ReadMore(w: World, f: FileId, since: nat, before: nat, now: nat, at: nat, bytes: seq<byte>, more: seq<byte>)
    requires since <= before <= now && ReadAs(w, f, since, before, at, bytes)
    requires more != [] ==> at + |bytes| + |more| <= |w.content(f, now)| &&
                            more == w.content(f, now)[at + |bytes|..at + |bytes| + |more|]
    ensures ReadAs(w, f, since, now, at, bytes + more)
  {
    if Steady(w, f, since, now) && bytes + more != [] {
      assert w.content(f, now) == w.content(f, since);
      assert Steady(w, f, since, before);
      var c := w.content(f, since);
      if more == [] {
        assert bytes + more == bytes;
      } else if bytes == [] {
        assert bytes + more == more;
      } else {
        assert c[at..at + |bytes| + |more|] == c[at..at + |bytes|] + c[at + |bytes|..at + |bytes| + |more|];
      }
    }
  }

  /** `read_exact_or_unexpected_eof`: fill `destination[..n]`, retrying interrupted and continuing short reads. */
  method ReadExact(m: Machine, reader: Reader, destination: array<byte>, n: nat, ghost since: nat)
    returns (r: Result<(), IoError>)
    requires n <= destination.Length && since <= m.now
    modifies reader`offset, m`calls, m`now, destination
    ensures m.now >= old(m.now) && m.calls >= old(m.calls)
    ensures r.Ok? ==> reader.offset == old(reader.offset) + n
                      && ReadAs(m.world, reader.file, since, m.now, old(reader.offset), destination[..n])
    ensures r.Err? ==> r.error in {Failed, UnexpectedEof}
    ensures r.Err? && r.error == UnexpectedEof ==>
              Steady(m.world, reader.file, since, m.now) ==>
                |m.world.content(reader.file, since)| < old(reader.offset) + n
    ensures r.Err? && r.error == Failed ==> !m.Faultless() && m.Disturbed(old(m.calls))
  {
    ghost var start := reader.offset;
    ghost var from := m.calls;
    var filled := 0;
    while filled < n
      invariant 0 <= filled <= n && reader.offset == start + filled
      invariant since <= m.now && m.now >= old(m.now) && m.calls >= from
      invariant ReadAs(m.world, reader.file, since, m.now, start, destination[..filled])
      decreases n - filled, |m.events| - m.calls
    {
      ghost var bytes, before, called := destination[..filled], m.now, m.calls;
      var got := reader.Read(m, destination, filled, n);
      match got {
        case Ok(k) =>
          if k == 0 {
            assert Steady(m.world, reader.file, since, m.now) ==> Steady(m.world, reader.file, since, before);
            assert Steady(m.world, reader.file, since, m.now) ==>
                m.world.content(reader.file, m.now) == m.world.content(reader.file, since);
            return Err(UnexpectedEof);
          }
          ReadMore(m.world, reader.file, since, before, m.now, start, bytes, destination[filled..filled + k]);
          assert destination[..filled + k] == bytes + destination[filled..filled + k];
          filled := filled + k;
        case Err(e) =>
          assert destination[..filled] == bytes;
          ReadMore(m.world, reader.file, since, before, m.now, start, bytes, []);
          assert bytes + [] == bytes;
          if e != WasInterrupted {
            return Err(Failed);
          }
      }
    }
    return Ok(());
  }

  /** `ensure_reader_eof`: one byte more must not exist. */
  method EnsureEof(m: Machine, reader: Reader, ghost since: nat) returns (r: Result<(), IoError>)
    requires since <= m.now
    modifies reader`offset, m`calls, m`now
    ensures m.now >= old(m.now) && m.calls >= old(m.calls)
    ensures r.Ok? ==> Ends(m.world, reader.file, since, m.now, old(reader.offset))
    ensures r.Err? ==> r.error in {Failed, TrailingData}
    ensures r.Err? && r.error == TrailingData ==>
              Steady(m.world, reader.file, since, m.now) ==> |m.world.content(reader.file, since)| > old(reader.offset)
    ensures r.Err? && r.error == Failed ==> !m.Faultless()
  {
    var extra := new byte[1];
    while true
      invariant reader.offset == old(reader.offset) && m.now >= old(m.now) && m.calls >= old(m.calls)
      decreases |m.events| - m.calls
    {
      var got := reader.Read(m, extra, 0, 1);
      assert Steady(m.world, reader.file, since, m.now) ==>
          m.world.content(reader.file, m.now) == m.world.content(reader.file, since);
      match got {
        case Ok(k) => return if k == 0 then Ok(()) else Err(TrailingData);
        case Err(e) =>
          if e != WasInterrupted {
            return Err(Failed);
          }
      }
    }
  }
}
