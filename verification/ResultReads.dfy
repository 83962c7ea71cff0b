/** The result-read registry: one-shot opens, capacity-bounded grants, single-flight leases with generations,
    and window tombstones. Each function is one critical section of the registry lock. */
module ResultReads {
  import opened Wrappers

  type Owner = string
  type Token = string

  const MAX_RESULT_READ_TOKENS: nat := 32
  const MAX_RESULT_READ_TOKENS_PER_OWNER: nat := 8
  const MAX_TOKEN_ATTEMPTS: nat := 8
  const RESULT_READ_TOKEN_TTL: nat := 30 * 60
  const U64_MAX: nat := 0xFFFF_FFFF_FFFF_FFFF

  /** `source` stands for the database, the reader and the context a grant is bound to. */
  datatype Grant = Grant(owner: Owner, run: int, source: nat, generation: nat, epoch: nat, inFlight: bool, expires: nat)

  datatype PendingOpen = PendingOpen(owner: Owner, run: int, epoch: nat)

  datatype OwnerState = OwnerState(epoch: nat, closed: bool)

  datatype Registry = Registry(
    grants: map<Token, Grant>, pending: map<nat, PendingOpen>, nextGeneration: nat, nextSequence: nat,
    owners: map<Owner, OwnerState>)

  datatype Permit = Permit(owner: Owner, run: int, epoch: nat, sequence: nat)

  datatype Lease = Lease(token: Token, owner: Owner, run: int, source: nat, generation: nat, epoch: nat)

  datatype ReadError = Busy | RegistryFull | InvalidToken | OwnerMismatch | Expired | Unavailable | ContextUnavailable

  function EmptyRegistry(): Registry { Registry(map[], map[], 0, 0, map[]) }

  function StateOf(s: Registry, w: Owner): OwnerState { if w in s.owners then s.owners[w] else OwnerState(0, false) }

  predicate Live(s: Registry, w: Owner, epoch: nat) { !StateOf(s, w).closed && StateOf(s, w).epoch == epoch }

  function Prune(grants: map<Token, Grant>, now: nat): map<Token, Grant> {
    map t | t in grants && now < grants[t].expires :: grants[t]
  }

  function TokensOf(grants: map<Token, Grant>, w: Owner): set<Token> { set t | t in grants && grants[t].owner == w }

  function TokensFor(grants: map<Token, Grant>, w: Owner, run: int): set<Token> {
    set t | t in grants && grants[t].owner == w && grants[t].run == run
  }

  function OpensOf(pending: map<nat, PendingOpen>, w: Owner): set<nat> { set q | q in pending && pending[q].owner == w }

  function OpensOfOthers(pending: map<nat, PendingOpen>, w: Owner, run: int): set<nat> {
    set q | q in pending && pending[q].owner == w && pending[q].run != run
  }

  predicate OpenPendingFor(pending: map<nat, PendingOpen>, w: Owner, run: int) {
    exists q :: q in pending && pending[q].owner == w && pending[q].run == run
  }

  // -------------------------------------------------------- operations

  /** `begin_result_open`. */
  function BeginOpen(s: Registry, w: Owner, run: int, now: nat): (Registry, Result<Permit, ReadError>) {
    var owner := StateOf(s, w);
    if w == "" || run <= 0 then (s, Err(Unavailable))
    else if owner.closed || owner.epoch == U64_MAX then (s, Err(InvalidToken))
    else
      var pruned := s.(grants := Prune(s.grants, now));
      var replaced := |TokensFor(pruned.grants, w, run)|;
      if OpenPendingFor(s.pending, w, run) then (pruned, Err(Busy))
      else if |pruned.grants| - replaced + |s.pending| >= MAX_RESULT_READ_TOKENS
              || |TokensOf(pruned.grants, w)| - replaced + |OpensOf(s.pending, w)| >= MAX_RESULT_READ_TOKENS_PER_OWNER
      then (pruned, Err(RegistryFull))
      else if s.nextSequence == U64_MAX then (pruned, Err(Unavailable))
      else
        var q := s.nextSequence + 1;
        (pruned.(nextSequence := q, pending := s.pending[q := PendingOpen(w, run, owner.epoch)]),
         Ok(Permit(w, run, owner.epoch, q)))
  }

  /** The first random token that is not taken, within the attempts allowed. */
  function FreshToken<G>(grants: map<Token, G>, candidates: seq<Token>): (t: Option<Token>)
    ensures t.Some? ==> t.value !in grants
  {
    if candidates == [] then None
    else if candidates[0] !in grants then Some(candidates[0])
    else FreshToken(grants, candidates[1..])
  }

  function PendingMatches(s: Registry, p: Permit): bool {
    p.sequence in s.pending && s.pending[p.sequence] == PendingOpen(p.owner, p.run, p.epoch)
  }

  /** `issue_result_read_at`; also returns the tokens the new grant replaced. */
  function Issue(s: Registry, p: Permit, source: nat, now: nat, candidates: seq<Token>): (Registry,
      Result<(Token, set<Token>), ReadError>) {
    if p.owner == "" || p.run <= 0 then (s, Err(Unavailable))
    else if !Live(s, p.owner, p.epoch) || !PendingMatches(s, p) then (s, Err(InvalidToken))
    else
      var pruned := s.(grants := Prune(s.grants, now));
      var replaced := TokensFor(pruned.grants, p.owner, p.run);
      if |pruned.grants| - |replaced| + (|s.pending| - 1) >= MAX_RESULT_READ_TOKENS
         || |TokensOf(pruned.grants, p.owner)| - |replaced| + |OpensOfOthers(s.pending, p.owner,
             p.run)| >= MAX_RESULT_READ_TOKENS_PER_OWNER
      then (pruned, Err(RegistryFull))
      else if s.nextGeneration == U64_MAX then (pruned, Err(Unavailable))
      else
        match FreshToken(pruned.grants, candidates)
        case None => (pruned, Err(Unavailable))
        case Some(token) =>
          var g := Grant(p.owner, p.run, source, s.nextGeneration + 1, p.epoch, false, now + RESULT_READ_TOKEN_TTL);
          (pruned.(grants := (pruned.grants - replaced)[token := g], pending := s.pending - {p.sequence},
                   nextGeneration := s.nextGeneration + 1),
           Ok((token, replaced)))
  }

  /** `begin_result_read_at`. */
  function BeginRead(s: Registry, w: Owner, token: Token, now: nat): (Registry, Result<Lease, ReadError>) {
    if token !in s.grants then (s, Err(InvalidToken))
    else
      var g := s.grants[token];
      if g.owner != w then (s, Err(OwnerMismatch))
      else if !Live(s, w, g.epoch) then (s, Err(InvalidToken))
      else if now >= g.expires then (s.(grants := s.grants - {token}), Err(Expired))
      else if g.inFlight then (s, Err(Busy))
      else (s.(grants := s.grants[token := g.(inFlight := true)]),
            Ok(Lease(token, w, g.run, g.source, g.generation, g.epoch)))
  }

  /** `release_result_read_in_flight`. */
  function Release(s: Registry, l: Lease): Registry {
    if l.token in s.grants && s.grants[l.token].generation == l.generation && s.grants[l.token].epoch == l.epoch
    then s.(grants := s.grants[l.token := s.grants[l.token].(inFlight := false)]) else s
  }

  predicate GrantMatches(g: Grant, l: Lease) {
    g.generation == l.generation && g.epoch == l.epoch && g.run == l.run && g.source == l.source && g.inFlight
  }

  /** `finish_result_read_at`. */
  function FinishRead(s: Registry, l: Lease, now: nat): (Registry, Result<(), ReadError>) {
    if l.token !in s.grants then (s, Err(InvalidToken))
    else
      var g := s.grants[l.token];
      if now >= g.expires then (s.(grants := s.grants - {l.token}), Err(Expired))
      else if g.owner != l.owner then (s, Err(OwnerMismatch))
      else if !Live(s, l.owner, l.epoch) || !GrantMatches(g, l) then (Release(s, l), Err(InvalidToken))
      else (Release(s, l), Ok(()))
  }

  /** `close_result_read`. */
  function CloseRead(s: Registry, w: Owner, token: Token): (Registry, Result<bool, ReadError>) {
    if token in s.grants && s.grants[token].owner != w then (s, Err(OwnerMismatch))
    else (s.(grants := s.grants - {token}), Ok(token in s.grants))
  }

  /** `revoke_result_read_lease`. */
  function RevokeLease(s: Registry, l: Lease): Registry {
    if l.token in s.grants && s.grants[l.token].generation == l.generation && s.grants[l.token].source == l.source
    then s.(grants := s.grants - {l.token}) else s
  }

  /** `mark_result_owner_closed`: the tombstone of a window, under its own lock. */
  function MarkClosed(s: Registry, w: Owner): Registry {
    var epoch := StateOf(s, w).epoch;
    s.(owners := s.owners[w := OwnerState(if epoch == U64_MAX then epoch else epoch + 1, true)])
  }

  /** `remove_result_reads_for_owner`. */
  function RemoveOwner(s: Registry, w: Owner): Registry {
    s.(pending := map q | q in s.pending && s.pending[q].owner != w :: s.pending[q],
       grants := map t | t in s.grants && s.grants[t].owner != w :: s.grants[t])
  }

  /** Dropping an open permit that was not consumed. */
  function DropPermit(s: Registry, sequence: nat): Registry { s.(pending := s.pending - {sequence}) }

  /** `snapshot_result_export_binding`. */
  function SnapshotBinding(s: Registry, w: Owner, token: Token, now: nat): (Registry, Result<Lease, ReadError>) {
    if token !in s.grants then (s, Err(InvalidToken))
    else
      var g := s.grants[token];
      if g.owner != w then (s, Err(OwnerMismatch))
      else if !Live(s, w, g.epoch) then (s, Err(InvalidToken))
      else if now >= g.expires then (s.(grants := s.grants - {token}), Err(Expired))
      else (s, Ok(Lease(token, w, g.run, g.source, g.generation, g.epoch)))
  }

  // --------------------------------------------------- registry invariant

  /** Grants and opens are numbered below the counters, no two grants share a number, and an owner has at
      most one grant and one pending open for a run. */
  ghost predicate Numbered(s: Registry) {
    && (forall t :: t in s.grants ==> 0 < s.grants[t].generation <= s.nextGeneration)
    && (forall t, u :: t in s.grants && u in s.grants && t != u ==> s.grants[t].generation != s.grants[u].generation)
    && (forall t, u :: t in s.grants && u in s.grants && t != u ==>
          s.grants[t].owner != s.grants[u].owner || s.grants[t].run != s.grants[u].run)
    && (forall q :: q in s.pending ==> 0 < q <= s.nextSequence)
    && (forall q, r :: q in s.pending && r in s.pending && q != r ==>
          s.pending[q].owner != s.pending[r].owner || s.pending[q].run != s.pending[r].run)
  }

  ghost predicate WithinCapacity(s: Registry) {
    && |s.grants| <= MAX_RESULT_READ_TOKENS
    && forall w :: |TokensOf(s.grants, w)| <= MAX_RESULT_READ_TOKENS_PER_OWNER
  }

  ghost predicate Sound(s: Registry) { Numbered(s) && WithinCapacity(s) }

  lemma {:induction false} SubsetSize<T>(a: set<T>, b: set<T>)
    requires a <= b
    ensures |a| <= |b|
  {
    assert b == a + (b - a);
  }

  lemma FewerGrants(a: map<Token, Grant>, b: map<Token, Grant>)
    requires forall t :: t in b ==> t in a && b[t].owner == a[t].owner
    ensures |b| <= |a| && forall w :: |TokensOf(b, w)| <= |TokensOf(a, w)|
  {
    SubsetSize(b.Keys, a.Keys);
    forall w
      ensures |TokensOf(b, w)| <= |TokensOf(a, w)|
    {
      SubsetSize(TokensOf(b, w), TokensOf(a, w));
    }
  }

  /** `t` has lost grants, released or taken leases, or lost opens, and nothing else. */
  ghost predicate Shrinks(s: Registry, t: Registry) {
    && s.nextGeneration == t.nextGeneration && s.nextSequence == t.nextSequence
    && (forall k :: k in t.grants ==> k in s.grants && t.grants[k].(inFlight := s.grants[k].inFlight) == s.grants[k])
    && (forall q :: q in t.pending ==> q in s.pending && t.pending[q] == s.pending[q])
  }

  lemma ShrinkNumbered(s: Registry, t: Registry)
    requires Numbered(s) && Shrinks(s, t)
    ensures Numbered(t)
  {
    assert forall k :: k in t.grants ==>
        k in s.grants && t.grants[k].owner == s.grants[k].owner && t.grants[k].run == s.grants[k].run
        && t.grants[k].generation == s.grants[k].generation;
    hide Shrinks;
  }

  lemma ShrinkCapacity(s: Registry, t: Registry)
    requires WithinCapacity(s) && Shrinks(s, t)
    ensures WithinCapacity(t)
  {
    hide TokensOf;
    forall k | k in t.grants
      ensures k in s.grants && t.grants[k].owner == s.grants[k].owner
    {
      assert t.grants[k].(inFlight := s.grants[k].inFlight) == s.grants[k];
    }
    FewerGrants(s.grants, t.grants);
  }

  lemma ShrinkSound(s: Registry, t: Registry)
    requires Sound(s) && Shrinks(s, t)
    ensures Sound(t)
  {
    hide Numbered, WithinCapacity, Shrinks;
    ShrinkNumbered(s, t);
    ShrinkCapacity(s, t);
  }

  lemma PruneShrinks(s: Registry, now: nat)
    ensures Shrinks(s, s.(grants := Prune(s.grants, now)))
  {
  }

  lemma OpenNumbered(s: Registry, w: Owner, run: int, epoch: nat)
    requires Numbered(s) && !OpenPendingFor(s.pending, w, run)
    ensures var q := s.nextSequence + 1; Numbered(s.(nextSequence := q,
                                                     pending := s.pending[q := PendingOpen(w, run, epoch)]))
  {
  }

  lemma OpenSound(s: Registry, w: Owner, run: int, now: nat)
    requires Sound(s)
    ensures Sound(BeginOpen(s, w, run, now).0)
  {
    hide Numbered, Prune, TokensOf, TokensFor, OpensOf, Shrinks, OpenPendingFor;
    var pruned := s.(grants := Prune(s.grants, now));
    PruneShrinks(s, now);
    ShrinkSound(s, pruned);
    if BeginOpen(s, w, run, now).1.Ok? {
      OpenNumbered(pruned, w, run, StateOf(s, w).epoch);
    }
  }

  lemma {:induction false} RemoveSize<T>(a: set<T>, b: set<T>)
    requires b <= a
    ensures |a - b| == |a| - |b|
  {
    assert a == (a - b) + b;
  }

  /** What issuing does to the counts: the replaced grants go, one comes. */
  lemma IssueCounts(grants: map<Token, Grant>, w: Owner, run: int, token: Token, g: Grant)
    requires token !in grants && g.owner == w
    ensures var replaced := TokensFor(grants, w, run);
            var after := (grants - replaced)[token := g];
            && |after| == |grants| - |replaced| + 1
            && |TokensOf(after, w)| == |TokensOf(grants, w)| - |replaced| + 1
            && forall v :: v != w ==> |TokensOf(after, v)| == |TokensOf(grants, v)|
  {
    var replaced := TokensFor(grants, w, run);
    var after := (grants - replaced)[token := g];
    RemoveSize(grants.Keys, replaced);
    assert after.Keys == (grants.Keys - replaced) + {token};
    RemoveSize(TokensOf(grants, w), replaced);
    assert TokensOf(after, w) == (TokensOf(grants, w) - replaced) + {token};
    forall v | v != w
      ensures |TokensOf(after, v)| == |TokensOf(grants, v)|
    {
      assert TokensOf(after, v) == TokensOf(grants, v);
    }
  }

  lemma IssueNumbered(s: Registry, replaced: set<Token>, sequence: nat, token: Token, g: Grant)
    requires Numbered(s) && token !in s.grants && replaced == TokensFor(s.grants, g.owner, g.run)
    requires g.generation == s.nextGeneration + 1
    ensures Numbered(s.(grants := (s.grants - replaced)[token := g], pending := s.pending - {sequence},
                        nextGeneration := g.generation))
  {
  }

  lemma IssueCapacity(s: Registry, t: Registry, w: Owner, run: int, token: Token, g: Grant)
    requires WithinCapacity(s) && token !in s.grants && g.owner == w
    requires t.grants == (s.grants - TokensFor(s.grants, w, run))[token := g]
    requires |s.grants| - |TokensFor(s.grants, w, run)| < MAX_RESULT_READ_TOKENS
    requires |TokensOf(s.grants, w)| - |TokensFor(s.grants, w, run)| < MAX_RESULT_READ_TOKENS_PER_OWNER
    ensures WithinCapacity(t)
  {
    hide TokensOf, TokensFor;
    IssueCounts(s.grants, w, run, token, g);
  }

  lemma IssueSound(s: Registry, p: Permit, source: nat, now: nat, candidates: seq<Token>)
    requires Sound(s)
    ensures Sound(Issue(s, p, source, now, candidates).0)
  {
    hide Numbered, WithinCapacity, Prune, TokensOf, TokensFor, OpensOfOthers, FreshToken, Shrinks;
    var pruned := s.(grants := Prune(s.grants, now));
    PruneShrinks(s, now);
    ShrinkSound(s, pruned);
    var (after, r) := Issue(s, p, source, now, candidates);
    if r.Ok? {
      var token, replaced := r.value.0, r.value.1;
      var g := after.grants[token];
      assert |s.pending| >= 1 by {
        assert p.sequence in s.pending.Keys;
      }
      IssueNumbered(pruned, replaced, p.sequence, token, g);
      IssueCapacity(pruned, after, p.owner, p.run, token, g);
    }
  }

  // ------------------------------------------------- leases in the open

  /** The registry, and the lease obligations not yet discharged: live leases, and releases that a drop had to
      defer because the registry was locked. */
  datatype World = World(registry: Registry, leases: map<nat, Lease>)

  datatype Action =
    | Open(w: Owner, run: int, now: nat)
    | IssueGrant(p: Permit, source: nat, now: nat, candidates: seq<Token>)
    | DropOpen(sequence: nat)
    | Begin(w: Owner, token: Token, now: nat, id: nat)
    | Finish(id: nat, now: nat)
    | ReleaseDropped(id: nat)
    | RevokeFinished(l: Lease)
    | Close(w: Owner, token: Token)
    | Snapshot(w: Owner, token: Token, now: nat)
    | CloseWindow(w: Owner)
    | CleanUp(w: Owner)

  /** An action on a lease that is not there, or with a number already in use, cannot happen. */
  predicate Possible(x: World, a: Action) {
    match a
    case Begin(_, _, _, id) => id !in x.leases
    case Finish(id, _) => id in x.leases
    case ReleaseDropped(id) => id in x.leases
    case _ => true
  }

  function Step(x: World, a: Action): World
    requires Possible(x, a)
  {
    var s := x.registry;
    match a
    case Open(w, run, now) => x.(registry := BeginOpen(s, w, run, now).0)
    case IssueGrant(p, source, now, candidates) => x.(registry := Issue(s, p, source, now, candidates).0)
    case DropOpen(sequence) => x.(registry := DropPermit(s, sequence))
    case Begin(w, token, now, id) =>
      var (t, r) := BeginRead(s, w, token, now);
      World(t, if r.Ok? then x.leases[id := r.value] else x.leases)
    case Finish(id, now) => World(FinishRead(s, x.leases[id], now).0, x.leases - {id})
    case ReleaseDropped(id) => World(Release(s, x.leases[id]), x.leases - {id})
    case RevokeFinished(l) => x.(registry := RevokeLease(s, l))
    case Close(w, token) => x.(registry := CloseRead(s, w, token).0)
    case Snapshot(w, token, now) => x.(registry := SnapshotBinding(s, w, token, now).0)
    case CloseWindow(w) => x.(registry := MarkClosed(s, w))
    case CleanUp(w) => x.(registry := RemoveOwner(s, w))
  }

  lemma ShrinkingSteps(x: World, a: Action)
    requires Possible(x, a) && !a.Open? && !a.IssueGrant?
    ensures Shrinks(x.registry, Step(x, a).registry)
  {
  }

  lemma StepSound(x: World, a: Action)
    requires Sound(x.registry) && Possible(x, a)
    ensures Sound(Step(x, a).registry)
  {
    hide Sound, Shrinks, BeginOpen, Issue;
    match a
    case Open(w, run, now) => OpenSound(x.registry, w, run, now);
    case IssueGrant(p, source, now, candidates) => IssueSound(x.registry, p, source, now, candidates);
    case _ =>
      ShrinkingSteps(x, a);
      ShrinkSound(x.registry, Step(x, a).registry);
  }

  /** The obligation `id` is for this grant. */
  predicate Covers(x: World, id: nat, t: Token) {
    id in x.leases && t in x.registry.grants && x.leases[id].generation == x.registry.grants[t].generation
  }

  /** Single flight: a grant is in flight exactly when one undischarged obligation has its generation; no two
      obligations share a generation; and an obligation with a grant's generation is for that very grant. */
  ghost predicate SingleFlight(x: World) {
    && (forall t :: t in x.registry.grants ==> (x.registry.grants[t].inFlight <==> exists id :: Covers(x, id, t)))
    && (forall i, j :: i in x.leases && j in x.leases && i != j ==> x.leases[i].generation != x.leases[j].generation)
    && (forall i :: i in x.leases ==> x.leases[i].generation <= x.registry.nextGeneration)
    && (forall id, t :: Covers(x, id, t) ==>
          x.leases[id] == var g := x.registry.grants[t]; Lease(t, g.owner, g.run, g.source, g.generation, g.epoch))
  }

  /** Dropping grants, and nothing else, keeps single flight. */
  lemma FewerGrantsFly(x: World, t: Registry)
    requires SingleFlight(x) && x.registry.nextGeneration <= t.nextGeneration
    requires forall k :: k in t.grants ==> k in x.registry.grants && t.grants[k] == x.registry.grants[k]
    ensures SingleFlight(x.(registry := t))
  {
    var y := x.(registry := t);
    forall k | k in t.grants
      ensures t.grants[k].inFlight <==> exists id :: Covers(y, id, k)
    {
      if t.grants[k].inFlight {
        var id :| Covers(x, id, k);
        assert Covers(y, id, k);
      }
      assert forall id :: Covers(y, id, k) ==> Covers(x, id, k);
    }
    assert forall id, k :: Covers(y, id, k) ==> Covers(x, id, k);
  }

  lemma IssuedFlies(x: World, t: Registry, token: Token, g: Grant)
    requires SingleFlight(x) && !g.inFlight && g.generation == t.nextGeneration == x.registry.nextGeneration + 1
    requires token in t.grants && t.grants[token] == g
    requires forall k :: k in t.grants && k != token ==> k in x.registry.grants && t.grants[k] == x.registry.grants[k]
    ensures SingleFlight(x.(registry := t))
  {
    var y := x.(registry := t);
    assert forall id :: !Covers(y, id, token);
    forall k | k in t.grants && k != token
      ensures t.grants[k].inFlight <==> exists id :: Covers(y, id, k)
    {
      if t.grants[k].inFlight {
        var id :| Covers(x, id, k);
        assert Covers(y, id, k);
      }
      assert forall id :: Covers(y, id, k) ==> Covers(x, id, k);
    }
    forall id, k | Covers(y, id, k)
      ensures y.leases[id] == var g := t.grants[k]; Lease(k, g.owner, g.run, g.source, g.generation, g.epoch)
    {
      assert Covers(x, id, k);
    }
  }

  lemma GenerationsDiffer(s: Registry, token: Token)
    requires Numbered(s) && token in s.grants
    ensures s.grants[token].generation <= s.nextGeneration
    ensures forall t :: t in s.grants && t != token ==> s.grants[t].generation != s.grants[token].generation
  {
  }

  lemma BegunFlies(x: World, token: Token, id: nat)
    requires SingleFlight(x) && Sound(x.registry) && id !in x.leases
    requires token in x.registry.grants && !x.registry.grants[token].inFlight
    ensures var g := x.registry.grants[token];
            SingleFlight(World(x.registry.(grants := x.registry.grants[token := g.(inFlight := true)]),
                               x.leases[id := Lease(token, g.owner, g.run, g.source, g.generation, g.epoch)]))
  {
    hide WithinCapacity, Numbered;
    var g := x.registry.grants[token];
    GenerationsDiffer(x.registry, token);
    var l := Lease(token, g.owner, g.run, g.source, g.generation, g.epoch);
    var y := World(x.registry.(grants := x.registry.grants[token := g.(inFlight := true)]), x.leases[id := l]);
    assert Covers(y, id, token);
    assert forall i :: !Covers(x, i, token);
    forall i | i in x.leases
      ensures x.leases[i].generation != g.generation
    {
      assert !Covers(x, i, token);
    }
    forall k | k in y.registry.grants && k != token
      ensures y.registry.grants[k].inFlight <==> exists i :: Covers(y, i, k)
    {
      if y.registry.grants[k].inFlight {
        var i :| Covers(x, i, k);
        assert Covers(y, i, k);
      }
      assert forall i :: Covers(y, i, k) ==> Covers(x, i, k);
    }
    assert forall i, k :: Covers(y, i, k) && i != id ==> Covers(x, i, k);
  }

  /** A lease whose grant is gone or belongs to a later generation is discharged without touching any grant. */
  lemma DischargeStale(x: World, id: nat)
    requires SingleFlight(x) && id in x.leases
    requires forall t :: !Covers(x, id, t)
    ensures SingleFlight(x.(leases := x.leases - {id}))
  {
    var y := x.(leases := x.leases - {id});
    forall k | k in y.registry.grants
      ensures y.registry.grants[k].inFlight <==> exists i :: Covers(y, i, k)
    {
      if y.registry.grants[k].inFlight {
        var i :| Covers(x, i, k);
        assert Covers(y, i, k);
      }
      assert forall i :: Covers(y, i, k) ==> Covers(x, i, k);
    }
    assert forall i, k :: Covers(y, i, k) ==> Covers(x, i, k);
  }

  /** The obligation of a grant in flight is discharged together with its flag. */
  lemma DischargeCovering(x: World, id: nat, token: Token)
    requires SingleFlight(x) && Sound(x.registry) && Covers(x, id, token)
    ensures var s := x.registry;
            SingleFlight(World(s.(grants := s.grants[token := s.grants[token].(inFlight := false)]), x.leases - {id}))
  {
    hide WithinCapacity;
    var s := x.registry;
    var y := World(s.(grants := s.grants[token := s.grants[token].(inFlight := false)]), x.leases - {id});
    forall i
      ensures !Covers(y, i, token)
    {
      assert Covers(y, i, token) ==> Covers(x, i, token);
    }
    forall k | k in y.registry.grants && k != token
      ensures y.registry.grants[k].inFlight <==> exists i :: Covers(y, i, k)
    {
      if y.registry.grants[k].inFlight {
        var i :| Covers(x, i, k);
        assert s.grants[k].generation != s.grants[token].generation;
        assert Covers(y, i, k);
      }
      assert forall i :: Covers(y, i, k) ==> Covers(x, i, k);
    }
    assert forall i, k :: Covers(y, i, k) ==> Covers(x, i, k);
  }

  lemma CoveringLease(x: World, id: nat, t: Token)
    requires SingleFlight(x) && Covers(x, id, t)
    ensures x.leases[id].token == t && x.registry.grants[t].inFlight && GrantMatches(x.registry.grants[t], x.leases[id])
    ensures x.registry.grants[t].owner == x.leases[id].owner
  {
  }

  lemma ReleaseFlies(x: World, id: nat)
    requires SingleFlight(x) && Sound(x.registry) && id in x.leases
    ensures SingleFlight(World(Release(x.registry, x.leases[id]), x.leases - {id}))
  {
    hide SingleFlight, Sound;
    var token := x.leases[id].token;
    if Covers(x, id, token) {
      CoveringLease(x, id, token);
      DischargeCovering(x, id, token);
    } else {
      forall t
        ensures !Covers(x, id, t)
      {
        if Covers(x, id, t) {
          CoveringLease(x, id, t);
        }
      }
      DischargeStale(x, id);
    }
  }

  lemma FinishFlies(x: World, id: nat, now: nat)
    requires SingleFlight(x) && Sound(x.registry) && id in x.leases
    ensures SingleFlight(World(FinishRead(x.registry, x.leases[id], now).0, x.leases - {id}))
  {
    hide SingleFlight, Sound, Release;
    var l := x.leases[id];
    var after := FinishRead(x.registry, l, now).0;
    if after == Release(x.registry, l) {
      ReleaseFlies(x, id);
    } else {
      // the token is unknown, expired, or another owner's: whatever this obligation covered is gone
      FewerGrantsFly(x, after);
      var y := x.(registry := after);
      forall t
        ensures !Covers(y, id, t)
      {
        if Covers(x, id, t) {
          CoveringLease(x, id, t);
        }
      }
      DischargeStale(y, id);
    }
  }

  lemma StepFlies(x: World, a: Action)
    requires Sound(x.registry) && SingleFlight(x) && Possible(x, a)
    ensures SingleFlight(Step(x, a))
  {
    hide Sound, SingleFlight, FinishRead, Release, TokensOf, TokensFor, OpensOf, OpensOfOthers, FreshToken;
    match a
    case IssueGrant(p, source, now, candidates) =>
      var (t, r) := Issue(x.registry, p, source, now, candidates);
      if r.Ok? {
        IssuedFlies(x, t, r.value.0, t.grants[r.value.0]);
      } else {
        FewerGrantsFly(x, t);
      }
    case Begin(w, token, now, id) =>
      var (t, r) := BeginRead(x.registry, w, token, now);
      if r.Ok? {
        BegunFlies(x, token, id);
      } else {
        FewerGrantsFly(x, t);
      }
    case Finish(id, now) => FinishFlies(x, id, now);
    case ReleaseDropped(id) => ReleaseFlies(x, id);
    case _ => FewerGrantsFly(x, Step(x, a).registry);
  }

  // ------------------------------------------------------------- runs

  predicate PossibleRun(x: World, actions: seq<Action>)
    decreases |actions|, 0
  {
    actions == [] ||
    (PossibleRun(x, actions[..|actions| - 1]) && Possible(After(x, actions[..|actions| - 1]), actions[|actions| - 1]))
  }

  function After(x: World, actions: seq<Action>): World
    requires PossibleRun(x, actions)
    decreases |actions|, 1
  {
    if actions == [] then x else Step(After(x, actions[..|actions| - 1]), actions[|actions| - 1])
  }

  function Fresh(): World { World(EmptyRegistry(), map[]) }

  lemma FreshIsSound()
    ensures Sound(Fresh().registry) && SingleFlight(Fresh())
  {
    var s := Fresh().registry;
    forall w
      ensures TokensOf(s.grants, w) == {}
    {
    }
    assert forall id, t :: !Covers(Fresh(), id, t);
  }

  /** In every reachable state: at most 32 grants, 8 an owner and one for each owner and run, numbered apart;
      and a grant is in flight exactly when one undischarged obligation is for it. */
  lemma {:induction false} RegistryStaysSound(actions: seq<Action>)
    requires PossibleRun(Fresh(), actions)
    ensures Sound(After(Fresh(), actions).registry) && SingleFlight(After(Fresh(), actions))
  {
    hide Sound, SingleFlight, Step;
    if actions == [] {
      FreshIsSound();
    } else {
      var init := actions[..|actions| - 1];
      RegistryStaysSound(init);
      StepSound(After(Fresh(), init), actions[|actions| - 1]);
      StepFlies(After(Fresh(), init), actions[|actions| - 1]);
    }
  }

  /** Every grant of `t` was there before, with its generation, or has a newer generation than any before. */
  ghost predicate OldOrNewer(s: Registry, t: Registry) {
    && s.nextGeneration <= t.nextGeneration
    && forall k :: k in t.grants ==>
         || t.grants[k].generation > s.nextGeneration
         || (k in s.grants && s.grants[k].generation == t.grants[k].generation)
  }

  lemma ShrinkOld(s: Registry, t: Registry)
    requires Shrinks(s, t)
    ensures OldOrNewer(s, t)
  {
    forall k | k in t.grants
      ensures k in s.grants && s.grants[k].generation == t.grants[k].generation
    {
      assert t.grants[k].(inFlight := s.grants[k].inFlight) == s.grants[k];
    }
  }

  lemma OpenOld(s: Registry, w: Owner, run: int, now: nat)
    ensures OldOrNewer(s, BeginOpen(s, w, run, now).0) && BeginOpen(s, w, run, now).0.owners == s.owners
  {
    hide TokensOf, TokensFor, OpensOf, OpenPendingFor;
  }

  lemma IssueOld(s: Registry, p: Permit, source: nat, now: nat, candidates: seq<Token>)
    ensures OldOrNewer(s, Issue(s, p, source, now, candidates).0)
            && Issue(s, p, source, now, candidates).0.owners == s.owners
  {
    hide TokensOf, TokensFor, OpensOf, OpensOfOthers, FreshToken, Prune, Live, PendingMatches, OldOrNewer;
    var pruned := s.(grants := Prune(s.grants, now));
    PruneShrinks(s, now);
    ShrinkOld(s, pruned);
    var (after, r) := Issue(s, p, source, now, candidates);
    if r.Ok? {
      IssuedOld(pruned, after, r.value.1, after.grants[r.value.0], r.value.0);
      NewerStill(s, pruned, after);
    } else {
      OldSelf(s);
    }
  }

  lemma OldSelf(s: Registry)
    ensures OldOrNewer(s, s)
  {
  }

  lemma IssuedOld(s: Registry, t: Registry, replaced: set<Token>, g: Grant, token: Token)
    requires g.generation == t.nextGeneration == s.nextGeneration + 1 && t.grants == (s.grants - replaced)[token := g]
    ensures OldOrNewer(s, t)
  {
  }

  lemma NewerStill(s: Registry, t: Registry, u: Registry)
    requires OldOrNewer(s, t) && OldOrNewer(t, u) && s.nextGeneration == t.nextGeneration
    ensures OldOrNewer(s, u)
  {
  }

  /** Generations only grow, tombstones only accumulate. */
  lemma StepsAge(x: World, a: Action)
    requires Possible(x, a)
    ensures OldOrNewer(x.registry, Step(x, a).registry)
    ensures forall w :: StateOf(x.registry, w).closed ==> StateOf(Step(x, a).registry, w).closed
  {
    hide OldOrNewer, Shrinks, BeginOpen, Issue;
    match a
    case Open(w, run, now) => OpenOld(x.registry, w, run, now);
    case IssueGrant(p, source, now, candidates) => IssueOld(x.registry, p, source, now, candidates);
    case _ =>
      ShrinkingSteps(x, a);
      ShrinkOld(x.registry, Step(x, a).registry);
  }

  predicate Present(x: World, token: Token, generation: nat) {
    token in x.registry.grants && x.registry.grants[token].generation == generation
  }

  /** A generation that is gone never comes back, even under the same random token. */
  lemma {:induction false} GoneForGood(x: World, actions: seq<Action>, token: Token, generation: nat)
    requires PossibleRun(x, actions) && generation <= x.registry.nextGeneration && !Present(x, token, generation)
    ensures !Present(After(x, actions), token, generation)
    ensures generation <= After(x, actions).registry.nextGeneration
  {
    hide Step;
    if actions != [] {
      var init := actions[..|actions| - 1];
      GoneForGood(x, init, token, generation);
      StepsAge(After(x, init), actions[|actions| - 1]);
    }
  }

  lemma {:induction false} RunSplits(x: World, actions: seq<Action>, i: nat)
    requires PossibleRun(x, actions) && i <= |actions|
    ensures PossibleRun(x, actions[..i]) && PossibleRun(After(x, actions[..i]), actions[i..])
    ensures After(x, actions) == After(After(x, actions[..i]), actions[i..])
    decreases |actions|
  {
    hide Step, Possible;
    if i == |actions| {
      assert actions[..i] == actions && actions[i..] == [];
    } else {
      var init := actions[..|actions| - 1];
      RunSplits(x, init, i);
      assert init[..i] == actions[..i];
      assert actions[i..][..|actions| - i - 1] == init[i..];
    }
  }

  /** A read that finishes successfully had its grant in place, under its token, at every moment since it began:
      no close, reopen, expiry or clean-up happened in between. Its window was not closed either. */
  lemma FinishedReadWasCurrent(x: World, actions: seq<Action>, l: Lease, now: nat, i: nat)
    requires PossibleRun(x, actions) && i <= |actions| && l.generation <= x.registry.nextGeneration
    requires FinishRead(After(x, actions).registry, l, now).1.Ok?
    ensures PossibleRun(x, actions[..i]) && Present(After(x, actions[..i]), l.token, l.generation)
    ensures !StateOf(After(x, actions[..i]).registry, l.owner).closed
  {
    hide Step;
    RunSplits(x, actions, i);
    RunAges(x, actions[..i]);
    var middle := After(x, actions[..i]);
    if !Present(middle, l.token, l.generation) {
      GoneForGood(middle, actions[i..], l.token, l.generation);
    }
    if StateOf(middle.registry, l.owner).closed {
      ClosedStays(middle, actions[i..], l.owner);
    }
  }

  lemma {:induction false} RunAges(x: World, actions: seq<Action>)
    requires PossibleRun(x, actions)
    ensures x.registry.nextGeneration <= After(x, actions).registry.nextGeneration
  {
    hide Step;
    if actions != [] {
      RunAges(x, actions[..|actions| - 1]);
      StepsAge(After(x, actions[..|actions| - 1]), actions[|actions| - 1]);
    }
  }

  lemma {:induction false} ClosedStays(x: World, actions: seq<Action>, w: Owner)
    requires PossibleRun(x, actions) && StateOf(x.registry, w).closed
    ensures StateOf(After(x, actions).registry, w).closed
  {
    hide Step;
    if actions != [] {
      ClosedStays(x, actions[..|actions| - 1], w);
      StepsAge(After(x, actions[..|actions| - 1]), actions[|actions| - 1]);
    }
  }

  /** Once a window is closed, nothing is opened, issued, read or snapshotted for it again, whatever was half
      finished at the time. */
  lemma ClosedWindowGetsNothing(x: World, actions: seq<Action>, w: Owner, run: int, p: Permit, source: nat,
                                candidates: seq<Token>, token: Token, l: Lease, now: nat)
    requires PossibleRun(x, actions) && StateOf(x.registry, w).closed && p.owner == w && l.owner == w
    ensures var s := After(x, actions).registry;
            && BeginOpen(s, w, run, now).1.Err? && Issue(s, p, source, now, candidates).1.Err?
            && BeginRead(s, w, token, now).1.Err? && SnapshotBinding(s, w, token, now).1.Err?
            && FinishRead(s, l, now).1.Err?
  {
    ClosedStays(x, actions, w);
    hide Step, TokensOf, TokensFor, OpensOf, OpensOfOthers, FreshToken;
  }
}
