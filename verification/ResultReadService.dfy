/** The result-read registry as it works: maps updated in place under one lock. */
module ResultReadService {
  import opened Wrappers
  import opened ResultReads

  class ResultReadRegistry {
    var grants: map<Token, Grant>
    var pendingOpens: map<nat, PendingOpen>
    var nextGeneration: nat
    var nextOpenSequence: nat
    var owners: map<Owner, OwnerState>

    constructor ()
      ensures Value() == EmptyRegistry()
    {
      grants, pendingOpens, nextGeneration, nextOpenSequence, owners := map[], map[], 0, 0, map[];
    }

    function Value(): Registry
      reads this
    {
      Registry(grants, pendingOpens, nextGeneration, nextOpenSequence, owners)
    }

    /** Expired grants go. */
    method Retain(now: nat)
      modifies this`grants
      ensures grants == Prune(old(grants), now)
    {
      grants := map t | t in grants && now < grants[t].expires :: grants[t];
    }

    method BeginResultOpen(w: Owner, run: int, now: nat) returns (r: Result<Permit, ReadError>)
      modifies this
      ensures (Value(), r) == BeginOpen(old(Value()), w, run, now)
    {
      hide Prune, TokensOf, TokensFor, OpensOf, OpenPendingFor;
      if w == "" || run <= 0 {
        return Err(Unavailable);
      }
      var owner := StateOf(Value(), w);
      if owner.closed || owner.epoch == U64_MAX {
        return Err(InvalidToken);
      }
      Retain(now);
      if OpenPendingFor(pendingOpens, w, run) {
        return Err(Busy);
      }
      var replaced := |TokensFor(grants, w, run)|;
      var effectiveTotal := |grants| - replaced + |pendingOpens|;
      var effectiveOwner := |TokensOf(grants, w)| - replaced + |OpensOf(pendingOpens, w)|;
      if effectiveTotal >= MAX_RESULT_READ_TOKENS || effectiveOwner >= MAX_RESULT_READ_TOKENS_PER_OWNER {
        return Err(RegistryFull);
      }
      if nextOpenSequence == U64_MAX {
        return Err(Unavailable);
      }
      nextOpenSequence := nextOpenSequence + 1;
      pendingOpens := pendingOpens[nextOpenSequence := PendingOpen(w, run, owner.epoch)];
      return Ok(Permit(w, run, owner.epoch, nextOpenSequence));
    }

    /** `issue_result_read_at`, drawing one random token after another until one is free. */
    method IssueResultRead(p: Permit, source: nat, now: nat, candidates: seq<Token>)
      returns (r: Result<(Token, set<Token>), ReadError>)
      modifies this
      ensures (Value(), r) == Issue(old(Value()), p, source, now, candidates)
    {
      hide Prune, TokensOf, TokensFor, OpensOfOthers;
      if p.owner == "" || p.run <= 0 {
        return Err(Unavailable);
      }
      if !Live(Value(), p.owner, p.epoch) || !PendingMatches(Value(), p) {
        return Err(InvalidToken);
      }
      Retain(now);
      var replaced := TokensFor(grants, p.owner, p.run);
      var effectiveTotal := |grants| - |replaced| + (|pendingOpens| - 1);
      var effectiveOwner := |TokensOf(grants, p.owner)| - |replaced| + |OpensOfOthers(pendingOpens, p.owner, p.run)|;
      if effectiveTotal >= MAX_RESULT_READ_TOKENS || effectiveOwner >= MAX_RESULT_READ_TOKENS_PER_OWNER {
        return Err(RegistryFull);
      }
      if nextGeneration == U64_MAX {
        return Err(Unavailable);
      }
      ghost var drawn := FreshToken(grants, candidates);
      var attempt := 0;
      while attempt < |candidates|
        invariant 0 <= attempt <= |candidates|
        invariant FreshToken(grants, candidates[attempt..]) == drawn
      {
        var token := candidates[attempt];
        assert candidates[attempt..][1..] == candidates[attempt + 1..];
        if token in grants {
          attempt := attempt + 1;
          continue;
        }
        grants := grants - replaced;
        pendingOpens := pendingOpens - {p.sequence};
        nextGeneration := nextGeneration + 1;
        grants := grants[token := Grant(p.owner, p.run, source, nextGeneration, p.epoch, false,
                                        now + RESULT_READ_TOKEN_TTL)];
        return Ok((token, replaced));
      }
      return Err(Unavailable);
    }

    method BeginResultRead(w: Owner, token: Token, now: nat) returns (r: Result<Lease, ReadError>)
      modifies this
      ensures (Value(), r) == BeginRead(old(Value()), w, token, now)
    {
      if token !in grants {
        return Err(InvalidToken);
      }
      var grant := grants[token];
      if grant.owner != w {
        return Err(OwnerMismatch);
      }
      if !Live(Value(), w, grant.epoch) {
        return Err(InvalidToken);
      }
      if now >= grant.expires {
        grants := grants - {token};
        return Err(Expired);
      }
      if grant.inFlight {
        return Err(Busy);
      }
      grants := grants[token := grant.(inFlight := true)];
      return Ok(Lease(token, w, grant.run, grant.source, grant.generation, grant.epoch));
    }

    method ReleaseInFlight(l: Lease)
      modifies this
      ensures Value() == Release(old(Value()), l)
    {
      if l.token in grants {
        var grant := grants[l.token];
        if grant.generation == l.generation && grant.epoch == l.epoch {
          grants := grants[l.token := grant.(inFlight := false)];
        }
      }
    }

    method FinishResultRead(l: Lease, now: nat) returns (r: Result<(), ReadError>)
      modifies this
      ensures (Value(), r) == FinishRead(old(Value()), l, now)
    {
      if l.token !in grants {
        return Err(InvalidToken);
      }
      var grant := grants[l.token];
      if now >= grant.expires {
        grants := grants - {l.token};
        return Err(Expired);
      }
      if grant.owner != l.owner {
        return Err(OwnerMismatch);
      }
      if !Live(Value(), l.owner, l.epoch) {
        ReleaseInFlight(l);
        return Err(InvalidToken);
      }
      if !GrantMatches(grant, l) {
        ReleaseInFlight(l);
        return Err(InvalidToken);
      }
      ReleaseInFlight(l);
      return Ok(());
    }

    method CloseResultRead(w: Owner, token: Token) returns (r: Result<bool, ReadError>)
      modifies this
      ensures (Value(), r) == CloseRead(old(Value()), w, token)
    {
      if token in grants && grants[token].owner != w {
        return Err(OwnerMismatch);
      }
      var revoked := token in grants;
      grants := grants - {token};
      return Ok(revoked);
    }

    /** `revoke_result_read_lease`. */
    method RevokeReadLease(l: Lease)
      modifies this`grants
      ensures Value() == RevokeLease(old(Value()), l)
    {
      if l.token in grants && grants[l.token].generation == l.generation && grants[l.token].source == l.source {
        grants := grants - {l.token};
      }
    }

    /** `snapshot_result_export_binding`. */
    method SnapshotExportBinding(w: Owner, token: Token, now: nat) returns (r: Result<Lease, ReadError>)
      modifies this`grants
      ensures (Value(), r) == SnapshotBinding(old(Value()), w, token, now)
    {
      if token !in grants {
        return Err(InvalidToken);
      }
      var grant := grants[token];
      if grant.owner != w {
        return Err(OwnerMismatch);
      }
      if !Live(Value(), w, grant.epoch) {
        return Err(InvalidToken);
      }
      if now >= grant.expires {
        grants := grants - {token};
        return Err(Expired);
      }
      return Ok(Lease(token, w, grant.run, grant.source, grant.generation, grant.epoch));
    }

    /** Dropping an open permit that was not consumed. */
    method DropOpenPermit(sequence: nat)
      modifies this`pendingOpens
      ensures Value() == DropPermit(old(Value()), sequence)
    {
      pendingOpens := pendingOpens - {sequence};
    }

    method MarkOwnerClosed(w: Owner)
      modifies this`owners
      ensures Value() == MarkClosed(old(Value()), w)
    {
      var epoch := StateOf(Value(), w).epoch;
      if epoch != U64_MAX {
        epoch := epoch + 1;
      }
      owners := owners[w := OwnerState(epoch, true)];
    }

    method RemoveForOwner(w: Owner)
      modifies this
      ensures Value() == RemoveOwner(old(Value()), w)
    {
      pendingOpens := map q | q in pendingOpens && pendingOpens[q].owner != w :: pendingOpens[q];
      grants := map t | t in grants && grants[t].owner != w :: grants[t];
      assert pendingOpens == RemoveOwner(old(Value()), w).pending;
      assert grants == RemoveOwner(old(Value()), w).grants;
    }
  }
}
