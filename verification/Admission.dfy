/** Two admission registries: one-shot scan-root tokens with their pending selections, and the gate in front of
    concurrent history reads. */
module Admission {
  import opened Wrappers
  import opened ResultReads

  const MAX_PENDING_SCAN_ROOT_TOKENS: nat := 16
  const SCAN_ROOT_TOKEN_TTL: nat := 60
  const MAX_CONCURRENT_HISTORY_READS: nat := 4

  datatype RootGrant = RootGrant(owner: Owner, root: string, expires: nat)

  datatype RootError =
    | NoSelection | AlreadySelecting | RootsFull | InvalidRoot | NotGranted | WrongOwner | RootExpired | Exhausted

  function LiveRoots(grants: map<Token, RootGrant>, now: nat): (live: map<Token, RootGrant>)
    ensures |live| <= |grants| && forall t :: t in live <==> t in grants && now < grants[t].expires
    ensures forall t :: t in live ==> live[t] == grants[t]
  {
    var live := map t | t in grants && now < grants[t].expires :: grants[t];
    SubsetSize(live.Keys, grants.Keys);
    live
  }

  lemma MapGrows<K, V>(m: map<K, V>, k: K, v: V)
    ensures |m[k := v]| == |m| + if k in m then 0 else 1
    ensures |m - {k}| == |m| - if k in m then 1 else 0
  {
    assert m[k := v].Keys == m.Keys + {k};
    assert (m - {k}).Keys == m.Keys - {k};
    if k in m {
      assert m.Keys == (m.Keys - {k}) + {k};
    }
  }

  /** `ScanRootTokenRegistry`. */
  class ScanRootTokens {
    var grants: map<Token, RootGrant>
    var pendingSelections: map<Owner, nat>
    var nextSelectionSequence: nat

    /** Tokens and open selections together never exceed the limit. */
    ghost predicate Valid()
      reads this
    {
      && |grants| + |pendingSelections| <= MAX_PENDING_SCAN_ROOT_TOKENS
      && forall w :: w in pendingSelections ==> pendingSelections[w] <= nextSelectionSequence
    }

    constructor ()
      ensures Valid() && grants == map[] && pendingSelections == map[]
    {
      grants, pendingSelections, nextSelectionSequence := map[], map[], 0;
    }

    /** `begin_scan_root_selection`. */
    method BeginSelection(w: Owner, now: nat) returns (r: Result<nat, RootError>)
      requires Valid()
      modifies this
      ensures Valid()
      ensures r.Ok? <==> && w != "" && w !in old(pendingSelections)
                         && |LiveRoots(old(grants), now)| + |old(pendingSelections)| < MAX_PENDING_SCAN_ROOT_TOKENS
                         && old(nextSelectionSequence) != U64_MAX
      ensures r.Ok? ==> r.value == old(nextSelectionSequence) + 1 == nextSelectionSequence
                        && pendingSelections == old(pendingSelections)[w := r.value]
                        && grants == LiveRoots(old(grants), now)
      ensures r.Err? ==> pendingSelections == old(pendingSelections)
                         && nextSelectionSequence == old(nextSelectionSequence)
                         && grants == if w == "" then old(grants) else LiveRoots(old(grants), now)
      ensures r == Err(AlreadySelecting) <==> w != "" && w in old(pendingSelections)
      ensures r == Err(RootsFull) <==>
                && w != "" && w !in old(pendingSelections)
                && |LiveRoots(old(grants), now)| + |old(pendingSelections)| >= MAX_PENDING_SCAN_ROOT_TOKENS
    {
      if w == "" {
        return Err(NoSelection);
      }
      grants := LiveRoots(grants, now);
      if w in pendingSelections {
        return Err(AlreadySelecting);
      }
      if |grants| + |pendingSelections| >= MAX_PENDING_SCAN_ROOT_TOKENS {
        return Err(RootsFull);
      }
      if nextSelectionSequence == U64_MAX {
        return Err(Exhausted);
      }
      nextSelectionSequence := nextSelectionSequence + 1;
      MapGrows(pendingSelections, w, nextSelectionSequence);
      pendingSelections := pendingSelections[w := nextSelectionSequence];
      return Ok(nextSelectionSequence);
    }

    /** `finish_scan_root_selection`: the selection is used up whatever comes of it; its sequence number must
        still be the current one. */
    method FinishSelection(w: Owner, sequence: nat, root: Option<string>, absolute: bool, now: nat,
                           candidates: seq<Token>)
      returns (r: Result<Option<Token>, RootError>)
      requires Valid()
      modifies this
      ensures Valid()
      ensures !(w in old(pendingSelections) && old(pendingSelections)[w] == sequence) ==>
                r == Err(NoSelection) && grants == old(grants) && pendingSelections == old(pendingSelections)
      ensures w in old(pendingSelections) && old(pendingSelections)[w] == sequence ==>
                && pendingSelections == old(pendingSelections) - {w}
                && (r == Ok(None) <==> root.None?)
                && (root.Some? && !(w != "" && absolute) ==> r == Err(InvalidRoot) && grants == old(grants))
                && (root.Some? && w != "" && absolute ==>
                      var live := LiveRoots(old(grants), now);
                      match FreshToken(live, candidates)
                      case None => r == Err(Exhausted) && grants == live
                      case Some(token) =>
                        r == Ok(Some(token))
                        && grants == live[token := RootGrant(w, root.value, now + SCAN_ROOT_TOKEN_TTL)])
    {
      if !(w in pendingSelections && pendingSelections[w] == sequence) {
        return Err(NoSelection);
      }
      MapGrows(pendingSelections, w, 0);
      pendingSelections := pendingSelections - {w};
      if root.None? {
        return Ok(None);
      }
      if w == "" || !absolute {
        return Err(InvalidRoot);
      }
      grants := LiveRoots(grants, now);
      if |grants| >= MAX_PENDING_SCAN_ROOT_TOKENS {
        return Err(RootsFull);
      }
      ghost var drawn := FreshToken(grants, candidates);
      assert candidates[0..] == candidates;
      for attempt := 0 to |candidates|
        invariant Valid() && grants == LiveRoots(old(grants), now) && pendingSelections == old(pendingSelections) - {w}
        invariant FreshToken(grants, candidates[attempt..]) == drawn
        invariant |grants| + |pendingSelections| < MAX_PENDING_SCAN_ROOT_TOKENS
      {
        if candidates[attempt] !in grants {
          var g := RootGrant(w, root.value, now + SCAN_ROOT_TOKEN_TTL);
          MapGrows(grants, candidates[attempt], g);
          grants := grants[candidates[attempt] := g];
          return Ok(Some(candidates[attempt]));
        }
      }
      return Err(Exhausted);
    }

    /** `abandon_scan_root_selection`: a selection that was replaced or closed in the meantime is left alone. */
    method AbandonSelection(w: Owner, sequence: nat)
      requires Valid()
      modifies this`pendingSelections
      ensures Valid()
      ensures pendingSelections == if w in old(pendingSelections) && old(pendingSelections)[w] == sequence
                                   then old(pendingSelections) - {w} else old(pendingSelections)
    {
      if w in pendingSelections && pendingSelections[w] == sequence {
        MapGrows(pendingSelections, w, 0);
        pendingSelections := pendingSelections - {w};
      }
    }

    /** `consume_scan_root_at`: a token is redeemed once, by its window, before it expires. */
    method Consume(w: Owner, token: Token, now: nat) returns (r: Result<string, RootError>)
      requires Valid()
      modifies this`grants
      ensures Valid()
      ensures r.Ok? <==> token in old(grants) && old(grants)[token].owner == w && now < old(grants)[token].expires
      ensures r.Ok? ==> r.value == old(grants)[token].root && grants == old(grants) - {token}
      // another window's token stays; this window's is gone even when it came too late
      ensures r.Err? ==>
                if token !in old(grants) then r.error == NotGranted && grants == old(grants)
                else if old(grants)[token].owner != w then r.error == WrongOwner && grants == old(grants)
                else r.error == RootExpired && grants == old(grants) - {token}
    {
      if token !in grants {
        return Err(NotGranted);
      }
      var grant := grants[token];
      if grant.owner != w {
        return Err(WrongOwner);
      }
      MapGrows(grants, token, grant);
      grants := grants - {token};
      return if now >= grant.expires then Err(RootExpired) else Ok(grant.root);
    }

    /** `clear_scan_roots_for_owner`. */
    method ClearOwner(w: Owner)
      requires Valid()
      modifies this
      ensures Valid() && pendingSelections == old(pendingSelections) - {w}
      ensures forall t :: t in grants <==> t in old(grants) && old(grants)[t].owner != w
      ensures forall t :: t in grants ==> grants[t] == old(grants)[t]
    {
      var kept := map t | t in grants && grants[t].owner != w :: grants[t];
      SubsetSize(kept.Keys, grants.Keys);
      MapGrows(pendingSelections, w, 0);
      grants := kept;
      pendingSelections := pendingSelections - {w};
    }
  }

  function SaturatingSub(a: nat, b: nat): nat { if a >= b then a - b else 0 }

  /** A count of zero is not kept. */
  function Recount(owners: map<Owner, nat>, w: Owner, count: nat): map<Owner, nat> {
    if count == 0 then owners - {w} else owners[w := count]
  }

  ghost predicate HasPermit(live: map<nat, Owner>, w: Owner) { exists p :: p in live && live[p] == w }

  ghost predicate EveryOwnerReads(owners: map<Owner, nat>, live: map<nat, Owner>) {
    forall w :: w in owners ==> owners[w] == 1 && HasPermit(live, w)
  }

  /** The gate counts exactly the permits that are out: at most four, at most one for a window. */
  ghost predicate GateCounts(total: nat, owners: map<Owner, nat>, live: map<nat, Owner>) {
    && total == |live| <= MAX_CONCURRENT_HISTORY_READS
    && EveryOwnerReads(owners, live)
    && (forall p :: p in live ==> live[p] in owners)
    && (forall p, q :: p in live && q in live && p != q ==> live[p] != live[q])
  }

  lemma PermitKept(live: map<nat, Owner>, permit: nat, w: Owner, v: Owner)
    requires permit !in live && (HasPermit(live, v) || v == w)
    ensures HasPermit(live[permit := w], v)
  {
    if v == w {
      assert live[permit := w][permit] == v;
    } else {
      var p :| p in live && live[p] == v;
      assert live[permit := w][p] == v;
    }
  }

  lemma PermitAdded(total: nat, owners: map<Owner, nat>, live: map<nat, Owner>, permit: nat, w: Owner)
    requires GateCounts(total, owners, live) && w !in owners && permit !in live && total < MAX_CONCURRENT_HISTORY_READS
    ensures GateCounts(total + 1, owners[w := 1], live[permit := w])
  {
    hide HasPermit, EveryOwnerReads;
    MapGrows(live, permit, w);
    AllPermitted(owners, live, permit, w);
    PermitsApart(owners, live, permit, w);
  }

  lemma AllPermitted(owners: map<Owner, nat>, live: map<nat, Owner>, permit: nat, w: Owner)
    requires permit !in live && EveryOwnerReads(owners, live)
    ensures EveryOwnerReads(owners[w := 1], live[permit := w])
  {
    hide HasPermit;
    var counts := owners[w := 1];
    forall v | v in counts
      ensures counts[v] == 1 && HasPermit(live[permit := w], v)
    {
      assert v != w ==> v in owners;
      PermitKept(live, permit, w, v);
    }
  }

  lemma PermitsApart(owners: map<Owner, nat>, live: map<nat, Owner>, permit: nat, w: Owner)
    requires permit !in live && w !in owners
    requires (forall p :: p in live ==> live[p] in owners) && forall p, q :: p in live && q in live && p != q ==>
               live[p] != live[q]
    ensures var next := live[permit := w];
            (forall p :: p in next ==> next[p] in owners[w := 1]) && forall p, q :: p in next && q in next && p != q ==>
              next[p] != next[q]
  {
  }

  function CountOf(owners: map<Owner, nat>, w: Owner): nat { if w in owners then owners[w] else 0 }

  lemma PermitRemoved(total: nat, owners: map<Owner, nat>, live: map<nat, Owner>, permit: nat)
    requires GateCounts(total, owners, live) && permit in live
    ensures total > 0 && GateCounts(total - 1, owners - {live[permit]}, live - {permit})
  {
    MapGrows(live, permit, "");
    forall v | HasPermit(live, v) && v != live[permit]
      ensures HasPermit(live - {permit}, v)
    {
      var p :| p in live && live[p] == v;
      assert (live - {permit})[p] == v;
    }
    hide HasPermit;
  }

  /** `HistoryReadGate`, with the permits that are out. */
  class HistoryReadGate {
    var total: nat
    var owners: map<Owner, nat>
    ghost var live: map<nat, Owner>

    ghost predicate Valid()
      reads this
    {
      GateCounts(total, owners, live)
    }

    constructor ()
      ensures Valid() && live == map[]
    {
      total, owners, live := 0, map[], map[];
    }

    /** `begin_history_read`; the new permit is number `permit`. */
    method Begin(w: Owner, ghost permit: nat) returns (ok: bool)
      requires Valid() && permit !in live
      modifies this
      ensures Valid()
      ensures ok <==> w != "" && |old(live)| < MAX_CONCURRENT_HISTORY_READS && forall p :: p in old(live) ==>
                old(live)[p] != w
      ensures live == if ok then old(live)[permit := w] else old(live)
    {
      if w == "" {
        return false;
      }
      assert w in owners ==> HasPermit(live, w);
      if total >= MAX_CONCURRENT_HISTORY_READS || CountOf(owners, w) >= 1 {
        return false;
      }
      PermitAdded(total, owners, live, permit, w);
      total := total + 1;
      owners := owners[w := CountOf(owners, w) + 1];
      live := live[permit := w];
      return true;
    }

    /** Dropping a permit. */
    method End(w: Owner, ghost permit: nat)
      requires Valid() && permit in live && live[permit] == w
      modifies this
      ensures Valid() && live == old(live) - {permit}
    {
      PermitRemoved(total, owners, live, permit);
      total := SaturatingSub(total, 1);
      if w in owners {
        owners := Recount(owners, w, SaturatingSub(owners[w], 1));
      }
      live := live - {permit};
    }
  }
}
