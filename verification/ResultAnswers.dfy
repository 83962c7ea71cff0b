/** What each operation on the result-read registry answers and changes, in terms of the grants, the pending opens and
    the windows; and, over whole runs, whose every lease is. */
module ResultAnswers {
  import opened Wrappers
  import opened ResultReads

  /** The window is open, in this epoch. */
  predicate WindowOpen(s: Registry, w: Owner, epoch: nat) {
    if w in s.owners then !s.owners[w].closed && s.owners[w].epoch == epoch else epoch == 0
  }

  /** Nothing but the entry of one token differs. */
  ghost predicate OnlyToken(s: Registry, t: Registry, token: Token) {
    && t.pending == s.pending && t.owners == s.owners
    && t.nextGeneration == s.nextGeneration && t.nextSequence == s.nextSequence
    && forall k :: k != token ==> (k in t.grants <==> k in s.grants) && (k in s.grants ==> t.grants[k] == s.grants[k])
  }

  /** Taking a lease: granted to this very window, which is open in the grant's epoch, not expired, not in flight. The
      lease describes the grant, which is then in flight. A refusal changes nothing, except that a token found expired
      by its own window is gone. */
  lemma BeginReadExactly(s: Registry, w: Owner, token: Token, now: nat)
    ensures var (t, r) := BeginRead(s, w, token, now);
            && (r.Ok? <==>
                  && token in s.grants && s.grants[token].owner == w && WindowOpen(s, w, s.grants[token].epoch)
                  && now < s.grants[token].expires && !s.grants[token].inFlight)
            && (r.Ok? ==>
                  var g := s.grants[token];
                  && r.value == Lease(token, w, g.run, g.source, g.generation, g.epoch)
                  && token in t.grants && t.grants[token] == g.(inFlight := true))
            && (r == Err(OwnerMismatch) <==> token in s.grants && s.grants[token].owner != w)
            && (r == Err(Expired) <==>
                  && token in s.grants && s.grants[token].owner == w && WindowOpen(s, w, s.grants[token].epoch)
                  && s.grants[token].expires <= now)
            && (r == Err(Expired) ==> token !in t.grants)
            && (r.Err? && r.error != Expired ==> t == s)
            && OnlyToken(s, t, token)
  {
  }

  /** Finishing a lease succeeds exactly if its grant is still there, unexpired, the same in every respect, in flight,
      and its window open. Then the grant is free again. */
  lemma FinishReadExactly(s: Registry, l: Lease, now: nat)
    ensures var (t, r) := FinishRead(s, l, now);
            && (r.Ok? <==>
                  && l.token in s.grants && now < s.grants[l.token].expires && WindowOpen(s, l.owner, l.epoch)
                  && s.grants[l.token].inFlight
                  && var g := s.grants[l.token];
                     l == Lease(l.token, g.owner, g.run, g.source, g.generation, g.epoch))
            && (r.Ok? ==> l.token in t.grants && t.grants[l.token] == s.grants[l.token].(inFlight := false))
            && (r == Err(Expired) <==> l.token in s.grants && s.grants[l.token].expires <= now)
            && (r == Err(Expired) ==> l.token !in t.grants)
            && (r != Err(Expired) && l.token in s.grants ==>
                  && l.token in t.grants
                  && t.grants[l.token].(inFlight := s.grants[l.token].inFlight) == s.grants[l.token]
                  && (t.grants[l.token] != s.grants[l.token] ==>
                        !t.grants[l.token].inFlight && l.generation == s.grants[l.token].generation))
            && OnlyToken(s, t, l.token)
  {
  }

  /** Dropping a lease clears the flag of the grant with its generation and epoch, under its token, and nothing else. */
  lemma ReleaseExactly(s: Registry, l: Lease)
    ensures var t := Release(s, l);
            && OnlyToken(s, t, l.token)
            && (l.token in t.grants <==> l.token in s.grants)
            && (l.token in s.grants ==>
                  t.grants[l.token]
                  == if s.grants[l.token].generation == l.generation && s.grants[l.token].epoch == l.epoch
                     then s.grants[l.token].(inFlight := false) else s.grants[l.token])
  {
  }

  /** Closing a result: refused exactly for another window's token; otherwise the token is gone, and the answer tells
      whether it was there. */
  lemma CloseReadExactly(s: Registry, w: Owner, token: Token)
    ensures var (t, r) := CloseRead(s, w, token);
            && (r == Err(OwnerMismatch) <==> token in s.grants && s.grants[token].owner != w)
            && (r.Err? ==> r == Err(OwnerMismatch) && t == s)
            && (r.Ok? ==> token !in t.grants && (r.value <==> token in s.grants))
            && OnlyToken(s, t, token)
  {
  }

  /** A finished lease's grant is revoked exactly if it is still the one the lease was for. */
  lemma RevokeLeaseExactly(s: Registry, l: Lease)
    ensures var t := RevokeLease(s, l);
            && OnlyToken(s, t, l.token)
            && (l.token in t.grants <==>
                  l.token in s.grants
                  && (s.grants[l.token].generation != l.generation || s.grants[l.token].source != l.source))
            && (l.token in t.grants ==> t.grants[l.token] == s.grants[l.token])
  {
  }

  /** A binding for an export is handed out under the same conditions as a lease, but whether or not a read is going on,
      and it takes nothing. */
  lemma SnapshotExactly(s: Registry, w: Owner, token: Token, now: nat)
    ensures var (t, r) := SnapshotBinding(s, w, token, now);
            && (r.Ok? <==>
                  && token in s.grants && s.grants[token].owner == w && WindowOpen(s, w, s.grants[token].epoch)
                  && now < s.grants[token].expires)
            && (r.Ok? ==>
                  var g := s.grants[token];
                  t == s && r.value == Lease(token, w, g.run, g.source, g.generation, g.epoch))
            && (r == Err(OwnerMismatch) <==> token in s.grants && s.grants[token].owner != w)
            && (r == Err(Expired) ==> token in s.grants && s.grants[token].expires <= now && token !in t.grants)
            && (r.Err? && r.error != Expired ==> t == s)
            && OnlyToken(s, t, token)
  {
  }

  /** The grants a moment leaves: those not expired. */
  ghost predicate Unexpired(s: Registry, grants: map<Token, Grant>, now: nat) {
    && (forall t :: t in grants <==> t in s.grants && now < s.grants[t].expires)
    && (forall t :: t in grants ==> grants[t] == s.grants[t])
  }

  lemma PruneIsUnexpired(s: Registry, now: nat)
    ensures Unexpired(s, Prune(s.grants, now), now)
  {
  }

  lemma OpenWindow(s: Registry, w: Owner)
    ensures forall epoch: nat :: Live(s, w, epoch) <==> WindowOpen(s, w, epoch)
    ensures StateOf(s, w).closed <==> forall epoch: nat :: !WindowOpen(s, w, epoch)
    ensures !StateOf(s, w).closed ==> WindowOpen(s, w, StateOf(s, w).epoch)
  {
    if !StateOf(s, w).closed {
      assert WindowOpen(s, w, StateOf(s, w).epoch);
    }
  }

  /** The sets the counts are taken of. */
  lemma CountedSets(live: map<Token, Grant>, pending: map<nat, PendingOpen>, w: Owner, run: int)
    ensures (set k | k in live && live[k].owner == w) == TokensOf(live, w)
    ensures (set k | k in live && live[k].owner == w && live[k].run == run) == TokensFor(live, w, run)
    ensures (set q | q in pending && pending[q].owner == w) == OpensOf(pending, w)
    ensures (set q | q in pending && pending[q].owner == w && pending[q].run != run) == OpensOfOthers(pending, w, run)
    ensures OpenPendingFor(pending, w, run)
            <==> !(forall q :: q in pending ==> pending[q].owner != w || pending[q].run != run)
  {
  }

  /** Opening a result is admitted exactly for an open window and a real run, with no open of that run pending for the
      window, and room for one more in the registry and for the window when every pending open is counted as a grant and
      the window's grants of this run are not. */
  lemma BeginOpenExactly(s: Registry, w: Owner, run: int, now: nat, live: map<Token, Grant>)
    requires Unexpired(s, live, now)
    ensures var (t, r) := BeginOpen(s, w, run, now);
            var mine := set k | k in live && live[k].owner == w;
            var replaced := set k | k in live && live[k].owner == w && live[k].run == run;
            var opens := set q | q in s.pending && s.pending[q].owner == w;
            && (r.Ok? <==>
                  && w != "" && run > 0 && (exists epoch: nat :: epoch != U64_MAX && WindowOpen(s, w, epoch))
                  && (forall q :: q in s.pending ==> s.pending[q].owner != w || s.pending[q].run != run)
                  && |live| - |replaced| + |s.pending| < 32 && |mine| - |replaced| + |opens| < 8
                  && s.nextSequence != U64_MAX)
            && (r.Ok? ==>
                  && t == s.(grants := live, nextSequence := s.nextSequence + 1,
                             pending := s.pending[s.nextSequence + 1 := PendingOpen(w, run, r.value.epoch)])
                  && r.value == Permit(w, run, r.value.epoch, s.nextSequence + 1) && WindowOpen(s, w, r.value.epoch))
            && (r.Err? ==> t == s || t == s.(grants := live))
  {
    PruneIsUnexpired(s, now);
    assert Prune(s.grants, now) == live;
    OpenWindow(s, w);
    var epoch := StateOf(s, w).epoch;
    assert forall e: nat :: WindowOpen(s, w, e) ==> e == epoch;
    CountedSets(live, s.pending, w, run);
    hide Prune, WindowOpen, StateOf, OpenPendingFor, TokensOf, TokensFor, OpensOf;
  }

  /** Issuing succeeds exactly for a pending open of an open window with room, when a fresh token is drawn. It replaces
      the window's grants of the same run, uses up the open, and the new grant has a new number and the full
      lifetime. */
  lemma IssueExactly(s: Registry, p: Permit, source: nat, now: nat, candidates: seq<Token>, live: map<Token, Grant>)
    requires Unexpired(s, live, now)
    ensures var (t, r) := Issue(s, p, source, now, candidates);
            var mine := set k | k in live && live[k].owner == p.owner;
            var replaced := set k | k in live && live[k].owner == p.owner && live[k].run == p.run;
            var others := set q | q in s.pending && s.pending[q].owner == p.owner && s.pending[q].run != p.run;
            && (r.Ok? <==>
                  && p.owner != "" && p.run > 0 && WindowOpen(s, p.owner, p.epoch)
                  && p.sequence in s.pending && s.pending[p.sequence] == PendingOpen(p.owner, p.run, p.epoch)
                  && |live| - |replaced| + |s.pending| - 1 < 32 && |mine| - |replaced| + |others| < 8
                  && s.nextGeneration != U64_MAX && exists k :: k in candidates && k !in live)
            && (r.Ok? ==>
                  var token := r.value.0;
                  && token in candidates && token !in live && r.value.1 == replaced
                  && t == s.(grants := (live - replaced)[token := t.grants[token]], pending := s.pending - {p.sequence},
                             nextGeneration := s.nextGeneration + 1)
                  && t.grants[token] == Grant(p.owner, p.run, source, s.nextGeneration + 1, p.epoch, false, now + 1800))
            && (r.Err? ==> t == s || t == s.(grants := live))
  {
    PruneIsUnexpired(s, now);
    assert Prune(s.grants, now) == live;
    OpenWindow(s, p.owner);
    FreshIsDrawn(live, candidates);
    CountedSets(live, s.pending, p.owner, p.run);
    assert p.sequence in s.pending ==> |s.pending| > 0;
    hide Prune, WindowOpen, FreshToken, Live, TokensOf, TokensFor, OpensOfOthers;
  }

  lemma {:induction false} FreshIsDrawn(grants: map<Token, Grant>, candidates: seq<Token>)
    ensures FreshToken(grants, candidates).Some? <==> exists k :: k in candidates && k !in grants
    ensures FreshToken(grants, candidates).Some? ==> FreshToken(grants, candidates).value in candidates
  {
    if candidates != [] {
      FreshIsDrawn(grants, candidates[1..]);
      assert forall k :: k in candidates <==> k == candidates[0] || k in candidates[1..];
    }
  }

  /** Dropping the permit of an open that led to nothing uses up that open and nothing else. */
  lemma DropExactly(s: Registry, sequence: nat)
    ensures var t := DropPermit(s, sequence);
            && t == s.(pending := t.pending) && t.pending.Keys == s.pending.Keys - {sequence}
            && forall q :: q in t.pending ==> t.pending[q] == s.pending[q]
  {
  }

  /** An open that was admitted and dropped leaves the opens as they were: the run can be opened again. */
  lemma AdmittedAndDropped(s: Registry, w: Owner, run: int, now: nat)
    requires BeginOpen(s, w, run, now).1.Ok? && s.nextSequence + 1 !in s.pending
    ensures var (t, r) := BeginOpen(s, w, run, now);
            var u := DropPermit(t, r.value.sequence);
            u.pending == s.pending && !OpenPendingFor(u.pending, w, run)
  {
    hide Prune, TokensOf, TokensFor, OpensOf, OpenPendingFor;
    var q := s.nextSequence + 1;
    assert s.pending[q := PendingOpen(w, run, StateOf(s, w).epoch)] - {q} == s.pending;
  }

  /** Closing a window: it is closed for good, in an epoch none of its earlier grants and opens belongs to while epochs
      last; removing its reads leaves it none and the others theirs. */
  lemma WindowCloses(s: Registry, w: Owner)
    ensures var t := MarkClosed(s, w);
            && (forall epoch: nat :: !WindowOpen(t, w, epoch))
            && (forall v, epoch: nat :: v != w ==> (WindowOpen(t, v, epoch) <==> WindowOpen(s, v, epoch)))
            && t == s.(owners := t.owners)
            && (StateOf(s, w).epoch < U64_MAX ==> StateOf(t, w).epoch == StateOf(s, w).epoch + 1)
    ensures var t := RemoveOwner(s, w);
            && t == s.(grants := t.grants, pending := t.pending)
            && (forall k :: k in t.grants <==> k in s.grants && s.grants[k].owner != w)
            && (forall k :: k in t.grants ==> t.grants[k] == s.grants[k])
            && (forall q :: q in t.pending <==> q in s.pending && s.pending[q].owner != w)
            && (forall q :: q in t.pending ==> t.pending[q] == s.pending[q])
  {
  }

  // --------------------------------------------------- whose a lease is

  /** The i-th action issued this grant under this token. */
  ghost predicate IssuedAt(actions: seq<Action>, i: nat, token: Token, g: Grant)
    requires PossibleRun(Fresh(), actions) && i < |actions|
  {
    RunSplits(Fresh(), actions, i);
    && actions[i].IssueGrant? && actions[i].p.owner == g.owner && actions[i].p.run == g.run
    && actions[i].p.epoch == g.epoch && actions[i].source == g.source && g.expires == actions[i].now + 1800
    && var r := Issue(After(Fresh(), actions[..i]).registry, actions[i].p, actions[i].source, actions[i].now,
                      actions[i].candidates).1;
       r.Ok? && r.value.0 == token
  }

  /** The j-th action took this lease: its window asked for it, with a token granted to that window and unexpired. */
  ghost predicate BegunAt(actions: seq<Action>, j: nat, id: nat, l: Lease)
    requires PossibleRun(Fresh(), actions) && j < |actions|
  {
    RunSplits(Fresh(), actions, j);
    && actions[j].Begin? && actions[j].id == id && actions[j].w == l.owner && actions[j].token == l.token
    && var grants := After(Fresh(), actions[..j]).registry.grants;
       && l.token in grants && grants[l.token].owner == l.owner && actions[j].now < grants[l.token].expires
       && l == Lease(l.token, grants[l.token].owner, grants[l.token].run, grants[l.token].source,
                     grants[l.token].generation, grants[l.token].epoch)
  }

  ghost predicate GrantHasOrigin(actions: seq<Action>, token: Token, g: Grant)
    requires PossibleRun(Fresh(), actions)
  {
    exists i: nat :: i < |actions| && IssuedAt(actions, i, token, g)
  }

  ghost predicate LeaseHasOrigin(actions: seq<Action>, id: nat, l: Lease)
    requires PossibleRun(Fresh(), actions)
  {
    exists j: nat :: j < |actions| && BegunAt(actions, j, id, l)
  }

  lemma OriginsStay(actions: seq<Action>)
    requires actions != [] && PossibleRun(Fresh(), actions)
    ensures var init := actions[..|actions| - 1];
            && PossibleRun(Fresh(), init)
            && (forall token, g :: GrantHasOrigin(init, token, g) ==> GrantHasOrigin(actions, token, g))
            && (forall id, l :: LeaseHasOrigin(init, id, l) ==> LeaseHasOrigin(actions, id, l))
  {
    hide Step, Possible, Issue, After, PossibleRun;
    RunSplits(Fresh(), actions, |actions| - 1);
    var init := actions[..|actions| - 1];
    assert forall i :: 0 <= i <= |init| ==> init[..i] == actions[..i];
    forall token, g | GrantHasOrigin(init, token, g)
      ensures GrantHasOrigin(actions, token, g)
    {
      var i: nat :| i < |init| && IssuedAt(init, i, token, g);
      assert IssuedAt(actions, i, token, g);
    }
    forall id, l | LeaseHasOrigin(init, id, l)
      ensures LeaseHasOrigin(actions, id, l)
    {
      var j: nat :| j < |init| && BegunAt(init, j, id, l);
      assert BegunAt(actions, j, id, l);
    }
  }

  /** A grant after a step was there before, but for its flag, or the step issued it. */
  lemma GrantsComeFromIssue(x: World, a: Action, token: Token)
    requires Possible(x, a) && token in Step(x, a).registry.grants
    ensures var g := Step(x, a).registry.grants[token];
            || (token in x.registry.grants
                && g.(inFlight := x.registry.grants[token].inFlight) == x.registry.grants[token])
            || (&& a.IssueGrant? && g.owner == a.p.owner && g.run == a.p.run && g.epoch == a.p.epoch
                && g.source == a.source && g.expires == a.now + 1800
                && var r := Issue(x.registry, a.p, a.source, a.now, a.candidates).1; r.Ok? && r.value.0 == token)
  {
    hide BeginOpen, Issue, Shrinks;
    match a
    case Open(w, run, now) =>
      PruneIsUnexpired(x.registry, now);
      BeginOpenExactly(x.registry, w, run, now, Prune(x.registry.grants, now));
    case IssueGrant(p, source, now, candidates) =>
      PruneIsUnexpired(x.registry, now);
      IssueExactly(x.registry, p, source, now, candidates, Prune(x.registry.grants, now));
    case _ => ShrinkingSteps(x, a);
  }

  /** A lease after a step was there before, or the step took it. */
  lemma LeasesComeFromBegin(x: World, a: Action, id: nat)
    requires Possible(x, a) && id in Step(x, a).leases
    ensures || (id in x.leases && Step(x, a).leases[id] == x.leases[id])
            || (&& a.Begin? && a.id == id
                && var l := Step(x, a).leases[id];
                   && a.w == l.owner && a.token == l.token && l.token in x.registry.grants
                   && var g := x.registry.grants[l.token];
                      && g.owner == l.owner && a.now < g.expires
                      && l == Lease(l.token, g.owner, g.run, g.source, g.generation, g.epoch))
  {
    hide BeginOpen, Issue, FinishRead, Release;
    if a.Begin? {
      BeginReadExactly(x.registry, a.w, a.token, a.now);
      hide BeginRead;
    }
  }

  /** Every grant of a reachable registry was issued to its window by a step of the run, and every lease was begun by
      its own window. */
  lemma {:induction false} EverythingHasOrigin(actions: seq<Action>)
    requires PossibleRun(Fresh(), actions)
    ensures var x := After(Fresh(), actions);
            && (forall t :: t in x.registry.grants ==>
                  GrantHasOrigin(actions, t, x.registry.grants[t].(inFlight := false)))
            && (forall id :: id in x.leases ==> LeaseHasOrigin(actions, id, x.leases[id]))
  {
    hide Step, Possible, Issue, GrantHasOrigin, LeaseHasOrigin;
    if actions != [] {
      var init := actions[..|actions| - 1];
      var a := actions[|actions| - 1];
      EverythingHasOrigin(init);
      OriginsStay(actions);
      var before := After(Fresh(), init);
      var x := After(Fresh(), actions);
      forall t | t in x.registry.grants
        ensures GrantHasOrigin(actions, t, x.registry.grants[t].(inFlight := false))
      {
        GrantsComeFromIssue(before, a, t);
        GrantOrigin(actions, t);
      }
      forall id | id in x.leases
        ensures LeaseHasOrigin(actions, id, x.leases[id])
      {
        LeasesComeFromBegin(before, a, id);
        LeaseOrigin(actions, id);
      }
    }
  }

  lemma GrantOrigin(actions: seq<Action>, t: Token)
    requires actions != [] && PossibleRun(Fresh(), actions) && t in After(Fresh(), actions).registry.grants
    requires var init := actions[..|actions| - 1];
             && PossibleRun(Fresh(), init)
             && (t in After(Fresh(), init).registry.grants ==>
                   GrantHasOrigin(actions, t, After(Fresh(), init).registry.grants[t].(inFlight := false)))
    ensures GrantHasOrigin(actions, t, After(Fresh(), actions).registry.grants[t].(inFlight := false))
  {
    var init, a := actions[..|actions| - 1], actions[|actions| - 1];
    var before := After(Fresh(), init);
    var g := After(Fresh(), actions).registry.grants[t];
    GrantsComeFromIssue(before, a, t);
    hide Step, Possible, Issue;
    if t in before.registry.grants && g.(inFlight := before.registry.grants[t].inFlight) == before.registry.grants[t] {
      assert g.(inFlight := false) == before.registry.grants[t].(inFlight := false);
    } else {
      assert IssuedAt(actions, |actions| - 1, t, g.(inFlight := false));
    }
  }

  lemma LeaseOrigin(actions: seq<Action>, id: nat)
    requires actions != [] && PossibleRun(Fresh(), actions) && id in After(Fresh(), actions).leases
    requires var init := actions[..|actions| - 1];
             && PossibleRun(Fresh(), init)
             && (id in After(Fresh(), init).leases ==>
                   LeaseHasOrigin(actions, id, After(Fresh(), init).leases[id]))
    ensures LeaseHasOrigin(actions, id, After(Fresh(), actions).leases[id])
  {
    var init, a := actions[..|actions| - 1], actions[|actions| - 1];
    var before := After(Fresh(), init);
    var l := After(Fresh(), actions).leases[id];
    LeasesComeFromBegin(before, a, id);
    hide Step, Possible, Issue;
    if !(id in before.leases && before.leases[id] == l) {
      assert BegunAt(actions, |actions| - 1, id, l);
    }
  }

  /** Whose a lease is: in every reachable state each lease was begun by the very window its grant had been issued to,
      before that grant expired. */
  lemma LeaseIsOfItsWindow(actions: seq<Action>, id: nat) returns (i: nat, j: nat)
    requires PossibleRun(Fresh(), actions) && id in After(Fresh(), actions).leases
    ensures i < j < |actions| && actions[i].IssueGrant? && actions[j].Begin? && actions[j].id == id
    ensures var l := After(Fresh(), actions).leases[id];
            && actions[i].p.owner == actions[j].w == l.owner && actions[i].p.run == l.run
            && actions[i].p.epoch == l.epoch && actions[i].source == l.source
            && actions[j].token == l.token && actions[j].now < actions[i].now + 1800
  {
    hide Step, Possible, Issue, After, PossibleRun;
    EverythingHasOrigin(actions);
    var l := After(Fresh(), actions).leases[id];
    j :| j < |actions| && BegunAt(actions, j, id, l);
    RunSplits(Fresh(), actions, j);
    var first := actions[..j];
    EverythingHasOrigin(first);
    var g := After(Fresh(), first).registry.grants[l.token];
    i :| i < |first| && IssuedAt(first, i, l.token, g.(inFlight := false));
    assert first[i] == actions[i];
  }
}
