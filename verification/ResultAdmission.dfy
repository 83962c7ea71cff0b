/** What being admitted to open a result promises: a place in the registry that only the admitted reopen of an
    already granted run can take away. */
module ResultAdmission {
  import opened Wrappers
  import opened ResultReads

  /** The grants other than those the open `p` would replace. */
  function Others(grants: map<Token, Grant>, p: Permit): set<Token> { grants.Keys - TokensFor(grants, p.owner, p.run) }

  function OwnOthers(grants: map<Token, Grant>, p: Permit): set<Token> {
    TokensOf(grants, p.owner) - TokensFor(grants, p.owner, p.run)
  }

  /** There is a place for the grant of `p`, all other opens counted as if issued. */
  predicate HasPlace(s: Registry, p: Permit) {
    && |Others(s.grants, p)| + |s.pending| - 1 < MAX_RESULT_READ_TOKENS
    && |OwnOthers(s.grants, p)| + |OpensOfOthers(s.pending, p.owner, p.run)| < MAX_RESULT_READ_TOKENS_PER_OWNER
  }

  lemma OthersCount(grants: map<Token, Grant>, p: Permit)
    ensures |Others(grants, p)| == |grants| - |TokensFor(grants, p.owner, p.run)|
    ensures |OwnOthers(grants, p)| == |TokensOf(grants, p.owner)| - |TokensFor(grants, p.owner, p.run)|
  {
    RemoveSize(grants.Keys, TokensFor(grants, p.owner, p.run));
    RemoveSize(TokensOf(grants, p.owner), TokensFor(grants, p.owner, p.run));
  }

  lemma FewerOthers(a: map<Token, Grant>, b: map<Token, Grant>, p: Permit)
    requires forall t :: t in b ==> t in a && b[t].owner == a[t].owner && b[t].run == a[t].run
    ensures |Others(b, p)| <= |Others(a, p)| && |OwnOthers(b, p)| <= |OwnOthers(a, p)|
  {
    SubsetSize(Others(b, p), Others(a, p));
    SubsetSize(OwnOthers(b, p), OwnOthers(a, p));
  }

  lemma FewerOpens(a: map<nat, PendingOpen>, b: map<nat, PendingOpen>, w: Owner, run: int)
    requires forall q :: q in b ==> q in a && b[q] == a[q]
    ensures |b| <= |a| && |OpensOfOthers(b, w, run)| <= |OpensOfOthers(a, w, run)|
  {
    SubsetSize(b.Keys, a.Keys);
    SubsetSize(OpensOfOthers(b, w, run), OpensOfOthers(a, w, run));
  }

  /** Losing grants or opens keeps the place. */
  lemma ShrinkKeepsPlace(s: Registry, t: Registry, p: Permit)
    requires HasPlace(s, p) && Shrinks(s, t)
    ensures HasPlace(t, p)
  {
    forall k | k in t.grants
      ensures k in s.grants && t.grants[k].owner == s.grants[k].owner && t.grants[k].run == s.grants[k].run
    {
      assert t.grants[k].(inFlight := s.grants[k].inFlight) == s.grants[k];
    }
    hide Others, OwnOthers, OpensOfOthers;
    FewerOthers(s.grants, t.grants, p);
    FewerOpens(s.pending, t.pending, p.owner, p.run);
  }

  /** A live pending open is refused for lack of room exactly if it has no place once the expired grants are gone. */
  lemma RefusedWithoutPlace(s: Registry, p: Permit, source: nat, now: nat, candidates: seq<Token>)
    requires p.owner != "" && p.run > 0 && Live(s, p.owner, p.epoch) && PendingMatches(s, p)
    ensures Issue(s, p, source, now, candidates).1 == Err(RegistryFull)
            <==> !HasPlace(s.(grants := Prune(s.grants, now)), p)
  {
    OthersCount(Prune(s.grants, now), p);
    hide Others, OwnOthers, OpensOfOthers, TokensOf, TokensFor, Prune, FreshToken, Live, PendingMatches;
  }

  lemma PlaceIsIssued(s: Registry, p: Permit, source: nat, now: nat, candidates: seq<Token>)
    requires HasPlace(s, p)
    ensures Issue(s, p, source, now, candidates).1 != Err(RegistryFull)
  {
    var pruned := s.(grants := Prune(s.grants, now));
    PruneShrinks(s, now);
    ShrinkKeepsPlace(s, pruned, p);
    hide HasPlace, OpensOfOthers, TokensOf, TokensFor, Prune, FreshToken, Live, PendingMatches;
    if p.owner != "" && p.run > 0 && Live(s, p.owner, p.epoch) && PendingMatches(s, p) {
      RefusedWithoutPlace(s, p, source, now, candidates);
    }
  }

  lemma OpensApart(pending: map<nat, PendingOpen>, w: Owner, run: int)
    requires !OpenPendingFor(pending, w, run)
    ensures OpensOfOthers(pending, w, run) == OpensOf(pending, w)
  {
    forall q | q in OpensOf(pending, w)
      ensures q in OpensOfOthers(pending, w, run)
    {
    }
  }

  /** What an admitted open has passed, and what it changes. */
  lemma AdmittedOpen(s: Registry, w: Owner, run: int, now: nat)
    requires BeginOpen(s, w, run, now).1.Ok?
    ensures var (t, r) := BeginOpen(s, w, run, now);
            var grants := Prune(s.grants, now);
            var p := r.value;
            && p == Permit(w, run, StateOf(s, w).epoch, s.nextSequence + 1)
            && t.grants == grants && t.pending == s.pending[p.sequence := PendingOpen(w, run, p.epoch)]
            && t.nextSequence == p.sequence && !OpenPendingFor(s.pending, w, run)
            && |grants| - |TokensFor(grants, w, run)| + |s.pending| < MAX_RESULT_READ_TOKENS
            && |TokensOf(grants, w)| - |TokensFor(grants, w, run)| + |OpensOf(s.pending, w)|
               < MAX_RESULT_READ_TOKENS_PER_OWNER
  {
    hide OpensOf, TokensOf, TokensFor, Prune, OpenPendingFor, StateOf;
  }

  lemma NotYetNumbered(s: Registry)
    requires Sound(s)
    ensures s.nextSequence + 1 !in s.pending
  {
  }

  lemma OwnOpenIsNotOther(pending: map<nat, PendingOpen>, q: nat, open: PendingOpen)
    requires q !in pending
    ensures |pending[q := open]| == |pending| + 1
    ensures OpensOfOthers(pending[q := open], open.owner, open.run) == OpensOfOthers(pending, open.owner, open.run)
  {
    assert pending[q := open].Keys == pending.Keys + {q};
  }

  /** Admission reserves a place. */
  lemma AdmissionGivesPlace(s: Registry, w: Owner, run: int, now: nat)
    requires Sound(s) && BeginOpen(s, w, run, now).1.Ok?
    ensures var (t, r) := BeginOpen(s, w, run, now); HasPlace(t, r.value) && PendingMatches(t, r.value)
  {
    hide Others, OwnOthers, OpensOfOthers, OpensOf, TokensOf, TokensFor, Prune, Sound, OpenPendingFor, BeginOpen,
         StateOf;
    var (t, r) := BeginOpen(s, w, run, now);
    AdmittedOpen(s, w, run, now);
    OthersCount(t.grants, r.value);
    OpensApart(s.pending, w, run);
    NotYetNumbered(s);
    OwnOpenIsNotOther(s.pending, r.value.sequence, t.pending[r.value.sequence]);
  }

  /** The open of a run this window already holds a grant for. */
  predicate Reopens(x: World, a: Action) {
    a.Open? && TokensFor(Prune(x.registry.grants, a.now), a.w, a.run) != {}
    && BeginOpen(x.registry, a.w, a.run, a.now).1.Ok?
  }

  /** The pending opens after one more. */
  lemma OneMoreOpen(pending: map<nat, PendingOpen>, q: nat, open: PendingOpen, p: Permit)
    requires q !in pending && p.sequence in pending && pending[p.sequence] == PendingOpen(p.owner, p.run, p.epoch)
    ensures |pending[q := open]| == |pending| + 1
    ensures open.owner != p.owner ==>
              OpensOfOthers(pending[q := open], p.owner, p.run) == OpensOfOthers(pending, p.owner, p.run)
    ensures |OpensOfOthers(pending[q := open], p.owner, p.run)| <= |OpensOfOthers(pending, p.owner, p.run)| + 1
    ensures |OpensOfOthers(pending, p.owner, p.run)| + 1 <= |OpensOf(pending, p.owner)|
  {
    assert pending[q := open].Keys == pending.Keys + {q};
    SubsetSize(OpensOfOthers(pending[q := open], p.owner, p.run), OpensOfOthers(pending, p.owner, p.run) + {q});
    SubsetSize(OpensOfOthers(pending, p.owner, p.run) + {p.sequence}, OpensOf(pending, p.owner));
    assert p.sequence !in OpensOfOthers(pending, p.owner, p.run);
  }

  /** Another open that replaces nothing leaves the place of `p` alone. */
  lemma FirstOpenKeepsPlace(x: World, a: Action, p: Permit)
    requires a.Open? && Sound(x.registry) && HasPlace(x.registry, p) && PendingMatches(x.registry, p) && !Reopens(x, a)
    ensures HasPlace(Step(x, a).registry, p)
  {
    hide Others, OwnOthers, OpensOfOthers, OpensOf, TokensOf, TokensFor, Prune, Sound, OpenPendingFor, BeginOpen,
         StateOf, Shrinks, HasPlace;
    var s := x.registry;
    var pruned := s.(grants := Prune(s.grants, a.now));
    PruneShrinks(s, a.now);
    ShrinkKeepsPlace(s, pruned, p);
    var (t, r) := BeginOpen(s, a.w, a.run, a.now);
    if r.Ok? {
      AdmittedOpen(s, a.w, a.run, a.now);
      NotYetNumbered(s);
      AddedOpenKeepsPlace(pruned, t, r.value.sequence, t.pending[r.value.sequence], p);
    } else {
      RefusedOpen(s, a.w, a.run, a.now);
    }
  }

  lemma RefusedOpen(s: Registry, w: Owner, run: int, now: nat)
    requires BeginOpen(s, w, run, now).1.Err?
    ensures BeginOpen(s, w, run, now).0 == s || BeginOpen(s, w, run, now).0 == s.(grants := Prune(s.grants, now))
  {
    hide OpensOf, TokensOf, TokensFor, Prune, OpenPendingFor, StateOf;
  }

  lemma AddedOpenKeepsPlace(s: Registry, t: Registry, q: nat, open: PendingOpen, p: Permit)
    requires HasPlace(s, p) && PendingMatches(s, p) && q !in s.pending
    requires t.grants == s.grants && t.pending == s.pending[q := open]
    requires |s.grants| + |s.pending| < MAX_RESULT_READ_TOKENS
    requires |TokensOf(s.grants, open.owner)| + |OpensOf(s.pending, open.owner)| < MAX_RESULT_READ_TOKENS_PER_OWNER
    ensures HasPlace(t, p)
  {
    hide Others, OwnOthers, OpensOfOthers, OpensOf, TokensOf, TokensFor;
    OthersCount(s.grants, p);
    OneMoreOpen(s.pending, q, open, p);
  }

  /** The grant of another run of an open: one more grant, one open less. */
  lemma IssuedPlace(s: Registry, t: Registry, replaced: set<Token>, token: Token, g: Grant, sequence: nat, p: Permit)
    requires t.grants == (s.grants - replaced)[token := g] && t.pending == s.pending - {sequence}
    requires sequence in s.pending && s.pending[sequence].owner == g.owner && s.pending[sequence].run == g.run
    requires g.owner != p.owner || g.run != p.run
    requires HasPlace(s, p)
    ensures HasPlace(t, p)
  {
    hide Others, OwnOthers, OpensOfOthers;
    OneMoreGrant(s.grants, replaced, token, g, p);
    OneOpenLess(s.pending, sequence, p);
  }

  lemma OneMoreGrant(grants: map<Token, Grant>, replaced: set<Token>, token: Token, g: Grant, p: Permit)
    ensures var after := (grants - replaced)[token := g];
            && |Others(after, p)| <= |Others(grants, p)| + 1
            && |OwnOthers(after, p)| <= |OwnOthers(grants, p)| + if g.owner == p.owner then 1 else 0
  {
    var after := (grants - replaced)[token := g];
    SubsetSize(Others(after, p), Others(grants, p) + {token});
    SubsetSize(OwnOthers(after, p), OwnOthers(grants, p) + if g.owner == p.owner then {token} else {});
  }

  lemma OneOpenLess(pending: map<nat, PendingOpen>, sequence: nat, p: Permit)
    requires sequence in pending && (pending[sequence].owner != p.owner || pending[sequence].run != p.run)
    ensures var after := pending - {sequence};
            && |after| == |pending| - 1
            && |OpensOfOthers(after, p.owner, p.run)|
               == |OpensOfOthers(pending, p.owner, p.run)| - if pending[sequence].owner == p.owner then 1 else 0
  {
    var after := pending - {sequence};
    RemoveSize(pending.Keys, {sequence});
    assert after.Keys == pending.Keys - {sequence};
    var others := OpensOfOthers(pending, p.owner, p.run);
    if pending[sequence].owner == p.owner {
      RemoveSize(others, {sequence});
      assert OpensOfOthers(after, p.owner, p.run) == others - {sequence};
    } else {
      assert OpensOfOthers(after, p.owner, p.run) == others;
    }
  }

  lemma PendingApart(s: Registry, p: Permit, other: Permit)
    requires Numbered(s) && PendingMatches(s, p) && PendingMatches(s, other) && p.sequence != other.sequence
    ensures p.owner != other.owner || p.run != other.run
  {
  }

  lemma IssuedOpen(s: Registry, other: Permit, source: nat, now: nat, candidates: seq<Token>)
    ensures var (t, r) := Issue(s, other, source, now, candidates);
            && (r.Err? ==> t == s || t == s.(grants := Prune(s.grants, now)))
            && (r.Ok? ==>
                  var token, replaced := r.value.0, r.value.1;
                  && PendingMatches(s, other) && token in t.grants
                  && t.grants == (Prune(s.grants, now) - replaced)[token := t.grants[token]]
                  && t.grants[token].owner == other.owner && t.grants[token].run == other.run
                  && t.pending == s.pending - {other.sequence})
  {
    hide OpensOfOthers, TokensOf, TokensFor, Prune, FreshToken, PendingMatches, Live;
  }

  lemma IssueKeepsPlace(s: Registry, other: Permit, source: nat, now: nat, candidates: seq<Token>, p: Permit)
    requires Sound(s) && HasPlace(s, p) && PendingMatches(s, p)
    requires PendingMatches(Issue(s, other, source, now, candidates).0, p)
    ensures HasPlace(Issue(s, other, source, now, candidates).0, p)
  {
    hide HasPlace, OpensOfOthers, TokensOf, TokensFor, Prune, WithinCapacity, Numbered, Issue, Shrinks;
    var pruned := s.(grants := Prune(s.grants, now));
    PruneShrinks(s, now);
    ShrinkKeepsPlace(s, pruned, p);
    IssuedOpen(s, other, source, now, candidates);
    var (t, r) := Issue(s, other, source, now, candidates);
    if r.Ok? {
      PendingApart(s, p, other);
      IssuedPlace(pruned, t, r.value.1, r.value.0, t.grants[r.value.0], other.sequence, p);
    }
  }

  /** A pending open that is there after a step was there before it, unless the step is its own admission. */
  lemma PendingWas(x: World, a: Action, p: Permit)
    requires Possible(x, a) && p.sequence <= x.registry.nextSequence && PendingMatches(Step(x, a).registry, p)
    ensures PendingMatches(x.registry, p)
    ensures p.sequence <= Step(x, a).registry.nextSequence
  {
    hide TokensOf, TokensFor, OpensOf, OpensOfOthers, FreshToken, Prune, StateOf, Live, OpenPendingFor;
  }

  lemma SequenceGrows(x: World, a: Action)
    requires Possible(x, a)
    ensures x.registry.nextSequence <= Step(x, a).registry.nextSequence
  {
    hide TokensOf, TokensFor, OpensOf, OpensOfOthers, FreshToken, Prune, StateOf, Live, OpenPendingFor, PendingMatches;
  }

  lemma StepKeepsPlace(x: World, a: Action, p: Permit)
    requires Possible(x, a) && Sound(x.registry) && !Reopens(x, a)
    requires HasPlace(x.registry, p) && PendingMatches(x.registry, p) && PendingMatches(Step(x, a).registry, p)
    ensures HasPlace(Step(x, a).registry, p)
  {
    hide Sound, HasPlace, Shrinks, Reopens, PendingMatches, BeginOpen, Issue;
    match a
    case Open(w, run, now) => FirstOpenKeepsPlace(x, a, p);
    case IssueGrant(other, source, now, candidates) => IssueKeepsPlace(x.registry, other, source, now, candidates, p);
    case _ =>
      ShrinkingSteps(x, a);
      ShrinkKeepsPlace(x.registry, Step(x, a).registry, p);
  }

  /** No reopen of a granted run is admitted along the run. */
  predicate NoReopens(x: World, actions: seq<Action>)
    requires PossibleRun(x, actions)
  {
    actions == [] ||
    (&& NoReopens(x, actions[..|actions| - 1])
     && !Reopens(After(x, actions[..|actions| - 1]), actions[|actions| - 1]))
  }

  lemma {:induction false} PlaceStays(x: World, actions: seq<Action>, p: Permit)
    requires PossibleRun(x, actions) && NoReopens(x, actions) && Sound(x.registry)
    requires HasPlace(x.registry, p) && p.sequence <= x.registry.nextSequence
    requires PendingMatches(After(x, actions).registry, p)
    ensures HasPlace(After(x, actions).registry, p)
    ensures Sound(After(x, actions).registry) && p.sequence <= After(x, actions).registry.nextSequence
  {
    hide Step, Sound, HasPlace, Reopens, PendingMatches;
    if actions != [] {
      var init, a := actions[..|actions| - 1], actions[|actions| - 1];
      RunIsSound(x, init);
      RunSequence(x, init);
      PendingWas(After(x, init), a, p);
      PlaceStays(x, init, p);
      StepKeepsPlace(After(x, init), a, p);
      StepSound(After(x, init), a);
    }
  }

  lemma {:induction false} RunIsSound(x: World, actions: seq<Action>)
    requires PossibleRun(x, actions) && Sound(x.registry)
    ensures Sound(After(x, actions).registry)
  {
    hide Step, Sound;
    if actions != [] {
      RunIsSound(x, actions[..|actions| - 1]);
      StepSound(After(x, actions[..|actions| - 1]), actions[|actions| - 1]);
    }
  }

  lemma {:induction false} RunSequence(x: World, actions: seq<Action>)
    requires PossibleRun(x, actions)
    ensures x.registry.nextSequence <= After(x, actions).registry.nextSequence
  {
    hide Step;
    if actions != [] {
      RunSequence(x, actions[..|actions| - 1]);
      SequenceGrows(After(x, actions[..|actions| - 1]), actions[|actions| - 1]);
    }
  }

  /** The promise of admission: whatever happens afterwards, as long as no reopen of a granted run is admitted, the
      open is never refused for lack of room; while it is pending its place is kept. */
  lemma AdmittedIsIssued(x: World, w: Owner, run: int, at: nat, actions: seq<Action>,
                         source: nat, now: nat, candidates: seq<Token>)
    requires Sound(x.registry) && BeginOpen(x.registry, w, run, at).1.Ok?
    requires var y := Step(x, Open(w, run, at)); PossibleRun(y, actions) && NoReopens(y, actions)
    ensures var p := BeginOpen(x.registry, w, run, at).1.value;
            var s := After(Step(x, Open(w, run, at)), actions).registry;
            Issue(s, p, source, now, candidates).1 != Err(RegistryFull)
  {
    var y := Step(x, Open(w, run, at));
    var p := BeginOpen(x.registry, w, run, at).1.value;
    AdmissionGivesPlace(x.registry, w, run, at);
    StepSound(x, Open(w, run, at));
    var s := After(y, actions).registry;
    assert p.sequence <= y.registry.nextSequence;
    hide Step, Sound, HasPlace, BeginOpen, PendingMatches, After, PossibleRun, NoReopens;
    if PendingMatches(s, p) {
      PlaceStays(y, actions, p);
      PlaceIsIssued(s, p, source, now, candidates);
    } else {
      StrayIsInvalid(s, p, source, now, candidates);
    }
  }

  lemma StrayIsInvalid(s: Registry, p: Permit, source: nat, now: nat, candidates: seq<Token>)
    requires !PendingMatches(s, p)
    ensures Issue(s, p, source, now, candidates).1 != Err(RegistryFull)
  {
    hide TokensOf, TokensFor, OpensOfOthers, FreshToken, Prune, Live, PendingMatches;
  }

  // ------------------------------------------------- the reopen that breaks it

  lemma PruneNothing(grants: map<Token, Grant>, now: nat)
    requires forall t :: t in grants ==> now < grants[t].expires
    ensures Prune(grants, now) == grants
  {
  }

  /** With 31 live grants a new open is admitted, then a reopen of a granted run is admitted as well, and after that
      the first one cannot be issued. */
  lemma ReopenTakesThePlace(s: Registry, w: Owner, run: int, v: Owner, again: int, source: nat, now: nat,
                            candidates: seq<Token>)
    requires Sound(s) && s.pending == map[] && |s.grants| == 31 && s.nextSequence + 2 <= U64_MAX
    requires forall t :: t in s.grants ==> now < s.grants[t].expires
    requires v != w && Live(s, w, 0) && Live(s, v, 0) && w != "" && v != "" && run > 0 && again > 0
    requires TokensOf(s.grants, w) == {} && TokensFor(s.grants, v, again) != {}
    ensures var first := BeginOpen(s, w, run, now);
            && first.1.Ok?
            && var second := BeginOpen(first.0, v, again, now);
               && second.1.Ok?
               && Issue(second.0, first.1.value, source, now, candidates).1 == Err(RegistryFull)
  {
    PruneNothing(s.grants, now);
    OneForEachRun(s, v, again);
    OneForEachRun(s, w, run);
    NoOpens(w);
    NoOpens(v);
    var q := s.nextSequence + 1;
    var pending: map<nat, PendingOpen> := map[q := PendingOpen(w, run, 0)];
    OneOpen(q, w, run, v);
    hide TokensOf, TokensFor, OpensOf, OpensOfOthers, FreshToken, Prune, Sound, OpenPendingFor, BeginOpen, Issue;
    OpenAdmitted(s, w, run, 0, now);
    var first := BeginOpen(s, w, run, now);
    assert first.0.pending == pending;
    OpenAdmitted(first.0, v, again, 0, now);
    var second := BeginOpen(first.0, v, again, now);
    assert |second.0.pending| == 2;
    IssueRefused(second.0, first.1.value, source, now, candidates);
  }

  lemma OpenAdmitted(s: Registry, w: Owner, run: int, epoch: nat, now: nat)
    requires w != "" && run > 0 && Live(s, w, epoch) && epoch < U64_MAX && s.nextSequence < U64_MAX
    requires Prune(s.grants, now) == s.grants && !OpenPendingFor(s.pending, w, run)
    requires |s.grants| - |TokensFor(s.grants, w, run)| + |s.pending| < MAX_RESULT_READ_TOKENS
    requires |TokensOf(s.grants, w)| - |TokensFor(s.grants, w, run)| + |OpensOf(s.pending, w)|
             < MAX_RESULT_READ_TOKENS_PER_OWNER
    ensures var q := s.nextSequence + 1;
            BeginOpen(s, w, run, now) ==
              (s.(nextSequence := q, pending := s.pending[q := PendingOpen(w, run, epoch)]),
               Ok(Permit(w, run, epoch, q)))
  {
    hide TokensOf, TokensFor, OpensOf, OpenPendingFor, Prune;
  }

  lemma IssueRefused(s: Registry, p: Permit, source: nat, now: nat, candidates: seq<Token>)
    requires p.owner != "" && p.run > 0 && Live(s, p.owner, p.epoch) && PendingMatches(s, p)
    requires Prune(s.grants, now) == s.grants
    requires |s.grants| - |TokensFor(s.grants, p.owner, p.run)| + |s.pending| - 1 >= MAX_RESULT_READ_TOKENS
    ensures Issue(s, p, source, now, candidates).1 == Err(RegistryFull)
  {
    hide TokensOf, TokensFor, OpensOf, OpensOfOthers, Prune, FreshToken;
  }

  lemma NoOpens(w: Owner)
    ensures OpensOf(map[], w) == {} && forall run :: !OpenPendingFor(map[], w, run)
  {
  }

  lemma OneOpen(q: nat, w: Owner, run: int, v: Owner)
    requires v != w
    ensures var pending: map<nat, PendingOpen> := map[q := PendingOpen(w, run, 0)];
            |pending| == 1 && OpensOf(pending, v) == {} && forall again :: !OpenPendingFor(pending, v, again)
  {
    var pending: map<nat, PendingOpen> := map[q := PendingOpen(w, run, 0)];
    assert pending.Keys == {q};
  }

  lemma OneForEachRun(s: Registry, w: Owner, run: int)
    requires Sound(s)
    ensures |TokensFor(s.grants, w, run)| <= 1 && TokensFor(s.grants, w, run) <= TokensOf(s.grants, w)
    ensures |TokensOf(s.grants, w)| <= MAX_RESULT_READ_TOKENS_PER_OWNER
  {
    var tokens := TokensFor(s.grants, w, run);
    if tokens != {} {
      var t :| t in tokens;
      assert tokens == {t};
    }
  }

  // Four windows open eight, eight, eight and seven runs: a reachable state with 31 live grants.

  function WindowName(j: nat): Owner { seq(j + 1, _ => 'w') }

  function TokenName(k: nat): Token { seq(k + 1, _ => 't') }

  function FillPermit(k: nat): Permit { Permit(WindowName(k / 8), k % 8 + 1, 0, k + 1) }

  function FillActions(n: nat): seq<Action> {
    if n == 0 then []
    else
      var p := FillPermit(n - 1);
      FillActions(n - 1) + [Open(p.owner, p.run, 0), IssueGrant(p, 0, 0, [TokenName(n - 1)])]
  }

  function FillGrant(k: nat): Grant {
    var p := FillPermit(k);
    Grant(p.owner, p.run, 0, k + 1, 0, false, RESULT_READ_TOKEN_TTL)
  }

  /** The registry after the first n of them. */
  ghost predicate Filled(s: Registry, n: nat) {
    && s.pending == map[] && s.owners == map[] && s.nextSequence == n == s.nextGeneration && |s.grants| == n
    && (forall k: nat :: k < n ==> TokenName(k) in s.grants && s.grants[TokenName(k)] == FillGrant(k))
    && (forall t :: t in s.grants ==> 0 < |t| <= n && t == TokenName(|t| - 1))
    && |TokensOf(s.grants, WindowName(n / 8))| == n % 8
  }

  lemma NewPair(s: Registry, n: nat)
    requires Filled(s, n)
    ensures TokenName(n) !in s.grants
    ensures TokensFor(s.grants, WindowName(n / 8), n % 8 + 1) == {}
    ensures TokensOf(s.grants, WindowName(n / 8 + 1)) == {}
    ensures forall w :: |w| > 4 && n <= 31 ==> TokensOf(s.grants, w) == {}
  {
    assert |TokenName(n)| == n + 1;
    forall t | t in s.grants
      ensures s.grants[t].owner == WindowName((|t| - 1) / 8) && s.grants[t].run == (|t| - 1) % 8 + 1
    {
      assert s.grants[TokenName(|t| - 1)] == FillGrant(|t| - 1);
    }
    assert |WindowName(n / 8)| == n / 8 + 1 && |WindowName(n / 8 + 1)| == n / 8 + 2;
    forall t | t in s.grants
      ensures |s.grants[t].owner| == (|t| - 1) / 8 + 1 <= n / 8 + 1
      ensures s.grants[t].owner != WindowName(n / 8) || s.grants[t].run != n % 8 + 1
    {
      assert |WindowName((|t| - 1) / 8)| == (|t| - 1) / 8 + 1;
    }
  }

  lemma FillOpens(s: Registry, n: nat)
    requires Filled(s, n) && n < 31
    ensures var p := FillPermit(n);
            BeginOpen(s, p.owner, p.run, 0)
            == (s.(nextSequence := n + 1, pending := map[n + 1 := PendingOpen(p.owner, p.run, 0)]), Ok(p))
  {
    var p := FillPermit(n);
    FilledIsLive(s, n);
    PruneNothing(s.grants, 0);
    NewPair(s, n);
    NoOpens(p.owner);
    assert p.owner != [] by {
      assert |WindowName(n / 8)| > 0;
    }
    hide TokensFor, TokensOf, OpensOf, OpenPendingFor, Prune, BeginOpen, WindowName;
    OpenAdmitted(s, p.owner, p.run, 0, 0);
  }

  lemma FilledIsLive(s: Registry, n: nat)
    requires Filled(s, n)
    ensures forall t :: t in s.grants ==> s.grants[t].expires == RESULT_READ_TOKEN_TTL
  {
    forall t | t in s.grants
      ensures s.grants[t].expires == RESULT_READ_TOKEN_TTL
    {
      assert s.grants[TokenName(|t| - 1)] == FillGrant(|t| - 1);
    }
  }

  /** The registry with one more grant and no open pending. */
  function OneMore(s: Registry, n: nat): Registry {
    s.(grants := s.grants[TokenName(n) := FillGrant(n)], nextSequence := n + 1, nextGeneration := n + 1)
  }

  lemma IssueGranted(s: Registry, p: Permit, source: nat, now: nat, token: Token)
    requires p.owner != "" && p.run > 0 && Live(s, p.owner, p.epoch) && PendingMatches(s, p)
    requires Prune(s.grants, now) == s.grants
    requires TokensFor(s.grants, p.owner, p.run) == {} && OpensOfOthers(s.pending, p.owner, p.run) == {}
    requires |s.grants| + |s.pending| - 1 < MAX_RESULT_READ_TOKENS && s.nextGeneration < U64_MAX && token !in s.grants
    requires |TokensOf(s.grants, p.owner)| < MAX_RESULT_READ_TOKENS_PER_OWNER
    ensures var g := Grant(p.owner, p.run, source, s.nextGeneration + 1, p.epoch, false, now + RESULT_READ_TOKEN_TTL);
            Issue(s, p, source, now, [token]).0
            == s.(grants := s.grants[token := g], pending := s.pending - {p.sequence},
                  nextGeneration := s.nextGeneration + 1)
  {
    assert FreshToken(s.grants, [token]) == Some(token);
    assert s.grants - {} == s.grants;
    hide TokensFor, TokensOf, OpensOfOthers, Prune, FreshToken, Live, PendingMatches;
  }

  lemma OnlyOpen(q: nat, w: Owner, run: int)
    ensures var pending: map<nat, PendingOpen> := map[q := PendingOpen(w, run, 0)];
            |pending| == 1 && OpensOfOthers(pending, w, run) == {} && pending - {q} == map[]
  {
    var pending: map<nat, PendingOpen> := map[q := PendingOpen(w, run, 0)];
    assert pending.Keys == {q};
  }

  lemma FillPlace(s: Registry, n: nat)
    requires Filled(s, n) && n < 31
    ensures var p := FillPermit(n);
            && p.owner != "" && p.run > 0 && Prune(s.grants, 0) == s.grants && TokenName(n) !in s.grants
            && TokensFor(s.grants, p.owner, p.run) == {} && |TokensOf(s.grants, p.owner)| < 8
  {
    var p := FillPermit(n);
    FilledIsLive(s, n);
    PruneNothing(s.grants, 0);
    NewPair(s, n);
    FilledNumbers(s, n);
    assert |p.owner| > 0;
    hide Filled, TokensFor, TokensOf, Prune, WindowName, TokenName;
  }

  lemma FillIssues(s: Registry, n: nat)
    requires Filled(s, n) && n < 31
    ensures var p := FillPermit(n);
            var admitted := s.(nextSequence := n + 1, pending := map[n + 1 := PendingOpen(p.owner, p.run, 0)]);
            Issue(admitted, p, 0, 0, [TokenName(n)]).0 == OneMore(s, n)
  {
    var p := FillPermit(n);
    var admitted := s.(nextSequence := n + 1, pending := map[n + 1 := PendingOpen(p.owner, p.run, 0)]);
    hide Issue, Filled, TokensFor, TokensOf, OpensOfOthers, Prune, WindowName, TokenName;
    FillPlace(s, n);
    FilledNumbers(s, n);
    assert p.sequence == n + 1 && p.epoch == 0;
    OnlyOpen(n + 1, p.owner, p.run);
    assert Live(admitted, p.owner, 0) && PendingMatches(admitted, p);
    hide Live, PendingMatches, FillPermit;
    IssueGranted(admitted, p, 0, 0, TokenName(n));
  }

  lemma FilledNumbers(s: Registry, n: nat)
    requires Filled(s, n)
    ensures s.pending == map[] && s.owners == map[] && s.nextSequence == n == s.nextGeneration && |s.grants| == n
    ensures |TokensOf(s.grants, WindowName(n / 8))| == n % 8
  {
    hide TokensOf, WindowName, TokenName;
  }

  lemma OneMoreNamed(s: Registry, n: nat)
    requires Filled(s, n)
    ensures var t := OneMore(s, n);
            && (forall k: nat :: k < n + 1 ==> TokenName(k) in t.grants && t.grants[TokenName(k)] == FillGrant(k))
            && (forall k :: k in t.grants ==> 0 < |k| <= n + 1 && k == TokenName(|k| - 1))
  {
    hide TokensOf, WindowName;
    var t := OneMore(s, n);
    assert |TokenName(n)| == n + 1;
    forall k: nat | k < n + 1
      ensures TokenName(k) in t.grants && t.grants[TokenName(k)] == FillGrant(k)
    {
      assert |TokenName(k)| == k + 1;
    }
    hide FillGrant;
  }

  lemma NextOfEight(n: nat)
    ensures || ((n + 1) / 8 == n / 8 && (n + 1) % 8 == n % 8 + 1)
            || ((n + 1) / 8 == n / 8 + 1 && (n + 1) % 8 == 0)
  {
  }

  lemma WindowsDiffer(j: nat)
    ensures WindowName(j + 1) != WindowName(j)
  {
    assert |WindowName(j)| == j + 1 && |WindowName(j + 1)| == j + 2;
  }

  lemma OneMoreCounted(s: Registry, n: nat)
    requires Filled(s, n) && n < 31
    ensures var t := OneMore(s, n);
            |t.grants| == n + 1 && |TokensOf(t.grants, WindowName((n + 1) / 8))| == (n + 1) % 8
  {
    hide Filled, WindowName, TokenName, TokensOf, TokensFor;
    var j := n / 8;
    NewPair(s, n);
    FilledNumbers(s, n);
    WindowsDiffer(j);
    NextOfEight(n);
    assert s.grants - {} == s.grants;
    IssueCounts(s.grants, WindowName(j), n % 8 + 1, TokenName(n), FillGrant(n));
  }

  lemma OneMoreFilled(s: Registry, n: nat)
    requires Filled(s, n) && n < 31
    ensures Filled(OneMore(s, n), n + 1)
  {
    OneMoreNamed(s, n);
    OneMoreCounted(s, n);
    FilledNumbers(s, n);
    hide WindowName, TokenName, TokensOf, FillGrant;
  }

  lemma FillStarts()
    ensures Filled(EmptyRegistry(), 0)
  {
    assert TokensOf(map[], WindowName(0)) == {};
  }

  lemma FillStep(x: World, n: nat)
    requires Filled(x.registry, n) && n < 31
    ensures var p := FillPermit(n);
            var y := Step(Step(x, Open(p.owner, p.run, 0)), IssueGrant(p, 0, 0, [TokenName(n)]));
            Filled(y.registry, n + 1) && y.leases == x.leases
  {
    FillOpens(x.registry, n);
    FillIssues(x.registry, n);
    OneMoreFilled(x.registry, n);
    hide Filled, BeginOpen, Issue, FillPermit, TokenName;
  }

  lemma {:induction false} FillRun(n: nat)
    requires n <= 31
    ensures PossibleRun(Fresh(), FillActions(n)) && Filled(After(Fresh(), FillActions(n)).registry, n)
  {
    hide Filled, Step, FillPermit, TokenName;
    if n == 0 {
      FillStarts();
    } else {
      FillRun(n - 1);
      var init := FillActions(n - 1);
      var p := FillPermit(n - 1);
      FillStep(After(Fresh(), init), n - 1);
      TwoActions(Fresh(), init, Open(p.owner, p.run, 0), IssueGrant(p, 0, 0, [TokenName(n - 1)]));
    }
  }

  lemma TwoActions(x: World, init: seq<Action>, a: Action, b: Action)
    requires PossibleRun(x, init) && Possible(After(x, init), a) && Possible(Step(After(x, init), a), b)
    ensures PossibleRun(x, init + [a, b]) && After(x, init + [a, b]) == Step(Step(After(x, init), a), b)
  {
    hide Step, Possible;
    var all := init + [a, b];
    assert all[..|all| - 1] == init + [a] && (init + [a])[..|init|] == init;
    assert PossibleRun(x, init + [a]) && After(x, init + [a]) == Step(After(x, init), a);
  }

  lemma FilledRefuses(s: Registry, source: nat, candidates: seq<Token>)
    requires Filled(s, 31) && Sound(s)
    ensures var first := BeginOpen(s, "other", 1, 0);
            && first.1.Ok?
            && var second := BeginOpen(first.0, WindowName(0), 1, 0);
               && second.1.Ok?
               && Issue(second.0, first.1.value, source, 0, candidates).1 == Err(RegistryFull)
  {
    FilledIsLive(s, 31);
    FilledNumbers(s, 31);
    NewPair(s, 31);
    FirstIsGranted(s);
    assert |"other"| == 5 && |WindowName(0)| == 1;
    hide Filled, TokensOf, TokensFor, BeginOpen, Issue, Sound, WindowName, TokenName;
    ReopenTakesThePlace(s, "other", 1, WindowName(0), 1, source, 0, candidates);
  }

  lemma FirstIsGranted(s: Registry)
    requires Filled(s, 31)
    ensures TokensFor(s.grants, WindowName(0), 1) != {}
  {
    hide WindowName, TokenName, TokensOf;
    assert s.grants[TokenName(0)] == FillGrant(0);
    assert TokenName(0) in TokensFor(s.grants, WindowName(0), 1);
  }

  /** Being admitted to open a result does not promise a token. After a run of the service that left 31 grants, one
      more window is admitted to open a result; another window is admitted to reopen a run it has a grant for; and the
      first can no longer be issued. */
  lemma AdmissionIsNoPromise(source: nat, candidates: seq<Token>)
    ensures PossibleRun(Fresh(), FillActions(31))
    ensures var s := After(Fresh(), FillActions(31)).registry;
            var first := BeginOpen(s, "other", 1, 0);
            && first.1.Ok?
            && var second := BeginOpen(first.0, WindowName(0), 1, 0);
               && second.1.Ok?
               && Issue(second.0, first.1.value, source, 0, candidates).1 == Err(RegistryFull)
  {
    hide FillActions, BeginOpen, Issue, Sound, WindowName, After, PossibleRun, SingleFlight, Filled, Fresh;
    FillRun(31);
    RegistryStaysSound(FillActions(31));
    FilledRefuses(After(Fresh(), FillActions(31)).registry, source, candidates);
  }
}
