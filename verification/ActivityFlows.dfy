/** What the activities achieve: when a scan, a mutation or an export starts, when a target is granted or linked, and
    what cancelling and revoking stop. */
module ActivityFlows {
  import opened Wrappers
  import opened Activities
  import Reads = ResultReads
  import Publication = ExportPublication
  import Answers = ResultAnswers

  lemma RunFirst(x: System, a: Action)
    ensures Run(x, []) == Some(x) && Run(x, [a]) == Step(x, a)
  {
    hide Step;
    assert [a][..0] == [];
  }

  lemma RunThen(x: System, first: seq<Action>, a: Action)
    ensures Run(x, first + [a]) == if Run(x, first).None? then None else Step(Run(x, first).value, a)
  {
    hide Step;
    assert (first + [a])[..|first|] == first;
  }

  lemma RunThree(x: System, a: Action, b: Action, c: Action)
    ensures var one := Step(x, a);
            var two := if one.None? then None else Step(one.value, b);
            Run(x, [a, b, c]) == if two.None? then None else Step(two.value, c)
  {
    hide Step;
    RunFirst(x, a);
    RunThen(x, [a], b);
    RunThen(x, [a, b], c);
    assert [a] + [b] == [a, b] && [a, b] + [c] == [a, b, c];
  }

  lemma RunFive(x: System, a: Action, b: Action, c: Action, d: Action, e: Action)
    ensures var three := Run(x, [a, b, c]);
            var four := if three.None? then None else Step(three.value, d);
            Run(x, [a, b, c, d, e]) == if four.None? then None else Step(four.value, e)
  {
    hide Step, Run;
    RunThen(x, [a, b, c], d);
    RunThen(x, [a, b, c, d], e);
    assert [a, b, c] + [d] == [a, b, c, d] && [a, b, c, d] + [e] == [a, b, c, d, e];
  }

  // ------------------------------------------------ scans and mutations

  predicate NothingRuns(x: System) { !x.scanning && x.exports.running == map[] && x.mutation.None? }

  /** A scan starts exactly if nothing else is going on, and that is all that changes; it can end at any time. */
  lemma ScanStartsExactly(x: System)
    requires x.holder == Nobody
    ensures var started := Run(x, [LockForScan, ScanChecksExports, ScanStarts]);
            && (started.Some? <==> NothingRuns(x))
            && (started.Some? ==>
                  && started.value == x.(scanning := true)
                  && Step(started.value, ScanEnds) == Some(x))
  {
    hide Run;
    RunThree(x, LockForScan, ScanChecksExports, ScanStarts);
  }

  /** A mutation is permitted exactly if nothing else is going on; dropping the permit ends it. */
  lemma MutationStartsExactly(x: System, id: string, permit: nat)
    requires x.holder == Nobody && permit !in x.permits
    ensures var started := Run(x, [LockForMutation(id), MutationChecksExports, MutationStarts(permit)]);
            && (started.Some? <==> NothingRuns(x))
            && (started.Some? ==>
                  && started.value == x.(mutation := Some(id), permits := x.permits[permit := id])
                  && Step(started.value, MutationEnds(permit)) == Some(x))
  {
    hide Run;
    RunThree(x, LockForMutation(id), MutationChecksExports, MutationStarts(permit));
    assert x.permits[permit := id] - {permit} == x.permits;
  }

  /** Dropping a permit removes it, and lets go of the gate exactly if the gate holds its operation. */
  lemma MutationEndsExactly(x: System, permit: nat)
    ensures Step(x, MutationEnds(permit)).Some? <==> permit in x.permits
    ensures permit in x.permits ==>
              Step(x, MutationEnds(permit)).value
              == x.(permits := x.permits - {permit},
                    mutation := if x.mutation == Some(x.permits[permit]) then None else x.mutation)
  {
  }

  // -------------------------------------------------------------- exports

  /** The result token an export was bound to is still granted, unchanged and free, to an open window. */
  predicate BindingCurrent(x: System, b: Binding, now: nat) {
    var s := x.results.registry;
    && b.token in s.grants
    && var g := s.grants[b.token];
       && b == Reads.Lease(b.token, g.owner, g.run, g.source, g.generation, g.epoch)
       && Answers.WindowOpen(s, g.owner, g.epoch) && now < g.expires && !g.inFlight
  }

  /** A granted target that this window may start exporting to at this moment. */
  predicate Startable(x: System, w: Owner, token: Token, now: nat) {
    && !x.scanning && x.mutation.None? && token in x.exports.grants
    && var g := x.exports.grants[token];
       && g.binding.owner == w && now < g.expires && BindingCurrent(x, g.binding, now)
       && (g.generation in x.gates ==> !x.gates[g.generation].cancelled)
  }

  function StartExport(w: Owner, token: Token, now: nat, lease: nat): seq<Action> {
    [LockForExport(w, token), ExportChecksMutation, ExportReadsGrant(now), ExportTakesLease(now, lease),
     ExportStarts(now)]
  }

  /** The system with the granted export running and its result token leased. */
  function Started(x: System, w: Owner, token: Token, lease: nat): System
    requires token in x.exports.grants && x.exports.grants[token].binding.token in x.results.registry.grants
  {
    var g := x.exports.grants[token];
    var b := g.binding;
    var s := x.results.registry;
    x.(exports := x.exports.(grants := x.exports.grants - {token},
                             running := x.exports.running[token := Running(w, b, g.generation)]),
       results := Reads.World(s.(grants := s.grants[b.token := s.grants[b.token].(inFlight := true)]),
                              x.results.leases[lease := b]))
  }

  lemma LeaseForExport(x: System, w: Owner, b: Binding, now: nat)
    ensures Reads.BeginRead(x.results.registry, w, b.token, now).1 == Ok(b)
            <==> b.owner == w && BindingCurrent(x, b, now)
    ensures BindingCurrent(x, b, now) && b.owner == w ==>
              var s := x.results.registry;
              Reads.BeginRead(s, w, b.token, now).0
              == s.(grants := s.grants[b.token := s.grants[b.token].(inFlight := true)])
  {
    Answers.BeginReadExactly(x.results.registry, w, b.token, now);
  }

  /** The start of an export up to the grant it reads. */
  lemma GrantIsRead(x: System, w: Owner, token: Token, now: nat)
    requires x.holder == Nobody
    ensures var run := Run(x, [LockForExport(w, token), ExportChecksMutation, ExportReadsGrant(now)]);
            && (run.Some? && run.value.holder != Nobody <==>
                  && !x.scanning && x.mutation.None? && token in x.exports.grants
                  && x.exports.grants[token].binding.owner == w && now < x.exports.grants[token].expires)
            && (run.Some? && run.value.holder != Nobody ==>
                  var g := x.exports.grants[token];
                  run.value == x.(holder := ExportRead(w, token, g.binding, g.generation)))
  {
    hide Run;
    RunThree(x, LockForExport(w, token), ExportChecksMutation, ExportReadsGrant(now));
    hide Reads.BeginRead, Reads.Step, GateOf;
  }

  /** The lease is taken exactly if the binding is current. */
  lemma LeaseIsTaken(x: System, now: nat, lease: nat)
    requires x.holder.ExportRead? && x.holder.binding.owner == x.holder.w && lease !in x.results.leases
    ensures var y := Step(x, ExportTakesLease(now, lease));
            var b := x.holder.binding;
            var s := x.results.registry;
            && y.Some?
            && (y.value.holder != Nobody <==> BindingCurrent(x, b, now))
            && (y.value.holder != Nobody ==>
                  var taken := s.grants[b.token := s.grants[b.token].(inFlight := true)];
                  y.value == x.(results := Reads.World(s.(grants := taken), x.results.leases[lease := b]),
                                holder := ExportLeased(x.holder.w, x.holder.token, b, x.holder.generation)))
  {
    LeaseForExport(x, x.holder.w, x.holder.binding, now);
    if BindingCurrent(x, x.holder.binding, now) {
      CurrentIsThere(x, x.holder.binding, now);
    }
    hide Reads.BeginRead, BindingCurrent;
  }

  lemma CurrentIsThere(x: System, b: Binding, now: nat)
    requires BindingCurrent(x, b, now)
    ensures b.token in x.results.registry.grants
  {
  }

  /** A granted export starts exactly if neither a scan nor a mutation is going on and the grant is startable: it is
      this window's, unexpired and not cancelled, and its result token is current. Then the grant becomes a running
      export that holds the lease, and nothing else changes. */
  lemma ExportStartsExactly(x: System, w: Owner, token: Token, now: nat, lease: nat)
    requires x.holder == Nobody && lease !in x.results.leases && token !in x.exports.running
    ensures var run := Run(x, StartExport(w, token, now, lease));
            && (run.Some? && token in run.value.exports.running <==> Startable(x, w, token, now))
            && (Startable(x, w, token, now) ==>
                  && x.exports.grants[token].binding.token in x.results.registry.grants
                  && run == Some(Started(x, w, token, lease)))
  {
    hide Run, Reads.BeginRead, BindingCurrent;
    var three := [LockForExport(w, token), ExportChecksMutation, ExportReadsGrant(now)];
    GrantIsRead(x, w, token, now);
    RunFive(x, LockForExport(w, token), ExportChecksMutation, ExportReadsGrant(now), ExportTakesLease(now, lease),
            ExportStarts(now));
    var read := Run(x, three);
    hide Step;
    if read.Some? && read.value.holder != Nobody {
      var b := x.exports.grants[token].binding;
      LeaseIsTaken(read.value, now, lease);
      assert BindingCurrent(read.value, b, now) == BindingCurrent(x, b, now) by {
        SameCurrent(x, read.value, b, now);
      }
      if BindingCurrent(x, b, now) {
        CurrentIsThere(x, b, now);
        LeasedStarts(Step(read.value, ExportTakesLease(now, lease)).value, now);
      } else {
        assert Step(Step(read.value, ExportTakesLease(now, lease)).value, ExportStarts(now)).None? by {
          OnlyHolderGoesOn(Step(read.value, ExportTakesLease(now, lease)).value, now, lease);
        }
      }
    } else if read.Some? {
      OnlyHolderGoesOn(read.value, now, lease);
    }
  }

  lemma OnlyHolderGoesOn(x: System, now: nat, lease: nat)
    requires x.holder == Nobody
    ensures Step(x, ExportTakesLease(now, lease)).None? && Step(x, ExportStarts(now)).None?
  {
  }

  /** The last look at the grant before the export runs. */
  lemma LeasedStarts(x: System, now: nat)
    requires x.holder.ExportLeased?
    ensures var t := x.holder.token;
            var e := x.exports;
            var y := Step(x, ExportStarts(now));
            && y.Some? && y.value.holder == Nobody
            && y.value == if && t in e.grants && e.grants[t].generation == x.holder.generation
                             && now < e.grants[t].expires && e.grants[t].binding == x.holder.binding
                             && (x.holder.generation in x.gates ==> !x.gates[x.holder.generation].cancelled)
                          then x.(holder := Nobody,
                                  exports := e.(grants := e.grants - {t},
                                                running := e.running[t := Running(x.holder.w, x.holder.binding,
                                                                                  x.holder.generation)]))
                          else x.(holder := Nobody)
  {
  }

  lemma SameCurrent(x: System, y: System, b: Binding, now: nat)
    requires y.results == x.results
    ensures BindingCurrent(x, b, now) == BindingCurrent(y, b, now)
  {
  }

  /** A target is linked exactly for a running export that was neither cancelled nor committed, and then its export is
      committed for good. */
  lemma LinkExactly(x: System, token: Token)
    ensures Step(x, Link(token)).Some? <==>
              && token in x.exports.running
              && var g := x.exports.running[token].generation;
                 g in x.gates ==> !x.gates[g].cancelled && !x.gates[g].committed
    ensures Step(x, Link(token)).Some? ==>
              var y := Step(x, Link(token)).value;
              var g := x.exports.running[token].generation;
              y == x.(links := x.links + [x.exports.running[token].owner],
                      gates := x.gates[g := Publication.Gate(false, true)])
  {
  }

  /** A running export ends exactly under its own generation, and only it. */
  lemma ExportEndsExactly(x: System, token: Token, generation: nat)
    ensures Step(x, ExportEnds(token, generation)).Some?
            <==> token in x.exports.running && x.exports.running[token].generation == generation
    ensures Step(x, ExportEnds(token, generation)).Some? ==>
              Step(x, ExportEnds(token, generation)).value
              == x.(exports := x.exports.(running := x.exports.running - {token}))
  {
  }

  // ------------------------------------------------- cancelling, revoking

  /** The generation of the export a token stands for. */
  function GenerationOf(x: System, token: Token): nat
    requires token in x.exports.grants || token in x.exports.running
  {
    if token in x.exports.grants then x.exports.grants[token].generation else x.exports.running[token].generation
  }

  /** A window may cancel its own granted export, and its own running export while it is open. The grant is gone or the
      run goes on, but its gate has been told. */
  lemma CancelExactly(x: System, w: Owner, token: Token)
    ensures Step(x, CancelExport(w, token)).Some? <==>
              || (token in x.exports.grants && x.exports.grants[token].binding.owner == w)
              || (&& token !in x.exports.grants && token in x.exports.running && x.exports.running[token].owner == w
                  && Answers.WindowOpen(x.results.registry, w, x.exports.running[token].binding.epoch))
    ensures Step(x, CancelExport(w, token)).Some? ==>
              var y := Step(x, CancelExport(w, token)).value;
              && y == x.(exports := y.exports, gates := y.gates)
              && y.exports == x.exports.(grants := x.exports.grants - {token})
              && y.gates.Keys == x.gates.Keys
              && forall g :: g in x.gates ==>
                   y.gates[g] == if g == GenerationOf(x, token) && !x.gates[g].committed
                                 then Publication.Gate(true, false) else x.gates[g]
  {
    Answers.OpenWindow(x.results.registry, w);
    hide Answers.WindowOpen, Reads.Live;
    if Step(x, CancelExport(w, token)).Some? {
      var y := Step(x, CancelExport(w, token)).value;
      if token !in x.exports.grants {
        assert x.exports.grants - {token} == x.exports.grants;
      }
      GatesToldOnce(x, y, GenerationOf(x, token));
    }
  }

  lemma GatesToldOnce(x: System, y: System, g: nat)
    requires y.gates == CancelAll(x.gates, {g})
    ensures y.gates.Keys == x.gates.Keys
    ensures forall k :: k in x.gates ==>
              y.gates[k] == if k == g && !x.gates[k].committed then Publication.Gate(true, false) else x.gates[k]
  {
  }

  /** Revoking by a rule on bindings stops every export the rule covers, granted or running, removes its grants and
      pending selections, and leaves all others alone. */
  lemma RevokeExactly(x: System, p: Binding -> bool)
    ensures var y := Revoke(x, p);
            var e := x.exports;
            && y == x.(exports := y.exports, gates := y.gates)
            && y.exports == e.(pending := y.exports.pending, grants := y.exports.grants)
            && (forall q :: q in y.exports.pending <==> q in e.pending && !p(e.pending[q]))
            && (forall q :: q in y.exports.pending ==> y.exports.pending[q] == e.pending[q])
            && (forall t :: t in y.exports.grants <==> t in e.grants && !p(e.grants[t].binding))
            && (forall t :: t in y.exports.grants ==> y.exports.grants[t] == e.grants[t])
            && y.gates.Keys == x.gates.Keys
            && (forall t :: t in e.grants && p(e.grants[t].binding) && e.grants[t].generation in x.gates ==>
                  y.gates[e.grants[t].generation].cancelled || y.gates[e.grants[t].generation].committed)
            && (forall t :: t in e.running && p(e.running[t].binding) && e.running[t].generation in x.gates ==>
                  y.gates[e.running[t].generation].cancelled || y.gates[e.running[t].generation].committed)
            && (forall g :: g in x.gates && y.gates[g] != x.gates[g] ==>
                  || (exists t :: t in e.grants && p(e.grants[t].binding) && e.grants[t].generation == g)
                  || (exists t :: t in e.running && p(e.running[t].binding) && e.running[t].generation == g))
  {
    var y := Revoke(x, p);
    var e := x.exports;
    forall t | t in e.grants && p(e.grants[t].binding)
      ensures e.grants[t].generation in GenerationsWhere(e, p)
    {
    }
    forall t | t in e.running && p(e.running[t].binding)
      ensures e.running[t].generation in GenerationsWhere(e, p)
    {
    }
  }

  /** Both revocations follow such a rule: one covers a window, the other a result token. */
  lemma RevocationsCover(x: System, w: Owner, t: Token, b: Binding)
    ensures OfWindow(w)(b) <==> b.owner == w
    ensures OfResult(t)(b) <==> b.token == t
    ensures var y := Step(x, RevokeWindow(w)); y.Some? && y.value.(revoked := x.revoked) == Revoke(x, OfWindow(w))
    ensures Step(x, RevokeResult(t)) == Some(Revoke(x, OfResult(t)))
  {
    hide Revoke;
    RevokeSpares(x, OfWindow(w));
  }

  lemma GrantStepKeepsGates(x: System, a: Action)
    requires ExportsApart(x) && StepSelect(x, a).Some?
    ensures forall g :: g in x.gates ==>
              g in StepSelect(x, a).value.gates && StepSelect(x, a).value.gates[g] == x.gates[g]
  {
    hide Reads.SnapshotBinding, OwnerBusy, FreshExportToken, Idle, Total;
  }

  lemma CancelAllStops(gates: map<nat, Gate>, generations: set<nat>, g: nat)
    requires g in gates && (gates[g].cancelled || gates[g].committed)
    ensures g in CancelAll(gates, generations)
    ensures var after := CancelAll(gates, generations)[g]; after.cancelled || after.committed
  {
  }

  lemma RevokeStepStays(x: System, a: Action, g: nat)
    requires Stopped(x, g) && StepRevoke(x, a).Some?
    ensures Stopped(StepRevoke(x, a).value, g)
  {
    hide CancelAll, GenerationsWhere;
    match a
    case CancelExport(w, token) =>
      if token in x.exports.grants {
        CancelAllStops(x.gates, {x.exports.grants[token].generation}, g);
      }
      if token in x.exports.running {
        CancelAllStops(x.gates, {x.exports.running[token].generation}, g);
      }
    case RevokeWindow(w) => CancelAllStops(x.gates, GenerationsWhere(x.exports, OfWindow(w)), g);
    case RevokeResult(t) => CancelAllStops(x.gates, GenerationsWhere(x.exports, OfResult(t)), g);
    case _ =>
  }

  lemma ExportStepStays(x: System, a: Action, g: nat)
    requires Stopped(x, g) && StepExport(x, a).Some?
    ensures Stopped(StepExport(x, a).value, g)
  {
    hide Reads.Step, Reads.BeginRead;
  }

  lemma OthersKeepGates(x: System, a: Action)
    ensures StepScan(x, a).Some? ==> StepScan(x, a).value.gates == x.gates
    ensures StepMutation(x, a).Some? ==> StepMutation(x, a).value.gates == x.gates
    ensures a.Read? && StepRead(x, a.r).Some? ==> StepRead(x, a.r).value.gates == x.gates
  {
    hide Reads.Step, Reads.Possible;
  }

  /** An export that was stopped stays stopped. */
  lemma StepStaysStopped(x: System, a: Action, g: nat)
    requires Orderly(x) && Stopped(x, g) && Step(x, a).Some?
    ensures Stopped(Step(x, a).value, g)
  {
    OthersKeepGates(x, a);
    hide StepSelect, StepRevoke, StepExport, StepRead, StepScan, StepMutation, SelectionsApart, ExportCapacity,
         Finality, HolderSees;
    match a
    case CancelExport(_, _) | RevokeWindow(_) | RevokeResult(_) => RevokeStepStays(x, a, g);
    case SelectAsk(_, _, _) | SelectSnapshot(_, _) | SelectInsert(_, _) | SelectValidate(_, _) | SelectCheck(_)
       | SelectGrant(_, _, _) | SelectDrop(_) => GrantStepKeepsGates(x, a);
    case Read(_) =>
    case LockForScan | ScanChecksExports | ScanStarts | ScanEnds =>
    case LockForMutation(_) | MutationChecksExports | MutationStarts(_) | MutationEnds(_) =>
    case _ => ExportStepStays(x, a, g);
  }

  lemma {:induction false} RunStaysStopped(x: System, actions: seq<Action>, g: nat)
    requires Exclusive(x) && Orderly(x) && Stopped(x, g) && Run(x, actions).Some?
    ensures Stopped(Run(x, actions).value, g)
  {
    hide Step, Stopped, Orderly, Exclusive;
    if actions != [] {
      var init := actions[..|actions| - 1];
      RunStaysStopped(x, init, g);
      RunsKeepOrder(x, init);
      StepStaysStopped(Run(x, init).value, actions[|actions| - 1], g);
    }
  }

  lemma CancelStops(x: System, w: Owner, token: Token)
    requires Orderly(x) && Step(x, CancelExport(w, token)).Some?
    requires token in x.exports.grants || token in x.exports.running
    ensures Stopped(Step(x, CancelExport(w, token)).value, GenerationOf(x, token))
  {
    CancelExactly(x, w, token);
    hide Step, SelectionsApart, ExportCapacity, Finality, HolderSees;
  }

  lemma StoppedNeverLinks(x: System, t: Token, g: nat)
    requires Stopped(x, g) && t in x.exports.running && x.exports.running[t].generation == g
    ensures Step(x, Link(t)).None?
  {
    LinkExactly(x, t);
    hide Step;
  }

  /** A cancellation is final. After an accepted cancel of a granted or running export, no target is linked for that
      export in any later state, whatever happens in between. */
  lemma CancelIsFinal(before: seq<Action>, w: Owner, token: Token, later: seq<Action>, t: Token)
    requires Run(Start(), before).Some? && Step(Run(Start(), before).value, CancelExport(w, token)).Some?
    requires var x := Run(Start(), before).value;
             var y := Step(x, CancelExport(w, token)).value;
             Run(y, later).Some? && (token in x.exports.grants || token in x.exports.running)
    ensures var x := Run(Start(), before).value;
            var z := Run(Step(x, CancelExport(w, token)).value, later).value;
            t in z.exports.running && z.exports.running[t].generation == GenerationOf(x, token) ==>
              Step(z, Link(t)).None?
  {
    var x := Run(Start(), before).value;
    var y := Step(x, CancelExport(w, token)).value;
    hide Step, Run, Exclusive, Orderly, Stopped, Start;
    StartOrderly();
    RunsKeepOrder(Start(), before);
    StepExclusive(x, CancelExport(w, token));
    StepOrderly(x, CancelExport(w, token));
    CancelStops(x, w, token);
    var g := GenerationOf(x, token);
    RunStaysStopped(y, later, g);
    var z := Run(y, later).value;
    if t in z.exports.running && z.exports.running[t].generation == g {
      StoppedNeverLinks(z, t, g);
    }
  }

  // ---------------------------------------------------------- selections

  /** An export slot is free for this window: fewer than four exports once expired grants are gone, none of them its. */
  ghost predicate SlotFree(x: System, w: Owner, now: nat, live: map<Token, ExportGrant>) {
    && (forall t :: t in live <==> t in x.exports.grants && now < x.exports.grants[t].expires)
    && (forall t :: t in live ==> live[t] == x.exports.grants[t])
    && |x.exports.pending| + |live| + |x.exports.running| < 4
    && (forall q :: q in x.exports.pending ==> x.exports.pending[q].owner != w)
    && (forall t :: t in live ==> live[t].binding.owner != w)
    && (forall t :: t in x.exports.running ==> x.exports.running[t].owner != w)
  }

  lemma SlotIsFree(x: System, w: Owner, now: nat, live: map<Token, ExportGrant>)
    requires forall t :: t in live <==> t in x.exports.grants && now < x.exports.grants[t].expires
    requires forall t :: t in live ==> live[t] == x.exports.grants[t]
    ensures PruneExports(x.exports, now) == x.exports.(grants := live)
    ensures SlotFree(x, w, now, live)
            <==> var e := PruneExports(x.exports, now); Total(e) < MAX_HISTORY_EXPORTS && !OwnerBusy(e, w)
  {
    assert PruneExports(x.exports, now).grants == live;
  }

  /** Asking for a target is possible exactly while nothing excludes exports. */
  lemma AskExactly(x: System, id: nat, w: Owner, token: Token)
    requires id !in x.selections
    ensures Step(x, SelectAsk(id, w, token)).Some? <==> x.holder == Nobody && !x.scanning && x.mutation.None?
    ensures Step(x, SelectAsk(id, w, token)).Some? ==>
              Step(x, SelectAsk(id, w, token)).value
              == x.(selections := x.selections[id := Selection(w, None, Asked(token))])
  {
  }

  lemma InsertLooks(x: System, id: nat, now: nat)
    requires id in x.selections && x.selections[id].stage == Snapped && x.selections[id].binding.Some?
    ensures var task := x.selections[id];
            var e := PruneExports(x.exports, now);
            var q := x.exports.nextSequence + 1;
            Step(x, SelectInsert(id, now))
            == Some(if Total(e) < MAX_HISTORY_EXPORTS && !OwnerBusy(e, task.owner)
                    then x.(exports := e.(nextSequence := q, pending := e.pending[q := task.binding.value]),
                            selections := x.selections[id := task.(stage := Inserted(q))])
                    else x.(exports := e, selections := x.selections - {id}))
  {
    hide PruneExports, Total, OwnerBusy, Reads.SnapshotBinding, FreshExportToken, Idle;
  }

  /** Inserting a selection takes a slot exactly if one is free; otherwise the selection is gone. */
  lemma InsertExactly(x: System, id: nat, now: nat, live: map<Token, ExportGrant>)
    requires id in x.selections && x.selections[id].stage == Snapped && x.selections[id].binding.Some?
    requires forall t :: t in live <==> t in x.exports.grants && now < x.exports.grants[t].expires
    requires forall t :: t in live ==> live[t] == x.exports.grants[t]
    ensures var y := Step(x, SelectInsert(id, now));
            var task := x.selections[id];
            var q := x.exports.nextSequence + 1;
            && y.Some?
            && (SlotFree(x, task.owner, now, live) ==>
                  y.value == x.(exports := x.exports.(grants := live, nextSequence := q,
                                                      pending := x.exports.pending[q := task.binding.value]),
                                selections := x.selections[id := task.(stage := Inserted(q))]))
            && (!SlotFree(x, task.owner, now, live) ==>
                  y.value == x.(exports := x.exports.(grants := live), selections := x.selections - {id}))
  {
    InsertLooks(x, id, now);
    SlotIsFree(x, x.selections[id].owner, now, live);
    hide Step, SlotFree, PruneExports, Total, OwnerBusy;
  }

  /** A checked selection is granted exactly if its pending entry is still its own and a free token is drawn: the grant
      is bound to what the window asked for, with a new generation, an open gate and five minutes. */
  lemma GrantExactly(x: System, id: nat, now: nat, candidates: seq<Token>)
    requires id in x.selections && x.selections[id].stage.Checked? && x.selections[id].binding.Some?
    ensures var y := Step(x, SelectGrant(id, now, candidates));
            var task := x.selections[id];
            var q := task.stage.sequence;
            var e := x.exports;
            && (y.Some? <==>
                  && q in e.pending && e.pending[q] == task.binding.value
                  && exists t :: t in candidates && t !in e.grants && t !in e.running)
            && (y.Some? ==>
                  exists t :: t in candidates && t !in e.grants && t !in e.running
                    && y.value == x.(exports := e.(pending := e.pending - {q}, nextGeneration := e.nextGeneration + 1,
                                                   grants := e.grants[t := ExportGrant(task.binding.value,
                                                                                       e.nextGeneration + 1,
                                                                                       now + 300)]),
                                     gates := x.gates[e.nextGeneration + 1 := Publication.Gate(false, false)],
                                     selections := x.selections - {id}))
  {
    FreshIsDrawn(x.exports, candidates);
    hide FreshExportToken;
  }

  lemma {:induction false} FreshIsDrawn(e: Exports, candidates: seq<Token>)
    ensures FreshExportToken(e, candidates).Some? <==>
              exists t :: t in candidates && t !in e.grants && t !in e.running
    ensures FreshExportToken(e, candidates).Some? ==> FreshExportToken(e, candidates).value in candidates
  {
    if candidates != [] {
      FreshIsDrawn(e, candidates[1..]);
      assert forall t :: t in candidates <==> t == candidates[0] || t in candidates[1..];
    }
  }

  /** A selection is checked exactly while nothing excludes exports. */
  lemma CheckExactly(x: System, id: nat)
    requires id in x.selections && x.selections[id].stage.Validated?
    ensures var task := x.selections[id];
            var y := Step(x, SelectCheck(id));
            && (y.Some? <==> x.holder == Nobody && !x.scanning && x.mutation.None?)
            && (y.Some? ==>
                  y.value == x.(selections := x.selections[id := task.(stage := Checked(task.stage.sequence))]))
  {
    hide Reads.SnapshotBinding, FreshExportToken, PruneExports, OwnerBusy, Total;
  }

  /** The result token is granted to the window of this binding, which is open, has not expired, and is bound so. */
  predicate StillBound(x: System, b: Binding, now: nat) {
    && Shows(x, b.owner, b.token, now) && b.token in x.results.registry.grants
    && ShownBinding(x, b.owner, b.token) == b
  }

  /** A pending selection is validated exactly if its result token is still bound as it was; otherwise it stays as it
      is until it is dropped. */
  lemma ValidateExactly(x: System, id: nat, now: nat)
    requires id in x.selections && x.selections[id].stage.Inserted? && x.selections[id].binding.Some?
    requires x.selections[id].binding.value.owner == x.selections[id].owner
    ensures var task := x.selections[id];
            var y := Step(x, SelectValidate(id, now));
            && y.Some? && y.value.exports == x.exports && y.value.gates == x.gates && y.value.links == x.links
            && y.value.selections == if StillBound(x, task.binding.value, now)
                                     then x.selections[id := task.(stage := Validated(task.stage.sequence))]
                                     else x.selections
  {
    var task := x.selections[id];
    var b := task.binding.value;
    Answers.SnapshotExactly(x.results.registry, task.owner, b.token, now);
    hide Reads.SnapshotBinding, FreshExportToken, PruneExports, OwnerBusy, Total, Answers.WindowOpen;
  }

  /** Dropping a selection at any stage leaves no pending entry of it. */
  lemma DropExactly(x: System, id: nat)
    ensures Step(x, SelectDrop(id)).Some? <==> id in x.selections
    ensures id in x.selections ==>
              var y := Step(x, SelectDrop(id)).value;
              && y == x.(selections := x.selections - {id}, exports := x.exports.(pending := y.exports.pending))
              && y.exports.pending == match SequenceOf(x.selections[id].stage)
                                      case None => x.exports.pending
                                      case Some(q) => x.exports.pending - {q}
  {
  }

  /** The selection of a target from beginning to end, at one moment and undisturbed. */
  function SelectTarget(id: nat, w: Owner, token: Token, now: nat, candidates: seq<Token>): seq<Action> {
    [SelectAsk(id, w, token), SelectSnapshot(id, now), SelectInsert(id, now), SelectValidate(id, now), SelectCheck(id)]
    + [SelectGrant(id, now, candidates)]
  }

  /** The result token is granted to this window, which is open, and has not expired. */
  predicate Shows(x: System, w: Owner, token: Token, now: nat) {
    var s := x.results.registry;
    && token in s.grants && s.grants[token].owner == w && Answers.WindowOpen(s, w, s.grants[token].epoch)
    && now < s.grants[token].expires
  }

  function ShownBinding(x: System, w: Owner, token: Token): Binding
    requires token in x.results.registry.grants
  {
    var g := x.results.registry.grants[token];
    Reads.Lease(token, w, g.run, g.source, g.generation, g.epoch)
  }

  lemma ShownIsBound(x: System, w: Owner, token: Token, now: nat)
    requires Shows(x, w, token, now)
    ensures Reads.SnapshotBinding(x.results.registry, w, token, now)
            == (x.results.registry, Ok(ShownBinding(x, w, token)))
  {
    Answers.SnapshotExactly(x.results.registry, w, token, now);
  }

  /** The system with this window's selection at a stage, bound to the result it shows. */
  function AtStage(x: System, id: nat, w: Owner, b: Option<Binding>, stage: Stage): System {
    x.(selections := x.selections[id := Selection(w, b, stage)])
  }

  /** The system with the selection's pending entry, and expired grants gone. */
  function Pending(x: System, b: Binding, live: map<Token, ExportGrant>): System {
    var q := x.exports.nextSequence + 1;
    x.(exports := x.exports.(grants := live, nextSequence := q, pending := x.exports.pending[q := b]))
  }

  lemma SnapshotsShown(x: System, id: nat, w: Owner, token: Token, now: nat)
    requires Shows(x, w, token, now) && token in x.results.registry.grants
    ensures Step(AtStage(x, id, w, None, Asked(token)), SelectSnapshot(id, now))
            == Some(AtStage(x, id, w, Some(ShownBinding(x, w, token)), Snapped))
  {
    ShownIsBound(x, w, token, now);
    hide Reads.SnapshotBinding, Shows;
    var b := ShownBinding(x, w, token);
    assert x.selections[id := Selection(w, None, Asked(token))][id := Selection(w, Some(b), Snapped)]
        == x.selections[id := Selection(w, Some(b), Snapped)];
  }

  lemma InsertsShown(x: System, id: nat, w: Owner, b: Binding, now: nat, live: map<Token, ExportGrant>)
    requires SlotFree(x, w, now, live)
    ensures Step(AtStage(x, id, w, Some(b), Snapped), SelectInsert(id, now))
            == Some(AtStage(Pending(x, b, live), id, w, Some(b), Inserted(x.exports.nextSequence + 1)))
  {
    hide Step, SlotFree;
    var y := AtStage(x, id, w, Some(b), Snapped);
    var q := x.exports.nextSequence + 1;
    SameSlot(x, y, w, now, live);
    LiveOf(y, w, now, live);
    InsertExactly(y, id, now, live);
    assert y.selections[id := Selection(w, Some(b), Inserted(q))]
           == x.selections[id := Selection(w, Some(b), Inserted(q))];
  }

  lemma ValidatesShown(x: System, id: nat, w: Owner, token: Token, q: nat, now: nat)
    requires Shows(x, w, token, now) && token in x.results.registry.grants
    ensures var b := Some(ShownBinding(x, w, token));
            Step(AtStage(x, id, w, b, Inserted(q)), SelectValidate(id, now))
            == Some(AtStage(x, id, w, b, Validated(q)))
  {
    ShownIsBound(x, w, token, now);
    hide Reads.SnapshotBinding, Shows;
    var b := Some(ShownBinding(x, w, token));
    assert x.selections[id := Selection(w, b, Inserted(q))][id := Selection(w, b, Validated(q))]
        == x.selections[id := Selection(w, b, Validated(q))];
  }

  lemma ChecksShown(x: System, id: nat, w: Owner, b: Binding, q: nat)
    requires Idle(x)
    ensures Step(AtStage(x, id, w, Some(b), Validated(q)), SelectCheck(id))
            == Some(AtStage(x, id, w, Some(b), Checked(q)))
  {
    assert x.selections[id := Selection(w, Some(b), Validated(q))][id := Selection(w, Some(b), Checked(q))]
        == x.selections[id := Selection(w, Some(b), Checked(q))];
  }

  lemma SelectionIsChecked(x: System, id: nat, w: Owner, token: Token, now: nat, live: map<Token, ExportGrant>)
    requires Idle(x) && id !in x.selections
    requires Shows(x, w, token, now) && token in x.results.registry.grants && SlotFree(x, w, now, live)
    ensures var b := ShownBinding(x, w, token);
            Run(x, [SelectAsk(id, w, token), SelectSnapshot(id, now), SelectInsert(id, now), SelectValidate(id, now),
                    SelectCheck(id)])
            == Some(AtStage(Pending(x, b, live), id, w, Some(b), Checked(x.exports.nextSequence + 1)))
  {
    var b := ShownBinding(x, w, token);
    var q := x.exports.nextSequence + 1;
    AskExactly(x, id, w, token);
    SnapshotsShown(x, id, w, token, now);
    InsertsShown(x, id, w, b, now, live);
    var y := Pending(x, b, live);
    ValidatesShown(y, id, w, token, q, now);
    ChecksShown(y, id, w, b, q);
    RunThree(x, SelectAsk(id, w, token), SelectSnapshot(id, now), SelectInsert(id, now));
    RunFive(x, SelectAsk(id, w, token), SelectSnapshot(id, now), SelectInsert(id, now), SelectValidate(id, now),
            SelectCheck(id));
    hide Run, Step, SlotFree;
  }

  /** A window that shows a result, while nothing excludes exports and a slot is free for it, gets its target granted,
      bound to that result. */
  lemma TargetIsGranted(x: System, id: nat, w: Owner, token: Token, now: nat, candidates: seq<Token>,
                        live: map<Token, ExportGrant>)
    requires x.holder == Nobody && !x.scanning && x.mutation.None? && id !in x.selections
    requires Shows(x, w, token, now) && token in x.results.registry.grants
    requires SlotFree(x, w, now, live) && x.exports.nextSequence + 1 !in x.exports.pending
    requires exists t :: t in candidates && t !in live && t !in x.exports.running
    ensures var y := Run(x, SelectTarget(id, w, token, now, candidates));
            var granted := ExportGrant(ShownBinding(x, w, token), x.exports.nextGeneration + 1, now + 300);
            && y.Some? && y.value.selections == x.selections
            && y.value.exports.running == x.exports.running && y.value.exports.pending == x.exports.pending
            && exists t :: t in candidates && t !in live && y.value.exports.grants == live[t := granted]
  {
    hide Run, Step, Shows, SlotFree;
    var b := ShownBinding(x, w, token);
    var q := x.exports.nextSequence + 1;
    assert Idle(x);
    SelectionIsChecked(x, id, w, token, now, live);
    var y := AtStage(Pending(x, b, live), id, w, Some(b), Checked(q));
    RunThen(x, [SelectAsk(id, w, token), SelectSnapshot(id, now), SelectInsert(id, now), SelectValidate(id, now),
                SelectCheck(id)], SelectGrant(id, now, candidates));
    GrantExactly(y, id, now, candidates);
    assert y.exports.pending - {q} == x.exports.pending && y.selections - {id} == x.selections;
  }

  lemma SameSlot(x: System, y: System, w: Owner, now: nat, live: map<Token, ExportGrant>)
    requires SlotFree(x, w, now, live) && y.exports == x.exports
    ensures SlotFree(y, w, now, live)
  {
  }

  lemma LiveOf(x: System, w: Owner, now: nat, live: map<Token, ExportGrant>)
    requires SlotFree(x, w, now, live)
    ensures forall t :: t in live <==> t in x.exports.grants && now < x.exports.grants[t].expires
    ensures forall t :: t in live ==> live[t] == x.exports.grants[t]
  {
  }
}
