/** Scans, history exports and filesystem mutations behind several locks, with windows closing at any moment.
    A step is one critical section; whoever holds the job registry across several inner locks is a holder with
    a position, and every activity may end without that lock. */
module Activities {
  import opened Wrappers
  import Reads = ResultReads
  import Publication = ExportPublication

  type Owner = Reads.Owner
  type Token = Reads.Token
  type Binding = Reads.Lease
  type Gate = Publication.Gate

  const MAX_HISTORY_EXPORTS: nat := 4
  const HISTORY_EXPORT_TOKEN_TTL: nat := 5 * 60

  datatype ExportGrant = ExportGrant(binding: Binding, generation: nat, expires: nat)

  datatype Running = Running(owner: Owner, binding: Binding, generation: nat)

  datatype Exports = Exports(
    pending: map<nat, Binding>, grants: map<Token, ExportGrant>, running: map<Token, Running>,
    nextSequence: nat, nextGeneration: nat)

  /** How far a target selection has come; its file dialog and its checks hold no lock in between. */
  datatype Stage =
    | Asked(token: Token) | Snapped | Inserted(sequence: nat) | Validated(sequence: nat) | Checked(sequence: nat)

  datatype Selection = Selection(owner: Owner, binding: Option<Binding>, stage: Stage)

  /** Who holds the job registry lock, and what has been established under it. */
  datatype Holder =
    | Nobody
    | ScanLocked | ScanSawNoExport
    | MutationLocked(id: string) | MutationSawNoExport(id: string)
    | ExportLocked(w: Owner, token: Token) | ExportSawNoMutation(w: Owner, token: Token)
    | ExportRead(w: Owner, token: Token, binding: Binding, generation: nat)
    | ExportLeased(w: Owner, token: Token, binding: Binding, generation: nat)

  /** `gates` holds the cancellation gate of every export ever granted, by generation; `links` logs the window of
      every target ever linked; `revoked` are the windows whose exports were revoked after their tombstone. */
  datatype System = System(
    results: Reads.World, exports: Exports, scanning: bool, mutation: Option<string>, permits: map<nat, string>,
    holder: Holder, selections: map<nat, Selection>, gates: map<nat, Gate>, links: seq<Owner>, revoked: set<Owner>)

  datatype Action =
    | Read(r: Reads.Action)
    | LockForScan | ScanChecksExports | ScanStarts | ScanEnds
    | LockForMutation(operation: string) | MutationChecksExports
    | MutationStarts(permit: nat) | MutationEnds(permit: nat)
    | LockForExport(w: Owner, token: Token) | ExportChecksMutation | ExportReadsGrant(now: nat)
    | ExportTakesLease(now: nat, lease: nat) | ExportStarts(now: nat) | GiveUp
    | Link(token: Token) | ExportEnds(token: Token, generation: nat)
    | CancelExport(w: Owner, token: Token) | RevokeWindow(w: Owner) | RevokeResult(resultToken: Token)
    | SelectAsk(id: nat, w: Owner, token: Token) | SelectSnapshot(id: nat, now: nat) | SelectInsert(id: nat, now: nat)
    | SelectValidate(id: nat, now: nat) | SelectCheck(id: nat) | SelectGrant(id: nat, now: nat, candidates: seq<Token>)
    | SelectDrop(id: nat)

  function Cancelled(g: Gate): Gate { Publication.NextGate(g, Publication.AskCancel) }

  function GateOf(x: System, generation: nat): Gate {
    if generation in x.gates then x.gates[generation] else Publication.OPEN_GATE
  }

  predicate OwnerBusy(e: Exports, w: Owner) {
    || (exists q :: q in e.pending && e.pending[q].owner == w)
    || (exists t :: t in e.grants && e.grants[t].binding.owner == w)
    || (exists t :: t in e.running && e.running[t].owner == w)
  }

  function Total(e: Exports): nat { |e.pending| + |e.grants| + |e.running| }

  function PruneExports(e: Exports, now: nat): Exports {
    e.(grants := map t | t in e.grants && now < e.grants[t].expires :: e.grants[t])
  }

  function FreshExportToken(e: Exports, candidates: seq<Token>): (t: Option<Token>)
    ensures t.Some? ==> t.value !in e.grants && t.value !in e.running
  {
    if candidates == [] then None
    else if candidates[0] !in e.grants && candidates[0] !in e.running then Some(candidates[0])
    else FreshExportToken(e, candidates[1..])
  }

  /** All gates of these generations are told to cancel. */
  function CancelAll(gates: map<nat, Gate>, generations: set<nat>): map<nat, Gate> {
    map g | g in gates :: if g in generations then Cancelled(gates[g]) else gates[g]
  }

  function GenerationsWhere(e: Exports, p: Binding -> bool): set<nat> {
    (set t | t in e.grants && p(e.grants[t].binding) :: e.grants[t].generation) +
    (set t | t in e.running && p(e.running[t].binding) :: e.running[t].generation)
  }

  /** Revoking the exports of a window, or of a result token. */
  function Revoke(x: System, p: Binding -> bool): System {
    x.(gates := CancelAll(x.gates, GenerationsWhere(x.exports, p)),
       exports := x.exports.(
         pending := map q | q in x.exports.pending && !p(x.exports.pending[q]) :: x.exports.pending[q],
         grants := map t | t in x.exports.grants && !p(x.exports.grants[t].binding) :: x.exports.grants[t]))
  }

  function OfWindow(w: Owner): Binding -> bool { (b: Binding) => b.owner == w }

  function OfResult(t: Token): Binding -> bool { (b: Binding) => b.token == t }

  function Idle(x: System): bool { x.holder == Nobody && !x.scanning && x.mutation.None? }

  function StepRead(x: System, r: Reads.Action): Option<System> {
    if Reads.Possible(x.results, r) then Some(x.(results := Reads.Step(x.results, r))) else None
  }

  function StepScan(x: System, a: Action): Option<System> {
    match a
    case LockForScan => if x.holder == Nobody && !x.scanning then Some(x.(holder := ScanLocked)) else None
    case ScanChecksExports =>
      if x.holder == ScanLocked && x.exports.running == map[] then Some(x.(holder := ScanSawNoExport)) else None
    case ScanStarts =>
      if x.holder == ScanSawNoExport && x.mutation.None? then Some(x.(holder := Nobody, scanning := true)) else None
    case ScanEnds => if x.holder == Nobody && x.scanning then Some(x.(scanning := false)) else None
    case _ => None
  }

  function StepMutation(x: System, a: Action): Option<System> {
    match a
    case LockForMutation(id) => if x.holder == Nobody && !x.scanning
      then Some(x.(holder := MutationLocked(id))) else None
    case MutationChecksExports =>
      if x.holder.MutationLocked? && x.exports.running == map[]
        then Some(x.(holder := MutationSawNoExport(x.holder.id))) else None
    case MutationStarts(permit) =>
      if x.holder.MutationSawNoExport? && x.mutation.None? && permit !in x.permits
      then Some(x.(holder := Nobody, mutation := Some(x.holder.id), permits := x.permits[permit := x.holder.id]))
      else None
    case MutationEnds(permit) =>
      if permit in x.permits
      then
        var ended := if x.mutation == Some(x.permits[permit]) then None else x.mutation;
        Some(x.(mutation := ended, permits := x.permits - {permit}))
      else None
    case _ => None
  }

  function StepExport(x: System, a: Action): Option<System> {
    var e := x.exports;
    match a
    case LockForExport(w, token) => if x.holder == Nobody && !x.scanning
      then Some(x.(holder := ExportLocked(w, token))) else None
    case ExportChecksMutation =>
      if x.holder.ExportLocked? && x.mutation.None?
        then Some(x.(holder := ExportSawNoMutation(x.holder.w, x.holder.token))) else None
    case ExportReadsGrant(now) =>
      if !x.holder.ExportSawNoMutation? || x.holder.token !in e.grants then None
      else
        var g := e.grants[x.holder.token];
        if g.binding.owner != x.holder.w then None
        else if now >= g.expires then Some(x.(holder := Nobody, exports := e.(grants := e.grants - {x.holder.token})))
        else Some(x.(holder := ExportRead(x.holder.w, x.holder.token, g.binding, g.generation)))
    case ExportTakesLease(now, lease) =>
      if !x.holder.ExportRead? || lease in x.results.leases then None
      else
        var (s, r) := Reads.BeginRead(x.results.registry, x.holder.w, x.holder.binding.token, now);
        var results := Reads.Step(x.results, Reads.Begin(x.holder.w, x.holder.binding.token, now, lease));
        if r == Ok(x.holder.binding)
        then Some(x.(results := results,
                     holder := ExportLeased(x.holder.w, x.holder.token, x.holder.binding, x.holder.generation)))
        else Some(x.(results := results, holder := Nobody))
    case ExportStarts(now) =>
      if !x.holder.ExportLeased? then None
      else
        var t := x.holder.token;
        if && t in e.grants && e.grants[t].generation == x.holder.generation
          && !GateOf(x, x.holder.generation).cancelled
           && now < e.grants[t].expires && e.grants[t].binding == x.holder.binding
        then Some(x.(holder := Nobody,
                     exports := e.(grants := e.grants - {t},
                                   running := e.running[t := Running(x.holder.w, x.holder.binding,
                                                                     x.holder.generation)])))
        else Some(x.(holder := Nobody))
    case GiveUp => if x.holder != Nobody then Some(x.(holder := Nobody)) else None
    case Link(token) =>
      if token !in e.running then None
      else
        var g := e.running[token].generation;
        var gate := GateOf(x, g);
        if gate.cancelled || gate.committed then None
        else Some(x.(gates := x.gates[g := Publication.NextGate(gate, Publication.TryCommit(true))],
                     links := x.links + [e.running[token].owner]))
    case ExportEnds(token, generation) =>
      if token in e.running && e.running[token].generation == generation
      then Some(x.(exports := e.(running := e.running - {token}))) else None
    case _ => None
  }

  function StepRevoke(x: System, a: Action): Option<System> {
    var e := x.exports;
    match a
    case CancelExport(w, token) =>
      if token in e.grants && e.grants[token].binding.owner == w then
        Some(x.(gates := CancelAll(x.gates, {e.grants[token].generation}), exports := e.(grants := e.grants - {token})))
      else if token !in e.grants && token in e.running && e.running[token].owner == w
              && Reads.Live(x.results.registry, w, e.running[token].binding.epoch) then
        Some(x.(gates := CancelAll(x.gates, {e.running[token].generation})))
      else None
    case RevokeWindow(w) =>
      var y := Revoke(x, OfWindow(w));
      Some(if Reads.StateOf(x.results.registry, w).closed then y.(revoked := y.revoked + {w}) else y)
    case RevokeResult(t) => Some(Revoke(x, OfResult(t)))
    case _ => None
  }

  function StepSelect(x: System, a: Action): Option<System> {
    var e := x.exports;
    match a
    case SelectAsk(id, w, token) =>
      if Idle(x) && id !in x.selections
        then Some(x.(selections := x.selections[id := Selection(w, None, Asked(token))])) else None
    case SelectSnapshot(id, now) =>
      if id !in x.selections || !x.selections[id].stage.Asked? then None
      else
        var task := x.selections[id];
        var (s, r) := Reads.SnapshotBinding(x.results.registry, task.owner, task.stage.token, now);
        var y := x.(results := x.results.(registry := s));
        if r.Err? then Some(y.(selections := y.selections - {id}))
        else Some(y.(selections := y.selections[id := Selection(task.owner, Some(r.value), Snapped)]))
    case SelectInsert(id, now) =>
      if id !in x.selections || !x.selections[id].stage.Snapped? || x.selections[id].binding.None? then None
      else
        var task := x.selections[id];
        var pruned := PruneExports(e, now);
        if Total(pruned) >= MAX_HISTORY_EXPORTS || OwnerBusy(pruned, task.owner)
        then Some(x.(exports := pruned, selections := x.selections - {id}))
        else
          var q := e.nextSequence + 1;
          Some(x.(exports := pruned.(nextSequence := q, pending := pruned.pending[q := task.binding.value]),
                  selections := x.selections[id := task.(stage := Inserted(q))]))
    case SelectValidate(id, now) =>
      if id !in x.selections || !x.selections[id].stage.Inserted? || x.selections[id].binding.None? then None
      else
        var task := x.selections[id];
        var (s, r) := Reads.SnapshotBinding(x.results.registry, task.owner, task.binding.value.token, now);
        var y := x.(results := x.results.(registry := s));
        if r == Ok(task.binding.value)
        then Some(y.(selections := y.selections[id := task.(stage := Validated(task.stage.sequence))])) else Some(y)
    case SelectCheck(id) =>
      if id in x.selections && x.selections[id].stage.Validated? && Idle(x)
      then
        var task := x.selections[id];
        Some(x.(selections := x.selections[id := task.(stage := Checked(task.stage.sequence))]))
      else None
    case SelectGrant(id, now, candidates) =>
      if id !in x.selections || !x.selections[id].stage.Checked? || x.selections[id].binding.None? then None
      else
        var task := x.selections[id];
        var q := task.stage.sequence;
        var token := FreshExportToken(e, candidates);
        if q !in e.pending || e.pending[q] != task.binding.value || token.None? then None
        else
          var g := e.nextGeneration + 1;
          Some(x.(exports := e.(pending := e.pending - {q}, nextGeneration := g,
                                grants := e.grants[token.value := ExportGrant(task.binding.value, g,
                                    now + HISTORY_EXPORT_TOKEN_TTL)]),
                  gates := x.gates[g := Publication.OPEN_GATE], selections := x.selections - {id}))
    case SelectDrop(id) =>
      if id !in x.selections then None
      else
        var task := x.selections[id];
        var y := x.(selections := x.selections - {id});
        (match task.stage
         case Inserted(q) => Some(y.(exports := e.(pending := e.pending - {q})))
         case Validated(q) => Some(y.(exports := e.(pending := e.pending - {q})))
         case Checked(q) => Some(y.(exports := e.(pending := e.pending - {q})))
         case _ => Some(y))
    case _ => None
  }

  function Step(x: System, a: Action): Option<System> {
    match a
    case Read(r) => StepRead(x, r)
    case LockForScan | ScanChecksExports | ScanStarts | ScanEnds => StepScan(x, a)
    case LockForMutation(_) | MutationChecksExports | MutationStarts(_) | MutationEnds(_) => StepMutation(x, a)
    case CancelExport(_, _) | RevokeWindow(_) | RevokeResult(_) => StepRevoke(x, a)
    case SelectAsk(_, _, _) | SelectSnapshot(_, _) | SelectInsert(_, _) | SelectValidate(_, _) | SelectCheck(_)
       | SelectGrant(_, _, _) | SelectDrop(_) => StepSelect(x, a)
    case _ => StepExport(x, a)
  }

  function Start(): System {
    System(Reads.Fresh(), Exports(map[], map[], map[], 0, 0), false, None, map[], Nobody, map[], map[], [], {})
  }

  // ----------------------------------------------------- mutual exclusion

  /** At most one of the three kinds of activity, at most one mutation permit, and what the lock holder has
      seen still holds. */
  predicate Exclusive(x: System) {
    && (x.scanning ==> x.exports.running == map[] && x.mutation.None? && x.holder == Nobody)
    && (x.exports.running != map[] ==> x.mutation.None?)
    && (x.mutation.None? <==> x.permits == map[])
    && (forall p, q :: p in x.permits && q in x.permits ==> p == q && x.mutation == Some(x.permits[p]))
    && (x.holder in {ScanSawNoExport} || x.holder.MutationSawNoExport? ==> x.exports.running == map[])
    && (x.holder.ExportSawNoMutation? || x.holder.ExportRead? || x.holder.ExportLeased? ==> x.mutation.None?)
  }

  /** An action of this group leaves scans, mutations, permits, running exports and the lock holder alone. */
  predicate SameActivities(x: System, y: System) {
    && y.scanning == x.scanning && y.mutation == x.mutation && y.permits == x.permits && y.holder == x.holder
    && y.exports.running == x.exports.running
  }

  lemma SelectSameActivities(x: System, a: Action)
    requires StepSelect(x, a).Some?
    ensures SameActivities(x, StepSelect(x, a).value)
  {
    hide Reads.SnapshotBinding, OwnerBusy, FreshExportToken, Idle, Total;
  }

  lemma RevokeSameActivities(x: System, a: Action)
    requires StepRevoke(x, a).Some?
    ensures SameActivities(x, StepRevoke(x, a).value)
  {
    hide CancelAll, GenerationsWhere;
  }

  lemma ScanExclusive(x: System, a: Action)
    requires Exclusive(x) && StepScan(x, a).Some?
    ensures Exclusive(StepScan(x, a).value)
  {
  }

  lemma MutationExclusive(x: System, a: Action)
    requires Exclusive(x) && StepMutation(x, a).Some?
    ensures Exclusive(StepMutation(x, a).value)
  {
    if a.MutationEnds? {
      var y := StepMutation(x, a).value;
      assert forall p :: p in x.permits ==> p == a.permit;
      assert y.permits == map[];
    }
    if a.MutationStarts? {
      assert a.permit in StepMutation(x, a).value.permits;
    }
  }

  lemma ExportExclusive(x: System, a: Action)
    requires Exclusive(x) && StepExport(x, a).Some?
    ensures Exclusive(StepExport(x, a).value)
  {
    hide Reads.BeginRead, Reads.Step, GateOf;
    if a.ExportEnds? {
      assert a.token in x.exports.running;
    }
  }

  lemma StepExclusive(x: System, a: Action)
    requires Exclusive(x) && Step(x, a).Some?
    ensures Exclusive(Step(x, a).value)
  {
    hide Exclusive, StepRead, StepScan, StepMutation, StepExport, StepRevoke, StepSelect, SameActivities;
    var y := Step(x, a).value;
    if StepScan(x, a) == Some(y) {
      ScanExclusive(x, a);
    } else if StepMutation(x, a) == Some(y) {
      MutationExclusive(x, a);
    } else if StepExport(x, a) == Some(y) {
      ExportExclusive(x, a);
    } else {
      if StepRevoke(x, a) == Some(y) {
        RevokeSameActivities(x, a);
      } else if StepSelect(x, a) == Some(y) {
        SelectSameActivities(x, a);
      } else {
        ReadSameActivities(x, a.r);
      }
      SameExclusive(x, y);
    }
  }

  lemma ReadSameActivities(x: System, r: Reads.Action)
    requires StepRead(x, r).Some?
    ensures SameActivities(x, StepRead(x, r).value)
  {
    hide Reads.Step, Reads.Possible;
  }

  lemma SameExclusive(x: System, y: System)
    requires Exclusive(x) && SameActivities(x, y)
    ensures Exclusive(y)
  {
  }

  // ------------------------------------------------- numbers and capacity

  function SequenceOf(s: Stage): Option<nat> {
    match s
    case Inserted(q) => Some(q)
    case Validated(q) => Some(q)
    case Checked(q) => Some(q)
    case _ => None
  }

  /** Every export has its own generation and a gate, and tokens are granted or running, not both. */
  predicate ExportsApart(x: System) {
    var e := x.exports;
    && (forall t :: t in e.grants ==> e.grants[t].generation in x.gates)
    && (forall t :: t in e.running ==>
          e.running[t].generation in x.gates && e.running[t].owner == e.running[t].binding.owner)
    && (forall g :: g in x.gates ==> g <= e.nextGeneration && !(x.gates[g].cancelled && x.gates[g].committed))
    && (forall t, u :: t in e.grants && u in e.grants && t != u ==> e.grants[t].generation != e.grants[u].generation)
    && (forall t, u :: t in e.running && u in e.running && t != u ==>
          e.running[t].generation != e.running[u].generation)
    && (forall t, u :: t in e.grants && u in e.running ==> t != u && e.grants[t].generation != e.running[u].generation)
  }

  /** Every selection has its own sequence number, and its pending entry is its own. */
  predicate SelectionsApart(x: System) {
    && (forall q :: q in x.exports.pending ==> q <= x.exports.nextSequence)
    && (forall i :: i in x.selections && x.selections[i].binding.Some? ==>
          x.selections[i].binding.value.owner == x.selections[i].owner)
    && (forall i :: i in x.selections && SequenceOf(x.selections[i].stage).Some? ==>
          var q := SequenceOf(x.selections[i].stage).value;
          && q <= x.exports.nextSequence
          && x.selections[i].binding.Some?
          && (q in x.exports.pending ==> x.exports.pending[q] == x.selections[i].binding.value))
    && (forall i, j :: i in x.selections && j in x.selections && i != j && SequenceOf(x.selections[i].stage).Some? ==>
          SequenceOf(x.selections[i].stage) != SequenceOf(x.selections[j].stage))
  }

  predicate HolderSees(x: System) {
    x.holder.ExportRead? || x.holder.ExportLeased? ==>
      x.holder.binding.owner == x.holder.w && x.holder.generation <= x.exports.nextGeneration
  }

  /** At most four exports in any state of progress, and no two of one window. */
  predicate ExportCapacity(e: Exports) {
    Total(e) <= MAX_HISTORY_EXPORTS && OwnersApart(e)
  }

  // -------------------------------------------------- closing a window

  predicate Stopped(x: System, generation: nat) {
    generation in x.gates && (x.gates[generation].cancelled || x.gates[generation].committed)
  }

  /** For a window that was closed and revoked: no export grant, only stopped runs, and no selection that has
      passed its validation can still find its pending entry. */
  predicate Finality(x: System) {
    && (forall w :: w in x.revoked ==> Reads.StateOf(x.results.registry, w).closed)
    && (forall t :: t in x.exports.grants ==> x.exports.grants[t].binding.owner !in x.revoked)
    && (forall t :: t in x.exports.running && x.exports.running[t].owner in x.revoked ==>
          Stopped(x, x.exports.running[t].generation))
    && (forall i :: (&& i in x.selections && x.selections[i].owner in x.revoked
                     && (x.selections[i].stage.Validated? || x.selections[i].stage.Checked?)) ==>
          SequenceOf(x.selections[i].stage).value !in x.exports.pending)
  }

  // --------------------------------------------------------- export steps

  /** Everything the invariant says beyond mutual exclusion. */
  predicate Orderly(x: System) {
    ExportsApart(x) && SelectionsApart(x) && HolderSees(x) && ExportCapacity(x.exports) && Finality(x)
  }

  /** Granted or running exports, pending entries and selections may be gone; nothing else about them changed. */
  predicate Fewer(x: System, y: System) {
    && y.gates == x.gates && y.revoked == x.revoked
    && (forall w :: w in x.revoked && Reads.StateOf(x.results.registry, w).closed ==>
          Reads.StateOf(y.results.registry, w).closed)
    && y.exports.nextGeneration == x.exports.nextGeneration && y.exports.nextSequence == x.exports.nextSequence
    && (forall q :: q in y.exports.pending ==> q in x.exports.pending && y.exports.pending[q] == x.exports.pending[q])
    && (forall t :: t in y.exports.grants ==> t in x.exports.grants && y.exports.grants[t] == x.exports.grants[t])
    && (forall t :: t in y.exports.running ==> t in x.exports.running && y.exports.running[t] == x.exports.running[t])
    && (forall i :: i in y.selections ==> i in x.selections && y.selections[i] == x.selections[i])
    && (y.holder.ExportRead? || y.holder.ExportLeased? ==>
          && (x.holder.ExportRead? || x.holder.ExportLeased?)
          && y.holder.w == x.holder.w && y.holder.binding == x.holder.binding
          && y.holder.generation == x.holder.generation)
  }

  lemma FewerApart(x: System, y: System)
    requires ExportsApart(x) && Fewer(x, y)
    ensures ExportsApart(y)
  {
  }

  lemma FewerSelections(x: System, y: System)
    requires SelectionsApart(x) && Fewer(x, y)
    ensures SelectionsApart(y)
  {
  }

  lemma FewerTotal(x: Exports, y: Exports)
    requires y.pending.Keys <= x.pending.Keys && y.grants.Keys <= x.grants.Keys && y.running.Keys <= x.running.Keys
    ensures Total(y) <= Total(x)
  {
    Reads.SubsetSize(y.pending.Keys, x.pending.Keys);
    Reads.SubsetSize(y.grants.Keys, x.grants.Keys);
    Reads.SubsetSize(y.running.Keys, x.running.Keys);
  }

  lemma FewerCapacity(x: System, y: System)
    requires ExportCapacity(x.exports) && Fewer(x, y)
    ensures ExportCapacity(y.exports)
  {
    hide Total;
    FewerTotal(x.exports, y.exports);
  }

  lemma FewerFinality(x: System, y: System)
    requires Finality(x) && Fewer(x, y)
    ensures Finality(y)
  {
  }

  lemma FewerOrderly(x: System, y: System)
    requires Orderly(x) && Fewer(x, y)
    ensures Orderly(y)
  {
    FewerApart(x, y);
    FewerSelections(x, y);
    FewerCapacity(x, y);
    FewerFinality(x, y);
    hide ExportsApart, SelectionsApart, ExportCapacity, Finality;
  }

  lemma LinkOrderly(x: System, token: Token)
    requires Orderly(x) && StepExport(x, Link(token)).Some?
    ensures Orderly(StepExport(x, Link(token)).value)
  {
    hide ExportsApart, SelectionsApart, ExportCapacity, Finality, GateOf;
    var g := x.exports.running[token].generation;
    assert g in x.gates by {
      RunningGate(x, token);
    }
    var gates := x.gates[g := Publication.NextGate(GateOf(x, g), Publication.TryCommit(true))];
    GateCommits(x, g);
    var y := x.(gates := gates);
    GatesOnly(x, gates);
    LinksOnly(y, StepExport(x, Link(token)).value.links);
  }

  lemma RunningGate(x: System, token: Token)
    requires ExportsApart(x) && token in x.exports.running
    ensures x.exports.running[token].generation in x.gates
  {
  }

  /** Gates only move on: to cancelled or to committed, never to both and never back. */
  predicate GatesAdvance(before: map<nat, Gate>, after: map<nat, Gate>) {
    && after.Keys == before.Keys
    && forall g :: g in before ==>
         && !(after[g].cancelled && after[g].committed)
         && (before[g].cancelled ==> after[g].cancelled) && (before[g].committed ==> after[g].committed)
  }

  lemma GateCommits(x: System, g: nat)
    requires ExportsApart(x) && g in x.gates && !GateOf(x, g).cancelled && !GateOf(x, g).committed
    ensures GatesAdvance(x.gates, x.gates[g := Publication.NextGate(GateOf(x, g), Publication.TryCommit(true))])
  {
  }

  lemma GatesOnly(x: System, gates: map<nat, Gate>)
    requires Orderly(x) && GatesAdvance(x.gates, gates)
    ensures Orderly(x.(gates := gates))
  {
    hide ExportsApart, SelectionsApart, ExportCapacity, Finality, GatesAdvance;
    GatesOnlyApart(x, gates);
    GatesOnlyFinal(x, gates);
    GatesOnlySelections(x, gates);
  }

  lemma GatesOnlySelections(x: System, gates: map<nat, Gate>)
    requires SelectionsApart(x)
    ensures SelectionsApart(x.(gates := gates))
  {
  }

  lemma GatesOnlyApart(x: System, gates: map<nat, Gate>)
    requires ExportsApart(x) && GatesAdvance(x.gates, gates)
    ensures ExportsApart(x.(gates := gates))
  {
  }

  lemma GatesOnlyFinal(x: System, gates: map<nat, Gate>)
    requires Finality(x) && GatesAdvance(x.gates, gates)
    ensures Finality(x.(gates := gates))
  {
    var y := x.(gates := gates);
    forall t | t in y.exports.running && y.exports.running[t].owner in y.revoked
      ensures Stopped(y, y.exports.running[t].generation)
    {
      assert Stopped(x, x.exports.running[t].generation);
    }
  }

  lemma LinksOnly(x: System, links: seq<Owner>)
    requires Orderly(x)
    ensures Orderly(x.(links := links))
  {
    hide Total;
  }

  /** The grant a held lock has read becomes a running export. */
  function Promoted(x: System): System
    requires x.holder.ExportLeased?
  {
    var t := x.holder.token;
    x.(holder := Nobody,
       exports := x.exports.(grants := x.exports.grants - {t},
                             running := x.exports.running[t := Running(x.holder.w, x.holder.binding,
                                 x.holder.generation)]))
  }

  predicate Promotable(x: System) {
    && x.holder.ExportLeased? && x.holder.token in x.exports.grants && x.holder.binding.owner == x.holder.w
    && x.exports.grants[x.holder.token].binding == x.holder.binding
    && x.exports.grants[x.holder.token].generation == x.holder.generation
  }

  lemma PromotedApart(x: System)
    requires ExportsApart(x) && Promotable(x)
    ensures ExportsApart(Promoted(x))
  {
  }

  lemma PromotedTotal(x: System)
    requires ExportsApart(x) && Promotable(x)
    ensures Total(Promoted(x).exports) == Total(x.exports)
  {
    var t := x.holder.token;
    hide ExportsApart;
    var y := Promoted(x);
    assert y.exports.grants.Keys == x.exports.grants.Keys - {t};
    assert t !in x.exports.running;
    assert y.exports.running.Keys == x.exports.running.Keys + {t};
  }

  lemma PromotedCapacity(x: System)
    requires ExportsApart(x) && ExportCapacity(x.exports) && Promotable(x)
    ensures ExportCapacity(Promoted(x).exports)
  {
    hide Total, ExportsApart;
    PromotedTotal(x);
    var e, t := x.exports, x.holder.token;
    var w := e.grants[t].binding.owner;
    RunningAdded(e.(grants := e.grants - {t}), t, Running(w, x.holder.binding, x.holder.generation));
  }

  predicate OwnersApart(e: Exports) {
    && (forall q, r :: q in e.pending && r in e.pending && q != r ==> e.pending[q].owner != e.pending[r].owner)
    && (forall t, u :: t in e.grants && u in e.grants && t != u ==>
          e.grants[t].binding.owner != e.grants[u].binding.owner)
    && (forall t, u :: t in e.running && u in e.running && t != u ==> e.running[t].owner != e.running[u].owner)
    && (forall q, t :: q in e.pending && t in e.grants ==> e.pending[q].owner != e.grants[t].binding.owner)
    && (forall q, t :: q in e.pending && t in e.running ==> e.pending[q].owner != e.running[t].owner)
    && (forall t, u :: t in e.grants && u in e.running ==> e.grants[t].binding.owner != e.running[u].owner)
  }

  lemma RunningAdded(e: Exports, t: Token, r: Running)
    requires OwnersApart(e) && !OwnerBusy(e, r.owner)
    ensures OwnersApart(e.(running := e.running[t := r]))
  {
  }

  lemma GrantAdded(e: Exports, t: Token, g: ExportGrant)
    requires OwnersApart(e) && !OwnerBusy(e, g.binding.owner)
    ensures OwnersApart(e.(grants := e.grants[t := g]))
  {
  }

  lemma PromotedFinality(x: System)
    requires Finality(x) && Promotable(x)
    ensures Finality(Promoted(x))
  {
  }

  lemma PromotedSelections(x: System)
    requires SelectionsApart(x) && x.holder.ExportLeased?
    ensures SelectionsApart(Promoted(x)) && HolderSees(Promoted(x))
  {
  }

  lemma PromotedOrderly(x: System)
    requires Orderly(x) && Promotable(x)
    ensures Orderly(Promoted(x))
  {
    hide ExportsApart, SelectionsApart, ExportCapacity, Finality, Promoted, HolderSees;
    PromotedApart(x);
    PromotedCapacity(x);
    PromotedFinality(x);
    PromotedSelections(x);
  }

  lemma ExportOrderly(x: System, a: Action)
    requires Orderly(x) && StepExport(x, a).Some?
    ensures Orderly(StepExport(x, a).value)
  {
    hide Orderly;
    if a.Link? {
      hide StepExport;
      LinkOrderly(x, a.token);
    } else if a.ExportTakesLease? {
      hide StepExport;
      LeaseOrderly(x, a.now, a.lease);
    } else if a.ExportStarts? {
      hide StepExport;
      StartsOrderly(x, a.now);
    } else if a.ExportReadsGrant? && StepExport(x, a).value.exports == x.exports {
      hide StepExport;
      ReadsGrantOrderly(x, a.now);
    } else {
      FewerOrderly(x, StepExport(x, a).value);
    }
  }

  lemma LeaseOrderly(x: System, now: nat, lease: nat)
    requires Orderly(x) && StepExport(x, ExportTakesLease(now, lease)).Some?
    ensures Orderly(StepExport(x, ExportTakesLease(now, lease)).value)
  {
    hide Orderly, Reads.BeginRead, Reads.Step;
    Reads.StepsAge(x.results, Reads.Begin(x.holder.w, x.holder.binding.token, now, lease));
    FewerOrderly(x, StepExport(x, ExportTakesLease(now, lease)).value);
  }

  lemma LeasedByOwner(x: System)
    requires Orderly(x) && x.holder.ExportLeased?
    ensures x.holder.binding.owner == x.holder.w
  {
    hide ExportsApart, SelectionsApart, ExportCapacity, Finality;
  }

  lemma StartsOrderly(x: System, now: nat)
    requires Orderly(x) && StepExport(x, ExportStarts(now)).Some?
    ensures Orderly(StepExport(x, ExportStarts(now)).value)
  {
    hide Orderly, GateOf;
    LeasedByOwner(x);
    var y := StepExport(x, ExportStarts(now)).value;
    if y == x.(holder := Nobody) {
      FewerOrderly(x, y);
    } else {
      PromotedOrderly(x);
    }
  }

  lemma ReadsGrantOrderly(x: System, now: nat)
    requires Orderly(x) && StepExport(x, ExportReadsGrant(now)).Some?
    requires StepExport(x, ExportReadsGrant(now)).value.exports == x.exports
    ensures Orderly(StepExport(x, ExportReadsGrant(now)).value)
  {
    hide SelectionsApart, ExportCapacity;
    var y := StepExport(x, ExportReadsGrant(now)).value;
    assert SelectionsApart(y) && ExportsApart(y) && Finality(y) by {
      HolderOnly(x, y.holder);
    }
    hide ExportsApart, Finality;
    assert x.exports.grants[x.holder.token].generation <= x.exports.nextGeneration by {
      GrantNumbered(x, x.holder.token);
    }
  }

  lemma GrantNumbered(x: System, t: Token)
    requires ExportsApart(x) && t in x.exports.grants
    ensures x.exports.grants[t].generation <= x.exports.nextGeneration
  {
  }

  lemma HolderOnly(x: System, h: Holder)
    requires SelectionsApart(x) && ExportsApart(x) && Finality(x)
    ensures var y := x.(holder := h); SelectionsApart(y) && ExportsApart(y) && Finality(y)
  {
  }

  // --------------------------------------------------------- revocation

  lemma RevokedApart(x: System, p: Binding -> bool)
    requires ExportsApart(x)
    ensures ExportsApart(Revoke(x, p))
  {
    hide GenerationsWhere;
  }

  lemma RevokedTotal(x: System, p: Binding -> bool)
    ensures Total(Revoke(x, p).exports) <= Total(x.exports)
  {
    var y := Revoke(x, p);
    assert y.exports.pending.Keys <= x.exports.pending.Keys;
    assert y.exports.grants.Keys <= x.exports.grants.Keys;
    FewerTotal(x.exports, y.exports);
    hide Total;
  }

  lemma RevokedCapacity(x: System, p: Binding -> bool)
    requires ExportCapacity(x.exports)
    ensures ExportCapacity(Revoke(x, p).exports)
  {
    hide Total, CancelAll, GenerationsWhere;
    RevokedTotal(x, p);
  }

  lemma RevokedSelections(x: System, p: Binding -> bool)
    requires SelectionsApart(x) && HolderSees(x)
    ensures SelectionsApart(Revoke(x, p)) && HolderSees(Revoke(x, p))
  {
    hide CancelAll, GenerationsWhere;
  }

  lemma CancelledStops(gates: map<nat, Gate>, generations: set<nat>, g: nat)
    requires g in gates
    ensures g in CancelAll(gates, generations)
    ensures gates[g].cancelled || gates[g].committed || g in generations ==>
              CancelAll(gates, generations)[g].cancelled || CancelAll(gates, generations)[g].committed
  {
  }

  lemma RevokedFinality(x: System, p: Binding -> bool)
    requires ExportsApart(x) && Finality(x)
    ensures Finality(Revoke(x, p))
  {
    var y := Revoke(x, p);
    forall t | t in y.exports.running && y.exports.running[t].owner in y.revoked
      ensures Stopped(y, y.exports.running[t].generation)
    {
      CancelledStops(x.gates, GenerationsWhere(x.exports, p), x.exports.running[t].generation);
    }
    hide CancelAll, GenerationsWhere, ExportsApart;
  }

  lemma RevokeOrderly(x: System, p: Binding -> bool)
    requires Orderly(x)
    ensures Orderly(Revoke(x, p))
  {
    hide ExportsApart, SelectionsApart, ExportCapacity, Finality, Revoke, HolderSees;
    RevokedApart(x, p);
    RevokedCapacity(x, p);
    RevokedSelections(x, p);
    RevokedFinality(x, p);
  }

  /** Revoking a closed window makes its closing final. */
  lemma WindowRevoked(x: System, w: Owner)
    requires Orderly(x) && Reads.StateOf(x.results.registry, w).closed
    ensures Finality(Revoke(x, OfWindow(w)).(revoked := x.revoked + {w}))
  {
    hide Revoke, OfWindow, ExportsApart, SelectionsApart, ExportCapacity;
    WindowRunsStop(x, w);
    WindowSelectionsLost(x, w);
    RevokedFinality(x, OfWindow(w));
    RevokeSpares(x, OfWindow(w));
  }

  lemma RevokeSpares(x: System, p: Binding -> bool)
    ensures var y := Revoke(x, p);
            y.results == x.results && y.revoked == x.revoked && y.links == x.links && y.selections == x.selections
            && y.holder == x.holder
  {
    hide CancelAll, GenerationsWhere;
  }

  lemma WindowRunsStop(x: System, w: Owner)
    requires ExportsApart(x)
    ensures var y := Revoke(x, OfWindow(w));
            forall t :: t in y.exports.running && y.exports.running[t].owner == w ==>
              Stopped(y, y.exports.running[t].generation)
  {
    var y := Revoke(x, OfWindow(w));
    forall t | t in y.exports.running && y.exports.running[t].owner == w
      ensures Stopped(y, y.exports.running[t].generation)
    {
      var r := x.exports.running[t];
      assert OfWindow(w)(r.binding);
      assert r.generation in GenerationsWhere(x.exports, OfWindow(w));
      CancelledStops(x.gates, GenerationsWhere(x.exports, OfWindow(w)), r.generation);
    }
  }

  lemma WindowSelectionsLost(x: System, w: Owner)
    requires SelectionsApart(x)
    ensures var y := Revoke(x, OfWindow(w));
            && (forall t :: t in y.exports.grants ==> y.exports.grants[t].binding.owner != w)
            && (forall i :: (&& i in y.selections && y.selections[i].owner == w
                             && SequenceOf(y.selections[i].stage).Some?) ==>
                  SequenceOf(y.selections[i].stage).value !in y.exports.pending)
  {
    hide CancelAll, GenerationsWhere;
    var y := Revoke(x, OfWindow(w));
    forall i | i in y.selections && y.selections[i].owner == w && SequenceOf(y.selections[i].stage).Some?
      ensures SequenceOf(y.selections[i].stage).value !in y.exports.pending
    {
      var q := SequenceOf(x.selections[i].stage).value;
      assert q in x.exports.pending ==> OfWindow(w)(x.exports.pending[q]);
    }
  }

  lemma RevokedOnlyMatters(x: System, revoked: set<Owner>)
    requires ExportsApart(x) && SelectionsApart(x) && HolderSees(x) && ExportCapacity(x.exports)
    ensures var y := x.(revoked := revoked);
            ExportsApart(y) && SelectionsApart(y) && HolderSees(y) && ExportCapacity(y.exports)
  {
    hide Total;
  }

  lemma CancelGatesOrderly(x: System, generations: set<nat>)
    requires Orderly(x)
    ensures Orderly(x.(gates := CancelAll(x.gates, generations)))
  {
    hide Total;
    var y := x.(gates := CancelAll(x.gates, generations));
    forall t | t in y.exports.running && y.exports.running[t].owner in y.revoked
      ensures Stopped(y, y.exports.running[t].generation)
    {
      CancelledStops(x.gates, generations, x.exports.running[t].generation);
    }
  }

  lemma RevokeStepOrderly(x: System, a: Action)
    requires Orderly(x) && StepRevoke(x, a).Some?
    ensures Orderly(StepRevoke(x, a).value)
  {
    hide ExportsApart, SelectionsApart, ExportCapacity, Finality, Revoke, HolderSees, CancelAll, OfWindow, OfResult;
    var y := StepRevoke(x, a).value;
    match a
    case CancelExport(w, token) =>
      var generations := if token in x.exports.grants && x.exports.grants[token].binding.owner == w
      then {x.exports.grants[token].generation}
                         else {x.exports.running[token].generation};
      CancelGatesOrderly(x, generations);
      FewerOrderly(x.(gates := CancelAll(x.gates, generations)), y);
    case RevokeWindow(w) =>
      RevokeOrderly(x, OfWindow(w));
      RevokeSpares(x, OfWindow(w));
      if Reads.StateOf(x.results.registry, w).closed {
        WindowRevoked(x, w);
        RevokedOnlyMatters(Revoke(x, OfWindow(w)), x.revoked + {w});
      }
    case RevokeResult(t) => RevokeOrderly(x, OfResult(t));
    case _ =>
  }

  // ---------------------------------------------------------- selections

  /** A selection task appears or advances without touching the export registry. */
  lemma TaskAdvances(x: System, id: nat, task: Selection, results: Reads.World)
    requires Orderly(x)
    requires task.binding.Some? ==> task.binding.value.owner == task.owner
    requires SequenceOf(task.stage).Some? ==>
               && id in x.selections && SequenceOf(x.selections[id].stage) == SequenceOf(task.stage)
               && x.selections[id].binding == task.binding && x.selections[id].owner == task.owner
    requires !(task.stage.Validated? && task.owner in x.revoked)
    requires task.stage.Checked? ==> x.selections[id].stage.Validated?
    requires forall w :: w in x.revoked && Reads.StateOf(x.results.registry, w).closed ==>
               Reads.StateOf(results.registry, w).closed
    ensures Orderly(x.(results := results, selections := x.selections[id := task]))
  {
    hide ExportsApart, ExportCapacity, Total;
    var y := x.(results := results, selections := x.selections[id := task]);
    assert ExportsApart(y) by {
      ApartIgnoresTasks(x, y);
    }
  }

  lemma ApartIgnoresTasks(x: System, y: System)
    requires ExportsApart(x) && y.exports == x.exports && y.gates == x.gates
    ensures ExportsApart(y)
  {
  }

  lemma SnapshotAges(x: System, w: Owner, token: Token, now: nat)
    ensures var s := Reads.SnapshotBinding(x.results.registry, w, token, now).0;
            forall v :: Reads.StateOf(s, v) == Reads.StateOf(x.results.registry, v)
    ensures var r := Reads.SnapshotBinding(x.results.registry, w, token, now).1;
            r.Ok? ==> r.value.owner == w && r.value.token == token && !Reads.StateOf(x.results.registry, w).closed
  {
  }

  /** A pending entry under a new sequence number, for a window with no other export. */
  lemma InsertOrderly(x: System, id: nat, b: Binding)
    requires Orderly(x) && id in x.selections && x.selections[id].binding == Some(b) && x.selections[id].stage.Snapped?
    requires Total(x.exports) < MAX_HISTORY_EXPORTS && !OwnerBusy(x.exports, b.owner)
    ensures var q := x.exports.nextSequence + 1;
            Orderly(x.(exports := x.exports.(nextSequence := q, pending := x.exports.pending[q := b]),
                       selections := x.selections[id := x.selections[id].(stage := Inserted(q))]))
  {
    var q := x.exports.nextSequence + 1;
    var y := x.(exports := x.exports.(nextSequence := q, pending := x.exports.pending[q := b]),
                selections := x.selections[id := x.selections[id].(stage := Inserted(q))]);
    InsertedApart(x, y);
    InsertedCapacity(x.exports, q, b);
    InsertedSelections(x, id, b);
    hide ExportsApart, SelectionsApart, ExportCapacity, Finality;
  }

  lemma InsertedApart(x: System, y: System)
    requires ExportsApart(x) && y.gates == x.gates
    requires y.exports.grants == x.exports.grants && y.exports.running == x.exports.running
    requires y.exports.nextGeneration == x.exports.nextGeneration
    ensures ExportsApart(y)
  {
  }

  lemma InsertedCapacity(e: Exports, q: nat, b: Binding)
    requires ExportCapacity(e) && Total(e) < MAX_HISTORY_EXPORTS && !OwnerBusy(e, b.owner)
    ensures ExportCapacity(e.(nextSequence := q, pending := e.pending[q := b]))
  {
    hide Total;
    InsertedTotal(e, q, b);
  }

  lemma InsertedTotal(e: Exports, q: nat, b: Binding)
    ensures Total(e.(nextSequence := q, pending := e.pending[q := b])) <= Total(e) + 1
  {
    assert e.pending[q := b].Keys == e.pending.Keys + {q};
  }

  lemma InsertedSelections(x: System, id: nat, b: Binding)
    requires SelectionsApart(x) && HolderSees(x) && Finality(x)
    requires id in x.selections && x.selections[id].binding == Some(b) && x.selections[id].stage.Snapped?
    ensures var q := x.exports.nextSequence + 1;
            var y := x.(exports := x.exports.(nextSequence := q, pending := x.exports.pending[q := b]),
                        selections := x.selections[id := x.selections[id].(stage := Inserted(q))]);
            SelectionsApart(y) && HolderSees(y) && Finality(y)
  {
  }

  /** The pending entry of a selection becomes a grant. */
  function GrantedSystem(x: System, id: nat, q: nat, b: Binding, token: Token, expires: nat): System {
    var g := x.exports.nextGeneration + 1;
    x.(exports := x.exports.(pending := x.exports.pending - {q}, nextGeneration := g,
                             grants := x.exports.grants[token := ExportGrant(b, g, expires)]),
       gates := x.gates[g := Publication.OPEN_GATE], selections := x.selections - {id})
  }

  predicate Grantable(x: System, id: nat, q: nat, b: Binding, token: Token) {
    && id in x.selections && x.selections[id].stage == Checked(q) && x.selections[id].binding == Some(b)
    && q in x.exports.pending && x.exports.pending[q] == b && token !in x.exports.grants && token !in x.exports.running
  }

  lemma GrantedApart(x: System, id: nat, q: nat, b: Binding, token: Token, expires: nat)
    requires ExportsApart(x) && Grantable(x, id, q, b, token)
    ensures ExportsApart(GrantedSystem(x, id, q, b, token, expires))
  {
  }

  lemma GrantedTotal(x: System, id: nat, q: nat, b: Binding, token: Token, expires: nat)
    requires Grantable(x, id, q, b, token)
    ensures Total(GrantedSystem(x, id, q, b, token, expires).exports) == Total(x.exports)
  {
    KeyRemoved(x.exports.pending, q);
    KeyAdded(x.exports.grants, token, ExportGrant(b, x.exports.nextGeneration + 1, expires));
  }

  lemma KeyRemoved<K, V>(m: map<K, V>, k: K)
    requires k in m
    ensures |m - {k}| == |m| - 1
  {
    assert (m - {k}).Keys == m.Keys - {k};
  }

  lemma KeyAdded<K, V>(m: map<K, V>, k: K, v: V)
    requires k !in m
    ensures |m[k := v]| == |m| + 1
  {
    assert m[k := v].Keys == m.Keys + {k};
  }

  lemma GrantedCapacity(x: System, id: nat, q: nat, b: Binding, token: Token, expires: nat)
    requires ExportCapacity(x.exports) && Grantable(x, id, q, b, token)
    ensures ExportCapacity(GrantedSystem(x, id, q, b, token, expires).exports)
  {
    hide Total;
    GrantedTotal(x, id, q, b, token, expires);
    var e := x.exports;
    GrantAdded(e.(pending := e.pending - {q}), token, ExportGrant(b, e.nextGeneration + 1, expires));
  }

  lemma GrantedSelections(x: System, id: nat, q: nat, b: Binding, token: Token, expires: nat)
    requires SelectionsApart(x) && HolderSees(x) && Grantable(x, id, q, b, token)
    ensures SelectionsApart(GrantedSystem(x, id, q, b, token, expires))
            && HolderSees(GrantedSystem(x, id, q, b, token, expires))
  {
  }

  lemma GrantedFinality(x: System, id: nat, q: nat, b: Binding, token: Token, expires: nat)
    requires ExportsApart(x) && SelectionsApart(x) && Finality(x) && Grantable(x, id, q, b, token)
    ensures Finality(GrantedSystem(x, id, q, b, token, expires))
  {
    assert b.owner !in x.revoked;
    assert forall t :: t in x.exports.running ==> x.exports.running[t].generation <= x.exports.nextGeneration;
    hide ExportsApart, SelectionsApart;
  }

  lemma GrantedOrderly(x: System, id: nat, q: nat, b: Binding, token: Token, expires: nat)
    requires Orderly(x) && Grantable(x, id, q, b, token)
    ensures Orderly(GrantedSystem(x, id, q, b, token, expires))
  {
    hide ExportsApart, SelectionsApart, ExportCapacity, Finality, HolderSees, GrantedSystem, Grantable;
    GrantedApart(x, id, q, b, token, expires);
    GrantedCapacity(x, id, q, b, token, expires);
    GrantedSelections(x, id, q, b, token, expires);
    GrantedFinality(x, id, q, b, token, expires);
  }

  lemma TaskOwned(x: System, id: nat)
    requires Orderly(x) && id in x.selections
    ensures x.selections[id].binding.Some? ==> x.selections[id].binding.value.owner == x.selections[id].owner
    ensures x.selections[id].owner in x.revoked ==> Reads.StateOf(x.results.registry, x.selections[id].owner).closed
  {
  }

  lemma SelectOrderly(x: System, a: Action)
    requires Orderly(x) && StepSelect(x, a).Some?
    ensures Orderly(StepSelect(x, a).value)
  {
    hide Orderly, Reads.SnapshotBinding, Total, OwnerBusy, FreshExportToken, Idle, Fewer;
    var y := StepSelect(x, a).value;
    match a
    case SelectAsk(id, w, token) => TaskAdvances(x, id, Selection(w, None, Asked(token)), x.results);
    case SelectSnapshot(id, now) => SnapshotOrderly(x, id, now);
    case SelectInsert(id, now) => InsertStepOrderly(x, id, now);
    case SelectValidate(id, now) => ValidateOrderly(x, id, now);
    case SelectCheck(id) =>
      TaskOwned(x, id);
      TaskAdvances(x, id, x.selections[id].(stage := Checked(x.selections[id].stage.sequence)), x.results);
    case SelectGrant(id, now, candidates) =>
      var task := x.selections[id];
      var token := FreshExportToken(x.exports, candidates).value;
      GrantedOrderly(x, id, task.stage.sequence, task.binding.value, token, now + HISTORY_EXPORT_TOKEN_TTL);
    case SelectDrop(id) =>
      DropFewer(x, id);
      FewerOrderly(x, y);
    case _ =>
  }

  lemma DropFewer(x: System, id: nat)
    requires StepSelect(x, SelectDrop(id)).Some?
    ensures Fewer(x, StepSelect(x, SelectDrop(id)).value)
  {
  }

  lemma SnapshotOrderly(x: System, id: nat, now: nat)
    requires Orderly(x) && StepSelect(x, SelectSnapshot(id, now)).Some?
    ensures Orderly(StepSelect(x, SelectSnapshot(id, now)).value)
  {
    hide Orderly, Reads.SnapshotBinding;
    var task := x.selections[id];
    var (s, r) := Reads.SnapshotBinding(x.results.registry, task.owner, task.stage.token, now);
    SnapshotAges(x, task.owner, task.stage.token, now);
    if r.Ok? {
      TaskAdvances(x, id, Selection(task.owner, Some(r.value), Snapped), x.results.(registry := s));
    } else {
      FewerOrderly(x, StepSelect(x, SelectSnapshot(id, now)).value);
    }
  }

  lemma ValidateOrderly(x: System, id: nat, now: nat)
    requires Orderly(x) && StepSelect(x, SelectValidate(id, now)).Some?
    ensures Orderly(StepSelect(x, SelectValidate(id, now)).value)
  {
    hide Orderly, Reads.SnapshotBinding;
    var task := x.selections[id];
    var (s, r) := Reads.SnapshotBinding(x.results.registry, task.owner, task.binding.value.token, now);
    SnapshotAges(x, task.owner, task.binding.value.token, now);
    TaskOwned(x, id);
    if r == Ok(task.binding.value) {
      TaskAdvances(x, id, task.(stage := Validated(task.stage.sequence)), x.results.(registry := s));
    } else {
      FewerOrderly(x, StepSelect(x, SelectValidate(id, now)).value);
    }
  }

  lemma InsertStepOrderly(x: System, id: nat, now: nat)
    requires Orderly(x) && StepSelect(x, SelectInsert(id, now)).Some?
    ensures Orderly(StepSelect(x, SelectInsert(id, now)).value)
  {
    hide Orderly, Total, OwnerBusy, Reads.SnapshotBinding;
    var pruned := PruneExports(x.exports, now);
    var y := StepSelect(x, SelectInsert(id, now)).value;
    FewerOrderly(x, x.(exports := pruned));
    TaskOwned(x, id);
    if Total(pruned) >= MAX_HISTORY_EXPORTS || OwnerBusy(pruned, x.selections[id].owner) {
      FewerOrderly(x, y);
    } else {
      InsertOrderly(x.(exports := pruned), id, x.selections[id].binding.value);
    }
  }

  lemma StepOrderly(x: System, a: Action)
    requires Orderly(x) && Step(x, a).Some?
    ensures Orderly(Step(x, a).value)
  {
    hide Orderly, Fewer, StepScan, StepMutation, StepRead, StepExport, StepRevoke, StepSelect;
    match a
    case Read(r) => ReadFewer(x, r); FewerOrderly(x, Step(x, a).value);
    case LockForScan | ScanChecksExports | ScanStarts | ScanEnds => ScanFewer(x, a); FewerOrderly(x, Step(x, a).value);
    case LockForMutation(_) | MutationChecksExports | MutationStarts(_) | MutationEnds(_) =>
      MutationFewer(x, a);
      FewerOrderly(x, Step(x, a).value);
    case CancelExport(_, _) | RevokeWindow(_) | RevokeResult(_) => RevokeStepOrderly(x, a);
    case SelectAsk(_, _, _) | SelectSnapshot(_, _) | SelectInsert(_, _) | SelectValidate(_, _) | SelectCheck(_)
       | SelectGrant(_, _, _) | SelectDrop(_) => SelectOrderly(x, a);
    case _ => ExportOrderly(x, a);
  }

  lemma ScanFewer(x: System, a: Action)
    requires StepScan(x, a).Some?
    ensures Fewer(x, StepScan(x, a).value)
  {
  }

  lemma MutationFewer(x: System, a: Action)
    requires StepMutation(x, a).Some?
    ensures Fewer(x, StepMutation(x, a).value)
  {
  }

  lemma ReadFewer(x: System, r: Reads.Action)
    requires StepRead(x, r).Some?
    ensures Fewer(x, StepRead(x, r).value)
  {
    hide Reads.Step, Reads.Possible;
    Reads.StepsAge(x.results, r);
  }

  // --------------------------------------------------------------- runs

  function Run(x: System, actions: seq<Action>): Option<System> {
    if actions == [] then Some(x)
    else
      var before := Run(x, actions[..|actions| - 1]);
      if before.None? then None else Step(before.value, actions[|actions| - 1])
  }

  lemma StartOrderly()
    ensures Exclusive(Start()) && Orderly(Start())
  {
  }

  lemma {:induction false} RunsKeepOrder(x: System, actions: seq<Action>)
    requires Exclusive(x) && Orderly(x) && Run(x, actions).Some?
    ensures Exclusive(Run(x, actions).value) && Orderly(Run(x, actions).value)
  {
    hide Exclusive, Orderly, Step;
    if actions != [] {
      var before := Run(x, actions[..|actions| - 1]).value;
      RunsKeepOrder(x, actions[..|actions| - 1]);
      StepExclusive(before, actions[|actions| - 1]);
      StepOrderly(before, actions[|actions| - 1]);
    }
  }

  lemma OneActivity(x: System)
    requires Exclusive(x)
    ensures !(x.scanning && x.exports.running != map[]) && !(x.scanning && x.mutation.Some?)
    ensures !(x.exports.running != map[] && x.mutation.Some?)
    ensures |x.permits| <= 1 && (x.mutation.Some? <==> |x.permits| == 1)
  {
    if x.permits != map[] {
      var p :| p in x.permits;
      assert x.permits.Keys == {p};
    }
  }

  /** In every reachable state at most one kind of activity is going on, and at most one mutation permit is out,
      although exports and mutations end without the job registry lock. */
  lemma ActivitiesExclude(actions: seq<Action>)
    requires Run(Start(), actions).Some?
    ensures var x := Run(Start(), actions).value;
            && !(x.scanning && x.exports.running != map[]) && !(x.scanning && x.mutation.Some?)
            && !(x.exports.running != map[] && x.mutation.Some?)
            && |x.permits| <= 1 && (x.mutation.Some? <==> |x.permits| == 1)
  {
    hide Run, Orderly, Exclusive;
    StartOrderly();
    RunsKeepOrder(Start(), actions);
    OneActivity(Run(Start(), actions).value);
  }

  /** In every reachable state at most four exports are selected, granted or running, no two of one window. */
  lemma ExportsWithinCapacity(actions: seq<Action>)
    requires Run(Start(), actions).Some?
    ensures ExportCapacity(Run(Start(), actions).value.exports)
  {
    StartOrderly();
    hide Run, Exclusive, ExportsApart, SelectionsApart, Finality, ExportCapacity;
    RunsKeepOrder(Start(), actions);
  }

  predicate LinksSince(x: System, y: System, w: Owner) {
    && |x.links| <= |y.links| && y.links[..|x.links|] == x.links
    && forall i :: |x.links| <= i < |y.links| ==> y.links[i] != w
  }

  lemma OthersLinkNothing(x: System, a: Action)
    requires Step(x, a).Some? && !a.Link?
    ensures Step(x, a).value.links == x.links && x.revoked <= Step(x, a).value.revoked
  {
    hide StepExport, StepSelect, Revoke, Reads.Step, Reads.Possible, CancelAll;
    match a
    case Read(_) =>
    case LockForScan | ScanChecksExports | ScanStarts | ScanEnds =>
    case LockForMutation(_) | MutationChecksExports | MutationStarts(_) | MutationEnds(_) =>
    case CancelExport(_, _) =>
    case RevokeWindow(v) => RevokeSpares(x, OfWindow(v));
    case RevokeResult(t) => RevokeSpares(x, OfResult(t));
    case SelectAsk(_, _, _) | SelectSnapshot(_, _) | SelectInsert(_, _) | SelectValidate(_, _) | SelectCheck(_)
       | SelectGrant(_, _, _) | SelectDrop(_) => SelectLinksNothing(x, a);
    case _ => ExportLinksNothing(x, a);
  }

  lemma SelectLinksNothing(x: System, a: Action)
    requires StepSelect(x, a).Some?
    ensures StepSelect(x, a).value.links == x.links && StepSelect(x, a).value.revoked == x.revoked
  {
    hide Reads.SnapshotBinding, Total, OwnerBusy, FreshExportToken, Idle, PruneExports;
  }

  lemma ExportLinksNothing(x: System, a: Action)
    requires StepExport(x, a).Some? && !a.Link?
    ensures StepExport(x, a).value.links == x.links && StepExport(x, a).value.revoked == x.revoked
  {
    hide Reads.Step, Reads.BeginRead, GateOf;
  }

  lemma StepLinks(x: System, a: Action, w: Owner)
    requires Orderly(x) && w in x.revoked && Step(x, a).Some?
    ensures LinksSince(x, Step(x, a).value, w) && w in Step(x, a).value.revoked
  {
    hide ExportsApart, SelectionsApart, ExportCapacity, HolderSees;
    if a.Link? {
      assert x.exports.running[a.token].owner == w ==> Stopped(x, x.exports.running[a.token].generation);
    } else {
      OthersLinkNothing(x, a);
      hide Step;
    }
  }

  lemma {:induction false} ClosedWindowNeverLinks(x: System, actions: seq<Action>, w: Owner)
    requires Exclusive(x) && Orderly(x) && w in x.revoked && Run(x, actions).Some?
    ensures LinksSince(x, Run(x, actions).value, w) && w in Run(x, actions).value.revoked
  {
    hide Exclusive, Orderly, Step;
    if actions != [] {
      var init := actions[..|actions| - 1];
      ClosedWindowNeverLinks(x, init, w);
      RunsKeepOrder(x, init);
      StepLinks(Run(x, init).value, actions[|actions| - 1], w);
    }
  }

  predicate Closed(x: System, w: Owner) { Reads.StateOf(x.results.registry, w).closed }

  lemma ExportKeepsClosed(x: System, a: Action, w: Owner)
    requires StepExport(x, a).Some? && Closed(x, w)
    ensures Closed(StepExport(x, a).value, w)
  {
    hide Reads.Step, Reads.BeginRead, GateOf;
    if a.ExportTakesLease? {
      Reads.StepsAge(x.results, Reads.Begin(x.holder.w, x.holder.binding.token, a.now, a.lease));
    }
  }

  lemma SelectKeepsClosed(x: System, a: Action, w: Owner)
    requires StepSelect(x, a).Some? && Closed(x, w)
    ensures Closed(StepSelect(x, a).value, w)
  {
    hide Reads.SnapshotBinding, Total, OwnerBusy, FreshExportToken, Idle;
    if a.SelectSnapshot? {
      SnapshotAges(x, x.selections[a.id].owner, x.selections[a.id].stage.token, a.now);
    }
    if a.SelectValidate? {
      SnapshotAges(x, x.selections[a.id].owner, x.selections[a.id].binding.value.token, a.now);
    }
  }

  lemma RevokeKeepsClosed(x: System, a: Action, w: Owner)
    requires StepRevoke(x, a).Some? && Closed(x, w)
    ensures Closed(StepRevoke(x, a).value, w)
  {
    hide Revoke, CancelAll;
    match a
    case RevokeWindow(v) => RevokeSpares(x, OfWindow(v));
    case RevokeResult(t) => RevokeSpares(x, OfResult(t));
    case _ =>
  }

  lemma StepKeepsClosed(x: System, a: Action, w: Owner)
    requires Step(x, a).Some? && Closed(x, w)
    ensures Closed(Step(x, a).value, w)
  {
    hide StepExport, StepSelect, StepRevoke, Reads.Step, Reads.Possible;
    match a
    case Read(r) => Reads.StepsAge(x.results, r);
    case LockForScan | ScanChecksExports | ScanStarts | ScanEnds =>
    case LockForMutation(_) | MutationChecksExports | MutationStarts(_) | MutationEnds(_) =>
    case CancelExport(_, _) | RevokeWindow(_) | RevokeResult(_) => RevokeKeepsClosed(x, a, w);
    case SelectAsk(_, _, _) | SelectSnapshot(_, _) | SelectInsert(_, _) | SelectValidate(_, _) | SelectCheck(_)
       | SelectGrant(_, _, _) | SelectDrop(_) => SelectKeepsClosed(x, a, w);
    case _ => ExportKeepsClosed(x, a, w);
  }

  lemma {:induction false} RunKeepsClosed(x: System, actions: seq<Action>, w: Owner)
    requires Run(x, actions).Some? && Closed(x, w)
    ensures Closed(Run(x, actions).value, w)
  {
    hide Step, Closed;
    if actions != [] {
      RunKeepsClosed(x, actions[..|actions| - 1], w);
      StepKeepsClosed(Run(x, actions[..|actions| - 1]).value, actions[|actions| - 1], w);
    }
  }

  lemma ClosingCloses(x: System, w: Owner)
    ensures var y := Step(x, Read(Reads.CloseWindow(w)));
            y.Some? && Closed(y.value, w)
  {
  }

  /** What no window has once it is closed for good. */
  lemma FinalMeans(x: System, w: Owner, token: Token, run: int, p: Reads.Permit, source: nat, candidates: seq<Token>,
                   now: nat)
    requires Finality(x) && w in x.revoked && p.owner == w
    ensures forall t :: t in x.exports.grants ==> x.exports.grants[t].binding.owner != w
    ensures forall t :: t in x.exports.running && x.exports.running[t].owner == w ==>
              Stopped(x, x.exports.running[t].generation)
    ensures var s := x.results.registry;
            && Reads.BeginOpen(s, w, run, now).1.Err? && Reads.Issue(s, p, source, now, candidates).1.Err?
            && Reads.BeginRead(s, w, token, now).1.Err? && Reads.SnapshotBinding(s, w, token, now).1.Err?
  {
    hide Reads.TokensOf, Reads.TokensFor, Reads.OpensOf, Reads.OpensOfOthers, Reads.FreshToken;
  }

  /** Closing a window is final. Whatever was half finished, and whatever happens between its two short locks and
      afterwards: no target is linked for it any more, it keeps no export grant, every export it still runs is
      cancelled or was already committed, and no result token is opened, issued, read or snapshotted for it. */
  lemma WindowCloseIsFinal(first: seq<Action>, between: seq<Action>, later: seq<Action>, w: Owner,
                           token: Token, run: int, p: Reads.Permit, source: nat, candidates: seq<Token>, now: nat)
    requires Run(Start(), first).Some? && p.owner == w
    requires var marked := Step(Run(Start(), first).value, Read(Reads.CloseWindow(w)));
             && marked.Some? && Run(marked.value, between).Some?
             && var revoked := Step(Run(marked.value, between).value, RevokeWindow(w));
                revoked.Some? && Run(revoked.value, later).Some?
    ensures var marked := Step(Run(Start(), first).value, Read(Reads.CloseWindow(w))).value;
            var returned := Step(Run(marked, between).value, RevokeWindow(w)).value;
            var x := Run(returned, later).value;
            && LinksSince(returned, x, w)
            && (forall t :: t in x.exports.grants ==> x.exports.grants[t].binding.owner != w)
            && (forall t :: t in x.exports.running && x.exports.running[t].owner == w ==>
                  Stopped(x, x.exports.running[t].generation))
            && var s := x.results.registry;
               && Reads.BeginOpen(s, w, run, now).1.Err? && Reads.Issue(s, p, source, now, candidates).1.Err?
               && Reads.BeginRead(s, w, token, now).1.Err? && Reads.SnapshotBinding(s, w, token, now).1.Err?
  {
    hide Step, Run, Exclusive, ExportsApart, SelectionsApart, ExportCapacity, Finality, HolderSees, LinksSince, Stopped,
         Reads.BeginOpen, Reads.Issue, Reads.BeginRead, Reads.SnapshotBinding, Closed;
    var start := Run(Start(), first).value;
    StartOrderly();
    RunsKeepOrder(Start(), first);
    var marked := Step(start, Read(Reads.CloseWindow(w))).value;
    ClosingCloses(start, w);
    StepExclusive(start, Read(Reads.CloseWindow(w)));
    StepOrderly(start, Read(Reads.CloseWindow(w)));
    RunsKeepOrder(marked, between);
    RunKeepsClosed(marked, between, w);
    var ready := Run(marked, between).value;
    var returned := Step(ready, RevokeWindow(w)).value;
    RevokeMarks(ready, w);
    StepExclusive(ready, RevokeWindow(w));
    StepOrderly(ready, RevokeWindow(w));
    ClosedWindowNeverLinks(returned, later, w);
    RunsKeepOrder(returned, later);
    FinalMeans(Run(returned, later).value, w, token, run, p, source, candidates, now);
  }

  lemma RevokeMarks(x: System, w: Owner)
    requires Closed(x, w) && Step(x, RevokeWindow(w)).Some?
    ensures w in Step(x, RevokeWindow(w)).value.revoked
  {
    hide Revoke;
  }
}
