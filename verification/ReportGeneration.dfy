/**
 Report generation under the keyed lock: what a request does between taking and releasing the
 lock of its key, interleaved with every other request and with changes to the ledger.
 */
module ReportGeneration {
  import opened GenerationLock

  /** What a report is made from: the financial snapshot, the model's name and the digest of the
      whole provider configuration. */
  datatype Facts = Facts(snapshot: nat, model: nat, revision: nat)

  datatype Report = Report(key: Key, facts: Facts)

  /** How far the holder of a lock has got. */
  datatype Stage = Start | Loaded(facts: Facts) | Calling(facts: Facts) | Done

  /** `facts` is what a request for the key would read now; a key without facts has no usable
      provider.  `reports` are the completed reports in the order of their completion, `calls`
      the keys for which a provider was called. */
  datatype Service = Service(table: Table, stage: map<Thread, Stage>, facts: map<Key, Facts>,
                             reports: seq<Report>, calls: seq<Key>)

  datatype Op =
    | Register(t: Thread, key: Key) | Acquire(t: Thread) | Release(t: Thread) | Unregister(t: Thread)
    | Load(t: Thread) | Lookup(t: Thread) | Finish(t: Thread, ok: bool) | GiveUp(t: Thread)
    | Change(key: Key, facts: Facts) | Disable(key: Key)

  /** The newest completed report of the key and model. */
  function Reusable(reports: seq<Report>, key: Key, model: nat): seq<Facts>
    decreases |reports|
  {
    if reports == [] then []
    else
      var last := reports[|reports| - 1];
      if last.key == key && last.facts.model == model then [last.facts]
      else Reusable(reports[..|reports| - 1], key, model)
  }

  predicate Working(s: Service, t: Thread) {
    Holds(s.table, t) && t in s.stage
  }

  /** Reads the provider again and builds the snapshot. */
  function LoadStep(s: Service, t: Thread): Service
    requires Working(s, t)
  {
    var key := s.table.phase[t].key;
    s.(stage := s.stage[t := if key in s.facts then Loaded(s.facts[key]) else Done])
  }

  /** Reuses the newest matching report only if snapshot and revision agree; else calls. */
  function LookupStep(s: Service, t: Thread): Service
    requires Working(s, t) && s.stage[t].Loaded?
  {
    var key, f := s.table.phase[t].key, s.stage[t].facts;
    var cached := Reusable(s.reports, key, f.model);
    if cached != [] && cached[0].snapshot == f.snapshot && cached[0].revision == f.revision
    then s.(stage := s.stage[t := Done])
    else s.(stage := s.stage[t := Calling(f)], calls := s.calls + [key])
  }

  function FinishStep(s: Service, t: Thread, ok: bool): Service
    requires Working(s, t) && s.stage[t].Calling?
  {
    s.(stage := s.stage[t := Done],
       reports := if ok then s.reports + [Report(s.table.phase[t].key, s.stage[t].facts)] else s.reports)
  }

  /** A step that is not possible now leaves everything as it is: its request waits. */
  function Step(s: Service, op: Op): Service {
    match op
    case Register(t, key) =>
      if t !in s.table.phase && (key in s.table.entries ==> s.table.entries[key] in s.table.refs)
      then s.(table := Registered(s.table, t, key)) else s
    case Acquire(t) =>
      if CanAcquire(s.table, t) then s.(table := Acquired(s.table, t), stage := s.stage[t := Start]) else s
    case Release(t) =>
      if Working(s, t) && s.stage[t].Done? then s.(table := Released(s.table, t), stage := s.stage - {t}) else s
    case Unregister(t) =>
      if CanUnregister(s.table, t) then s.(table := Unregistered(s.table, t)) else s
    case Load(t) => if Working(s, t) && s.stage[t].Start? then LoadStep(s, t) else s
    case Lookup(t) => if Working(s, t) && s.stage[t].Loaded? then LookupStep(s, t) else s
    case Finish(t, ok) => if Working(s, t) && s.stage[t].Calling? then FinishStep(s, t, ok) else s
    case GiveUp(t) => if Working(s, t) then s.(stage := s.stage[t := Done]) else s
    case Change(key, f) => s.(facts := s.facts[key := f])
    case Disable(key) => s.(facts := s.facts - {key})
  }

  function Run(s: Service, ops: seq<Op>): Service
    decreases |ops|
  {
    if ops == [] then s else Run(Step(s, ops[0]), ops[1..])
  }

  /** The lock table is sound, and exactly the holders have a stage. */
  ghost predicate ServiceOk(s: Service) {
    Inv(s.table) && forall t :: t in s.stage <==> Holds(s.table, t)
  }

  lemma StepKeepsService(s: Service, op: Op)
    requires ServiceOk(s)
    ensures ServiceOk(Step(s, op))
  {
    match op
    case Register(t, key) =>
      if t !in s.table.phase && (key in s.table.entries ==> s.table.entries[key] in s.table.refs) {
        RegisterKeepsCounts(s.table, t, key);
        RegisterKeepsThreads(s.table, t, key);
      }
    case Acquire(t) => if CanAcquire(s.table, t) { AcquireKeepsInv(s.table, t); }
    case Release(t) => if Holds(s.table, t) { ReleaseKeepsInv(s.table, t); }
    case Unregister(t) =>
      if CanUnregister(s.table, t) {
        UnregisterKeepsCounts(s.table, t);
        UnregisterKeepsThreads(s.table, t);
      }
    case _ =>
  }

  lemma {:induction false} RunKeepsService(s: Service, ops: seq<Op>)
    requires ServiceOk(s)
    ensures ServiceOk(Run(s, ops))
    decreases |ops|
  {
    if ops != [] {
      StepKeepsService(s, ops[0]);
      RunKeepsService(Step(s, ops[0]), ops[1..]);
    }
  }

  // ---- one provider call ----

  function CallsFor(calls: seq<Key>, key: Key): nat {
    if calls == [] then 0
    else CallsFor(calls[..|calls| - 1], key) + if calls[|calls| - 1] == key then 1 else 0
  }

  /** A report of the current facts is the newest of its key and model, and the holder of the key,
      if any, has nothing else in hand. */
  ghost predicate Settled(s: Service, key: Key, f: Facts) {
    && key in s.facts && s.facts[key] == f
    && Reusable(s.reports, key, f.model) == [f]
    && forall t :: t in s.stage && Holds(s.table, t) && s.table.phase[t].key == key ==>
         s.stage[t] in {Start, Loaded(f), Done}
  }

  /** The first call that completes on facts still current settles the key. */
  lemma FirstCompletionSettles(s: Service, t: Thread)
    requires ServiceOk(s) && Working(s, t) && s.stage[t].Calling?
    requires s.table.phase[t].key in s.facts && s.facts[s.table.phase[t].key] == s.stage[t].facts
    ensures Settled(Step(s, Finish(t, true)), s.table.phase[t].key, s.stage[t].facts)
  {
    forall u | Holds(s.table, u) && s.table.phase[u].key == s.table.phase[t].key ensures u == t {
      OneHolderPerKey(s.table, u, t);
    }
  }

  lemma CallsForAppended(calls: seq<Key>, k: Key, key: Key)
    ensures CallsFor(calls + [k], key) == CallsFor(calls, key) + if k == key then 1 else 0
  {
    assert (calls + [k])[..|calls|] == calls;
  }

  lemma ReusableAppended(reports: seq<Report>, r: Report, key: Key, model: nat)
    ensures Reusable(reports + [r], key, model)
         == if r.key == key && r.facts.model == model then [r.facts] else Reusable(reports, key, model)
  {
    assert (reports + [r])[..|reports|] == reports;
  }

  predicate Alters(op: Op, key: Key) {
    (op.Change? || op.Disable?) && op.key == key
  }

  lemma LookupStaysSettled(s: Service, t: Thread, key: Key, f: Facts)
    requires ServiceOk(s) && Settled(s, key, f) && Working(s, t) && s.stage[t].Loaded?
    ensures Settled(LookupStep(s, t), key, f) && CallsFor(LookupStep(s, t).calls, key) == CallsFor(s.calls, key)
  {
    CallsForAppended(s.calls, s.table.phase[t].key, key);
  }

  lemma FinishStaysSettled(s: Service, t: Thread, ok: bool, key: Key, f: Facts)
    requires ServiceOk(s) && Settled(s, key, f) && Working(s, t) && s.stage[t].Calling?
    ensures Settled(FinishStep(s, t, ok), key, f) && FinishStep(s, t, ok).calls == s.calls
  {
    ReusableAppended(s.reports, Report(s.table.phase[t].key, s.stage[t].facts), key, f.model);
  }

  lemma StaysSettled(s: Service, op: Op, key: Key, f: Facts)
    requires ServiceOk(s) && Settled(s, key, f) && !Alters(op, key)
    ensures Settled(Step(s, op), key, f) && CallsFor(Step(s, op).calls, key) == CallsFor(s.calls, key)
  {
    match op
    case Lookup(t) =>
      if Working(s, t) && s.stage[t].Loaded? { LookupStaysSettled(s, t, key, f); }
    case Finish(t, ok) =>
      if Working(s, t) && s.stage[t].Calling? { FinishStaysSettled(s, t, ok, key, f); }
    case _ =>
  }

  /** Once one call has completed, any number of identical requests over unchanged facts and an
      unchanged provider make no further call, in every interleaving with each other and with
      requests for other keys. */
  lemma {:induction false} NoSecondCall(s: Service, ops: seq<Op>, key: Key, f: Facts)
    requires ServiceOk(s) && Settled(s, key, f)
    requires forall i :: 0 <= i < |ops| ==> !Alters(ops[i], key)
    ensures Settled(Run(s, ops), key, f) && CallsFor(Run(s, ops).calls, key) == CallsFor(s.calls, key)
    decreases |ops|
  {
    if ops != [] {
      StepKeepsService(s, ops[0]);
      StaysSettled(s, ops[0], key, f);
      NoSecondCall(Step(s, ops[0]), ops[1..], key, f);
    }
  }

  /** A cached report is given out only while nothing it was made from has changed. */
  lemma ReuseIsCurrent(s: Service, t: Thread)
    requires Working(s, t) && s.stage[t].Loaded?
    ensures var key, f := s.table.phase[t].key, s.stage[t].facts;
            Step(s, Lookup(t)).calls == s.calls <==> Reusable(s.reports, key, f.model) == [f]
  {
    ReusableHasModel(s.reports, s.table.phase[t].key, s.stage[t].facts.model);
  }

  lemma {:induction false} ReusableHasModel(reports: seq<Report>, key: Key, model: nat)
    ensures var found := Reusable(reports, key, model);
            |found| <= 1 && (found != [] ==> found[0].model == model && Report(key, found[0]) in reports)
    decreases |reports|
  {
    if reports != [] {
      ReusableHasModel(reports[..|reports| - 1], key, model);
    }
  }

  // ---- what each step does, apart from how it is computed ----

  /** The holder of a key has got this far. */
  ghost predicate At(s: Service, t: Thread, stage: Stage) {
    t in s.table.phase && s.table.phase[t].Holding? && t in s.stage && s.stage[t] == stage
  }

  /** A report is kept exactly when a provider call of the holder of its key has succeeded, and is made
      from the facts that were sent. */
  lemma ReportsAreEarned(s: Service, op: Op)
    ensures Step(s, op).reports == s.reports
            || exists t, f :: op == Finish(t, true) && At(s, t, Calling(f))
                 && Step(s, op).reports == s.reports + [Report(s.table.phase[t].key, f)]
    ensures forall t, f :: op == Finish(t, true) && At(s, t, Calling(f)) ==>
              Step(s, op).reports == s.reports + [Report(s.table.phase[t].key, f)]
    ensures forall t :: op == Finish(t, false) ==> Step(s, op).reports == s.reports
  {
  }

  /** A provider is called exactly when the holder of a key looks for a report of the facts it has loaded
      and the newest one of the key and model is not made from them; the facts loaded are sent. */
  lemma CallsAreNeeded(s: Service, op: Op)
    ensures Step(s, op).calls == s.calls
            || exists t, f :: op == Lookup(t) && At(s, t, Loaded(f)) && !NewestIs(s.reports, s.table.phase[t].key, f)
                 && Step(s, op).calls == s.calls + [s.table.phase[t].key] && At(Step(s, op), t, Calling(f))
    ensures forall t, f :: op == Lookup(t) && At(s, t, Loaded(f)) ==>
              if NewestIs(s.reports, s.table.phase[t].key, f)
              then Step(s, op).calls == s.calls && At(Step(s, op), t, Done)
              else Step(s, op).calls == s.calls + [s.table.phase[t].key] && At(Step(s, op), t, Calling(f))
  {
    if op.Lookup? && Working(s, op.t) && s.stage[op.t].Loaded? {
      NewestIsReusable(s.reports, s.table.phase[op.t].key, s.stage[op.t].facts);
    }
  }

  /** The last report of the key and the model was made from facts `f`. */
  ghost predicate NewestIs(reports: seq<Report>, key: Key, f: Facts) {
    exists i :: 0 <= i < |reports| && reports[i] == Report(key, f)
      && forall j :: i < j < |reports| ==> reports[j].key != key || reports[j].facts.model != f.model
  }

  lemma {:induction false} NewestIsReusable(reports: seq<Report>, key: Key, f: Facts)
    ensures NewestIs(reports, key, f) <==> Reusable(reports, key, f.model) == [f]
    ensures var found := Reusable(reports, key, f.model);
            found != [] && found[0].snapshot == f.snapshot && found[0].revision == f.revision <==> found == [f]
    decreases |reports|
  {
    ReusableHasModel(reports, key, f.model);
    if reports != [] {
      var n := |reports| - 1;
      var init, last := reports[..n], reports[n];
      NewestIsReusable(init, key, f);
      if last.key == key && last.facts.model == f.model {
        assert last.facts == f ==> reports[n] == Report(key, f);
      } else {
        if NewestIs(init, key, f) {
          var i :| 0 <= i < n && init[i] == Report(key, f)
                   && forall j :: i < j < n ==> init[j].key != key || init[j].facts.model != f.model;
          forall j | i < j < |reports| ensures reports[j].key != key || reports[j].facts.model != f.model {
            assert j < n ==> reports[j] == init[j];
          }
          assert reports[i] == Report(key, f);
        }
        if NewestIs(reports, key, f) {
          var i :| 0 <= i < |reports| && reports[i] == Report(key, f)
                   && forall j :: i < j < |reports| ==> reports[j].key != key || reports[j].facts.model != f.model;
          assert init[i] == reports[i] && forall j :: i < j < n ==> init[j] == reports[j];
        }
      }
    }
  }

  /** The facts that a request works with are those current when the holder of the key reads them. */
  lemma FactsAreCurrent(s: Service, t: Thread)
    requires At(s, t, Start)
    ensures var key := s.table.phase[t].key;
            if key in s.facts then At(Step(s, Load(t)), t, Loaded(s.facts[key])) else At(Step(s, Load(t)), t, Done)
  {
  }

  /** A call that failed keeps no report, and the next request for the key calls again. */
  lemma FailedCallIsRepeated(s: Service, t: Thread, f: Facts)
    requires At(s, t, Calling(f)) && !NewestIs(s.reports, s.table.phase[t].key, f)
    ensures var after := Step(s, Finish(t, false));
            At(after, t, Done) && after.reports == s.reports && !NewestIs(after.reports, s.table.phase[t].key, f)
  {
  }

  /** A call that succeeded leaves its report as the newest, so that the next request with the same facts
      finds it. */
  lemma SuccessIsNewest(s: Service, t: Thread, f: Facts)
    requires At(s, t, Calling(f))
    ensures NewestIs(Step(s, Finish(t, true)).reports, s.table.phase[t].key, f)
  {
    assert Step(s, Finish(t, true)).reports[|s.reports|] == Report(s.table.phase[t].key, f);
  }
}
