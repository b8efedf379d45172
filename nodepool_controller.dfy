/** The NodePool reconciler: the condition list decides the action (create, continue
    provisioning, nothing), the handlers call the hardware-manager service, set a condition and
    choose how soon to be called again. */
module NodePoolController {
  import opened Wrappers
  import opened Errors
  import opened Engine
  import opened Conditions
  import HwMgr

  /** The actions of the NodePool state machine. */
  datatype Action = Create | Processing | Noop

  /** time.Duration, in nanoseconds. */
  const Second: nat := 1_000_000_000
  const Minute: nat := 60 * Second

  /** ctrl.Result. */
  datatype CtrlResult = CtrlResult(requeue: bool, requeueAfter: nat)

  /** The controller runtime calls Reconcile again for a result that asks for it. */
  predicate Requeues(r: CtrlResult) {
    r.requeue || r.requeueAfter > 0
  }

  function DoNotRequeue(): (r: CtrlResult)
    ensures !Requeues(r)
  {
    CtrlResult(false, 0)
  }

  function RequeueWithCustomInterval(interval: nat): (r: CtrlResult)
    ensures !r.requeue && r.requeueAfter == interval
    ensures Requeues(r) <==> interval > 0
  {
    CtrlResult(false, interval)
  }

  function RequeueWithShortInterval(): (r: CtrlResult)
    ensures Requeues(r) && r.requeueAfter == 15 * Second
  {
    RequeueWithCustomInterval(15 * Second)
  }

  function RequeueWithMediumInterval(): (r: CtrlResult)
    ensures Requeues(r) && r.requeueAfter == Minute
  {
    RequeueWithCustomInterval(1 * Minute)
  }

  function RequeueWithLongInterval(): (r: CtrlResult)
    ensures Requeues(r) && r.requeueAfter == 5 * Minute
  {
    RequeueWithCustomInterval(5 * Minute)
  }

  /** An empty result with the error: the controller runtime retries with its own backoff. */
  function RequeueWithError(err: Error): (r: (CtrlResult, Option<Error>))
    ensures !Requeues(r.0) && r.1 == Some(err)
  {
    (CtrlResult(false, 0), Some(err))
  }

  /** determineAction: Create on an empty list; Failed, then Provisioned, stop everything;
      Unprovisioned or Updating continue provisioning; anything else does nothing. */
  function DetermineAction(cs: seq<Condition>): (a: Action)
    ensures a == Create <==> cs == []
    ensures a == Processing <==>
              cs != [] && !IsTrue(cs, Failed) && !IsTrue(cs, Provisioned)
              && (IsTrue(cs, Unprovisioned) || IsTrue(cs, Updating))
    ensures cs != [] && (IsTrue(cs, Failed) || IsTrue(cs, Provisioned)) ==> a == Noop
  {
    if |cs| == 0 then Create
    else if IsTrue(cs, Failed) then Noop
    else if IsTrue(cs, Provisioned) then Noop
    else if IsTrue(cs, Unprovisioned) then Processing
    else if IsTrue(cs, Updating) then Processing
    else Noop
  }

  /** Failed is terminal: setting any other condition type, with any status, leaves the action Noop. */
  lemma FailedIsSticky(cs: seq<Condition>, t: string, status: ConditionStatus, reason: string, message: string)
    requires IsTrue(cs, Failed) && t != Failed
    ensures DetermineAction(SetCondition(cs, t, status, reason, message)) == Noop
  {
    SetKeepsOthers(cs, t, status, reason, message, Failed);
  }

  /** Provisioned outranks Unprovisioned and Updating: setting any other type leaves the action Noop
      (setting Failed keeps it Noop too, whatever its status). */
  lemma ProvisionedIsSticky(cs: seq<Condition>, t: string, status: ConditionStatus, reason: string, message: string)
    requires IsTrue(cs, Provisioned) && t != Provisioned
    ensures DetermineAction(SetCondition(cs, t, status, reason, message)) == Noop
  {
    SetKeepsOthers(cs, t, status, reason, message, Provisioned);
  }

  /** The persisted view of a NodePool: its name, its spec, the condition list held in memory and
      the one last written to the API server. */
  datatype PoolState = PoolState(name: string, spec: NodePoolSpec, conditions: seq<Condition>, stored: seq<Condition>)

  /** What one handler call leaves behind. */
  datatype Step = Step(store: Store, pool: PoolState, result: CtrlResult, err: Option<Error>)

  /** The condition handleNodePoolCreate sets for an admission outcome: Failed=true with the
      error's text on a rejection, Unprovisioned=true otherwise. */
  function AfterCreate(cs: seq<Condition>, admission: Option<Error>): (r: seq<Condition>)
    ensures admission.Some? ==>
              FindCondition(r, Failed)
              == Some(Condition(Failed, ConditionTrue, ReasonFailed, "Creation request failed: " + Message(admission.value)))
    ensures admission.None? ==>
              FindCondition(r, Unprovisioned) == Some(Condition(Unprovisioned, ConditionTrue, ReasonInProgress, "Handling creation"))
  {
    match admission
    case Some(e) =>
      var m := "Creation request failed: " + Message(e);
      SetThenFind(cs, Failed, ConditionTrue, ReasonFailed, m);
      SetCondition(cs, Failed, ConditionTrue, ReasonFailed, m)
    case None =>
      SetThenFind(cs, Unprovisioned, ConditionTrue, ReasonInProgress, "Handling creation");
      SetCondition(cs, Unprovisioned, ConditionTrue, ReasonInProgress, "Handling creation")
  }

  /** A rejected pool carries Failed=true with the error's text and is never acted on again. */
  lemma CreateFailureIsTerminal(cs: seq<Condition>, e: Error)
    ensures FindCondition(AfterCreate(cs, Some(e)), Failed)
         == Some(Condition(Failed, ConditionTrue, ReasonFailed, "Creation request failed: " + Message(e)))
    ensures DetermineAction(AfterCreate(cs, Some(e))) == Noop
  {
    SetThenFind(cs, Failed, ConditionTrue, ReasonFailed, "Creation request failed: " + Message(e));
  }

  /** An admitted pool carries Unprovisioned=true and is provisioned from then on. */
  lemma CreateSuccessStartsProcessing(cs: seq<Condition>)
    requires !IsTrue(cs, Failed) && !IsTrue(cs, Provisioned)
    ensures FindCondition(AfterCreate(cs, None), Unprovisioned)
         == Some(Condition(Unprovisioned, ConditionTrue, ReasonInProgress, "Handling creation"))
    ensures DetermineAction(AfterCreate(cs, None)) == Processing
  {
    SetThenFind(cs, Unprovisioned, ConditionTrue, ReasonInProgress, "Handling creation");
    SetKeepsOthers(cs, Unprovisioned, ConditionTrue, ReasonInProgress, "Handling creation", Failed);
    SetKeepsOthers(cs, Unprovisioned, ConditionTrue, ReasonInProgress, "Handling creation", Provisioned);
  }

  /** handleNodePoolCreate: admission check, condition, status update. */
  function CreateStep(failAt: set<nat>, st: Store, np: PoolState, statusOk: bool): (r: Step)
    ensures r.store == CreateNodePoolSpec(failAt, st, np.spec).0
    ensures r.pool == np.(conditions := AfterCreate(np.conditions, CreateNodePoolSpec(failAt, st, np.spec).1),
                          stored := if statusOk then r.pool.conditions else np.stored)
    ensures statusOk ==> !Requeues(r.result) && r.err.None?
    ensures !statusOk ==> r.result == RequeueWithMediumInterval() && r.err == Some(StatusUpdateFailed(np.name))
  {
    var (st1, admission) := CreateNodePoolSpec(failAt, st, np.spec);
    var cs := AfterCreate(np.conditions, admission);
    if statusOk then Step(st1, np.(conditions := cs, stored := cs), DoNotRequeue(), None)
    else Step(st1, np.(conditions := cs), RequeueWithMediumInterval(), Some(StatusUpdateFailed(np.name)))
  }

  /** The branch of handleNodePoolProcessing after the progress call. */
  function ProcessingResult(cs: seq<Condition>, progress: Option<Error>): (r: (CtrlResult, Option<Error>))
    ensures progress.Some? ==> !Requeues(r.0) && r.1 == Some(ProgressFailed(progress.value))
    ensures progress.None? ==> r.1.None? && (Requeues(r.0) <==> !IsTrue(cs, Provisioned))
    ensures progress.None? && !IsTrue(cs, Provisioned) ==> r.0 == RequeueWithShortInterval()
  {
    if progress.Some? then (DoNotRequeue(), Some(ProgressFailed(progress.value)))
    else if IsTrue(cs, Provisioned) then (DoNotRequeue(), None)
    else (RequeueWithShortInterval(), None)
  }

  /** handleNodePoolProcessing: one CheckNodePoolProgress call; the condition list is not touched. */
  function ProcessingStep(failAt: set<nat>, st: Store, np: PoolState): (r: Step)
    ensures r.store == CheckProgressSpec(failAt, st, np.spec).0 && r.pool == np
    ensures (r.result, r.err) == ProcessingResult(np.conditions, CheckProgressSpec(failAt, st, np.spec).2)
  {
    var (st1, _, progress) := CheckProgressSpec(failAt, st, np.spec);
    var (res, err) := ProcessingResult(np.conditions, progress);
    Step(st1, np, res, err)
  }

  /** Reached through the dispatch, the Provisioned branch is dead: a processing pool whose
      progress call succeeds is always requeued after 15 s. */
  lemma ProcessingAlwaysRequeues(failAt: set<nat>, st: Store, np: PoolState)
    requires DetermineAction(np.conditions) == Processing
    requires CheckProgressSpec(failAt, st, np.spec).2.None?
    ensures ProcessingStep(failAt, st, np).result == RequeueWithShortInterval()
    ensures ProcessingStep(failAt, st, np).err.None?
  {
  }

  /** handleNodePoolObject: dispatch on the action; Noop changes nothing and does not requeue. */
  function ObjectStep(failAt: set<nat>, st: Store, np: PoolState, statusOk: bool): (r: Step)
    ensures DetermineAction(np.conditions) == Noop ==> r == Step(st, np, DoNotRequeue(), None)
    ensures DetermineAction(np.conditions) == Create ==> r == CreateStep(failAt, st, np, statusOk)
    ensures DetermineAction(np.conditions) == Processing ==> r == ProcessingStep(failAt, st, np)
  {
    match DetermineAction(np.conditions)
    case Create => CreateStep(failAt, st, np, statusOk)
    case Processing => ProcessingStep(failAt, st, np)
    case Noop => Step(st, np, DoNotRequeue(), None)
  }

  /** What Client.Get gives a reconcile: the NodePool as persisted, its in-memory conditions
      being the stored ones. */
  function Fetched(np: PoolState): (r: PoolState)
    ensures r.name == np.name && r.spec == np.spec && r.stored == np.stored
    ensures r.conditions == np.stored
    ensures np.conditions == np.stored ==> r == np
    ensures r.conditions == r.stored
  {
    np.(conditions := np.stored)
  }

  /** `n` reconciles of the same NodePool in a row, each starting from the persisted object. The
      pool's name and spec and the catalog never change. */
  function Run(failAt: set<nat>, st: Store, np: PoolState, statusOk: bool, n: nat): (r: (Store, PoolState))
    ensures r.1.name == np.name && r.1.spec == np.spec
    ensures r.0.profiles == st.profiles
    ensures r.0.calls >= st.calls
    decreases n
  {
    if n == 0 then (st, np)
    else
      var s := ObjectStep(failAt, st, Fetched(np), statusOk);
      Run(failAt, s.store, s.pool, statusOk, n - 1)
  }

  /** Once processing is persisted, a NodePool stays processing: no number of reconciles changes
      its conditions, so it never reaches Provisioned. */
  lemma {:induction false} ProcessingNeverEnds(failAt: set<nat>, st: Store, np: PoolState, statusOk: bool, n: nat)
    requires DetermineAction(np.stored) == Processing
    ensures Run(failAt, st, np, statusOk, n).1.stored == np.stored
    ensures n > 0 ==> Run(failAt, st, np, statusOk, n).1 == Fetched(np)
    decreases n
  {
    if n > 0 {
      var s := ObjectStep(failAt, st, Fetched(np), statusOk);
      assert s.pool == Fetched(np);
      ProcessingNeverEnds(failAt, s.store, s.pool, statusOk, n - 1);
    }
  }

  /** Once Failed is persisted, a NodePool is left alone: no number of reconciles makes an API
      call or changes its conditions. */
  lemma {:induction false} FailedPoolIsIdle(failAt: set<nat>, st: Store, np: PoolState, statusOk: bool, n: nat)
    requires np.stored != [] && IsTrue(np.stored, Failed)
    ensures Run(failAt, st, np, statusOk, n).0 == st
    ensures Run(failAt, st, np, statusOk, n).1.stored == np.stored
    ensures n > 0 ==> Run(failAt, st, np, statusOk, n).1 == Fetched(np)
    decreases n
  {
    if n > 0 {
      FailedPoolIsIdle(failAt, st, Fetched(np), statusOk, n - 1);
    }
  }

  /** While the status update keeps failing, nothing is persisted: the NodePool stays new and every
      reconcile runs the admission check again, one config-map read each. */
  lemma {:induction false} UnpersistedPoolStaysNew(failAt: set<nat>, st: Store, np: PoolState, n: nat)
    requires np.stored == []
    ensures Run(failAt, st, np, false, n).1.stored == []
    ensures Run(failAt, st, np, false, n).0.calls == st.calls + n
    ensures Run(failAt, st, np, false, n).0.record == st.record && Run(failAt, st, np, false, n).0.nodes == st.nodes
    decreases n
  {
    if n > 0 {
      var s := ObjectStep(failAt, st, Fetched(np), false);
      assert s == CreateStep(failAt, st, Fetched(np), false);
      UnpersistedPoolStaysNew(failAt, s.store, s.pool, n - 1);
    }
  }

  /** The life of a new NodePool. The first reconcile runs admission. When its status update
      fails, the pool is still new for the next reconcile. Otherwise a rejected pool is idle from
      then on, and an admitted one is processing from then on, its conditions never changing again. */
  lemma NewPoolLifecycle(failAt: set<nat>, st: Store, np: PoolState, statusOk: bool, n: nat)
    requires np.stored == []
    ensures var first := ObjectStep(failAt, st, Fetched(np), statusOk);
            && first == CreateStep(failAt, st, Fetched(np), statusOk)
            && Run(failAt, st, np, statusOk, n + 1) == Run(failAt, first.store, first.pool, statusOk, n)
            && (!statusOk ==> first.pool.stored == [] && DetermineAction(Fetched(first.pool).conditions) == Create)
            && (statusOk && CreateNodePoolSpec(failAt, st, np.spec).1.Some? ==>
                  Run(failAt, first.store, first.pool, statusOk, n).0 == first.store
                  && Run(failAt, first.store, first.pool, statusOk, n).1.stored == first.pool.stored
                  && DetermineAction(first.pool.stored) == Noop)
            && (statusOk && CreateNodePoolSpec(failAt, st, np.spec).1.None? ==>
                  DetermineAction(first.pool.stored) == Processing
                  && Run(failAt, first.store, first.pool, statusOk, n).1.stored == first.pool.stored)
  {
    var first := ObjectStep(failAt, st, Fetched(np), statusOk);
    if statusOk {
      match CreateNodePoolSpec(failAt, st, np.spec).1
      case Some(e) =>
        CreateFailureIsTerminal([], e);
        FailedPoolIsIdle(failAt, first.store, first.pool, statusOk, n);
      case None =>
        CreateSuccessStartsProcessing([]);
        ProcessingNeverEnds(failAt, first.store, first.pool, statusOk, n);
    }
  }

  /** A NodePool object: the condition list is changed in memory, then written with the status. */
  class NodePool {
    const name: string
    const spec: NodePoolSpec
    /** nodepool.Status.Conditions as held in memory. */
    var conditions: seq<Condition>
    /** The conditions last persisted to the API server. */
    var stored: seq<Condition>

    function State(): PoolState
      reads this
    {
      PoolState(name, spec, conditions, stored)
    }

    constructor (name: string, spec: NodePoolSpec, conditions: seq<Condition>)
      ensures State() == PoolState(name, spec, conditions, conditions)
    {
      this.name := name;
      this.spec := spec;
      this.conditions := conditions;
      this.stored := conditions;
    }
  }

  /** How fetching the NodePool named by the request ended. */
  datatype Fetch = Found | NotFound | FetchError

  class NodePoolReconciler {
    const hwmgr: HwMgr.HwMgrService

    constructor (hwmgr: HwMgr.HwMgrService)
      ensures this.hwmgr == hwmgr
    {
      this.hwmgr := hwmgr;
    }

    /** handleNodePoolCreate; `statusOk` says whether the status update succeeds. */
    method HandleNodePoolCreate(np: NodePool, statusOk: bool) returns (result: CtrlResult, err: Option<Error>)
      modifies hwmgr`calls, np`conditions, np`stored
      ensures Step(hwmgr.State(), np.State(), result, err)
           == CreateStep(hwmgr.failAt, old(hwmgr.State()), old(np.State()), statusOk)
    {
      var e := hwmgr.CreateNodePool(np.spec);
      if e.Some? {
        np.conditions := SetCondition(np.conditions, Failed, ConditionTrue, ReasonFailed,
                                      "Creation request failed: " + Message(e.value));
      } else {
        np.conditions := SetCondition(np.conditions, Unprovisioned, ConditionTrue, ReasonInProgress,
                                      "Handling creation");
      }
      if !statusOk {
        return RequeueWithMediumInterval(), Some(StatusUpdateFailed(np.name));
      }
      np.stored := np.conditions;
      return DoNotRequeue(), None;
    }

    /** handleNodePoolProcessing; only the error outcome of CheckNodePoolProgress is used. */
    method HandleNodePoolProcessing(np: NodePool) returns (result: CtrlResult, err: Option<Error>)
      modifies hwmgr`calls, hwmgr`record, hwmgr`nodes
      ensures Step(hwmgr.State(), np.State(), result, err)
           == ProcessingStep(hwmgr.failAt, old(hwmgr.State()), old(np.State()))
    {
      var _, e := hwmgr.CheckNodePoolProgress(np.spec);
      if e.Some? {
        return DoNotRequeue(), Some(ProgressFailed(e.value));
      }
      var provisioned := FindCondition(np.conditions, Provisioned);
      if provisioned.Some? && provisioned.value.status == ConditionTrue {
        return DoNotRequeue(), None;
      }
      return RequeueWithShortInterval(), None;
    }

    /** handleNodePoolObject. */
    method HandleNodePoolObject(np: NodePool, statusOk: bool) returns (result: CtrlResult, err: Option<Error>)
      modifies hwmgr`calls, hwmgr`record, hwmgr`nodes, np`conditions, np`stored
      ensures Step(hwmgr.State(), np.State(), result, err)
           == ObjectStep(hwmgr.failAt, old(hwmgr.State()), old(np.State()), statusOk)
    {
      match DetermineAction(np.conditions)
      case Create =>
        result, err := HandleNodePoolCreate(np, statusOk);
      case Processing =>
        result, err := HandleNodePoolProcessing(np);
      case Noop =>
        result, err := DoNotRequeue(), None;
    }

    /** Reconcile: a NodePool that is gone is not an error and is not requeued; a NodePool that
        is found is handled as persisted, whatever an earlier reconcile held in memory. */
    method Reconcile(fetch: Fetch, np: NodePool, statusOk: bool) returns (result: CtrlResult, err: Option<Error>)
      modifies hwmgr`calls, hwmgr`record, hwmgr`nodes, np`conditions, np`stored
      ensures fetch == NotFound ==> result == DoNotRequeue() && err.None?
                                    && hwmgr.State() == old(hwmgr.State()) && np.State() == old(np.State())
      ensures fetch == FetchError ==> result == DoNotRequeue() && err == Some(FetchFailed)
                                      && hwmgr.State() == old(hwmgr.State()) && np.State() == old(np.State())
      ensures fetch == Found ==> Step(hwmgr.State(), np.State(), result, err)
                                 == ObjectStep(hwmgr.failAt, old(hwmgr.State()), Fetched(old(np.State())), statusOk)
    {
      match fetch
      case NotFound =>
        return DoNotRequeue(), None;
      case FetchError =>
        return DoNotRequeue(), Some(FetchFailed);
      case Found =>
        np.conditions := np.stored;
        result, err := HandleNodePoolObject(np, statusOk);
    }
  }
}
