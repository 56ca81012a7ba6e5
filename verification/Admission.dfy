// Pod admission of pkg/virtualnode/pod/respod_admission.go over the pod cache of
// pkg/util/cache/pod_cache.go: pods on the cluster network need the "abbot" pod.
module Admission {
  import opened Prelude

  type UID = string

  datatype Phase = Pending | Running | Succeeded | Failed | UnknownPhase
  datatype DNSPolicy = ClusterFirstWithHostNet | OtherPolicy
  datatype Name = Name(namespace: string, name: string)

  datatype Pod = Pod(
    uid: UID,
    id: Name,
    hostNetwork: bool,
    dnsPolicy: DNSPolicy,
    labels: map<string, string>,
    containers: seq<string>,
    phase: Phase,
    finalizers: set<string>)

  const LabelRoleValueAbbot := "Abbot"
  const ContainerNameAbbot := "abbot"
  const FinalizerClusterNetwork := "aranya.arhat.dev/cluster-network"
  const FinalizerClusterNetworkManager := "aranya.arhat.dev/cluster-network-manager"

  predicate RequireClusterNetwork(p: Pod)
  {
    !p.hostNetwork || p.dnsPolicy == ClusterFirstWithHostNet
  }

  predicate IsAbbotPod(p: Pod)
  {
    LabelRole in p.labels && p.labels[LabelRole] == LabelRoleValueAbbot && ContainerNameAbbot in p.containers
  }

  // ---------------------------------------------------------------- the pod cache

  datatype Cache = Cache(byUID: map<UID, Pod>, byName: map<Name, Pod>, remoteDeleted: set<UID>)
  {
    /** Every name entry is the cached pod of that name. */
    ghost predicate Valid()
    {
      && (forall u :: u in byUID ==> byUID[u].uid == u)
      && (forall n :: n in byName ==> byName[n].id == n && byName[n].uid in byUID && byUID[byName[n].uid] == byName[n])
    }

    /** A cached pod that its own name leads to. */
    ghost predicate FoundByName(u: UID)
    {
      u in byUID && byUID[u].id in byName && byName[byUID[u].id] == byUID[u]
    }

    ghost predicate HasClusterPod()
    {
      exists u :: u in byUID && RequireClusterNetwork(byUID[u])
    }
  }

  const EmptyCache := Cache(map[], map[], {})

  function Put(c: Cache, p: Pod): (c': Cache)
  {
    c.(byUID := c.byUID[p.uid := p], byName := c.byName[p.id := p])
  }

  function Drop(c: Cache, u: UID): (c': Cache)
  {
    Cache(c.byUID - {u}, if u in c.byUID then c.byName - {c.byUID[u].id} else c.byName, c.remoteDeleted - {u})
  }

  /** A pod keeps its name for life, so caching a newer version of it keeps both indexes in step. */
  lemma PutKeepsIndexes(c: Cache, p: Pod)
    requires c.Valid() && (p.uid in c.byUID ==> c.byUID[p.uid].id == p.id)
    ensures Put(c, p).Valid() && Put(c, p).FoundByName(p.uid) && Put(c, p).byUID[p.uid] == p
    ensures Put(c, p).byUID - {p.uid} == c.byUID - {p.uid} && Put(c, p).remoteDeleted == c.remoteDeleted
  {
  }

  /**
   * Dropping a pod by id removes it, its remote mark and whatever its name leads to. So the
   * other pods that were found by name still are, exactly when that name did not already
   * lead to another pod.
   */
  lemma DropHidesNamesakeIff(c: Cache, u: UID)
    requires c.Valid() && u in c.byUID
    ensures Drop(c, u).Valid()
    ensures u !in Drop(c, u).byUID && Drop(c, u).byUID == c.byUID - {u}
    ensures u !in Drop(c, u).remoteDeleted && Drop(c, u).remoteDeleted == c.remoteDeleted - {u}
    ensures (forall v :: v != u && c.FoundByName(v) ==> Drop(c, u).FoundByName(v)) <==>
            (c.byUID[u].id in c.byName ==> c.byName[c.byUID[u].id].uid == u)
  {
    var n := c.byUID[u].id;
    if n in c.byName && c.byName[n].uid != u {
      var v := c.byName[n].uid;
      assert c.FoundByName(v) && !Drop(c, u).FoundByName(v);
    }
  }

  /** A pod deleted and made again under its name: dropping the old one hides the new one. */
  lemma NamesakeIsHidden(p: Pod, q: Pod)
    requires p.id == q.id && p.uid != q.uid
    ensures var c := Put(Put(EmptyCache, p), q);
            && c.Valid() && c.FoundByName(q.uid)
            && q.uid in Drop(c, p.uid).byUID && !Drop(c, p.uid).FoundByName(q.uid)
  {
    var c := Put(Put(EmptyCache, p), q);
    assert p.uid in c.byUID && c.byUID[p.uid] == p && c.byUID[q.uid] == q;
  }

  // ---------------------------------------------------------------- admission

  /** The cache and the recorded abbot pod, empty for none. */
  datatype State = State(cache: Cache, abbot: UID)
  {
    /** Pods on the cluster network are cached only while an abbot pod is recorded. */
    ghost predicate Covered()
    {
      cache.HasClusterPod() ==> abbot != ""
    }
  }

  datatype Reason = NoAbbot | AbbotNotCached | AbbotNotRunning | FinalizerFailed | SecondAbbot | ClusterPodsLeft

  /** Proceed with the pod, done with it, or refused. */
  datatype Decision = Proceed | Handled | Refused(reason: Reason)

  /** The phases that skip admission: the pod was on this node before. */
  predicate Bypasses(p: Pod) { p.phase == Running || p.phase == Succeeded || p.phase == Failed }

  predicate HasFinalizer(p: Pod, f: string, patchOk: bool) { f in p.finalizers || patchOk }

  function AdmitCreation(st: State, p: Pod, patchOk: bool): (r: (State, Decision))
  {
    if Bypasses(p) then (st.(cache := Put(st.cache, p)), Handled)
    else if RequireClusterNetwork(p) then
      if st.abbot == "" then (st, Refused(NoAbbot))
      else if st.abbot !in st.cache.byUID then (st, Refused(AbbotNotCached))
      else if st.cache.byUID[st.abbot].phase != Running then (st, Refused(AbbotNotRunning))
      else if !HasFinalizer(p, FinalizerClusterNetwork, patchOk) then (st, Refused(FinalizerFailed))
      else (st.(cache := Put(st.cache, p.(finalizers := p.finalizers + {FinalizerClusterNetwork}))), Proceed)
    else if !IsAbbotPod(p) then (st.(cache := Put(st.cache, p)), Proceed)
    else if st.abbot != "" then (st, Refused(SecondAbbot))
    else if !HasFinalizer(p, FinalizerClusterNetworkManager, patchOk) then (st, Refused(FinalizerFailed))
    else (State(Put(st.cache, p.(finalizers := p.finalizers + {FinalizerClusterNetworkManager})), p.uid), Proceed)
  }

  function AdmitDeletion(st: State, p: Pod, patchOk: bool): (r: (State, Decision))
  {
    if RequireClusterNetwork(p) then
      if st.abbot == "" then (st, Refused(NoAbbot))
      else (st, if FinalizerClusterNetwork !in p.finalizers || patchOk then Proceed else Refused(FinalizerFailed))
    else if !IsAbbotPod(p) then (st, Proceed)
    else if exists u :: u in st.cache.byUID && RequireClusterNetwork(st.cache.byUID[u]) then (st, Refused(ClusterPodsLeft))
    else if FinalizerClusterNetworkManager in p.finalizers && !patchOk then (st, Refused(FinalizerFailed))
    else (st.(abbot := ""), Proceed)
  }

  datatype Op =
    | Create(pod: Pod, patchOk: bool)
    | Delete(pod: Pod, patchOk: bool)   // a pod that is not cached is deleted without admission
    | Refresh(pod: Pod)                 // getPod and UpdatePodStatus cache the latest object
    | Gone(uid: UID)                    // the pod is gone from the device and the cluster

  function Step(st: State, op: Op): (r: (State, Decision))
  {
    match op
    case Create(p, ok) => AdmitCreation(st, p, ok)
    case Delete(p, ok) => if p.uid in st.cache.byUID then AdmitDeletion(st, p, ok) else (st, Handled)
    case Refresh(p) => (st.(cache := Put(st.cache, p)), Handled)
    case Gone(u) => (st.(cache := Drop(st.cache, u)), Handled)
  }

  /** A pod has an id, and its place on the network never changes. */
  ghost predicate Stable(st: State, op: Op)
  {
    !op.Gone? ==>
      && op.pod.uid != ""
      && (op.pod.uid in st.cache.byUID ==>
            RequireClusterNetwork(st.cache.byUID[op.pod.uid]) == RequireClusterNetwork(op.pod))
  }

  /**
   * The operation caches a pod on the cluster network with no abbot pod recorded, and
   * without asking: the pod is reported as already on the node, or is cached for the
   * first time by a refresh.
   */
  ghost predicate Unguarded(st: State, op: Op)
  {
    && st.abbot == ""
    && ((op.Create? && Bypasses(op.pod)) || op.Refresh?)
    && RequireClusterNetwork(op.pod)
  }

  /** One operation keeps cluster network pods covered by an abbot pod unless it is unguarded. */
  lemma StepCoveredIff(st: State, op: Op)
    requires st.Covered() && Stable(st, op)
    ensures Step(st, op).0.Covered() <==> !Unguarded(st, op)
  {
    var c, c' := st.cache, Step(st, op).0.cache;
    if op.Gone? {
      assert forall u :: u in c'.byUID ==> u in c.byUID && c'.byUID[u] == c.byUID[u];
    } else {
      assert op.pod.uid in c'.byUID || c' == c;
      assert forall u :: u in c'.byUID && u != op.pod.uid ==> u in c.byUID && c'.byUID[u] == c.byUID[u];
      if Unguarded(st, op) { assert RequireClusterNetwork(c'.byUID[op.pod.uid]); }
    }
  }

  /**
   * A recorded abbot pod is never replaced, only cleared, and only once no pod on the
   * cluster network is cached. A cached one is never refused deletion for want of it.
   */
  lemma AbbotChangesOnlyWhenFree(st: State, op: Op)
    requires st.Covered() && Stable(st, op)
    ensures var (st', d) := Step(st, op);
            && (st'.abbot == st.abbot || st'.abbot == "" || st.abbot == "")
            && (st.abbot != "" && st'.abbot == "" ==> !st'.cache.HasClusterPod())
            && (op.Delete? ==> d != Refused(NoAbbot))
  {
    if op.Delete? && op.pod.uid in st.cache.byUID && RequireClusterNetwork(op.pod) {
      assert st.cache.HasClusterPod();
    }
  }

  ghost function Run(st: State, ops: seq<Op>): (st': State)
    decreases ops
  {
    if ops == [] then st else Run(Step(st, ops[0]).0, ops[1..])
  }

  ghost predicate AllStable(st: State, ops: seq<Op>)
    decreases ops
  {
    ops == [] || (Stable(st, ops[0]) && AllStable(Step(st, ops[0]).0, ops[1..]))
  }

  ghost predicate AlwaysCovered(st: State, ops: seq<Op>)
    decreases ops
  {
    st.Covered() && (ops == [] || AlwaysCovered(Step(st, ops[0]).0, ops[1..]))
  }

  ghost predicate NeverUnguarded(st: State, ops: seq<Op>)
    decreases ops
  {
    ops == [] || (!Unguarded(st, ops[0]) && NeverUnguarded(Step(st, ops[0]).0, ops[1..]))
  }

  /**
   * In every state of a run an abbot pod is recorded while cluster network pods are cached,
   * exactly when no operation of the run is unguarded.
   */
  lemma {:induction false} RunCoveredIff(st: State, ops: seq<Op>)
    requires st.Covered() && AllStable(st, ops)
    ensures AlwaysCovered(st, ops) <==> NeverUnguarded(st, ops)
    decreases ops
  {
    if ops != [] {
      StepCoveredIff(st, ops[0]);
      if Step(st, ops[0]).0.Covered() { RunCoveredIff(Step(st, ops[0]).0, ops[1..]); }
    }
  }

  /** After every run without an unguarded operation, no deletion is refused for want of an abbot pod. */
  lemma {:induction false} RunStaysCovered(st: State, ops: seq<Op>, p: Pod, patchOk: bool)
    requires st.Covered() && AllStable(st, ops) && NeverUnguarded(st, ops)
    ensures var st' := Run(st, ops);
            && st'.Covered()
            && (Stable(st', Delete(p, patchOk)) ==> Step(st', Delete(p, patchOk)).1 != Refused(NoAbbot))
    decreases ops
  {
    if ops == [] {
      if Stable(st, Delete(p, patchOk)) { AbbotChangesOnlyWhenFree(st, Delete(p, patchOk)); }
    } else {
      StepCoveredIff(st, ops[0]);
      RunStaysCovered(Step(st, ops[0]).0, ops[1..], p, patchOk);
    }
  }

  /**
   * In every state of a run without an unguarded operation, a cached pod on the cluster network
   * can be deleted exactly when its finalizer is gone or can be taken off; a host network pod
   * that is no abbot pod always; an abbot pod exactly when no pod on the cluster network is
   * cached and its own finalizer is gone or can be taken off. Only the last clears the record,
   * and a pod that is not cached is not asked about.
   */
  lemma RunDeletionExact(st: State, ops: seq<Op>, p: Pod, patchOk: bool)
    requires st.Covered() && AllStable(st, ops) && NeverUnguarded(st, ops) && Stable(Run(st, ops), Delete(p, patchOk))
    ensures var st' := Run(st, ops);
            var (after, d) := Step(st', Delete(p, patchOk));
            var onCluster := !p.hostNetwork || p.dnsPolicy == ClusterFirstWithHostNet;
            if p.uid !in st'.cache.byUID then (after, d) == (st', Handled)
            else if onCluster then
              after == st' && (d == Proceed <==> patchOk || FinalizerClusterNetwork !in p.finalizers)
            else if !IsAbbotPod(p) then after == st' && d == Proceed
            else
              && (d == Proceed <==>
                    && (forall u :: u in st'.cache.byUID ==> !RequireClusterNetwork(st'.cache.byUID[u]))
                    && (patchOk || FinalizerClusterNetworkManager !in p.finalizers))
              && after == if d == Proceed then st'.(abbot := "") else st'
  {
    RunStaysCovered(st, ops, p, patchOk);
  }

  /** Each refusal of a pod names what is wrong. */
  ghost predicate ReasonHolds(st: State, p: Pod, patchOk: bool, reason: Reason)
  {
    match reason
    case NoAbbot => RequireClusterNetwork(p) && st.abbot == ""
    case AbbotNotCached => RequireClusterNetwork(p) && st.abbot != "" && st.abbot !in st.cache.byUID
    case AbbotNotRunning => RequireClusterNetwork(p) && st.abbot in st.cache.byUID && st.cache.byUID[st.abbot].phase != Running
    case FinalizerFailed => !patchOk
    case SecondAbbot => !RequireClusterNetwork(p) && IsAbbotPod(p) && st.abbot != ""
    case ClusterPodsLeft => false
  }

  /**
   * What creation does to every pod. One that was on this node before is cached as it is. A
   * pending one is let in exactly when nothing stands against it, cached with the finalizer its
   * place calls for, and recorded exactly when it is an abbot pod on the host network. A refusal
   * changes nothing and has its reason.
   */
  lemma CreationExact(st: State, p: Pod, patchOk: bool)
    ensures var (st', d) := Step(st, Create(p, patchOk));
            var before := p.phase == Running || p.phase == Succeeded || p.phase == Failed;
            var onCluster := !p.hostNetwork || p.dnsPolicy == ClusterFirstWithHostNet;
            var finalizer := if before then {} else if onCluster then {FinalizerClusterNetwork}
                             else if IsAbbotPod(p) then {FinalizerClusterNetworkManager} else {};
            && (d == Handled <==> before)
            && (d == Proceed <==>
                  && !before && (onCluster ==> AbbotRunning(st)) && (!onCluster && IsAbbotPod(p) ==> st.abbot == "")
                  && (patchOk || finalizer <= p.finalizers))
            && (d.Refused? ==> st' == st && ReasonHolds(st, p, patchOk, d.reason))
            && (!d.Refused? ==>
                  && st'.cache == Put(st.cache, p.(finalizers := p.finalizers + finalizer))
                  && st'.abbot == if !before && !onCluster && IsAbbotPod(p) then p.uid else st.abbot)
  {
    assert p.finalizers + {} == p.finalizers;
  }

  /** Once the abbot pod of a node is running, every pending pod on the cluster network is let in. */
  lemma ServedOnceAbbotRuns(st: State, a: Pod, p: Pod)
    requires st.abbot == "" && NewAbbot(a) && !Bypasses(p) && RequireClusterNetwork(p)
    ensures var running := Run(st, [Create(a, true), Refresh(a.(phase := Running))]);
            var (st', d) := Step(running, Create(p, true));
            d == Proceed && p.uid in st'.cache.byUID && FinalizerClusterNetwork in st'.cache.byUID[p.uid].finalizers
  {
    var st1 := Step(st, Create(a, true)).0;
    var st2 := Step(st1, Refresh(a.(phase := Running))).0;
    assert Run(st1, [Refresh(a.(phase := Running))]) == Run(st2, []);
    assert AbbotRunning(st2);
    CreationExact(st2, p, true);
  }

  /** A cluster network pod found running on an empty node is cached with no abbot pod, and cannot be deleted. */
  lemma RunningPodIsUncovered(p: Pod, patchOk: bool)
    requires RequireClusterNetwork(p) && p.phase == Running && p.uid != ""
    ensures var st := Run(State(EmptyCache, ""), [Create(p, patchOk)]);
            !st.Covered() && Step(st, Delete(p, patchOk)).1 == Refused(NoAbbot)
  {
    var st := Step(State(EmptyCache, ""), Create(p, patchOk)).0;
    assert Run(State(EmptyCache, ""), [Create(p, patchOk)]) == Run(st, []);
    assert p.uid in st.cache.byUID && RequireClusterNetwork(st.cache.byUID[p.uid]);
  }

  /** The operation caches a version of the pod without asking for an abbot pod. */
  predicate Unasked(op: Op, u: UID)
  {
    (op.Refresh? || (op.Create? && Bypasses(op.pod))) && op.pod.uid == u
  }

  predicate AbbotRunning(st: State)
  {
    st.abbot != "" && st.abbot in st.cache.byUID && st.cache.byUID[st.abbot].phase == Running
  }

  /**
   * Operation k of the run caches the pod anew: unasked, or while the recorded abbot pod is
   * cached and running, and then with its finalizer.
   */
  ghost predicate EntersAt(st: State, ops: seq<Op>, k: nat, u: UID)
    requires k < |ops|
  {
    var s := Run(st, ops[..k]);
    var s' := Step(s, ops[k]).0;
    && u !in s.cache.byUID && u in s'.cache.byUID
    && (Unasked(ops[k], u) || (AbbotRunning(s) && FinalizerClusterNetwork in s'.cache.byUID[u].finalizers))
  }

  /**
   * In every run, a pod on the cluster network that is cached at the end was there from the
   * start, was first cached without asking, or entered with its finalizer while the
   * recorded abbot pod was cached and running.
   */
  lemma {:induction false} ClusterPodsEnterServed(st: State, ops: seq<Op>, u: UID)
    requires AllStable(st, ops)
    requires u in Run(st, ops).cache.byUID && RequireClusterNetwork(Run(st, ops).cache.byUID[u])
    ensures || (u in st.cache.byUID && RequireClusterNetwork(st.cache.byUID[u]))
            || exists k :: 0 <= k < |ops| && EntersAt(st, ops, k, u)
    decreases ops
  {
    if ops != [] {
      var st1 := Step(st, ops[0]).0;
      ClusterPodsEnterServed(st1, ops[1..], u);
      if k :| 0 <= k < |ops| - 1 && EntersAt(st1, ops[1..], k, u) {
        assert ops[..k + 1][1..] == ops[1..][..k];
        assert EntersAt(st, ops, k + 1, u);
      } else if u !in st.cache.byUID {
        assert ops[..0] == [];
        assert EntersAt(st, ops, 0, u);
      }
    }
  }

  // ---------------------------------------------------------------- one abbot pod for each node

  predicate CachedAbbot(st: State, u: UID) { u in st.cache.byUID && IsAbbotPod(st.cache.byUID[u]) }

  /** At most one cached pod is an abbot pod. */
  ghost predicate OneAbbot(st: State)
  {
    forall u, v :: CachedAbbot(st, u) && CachedAbbot(st, v) ==> u == v
  }

  /** The operation will cache its pod: unasked, or because admission finds nothing against it. */
  predicate Enters(st: State, op: Op)
  {
    match op
    case Refresh(_) => true
    case Create(p, patchOk) =>
      || Bypasses(p)
      || (if RequireClusterNetwork(p) then AbbotRunning(st) && HasFinalizer(p, FinalizerClusterNetwork, patchOk)
          else IsAbbotPod(p) ==> st.abbot == "" && HasFinalizer(p, FinalizerClusterNetworkManager, patchOk))
    case _ => false
  }

  /** A pod is about to be cached as an abbot pod, new or relabelled, beside another one. */
  ghost predicate Second(st: State, op: Op)
  {
    Enters(st, op) && IsAbbotPod(op.pod) && exists u :: u != op.pod.uid && CachedAbbot(st, u)
  }

  /** An operation keeps the node at one abbot pod unless it caches a second one. */
  lemma StepOneAbbotIff(st: State, op: Op)
    requires OneAbbot(st)
    ensures OneAbbot(Step(st, op).0) <==> !Second(st, op)
  {
    var st' := Step(st, op).0;
    if Second(st, op) {
      var u :| u != op.pod.uid && CachedAbbot(st, u);
      assert CachedAbbot(st', u) && CachedAbbot(st', op.pod.uid);
    } else {
      forall u | CachedAbbot(st', u)
        ensures CachedAbbot(st, u) || (!op.Gone? && u == op.pod.uid && Enters(st, op) && IsAbbotPod(op.pod))
      {
      }
    }
  }

  ghost predicate AlwaysOneAbbot(st: State, ops: seq<Op>)
    decreases ops
  {
    OneAbbot(st) && (ops == [] || AlwaysOneAbbot(Step(st, ops[0]).0, ops[1..]))
  }

  ghost predicate NeverSecond(st: State, ops: seq<Op>)
    decreases ops
  {
    ops == [] || (!Second(st, ops[0]) && NeverSecond(Step(st, ops[0]).0, ops[1..]))
  }

  /** Every state of a run has at most one abbot pod exactly when no operation caches a second one. */
  lemma {:induction false} RunOneAbbotIff(st: State, ops: seq<Op>)
    requires OneAbbot(st)
    ensures AlwaysOneAbbot(st, ops) <==> NeverSecond(st, ops)
    decreases ops
  {
    if ops != [] {
      StepOneAbbotIff(st, ops[0]);
      if OneAbbot(Step(st, ops[0]).0) { RunOneAbbotIff(Step(st, ops[0]).0, ops[1..]); }
    }
  }

  /** A pending host network pod that is an abbot pod. */
  ghost predicate NewAbbot(p: Pod)
  {
    IsAbbotPod(p) && !RequireClusterNetwork(p) && !Bypasses(p) && p.uid != ""
  }

  /** After a restart a running abbot pod is cached but not recorded, and a second one joins it. */
  lemma RunningAbbotIsForgotten(p: Pod, q: Pod)
    requires IsAbbotPod(p) && !RequireClusterNetwork(p) && p.phase == Running && p.uid != ""
    requires NewAbbot(q) && q.uid != p.uid
    ensures var st := Run(State(EmptyCache, ""), [Create(p, true), Create(q, true)]);
            !OneAbbot(st) && st.abbot == q.uid && p.uid in st.cache.byUID && q.uid in st.cache.byUID
  {
    var st1 := Step(State(EmptyCache, ""), Create(p, true)).0;
    var st2 := Step(st1, Create(q, true)).0;
    assert Run(st1, [Create(q, true)]) == Run(st2, []);
    assert CachedAbbot(st2, p.uid) && CachedAbbot(st2, q.uid);
  }

  /**
   * An abbot pod whose deletion is admitted is no longer recorded but still cached, and a
   * second one joins it. The deletion of the first, tried again, then clears the record.
   */
  lemma DeletedAbbotLingers(p: Pod, q: Pod)
    requires NewAbbot(p) && NewAbbot(q) && q.uid != p.uid
    ensures var st := Run(State(EmptyCache, ""), [Create(p, true), Delete(p, true), Create(q, true)]);
            && !OneAbbot(st) && st.abbot == q.uid && p.uid in st.cache.byUID && q.uid in st.cache.byUID
            && Step(st, Delete(p, true)).0.abbot == ""
  {
    var st1 := Step(State(EmptyCache, ""), Create(p, true)).0;
    var st2 := Step(st1, Delete(p, true)).0;
    var st3 := Step(st2, Create(q, true)).0;
    assert st2 == st1.(abbot := "");
    assert Run(st1, [Delete(p, true), Create(q, true)]) == Run(st2, [Create(q, true)]) == Run(st3, []);
    assert CachedAbbot(st3, p.uid) && CachedAbbot(st3, q.uid);
  }

  /** A cached pod that gets the role label joins the abbot pod, by a refresh or once it is running. */
  lemma RelabelledPodJoins(p: Pod, q: Pod)
    requires NewAbbot(p) && !RequireClusterNetwork(q) && !IsAbbotPod(q) && q.uid != p.uid
    requires ContainerNameAbbot in q.containers
    ensures var relabelled := q.(labels := map[LabelRole := LabelRoleValueAbbot]);
            var st := Run(State(EmptyCache, ""), [Create(p, true), Create(q, true)]);
            && OneAbbot(st) && !OneAbbot(Step(st, Refresh(relabelled)).0)
            && !OneAbbot(Step(st, Create(relabelled.(phase := Running), true)).0)
  {
    var relabelled := q.(labels := map[LabelRole := LabelRoleValueAbbot]);
    var st1 := Step(State(EmptyCache, ""), Create(p, true)).0;
    var st2 := Step(st1, Create(q, true)).0;
    var st3 := Step(st2, Refresh(relabelled)).0;
    assert Run(st1, [Create(q, true)]) == Run(st2, []);
    assert forall u :: CachedAbbot(st2, u) ==> u == p.uid;
    assert CachedAbbot(st3, p.uid) && CachedAbbot(st3, q.uid);
    var st4 := Step(st2, Create(relabelled.(phase := Running), true)).0;
    assert CachedAbbot(st4, p.uid) && CachedAbbot(st4, q.uid);
  }

  /** Deleting some other cached pod, whatever has become of it since, clears the record of the abbot pod. */
  ghost predicate LosesRecord(st: State, p: Pod, patchOk: bool)
  {
    p.uid in st.cache.byUID && p.uid != st.abbot && Step(st, Delete(p, patchOk)).0.abbot != st.abbot
  }

  /**
   * The deletion of a pod other than the recorded abbot pod can clear the record exactly when
   * no pod on the cluster network is cached and some other pod is: as it is cached, if that is
   * an abbot pod, and else once it is made one.
   */
  lemma ForeignDeletionClearsIff(st: State)
    requires st.abbot != "" && st.cache.Valid()
    ensures (exists p, patchOk :: LosesRecord(st, p, patchOk)) <==>
            !st.cache.HasClusterPod() && exists u :: u in st.cache.byUID && u != st.abbot
    ensures forall u :: u in st.cache.byUID && u != st.abbot ==>
              (LosesRecord(st, st.cache.byUID[u], true) <==> !st.cache.HasClusterPod() && CachedAbbot(st, u))
  {
    if u :| !st.cache.HasClusterPod() && u in st.cache.byUID && u != st.abbot {
      var p := st.cache.byUID[u].(labels := map[LabelRole := LabelRoleValueAbbot], containers := [ContainerNameAbbot]);
      assert IsAbbotPod(p) && !RequireClusterNetwork(p);
      assert LosesRecord(st, p, true);
    }
  }

  // ---------------------------------------------------------------- the record and its pod

  /** The recorded abbot pod is cached. */
  predicate RecordCached(st: State) { st.abbot != "" ==> st.abbot in st.cache.byUID }

  /** The recorded abbot pod is about to leave the cache. */
  predicate Orphans(st: State, op: Op) { st.abbot != "" && op == Gone(st.abbot) }

  ghost predicate AlwaysRecordCached(st: State, ops: seq<Op>)
    decreases ops
  {
    RecordCached(st) && (ops == [] || AlwaysRecordCached(Step(st, ops[0]).0, ops[1..]))
  }

  ghost predicate NeverOrphans(st: State, ops: seq<Op>)
    decreases ops
  {
    ops == [] || (!Orphans(st, ops[0]) && NeverOrphans(Step(st, ops[0]).0, ops[1..]))
  }

  /** The record names a cached pod in every state of a run, exactly when that pod never goes while it is recorded. */
  lemma {:induction false} RunRecordCachedIff(st: State, ops: seq<Op>)
    requires RecordCached(st)
    ensures AlwaysRecordCached(st, ops) <==> NeverOrphans(st, ops)
    decreases ops
  {
    if ops != [] {
      var st' := Step(st, ops[0]).0;
      assert RecordCached(st') <==> !Orphans(st, ops[0]);
      if RecordCached(st') { RunRecordCachedIff(st', ops[1..]); }
    }
  }

  /**
   * An abbot pod reconciled once more after its deletion was admitted is recorded again. Once
   * it is gone, the record stays, and every new abbot pod is refused.
   */
  lemma RecordOutlivesPod(p: Pod, q: Pod, patchOk: bool)
    requires NewAbbot(p) && NewAbbot(q)
    ensures var st := Run(State(EmptyCache, ""), [Create(p, true), Delete(p, true), Create(p, true), Gone(p.uid)]);
            !RecordCached(st) && Step(st, Create(q, patchOk)) == (st, Refused(SecondAbbot))
  {
    var st1 := Step(State(EmptyCache, ""), Create(p, true)).0;
    var st2 := Step(st1, Delete(p, true)).0;
    assert st2 == st1.(abbot := "");
    var st3 := Step(st2, Create(p, true)).0;
    var st4 := Step(st3, Gone(p.uid)).0;
    assert Run(st3, [Gone(p.uid)]) == Run(st4, []);
    assert Run(st1, [Delete(p, true), Create(p, true), Gone(p.uid)]) == Run(st2, [Create(p, true), Gone(p.uid)]) ==
           Run(st3, [Gone(p.uid)]);
  }

  /**
   * An admitted pod that comes up for admission again as it was cached, while still pending,
   * is let in again, with nothing changed, unless it is the abbot pod itself: that one is
   * refused as a second abbot pod.
   */
  lemma ReadmittedUnlessAbbot(st: State, p: Pod, patchOk: bool, again: bool)
    requires !Bypasses(p) && Stable(st, Create(p, patchOk)) && Step(st, Create(p, patchOk)).1 == Proceed
    requires st.abbot in st.cache.byUID ==> !RequireClusterNetwork(st.cache.byUID[st.abbot])
    ensures var st' := Step(st, Create(p, patchOk)).0;
            && p.uid in st'.cache.byUID
            && Step(st', Create(st'.cache.byUID[p.uid], again)) ==
               (st', if RequireClusterNetwork(p) || !IsAbbotPod(p) then Proceed else Refused(SecondAbbot))
  {
    var st' := Step(st, Create(p, patchOk)).0;
    var q := st'.cache.byUID[p.uid];
    assert RequireClusterNetwork(q) == RequireClusterNetwork(p) && IsAbbotPod(q) == IsAbbotPod(p) && q.id == p.id;
    assert q.finalizers + {FinalizerClusterNetwork} == q.finalizers || !RequireClusterNetwork(p);
    assert st'.cache.byUID[p.uid := q] == st'.cache.byUID && st'.cache.byName[p.id := q] == st'.cache.byName;
  }

  // ---------------------------------------------------------------- the objects

  method LooksLikeAbbot(p: Pod) returns (r: bool)
    ensures r == IsAbbotPod(p)
    ensures r <==> LabelRole in p.labels && p.labels[LabelRole] == "Abbot" && "abbot" in p.containers
  {
    if LabelRole in p.labels && p.labels[LabelRole] == LabelRoleValueAbbot {
      for i := 0 to |p.containers|
        invariant ContainerNameAbbot !in p.containers[..i]
      {
        if p.containers[i] == ContainerNameAbbot {
          return true;
        }
      }
    }
    return false;
  }

  class PodCache {
    var uidIndex: map<UID, Pod>
    var nameIndex: map<Name, Pod>
    var remoteDeleted: set<UID>

    function View(): (c: Cache)
      reads this
    {
      Cache(uidIndex, nameIndex, remoteDeleted)
    }

    constructor ()
      ensures View() == EmptyCache
    {
      uidIndex, nameIndex, remoteDeleted := map[], map[], {};
    }

    method Update(p: Pod)
      modifies this
      ensures View() == Put(old(View()), p)
    {
      uidIndex := uidIndex[p.uid := p];
      nameIndex := nameIndex[p.id := p];
    }

    method Remove(u: UID)
      modifies this
      ensures View() == Drop(old(View()), u)
    {
      if u in uidIndex {
        nameIndex := nameIndex - {uidIndex[u].id};
      }
      uidIndex := uidIndex - {u};
      remoteDeleted := remoteDeleted - {u};
    }

    method GetAll() returns (pods: seq<Pod>)
      ensures forall p :: p in pods <==> exists u :: u in uidIndex && uidIndex[u] == p
    {
      pods := [];
      var left := uidIndex.Keys;
      while left != {}
        invariant left <= uidIndex.Keys
        invariant forall p :: p in pods <==> exists u :: u in uidIndex && u !in left && uidIndex[u] == p
        decreases left
      {
        var u :| u in left;
        left := left - {u};
        pods := pods + [uidIndex[u]];
      }
    }

    /** Empties both indexes: no name is left behind, since every name entry is a cached pod. */
    method Cleanup()
      requires View().Valid()
      modifies this
      ensures View() == EmptyCache.(remoteDeleted := old(remoteDeleted))
    {
      var left := uidIndex.Keys;
      while left != {}
        invariant left <= uidIndex.Keys && uidIndex == old(uidIndex) && remoteDeleted == old(remoteDeleted)
        invariant forall n :: n in nameIndex ==> n in old(nameIndex) && nameIndex[n] == old(nameIndex)[n]
        invariant forall n :: n in nameIndex ==> nameIndex[n].uid in left
        decreases left
      {
        var u :| u in left;
        left := left - {u};
        nameIndex := nameIndex - {uidIndex[u].id};
      }
      uidIndex := map[];
      assert nameIndex == map[];
    }
  }

  class PodManager {
    const podCache: PodCache
    var abbotPodUID: UID

    function View(): (st: State)
      reads this, podCache
    {
      State(podCache.View(), abbotPodUID)
    }

    constructor ()
      ensures View() == State(EmptyCache, "")
    {
      podCache := new PodCache();
      abbotPodUID := "";
    }

    method AdmitPodCreation(p: Pod, patchOk: bool) returns (d: Decision)
      modifies this, podCache
      ensures (View(), d) == AdmitCreation(old(View()), p, patchOk)
    {
      if p.phase == Running || p.phase == Succeeded || p.phase == Failed {
        podCache.Update(p);
        return Handled;
      }
      if RequireClusterNetwork(p) {
        if abbotPodUID == "" {
          return Refused(NoAbbot);
        }
        if abbotPodUID !in podCache.uidIndex {
          return Refused(AbbotNotCached);
        }
        if podCache.uidIndex[abbotPodUID].phase != Running {
          return Refused(AbbotNotRunning);
        }
        if FinalizerClusterNetwork !in p.finalizers && !patchOk {
          return Refused(FinalizerFailed);
        }
        podCache.Update(p.(finalizers := p.finalizers + {FinalizerClusterNetwork}));
        return Proceed;
      }
      var abbot := LooksLikeAbbot(p);
      if !abbot {
        podCache.Update(p);
        return Proceed;
      }
      if abbotPodUID != "" {
        return Refused(SecondAbbot);
      }
      if FinalizerClusterNetworkManager !in p.finalizers && !patchOk {
        return Refused(FinalizerFailed);
      }
      abbotPodUID := p.uid;
      podCache.Update(p.(finalizers := p.finalizers + {FinalizerClusterNetworkManager}));
      return Proceed;
    }

    method AdmitPodDeletion(p: Pod, patchOk: bool) returns (d: Decision)
      modifies this
      ensures (View(), d) == AdmitDeletion(old(View()), p, patchOk)
    {
      if RequireClusterNetwork(p) {
        if abbotPodUID == "" {
          return Refused(NoAbbot);
        }
        if FinalizerClusterNetwork in p.finalizers && !patchOk {
          return Refused(FinalizerFailed);
        }
        return Proceed;
      }
      var abbot := LooksLikeAbbot(p);
      if !abbot {
        return Proceed;
      }
      var pods := podCache.GetAll();
      for i := 0 to |pods|
        invariant forall j :: 0 <= j < i ==> !RequireClusterNetwork(pods[j])
      {
        assert pods[i] in pods;
        if RequireClusterNetwork(pods[i]) {
          return Refused(ClusterPodsLeft);
        }
      }
      assert forall u :: u in podCache.uidIndex ==> podCache.uidIndex[u] in pods;
      if FinalizerClusterNetworkManager in p.finalizers && !patchOk {
        return Refused(FinalizerFailed);
      }
      abbotPodUID := "";
      return Proceed;
    }
  }
}
