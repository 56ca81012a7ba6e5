// Node conditions: translateNodeConditions of pkg/virtualnode/remote_actions.go and the
// cache of pkg/virtualnode/node_cache.go that carries them from report to report.
module Conditions {

  datatype Kind = NodeReady | MemoryPressure | DiskPressure | PIDPressure | NetworkUnavailable

  datatype Status = ConditionTrue | ConditionFalse | ConditionUnknown

  /** What the device says about one aspect. */
  datatype Health = Healthy | Unhealthy | Unspecified

  datatype Report = Report(ready: Health, memory: Health, disk: Health, pid: Health, network: Health)

  /** Times are positive; 0 is the zero time. */
  datatype Condition = Condition(kind: Kind, status: Status, lastTransition: nat, lastHeartbeat: nat)

  const Kinds: seq<Kind> := [NodeReady, MemoryPressure, DiskPressure, PIDPressure, NetworkUnavailable]

  /** A pressure condition is true when the device is unhealthy; readiness is the other way round. */
  function Translate(r: Report, k: Kind): (s: Status)
  {
    match k
    case NodeReady =>
      (match r.ready case Healthy => ConditionTrue case Unhealthy => ConditionFalse case Unspecified => ConditionUnknown)
    case MemoryPressure => Pressure(r.memory)
    case DiskPressure => Pressure(r.disk)
    case PIDPressure => Pressure(r.pid)
    case NetworkUnavailable => Pressure(r.network)
  }

  function Pressure(h: Health): (s: Status)
  {
    match h case Healthy => ConditionFalse case Unhealthy => ConditionTrue case Unspecified => ConditionUnknown
  }

  /** Everything the device reports healthy makes the node ready and free of pressure; an unhealthy aspect turns its own condition only. */
  lemma AspectDecides(r: Report, h: Health, k: Kind)
    ensures Translate(r.(ready := Healthy), NodeReady) == ConditionTrue
    ensures Translate(r.(ready := Unhealthy), NodeReady) == ConditionFalse
    ensures Translate(r.(ready := Unspecified), NodeReady) == ConditionUnknown
    ensures k != NodeReady ==> Translate(r.(ready := h), k) == Translate(r, k)
    ensures k != MemoryPressure ==> Translate(r.(memory := h), k) == Translate(r, k)
    ensures k != DiskPressure ==> Translate(r.(disk := h), k) == Translate(r, k)
    ensures k != PIDPressure ==> Translate(r.(pid := h), k) == Translate(r, k)
    ensures k != NetworkUnavailable ==> Translate(r.(network := h), k) == Translate(r, k)
    ensures k != NodeReady ==> Translate(Report(h, Healthy, Healthy, Healthy, Healthy), k) == ConditionFalse
    ensures k != NodeReady ==> Translate(Report(h, Unhealthy, Unhealthy, Unhealthy, Unhealthy), k) == ConditionTrue
    ensures k != NodeReady ==> Translate(Report(h, Unspecified, Unspecified, Unspecified, Unspecified), k) == ConditionUnknown
  {
  }

  /** The transition time after walking the previous conditions: the last one of the kind decides. */
  function Transition(prev: seq<Condition>, k: Kind, s: Status, now: nat): (t: nat)
  {
    if prev == [] then 0
    else
      var last := prev[|prev| - 1];
      if last.kind != k then Transition(prev[..|prev| - 1], k, s, now)
      else if last.status == s && last.lastTransition != 0 then last.lastTransition
      else now
  }

  function Next(prev: seq<Condition>, r: Report, k: Kind, now: nat): (c: Condition)
  {
    var t := Transition(prev, k, Translate(r, k), now);
    Condition(k, Translate(r, k), if t == 0 then now else t, now)
  }

  function NextAll(prev: seq<Condition>, r: Report, now: nat): (cs: seq<Condition>)
    ensures |cs| == |Kinds| && forall i :: 0 <= i < |Kinds| ==> cs[i] == Next(prev, r, Kinds[i], now)
  {
    seq(|Kinds|, i requires 0 <= i < |Kinds| => Next(prev, r, Kinds[i], now))
  }

  method TranslateNodeConditions(prev: seq<Condition>, r: Report, now: nat) returns (result: seq<Condition>)
    requires now > 0
    ensures result == NextAll(prev, r, now)
  {
    result := seq(|Kinds|, i requires 0 <= i < |Kinds| => Condition(Kinds[i], Translate(r, Kinds[i]), 0, 0));
    for i := 0 to |Kinds|
      invariant |result| == |Kinds|
      invariant forall k :: 0 <= k < i ==> result[k] == Next(prev, r, Kinds[k], now)
      invariant forall k :: i <= k < |Kinds| ==> result[k] == Condition(Kinds[k], Translate(r, Kinds[k]), 0, 0)
    {
      var current := result[i];
      for j := 0 to |prev|
        invariant |result| == |Kinds|
        invariant forall k :: 0 <= k < |Kinds| && k != i ==>
                    result[k] == if k < i then Next(prev, r, Kinds[k], now) else Condition(Kinds[k], Translate(r, Kinds[k]), 0, 0)
        invariant result[i] == current.(lastTransition := Transition(prev[..j], Kinds[i], Translate(r, Kinds[i]), now))
      {
        var last := prev[j];
        assert prev[..j + 1][..j] == prev[..j];
        if last.kind != current.kind {
          continue;
        }
        if last.status == current.status && last.lastTransition != 0 {
          result := result[i := result[i].(lastTransition := prev[j].lastTransition)];
          continue;
        }
        result := result[i := result[i].(lastTransition := now)];
      }
      assert prev[..|prev|] == prev;
      if result[i].lastTransition == 0 {
        result := result[i := result[i].(lastTransition := now)];
      }
      result := result[i := result[i].(lastHeartbeat := now)];
    }
  }

  // ---------------------------------------------------------------- runs of reports

  datatype Entry = Entry(report: Report, time: nat)

  /** The cached conditions after a sequence of reports. */
  function Cached(history: seq<Entry>): (cs: seq<Condition>)
  {
    if history == [] then []
    else
      var last := history[|history| - 1];
      NextAll(Cached(history[..|history| - 1]), last.report, last.time)
  }

  /** The report at i opens the unbroken run of one status that reaches to the last report. */
  ghost predicate OpensRun(history: seq<Entry>, k: Kind, i: nat)
  {
    && i < |history|
    && (forall j :: i <= j < |history| ==> Translate(history[j].report, k) == Translate(history[|history| - 1].report, k))
    && (i > 0 ==> Translate(history[i - 1].report, k) != Translate(history[|history| - 1].report, k))
  }

  lemma CachedTransition(cs: seq<Condition>, i: nat, s: Status, now: nat)
    requires |cs| == |Kinds| && i < |Kinds| && forall k :: 0 <= k < |Kinds| ==> cs[k].kind == Kinds[k]
    ensures Transition(cs, Kinds[i], s, now) ==
            if cs[i].status == s && cs[i].lastTransition != 0 then cs[i].lastTransition else now
  {
    TransitionSkips(cs, i, s, now, |cs|);
    assert cs[..|cs|] == cs;
  }

  lemma {:induction false} TransitionSkips(cs: seq<Condition>, i: nat, s: Status, now: nat, n: nat)
    requires |cs| == |Kinds| && i < n <= |cs| && forall k :: 0 <= k < |Kinds| ==> cs[k].kind == Kinds[k]
    ensures Transition(cs[..n], Kinds[i], s, now) ==
            if cs[i].status == s && cs[i].lastTransition != 0 then cs[i].lastTransition else now
    decreases n
  {
    assert cs[..n][..n - 1] == cs[..n - 1] && cs[..n][n - 1] == cs[n - 1];
    if n - 1 != i {
      assert Kinds[n - 1] != Kinds[i];
      TransitionSkips(cs, i, s, now, n - 1);
    }
  }

  /** Only one report opens the current run. */
  lemma RunStartIsUnique(history: seq<Entry>, k: Kind, i: nat, j: nat)
    requires OpensRun(history, k, i) && OpensRun(history, k, j)
    ensures i == j
  {
    assert j > 0 ==> Translate(history[j - 1].report, k) != Translate(history[|history| - 1].report, k);
    assert i > 0 ==> Translate(history[i - 1].report, k) != Translate(history[|history| - 1].report, k);
  }

  /**
   * After any sequence of reports the cache holds the five conditions once each, with the
   * status and time of the last report, and each has its transition time from the report
   * that opened the current unbroken run of its status, however the clock moved.
   */
  lemma {:induction false} TransitionIsRunStart(history: seq<Entry>, k: nat)
    requires history != [] && k < |Kinds| && forall j :: 0 <= j < |history| ==> history[j].time > 0
    ensures var cs := Cached(history);
            && |cs| == |Kinds| && cs[k].kind == Kinds[k]
            && cs[k].status == Translate(history[|history| - 1].report, Kinds[k])
            && cs[k].lastHeartbeat == history[|history| - 1].time
            && exists i: nat :: OpensRun(history, Kinds[k], i) && cs[k].lastTransition == history[i].time
  {
    var n := |history|;
    var front := history[..n - 1];
    var s := Translate(history[n - 1].report, Kinds[k]);
    if front == [] {
      assert OpensRun(history, Kinds[k], 0);
    } else {
      TransitionIsRunStart(front, k);
      var prev := Cached(front);
      CachedTransition(prev, k, s, history[n - 1].time);
      assert forall j :: 0 <= j < n - 1 ==> front[j] == history[j];
      if prev[k].status == s {
        var i: nat :| OpensRun(front, Kinds[k], i) && prev[k].lastTransition == front[i].time;
        assert OpensRun(history, Kinds[k], i);
      } else {
        assert OpensRun(history, Kinds[k], n - 1);
      }
    }
  }

  // ---------------------------------------------------------------- the cache object

  class NodeCache {
    var conditions: seq<Condition>

    constructor ()
      ensures conditions == Cached([])
    {
      conditions := [];
    }

    method UpdateConditions(c: seq<Condition>)
      modifies this
      ensures conditions == if c == [] then old(conditions) else c
    {
      if |c| == 0 {
        return;
      }
      conditions := c;
    }

    /** The conditions part of updateNodeCache, after the reports in `history`. */
    method UpdateNodeCache(r: Report, now: nat, ghost history: seq<Entry>)
      requires now > 0 && conditions == Cached(history)
      modifies this
      ensures conditions == Cached(history + [Entry(r, now)])
    {
      var next := TranslateNodeConditions(conditions, r, now);
      UpdateConditions(next);
      assert (history + [Entry(r, now)])[..|history|] == history;
    }
  }
}
