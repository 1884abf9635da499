/** Debounced release hooks: bursts of triggers are merged into one dispatch per quiet window. */
module HookQueue {
  import opened Options

  datatype Request = Request(version: string, requestedBy: string, source: string)

  const NoRequest := Request("", "", "")

  /** A row of release_hooks; times are seconds. */
  datatype Hook = Hook(
    project: nat, enabled: bool, debounce: nat, pending: Request, pendingEvents: nat, dueAt: Option<nat>,
    triggerCount: nat, mergeCount: nat, runCount: nat)

  /** What happened to hooks: triggers and dispatches as in release_hook_events, and changes of configuration. */
  datatype Entry =
    | Configured(hook: nat, debounce: nat)
    | Triggered(hook: nat, request: Request, at: nat)
    | Dispatched(hook: nat, request: Request, events: nat, at: nat)
    | Dropped(hook: nat, events: nat)

  datatype Hooks = Hooks(rows: seq<Hook>, log: seq<Entry>)

  /******* Steps on one hook *******/

  function Create(w: Hooks, project: nat, enabled: bool, debounce: nat): Hooks {
    Hooks(w.rows + [Hook(project, enabled, debounce, NoRequest, 0, None, 0, 0, 0)],
          w.log + [Configured(|w.rows|, debounce)])
  }

  /** The row update shared by QueueReleaseHook and QueueProjectReleaseHooks. */
  function Trigger(w: Hooks, id: nat, request: Request, now: nat): (x: Hooks)
    ensures |x.rows| == |w.rows|
  {
    if id >= |w.rows| || !w.rows[id].enabled then w
    else
      var h := w.rows[id];
      Hooks(w.rows[id := h.(pending := request, dueAt := Some(now + h.debounce), pendingEvents := h.pendingEvents + 1,
                              triggerCount := h.triggerCount + 1,
                              mergeCount := h.mergeCount + if h.pendingEvents > 0 then 1 else 0)],
            w.log + [Triggered(id, request, now)])
  }

  predicate Due(h: Hook, now: nat) {
    h.enabled && h.dueAt.Some? && h.dueAt.value <= now
  }

  /** The claim of one due hook. */
  function Claim(w: Hooks, id: nat, now: nat): (x: Hooks)
    ensures |x.rows| == |w.rows|
  {
    if id >= |w.rows| || !Due(w.rows[id], now) then w
    else
      var h := w.rows[id];
      Hooks(w.rows[id := h.(pending := NoRequest, dueAt := None, pendingEvents := 0, runCount := h.runCount + 1)],
            w.log + [Dispatched(id, h.pending, h.pendingEvents, now)])
  }

  /** UpdateReleaseHook: disabling clears what is pending. */
  function Update(w: Hooks, id: nat, enabled: bool, debounce: nat): (x: Hooks)
    ensures |x.rows| == |w.rows|
  {
    if id >= |w.rows| then w
    else
      var h := w.rows[id].(enabled := enabled, debounce := debounce);
      var log := w.log + [Configured(id, debounce)];
      if enabled then Hooks(w.rows[id := h], log)
      else
        Hooks(w.rows[id := h.(pending := NoRequest, dueAt := None, pendingEvents := 0)],
              if h.pendingEvents > 0 then log + [Dropped(id, h.pendingEvents)] else log)
  }

  /******* Operations *******/

  datatype Op =
    | CreateOp(project: nat, enabled: bool, debounce: nat)
    | UpdateOp(id: nat, enabled: bool, debounce: nat)
    | TriggerOp(id: nat, request: Request, now: nat)
    | TriggerProjectOp(project: nat, request: Request, now: nat)
    | ClaimOp(ids: seq<nat>, now: nat)

  /** The enabled hooks of a project, in the order of their ids. */
  function Selected(rows: seq<Hook>, project: nat): (ids: seq<nat>)
    ensures forall i :: 0 <= i < |ids| ==> ids[i] < |rows| && rows[ids[i]].project == project && rows[ids[i]].enabled
    ensures forall id :: 0 <= id < |rows| && rows[id].project == project && rows[id].enabled ==> id in ids
    ensures Increasing(ids)
  {
    if rows == [] then []
    else
      var n := |rows| - 1;
      Selected(rows[..n], project) + if rows[n].project == project && rows[n].enabled then [n] else []
  }

  function TriggerAll(w: Hooks, ids: seq<nat>, request: Request, now: nat): (x: Hooks)
    ensures |x.rows| == |w.rows|
  {
    if ids == [] then w else Trigger(TriggerAll(w, ids[..|ids| - 1], request, now), ids[|ids| - 1], request, now)
  }

  function ClaimAll(w: Hooks, ids: seq<nat>, now: nat): (x: Hooks)
    ensures |x.rows| == |w.rows|
  {
    if ids == [] then w else Claim(ClaimAll(w, ids[..|ids| - 1], now), ids[|ids| - 1], now)
  }

  function Apply(w: Hooks, op: Op): Hooks {
    match op
    case CreateOp(project, enabled, debounce) => Create(w, project, enabled, debounce)
    case UpdateOp(id, enabled, debounce) => Update(w, id, enabled, debounce)
    case TriggerOp(id, request, now) => Trigger(w, id, request, now)
    case TriggerProjectOp(project, request, now) => TriggerAll(w, Selected(w.rows, project), request, now)
    case ClaimOp(ids, now) => ClaimAll(w, ids, now)
  }

  function ApplyAll(w: Hooks, ops: seq<Op>): Hooks {
    if ops == [] then w else Apply(ApplyAll(w, ops[..|ops| - 1]), ops[|ops| - 1])
  }

  /******* Reading the log *******/

  /** Totals over the log for one hook. */
  datatype Totals = Totals(triggers: nat, claimed: nat, claims: nat, dropped: nat, cancelled: nat)

  function Total(log: seq<Entry>, id: nat): Totals {
    if log == [] then Totals(0, 0, 0, 0, 0)
    else
      var t, e := Total(log[..|log| - 1], id), log[|log| - 1];
      if e.hook != id then t
      else
        match e
        case Configured(_, _) => t
        case Triggered(_, _, _) => t.(triggers := t.triggers + 1)
        case Dispatched(_, _, events, _) => t.(claimed := t.claimed + events, claims := t.claims + 1)
        case Dropped(_, events) => t.(dropped := t.dropped + events, cancelled := t.cancelled + 1)
  }

  /** The positions of the triggers that wait for a dispatch. */
  function Window(log: seq<Entry>, id: nat): seq<nat> {
    if log == [] then []
    else
      var win, e := Window(log[..|log| - 1], id), log[|log| - 1];
      if e.hook != id || e.Configured? then win
      else if e.Triggered? then win + [|log| - 1]
      else []
  }

  /** The debounce in force. */
  function InForce(log: seq<Entry>, id: nat): nat {
    if log == [] then 0
    else
      var e := log[|log| - 1];
      if e.hook == id && e.Configured? then e.debounce else InForce(log[..|log| - 1], id)
  }

  predicate Closes(e: Entry, id: nat) {
    e.hook == id && (e.Dispatched? || e.Dropped?)
  }

  predicate Increasing(s: seq<nat>) {
    forall a, b :: 0 <= a < b < |s| ==> s[a] < s[b]
  }

  /** A trigger of the hook that no later dispatch or cancellation closed. */
  predicate Open(log: seq<Entry>, id: nat, j: nat) {
    j < |log| && log[j].Triggered? && log[j].hook == id && forall k :: j < k < |log| ==> !Closes(log[k], id)
  }

  lemma OpenStep(log: seq<Entry>, id: nat, j: nat)
    requires j < |log| - 1
    ensures Open(log, id, j) <==> Open(log[..|log| - 1], id, j) && !Closes(log[|log| - 1], id)
  {
  }

  /** The window holds exactly the open triggers, in order. */
  lemma {:induction false} WindowHoldsOpen(log: seq<Entry>, id: nat, j: nat)
    ensures j in Window(log, id) <==> Open(log, id, j)
  {
    if log != [] {
      WindowHoldsOpen(log[..|log| - 1], id, j);
      if j < |log| - 1 {
        OpenStep(log, id, j);
      }
    }
  }

  lemma {:induction false} WindowIncreases(log: seq<Entry>, id: nat)
    ensures Increasing(Window(log, id)) && forall a :: 0 <= a < |Window(log, id)| ==> Window(log, id)[a] < |log|
  {
    if log != [] {
      WindowIncreases(log[..|log| - 1], id);
    }
  }

  /******* The invariant *******/

  /** A trigger at position j, merged last, makes the hook due when its debounce has passed. */
  function DueTime(log: seq<Entry>, id: nat, j: nat): nat
    requires j < |log| && log[j].Triggered?
  {
    log[j].at + InForce(log[..j], id)
  }

  predicate LastTrigger(log: seq<Entry>, id: nat, j: nat) {
    var win := Window(log, id);
    win != [] && win[|win| - 1] == j && j < |log| && log[j].Triggered?
  }

  ghost predicate HookOk(h: Hook, log: seq<Entry>, id: nat) {
    var t := Total(log, id);
    && h.pendingEvents == |Window(log, id)|
    && h.debounce == InForce(log, id)
    && h.triggerCount == t.triggers == t.claimed + t.dropped + h.pendingEvents
    && h.triggerCount == h.mergeCount + t.claims + t.cancelled + (if h.pendingEvents > 0 then 1 else 0)
    && h.runCount == t.claims
    && (!h.enabled ==> h.pendingEvents == 0)
    && (h.pendingEvents == 0 ==> h.dueAt == None)
    && (h.pendingEvents > 0 ==>
          exists j: nat :: LastTrigger(log, id, j) && h.pending == log[j].request
            && h.dueAt == Some(DueTime(log, id, j)))
  }

  /** A dispatch carries the version of its last merged trigger, counts the merged ones, and is not early. */
  ghost predicate DispatchOk(log: seq<Entry>, e: Entry) {
    e.Dispatched? ==>
      && e.events == |Window(log, e.hook)|
      && exists j: nat :: LastTrigger(log, e.hook, j) && e.request == log[j].request && e.at >= DueTime(log, e.hook, j)
  }

  ghost predicate LogOk(log: seq<Entry>, hooks: nat) {
    forall i :: 0 <= i < |log| ==> log[i].hook < hooks && DispatchOk(log[..i], log[i])
  }

  ghost predicate Inv(w: Hooks) {
    LogOk(w.log, |w.rows|) && forall id :: 0 <= id < |w.rows| ==> HookOk(w.rows[id], w.log, id)
  }

  /******* Every step keeps it *******/

  /** Entries about other hooks do not matter. */
  lemma OtherEntry(h: Hook, log: seq<Entry>, id: nat, e: Entry)
    requires HookOk(h, log, id) && e.hook != id
    ensures HookOk(h, log + [e], id)
  {
    Appended(log, e);
    if h.pendingEvents > 0 {
      var j: nat :| LastTrigger(log, id, j) && h.pending == log[j].request && h.dueAt == Some(DueTime(log, id, j));
      KeepsLast(log, id, j, e);
    }
  }

  lemma Appended(log: seq<Entry>, e: Entry)
    ensures (log + [e])[..|log|] == log && (log + [e])[|log|] == e
  {
  }

  lemma KeepsLast(log: seq<Entry>, id: nat, j: nat, e: Entry)
    requires LastTrigger(log, id, j) && (e.hook != id || e.Configured?)
    ensures LastTrigger(log + [e], id, j) && (log + [e])[j] == log[j]
    ensures DueTime(log + [e], id, j) == DueTime(log, id, j)
  {
    Appended(log, e);
    assert (log + [e])[..j] == log[..j];
  }

  lemma LogGrows(log: seq<Entry>, hooks: nat, e: Entry, more: nat)
    requires LogOk(log, hooks) && hooks <= more && e.hook < more && DispatchOk(log, e)
    ensures LogOk(log + [e], more)
  {
    forall i | 0 <= i < |log + [e]| ensures (log + [e])[i].hook < more && DispatchOk((log + [e])[..i], (log + [e])[i]) {
      if i < |log| {
        assert (log + [e])[..i] == log[..i];
      } else {
        Appended(log, e);
      }
    }
  }

  /** One row and one entry change. */
  lemma OneRow(w: Hooks, id: nat, h: Hook, e: Entry)
    requires Inv(w) && id < |w.rows| && e.hook == id && DispatchOk(w.log, e) && HookOk(h, w.log + [e], id)
    ensures Inv(Hooks(w.rows[id := h], w.log + [e]))
  {
    LogGrows(w.log, |w.rows|, e, |w.rows|);
    var rows, log := w.rows[id := h], w.log + [e];
    forall k | 0 <= k < |rows| ensures HookOk(rows[k], log, k) {
      if k != id {
        OtherEntry(w.rows[k], w.log, k, e);
      }
    }
  }

  lemma {:induction false} Unknown(log: seq<Entry>, id: nat)
    requires forall i :: 0 <= i < |log| ==> log[i].hook != id
    ensures Total(log, id) == Totals(0, 0, 0, 0, 0) && Window(log, id) == []
  {
    if log != [] {
      Unknown(log[..|log| - 1], id);
    }
  }

  lemma CreateKeepsInv(w: Hooks, project: nat, enabled: bool, debounce: nat)
    requires Inv(w)
    ensures Inv(Create(w, project, enabled, debounce))
  {
    var id, e := |w.rows|, Configured(|w.rows|, debounce);
    Unknown(w.log, id);
    LogGrows(w.log, id, e, id + 1);
    Appended(w.log, e);
    var x := Create(w, project, enabled, debounce);
    forall k | 0 <= k < |x.rows| ensures HookOk(x.rows[k], x.log, k) {
      if k < id {
        OtherEntry(w.rows[k], w.log, k, e);
      }
    }
  }

  lemma TriggerKeepsInv(w: Hooks, id: nat, request: Request, now: nat)
    requires Inv(w)
    ensures Inv(Trigger(w, id, request, now))
  {
    if id < |w.rows| && w.rows[id].enabled {
      var e := Triggered(id, request, now);
      Appended(w.log, e);
      var log := w.log + [e];
      assert LastTrigger(log, id, |w.log|);
      assert DueTime(log, id, |w.log|) == now + w.rows[id].debounce;
      OneRow(w, id, Trigger(w, id, request, now).rows[id], e);
    }
  }

  lemma ClaimKeepsInv(w: Hooks, id: nat, now: nat)
    requires Inv(w)
    ensures Inv(Claim(w, id, now))
  {
    if id < |w.rows| && Due(w.rows[id], now) {
      var h := w.rows[id];
      var e := Dispatched(id, h.pending, h.pendingEvents, now);
      Appended(w.log, e);
      OneRow(w, id, Claim(w, id, now).rows[id], e);
    }
  }

  lemma ConfigureKeepsInv(w: Hooks, id: nat, enabled: bool, debounce: nat)
    requires Inv(w) && id < |w.rows| && (enabled || w.rows[id].pendingEvents == 0)
    ensures Inv(Update(w, id, enabled, debounce))
  {
    var h := w.rows[id];
    var e := Configured(id, debounce);
    Appended(w.log, e);
    if h.pendingEvents > 0 {
      var j: nat :| LastTrigger(w.log, id, j) && h.pending == w.log[j].request
        && h.dueAt == Some(DueTime(w.log, id, j));
      KeepsLast(w.log, id, j, e);
    }
    OneRow(w, id, Update(w, id, enabled, debounce).rows[id], e);
  }

  lemma DisableKeepsInv(w: Hooks, id: nat, debounce: nat)
    requires Inv(w) && id < |w.rows| && w.rows[id].pendingEvents > 0
    ensures Inv(Update(w, id, false, debounce))
  {
    ConfigureKeepsInv(w, id, true, debounce);
    var v := Update(w, id, true, debounce);
    var e := Dropped(id, w.rows[id].pendingEvents);
    Appended(v.log, e);
    var x := Update(w, id, false, debounce);
    OneRow(v, id, x.rows[id], e);
    assert x.rows == v.rows[id := x.rows[id]];
  }

  lemma {:induction false} TriggerAllKeepsInv(w: Hooks, ids: seq<nat>, request: Request, now: nat)
    requires Inv(w)
    ensures Inv(TriggerAll(w, ids, request, now))
  {
    if ids != [] {
      var before := TriggerAll(w, ids[..|ids| - 1], request, now);
      TriggerAllKeepsInv(w, ids[..|ids| - 1], request, now);
      TriggerKeepsInv(before, ids[|ids| - 1], request, now);
    }
  }

  lemma {:induction false} ClaimAllKeepsInv(w: Hooks, ids: seq<nat>, now: nat)
    requires Inv(w)
    ensures Inv(ClaimAll(w, ids, now))
  {
    if ids != [] {
      ClaimAllKeepsInv(w, ids[..|ids| - 1], now);
      ClaimKeepsInv(ClaimAll(w, ids[..|ids| - 1], now), ids[|ids| - 1], now);
    }
  }

  lemma ApplyKeepsInv(w: Hooks, op: Op)
    requires Inv(w)
    ensures Inv(Apply(w, op))
  {
    match op
    case CreateOp(project, enabled, debounce) => CreateKeepsInv(w, project, enabled, debounce);
    case UpdateOp(id, enabled, debounce) =>
      if id < |w.rows| {
        if enabled || w.rows[id].pendingEvents == 0 {
          ConfigureKeepsInv(w, id, enabled, debounce);
        } else {
          DisableKeepsInv(w, id, debounce);
        }
      }
    case TriggerOp(id, request, now) => TriggerKeepsInv(w, id, request, now);
    case TriggerProjectOp(project, request, now) => TriggerAllKeepsInv(w, Selected(w.rows, project), request, now);
    case ClaimOp(ids, now) => ClaimAllKeepsInv(w, ids, now);
  }

  const Empty := Hooks([], [])

  lemma {:induction false} RunKeepsInv(ops: seq<Op>)
    ensures Inv(ApplyAll(Empty, ops))
  {
    if ops != [] {
      RunKeepsInv(ops[..|ops| - 1]);
      ApplyKeepsInv(ApplyAll(Empty, ops[..|ops| - 1]), ops[|ops| - 1]);
    }
  }

  /** Debounce conservation, over every run: each trigger is dispatched, dropped by disabling or still pending; each
      window is claimed, cancelled or open; a disabled hook has nothing pending. */
  lemma {:induction false} DebounceConservation(ops: seq<Op>, id: nat)
    requires id < |ApplyAll(Empty, ops).rows|
    ensures var w := ApplyAll(Empty, ops);
      var h, t := w.rows[id], Total(w.log, id);
      && h.triggerCount == t.triggers == t.claimed + t.dropped + h.pendingEvents
      && h.triggerCount - h.mergeCount == t.claims + t.cancelled + (if h.pendingEvents > 0 then 1 else 0)
      && h.runCount == t.claims
      && (!h.enabled ==> h.pendingEvents == 0 && h.dueAt == None)
      && (h.dueAt.Some? <==> h.pendingEvents > 0)
  {
    RunKeepsInv(ops);
    var w := ApplyAll(Empty, ops);
    assert HookOk(w.rows[id], w.log, id);
  }

  /** Every dispatch, over every run, merges exactly the open triggers, carries the request of the last of them, and
      comes no earlier than that trigger plus the debounce then in force. */
  lemma {:induction false} DispatchesMergeOpenTriggers(ops: seq<Op>, i: nat) returns (j: nat)
    requires i < |ApplyAll(Empty, ops).log| && ApplyAll(Empty, ops).log[i].Dispatched?
    ensures var log := ApplyAll(Empty, ops).log;
      && j < i && log[j].Triggered? && log[j].hook == log[i].hook
      && (forall k :: j < k < i && log[k].hook == log[i].hook ==> log[k].Configured?)
      && log[i].request == log[j].request
      && log[i].at >= log[j].at + InForce(log[..j], log[i].hook)
      && log[i].events == |Window(log[..i], log[i].hook)| > 0
  {
    RunKeepsInv(ops);
    var log := ApplyAll(Empty, ops).log;
    var id := log[i].hook;
    var past := log[..i];
    assert DispatchOk(past, log[i]);
    j :| LastTrigger(past, id, j) && log[i].request == past[j].request && log[i].at >= DueTime(past, id, j);
    assert past[..j] == log[..j];
    forall k | j < k < i && log[k].hook == id ensures log[k].Configured? {
      LastIsLatest(past, id, j, k);
    }
    WindowHoldsOpen(past, id, j);
  }

  /** After the last open trigger the hook sees no other trigger and no close. */
  lemma LastIsLatest(log: seq<Entry>, id: nat, j: nat, k: nat)
    requires LastTrigger(log, id, j) && j < k < |log| && log[k].hook == id
    ensures log[k].Configured?
  {
    var win := Window(log, id);
    WindowHoldsOpen(log, id, j);
    assert win[|win| - 1] in win && !Closes(log[k], id);
    WindowIncreases(log, id);
    assert k !in win;
    WindowHoldsOpen(log, id, k);
  }
}
