/**
 What release hooks promise, told from the requests alone: how a hook is configured, what waits for its next dispatch,
 and when that dispatch may come.  Nothing here looks at rows or at the log; the theorems say that they agree.
 */
module HookTimeline {
  import opened Options
  import opened HookQueue

  datatype Setting = Setting(project: nat, enabled: bool, debounce: nat)

  /** The request a dispatch would carry, when it is due, and how many triggers it answers. */
  datatype Waiting = Waiting(request: Request, due: nat, triggers: nat)

  /** The hooks created so far; ids count from zero. */
  function Created(ops: seq<Op>): nat {
    if ops == [] then 0
    else Created(ops[..|ops| - 1]) + if ops[|ops| - 1].CreateOp? then 1 else 0
  }

  /** The last configuration of a hook. */
  function SettingOf(ops: seq<Op>, id: nat): Option<Setting> {
    if ops == [] then None
    else
      var past, op := ops[..|ops| - 1], ops[|ops| - 1];
      var was := SettingOf(past, id);
      if op.CreateOp? && id == Created(past) then Some(Setting(op.project, op.enabled, op.debounce))
      else if op.UpdateOp? && op.id == id && was.Some? then Some(Setting(was.value.project, op.enabled, op.debounce))
      else was
  }

  /** A request that the hook takes up: it is enabled, and the request names it or its project. */
  predicate Accepts(past: seq<Op>, op: Op, id: nat) {
    var setting := SettingOf(past, id);
    && setting.Some? && setting.value.enabled
    && ((op.TriggerOp? && op.id == id) || (op.TriggerProjectOp? && op.project == setting.value.project))
  }

  /** Disabling the hook drops what waits. */
  predicate Disables(op: Op, id: nat) {
    op.UpdateOp? && op.id == id && !op.enabled
  }

  /** A claim takes what waits and is due. */
  predicate Takes(past: seq<Op>, op: Op, id: nat)
    decreases |past|, 2
  {
    op.ClaimOp? && id in op.ids && WaitingFor(past, id).Some? && WaitingFor(past, id).value.due <= op.now
  }

  /** What waits for the next dispatch: every trigger replaces the request and starts the quiet time anew. */
  function WaitingFor(ops: seq<Op>, id: nat): Option<Waiting>
    decreases |ops|, 1
  {
    if ops == [] then None
    else
      var past, op := ops[..|ops| - 1], ops[|ops| - 1];
      var was := WaitingFor(past, id);
      if Accepts(past, op, id) then
        Some(Waiting(op.request, op.now + SettingOf(past, id).value.debounce,
                     1 + if was.Some? then was.value.triggers else 0))
      else if Disables(op, id) || Takes(past, op, id) then None
      else was
  }

  /** How many triggers were accepted, how many of them while another one waited, and how many dispatches there were. */
  datatype Counts = Counts(accepted: nat, merged: nat, dispatched: nat)

  function CountsOf(ops: seq<Op>, id: nat): Counts {
    if ops == [] then Counts(0, 0, 0)
    else
      var past, op := ops[..|ops| - 1], ops[|ops| - 1];
      var was := CountsOf(past, id);
      if Accepts(past, op, id) then
        was.(accepted := was.accepted + 1, merged := was.merged + if WaitingFor(past, id).Some? then 1 else 0)
      else if Takes(past, op, id) then was.(dispatched := was.dispatched + 1)
      else was
  }

  /******* The rows agree *******/

  predicate Shows(h: Hook, setting: Option<Setting>, waiting: Option<Waiting>, counts: Counts) {
    && setting == Some(Setting(h.project, h.enabled, h.debounce))
    && counts == Counts(h.triggerCount, h.mergeCount, h.runCount)
    && (waiting.Some? <==> h.pendingEvents > 0)
    && (waiting.Some? <==> h.dueAt.Some?)
    && (waiting.Some? ==>
          h.enabled && waiting == Some(Waiting(h.pending, h.dueAt.value, h.pendingEvents)))
  }

  /** Over every run, each row holds the last configuration of its hook, exactly what waits, and the counts. */
  lemma {:induction false} RowsAreAsAsked(ops: seq<Op>)
    ensures var rows := ApplyAll(Empty, ops).rows;
      |rows| == Created(ops)
      && forall id :: 0 <= id < |rows| ==> Shows(rows[id], SettingOf(ops, id), WaitingFor(ops, id), CountsOf(ops, id))
  {
    if ops != [] {
      var past, op := ops[..|ops| - 1], ops[|ops| - 1];
      assert ops == past + [op];
      RowsAreAsAsked(past);
      var w := ApplyAll(Empty, past);
      var x := Apply(w, op);
      CountOfRows(w, op);
      forall id | 0 <= id < |x.rows|
        ensures Shows(x.rows[id], SettingOf(ops, id), WaitingFor(ops, id), CountsOf(ops, id))
      {
        if id < |w.rows| {
          StepShows(w, past, op, id);
        } else {
          NewShows(w, past, op);
        }
      }
    }
  }

  lemma CountOfRows(w: Hooks, op: Op)
    ensures |Apply(w, op).rows| == |w.rows| + if op.CreateOp? then 1 else 0
    ensures op.CreateOp? ==> Apply(w, op).rows[..|w.rows|] == w.rows
  {
  }

  /** Nothing is said of a hook before it is created. */
  lemma {:induction false} NotCreated(ops: seq<Op>, id: nat)
    requires id >= Created(ops)
    ensures SettingOf(ops, id).None? && WaitingFor(ops, id).None? && CountsOf(ops, id) == Counts(0, 0, 0)
  {
    if ops != [] {
      NotCreated(ops[..|ops| - 1], id);
    }
  }

  /** What an operation leaves of a hook, by what it is to the hook. */
  lemma StepShows(w: Hooks, past: seq<Op>, op: Op, id: nat)
    requires id < |w.rows| == Created(past)
    requires Shows(w.rows[id], SettingOf(past, id), WaitingFor(past, id), CountsOf(past, id))
    ensures |Apply(w, op).rows| >= |w.rows|
    ensures var ops := past + [op];
      Shows(Apply(w, op).rows[id], SettingOf(ops, id), WaitingFor(ops, id), CountsOf(ops, id))
  {
    assert (past + [op])[..|past|] == past;
    CountOfRows(w, op);
    RowAfter(w, op, id);
    if op.TriggerOp? || op.TriggerProjectOp? {
      TriggerShows(w, past, op, id);
    } else if op.ClaimOp? {
      ClaimShows(w, past, op, id);
    }
  }

  lemma TriggerShows(w: Hooks, past: seq<Op>, op: Op, id: nat)
    requires id < |w.rows| && (op.TriggerOp? || op.TriggerProjectOp?)
    requires Shows(w.rows[id], SettingOf(past, id), WaitingFor(past, id), CountsOf(past, id))
    ensures var ops, h := past + [op], if Accepts(past, op, id) then Trigger(w, id, op.request, op.now).rows[id]
        else w.rows[id];
      Shows(h, SettingOf(ops, id), WaitingFor(ops, id), CountsOf(ops, id))
  {
    assert (past + [op])[..|past|] == past;
  }

  lemma ClaimShows(w: Hooks, past: seq<Op>, op: Op, id: nat)
    requires id < |w.rows| && op.ClaimOp?
    requires Shows(w.rows[id], SettingOf(past, id), WaitingFor(past, id), CountsOf(past, id))
    ensures var ops, h := past + [op], if id in op.ids then Claim(w, id, op.now).rows[id] else w.rows[id];
      Shows(h, SettingOf(ops, id), WaitingFor(ops, id), CountsOf(ops, id))
  {
    assert (past + [op])[..|past|] == past;
  }

  lemma NewShows(w: Hooks, past: seq<Op>, op: Op)
    requires |w.rows| == Created(past) && op.CreateOp?
    ensures |Apply(w, op).rows| == |w.rows| + 1
    ensures var ops, id := past + [op], |w.rows|;
      Shows(Apply(w, op).rows[id], SettingOf(ops, id), WaitingFor(ops, id), CountsOf(ops, id))
  {
    assert (past + [op])[..|past|] == past;
    NotCreated(past, |w.rows|);
  }

  /** One row under one operation. */
  lemma RowAfter(w: Hooks, op: Op, id: nat)
    requires id < |w.rows|
    ensures |Apply(w, op).rows| >= |w.rows|
    ensures Apply(w, op).rows[id] ==
      match op
      case CreateOp(_, _, _) => w.rows[id]
      case UpdateOp(i, enabled, debounce) =>
        if i == id then Update(w, id, enabled, debounce).rows[id] else w.rows[id]
      case TriggerOp(i, request, now) => if i == id then Trigger(w, id, request, now).rows[id] else w.rows[id]
      case TriggerProjectOp(project, request, now) =>
        if w.rows[id].project == project then Trigger(w, id, request, now).rows[id] else w.rows[id]
      case ClaimOp(ids, now) => if id in ids then Claim(w, id, now).rows[id] else w.rows[id]
  {
    CountOfRows(w, op);
    match op
    case CreateOp(_, _, _) =>
      assert Apply(w, op).rows[..|w.rows|][id] == w.rows[id];
    case UpdateOp(_, _, _) =>
    case TriggerOp(_, _, _) =>
    case TriggerProjectOp(project, request, now) =>
      TriggerAllRow(w, Selected(w.rows, project), request, now, id);
    case ClaimOp(ids, now) =>
      ClaimAllRow(w, ids, now, id);
  }

  /** Triggering a list of different hooks triggers each of them once and no other. */
  lemma {:induction false} TriggerAllRow(w: Hooks, ids: seq<nat>, request: Request, now: nat, id: nat)
    requires Increasing(ids) && id < |w.rows|
    ensures var x := TriggerAll(w, ids, request, now);
      x.rows[id] == if id in ids then Trigger(w, id, request, now).rows[id] else w.rows[id]
  {
    if ids != [] {
      var n := |ids| - 1;
      TriggerAllRow(w, ids[..n], request, now, id);
      assert ids == ids[..n] + [ids[n]];
      assert ids[n] !in ids[..n];
    }
  }

  /** Claiming a list claims the due ones of it. */
  lemma {:induction false} ClaimAllRow(w: Hooks, ids: seq<nat>, now: nat, id: nat)
    requires id < |w.rows|
    ensures var x := ClaimAll(w, ids, now);
      x.rows[id] == if id in ids then Claim(w, id, now).rows[id] else w.rows[id]
  {
    if ids != [] {
      var n := |ids| - 1;
      ClaimAllRow(w, ids[..n], now, id);
      assert ids == ids[..n] + [ids[n]];
    }
  }

  /******* The last trigger *******/

  /** What waits is the request of the last accepted trigger; it is due when that trigger's time plus the debounce then
      in force has passed; since then the hook accepted nothing, was not disabled and was not claimed. */
  lemma {:induction false} WaitingIsLastAccepted(ops: seq<Op>, id: nat) returns (k: nat)
    requires WaitingFor(ops, id).Some?
    ensures k < |ops| && Accepts(ops[..k], ops[k], id)
    ensures WaitingFor(ops, id).value.request == ops[k].request
    ensures WaitingFor(ops, id).value.due == ops[k].now + SettingOf(ops[..k], id).value.debounce
    ensures forall m :: k < m < |ops| ==> Quiet(ops, m, id)
  {
    var n := |ops| - 1;
    if Accepts(ops[..n], ops[n], id) {
      k := n;
    } else {
      k := WaitingIsLastAccepted(ops[..n], id);
      assert ops[..n][..k] == ops[..k];
      forall m | k < m < |ops| ensures Quiet(ops, m, id) {
        if m < n {
          assert Quiet(ops[..n], m, id) && ops[..n][..m] == ops[..m];
        }
      }
    }
  }

  /** The operation neither triggers, disables nor claims the hook. */
  predicate Quiet(ops: seq<Op>, m: nat, id: nat)
    requires m < |ops|
  {
    !Accepts(ops[..m], ops[m], id) && !Disables(ops[m], id) && !Takes(ops[..m], ops[m], id)
  }

  /******* Dispatches *******/

  /** The log keeps its entries, and only a claim adds dispatches: of due hooks among those it names, with what is
      pending there. */
  lemma ApplyLog(w: Hooks, op: Op, i: nat)
    requires i < |Apply(w, op).log|
    ensures var log := Apply(w, op).log;
      && (i < |w.log| ==> log[i] == w.log[i])
      && (i >= |w.log| && log[i].Dispatched? ==>
            op.ClaimOp? && log[i].hook in op.ids && DispatchOf(w, log[i].hook, op.now, log[i]))
  {
    match op
    case CreateOp(_, _, _) =>
    case UpdateOp(_, _, _) =>
    case TriggerOp(_, _, _) =>
    case TriggerProjectOp(project, request, now) => TriggerAllLog(w, Selected(w.rows, project), request, now, i);
    case ClaimOp(ids, now) => ClaimAllLog(w, ids, now, i);
  }

  /** The entry that the claim of a due hook adds. */
  predicate DispatchOf(w: Hooks, id: nat, now: nat, e: Entry) {
    && id < |w.rows| && Due(w.rows[id], now)
    && e == Dispatched(id, w.rows[id].pending, w.rows[id].pendingEvents, now)
  }

  lemma {:induction false} TriggerAllLog(w: Hooks, ids: seq<nat>, request: Request, now: nat, i: nat)
    requires i < |TriggerAll(w, ids, request, now).log|
    ensures var log := TriggerAll(w, ids, request, now).log;
      if i < |w.log| then log[i] == w.log[i] else log[i].Triggered?
  {
    if ids != [] {
      var before := TriggerAll(w, ids[..|ids| - 1], request, now);
      if i < |before.log| {
        TriggerAllLog(w, ids[..|ids| - 1], request, now, i);
      } else {
        TriggerAllGrows(w, ids[..|ids| - 1], request, now);
      }
    }
  }

  lemma {:induction false} TriggerAllGrows(w: Hooks, ids: seq<nat>, request: Request, now: nat)
    ensures |TriggerAll(w, ids, request, now).log| >= |w.log|
  {
    if ids != [] {
      TriggerAllGrows(w, ids[..|ids| - 1], request, now);
    }
  }

  lemma {:induction false} ClaimAllLog(w: Hooks, ids: seq<nat>, now: nat, i: nat)
    requires i < |ClaimAll(w, ids, now).log|
    ensures var log := ClaimAll(w, ids, now).log;
      if i < |w.log| then log[i] == w.log[i]
      else log[i].Dispatched? && log[i].hook in ids && DispatchOf(w, log[i].hook, now, log[i])
  {
    if ids != [] {
      var n := |ids| - 1;
      var before := ClaimAll(w, ids[..n], now);
      if i < |before.log| {
        ClaimAllLog(w, ids[..n], now, i);
      } else {
        ClaimAllGrows(w, ids[..n], now);
        ClaimAllRow(w, ids[..n], now, ids[n]);
      }
    }
  }

  lemma {:induction false} ClaimAllGrows(w: Hooks, ids: seq<nat>, now: nat)
    ensures w.log <= ClaimAll(w, ids, now).log
  {
    if ids != [] {
      ClaimAllGrows(w, ids[..|ids| - 1], now);
    }
  }

  /** Every dispatch, over every run, stems from a claim that names its hook at its time.  It carries the request of
      the last trigger that the hook had accepted before that claim, comes no earlier than that trigger plus the
      debounce then in force, and the hook was quiet in between. */
  lemma {:induction false} DispatchesAreTrailing(ops: seq<Op>, i: nat) returns (claim: nat, k: nat)
    requires i < |ApplyAll(Empty, ops).log| && ApplyAll(Empty, ops).log[i].Dispatched?
    ensures var e := ApplyAll(Empty, ops).log[i];
      && k < claim < |ops|
      && ops[claim].ClaimOp? && e.hook in ops[claim].ids && e.at == ops[claim].now
      && Accepts(ops[..k], ops[k], e.hook)
      && e.request == ops[k].request
      && ops[claim].now >= ops[k].now + SettingOf(ops[..k], e.hook).value.debounce
      && (forall m :: k < m < claim ==> Quiet(ops, m, e.hook))
      && WaitingFor(ops[..claim], e.hook).Some? && e.events == WaitingFor(ops[..claim], e.hook).value.triggers
  {
    var n := |ops| - 1;
    var w := ApplyAll(Empty, ops[..n]);
    ApplyLog(w, ops[n], i);
    if i < |w.log| {
      claim, k := DispatchesAreTrailing(ops[..n], i);
      EarlierOps(ops, n, claim, k, w.log[i].hook);
    } else {
      claim := n;
      RowsAreAsAsked(ops[..n]);
      var e := ApplyAll(Empty, ops).log[i];
      var past, id := ops[..n], e.hook;
      assert Shows(w.rows[id], SettingOf(past, id), WaitingFor(past, id), CountsOf(past, id));
      k := WaitingIsLastAccepted(ops[..n], e.hook);
      EarlierOps(ops, n, n, k, e.hook);
    }
  }

  /** What is said of a prefix is said of the run. */
  lemma EarlierOps(ops: seq<Op>, n: nat, claim: nat, k: nat, id: nat)
    requires k < claim <= n <= |ops|
    ensures ops[..n][..k] == ops[..k] && ops[..n][..claim] == ops[..claim]
    ensures forall m :: k < m < claim ==> Quiet(ops[..n], m, id) == Quiet(ops, m, id)
  {
    forall m | k < m < claim ensures Quiet(ops[..n], m, id) == Quiet(ops, m, id) {
      assert ops[..n][..m] == ops[..m];
    }
  }

  /** Conversely, a claim dispatches every hook it names whose waiting request is due. */
  lemma {:induction false} DueHooksAreDispatched(ops: seq<Op>, ids: seq<nat>, now: nat, id: nat)
    requires Takes(ops, ClaimOp(ids, now), id)
    ensures var waiting := WaitingFor(ops, id).value;
      Dispatched(id, waiting.request, waiting.triggers, now) in ApplyAll(Empty, ops + [ClaimOp(ids, now)]).log
  {
    assert (ops + [ClaimOp(ids, now)])[..|ops|] == ops;
    RowsAreAsAsked(ops);
    var w := ApplyAll(Empty, ops);
    if id >= |w.rows| {
      NotCreated(ops, id);
    }
    assert Shows(w.rows[id], SettingOf(ops, id), WaitingFor(ops, id), CountsOf(ops, id));
    ClaimAllDispatches(w, ids, now, id);
  }

  lemma {:induction false} ClaimAllDispatches(w: Hooks, ids: seq<nat>, now: nat, id: nat)
    requires id in ids && id < |w.rows| && Due(w.rows[id], now)
    ensures Dispatched(id, w.rows[id].pending, w.rows[id].pendingEvents, now) in ClaimAll(w, ids, now).log
  {
    var n := |ids| - 1;
    ClaimAllRow(w, ids[..n], now, id);
    if id in ids[..n] {
      ClaimAllDispatches(w, ids[..n], now, id);
    } else {
      assert ids == ids[..n] + [ids[n]];
    }
  }
}
