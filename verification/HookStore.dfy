/** The release_hooks table as code: every method is an operation of the hook queue. */
module HookStore {
  import opened Options
  import opened Text
  import opened HookQueue
  import opened HookTimeline

  const DefaultDebounce := 30

  predicate ValidDebounce(seconds: int) {
    1 <= seconds <= 3600
  }

  function Normalised(seconds: int): int {
    if seconds == 0 then DefaultDebounce else seconds
  }

  /** ^[A-Za-z0-9_.:-]{1,40}$ */
  predicate SafeSource(s: string) {
    && 1 <= |s| <= 40
    && forall i :: 0 <= i < |s| ==> 'A' <= s[i] <= 'Z' || 'a' <= s[i] <= 'z' || '0' <= s[i] <= '9' || s[i] in "_.:-"
  }

  function TrimmedRequest(r: Request): Request {
    Request(Trim(r.version), Trim(r.requestedBy), Trim(r.source))
  }

  predicate Acceptable(r: Request) {
    r.version != "" && r.requestedBy != "" && SafeSource(r.source)
  }

  /** A claimed dispatch, as handed to the worker. */
  datatype HookRun = HookRun(hook: nat, request: Request, events: nat)

  function RunOf(rows: seq<Hook>, id: nat): HookRun
    requires id < |rows|
  {
    HookRun(id, rows[id].pending, rows[id].pendingEvents)
  }

  /** ORDER BY due_at, id */
  predicate Before(rows: seq<Hook>, a: nat, b: nat)
    requires a < |rows| && b < |rows| && rows[a].dueAt.Some? && rows[b].dueAt.Some?
  {
    rows[a].dueAt.value < rows[b].dueAt.value || (rows[a].dueAt == rows[b].dueAt && a < b)
  }

  predicate DueAt(rows: seq<Hook>, id: nat, now: nat) {
    id < |rows| && Due(rows[id], now)
  }

  /** The due hooks in order, each once; one is left out only when the limit is reached, and then comes
      later than all. */
  ghost predicate EarliestDue(rows: seq<Hook>, now: nat, limit: nat, ids: seq<nat>) {
    && |ids| <= limit
    && (forall i :: 0 <= i < |ids| ==> DueAt(rows, ids[i], now))
    && (forall i, j :: 0 <= i < j < |ids| ==> Before(rows, ids[i], ids[j]))
    && (forall id: nat, i :: DueAt(rows, id, now) && id !in ids && 0 <= i < |ids| ==> Before(rows, ids[i], id))
    && (|ids| < limit ==> forall id: nat :: DueAt(rows, id, now) ==> id in ids)
  }

  /** The earliest due hook that was not chosen yet. */
  method NextDue(rows: seq<Hook>, now: nat, chosen: seq<nat>) returns (next: Option<nat>)
    ensures next.None? ==> forall id: nat :: DueAt(rows, id, now) ==> id in chosen
    ensures next.Some? ==>
      && DueAt(rows, next.value, now) && next.value !in chosen
      && forall id: nat :: DueAt(rows, id, now) && id !in chosen && id != next.value ==> Before(rows, next.value, id)
  {
    next := None;
    for k := 0 to |rows|
      invariant next.None? ==> forall id: nat :: DueAt(rows, id, now) && id < k ==> id in chosen
      invariant next.Some? ==>
        && DueAt(rows, next.value, now) && next.value !in chosen && next.value < k
        && forall id: nat :: DueAt(rows, id, now) && id < k && id !in chosen && id != next.value ==>
             Before(rows, next.value, id)
    {
      if Due(rows[k], now) && k !in chosen && (next.None? || rows[k].dueAt.value < rows[next.value].dueAt.value) {
        next := Some(k);
      }
    }
  }

  method SelectDue(rows: seq<Hook>, now: nat, limit: nat) returns (ids: seq<nat>)
    ensures EarliestDue(rows, now, limit, ids)
  {
    ids := [];
    while |ids| < limit
      invariant |ids| <= limit
      invariant forall i :: 0 <= i < |ids| ==> DueAt(rows, ids[i], now)
      invariant forall i, j :: 0 <= i < j < |ids| ==> Before(rows, ids[i], ids[j])
      invariant forall id: nat, i :: DueAt(rows, id, now) && id !in ids && 0 <= i < |ids| ==> Before(rows, ids[i], id)
      decreases limit - |ids|
    {
      var next := NextDue(rows, now, ids);
      if next.None? {
        return ids;
      }
      ids := ids + [next.value];
    }
  }

  /** A row after one more trigger: the newest request waits, the quiet time starts anew, and the trigger counts as
      merged if another one waited. */
  predicate Took(was: Hook, h: Hook, request: Request, now: nat) {
    && h.pending == request && h.dueAt == Some(now + was.debounce)
    && h.pendingEvents == was.pendingEvents + 1 && h.triggerCount == was.triggerCount + 1
    && h.mergeCount == was.mergeCount + (if was.pendingEvents > 0 then 1 else 0)
    && h.project == was.project && h.enabled == was.enabled && h.debounce == was.debounce
    && h.runCount == was.runCount
  }

  /** Every enabled hook of the project takes the request, and no other hook notices. */
  lemma SelectedTake(w: Hooks, project: nat, request: Request, now: nat)
    ensures var rows := TriggerAll(w, Selected(w.rows, project), request, now).rows;
      |rows| == |w.rows| && forall id :: 0 <= id < |rows| ==>
        if w.rows[id].project == project && w.rows[id].enabled then Took(w.rows[id], rows[id], request, now)
        else rows[id] == w.rows[id]
  {
    forall id | 0 <= id < |w.rows|
      ensures var rows := TriggerAll(w, Selected(w.rows, project), request, now).rows;
        if w.rows[id].project == project && w.rows[id].enabled then Took(w.rows[id], rows[id], request, now)
        else rows[id] == w.rows[id]
    {
      TriggerAllRow(w, Selected(w.rows, project), request, now, id);
    }
  }

  class Store {
    var rows: seq<Hook>
    ghost var log: seq<Entry>

    ghost function State(): Hooks
      reads this
    {
      Hooks(rows, log)
    }

    ghost predicate Valid()
      reads this
    {
      Inv(State())
    }

    constructor ()
      ensures State() == Empty && Valid()
    {
      rows, log := [], [];
    }

    method CreateReleaseHook(project: nat, enabled: bool, debounce: int) returns (id: Option<nat>)
      requires Valid()
      modifies this
      ensures Valid()
      ensures id == if ValidDebounce(Normalised(debounce)) then Some(|old(rows)|) else None
      ensures id.None? ==> rows == old(rows)
      ensures id.Some? ==> |rows| == |old(rows)| + 1 && rows[..|old(rows)|] == old(rows)
      ensures id.Some? ==>
        var h := rows[id.value];
        && h.project == project && h.enabled == enabled && h.debounce == (if debounce == 0 then 30 else debounce)
        && h.pendingEvents == 0 && h.dueAt == None && h.triggerCount == h.mergeCount == h.runCount == 0
      ensures State() == if id.Some? then Apply(old(State()), CreateOp(project, enabled, Normalised(debounce)))
        else old(State())
    {
      if !ValidDebounce(Normalised(debounce)) {
        return None;
      }
      CreateKeepsInv(State(), project, enabled, Normalised(debounce));
      id := Some(|rows|);
      log := log + [Configured(|rows|, Normalised(debounce))];
      rows := rows + [Hook(project, enabled, Normalised(debounce), NoRequest, 0, None, 0, 0, 0)];
    }

    method UpdateReleaseHook(id: nat, enabled: bool, debounce: int) returns (ok: bool)
      requires Valid()
      modifies this
      ensures Valid()
      ensures ok == (ValidDebounce(Normalised(debounce)) && id < |old(rows)|)
      ensures |rows| == |old(rows)| && rows == if ok then old(rows)[id := rows[id]] else old(rows)
      ensures ok ==>
        var was, h := old(rows)[id], rows[id];
        && h.enabled == enabled && h.debounce == (if debounce == 0 then 30 else debounce)
        && (enabled ==> h.pending == was.pending && h.dueAt == was.dueAt && h.pendingEvents == was.pendingEvents)
        && (!enabled ==> h.pending == NoRequest && h.dueAt == None && h.pendingEvents == 0)
        && h.project == was.project && h.triggerCount == was.triggerCount && h.mergeCount == was.mergeCount
        && h.runCount == was.runCount
      ensures State() == if ok then Apply(old(State()), UpdateOp(id, enabled, Normalised(debounce))) else old(State())
    {
      if !ValidDebounce(Normalised(debounce)) || id >= |rows| {
        return false;
      }
      ApplyKeepsInv(State(), UpdateOp(id, enabled, Normalised(debounce)));
      var h := rows[id].(enabled := enabled, debounce := Normalised(debounce));
      log := log + [Configured(id, Normalised(debounce))];
      if !enabled {
        log := if h.pendingEvents > 0 then log + [Dropped(id, h.pendingEvents)] else log;
        h := h.(pending := NoRequest, dueAt := None, pendingEvents := 0);
      }
      rows := rows[id := h];
      ok := true;
    }

    /** The update statement of both queueing methods. */
    method QueueRow(id: nat, request: Request, now: nat)
      modifies this
      ensures State() == Trigger(old(State()), id, request, now)
      ensures id < |old(rows)| && old(rows)[id].enabled ==>
        rows == old(rows)[id := rows[id]] && Took(old(rows)[id], rows[id], request, now)
    {
      if id < |rows| && rows[id].enabled {
        var h := rows[id];
        rows := rows[id := h.(pending := request, dueAt := Some(now + h.debounce), pendingEvents := h.pendingEvents + 1,
                              triggerCount := h.triggerCount + 1,
                              mergeCount := h.mergeCount + if h.pendingEvents > 0 then 1 else 0)];
        log := log + [Triggered(id, request, now)];
      }
    }

    method QueueReleaseHook(id: nat, raw: Request, now: nat) returns (ok: bool)
      requires Valid()
      modifies this
      ensures Valid()
      ensures var source := Trim(raw.source);
        var request := Request(Trim(raw.version), Trim(raw.requestedBy), if source == "" then "manual" else source);
        && ok == (Acceptable(request) && id < |old(rows)| && old(rows)[id].enabled)
        && |rows| == |old(rows)|
        && (ok ==> rows == old(rows)[id := rows[id]] && Took(old(rows)[id], rows[id], request, now))
        && (!ok ==> rows == old(rows))
        && State() == if ok then Apply(old(State()), TriggerOp(id, request, now)) else old(State())
    {
      var version, requestedBy, source := Trim(raw.version), Trim(raw.requestedBy), Trim(raw.source);
      if version == "" || requestedBy == "" {
        return false;
      }
      if source == "" {
        source := "manual";
      }
      if !SafeSource(source) || id >= |rows| || !rows[id].enabled {
        return false;
      }
      QueueOne(id, Request(version, requestedBy, source), now);
      ok := true;
    }

    /** The transaction for one enabled hook. */
    method QueueOne(id: nat, request: Request, now: nat)
      requires Valid() && id < |rows| && rows[id].enabled
      modifies this
      ensures Valid() && State() == Apply(old(State()), TriggerOp(id, request, now))
      ensures |rows| == |old(rows)| && rows == old(rows)[id := rows[id]] && Took(old(rows)[id], rows[id], request, now)
    {
      TriggerKeepsInv(State(), id, request, now);
      QueueRow(id, request, now);
    }

    method QueueProjectReleaseHooks(project: nat, raw: Request, now: nat) returns (ok: bool)
      requires Valid()
      modifies this
      ensures Valid()
      ensures ok == Acceptable(TrimmedRequest(raw))
      ensures |rows| == |old(rows)| && forall id :: 0 <= id < |rows| ==>
        if ok && old(rows)[id].project == project && old(rows)[id].enabled
        then Took(old(rows)[id], rows[id], Request(Trim(raw.version), Trim(raw.requestedBy), Trim(raw.source)), now)
        else rows[id] == old(rows)[id]
      ensures State() == if ok then Apply(old(State()), TriggerProjectOp(project, TrimmedRequest(raw), now))
        else old(State())
    {
      var request := TrimmedRequest(raw);
      if !Acceptable(request) {
        return false;
      }
      ok := true;
      TriggerAllKeepsInv(State(), Selected(rows, project), request, now);
      ghost var before := State();
      QueueRows(Selected(rows, project), request, now);
      SelectedTake(before, project, request, now);
    }

    method QueueRows(ids: seq<nat>, request: Request, now: nat)
      modifies this
      ensures State() == TriggerAll(old(State()), ids, request, now)
    {
      for i := 0 to |ids|
        invariant State() == TriggerAll(old(State()), ids[..i], request, now)
      {
        assert ids[..i + 1][..i] == ids[..i];
        QueueRow(ids[i], request, now);
      }
      assert ids[..|ids|] == ids;
    }

    /** The claim of one candidate, guarded by the due time it was selected with. */
    method ClaimRow(id: nat, dueAt: Option<nat>, now: nat) returns (run: HookRun)
      requires id < |rows| && dueAt.Some? && dueAt.value <= now && rows[id].enabled && rows[id].dueAt == dueAt
      modifies this
      ensures State() == Claim(old(State()), id, now)
      ensures run == RunOf(old(rows), id)
      ensures forall k :: 0 <= k < |rows| && k != id ==> rows[k] == old(rows)[k]
    {
      var h := rows[id];
      rows := rows[id := h.(pending := NoRequest, dueAt := None, pendingEvents := 0, runCount := h.runCount + 1)];
      log := log + [Dispatched(id, h.pending, h.pendingEvents, now)];
      run := HookRun(id, h.pending, h.pendingEvents);
    }

    /** ClaimDueReleaseHooks: the earliest due hooks, up to the limit, become runs that carry what was pending. */
    method ClaimDueReleaseHooks(now: nat, askedLimit: int) returns (runs: seq<HookRun>, ghost ids: seq<nat>)
      requires Valid()
      modifies this
      ensures Valid() && State() == Apply(old(State()), ClaimOp(ids, now))
      ensures EarliestDue(old(rows), now, if askedLimit <= 0 || askedLimit > 50 then 10 else askedLimit, ids)
      ensures |runs| == |ids|
      ensures forall i :: 0 <= i < |runs| ==> runs[i] == RunOf(old(rows), ids[i])
      ensures |rows| == |old(rows)| && forall id :: 0 <= id < |rows| ==>
        rows[id] == if id in ids then old(rows)[id].(pending := NoRequest, dueAt := None, pendingEvents := 0,
                                                     runCount := old(rows)[id].runCount + 1)
          else old(rows)[id]
    {
      var limit := if askedLimit <= 0 || askedLimit > 50 then 10 else askedLimit;
      var selected := SelectDue(rows, now, limit);
      ClaimAllKeepsInv(State(), selected, now);
      ids := selected;
      ghost var before := State();
      runs := ClaimRows(selected, now, limit);
      forall id | 0 <= id < |rows|
        ensures rows[id] == if id in ids then Claim(before, id, now).rows[id] else before.rows[id]
        ensures id in ids ==> DueAt(before.rows, id, now)
      {
        ClaimAllRow(before, ids, now, id);
      }
    }

    method ClaimRows(selected: seq<nat>, now: nat, ghost limit: nat) returns (runs: seq<HookRun>)
      requires EarliestDue(rows, now, limit, selected)
      modifies this
      ensures State() == ClaimAll(old(State()), selected, now)
      ensures |runs| == |selected|
      ensures forall i :: 0 <= i < |runs| ==> runs[i] == RunOf(old(rows), selected[i])
    {
      var before := rows;
      runs := [];
      for i := 0 to |selected|
        invariant State() == ClaimAll(old(State()), selected[..i], now)
        invariant |rows| == |before| && forall j :: i <= j < |selected| ==> rows[selected[j]] == before[selected[j]]
        invariant |runs| == i && forall j :: 0 <= j < i ==> runs[j] == RunOf(before, selected[j])
      {
        assert selected[..i + 1][..i] == selected[..i];
        assert DueAt(before, selected[i], now);
        assert forall j :: i < j < |selected| ==> Before(before, selected[i], selected[j]);
        var run := ClaimRow(selected[i], before[selected[i]].dueAt, now);
        runs := runs + [run];
      }
      assert selected[..|selected|] == selected;
    }
  }
}
