/** The node row and the agent's cycle as code: every method is a run of the state machine. */
module PullNode {
  import opened Options
  import opened PullProtocol
  import opened PullTheorems

  predicate ServerEvent(e: Event) {
    e.SetDesired? || e.Publish? || e.OneShotPull? || e.Late?
  }

  /** How the calls of one cycle turn out, and what else reaches the server in between. */
  datatype Luck = Luck(
    loads: bool, asks: bool, beforeRead: seq<Event>, answers: bool, reports: bool, whileRunning: seq<Event>, runs: bool,
    saves: bool, errorReports: bool, acknowledges: bool)

  predicate ServerOnly(luck: Luck) {
    && (forall i :: 0 <= i < |luck.beforeRead| ==> ServerEvent(luck.beforeRead[i]))
    && forall i :: 0 <= i < |luck.whileRunning| ==> ServerEvent(luck.whileRunning[i])
  }

  class DeliveryNode {
    var currentVersion: string
    var desiredVersion: string
    var desiredGeneration: nat
    var appliedGeneration: nat
    var autoFollow: bool
    var status: string
    var lastError: string
    var disk: AgentState
    ghost var phase: Phase
    ghost var history: seq<string>
    ghost var runs: nat
    var delayed: multiset<Heartbeat>

    ghost function Row(): PullProtocol.Row
      reads this
    {
      PullProtocol.Row(currentVersion, desiredVersion, desiredGeneration, appliedGeneration, autoFollow, status,
                       lastError)
    }

    ghost function World(): PullProtocol.World
      reads this
    {
      PullProtocol.World(Row(), disk, phase, history, runs, delayed)
    }

    constructor ()
      ensures World() == Start
    {
      currentVersion, desiredVersion, desiredGeneration, appliedGeneration := "", "", 0, 0;
      autoFollow, status, lastError, disk := false, "unknown", "", AgentState("", 0);
      phase, history, runs, delayed := Idle, [""], 0, multiset{};
    }

    method HeartbeatDeliveryNode(said: AgentState, newStatus: string, error: string)
      modifies this`currentVersion, this`appliedGeneration, this`status, this`lastError
      ensures currentVersion == said.version && status == newStatus && lastError == error
      ensures appliedGeneration >= old(appliedGeneration) && appliedGeneration >= said.generation
      ensures said.generation > old(appliedGeneration) ==> appliedGeneration == said.generation
      ensures said.generation <= old(appliedGeneration) && said.version == desiredVersion ==>
        appliedGeneration == (if desiredGeneration > old(appliedGeneration) then desiredGeneration
                              else old(appliedGeneration))
      ensures said.generation <= old(appliedGeneration) && said.version != desiredVersion ==>
        appliedGeneration == old(appliedGeneration)
      ensures Row() == Beat(old(Row()), said, newStatus, error)
    {
      if said.generation > appliedGeneration {
        appliedGeneration := said.generation;
      } else if said.version == desiredVersion && desiredGeneration > appliedGeneration {
        appliedGeneration := desiredGeneration;
      }
      currentVersion, status, lastError := said.version, newStatus, error;
    }

    /** Another version is a new generation to deploy; the same one only clears the error, none leaves all as it is. */
    method SetDeliveryNodeDesired(version: string, follow: Option<bool>)
      modifies `desiredVersion, `desiredGeneration, `status, `lastError, `autoFollow, `history
      ensures desiredVersion == (if version != "" then version else old(desiredVersion))
      ensures desiredGeneration == old(desiredGeneration) + if desiredVersion != old(desiredVersion) then 1 else 0
      ensures status == (if desiredVersion != old(desiredVersion) then "pending" else old(status))
      ensures lastError == (if version != "" then "" else old(lastError))
      ensures autoFollow == (if follow.Some? then follow.value else old(autoFollow))
      ensures World() == Perform(old(World()), SetDesired(version, follow))
    {
      if version != "" {
        DesireVersion(version);
      }
      if follow.Some? {
        autoFollow := follow.value;
      }
    }

    /** The UPDATE of the version. */
    method DesireVersion(version: string)
      requires version != ""
      modifies `desiredVersion, `desiredGeneration, `status, `lastError, `history
      ensures desiredVersion == version && lastError == ""
      ensures desiredGeneration == old(desiredGeneration) + if version != old(desiredVersion) then 1 else 0
      ensures status == (if version != old(desiredVersion) then "pending" else old(status))
      ensures history == if version != old(desiredVersion) then old(history) + [version] else old(history)
    {
      if desiredVersion != version {
        desiredGeneration, status := desiredGeneration + 1, "pending";
        history := history + [version];
      }
      desiredVersion, lastError := version, "";
    }

    /** A published version reaches a row that follows and has another one; any other row stays as it is. */
    method AdvanceAutoFollow(version: string)
      modifies `desiredVersion, `desiredGeneration, `status, `lastError, `history
      ensures version != "" && old(autoFollow) && old(desiredVersion) != version ==>
        && desiredVersion == version && desiredGeneration == old(desiredGeneration) + 1
        && status == "pending" && lastError == ""
      ensures version == "" || !old(autoFollow) || old(desiredVersion) == version ==> Row() == old(Row())
      ensures World() == Perform(old(World()), Publish(version))
    {
      if version != "" && autoFollow && desiredVersion != version {
        desiredGeneration, status, desiredVersion, lastError := desiredGeneration + 1, "pending", version, "";
        history := history + [version];
      }
    }

    /** The decision computed from the row as read back. */
    method Decide() returns (needsDeploy: bool)
      ensures needsDeploy == NeedsDeploy(Row())
    {
      needsDeploy := desiredVersion != "" && (currentVersion != desiredVersion
                                              || appliedGeneration < desiredGeneration);
    }

    /** Requests of other clients. */
    method Serve(es: seq<Event>)
      requires forall i :: 0 <= i < |es| ==> ServerEvent(es[i])
      modifies this
      ensures World() == PerformAll(old(World()), es)
    {
      assert es[0..] == es;
      for i := 0 to |es|
        invariant PerformAll(World(), es[i..]) == PerformAll(old(World()), es)
      {
        assert es[i..][0] == es[i] && es[i..][1..] == es[i + 1..];
        match es[i] {
          case SetDesired(version, follow) => SetDeliveryNodeDesired(version, follow);
          case Publish(version) => AdvanceAutoFollow(version);
          case OneShotPull(version) => HeartbeatDeliveryNode(AgentState(version, 0), "ok", "");
          case Late(h) =>
            if h in delayed {
              HeartbeatDeliveryNode(h.said, h.status, h.error);
              delayed := delayed - multiset{h};
            }
        }
      }
    }

    /** The first heartbeat of a cycle: write, then read back while others may come in between. */
    method AskServer(luck: Luck) returns (ok: bool, want: Option<AgentState>, ghost es: seq<Event>)
      requires phase == Idle && ServerOnly(luck)
      modifies this
      ensures World() == PerformAll(old(World()), es)
      ensures phase == if want.Some? then Asked(want.value) else Idle
      ensures ok && want.None? ==>
        exists pre :: es == pre + [Answer(true)] && EndsCycle(PerformAll(old(World()), pre), Answer(true))
      ensures want.Some? ==> ok
      ensures ok == (luck.asks && luck.answers)
    {
      ghost var w := World();
      SendHeartbeat(luck.asks);
      AppendOne(w, [], Ask(luck.asks));
      assert [] + [Ask(luck.asks)] == [Ask(luck.asks)];
      if !luck.asks {
        return false, None, [Ask(false)];
      }
      Serve(luck.beforeRead);
      ServingKeepsPhase(Perform(w, Ask(true)), luck.beforeRead);
      ghost var pre := [Ask(true)] + luck.beforeRead;
      PerformAllAppend(w, [Ask(true)], luck.beforeRead);
      AppendOne(w, pre, Answer(luck.answers));
      ok, want := ReadAnswer(luck.answers);
      es := pre + [Answer(luck.answers)];
    }

    method SendHeartbeat(arrives: bool)
      requires phase == Idle
      modifies this
      ensures World() == Perform(old(World()), Ask(arrives)) && phase == if arrives then Asking else Idle
    {
      if arrives {
        HeartbeatDeliveryNode(disk, "ok", "");
        phase := Asking;
      } else {
        delayed := delayed + multiset{Heartbeat(disk, "ok", "")};
      }
    }

    method ReadAnswer(arrives: bool) returns (ok: bool, want: Option<AgentState>)
      requires phase == Asking
      modifies `phase
      ensures World() == Perform(old(World()), Answer(arrives)) && ok == arrives
      ensures phase == (if want.Some? then Asked(want.value) else Idle) && (want.Some? ==> ok)
    {
      ok, want := arrives, None;
      var needsDeploy := Decide();
      if arrives && needsDeploy && desiredVersion != "" {
        want := Some(AgentState(desiredVersion, desiredGeneration));
        phase := Asked(want.value);
      } else {
        phase := Idle;
      }
    }

    /** A heartbeat whose outcome the agent ignores. */
    method ReportStatus(newStatus: string, error: string, arrives: bool)
      modifies this
      ensures World() == Perform(old(World()), Report(newStatus, error, arrives))
    {
      if arrives {
        HeartbeatDeliveryNode(disk, newStatus, error);
      } else {
        delayed := delayed + multiset{Heartbeat(disk, newStatus, error)};
      }
    }

    /** Run the deployment, persist the new state, acknowledge. */
    method DeployAndAcknowledge(want: AgentState, luck: Luck) returns (ok: bool, ghost es: seq<Event>)
      requires phase == Asked(want) && ServerOnly(luck)
      modifies this
      ensures World() == PerformAll(old(World()), es)
      ensures ok == (luck.runs && luck.saves && luck.acknowledges)
      ensures phase == Idle
      ensures ok ==>
        exists pre :: es == pre + [Acknowledge(true)] && EndsCycle(PerformAll(old(World()), pre), Acknowledge(true))
    {
      ghost var w := World();
      ReportStatus("deploying", "", luck.reports);
      es := [Report("deploying", "", luck.reports)];
      assert World() == PerformAll(w, es);
      Serve(luck.whileRunning);
      ServingKeepsPhase(PerformAll(w, es), luck.whileRunning);
      PerformAllAppend(w, es, luck.whileRunning);
      es := es + luck.whileRunning;
      ok, es := RunSaveAcknowledge(want, luck, w, es);
    }

    method RunSaveAcknowledge(want: AgentState, luck: Luck, ghost w: PullProtocol.World, ghost past: seq<Event>)
      returns (ok: bool, ghost es: seq<Event>)
      requires phase == Asked(want) && World() == PerformAll(w, past)
      modifies this
      ensures World() == PerformAll(w, es)
      ensures ok == (luck.runs && luck.saves && luck.acknowledges)
      ensures phase == Idle
      ensures ok ==> exists pre :: es == pre + [Acknowledge(true)] && EndsCycle(PerformAll(w, pre), Acknowledge(true))
    {
      es := past;
      AppendOne(w, es, RunDeployment(luck.runs));
      es := es + [RunDeployment(luck.runs)];
      phase, runs := if luck.runs then Ran(want) else Idle, runs + 1;
      if !luck.runs {
        es := ReportFailure("deployment_failed", luck.errorReports, w, es);
        return false, es;
      }
      ok, es := SaveAcknowledge(want, luck, w, es);
    }

    method SaveAcknowledge(want: AgentState, luck: Luck, ghost w: PullProtocol.World, ghost past: seq<Event>)
      returns (ok: bool, ghost es: seq<Event>)
      requires phase == Ran(want) && World() == PerformAll(w, past)
      modifies this
      ensures World() == PerformAll(w, es)
      ensures ok == (luck.saves && luck.acknowledges)
      ensures phase == Idle
      ensures ok ==> exists pre :: es == pre + [Acknowledge(true)] && EndsCycle(PerformAll(w, pre), Acknowledge(true))
    {
      AppendOne(w, past, Save(luck.saves));
      es := past + [Save(luck.saves)];
      if !luck.saves {
        phase := Idle;
        es := ReportFailure("state_persist_failed", luck.errorReports, w, es);
        return false, es;
      }
      disk, phase := want, Saved;
      ok := luck.acknowledges;
      AppendOne(w, es, Acknowledge(ok));
      AcknowledgeState(ok);
      es := es + [Acknowledge(ok)];
    }

    method AcknowledgeState(arrives: bool)
      requires phase == Saved
      modifies this
      ensures World() == Perform(old(World()), Acknowledge(arrives)) && phase == Idle
    {
      if arrives {
        HeartbeatDeliveryNode(disk, "ok", "");
      } else {
        delayed := delayed + multiset{Heartbeat(disk, "ok", "")};
      }
      phase := Idle;
    }

    method ReportFailure(error: string, arrives: bool, ghost w: PullProtocol.World, ghost past: seq<Event>)
      returns (ghost es: seq<Event>)
      requires World() == PerformAll(w, past)
      modifies this
      ensures World() == PerformAll(w, es) && phase == old(phase)
    {
      AppendOne(w, past, Report("error", error, arrives));
      ReportStatus("error", error, arrives);
      es := past + [Report("error", error, arrives)];
    }

    /** runAgentCycle: a run of the protocol from one idle state to the next. A cycle that returns without an error,
        while the non-empty desired pair stays the same and no foreign heartbeat masks the drift, has converged. */
    method RunAgentCycle(luck: Luck) returns (ok: bool, ghost es: seq<Event>)
      requires Inv(World()) && phase == Idle && ServerOnly(luck)
      modifies this
      ensures World() == PerformAll(old(World()), es)
      ensures Inv(World()) && Evolves(old(World()), World()) && phase == Idle
      ensures ok ==> luck.loads && luck.asks && luck.answers
      ensures luck.loads && luck.asks && luck.answers && luck.runs && luck.saves && luck.acknowledges ==> ok
      ensures ok && old(desiredVersion) != "" && PairStays(old(World()), es) && NeverMasked(old(World()), es) ==>
        Converged(World()) && !NeedsDeploy(Row()) && disk.version == old(desiredVersion)
    {
      ghost var w := World();
      if !luck.loads {
        return false, [];
      }
      var want;
      ok, want, es := AskServer(luck);
      if ok && want.Some? {
        ghost var more;
        ghost var asked := es;
        ok, more := DeployAndAcknowledge(want.value, luck);
        PerformAllAppend(w, asked, more);
        es := asked + more;
        if ok {
          ghost var pre :| more == pre + [Acknowledge(true)]
            && EndsCycle(PerformAll(PerformAll(w, asked), pre), Acknowledge(true));
          PerformAllAppend(w, asked, pre);
          assert es == (asked + pre) + [Acknowledge(true)];
          EndedCycleConverges(w, asked + pre, Acknowledge(true));
        }
      } else if ok {
        ghost var pre :| es == pre + [Answer(true)] && EndsCycle(PerformAll(w, pre), Answer(true));
        EndedCycleConverges(w, pre, Answer(true));
      }
      RunKeepsInv(w, es);
    }
  }

  lemma {:induction false} ServingKeepsPhase(w: World, es: seq<Event>)
    requires forall i :: 0 <= i < |es| ==> ServerEvent(es[i])
    ensures PerformAll(w, es).phase == w.phase && PerformAll(w, es).disk == w.disk
    decreases |es|
  {
    if es != [] {
      ServingKeepsPhase(Perform(w, es[0]), es[1..]);
    }
  }

  lemma {:induction false} EndedCycleConverges(w: World, pre: seq<Event>, last: Event)
    requires Inv(w) && w.phase == Idle && EndsCycle(PerformAll(w, pre), last)
    ensures var x := PerformAll(w, pre + [last]);
      w.row.desired != "" && PairStays(w, pre + [last]) && NeverMasked(w, pre + [last]) ==>
        Converged(x) && !NeedsDeploy(x.row) && x.disk.version == w.row.desired
  {
    PrefixOf(w, pre + [last], |pre|);
    assert (pre + [last])[..|pre|] == pre;
    if w.row.desired != "" && PairStays(w, pre + [last]) && NeverMasked(w, pre + [last]) {
      SuccessfulCycleConverges(w, pre, last);
    }
  }
}
