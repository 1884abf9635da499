/** Generations and convergence of pull delivery, over every run. */
module PullTheorems {
  import opened Options
  import opened PullProtocol

  /******* Generation history *******/

  /** The server desired this pair at some time. */
  predicate WasDesired(history: seq<string>, a: AgentState) {
    0 < a.generation < |history| && history[a.generation] == a.version
  }

  /** A fresh agent knows nothing; any other carries a pair the server once desired. */
  predicate Genuine(history: seq<string>, a: AgentState) {
    a == AgentState("", 0) || WasDesired(history, a)
  }

  predicate HistoryOk(history: seq<string>) {
    && |history| > 0 && history[0] == ""
    && forall g :: 0 < g < |history| ==> history[g] != "" && history[g] != history[g - 1]
  }

  predicate RowOk(w: World) {
    && HistoryOk(w.history)
    && |w.history| == w.row.desiredGeneration + 1
    && w.history[w.row.desiredGeneration] == w.row.desired
    && w.row.appliedGeneration <= w.row.desiredGeneration
    && Genuine(w.history, w.disk)
    && (w.phase.Asked? || w.phase.Ran? ==> WasDesired(w.history, w.phase.want))
  }

  predicate Inv(w: World) {
    RowOk(w) && forall h :: h in w.delayed ==> Genuine(w.history, h.said)
  }

  /** What no step takes back. */
  predicate Evolves(w: World, x: World) {
    && w.history <= x.history
    && w.row.desiredGeneration <= x.row.desiredGeneration
    && w.row.appliedGeneration <= x.row.appliedGeneration
    && w.runs <= x.runs
  }

  lemma StepKeepsInv(w: World, e: Event)
    requires Inv(w)
    ensures Inv(Perform(w, e)) && Evolves(w, Perform(w, e))
  {
    StepKeepsRow(w, e);
    forall h | h in Perform(w, e).delayed ensures Genuine(Perform(w, e).history, h.said) {
      DelayedStep(w, e, h);
    }
  }

  /** A request is delayed with what the agent had on disk. */
  lemma DelayedStep(w: World, e: Event, h: Heartbeat)
    requires h in Perform(w, e).delayed
    ensures h in w.delayed || h.said == w.disk
  {
  }

  lemma StepKeepsRow(w: World, e: Event)
    requires Inv(w)
    ensures RowOk(Perform(w, e)) && Evolves(w, Perform(w, e))
  {
    if e.SetDesired? {
      DesireKeepsRow(w, Perform(w, e));
    } else if e.Publish? {
      DesireKeepsRow(w, Perform(w, e));
    } else if e.Late? && e.heartbeat in w.delayed {
      BeatKeepsRow(w, e.heartbeat.said, e.heartbeat.status, e.heartbeat.error);
    } else if e.OneShotPull? {
      BeatKeepsRow(w, AgentState(e.version, 0), "ok", "");
    } else if e.Report? {
      BeatKeepsRow(w, w.disk, e.status, e.error);
    } else {
      BeatKeepsRow(w, w.disk, "ok", "");
    }
  }

  lemma BeatKeepsRow(w: World, said: AgentState, status: string, error: string)
    requires RowOk(w) && (said.generation == 0 || Genuine(w.history, said))
    ensures var x := w.(row := Beat(w.row, said, status, error)); RowOk(x) && Evolves(w, x)
  {
  }

  /** The desired pair stays, or becomes the next generation with another version. */
  lemma DesireKeepsRow(w: World, x: World)
    requires RowOk(w) && x.disk == w.disk && x.phase == w.phase && x.runs == w.runs
    requires x.row.appliedGeneration == w.row.appliedGeneration
    requires || (Pair(x.row) == Pair(w.row) && x.history == w.history)
             || (x.row.desired != "" && x.row.desired != w.row.desired && x.history == w.history + [x.row.desired]
                 && x.row.desiredGeneration == w.row.desiredGeneration + 1)
    ensures RowOk(x) && Evolves(w, x)
  {
  }

  lemma {:induction false} RunKeepsInv(w: World, es: seq<Event>)
    requires Inv(w)
    ensures Inv(PerformAll(w, es)) && Evolves(w, PerformAll(w, es))
    decreases |es|
  {
    if es != [] {
      StepKeepsInv(w, es[0]);
      RunKeepsInv(Perform(w, es[0]), es[1..]);
    }
  }

  /** Over every run, with lost and refused requests, failed runners, crashes, one-shot pulls and heartbeats executed
      late: generations never decrease, the applied one never passes the desired one, adjacent generations name
      different versions, and a stored state with a positive generation is a pair that the server desired. */
  lemma {:induction false} GenerationHistory(before: seq<Event>, after: seq<Event>)
    ensures var w, x := PerformAll(Start, before), PerformAll(Start, before + after);
      && w.row.desiredGeneration <= x.row.desiredGeneration
      && w.row.appliedGeneration <= x.row.appliedGeneration <= x.row.desiredGeneration
      && w.history <= x.history && |x.history| == x.row.desiredGeneration + 1
      && (forall g :: 0 < g < |x.history| ==> x.history[g] != x.history[g - 1])
      && (x.disk.generation > 0 ==> WasDesired(x.history, x.disk))
      && (x.disk.generation == 0 ==> x.disk.version == "")
      && (x.phase.Asked? || x.phase.Ran? ==> WasDesired(x.history, x.phase.want))
  {
    PerformAllAppend(Start, before, after);
    RunKeepsInv(Start, before);
    RunKeepsInv(PerformAll(Start, before), after);
  }

  /******* What is desired *******/

  /** Whether the node follows publications, by the last request that said so. */
  function Follows(es: seq<Event>): bool {
    if es == [] then false
    else
      var n := |es| - 1;
      if es[n].SetDesired? && es[n].autoFollow.Some? then es[n].autoFollow.value else Follows(es[..n])
  }

  /** The version asked for: by the last request with a version, or the last publication while the node followed. */
  function Wanted(es: seq<Event>): string {
    if es == [] then ""
    else
      var n := |es| - 1;
      if es[n].SetDesired? && es[n].version != "" then es[n].version
      else if es[n].Publish? && es[n].version != "" && Follows(es[..n]) then es[n].version
      else Wanted(es[..n])
  }

  /** The versions asked for, one after the other; repeating one adds nothing. */
  function Wishes(es: seq<Event>): seq<string> {
    if es == [] then [""]
    else
      var before := Wishes(es[..|es| - 1]);
      if Wanted(es) != Wanted(es[..|es| - 1]) then before + [Wanted(es)] else before
  }

  /** Over every run, the row desires what was last asked for, its generation counts the changes, and no heartbeat,
      crash or deployment has a say in it. */
  lemma {:induction false} DesiredIsLastWanted(es: seq<Event>)
    ensures var w := PerformAll(Start, es);
      && w.row.desired == Wanted(es) && w.row.autoFollow == Follows(es)
      && w.history == Wishes(es) && w.row.desiredGeneration == |Wishes(es)| - 1
  {
    if es != [] {
      var n := |es| - 1;
      assert es == es[..n] + [es[n]];
      DesiredIsLastWanted(es[..n]);
      AppendOne(Start, es[..n], es[n]);
      RunKeepsInv(Start, es[..n]);
      WantedStep(PerformAll(Start, es[..n]), es[n]);
    }
  }

  /** What one event does to the desired pair. */
  lemma WantedStep(w: World, e: Event)
    requires |w.history| == w.row.desiredGeneration + 1
    ensures var x := Perform(w, e);
      && (e.SetDesired? && e.version != "" ==> x.row.desired == e.version)
      && (e.Publish? && e.version != "" && w.row.autoFollow ==> x.row.desired == e.version)
      && ((e.SetDesired? || e.Publish?) && e.version == "" ==> x.row.desired == w.row.desired)
      && (e.Publish? && !w.row.autoFollow ==> x == w)
      && (!e.SetDesired? && !e.Publish? ==> x.row.desired == w.row.desired)
      && x.row.autoFollow == (if e.SetDesired? && e.autoFollow.Some? then e.autoFollow.value else w.row.autoFollow)
      && x.history == (if x.row.desired != w.row.desired then w.history + [x.row.desired] else w.history)
      && |x.history| == x.row.desiredGeneration + 1
  {
  }

  /** A version that is asked for is desired from then on and ends the history. */
  lemma SetDesiredTakesEffect(es: seq<Event>, version: string, follow: Option<bool>)
    requires version != ""
    ensures var x := PerformAll(Start, es + [SetDesired(version, follow)]);
      x.row.desired == version && x.history != [] && x.history[|x.history| - 1] == version
  {
    var all := es + [SetDesired(version, follow)];
    assert all[..|es|] == es;
    DesiredIsLastWanted(all);
    RunKeepsInv(Start, all);
  }

  /** The same of a publication exactly on a node that follows; any other node does not notice. */
  lemma PublishReachesFollowers(es: seq<Event>, version: string)
    requires version != ""
    ensures var w, x := PerformAll(Start, es), PerformAll(Start, es + [Publish(version)]);
      && (w.row.autoFollow ==> x.row.desired == version && x.history != [] && x.history[|x.history| - 1] == version)
      && (!w.row.autoFollow ==> x == w)
  {
    AppendOne(Start, es, Publish(version));
    RunKeepsInv(Start, es);
    RunKeepsInv(Start, es + [Publish(version)]);
    WantedStep(PerformAll(Start, es), Publish(version));
  }

  /******* Convergence *******/

  /** The event leaves the desired pair as it is. */
  predicate KeepsPair(w: World, e: Event) {
    Pair(Perform(w, e).row) == Pair(w.row)
  }

  predicate PairStays(w: World, es: seq<Event>)
    decreases |es|
  {
    es == [] || (KeepsPair(w, es[0]) && PairStays(Perform(w, es[0]), es[1..]))
  }

  /** A heartbeat other than those of the current cycle: a one-shot pull, or a delayed one. */
  predicate Foreign(w: World, e: Event) {
    e.OneShotPull? || (e.Late? && e.heartbeat in w.delayed)
  }

  function Says(e: Event): AgentState
    requires e.OneShotPull? || e.Late?
  {
    if e.OneShotPull? then AgentState(e.version, 0) else e.heartbeat.said
  }

  /** Between the write and the read of a heartbeat of an agent without the desired version, a foreign one reports that
      version, and not with a generation strictly between the applied and the desired one. */
  predicate Masks(w: World, e: Event) {
    && w.phase == Asking && Foreign(w, e) && Says(e).version == w.row.desired && w.disk.version != w.row.desired
    && !(w.row.appliedGeneration < Says(e).generation < w.row.desiredGeneration)
  }

  /** Between the write and the read of a heartbeat of an agent with the desired version, a foreign one
      reports another. */
  predicate Unsettles(w: World, e: Event) {
    w.phase == Asking && Foreign(w, e) && Says(e).version != w.row.desired && w.disk.version == w.row.desired
  }

  predicate NeverMasked(w: World, es: seq<Event>)
    decreases |es|
  {
    es == [] || (!Masks(w, es[0]) && NeverMasked(Perform(w, es[0]), es[1..]))
  }

  predicate NeverUnsettled(w: World, es: seq<Event>)
    decreases |es|
  {
    es == [] || (!Unsettles(w, es[0]) && NeverUnsettled(Perform(w, es[0]), es[1..]))
  }

  /** The event ends a cycle, and the call it stands for succeeded. */
  predicate EndsCycle(w: World, e: Event) {
    || (e == Answer(true) && w.phase == Asking && Perform(w, e).phase == Idle)
    || (e == Acknowledge(true) && w.phase == Saved)
  }

  /** The agent has the desired version, and the server knows its generation as applied. */
  predicate Converged(w: World) {
    w.row.desired != "" && w.disk.version == w.row.desired && w.row.appliedGeneration == w.row.desiredGeneration
      && w.phase == Idle
  }

  /** The cycle in progress works towards the current pair. */
  predicate OnTrack(w: World) {
    match w.phase
    case Idle => true
    case Asking => NeedsDeploy(w.row) || w.row.desired == "" || w.disk.version == w.row.desired
    case Asked(want) => want == Pair(w.row)
    case Ran(want) => want == Pair(w.row)
    case Saved => w.disk == Pair(w.row)
  }

  lemma StepStaysOnTrack(w: World, e: Event)
    requires Inv(w) && OnTrack(w) && KeepsPair(w, e) && !Masks(w, e)
    ensures OnTrack(Perform(w, e))
  {
    if Foreign(w, e) {
      ForeignStaysOnTrack(w, e);
    }
  }

  lemma ForeignStaysOnTrack(w: World, e: Event)
    requires Inv(w) && OnTrack(w) && Foreign(w, e) && !Masks(w, e)
    ensures OnTrack(Perform(w, e))
  {
  }

  lemma EndOfCycleConverges(w: World, e: Event)
    requires Inv(w) && OnTrack(w) && w.row.desired != "" && EndsCycle(w, e)
    ensures Converged(Perform(w, e)) && !NeedsDeploy(Perform(w, e).row)
  {
  }

  lemma {:induction false} RunStaysOnTrack(w: World, es: seq<Event>)
    requires Inv(w) && OnTrack(w) && PairStays(w, es) && NeverMasked(w, es)
    ensures OnTrack(PerformAll(w, es)) && Pair(PerformAll(w, es).row) == Pair(w.row)
    decreases |es|
  {
    if es != [] {
      StepKeepsInv(w, es[0]);
      StepStaysOnTrack(w, es[0]);
      RunStaysOnTrack(Perform(w, es[0]), es[1..]);
    }
  }

  /** Between cycles, once a non-empty desired pair stops changing, the end of a successful cycle finds the desired
      version on disk and no drift, with reports, other cycles, one-shot pulls and delayed heartbeats interleaved,
      unless one of them masks the drift. */
  lemma {:induction false} SuccessfulCycleConverges(w: World, es: seq<Event>, last: Event)
    requires Inv(w) && w.phase == Idle && w.row.desired != "" && PairStays(w, es) && NeverMasked(w, es)
    requires EndsCycle(PerformAll(w, es), last)
    ensures var x := PerformAll(w, es + [last]);
      Pair(x.row) == Pair(w.row) && x.disk.version == w.row.desired && Converged(x) && !NeedsDeploy(x.row)
  {
    RunKeepsInv(w, es);
    RunStaysOnTrack(w, es);
    EndOfCycleConverges(PerformAll(w, es), last);
    AppendOne(w, es, last);
  }

  lemma AppendOne(w: World, es: seq<Event>, e: Event)
    ensures PerformAll(w, es + [e]) == Perform(PerformAll(w, es), e)
  {
    PerformAllAppend(w, es, [e]);
    assert PerformAll(PerformAll(w, es), [e]) == Perform(PerformAll(w, es), e);
  }

  /** At every point of the run where the call that ends a cycle may succeed, the cycle ends converged. */
  ghost predicate EveryEndConverges(w: World, es: seq<Event>) {
    forall k: nat, last :: k <= |es| && EndsCycle(PerformAll(w, es[..k]), last) ==>
      Converged(Perform(PerformAll(w, es[..k]), last))
  }

  /** Along a run that keeps a non-empty desired pair, all successful cycles converge if and only if no foreign
      heartbeat masks the drift. */
  lemma {:induction false} ConvergesExactlyWhenNeverMasked(w: World, es: seq<Event>)
    requires Inv(w) && w.phase == Idle && w.row.desired != "" && PairStays(w, es)
    ensures EveryEndConverges(w, es) <==> NeverMasked(w, es)
  {
    if NeverMasked(w, es) {
      forall k: nat, last | k <= |es| && EndsCycle(PerformAll(w, es[..k]), last)
        ensures Converged(Perform(PerformAll(w, es[..k]), last))
      {
        PrefixOf(w, es, k);
        RunKeepsInv(w, es[..k]);
        RunStaysOnTrack(w, es[..k]);
        EndOfCycleConverges(PerformAll(w, es[..k]), last);
      }
    } else {
      var k := FirstMask(w, es);
      assert EndsCycle(PerformAll(w, es[..k]), Answer(true));
    }
  }

  lemma {:induction false} PrefixOf(w: World, es: seq<Event>, k: nat)
    requires k <= |es|
    ensures PairStays(w, es) ==> PairStays(w, es[..k])
    ensures NeverMasked(w, es) ==> NeverMasked(w, es[..k])
    ensures NeverUnsettled(w, es) ==> NeverUnsettled(w, es[..k])
    decreases k
  {
    if k > 0 {
      assert es[..k][0] == es[0] && es[..k][1..] == es[1..][..k - 1];
      PrefixOf(Perform(w, es[0]), es[1..], k - 1);
    }
  }

  lemma PrefixStep(w: World, es: seq<Event>, j: nat)
    requires j < |es|
    ensures PerformAll(w, es[..j + 1]) == PerformAll(Perform(w, es[0]), es[1..][..j])
  {
    assert es[..j + 1][0] == es[0] && es[..j + 1][1..] == es[1..][..j];
  }

  /** Right after a masking heartbeat, the answer ends the cycle without the desired version. */
  lemma {:induction false} FirstMask(w: World, es: seq<Event>) returns (k: nat)
    requires Inv(w) && w.row.desired != "" && PairStays(w, es) && !NeverMasked(w, es)
    ensures k <= |es|
    ensures var x := PerformAll(w, es[..k]); EndsCycle(x, Answer(true)) && !Converged(Perform(x, Answer(true)))
    decreases |es|
  {
    if Masks(w, es[0]) {
      k := 1;
      PrefixStep(w, es, 0);
      MaskHidesDrift(w, es[0]);
    } else {
      StepKeepsInv(w, es[0]);
      var j := FirstMask(Perform(w, es[0]), es[1..]);
      k := j + 1;
      PrefixStep(w, es, j);
    }
  }

  lemma MaskHidesDrift(w: World, e: Event)
    requires Inv(w) && w.row.desired != "" && Masks(w, e)
    ensures var x := Perform(w, e); EndsCycle(x, Answer(true)) && !Converged(Perform(x, Answer(true)))
  {
  }

  /******* After convergence *******/

  /** Converged, or about to read back a heartbeat of a converged agent. */
  predicate AtRest(w: World) {
    && w.row.desired != "" && w.disk.version == w.row.desired && w.row.appliedGeneration == w.row.desiredGeneration
    && (w.phase == Idle || (w.phase == Asking && w.row.current == w.disk.version))
  }

  lemma RestStep(w: World, e: Event)
    requires Inv(w) && AtRest(w) && KeepsPair(w, e) && !Unsettles(w, e)
    ensures AtRest(Perform(w, e)) && Perform(w, e).runs == w.runs
  {
  }

  /** After convergence no deployment is started, whatever fails or interleaves, while the pair stays the same and no
      foreign heartbeat of another version falls between the write and the read of one. */
  lemma {:induction false} NoFurtherDeployment(w: World, es: seq<Event>)
    requires Inv(w) && AtRest(w) && PairStays(w, es) && NeverUnsettled(w, es)
    ensures AtRest(PerformAll(w, es)) && PerformAll(w, es).runs == w.runs
    decreases |es|
  {
    if es != [] {
      StepKeepsInv(w, es[0]);
      RestStep(w, es[0]);
      NoFurtherDeployment(Perform(w, es[0]), es[1..]);
    }
  }

  /** What a cycle does next if its answer arrives and its runner works. */
  const Next := [Answer(true), RunDeployment(true)]

  lemma NextEvents(w: World)
    ensures PerformAll(w, Next) == Perform(Perform(w, Answer(true)), RunDeployment(true))
  {
    assert Next[1..] == [RunDeployment(true)];
    assert PerformAll(w, Next) == PerformAll(Perform(w, Answer(true)), [RunDeployment(true)]);
  }

  /** No answer at any point of the run starts a deployment. */
  ghost predicate NothingStarts(w: World, es: seq<Event>) {
    forall k: nat :: k <= |es| ==> PerformAll(PerformAll(w, es[..k]), Next).runs == w.runs
  }

  /** Along a run from a converged state that keeps the pair, no deployment can be started if and only if no foreign
      heartbeat of another version falls between the write and the read of one. */
  lemma {:induction false} QuietExactlyWhenNeverUnsettled(w: World, es: seq<Event>)
    requires Inv(w) && AtRest(w) && PairStays(w, es)
    ensures NothingStarts(w, es) <==> NeverUnsettled(w, es)
  {
    if NeverUnsettled(w, es) {
      forall k: nat | k <= |es| ensures PerformAll(PerformAll(w, es[..k]), Next).runs == w.runs {
        PrefixOf(w, es, k);
        NoFurtherDeployment(w, es[..k]);
        NextEvents(PerformAll(w, es[..k]));
      }
    } else {
      var k := FirstUnsettling(w, es);
      assert PerformAll(PerformAll(w, es[..k]), Next).runs != w.runs;
    }
  }

  lemma UnsettledStarts(w: World, e: Event)
    requires AtRest(w) && Unsettles(w, e)
    ensures Perform(Perform(Perform(w, e), Answer(true)), RunDeployment(true)).runs == w.runs + 1
  {
  }

  lemma {:induction false} FirstUnsettling(w: World, es: seq<Event>) returns (k: nat)
    requires Inv(w) && AtRest(w) && PairStays(w, es) && !NeverUnsettled(w, es)
    ensures k <= |es| && PerformAll(PerformAll(w, es[..k]), Next).runs == w.runs + 1
    decreases |es|
  {
    if Unsettles(w, es[0]) {
      k := 1;
      PrefixStep(w, es, 0);
      NextEvents(Perform(w, es[0]));
      UnsettledStarts(w, es[0]);
    } else {
      StepKeepsInv(w, es[0]);
      RestStep(w, es[0]);
      var j := FirstUnsettling(Perform(w, es[0]), es[1..]);
      k := j + 1;
      PrefixStep(w, es, j);
    }
  }

  /** From every reachable state between cycles: convergence within one successful cycle, then no deployment. */
  lemma {:induction false} PullConvergence(past: seq<Event>, es: seq<Event>, last: Event, later: seq<Event>)
    requires var w := PerformAll(Start, past);
      && w.phase == Idle && w.row.desired != "" && PairStays(w, es) && NeverMasked(w, es)
           && EndsCycle(PerformAll(w, es), last)
      && PairStays(PerformAll(w, es + [last]), later) && NeverUnsettled(PerformAll(w, es + [last]), later)
    ensures var w := PerformAll(Start, past);
      var x := PerformAll(w, es + [last]);
      var y := PerformAll(x, later);
      && x.disk.version == w.row.desired && !NeedsDeploy(x.row)
      && y.disk.version == w.row.desired && y.runs == x.runs
  {
    var w := PerformAll(Start, past);
    RunKeepsInv(Start, past);
    SuccessfulCycleConverges(w, es, last);
    var x := PerformAll(w, es + [last]);
    RunKeepsInv(w, es + [last]);
    NoFurtherDeployment(x, later);
    PairKept(x, later);
  }

  lemma {:induction false} PairKept(w: World, es: seq<Event>)
    requires PairStays(w, es)
    ensures Pair(PerformAll(w, es).row) == Pair(w.row)
    decreases |es|
  {
    if es != [] {
      PairKept(Perform(w, es[0]), es[1..]);
    }
  }

  /******* One-shot pulls between write and read *******/

  /** A cycle that ends because nothing needs deploying has converged exactly when the row still shows the version that
      the agent reported. */
  lemma QuietCycleConvergesExactlyWhen(w: World)
    requires Inv(w) && w.row.desired != "" && EndsCycle(w, Answer(true))
    ensures Converged(Perform(w, Answer(true))) <==> w.row.current == w.disk.version
  {
  }

  /** The answer to a converged agent starts a deployment exactly when the row no longer shows what the
      agent reported. */
  lemma AnswerStartsExactlyWhen(w: World)
    requires w.phase == Asking && w.row.desired != "" && w.disk.version == w.row.desired
    requires w.row.appliedGeneration == w.row.desiredGeneration
    ensures Perform(w, Answer(true)).phase.Asked? <==> w.row.current != w.disk.version
  {
  }

  /** A one-shot pull of the desired version between write and read ends a successful cycle with nothing installed. */
  lemma PullBeforeReadHidesDrift(v: string)
    requires v != ""
    ensures var es := [SetDesired(v, None), Ask(true), OneShotPull(v)];
      EndsCycle(PerformAll(Start, es), Answer(true)) && PerformAll(Start, es + [Answer(true)]).disk.version == ""
  {
    ThreeEvents(Start, SetDesired(v, None), Ask(true), OneShotPull(v));
    AppendOne(Start, [SetDesired(v, None), Ask(true), OneShotPull(v)], Answer(true));
  }

  /** From any converged state between cycles, a one-shot pull of another version between write and read of the next
      heartbeat starts a deployment of the version the agent already has. */
  lemma PullBeforeReadRedeploys(w: World, x: string)
    requires Inv(w) && Converged(w) && x != w.row.desired
    ensures var y := PerformAll(w, [Ask(true), OneShotPull(x), Answer(true)]);
      y.phase.Asked? && y.phase.want.version == w.disk.version && Perform(y, RunDeployment(true)).runs == w.runs + 1
  {
    GapRedeploys(w, OneShotPull(x));
    ThreeEvents(w, Ask(true), OneShotPull(x), Answer(true));
  }

  /** So does a heartbeat of the agent itself that the server executes late, with a version the agent has left since. */
  lemma LateBeforeReadRedeploys(w: World, h: Heartbeat)
    requires Inv(w) && Converged(w) && h in w.delayed && h.said.version != w.row.desired
    ensures var y := PerformAll(w, [Ask(true), Late(h), Answer(true)]);
      y.phase.Asked? && y.phase.want.version == w.disk.version && Perform(y, RunDeployment(true)).runs == w.runs + 1
  {
    GapRedeploys(w, Late(h));
    ThreeEvents(w, Ask(true), Late(h), Answer(true));
  }

  lemma GapRedeploys(w: World, e: Event)
    requires Inv(w) && Converged(w) && Unsettles(Perform(w, Ask(true)), e)
    ensures var y := Perform(Perform(Perform(w, Ask(true)), e), Answer(true));
      y.phase.Asked? && y.phase.want.version == w.disk.version && Perform(y, RunDeployment(true)).runs == w.runs + 1
  {
  }

  lemma ThreeEvents(w: World, a: Event, b: Event, c: Event)
    ensures PerformAll(w, [a, b, c]) == Perform(Perform(Perform(w, a), b), c)
  {
    AppendOne(w, [], a);
    AppendOne(w, [a], b);
    AppendOne(w, [a, b], c);
    assert [] + [a] == [a] && [a] + [b] == [a, b] && [a, b] + [c] == [a, b, c];
  }

  /******* The decision *******/

  /** After two identical heartbeats a deployment is needed exactly when the reported version is not the desired one. */
  lemma TwoHeartbeats(row: Row, said: AgentState, status: string, error: string)
    ensures NeedsDeploy(Beat(Beat(row, said, status, error), said, status, error)) <==>
      row.desired != "" && said.version != row.desired
  {
  }

  /** After one, a matching version is redeployed exactly when its generation is newer than the applied one and older
      than the desired one. */
  lemma OneHeartbeat(row: Row, said: AgentState, status: string, error: string)
    requires row.appliedGeneration <= row.desiredGeneration
    ensures NeedsDeploy(Beat(row, said, status, error)) <==>
      row.desired != "" && (said.version != row.desired
                            || row.appliedGeneration < said.generation < row.desiredGeneration)
  {
  }
}
