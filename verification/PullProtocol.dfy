/** Pull delivery as a state machine: one node row at the server, one agent with a durable state file. */
module PullProtocol {
  import opened Options

  /** What the agent keeps on disk. Versions are published ones, so trimming them changes nothing. */
  datatype AgentState = AgentState(version: string, generation: nat)

  datatype Row = Row(current: string, desired: string, desiredGeneration: nat, appliedGeneration: nat,
                     autoFollow: bool, status: string, lastError: string)

  /** What a missing row stands for: the column defaults, which every insert starts from. */
  const Blank := Row("", "", 0, 0, false, "unknown", "")

  /** HeartbeatDeliveryNode */
  function Beat(row: Row, said: AgentState, status: string, error: string): Row {
    row.(current := said.version,
         appliedGeneration :=
           if said.generation > row.appliedGeneration then said.generation
           else if said.version == row.desired
             && row.desiredGeneration > row.appliedGeneration then row.desiredGeneration
           else row.appliedGeneration,
         status := status, lastError := error)
  }

  /** The version part of SetDeliveryNodeDesired */
  function Desire(row: Row, version: string): Row {
    if version == "" then row
    else row.(desiredGeneration := row.desiredGeneration + if row.desired != version then 1 else 0,
              status := if row.desired != version then "pending" else row.status,
              desired := version, lastError := "")
  }

  /** AdvanceAutoFollowDeliveryNodes, on this row */
  function Follow(row: Row, version: string): Row {
    if row.autoFollow && row.desired != version then
      row.(desiredGeneration := row.desiredGeneration + 1, status := "pending", desired := version, lastError := "")
    else row
  }

  /** The decision sent to the agent; the console shows the same condition as drift. */
  predicate NeedsDeploy(row: Row) {
    row.desired != "" && (row.current != row.desired || row.appliedGeneration < row.desiredGeneration)
  }

  /** Where the agent's cycle stands. */
  datatype Phase =
    | Idle
    | Asking // the heartbeat is written, the row not yet read back
    | Asked(want: AgentState)
    | Ran(want: AgentState)
    | Saved

  /** A heartbeat request of the agent. */
  datatype Heartbeat = Heartbeat(said: AgentState, status: string, error: string)

  /** The history lists the desired version of every generation so far; runs counts started deployments; delayed holds
      the requests that the agent has given up on but the server may still execute. */
  datatype World = World(
    row: Row, disk: AgentState, phase: Phase, history: seq<string>, runs: nat, delayed: multiset<Heartbeat>)

  const Start := World(Blank, AgentState("", 0), Idle, [""], 0, multiset{})

  /** Every step is one database statement or one action of the agent. A heartbeat writes the row and then reads it
      back, so the two are separate steps. A request that does not arrive in time may be lost, or be executed late. */
  datatype Event =
    | SetDesired(version: string, autoFollow: Option<bool>)
    | Publish(version: string)
    | OneShotPull(version: string)
    | Late(heartbeat: Heartbeat)
    | Ask(arrives: bool)
    | Answer(arrives: bool)
    | Report(status: string, error: string, arrives: bool)
    | RunDeployment(ok: bool)
    | Save(ok: bool)
    | Acknowledge(arrives: bool)
    | Crash

  /** The history grows when a generation is added. */
  function Recorded(w: World, row: Row): World {
    w.(row := row, history := if row.desiredGeneration > w.row.desiredGeneration then w.history + [row.desired]
       else w.history)
  }

  function Pair(row: Row): AgentState {
    AgentState(row.desired, row.desiredGeneration)
  }

  function Delay(w: World, h: Heartbeat): World {
    w.(delayed := w.delayed + multiset{h})
  }

  function Perform(w: World, e: Event): World {
    match e
    case SetDesired(version, autoFollow) =>
      var row := Desire(w.row, version);
      Recorded(w, if autoFollow.Some? then row.(autoFollow := autoFollow.value) else row)
    case Publish(version) => if version == "" then w else Recorded(w, Follow(w.row, version))
    case OneShotPull(version) => w.(row := Beat(w.row, AgentState(version, 0), "ok", ""))
    case Late(h) =>
      if h !in w.delayed then w
      else w.(row := Beat(w.row, h.said, h.status, h.error), delayed := w.delayed - multiset{h})
    case Ask(arrives) =>
      if w.phase != Idle then w
      else if arrives then w.(row := Beat(w.row, w.disk, "ok", ""), phase := Asking)
      else Delay(w, Heartbeat(w.disk, "ok", ""))
    case Answer(arrives) =>
      if w.phase == Asking then w.(phase := if arrives && NeedsDeploy(w.row) then Asked(Pair(w.row)) else Idle) else w
    case Report(status, error, arrives) =>
      if arrives then w.(row := Beat(w.row, w.disk, status, error)) else Delay(w, Heartbeat(w.disk, status, error))
    case RunDeployment(ok) =>
      if w.phase.Asked? then w.(phase := if ok then Ran(w.phase.want) else Idle, runs := w.runs + 1) else w
    case Save(ok) =>
      if !w.phase.Ran? then w
      else if ok then w.(disk := w.phase.want, phase := Saved)
      else w.(phase := Idle)
    case Acknowledge(arrives) =>
      if w.phase != Saved then w
      else if arrives then w.(row := Beat(w.row, w.disk, "ok", ""), phase := Idle)
      else Delay(w, Heartbeat(w.disk, "ok", "")).(phase := Idle)
    case Crash => w.(phase := Idle)
  }

  function PerformAll(w: World, es: seq<Event>): World
    decreases |es|
  {
    if es == [] then w else PerformAll(Perform(w, es[0]), es[1..])
  }

  lemma {:induction false} PerformAllAppend(w: World, a: seq<Event>, b: seq<Event>)
    ensures PerformAll(w, a + b) == PerformAll(PerformAll(w, a), b)
    decreases |a|
  {
    if a == [] {
      assert a + b == b;
    } else {
      assert (a + b)[0] == a[0] && (a + b)[1..] == a[1..] + b;
      PerformAllAppend(Perform(w, a[0]), a[1..], b);
    }
  }
}
