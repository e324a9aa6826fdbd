/** With a provider that answers, every tenant reaches its desired state and stays there, and its service runs or not
    accordingly, except for families of states that are named exactly. */
module Convergence {
  import opened Wrappers
  import opened GoStrings
  import opened TenantTable
  import opened TenantRuntime
  import opened Reconciler

  /** A name that the provider gives to a new service. */
  type Uuid = s: string | s != "" witness "u"

  /** The provider's service: there, or being deleted and still found by so many more lookups. */
  datatype Remote = Absent | Present(uuid: string, running: bool) | Doomed(uuid: string, lookups: nat)

  /** `warmup`: for how many more cycles the health probe still fails. */
  datatype World = World(remote: Remote, warmup: nat)

  /** What stays the same over a run: the catalog entry, the rendered upstream, how long deletions linger, and whether
      an update, which asks for instant deployment, starts a stopped service. */
  datatype Setup = Setup(portPath: string, upstream: string, linger: nat, updateDeploys: bool)

  /** What may differ from cycle to cycle. */
  datatype Input = Input(now: Time, finishedAt: Time, metadataDrift: bool, composeDrift: bool, envDrift: bool,
                         uuid: Uuid)

  datatype State = State(row: Option<Tenant>, world: World)

  predicate Exists(remote: Remote, resource: string) {
    resource != "" && !remote.Absent? && remote.uuid == resource
  }

  predicate Serving(remote: Remote, resource: string) {
    Exists(remote, resource) && remote.Present? && remote.running
  }

  predicate Stopped(remote: Remote, resource: string) {
    Exists(remote, resource) && remote.Present? && !remote.running
  }

  /** The service switched on or off, if it is the one addressed. */
  function Switched(remote: Remote, resource: string, on: bool): Remote {
    if Exists(remote, resource) && remote.Present? then Present(resource, on) else remote
  }

  /** What the provider does on these requests; once a service has been created, they are about that one. */
  function Effect(setup: Setup, remote: Remote, resource: string, requests: seq<Request>, i: Input): Remote
    decreases |requests|
  {
    if requests == [] then remote
    else
      var rest := requests[1..];
      match requests[0]
      case CreateRequest => Effect(setup, Present(i.uuid, true), i.uuid, rest, i)
      case UpdateRequest =>
        Effect(setup, if setup.updateDeploys then Switched(remote, resource, true) else remote, resource, rest, i)
      case EnvsRequest => Effect(setup, remote, resource, rest, i)
      case RestartRequest => Effect(setup, Switched(remote, resource, true), resource, rest, i)
      case StartRequest => Effect(setup, Switched(remote, resource, true), resource, rest, i)
      case StopRequest => Effect(setup, Switched(remote, resource, false), resource, rest, i)
      case DeleteRequest =>
        Effect(setup, if Exists(remote, resource) && remote.Present? then Doomed(resource, setup.linger) else remote,
               resource, rest, i)
  }

  /** A cycle later: one lookup less. */
  function Aged(remote: Remote): Remote {
    if remote.Doomed? then if remote.lookups == 0 then Absent else Doomed(remote.uuid, remote.lookups - 1)
    else remote
  }

  function RepliesWith(setup: Setup, row: Tenant, world: World, i: Input, probe: Probe): Replies {
    var found := if Exists(world.remote, row.refs.resource) then Done else NotFound;
    Replies(Service(setup.portPath), Rendered(setup.upstream), found, Created(i.uuid), Done, i.metadataDrift,
            i.composeDrift, Done, Done, i.envDrift, Done, Done, found, found, found, probe, i.now)
  }

  const STARTING := Unhealthy("starting")

  /** The requests do not depend on the probe, which comes after them. */
  function Requests(setup: Setup, row: Tenant, world: World, i: Input): seq<Request> {
    ApplySpec(row, PlanTenantAction(row), RepliesWith(setup, row, world, i, STARTING)).requests
  }

  function RemoteAfter(setup: Setup, row: Tenant, world: World, i: Input): Remote {
    Effect(setup, Aged(world.remote), row.refs.resource, Requests(setup, row, world, i), i)
  }

  /** The probe finds the service healthy if it is warm and, unless the upstream is static, runs after the requests. */
  function Probed(setup: Setup, row: Tenant, world: World, i: Input): Probe {
    var resource := if CreateRequest in Requests(setup, row, world, i) then i.uuid else row.refs.resource;
    if world.warmup == 0 && (row.isStatic || Serving(RemoteAfter(setup, row, world, i), resource)) then Healthy
    else STARTING
  }

  function GoodReplies(setup: Setup, row: Tenant, world: World, i: Input): Replies {
    RepliesWith(setup, row, world, i, Probed(setup, row, world, i))
  }

  function GoodTurn(setup: Setup, row: Tenant, world: World, i: Input): Turn {
    Turn(true, GoodReplies(setup, row, world, i), true, i.finishedAt)
  }

  function Cycle(setup: Setup, s: State, i: Input): State {
    var warmup := if s.world.warmup == 0 then 0 else s.world.warmup - 1;
    match s.row
    case None => State(None, World(Aged(s.world.remote), warmup))
    case Some(row) =>
      var turn := GoodTurn(setup, row, s.world, i);
      var sent := TurnTrace(row, turn).requests;
      State(CycleRow(row, turn), World(Effect(setup, Aged(s.world.remote), row.refs.resource, sent, i), warmup))
  }

  function Cycles(setup: Setup, s: State, inputs: seq<Input>): State
    decreases |inputs|
  {
    if inputs == [] then s else Cycles(setup, Cycle(setup, s, inputs[0]), inputs[1..])
  }

  // Where a tenant should end.

  /** An enabled tenant is ready and its service runs; a suspended one is disabled and its service does not run. */
  predicate AtGoal(s: State) {
    match s.row
    case None => true
    case Some(r) =>
      match r.desired
      case WantEnabled => r.runtime == Ready && (!r.isStatic ==> Serving(s.world.remote, r.refs.resource))
      case WantDisabled => r.runtime == Disabled && (!r.isStatic ==> !Serving(s.world.remote, r.refs.resource))
      case WantDeleted => false
  }

  predicate NoUpstream(row: Tenant) {
    TrimSpace(row.refs.upstream) == ""
  }

  /** The rows that settle. The others: an enabled row that is being deleted; a suspended static row, which is probed
      back to life; an enabled static row without an upstream. */
  predicate RowSettles(row: Tenant) {
    match row.desired
    case WantEnabled => if row.isStatic then row.runtime == Ready || !NoUpstream(row) else row.runtime != Deleting
    case WantDisabled => row.isStatic ==> NoUpstream(row)
    case WantDeleted => true
  }

  /** The service is stopped exactly behind a row that says disabled. */
  predicate Consistent(s: State) {
    s.row.Some? && !s.row.value.isStatic && s.row.value.runtime != Deleting ==>
      && (Stopped(s.world.remote, s.row.value.refs.resource) ==> s.row.value.runtime == Disabled)
      && (Serving(s.world.remote, s.row.value.refs.resource) ==> s.row.value.runtime != Disabled)
  }

  /** Enabled, stopped, and not told so by its row. */
  predicate Stuck(s: State) {
    && s.row.Some? && !s.row.value.isStatic && s.row.value.desired == WantEnabled
    && s.row.value.runtime != Disabled && s.row.value.runtime != Deleting
    && Stopped(s.world.remote, s.row.value.refs.resource)
  }

  /** Suspended, running, and not told so by its row. */
  predicate Unnoticed(s: State) {
    && s.row.Some? && !s.row.value.isStatic && s.row.value.desired == WantDisabled && s.row.value.runtime == Disabled
    && Serving(s.world.remote, s.row.value.refs.resource)
  }

  predicate Settles(s: State) {
    s.row.Some? ==> RowSettles(s.row.value) && !Stuck(s) && !Unnoticed(s)
  }

  lemma ConsistentSettles(s: State)
    requires Consistent(s) && (s.row.Some? ==> RowSettles(s.row.value))
    ensures Settles(s)
  {
  }

  function Waits(remaining: int, period: Time): (n: nat)
    requires period > 0
    decreases remaining
  {
    if remaining <= 0 then 0 else 1 + Waits(remaining - period, period)
  }

  lemma {:induction false} WaitsIsMonotonic(a: int, b: int, period: Time)
    requires period > 0 && a <= b
    ensures Waits(a, period) <= Waits(b, period)
    decreases b
  {
    if b > 0 { WaitsIsMonotonic(a - period, b - period, period); }
  }

  function Remaining(row: Tenant, now: Time): int {
    if row.runtime != Deleting || row.lastReconciled.None? then 0
    else row.lastReconciled.value + DELETE_REQUEUE_INTERVAL - now
  }

  function DeleteMeasure(setup: Setup, row: Tenant, world: World, now: Time, period: Time): nat
    requires period > 0
  {
    if row.isStatic || !Exists(world.remote, row.refs.resource) then 1
    else if world.remote.Doomed? then world.remote.lookups + 2
    else Waits(Remaining(row, now), period) + setup.linger + 3
  }

  /** A service that runs is ready after one cycle; one that is missing is noticed, then created; one that is still
      being deleted is waited for. */
  function ServiceMeasure(row: Tenant, remote: Remote): nat {
    if Serving(remote, row.refs.resource) then if row.runtime == Ready then 0 else 1
    else if Exists(remote, row.refs.resource) && remote.Doomed? then remote.lookups + 2
    else if row.runtime == Ready then 2
    else 1
  }

  function EnableMeasure(row: Tenant, world: World): nat {
    if row.isStatic then
      if row.runtime == Ready && NoUpstream(row) then 0 else 2 * world.warmup + if row.runtime == Ready then 0 else 1
    else 2 * world.warmup + ServiceMeasure(row, world.remote) + if row.refs.upstream == "" then 1 else 0
  }

  /** How many cycles, `period` apart and starting at `now`, are enough. */
  function Measure(setup: Setup, s: State, now: Time, period: Time): nat
    requires period > 0
  {
    match s.row
    case None => 0
    case Some(row) =>
      match row.desired
      case WantEnabled => EnableMeasure(row, s.world)
      case WantDisabled => if row.runtime == Disabled then 0 else 1
      case WantDeleted => DeleteMeasure(setup, row, s.world, now, period)
  }

  // What one turn sends, and what that does to the service.

  predicate Answering(env: Replies) {
    && env.service.Service? && env.rendering.Rendered? && env.creation.Created?
    && env.get == env.update == env.listEnvs == env.updateEnvs == env.restart == Done
    && !env.check.Failed? && env.start == env.stop == env.deletion == env.check
  }

  lemma ProbeChangesNoConverge(resource: string, created: bool, upstream: string, env: Replies, probe: Probe)
    ensures ConvergeSpec(resource, created, upstream, env.(probe := probe)).requests ==
            ConvergeSpec(resource, created, upstream, env).requests
  {
    var env' := env.(probe := probe);
    assert ProvisionSpec(resource, upstream, env').requests == ProvisionSpec(resource, upstream, env).requests;
    assert RestartSpec(resource, created, upstream, env').requests ==
           RestartSpec(resource, created, upstream, env).requests;
    assert EnvsSpec(resource, created, upstream, env').requests == EnvsSpec(resource, created, upstream, env).requests;
  }

  lemma ProbeChangesNoEnsure(row: Tenant, env: Replies, probe: Probe)
    ensures EnsureSpec(row, env.(probe := probe)).requests == EnsureSpec(row, env).requests
  {
    if env.rendering.Rendered? {
      ProbeChangesNoConverge(row.refs.resource, false, env.rendering.upstream, env, probe);
      if env.creation.Created? {
        ProbeChangesNoConverge(env.creation.uuid, true, env.rendering.upstream, env, probe);
      }
    }
  }

  lemma ProbeChangesNoRequest(row: Tenant, action: Action, env: Replies, probe: Probe)
    ensures ApplySpec(row, action, env.(probe := probe)).requests == ApplySpec(row, action, env).requests
  {
    ProbeChangesNoEnsure(row, env, probe);
  }

  lemma TurnSends(setup: Setup, row: Tenant, world: World, i: Input)
    ensures TurnTrace(row, GoodTurn(setup, row, world, i)).requests == Requests(setup, row, world, i)
  {
    var env := RepliesWith(setup, row, world, i, STARTING);
    var probe := Probed(setup, row, world, i);
    assert GoodReplies(setup, row, world, i) == env.(probe := probe);
    ProbeChangesNoRequest(row, PlanTenantAction(row), env, probe);
  }

  /** The drift that gets a service started on the way. */
  predicate Restarts(setup: Setup, env: Replies) {
    env.composeDrift || env.envDrift || (env.metadataDrift && setup.updateDeploys)
  }

  lemma EffectOf(setup: Setup, remote: Remote, resource: string, request: Request, rest: seq<Request>, i: Input)
    ensures Effect(setup, remote, resource, [request] + rest, i) ==
            match request
            case CreateRequest => Effect(setup, Present(i.uuid, true), i.uuid, rest, i)
            case UpdateRequest =>
              Effect(setup, if setup.updateDeploys then Switched(remote, resource, true) else remote, resource, rest, i)
            case EnvsRequest => Effect(setup, remote, resource, rest, i)
            case RestartRequest => Effect(setup, Switched(remote, resource, true), resource, rest, i)
            case StartRequest => Effect(setup, Switched(remote, resource, true), resource, rest, i)
            case StopRequest => Effect(setup, Switched(remote, resource, false), resource, rest, i)
            case DeleteRequest =>
              Effect(setup,
                     if Exists(remote, resource) && remote.Present? then Doomed(resource, setup.linger) else remote,
                     resource, rest, i)
  {
    assert ([request] + rest)[1..] == rest;
  }

  lemma RestartEffect(setup: Setup, remote: Remote, resource: string, created: bool, upstream: string, env: Replies,
                      i: Input)
    requires env.restart == Done
    ensures Effect(setup, remote, resource, RestartSpec(resource, created, upstream, env).requests, i) ==
            if created || env.envDrift || env.composeDrift then Switched(remote, resource, true) else remote
  {
    EffectOf(setup, remote, resource, RestartRequest, [], i);
    assert ProvisionSpec(resource, upstream, env).requests == [];
  }

  lemma EnvsEffect(setup: Setup, remote: Remote, resource: string, created: bool, upstream: string, env: Replies,
                   i: Input)
    requires env.listEnvs == env.updateEnvs == env.restart == Done
    ensures Effect(setup, remote, resource, EnvsSpec(resource, created, upstream, env).requests, i) ==
            if created || env.envDrift || env.composeDrift then Switched(remote, resource, true) else remote
  {
    RestartEffect(setup, remote, resource, created, upstream, env, i);
    EffectOf(setup, remote, resource, EnvsRequest, RestartSpec(resource, created, upstream, env).requests, i);
  }

  lemma ConvergeEffect(setup: Setup, remote: Remote, resource: string, created: bool, upstream: string, env: Replies,
                       i: Input)
    requires Answering(env)
    ensures Effect(setup, remote, resource, ConvergeSpec(resource, created, upstream, env).requests, i) ==
            if created || Restarts(setup, env) then Switched(remote, resource, true) else remote
  {
    var deployed := if setup.updateDeploys then Switched(remote, resource, true) else remote;
    EnvsEffect(setup, remote, resource, created, upstream, env, i);
    EnvsEffect(setup, deployed, resource, created, upstream, env, i);
    EffectOf(setup, remote, resource, UpdateRequest, EnvsSpec(resource, created, upstream, env).requests, i);
  }

  /** What an ensure does to the service: it runs afterwards if it was created or had drifted. */
  lemma EnsureEffect(setup: Setup, remote: Remote, row: Tenant, env: Replies, i: Input)
    requires Answering(env) && env.creation.uuid == i.uuid
    ensures Effect(setup, remote, row.refs.resource, EnsureSpec(row, env).requests, i) ==
            if Missing(row, env) then Present(i.uuid, true)
            else if Restarts(setup, env) then Switched(remote, row.refs.resource, true) else remote
    ensures CreateRequest in EnsureSpec(row, env).requests <==> Missing(row, env)
  {
    var upstream := env.rendering.upstream;
    ConvergeEffect(setup, remote, row.refs.resource, false, upstream, env, i);
    ConvergeEffect(setup, Present(i.uuid, true), i.uuid, true, upstream, env, i);
    ConvergeIsSound(row.refs.resource, false, upstream, env);
    EffectOf(setup, remote, row.refs.resource, CreateRequest, ConvergeSpec(i.uuid, true, upstream, env).requests, i);
  }

  lemma EnableEffect(setup: Setup, remote: Remote, row: Tenant, portPath: string, env: Replies, i: Input)
    requires Answering(env) && env.creation.uuid == i.uuid
    ensures Effect(setup, remote, row.refs.resource, EnableSpec(row, portPath, env).requests, i) ==
            if Missing(row, env) then Present(i.uuid, true) else Switched(remote, row.refs.resource, true)
    ensures CreateRequest in EnableSpec(row, portPath, env).requests <==> Missing(row, env)
  {
    EnsureEffect(setup, remote, row, env, i);
    EnsureEffect(setup, Switched(remote, row.refs.resource, true), row, env, i);
    EffectOf(setup, remote, row.refs.resource, StartRequest, EnsureSpec(row, env).requests, i);
    EffectOf(setup, remote, row.refs.resource, StartRequest, [], i);
  }

  lemma DisableEffect(setup: Setup, remote: Remote, row: Tenant, env: Replies, i: Input)
    requires Answering(env)
    ensures Effect(setup, remote, row.refs.resource, DisableSpec(row, env).requests, i) ==
            Switched(remote, row.refs.resource, false)
  {
    EffectOf(setup, remote, row.refs.resource, StopRequest, [], i);
  }

  // What one turn makes of the row.

  lemma WrittenTwice(row: Tenant, u: RuntimeUpdate, v: RuntimeUpdate)
    ensures Written(row, [u] + [v]) == Updated(Updated(row, u), v)
  {
    assert ([u] + [v])[1..] == [v];
    WrittenOnce(Updated(row, u), v);
  }

  function Unchanging(row: Tenant): (DesiredState, bool, string, string, string) {
    (row.desired, row.isStatic, row.subject, row.service, row.subjectKey)
  }

  function Observed(env: Replies): RuntimeState {
    if env.probe.Healthy? then Ready else Degraded
  }

  predicate EnsuredAs(row: Tenant, r: Tenant, env: Replies)
    requires env.creation.Created?
  {
    && Unchanging(r) == Unchanging(row) && r.runtime == Observed(env)
    && (r.refs.upstream == "" ==> row.refs.upstream == "")
    && r.refs.resource == if Missing(row, env) then env.creation.uuid else row.refs.resource
  }

  lemma GoodConverge(resource: string, created: bool, upstream: string, env: Replies)
    requires env.get == env.update == env.listEnvs == env.updateEnvs == env.restart == Done
    ensures var c, p := ConvergeSpec(resource, created, upstream, env), ProvisionSpec(resource, upstream, env);
            c.writes == p.writes && c.result == p.result
  {
  }

  lemma ProvisionWrites(row: Tenant, resource: string, upstream: string, env: Replies)
    requires resource != ""
    ensures var r := Written(row, ProvisionSpec(resource, upstream, env).writes);
            && Unchanging(r) == Unchanging(row) && r.runtime == Observed(env) && r.refs.resource == resource
            && (r.refs.upstream == "" ==> row.refs.upstream == "")
  {
    var u := RuntimeUpdate(Provisioning, References(resource, "", upstream), None, "", false);
    WrittenTwice(row, u, ObserveSpec(resource, upstream, env).writes[0]);
  }

  lemma TurnOfEnsure(row: Tenant, env: Replies)
    requires Answering(env) && env.creation.uuid != ""
    ensures var t := EnsureSpec(row, env);
            && t.result.Applied? && !t.result.deleteCompleted && !t.result.skipMark
            && EnsuredAs(row, Written(row, t.writes), env)
  {
    var created := Missing(row, env);
    var resource := if created then env.creation.uuid else row.refs.resource;
    GoodConverge(resource, created, env.rendering.upstream, env);
    ProvisionWrites(row, resource, env.rendering.upstream, env);
    assert EnsureSpec(row, env).writes == ProvisionSpec(resource, env.rendering.upstream, env).writes;
  }

  lemma TurnOfStarted(row: Tenant, env: Replies)
    requires Answering(env) && !Missing(row, env)
    ensures var t := EnableSpec(row, env.service.portPath, env);
            && t.result.Applied? && !t.result.deleteCompleted && !t.result.skipMark
            && EnsuredAs(row, Written(row, t.writes), env)
            && (row.refs.upstream != "" ==> Written(row, t.writes).refs == row.refs)
  {
    WrittenTwice(row, Status(Provisioning, ""), ObserveRowSpec(row, env.service.portPath, env).writes[0]);
  }

  /** A turn that asks for the service: ready or degraded as the probe says. */
  lemma TurnOfUnready(row: Tenant, turn: Turn)
    requires Answering(turn.replies) && turn.replies.creation.uuid != "" && row.desired == WantEnabled && !row.isStatic
    requires row.runtime != Deleting && row.runtime != Ready
    ensures CycleRow(row, turn).Some? && EnsuredAs(row, CycleRow(row, turn).value, turn.replies)
  {
    var env := turn.replies;
    if row.runtime == Disabled && !Missing(row, env) {
      TurnOfStarted(row, env);
    } else {
      TurnOfEnsure(row, env);
    }
  }

  lemma TurnOfReady(row: Tenant, turn: Turn)
    requires Answering(turn.replies) && row.desired == WantEnabled && !row.isStatic && row.runtime == Ready
    ensures var r := CycleRow(row, turn);
            && r.Some? && Unchanging(r.value) == Unchanging(row) && r.value.runtime == Observed(turn.replies)
            && r.value.refs.resource == row.refs.resource && r.value.refs.upstream != ""
            && (row.refs.upstream != "" ==> r.value.refs == row.refs)
  {
    WrittenOnce(row, ObserveRowSpec(row, turn.replies.service.portPath, turn.replies).writes[0]);
  }

  lemma TurnOfStaticEnabled(row: Tenant, turn: Turn)
    requires Answering(turn.replies) && row.desired == WantEnabled && row.isStatic
    ensures var r := CycleRow(row, turn);
            && r.Some? && Unchanging(r.value) == Unchanging(row) && r.value.refs == row.refs
            && r.value.runtime == if NoUpstream(row) then row.runtime else Observed(turn.replies)
  {
    if !NoUpstream(row) { WrittenOnce(row, StaticObserveSpec(row, turn.replies).writes[0]); }
  }

  lemma TurnOfDisabled(row: Tenant, turn: Turn)
    requires Answering(turn.replies) && row.desired == WantDisabled
    ensures var r := CycleRow(row, turn);
            && r.Some? && Unchanging(r.value) == Unchanging(row) && r.value.refs == row.refs
            && r.value.runtime == (if row.runtime != Disabled || !row.isStatic || NoUpstream(row) then Disabled
                                   else Observed(turn.replies))
  {
    WrittenOnce(row, Status(Disabled, ""));
    if row.runtime == Disabled && row.isStatic && !NoUpstream(row) {
      WrittenOnce(row, StaticObserveSpec(row, turn.replies).writes[0]);
    }
  }

  lemma TurnOfDeleted(row: Tenant, turn: Turn)
    requires Answering(turn.replies) && row.desired == WantDeleted
    ensures var r, requests := CycleRow(row, turn), TurnTrace(row, turn).requests;
            if row.isStatic || Missing(row, turn.replies) then r.None?
            else && r.Some? && Unchanging(r.value) == Unchanging(row)
                 && r.value.refs == row.refs && r.value.runtime == Deleting
                 && requests == (if QueuesDelete(row, turn.replies.now) then [DeleteRequest] else [])
                 && (requests == [] ==> r.value.lastReconciled == row.lastReconciled)
  {
    WrittenOnce(row, Status(Deleting, ""));
  }

  // One cycle of each kind.

  lemma GoodTurnAnswers(setup: Setup, row: Tenant, world: World, i: Input)
    ensures var env := GoodReplies(setup, row, world, i);
            && Answering(env) && env.creation.uuid == i.uuid && env.now == i.now
            && env.metadataDrift == i.metadataDrift && env.composeDrift == i.composeDrift && env.envDrift == i.envDrift
            && (row.refs.resource != "" ==> (Missing(row, env) <==> !Exists(world.remote, row.refs.resource)))
            && env.probe == Probed(setup, row, world, i)
  {
  }

  predicate RestartsOn(setup: Setup, i: Input) {
    i.composeDrift || i.envDrift || (i.metadataDrift && setup.updateDeploys)
  }

  /** What a cycle does to the service, for the rows that have one. */
  function NextRemote(setup: Setup, row: Tenant, remote: Remote, i: Input): Remote
    requires !row.isStatic && row.desired != WantDeleted
  {
    var resource := row.refs.resource;
    if row.desired == WantDisabled then
      if row.runtime == Disabled then Aged(remote) else Switched(Aged(remote), resource, false)
    else if row.runtime == Ready || row.runtime == Deleting then Aged(remote)
    else if !Exists(remote, resource) then Present(i.uuid, true)
    else if row.runtime == Disabled || RestartsOn(setup, i) then Switched(Aged(remote), resource, true)
    else Aged(remote)
  }

  predicate CreatesNow(row: Tenant, remote: Remote) {
    row.desired == WantEnabled && row.runtime != Ready && row.runtime != Deleting && !Exists(remote, row.refs.resource)
  }

  lemma ServiceStep(setup: Setup, row: Tenant, world: World, i: Input)
    requires !row.isStatic && row.desired != WantDeleted
    ensures RemoteAfter(setup, row, world, i) == NextRemote(setup, row, world.remote, i)
    ensures CreateRequest in Requests(setup, row, world, i) <==> CreatesNow(row, world.remote)
  {
    var env := RepliesWith(setup, row, world, i, STARTING);
    match PlanTenantAction(row) {
      case Noop => assert Requests(setup, row, world, i) == [];
      case Ensure => EnsureEffect(setup, Aged(world.remote), row, env, i);
      case Enable => EnableEffect(setup, Aged(world.remote), row, setup.portPath, env, i);
      case Disable => DisableEffect(setup, Aged(world.remote), row, env, i);
    }
  }

  /** The probe's answer in an enabled or suspended row's cycle. */
  lemma ProbeStep(setup: Setup, row: Tenant, world: World, i: Input)
    requires !row.isStatic && row.desired != WantDeleted
    ensures var resource := if CreatesNow(row, world.remote) then i.uuid else row.refs.resource;
            Observed(GoodReplies(setup, row, world, i)) ==
            if world.warmup == 0 && Serving(NextRemote(setup, row, world.remote, i), resource) then Ready else Degraded
  {
    ServiceStep(setup, row, world, i);
  }

  lemma CycleRemote(setup: Setup, s: State, i: Input)
    requires s.row.Some? && !s.row.value.isStatic && s.row.value.desired != WantDeleted
    ensures Cycle(setup, s, i).world.remote == NextRemote(setup, s.row.value, s.world.remote, i)
  {
    ServiceStep(setup, s.row.value, s.world, i);
    TurnSends(setup, s.row.value, s.world, i);
  }

  lemma CycleOfEnabled(setup: Setup, row: Tenant, world: World, i: Input)
    requires row.desired == WantEnabled && !row.isStatic && row.runtime != Deleting
    ensures var r := CycleRow(row, GoodTurn(setup, row, world, i));
            var resource := if CreatesNow(row, world.remote) then i.uuid else row.refs.resource;
            && r.Some? && Unchanging(r.value) == Unchanging(row) && r.value.refs.resource == resource
            && r.value.runtime ==
               (if world.warmup == 0 && Serving(NextRemote(setup, row, world.remote, i), resource) then Ready
                else Degraded)
            && (r.value.refs.upstream == "" ==> row.refs.upstream == "" && row.runtime != Ready)
            && (row.runtime == Ready && row.refs.upstream != "" ==> r.value.refs == row.refs)
  {
    var turn := GoodTurn(setup, row, world, i);
    GoodTurnAnswers(setup, row, world, i);
    ProbeStep(setup, row, world, i);
    if row.runtime == Ready { TurnOfReady(row, turn); } else { TurnOfUnready(row, turn); }
  }

  lemma CycleOfStaticEnabled(setup: Setup, row: Tenant, world: World, i: Input)
    requires row.desired == WantEnabled && row.isStatic
    ensures var r := CycleRow(row, GoodTurn(setup, row, world, i));
            && r.Some? && Unchanging(r.value) == Unchanging(row) && r.value.refs == row.refs
            && r.value.runtime ==
               if NoUpstream(row) then row.runtime else if world.warmup == 0 then Ready else Degraded
  {
    GoodTurnAnswers(setup, row, world, i);
    TurnOfStaticEnabled(row, GoodTurn(setup, row, world, i));
  }

  lemma CycleOfDisabled(setup: Setup, row: Tenant, world: World, i: Input)
    requires row.desired == WantDisabled
    ensures var r := CycleRow(row, GoodTurn(setup, row, world, i));
            && r.Some? && Unchanging(r.value) == Unchanging(row) && r.value.refs == row.refs
            && r.value.runtime == (if row.runtime != Disabled || !row.isStatic || NoUpstream(row) then Disabled
                                   else if world.warmup == 0 then Ready else Degraded)
  {
    GoodTurnAnswers(setup, row, world, i);
    TurnOfDisabled(row, GoodTurn(setup, row, world, i));
  }

  lemma CycleOfDeleted(setup: Setup, row: Tenant, world: World, i: Input)
    requires row.desired == WantDeleted
    ensures var turn := GoodTurn(setup, row, world, i);
            var r, requests := CycleRow(row, turn), TurnTrace(row, turn).requests;
            if row.isStatic || !Exists(world.remote, row.refs.resource) then r.None?
            else && r.Some? && Unchanging(r.value) == Unchanging(row)
                 && r.value.refs == row.refs && r.value.runtime == Deleting
                 && requests == (if QueuesDelete(row, i.now) then [DeleteRequest] else [])
                 && (requests == [] ==> r.value.lastReconciled == row.lastReconciled)
  {
    GoodTurnAnswers(setup, row, world, i);
    TurnOfDeleted(row, GoodTurn(setup, row, world, i));
  }

  /** Deletion is asked for once and then waited for. */
  lemma DeletedRemote(setup: Setup, row: Tenant, world: World, i: Input)
    requires row.desired == WantDeleted && !row.isStatic && Exists(world.remote, row.refs.resource)
    ensures Cycle(setup, State(Some(row), world), i).world.remote ==
            if world.remote.Doomed? then Aged(world.remote)
            else if QueuesDelete(row, i.now) then Doomed(row.refs.resource, setup.linger) else world.remote
  {
    CycleOfDeleted(setup, row, world, i);
    assert [DeleteRequest] + [] == [DeleteRequest];
    EffectOf(setup, Aged(world.remote), row.refs.resource, DeleteRequest, [], i);
  }

  // The measure goes down.

  lemma MeasureOfDeletedDecreases(setup: Setup, row: Tenant, world: World, i: Input, next: Time, period: Time)
    requires period > 0 && next >= i.now + period && row.desired == WantDeleted
    ensures Measure(setup, Cycle(setup, State(Some(row), world), i), next, period) <
            Measure(setup, State(Some(row), world), i.now, period)
  {
    CycleOfDeleted(setup, row, world, i);
    if !row.isStatic && Exists(world.remote, row.refs.resource) {
      DeletedRemote(setup, row, world, i);
      if world.remote.Present? && !QueuesDelete(row, i.now) {
        var row' := CycleRow(row, GoodTurn(setup, row, world, i)).value;
        WaitsIsMonotonic(Remaining(row', next), Remaining(row, i.now) - period, period);
      }
    }
  }

  lemma MeasureOfEnabledDecreases(setup: Setup, s: State, i: Input, next: Time, period: Time)
    requires period > 0 && s.row.Some? && s.row.value.desired == WantEnabled && Settles(s)
    requires Measure(setup, s, i.now, period) > 0
    ensures var s' := Cycle(setup, s, i);
            Measure(setup, s', next, period) < Measure(setup, s, i.now, period) && Settles(s')
  {
    var row := s.row.value;
    if row.isStatic {
      CycleOfStaticEnabled(setup, row, s.world, i);
    } else {
      CycleOfEnabled(setup, row, s.world, i);
      CycleRemote(setup, s, i);
    }
  }

  lemma MeasureDecreases(setup: Setup, s: State, i: Input, next: Time, period: Time)
    requires period > 0 && next >= i.now + period && s.row.Some? && Settles(s)
    requires Measure(setup, s, i.now, period) > 0
    ensures Measure(setup, Cycle(setup, s, i), next, period) < Measure(setup, s, i.now, period)
    ensures Settles(Cycle(setup, s, i))
  {
    var row := s.row.value;
    match row.desired {
      case WantEnabled => MeasureOfEnabledDecreases(setup, s, i, next, period);
      case WantDisabled =>
        CycleOfDisabled(setup, row, s.world, i);
        if !row.isStatic { CycleRemote(setup, s, i); }
      case WantDeleted =>
        CycleOfDeleted(setup, row, s.world, i);
        MeasureOfDeletedDecreases(setup, row, s.world, i, next, period);
    }
  }

  /** At measure zero the tenant is where it should be, and another cycle changes neither its state nor its
      references. */
  lemma RestIsStable(setup: Setup, s: State, i: Input, now: Time, next: Time, period: Time)
    requires period > 0 && Measure(setup, s, now, period) == 0 && Settles(s)
    ensures AtGoal(s)
    ensures var s' := Cycle(setup, s, i);
            && Measure(setup, s', next, period) == 0 && Settles(s')
            && (s.row.None? <==> s'.row.None?)
            && (s.row.Some? ==> && s'.row.value.runtime == s.row.value.runtime
                                && s'.row.value.refs == s.row.value.refs
                                && Unchanging(s'.row.value) == Unchanging(s.row.value))
  {
    if s.row.Some? {
      var row := s.row.value;
      match row.desired {
        case WantEnabled =>
          if row.isStatic {
            CycleOfStaticEnabled(setup, row, s.world, i);
          } else {
            CycleOfEnabled(setup, row, s.world, i);
            CycleRemote(setup, s, i);
          }
        case WantDisabled =>
          CycleOfDisabled(setup, row, s.world, i);
          if !row.isStatic { CycleRemote(setup, s, i); }
        case WantDeleted => assert false;
      }
    }
  }

  /** Cycles at least `period` apart, the first not before `now`. */
  predicate Spaced(inputs: seq<Input>, now: Time, period: Time) {
    && (inputs != [] ==> inputs[0].now >= now)
    && forall i :: 0 <= i < |inputs| - 1 ==> inputs[i + 1].now >= inputs[i].now + period
  }

  lemma MeasureShrinksWithTime(setup: Setup, s: State, now: Time, later: Time, period: Time)
    requires period > 0 && now <= later
    ensures Measure(setup, s, later, period) <= Measure(setup, s, now, period)
    ensures Measure(setup, s, later, period) == 0 <==> Measure(setup, s, now, period) == 0
  {
    if s.row.Some? { WaitsIsMonotonic(Remaining(s.row.value, later), Remaining(s.row.value, now), period); }
  }

  const NO_INPUT := Input(0, 0, false, false, false, "u")

  /** Convergence: any run of at least that many cycles ends where the tenant should be. */
  lemma {:induction false} Converges(setup: Setup, s: State, inputs: seq<Input>, now: Time, period: Time)
    requires period > 0 && Spaced(inputs, now, period) && Settles(s)
    requires Measure(setup, s, now, period) <= |inputs|
    ensures var end := Cycles(setup, s, inputs);
            AtGoal(end) && Settles(end) && forall t :: Measure(setup, end, t, period) == 0
    decreases |inputs|
  {
    if inputs == [] {
      RestIsStable(setup, s, NO_INPUT, now, now, period);
      forall t ensures Measure(setup, s, t, period) == 0 {
        MeasureShrinksWithTime(setup, s, if t < now then t else now, if t < now then now else t, period);
      }
    } else {
      var i, rest := inputs[0], inputs[1..];
      var next := i.now + period;
      MeasureShrinksWithTime(setup, s, now, i.now, period);
      if Measure(setup, s, i.now, period) == 0 {
        RestIsStable(setup, s, i, i.now, next, period);
      } else {
        MeasureDecreases(setup, s, i, next, period);
      }
      Converges(setup, Cycle(setup, s, i), rest, next, period);
    }
  }

  /** And every further run keeps its runtime state and references. */
  lemma {:induction false} StaysConverged(setup: Setup, s: State, inputs: seq<Input>, now: Time, period: Time)
    requires period > 0 && Measure(setup, s, now, period) == 0 && Settles(s)
    ensures var end := Cycles(setup, s, inputs);
            && AtGoal(end) && (end.row.None? <==> s.row.None?)
            && (s.row.Some? ==> end.row.value.runtime == s.row.value.runtime && end.row.value.refs == s.row.value.refs)
    decreases |inputs|
  {
    var i := if inputs == [] then NO_INPUT else inputs[0];
    RestIsStable(setup, s, i, now, now, period);
    if inputs != [] { StaysConverged(setup, Cycle(setup, s, i), inputs[1..], now, period); }
  }

  /** The other states never settle: of any two successive ones at least one is away from the goal, until drift
      restarts a stuck service. */
  lemma NeverSettles(setup: Setup, s: State, i: Input)
    requires !Settles(s) && (Stuck(s) ==> !RestartsOn(setup, i))
    ensures var s' := Cycle(setup, s, i);
            s'.row.Some? && !Settles(s') && !(AtGoal(s) && AtGoal(s'))
  {
    var row := s.row.value;
    if row.desired == WantDisabled {
      CycleOfDisabled(setup, row, s.world, i);
      if !row.isStatic { CycleRemote(setup, s, i); }
    } else if row.isStatic {
      CycleOfStaticEnabled(setup, row, s.world, i);
    } else if row.runtime != Deleting {
      CycleOfEnabled(setup, row, s.world, i);
      CycleRemote(setup, s, i);
    }
  }

  /** A stuck service is started exactly when the row is not ready any more and something has drifted. */
  lemma StuckIsStartedIff(setup: Setup, s: State, i: Input)
    requires Stuck(s)
    ensures var s' := Cycle(setup, s, i);
            if s.row.value.runtime != Ready && RestartsOn(setup, i)
            then Serving(s'.world.remote, s.row.value.refs.resource)
            else Stuck(s')
  {
    CycleOfEnabled(setup, s.row.value, s.world, i);
    CycleRemote(setup, s, i);
  }

  /** Cycles keep row and service consistent. */
  lemma CycleKeepsConsistent(setup: Setup, s: State, i: Input)
    requires Consistent(s)
    ensures Consistent(Cycle(setup, s, i))
  {
    if s.row.Some? {
      var row := s.row.value;
      if !row.isStatic && row.desired != WantDeleted { CycleRemote(setup, s, i); }
      match row.desired {
        case WantEnabled =>
          if row.isStatic {
            CycleOfStaticEnabled(setup, row, s.world, i);
          } else if row.runtime != Deleting {
            CycleOfEnabled(setup, row, s.world, i);
          }
        case WantDisabled => CycleOfDisabled(setup, row, s.world, i);
        case WantDeleted => CycleOfDeleted(setup, row, s.world, i);
      }
    }
  }

  /** So do operators and the grants, which change what is wanted, except for one repair: a suspended row that is wanted
      again under another identity is marked degraded, and its stopped service is then started only by drift. */
  lemma RepairKeepsConsistentIff(row: Tenant, world: World, spec: Spec)
    requires Consistent(State(Some(row), world)) && !row.isStatic && row.runtime != Deleting
    ensures Consistent(State(Some(Enabled(row, spec)), world)) <==>
            !(row.runtime == Disabled && Stopped(world.remote, row.refs.resource) && Drifted(row, spec))
    ensures Stuck(State(Some(Enabled(row, spec)), world)) <==>
            row.runtime == Disabled && Stopped(world.remote, row.refs.resource) && Drifted(row, spec)
  {
  }

  lemma WantedChangesKeepConsistent(row: Tenant, world: World, desired: DesiredState)
    requires Consistent(State(Some(row), world))
    ensures Consistent(State(Some(row.(desired := desired)), world))
  {
  }

  /** A suspended static upstream that is healthy is switched on and off for ever. */
  lemma SuspendedStaticOscillates(setup: Setup, row: Tenant, i: Input, j: Input)
    requires row.isStatic && row.desired == WantDisabled && row.runtime == Disabled && !NoUpstream(row)
    ensures var s := State(Some(row), World(Absent, 0));
            var s' := Cycle(setup, s, i);
            && s'.row.Some? && s'.row.value.runtime == Ready
            && Cycle(setup, s', j).row.Some? && Cycle(setup, s', j).row.value.runtime == Disabled
  {
    CycleOfDisabled(setup, row, World(Absent, 0), i);
    var s' := Cycle(setup, State(Some(row), World(Absent, 0)), i);
    CycleOfDisabled(setup, s'.row.value, s'.world, j);
  }

  /** Suspending an enabled tenant that is served stops its service within a cycle, and resuming it starts the same
      service within another. */
  lemma SuspendStopsResumeStarts(setup: Setup, row: Tenant, world: World, i: Input, j: Input, subject: string,
                                 service: string)
    requires row.desired == WantEnabled && !row.isStatic && row.refs.upstream != ""
    requires AtGoal(State(Some(row), world)) && world.warmup == 0
    requires row.subject == subject && row.service == service
    ensures var suspended := Suspend(map[0 := row], subject, service)[0];
            var s := Cycle(setup, State(Some(suspended), world), i);
            && AtGoal(s) && s.row.Some? && s.row.value.runtime == Disabled && s.row.value.refs == row.refs
            && Stopped(s.world.remote, row.refs.resource)
            && var resumed := Resume(map[0 := s.row.value], subject, service, true)[0];
               var s' := Cycle(setup, State(Some(resumed), s.world), j);
               && AtGoal(s') && s'.row.Some? && s'.row.value.runtime == Ready && s'.row.value.refs == row.refs
               && Serving(s'.world.remote, row.refs.resource)
  {
    var suspended := Suspend(map[0 := row], subject, service)[0];
    CycleOfDisabled(setup, suspended, world, i);
    CycleRemote(setup, State(Some(suspended), world), i);
    var s := Cycle(setup, State(Some(suspended), world), i);
    var resumed := Resume(map[0 := s.row.value], subject, service, true)[0];
    CycleOfEnabled(setup, resumed, s.world, j);
    CycleRemote(setup, State(Some(resumed), s.world), j);
    GoodTurnAnswers(setup, resumed, s.world, j);
    TurnOfStarted(resumed, GoodReplies(setup, resumed, s.world, j));
  }

  // All tenants together.

  /** The table, and the provider's state behind each row. */
  datatype Fleet = Fleet(tenants: Table, worlds: TenantId -> World)

  function StateOf(f: Fleet, id: TenantId): State {
    State(RowAt(f.tenants, id), f.worlds(id))
  }

  /** One pass advances every tenant by one cycle of its own. */
  ghost predicate PassStep(setup: Setup, f: Fleet, f': Fleet, inputs: TenantId -> Input) {
    forall id :: StateOf(f', id) == Cycle(setup, StateOf(f, id), inputs(id))
  }

  /** That is what a pass of the reconciler does that keeps the lease and finds the provider answering. */
  lemma FullPassIsCycle(setup: Setup, f: Fleet, after: Table, listed: seq<TenantId>, turns: Turns,
                        inputs: TenantId -> Input, id: TenantId)
    requires Passed(f.tenants, after, listed, |listed|, turns)
    requires forall j :: j in f.tenants ==> turns(j) == GoodTurn(setup, f.tenants[j], f.worlds(j), inputs(j))
    ensures RowAt(after, id) == Cycle(setup, StateOf(f, id), inputs(id)).row
  {
    assert listed[..|listed|] == listed;
  }

  function InputsOf(inputs: seq<TenantId -> Input>, id: TenantId): (r: seq<Input>)
    ensures |r| == |inputs| && forall i :: 0 <= i < |r| ==> r[i] == inputs[i](id)
  {
    seq(|inputs|, i requires 0 <= i < |inputs| => inputs[i](id))
  }

  lemma {:induction false} CyclesAppend(setup: Setup, s: State, inputs: seq<Input>, i: Input)
    ensures Cycles(setup, s, inputs + [i]) == Cycle(setup, Cycles(setup, s, inputs), i)
    decreases |inputs|
  {
    if inputs == [] {
      assert [] + [i] == [i] && [i][1..] == [];
    } else {
      assert (inputs + [i])[1..] == inputs[1..] + [i];
      CyclesAppend(setup, Cycle(setup, s, inputs[0]), inputs[1..], i);
    }
  }

  lemma {:induction false} FleetCycles(setup: Setup, fleets: seq<Fleet>, inputs: seq<TenantId -> Input>,
                                       id: TenantId, n: nat)
    requires |fleets| == |inputs| + 1 && n <= |inputs|
    requires forall i :: 0 <= i < |inputs| ==> PassStep(setup, fleets[i], fleets[i + 1], inputs[i])
    ensures StateOf(fleets[n], id) == Cycles(setup, StateOf(fleets[0], id), InputsOf(inputs, id)[..n])
  {
    if n > 0 {
      FleetCycles(setup, fleets, inputs, id, n - 1);
      var all := InputsOf(inputs, id);
      assert all[..n] == all[..n - 1] + [all[n - 1]];
      CyclesAppend(setup, StateOf(fleets[0], id), all[..n - 1], all[n - 1]);
      assert PassStep(setup, fleets[n - 1], fleets[n], inputs[n - 1]);
    }
  }

  /** Every tenant that settles is at its goal once the passes outnumber its measure, whatever the other tenants do. */
  lemma EveryTenantConverges(setup: Setup, fleets: seq<Fleet>, inputs: seq<TenantId -> Input>, id: TenantId,
                             now: Time, period: Time)
    requires |fleets| == |inputs| + 1 && forall i :: 0 <= i < |inputs| ==>
             PassStep(setup, fleets[i], fleets[i + 1], inputs[i])
    requires period > 0 && Spaced(InputsOf(inputs, id), now, period)
    requires Settles(StateOf(fleets[0], id))
    requires Measure(setup, StateOf(fleets[0], id), now, period) <= |inputs|
    ensures AtGoal(StateOf(fleets[|inputs|], id))
  {
    var all := InputsOf(inputs, id);
    FleetCycles(setup, fleets, inputs, id, |inputs|);
    assert all[..|inputs|] == all;
    Converges(setup, StateOf(fleets[0], id), all, now, period);
  }
}
