/** One tenant's reconcile action against the provider (internal/controlplane/tenant_runtime.go). */
module TenantRuntime {
  import opened Wrappers
  import opened Collections
  import opened GoStrings
  import opened TenantTable
  import opened DesiredTenants

  datatype Action = Noop | Ensure | Enable | Disable | Delete

  function PlanTenantAction(row: Tenant): Action {
    match row.desired
    case WantEnabled =>
      (match row.runtime
       case Ready => Noop
       case Disabled => Enable
       case Degraded => Ensure
       case Deleting => Noop
       case Provisioning => Ensure)
    case WantDisabled => if row.runtime == Disabled then Noop else Disable
    case WantDeleted => Delete
  }

  // What the environment answers.

  datatype Reply = Done | NotFound | Failed(error: string)

  datatype Creation = Created(uuid: string) | NotCreated(error: string)

  /** The rendered template: the upstream it will serve. */
  datatype Rendering = Rendered(upstream: string) | NotRendered(error: string)

  /** The catalog entry: the port and path that follow the host in the upstream URL. */
  datatype Lookup = Service(portPath: string) | NoService(error: string)

  datatype Probe = Healthy | Unhealthy(detail: string) | ProbeFailed(error: string)

  datatype Replies = Replies(
    service: Lookup,
    rendering: Rendering,
    check: Reply,
    creation: Creation,
    get: Reply,
    metadataDrift: bool,
    composeDrift: bool,
    update: Reply,
    listEnvs: Reply,
    envDrift: bool,
    updateEnvs: Reply,
    restart: Reply,
    start: Reply,
    stop: Reply,
    deletion: Reply,
    probe: Probe,
    now: Time)

  datatype Request = CreateRequest | UpdateRequest | EnvsRequest | RestartRequest | StartRequest | StopRequest
    | DeleteRequest

  datatype Result =
    | Applied(status: string, observed: Option<RuntimeState>, lastError: Option<string>, deleteCompleted: bool,
      skipMark: bool)
    | NotApplied(error: string)

  /** The changing requests sent, the status writes made, and the result. */
  datatype Trace = Trace(requests: seq<Request>, writes: seq<RuntimeUpdate>, result: Result)

  function Then(requests: seq<Request>, writes: seq<RuntimeUpdate>, t: Trace): (r: Trace)
    ensures requests == [] ==> r.requests == t.requests
    ensures writes == [] ==> r.writes == t.writes
  {
    Trace(requests + t.requests, writes + t.writes, t.result)
  }

  function Fail(error: string): Trace {
    Trace([], [], NotApplied(error))
  }

  function ErrorOf(r: Reply): string {
    match r
    case Done => ""
    case NotFound => "404"
    case Failed(e) => e
  }

  function Status(runtime: RuntimeState, lastError: string): RuntimeUpdate {
    RuntimeUpdate(runtime, NO_REFERENCES, None, lastError, false)
  }

  function BuildUpstreamURL(row: Tenant, portPath: string): string {
    "http://" + BuildTenantInstanceName(row.service, row.subjectKey) + ":" + portPath
  }

  // The specification of each action.

  function ObserveSpec(resource: string, upstream: string, env: Replies): Trace {
    var refs := References(resource, "", upstream);
    match env.probe
    case Healthy =>
      Trace([], [RuntimeUpdate(Ready, refs, Some(env.now), "", false)],
        Applied("ready", Some(Ready), Some(""), false, false))
    case Unhealthy(e) =>
      Trace([], [RuntimeUpdate(Degraded, refs, None, e, false)],
        Applied("degraded", Some(Degraded), Some(e), false, false))
    case ProbeFailed(e) =>
      Trace([], [RuntimeUpdate(Degraded, refs, None, e, false)],
        Applied("degraded", Some(Degraded), Some(e), false, false))
  }

  function UpstreamOf(row: Tenant, portPath: string): string {
    if row.refs.upstream == "" then BuildUpstreamURL(row, portPath) else row.refs.upstream
  }

  function ObserveRowSpec(row: Tenant, portPath: string, env: Replies): Trace {
    ObserveSpec(row.refs.resource, UpstreamOf(row, portPath), env)
  }

  // The service with this id exists: correct its drift, restart it if that is needed, record it and observe it.

  function ConvergeSpec(resource: string, created: bool, upstream: string, env: Replies): Trace {
    if env.get != Done then Fail(ErrorOf(env.get))
    else if env.metadataDrift || env.composeDrift then
      After(UpdateRequest, env.update, EnvsSpec(resource, created, upstream, env))
    else EnvsSpec(resource, created, upstream, env)
  }

  function EnvsSpec(resource: string, created: bool, upstream: string, env: Replies): Trace {
    if env.listEnvs != Done then Fail(ErrorOf(env.listEnvs))
    else if env.envDrift then After(EnvsRequest, env.updateEnvs, RestartSpec(resource, created, upstream, env))
    else RestartSpec(resource, created, upstream, env)
  }

  function RestartSpec(resource: string, created: bool, upstream: string, env: Replies): Trace {
    if created || env.envDrift || env.composeDrift then
      After(RestartRequest, env.restart, ProvisionSpec(resource, upstream, env))
    else ProvisionSpec(resource, upstream, env)
  }

  function ProvisionSpec(resource: string, upstream: string, env: Replies): Trace {
    var t := ObserveSpec(resource, upstream, env);
    t.(writes := [RuntimeUpdate(Provisioning, References(resource, "", upstream), None, "", false)] + t.writes)
  }

  /** A request, and what follows if it succeeds. */
  function After(request: Request, reply: Reply, t: Trace): Trace {
    if reply != Done then Trace([request], [], NotApplied(ErrorOf(reply))) else t.(requests := [request] + t.requests)
  }

  function EnsureSpec(row: Tenant, env: Replies): Trace {
    match env.rendering
    case NotRendered(e) => Fail(e)
    case Rendered(upstream) =>
      if row.refs.resource != "" && env.check.Failed? then Fail(env.check.error)
      else if row.refs.resource != "" && env.check == Done then ConvergeSpec(row.refs.resource, false, upstream, env)
      else match env.creation
        case NotCreated(e) =>
          Trace([CreateRequest], [RuntimeUpdate(Degraded, NO_REFERENCES, None, e, true)], NotApplied(e))
        case Created(uuid) => Then([CreateRequest], [], ConvergeSpec(uuid, true, upstream, env))
  }

  function EnableSpec(row: Tenant, portPath: string, env: Replies): Trace {
    if row.refs.resource == "" then EnsureSpec(row, env)
    else match env.start
      case NotFound => Then([StartRequest], [], EnsureSpec(row, env))
      case Failed(e) => Then([StartRequest], [], Fail(e))
      case Done => Then([StartRequest], [Status(Provisioning, "")], ObserveRowSpec(row, portPath, env))
  }

  function DisableSpec(row: Tenant, env: Replies): Trace {
    var requests := if row.refs.resource != "" then [StopRequest] else [];
    if row.refs.resource != "" && env.stop.Failed? then Then(requests, [], Fail(env.stop.error))
    else Trace(requests, [Status(Disabled, "")], Applied("disabled", Some(Disabled), Some(""), false, false))
  }

  const DELETE_REQUEUE_INTERVAL := 120_000_000_000

  predicate ShouldRequeueDelete(lastReconciled: Option<Time>, now: Time) {
    lastReconciled.None? || now - lastReconciled.value >= DELETE_REQUEUE_INTERVAL
  }

  predicate QueuesDelete(row: Tenant, now: Time) {
    row.runtime != Deleting || ShouldRequeueDelete(row.lastReconciled, now)
  }

  const DELETED := Applied("deleted", Some(Deleting), Some(""), true, false)

  function DeleteSpec(row: Tenant, env: Replies): Trace {
    if row.refs.resource == "" || env.check == NotFound then Trace([], [], DELETED)
    else if env.check.Failed? then Fail(env.check.error)
    else
      var queue := QueuesDelete(row, env.now);
      var requests := if queue then [DeleteRequest] else [];
      if queue && env.deletion == NotFound then Trace(requests, [], DELETED)
      else if queue && env.deletion.Failed? then Then(requests, [], Fail(env.deletion.error))
      else Trace(requests, [Status(Deleting, "")], Applied("deleting", Some(Deleting), Some(""), false, !queue))
  }

  function StaticSpec(row: Tenant, action: Action, env: Replies): Trace {
    match action
    case Delete => Trace([], [], DELETED)
    case Disable => Trace([], [Status(Disabled, "")], Applied("disabled", Some(Disabled), Some(""), false, false))
    case Noop => StaticObserveSpec(row, env)
    case Ensure => StaticObserveSpec(row, env)
    case Enable => StaticObserveSpec(row, env)
  }

  const NO_UPSTREAM := "static upstream url is not configured"

  function StaticObserveSpec(row: Tenant, env: Replies): Trace {
    if TrimSpace(row.refs.upstream) == "" then Fail(NO_UPSTREAM) else ObserveSpec("", row.refs.upstream, env)
  }

  function ApplySpec(row: Tenant, action: Action, env: Replies): Trace {
    if row.isStatic && action == Delete then StaticSpec(row, action, env)
    else match env.service
      case NoService(e) => Fail(e)
      case Service(portPath) =>
        if row.isStatic then StaticSpec(row, action, env)
        else match action
          case Noop =>
            if row.runtime == Ready || row.runtime == Provisioning || row.runtime == Degraded
            then ObserveRowSpec(row, portPath, env)
            else Trace([], [], Applied("noop", None, None, false, false))
          case Ensure => EnsureSpec(row, env)
          case Enable => EnableSpec(row, portPath, env)
          case Disable => DisableSpec(row, env)
          case Delete => DeleteSpec(row, env)
  }

  // What holds of every action, whatever the environment answers.

  /** A service is created only for a row that has none, or whose service the provider no longer knows. */
  predicate CreatesOnlyMissing(row: Tenant, env: Replies, t: Trace) {
    CreateRequest in t.requests ==> row.refs.resource == "" || env.check == NotFound
  }

  /** `ready` is written last, and only after a healthy probe, with its time. */
  predicate ReadyMeansHealthy(env: Replies, t: Trace) {
    forall k :: 0 <= k < |t.writes| && t.writes[k].runtime == Ready ==>
      k == |t.writes| - 1 && env.probe.Healthy? && t.writes[k].lastHealthy == Some(env.now) && t.result.Applied?
  }

  /** The stored references are dropped only when a creation was asked for and refused. */
  predicate ClearsOnlyRefused(env: Replies, t: Trace) {
    forall k :: 0 <= k < |t.writes| && t.writes[k].clear ==>
      CreateRequest in t.requests && env.creation.NotCreated? && t.result == NotApplied(env.creation.error)
  }

  predicate Sound(row: Tenant, env: Replies, t: Trace) {
    CreatesOnlyMissing(row, env, t) && ReadyMeansHealthy(env, t) && ClearsOnlyRefused(env, t)
  }

  predicate ConvergesSoundly(env: Replies, t: Trace) {
    CreateRequest !in t.requests && ReadyMeansHealthy(env, t) && forall k :: 0 <= k < |t.writes| ==> !t.writes[k].clear
  }

  lemma AfterIsSound(env: Replies, request: Request, reply: Reply, t: Trace)
    requires request != CreateRequest && ConvergesSoundly(env, t)
    ensures ConvergesSoundly(env, After(request, reply, t))
  {
  }

  lemma ProvisionIsSound(resource: string, upstream: string, env: Replies)
    ensures ConvergesSoundly(env, ProvisionSpec(resource, upstream, env))
  {
  }

  lemma ConvergeIsSound(resource: string, created: bool, upstream: string, env: Replies)
    ensures ConvergesSoundly(env, ConvergeSpec(resource, created, upstream, env))
  {
    ProvisionIsSound(resource, upstream, env);
    AfterIsSound(env, RestartRequest, env.restart, ProvisionSpec(resource, upstream, env));
    AfterIsSound(env, EnvsRequest, env.updateEnvs, RestartSpec(resource, created, upstream, env));
    if env.listEnvs == Done {
      AfterIsSound(env, UpdateRequest, env.update, EnvsSpec(resource, created, upstream, env));
    }
  }

  lemma EnsureIsSound(row: Tenant, env: Replies)
    ensures Sound(row, env, EnsureSpec(row, env))
  {
    var upstream := if env.rendering.Rendered? then env.rendering.upstream else "";
    ConvergeIsSound(row.refs.resource, false, upstream, env);
    if env.creation.Created? { ConvergeIsSound(env.creation.uuid, true, upstream, env); }
  }

  lemma EnableIsSound(row: Tenant, portPath: string, env: Replies)
    ensures Sound(row, env, EnableSpec(row, portPath, env))
  {
    EnsureIsSound(row, env);
  }

  /** All of this for whatever action is applied. */
  lemma ActionsAreSound(row: Tenant, action: Action, env: Replies)
    ensures Sound(row, env, ApplySpec(row, action, env))
  {
    EnsureIsSound(row, env);
    EnableIsSound(row, if env.service.Service? then env.service.portPath else "", env);
  }

  // Which requests a turn sends.

  /** The environment's answers let an ensure reach the service and correct it. */
  predicate Reachable(row: Tenant, env: Replies) {
    env.rendering.Rendered? && (row.refs.resource != "" ==> !env.check.Failed?)
  }

  predicate Missing(row: Tenant, env: Replies) {
    row.refs.resource == "" || env.check == NotFound
  }

  predicate Converged(created: bool, env: Replies) {
    && env.get == Done && (env.metadataDrift || env.composeDrift ==> env.update == Done)
    && env.listEnvs == Done && (env.envDrift ==> env.updateEnvs == Done)
    && (created || env.envDrift || env.composeDrift ==> env.restart == Done)
  }

  lemma ConvergeCorrectsDrift(resource: string, created: bool, upstream: string, env: Replies)
    ensures var t := ConvergeSpec(resource, created, upstream, env);
            && (t.result.Applied? <==> Converged(created, env))
            && (t.result.Applied? ==>
                  && t.requests == (if env.metadataDrift || env.composeDrift then [UpdateRequest] else [])
                                   + (if env.envDrift then [EnvsRequest] else [])
                                   + (if created || env.envDrift || env.composeDrift then [RestartRequest] else [])
                  && |t.writes| == 2 && forall k :: 0 <= k < 2 ==>
                    t.writes[k].refs == References(resource, "", upstream))
            && (t.result.NotApplied? ==> t.writes == [])
  {
    assert ProvisionSpec(resource, upstream, env).requests == [];
  }

  /** An ensure that is applied has corrected every drift it found, nothing else, and restarted what needs it; the row
      then names the service and the upstream it serves. */
  lemma EnsureCorrectsDrift(row: Tenant, env: Replies)
    requires EnsureSpec(row, env).result.Applied?
    ensures var t, created := EnsureSpec(row, env), Missing(row, env);
            && t.requests == (if created then [CreateRequest] else [])
                             + ((if env.metadataDrift || env.composeDrift then [UpdateRequest] else [])
                                + (if env.envDrift then [EnvsRequest] else [])
                                + (if created || env.envDrift || env.composeDrift then [RestartRequest] else []))
            && |t.writes| == 2 && t.writes[1].refs ==
               References(if created then env.creation.uuid else row.refs.resource, "", env.rendering.upstream)
  {
    ConvergeCorrectsDrift(row.refs.resource, false, env.rendering.upstream, env);
    if env.creation.Created? { ConvergeCorrectsDrift(env.creation.uuid, true, env.rendering.upstream, env); }
  }

  predicate Stores(t: Trace, resource: string) {
    exists k :: 0 <= k < |t.writes| && t.writes[k].refs.resource == resource
  }

  /** A service that was created is lost to the row if and only if a later step of the same turn fails. */
  lemma CreatedIsLostIff(row: Tenant, env: Replies)
    requires Reachable(row, env) && Missing(row, env) && env.creation.Created? && env.creation.uuid != ""
    ensures var t := EnsureSpec(row, env);
            && CreateRequest in t.requests
            && (Stores(t, env.creation.uuid) <==> Converged(true, env))
            && (!Stores(t, env.creation.uuid) ==> t.writes == [])
  {
    ConvergeCorrectsDrift(env.creation.uuid, true, env.rendering.upstream, env);
    var t := EnsureSpec(row, env);
    assert t.requests[0] == CreateRequest;
    if Converged(true, env) { assert t.writes[0].refs.resource == env.creation.uuid; }
  }

  predicate Unready(row: Tenant) {
    row.desired == WantEnabled && !row.isStatic && row.runtime != Ready && row.runtime != Deleting
  }

  /** A service is created exactly for an enabled row that has none, or whose service the provider no longer knows. */
  lemma CreatesIff(row: Tenant, env: Replies)
    ensures CreateRequest in ApplySpec(row, PlanTenantAction(row), env).requests <==>
            && Unready(row) && env.service.Service? && Reachable(row, env) && Missing(row, env)
            && (row.runtime == Disabled && row.refs.resource != "" ==> env.start == NotFound)
  {
    var upstream := if env.rendering.Rendered? then env.rendering.upstream else "";
    ConvergeIsSound(row.refs.resource, false, upstream, env);
    if env.creation.Created? { ConvergeIsSound(env.creation.uuid, true, upstream, env); }
  }

  predicate OnlyBringsUp(requests: seq<Request>) {
    StartRequest !in requests && StopRequest !in requests && DeleteRequest !in requests
  }

  lemma ConvergeOnlyBringsUp(resource: string, created: bool, upstream: string, env: Replies)
    ensures OnlyBringsUp(ConvergeSpec(resource, created, upstream, env).requests)
  {
    assert OnlyBringsUp(RestartSpec(resource, created, upstream, env).requests);
    assert OnlyBringsUp(EnvsSpec(resource, created, upstream, env).requests);
  }

  lemma EnsureOnlyBringsUp(row: Tenant, env: Replies)
    ensures OnlyBringsUp(EnsureSpec(row, env).requests)
  {
    if env.rendering.Rendered? {
      ConvergeOnlyBringsUp(row.refs.resource, false, env.rendering.upstream, env);
      if env.creation.Created? { ConvergeOnlyBringsUp(env.creation.uuid, true, env.rendering.upstream, env); }
    }
  }

  /** What is wanted of a row decides what may be asked of its service: an enabled row never has it stopped or deleted,
      and has it started when it was disabled; a suspended one has it stopped, once, and nothing else; a deleted one has
      it deleted and nothing else; and a static row asks for nothing. */
  lemma RequestsFollowDesired(row: Tenant, env: Replies)
    ensures var requests := ApplySpec(row, PlanTenantAction(row), env).requests;
            var served := !row.isStatic && env.service.Service? && row.refs.resource != "";
            match row.desired
            case WantEnabled =>
              && StopRequest !in requests && DeleteRequest !in requests && (row.isStatic ==> requests == [])
              && (StartRequest in requests <==> served && row.runtime == Disabled)
            case WantDisabled => requests == if served && row.runtime != Disabled then [StopRequest] else []
            case WantDeleted =>
              requests == if served && env.check == Done && QueuesDelete(row, env.now) then [DeleteRequest] else []
  {
    EnsureOnlyBringsUp(row, env);
  }

  function Written(row: Tenant, writes: seq<RuntimeUpdate>): Tenant
    decreases |writes|
  {
    if writes == [] then row else Written(Updated(row, writes[0]), writes[1..])
  }

  function WrittenTo(t: Table, id: TenantId, writes: seq<RuntimeUpdate>): Table {
    if id in t then t[id := Written(t[id], writes)] else t
  }

  lemma {:induction false} WrittenConcat(row: Tenant, a: seq<RuntimeUpdate>, b: seq<RuntimeUpdate>)
    ensures Written(row, a + b) == Written(Written(row, a), b)
    decreases |a|
  {
    if a == [] {
      assert a + b == b;
    } else {
      WrittenConcat(Updated(row, a[0]), a[1..], b);
      assert (a + b)[1..] == a[1..] + b;
    }
  }

  lemma WrittenOnce(row: Tenant, u: RuntimeUpdate)
    ensures Written(row, [u]) == Updated(row, u)
  {
    assert [u][1..] == [];
  }

  lemma WrittenToConcat(t: Table, id: TenantId, a: seq<RuntimeUpdate>, b: seq<RuntimeUpdate>)
    ensures WrittenTo(t, id, a + b) == WrittenTo(WrittenTo(t, id, a), id, b)
  {
    if id in t { WrittenConcat(t[id], a, b); }
  }

  lemma SentFirst(sent: seq<Request>, request: Request, t: Trace)
    ensures sent + Then([request], [], t).requests == sent + [request] + t.requests
  {
  }

  /** The runtime works on a snapshot of the row; what it writes goes to the row now stored under that id. */
  class CoolifyTenantRuntime {
    const store: Store
    var requests: seq<Request>

    constructor (store: Store)
      ensures this.store == store && requests == []
    {
      this.store, requests := store, [];
    }

    twostate predicate Did(id: TenantId, t: Trace, result: Result)
      reads this, store
    {
      && store.tenants == WrittenTo(old(store.tenants), id, t.writes)
      && requests == old(requests) + t.requests
      && result == t.result
    }

    method Send(request: Request)
      modifies this`requests
      ensures requests == old(requests) + [request]
    {
      requests := requests + [request];
    }

    method Write(id: TenantId, u: RuntimeUpdate)
      requires store.Valid()
      modifies store
      ensures store.Valid() && store.tenants == WrittenTo(old(store.tenants), id, [u])
    {
      if id in store.tenants { WrittenOnce(store.tenants[id], u); }
      store.UpdateTenantRuntimeStatus(id, u);
    }

    method ObserveWithURL(id: TenantId, resource: string, upstream: string, env: Replies) returns (r: Result)
      requires store.Valid()
      modifies store
      ensures store.Valid() && Did(id, ObserveSpec(resource, upstream, env), r)
    {
      var refs := References(resource, "", upstream);
      if env.probe.ProbeFailed? {
        Write(id, RuntimeUpdate(Degraded, refs, None, env.probe.error, false));
        return Applied("degraded", Some(Degraded), Some(env.probe.error), false, false);
      }
      if env.probe.Healthy? {
        Write(id, RuntimeUpdate(Ready, refs, Some(env.now), "", false));
        return Applied("ready", Some(Ready), Some(""), false, false);
      }
      Write(id, RuntimeUpdate(Degraded, refs, None, env.probe.detail, false));
      return Applied("degraded", Some(Degraded), Some(env.probe.detail), false, false);
    }

    // The part of `ensure` that follows once the service is known to exist, in three steps.
    method Converge(id: TenantId, resource: string, created: bool, upstream: string, env: Replies) returns (r: Result)
      requires store.Valid()
      modifies this`requests, store
      ensures store.Valid() && Did(id, ConvergeSpec(resource, created, upstream, env), r)
    {
      if env.get != Done { return NotApplied(ErrorOf(env.get)); }
      if env.metadataDrift || env.composeDrift {
        Send(UpdateRequest);
        if env.update != Done { return NotApplied(ErrorOf(env.update)); }
      }
      ghost var sent := requests;
      r := ConvergeEnvs(id, resource, created, upstream, env);
      Associates(old(requests), sent[|old(requests)|..], EnvsSpec(resource, created, upstream, env).requests);
    }

    method ConvergeEnvs(id: TenantId, resource: string, created: bool, upstream: string, env: Replies)
      returns (r: Result)
      requires store.Valid()
      modifies this`requests, store
      ensures store.Valid() && Did(id, EnvsSpec(resource, created, upstream, env), r)
    {
      if env.listEnvs != Done { return NotApplied(ErrorOf(env.listEnvs)); }
      if env.envDrift {
        Send(EnvsRequest);
        if env.updateEnvs != Done { return NotApplied(ErrorOf(env.updateEnvs)); }
      }
      ghost var sent := requests;
      r := Restart(id, resource, created, upstream, env);
      Associates(old(requests), sent[|old(requests)|..], RestartSpec(resource, created, upstream, env).requests);
    }

    method Restart(id: TenantId, resource: string, created: bool, upstream: string, env: Replies) returns (r: Result)
      requires store.Valid()
      modifies this`requests, store
      ensures store.Valid() && Did(id, RestartSpec(resource, created, upstream, env), r)
    {
      if created || env.envDrift || env.composeDrift {
        Send(RestartRequest);
        if env.restart != Done { return NotApplied(ErrorOf(env.restart)); }
      }
      ghost var sent := requests;
      var u := RuntimeUpdate(Provisioning, References(resource, "", upstream), None, "", false);
      WrittenToConcat(store.tenants, id, [u], ObserveSpec(resource, upstream, env).writes);
      Write(id, u);
      r := ObserveWithURL(id, resource, upstream, env);
      Associates(old(requests), sent[|old(requests)|..], ProvisionSpec(resource, upstream, env).requests);
    }

    method Ensure(id: TenantId, row: Tenant, env: Replies) returns (r: Result)
      requires store.Valid()
      modifies this`requests, store
      ensures store.Valid() && Did(id, EnsureSpec(row, env), r)
    {
      if env.rendering.NotRendered? { return NotApplied(env.rendering.error); }
      var resource, created := row.refs.resource, false;
      if resource != "" {
        if env.check == NotFound {
          resource := "";
        } else if env.check.Failed? {
          return NotApplied(env.check.error);
        }
      }
      if resource == "" {
        Send(CreateRequest);
        if env.creation.NotCreated? {
          Write(id, RuntimeUpdate(Degraded, NO_REFERENCES, None, env.creation.error, true));
          return NotApplied(env.creation.error);
        }
        resource, created := env.creation.uuid, true;
      }
      ghost var t := ConvergeSpec(resource, created, env.rendering.upstream, env);
      assert EnsureSpec(row, env) == if created then Then([CreateRequest], [], t) else t;
      SentFirst(old(requests), CreateRequest, t);
      r := Converge(id, resource, created, env.rendering.upstream, env);
    }

    method Enable(id: TenantId, row: Tenant, portPath: string, env: Replies) returns (r: Result)
      requires store.Valid()
      modifies this`requests, store
      ensures store.Valid() && Did(id, EnableSpec(row, portPath, env), r)
    {
      if row.refs.resource == "" {
        r := Ensure(id, row, env);
        return;
      }
      Send(StartRequest);
      if env.start == NotFound {
        SentFirst(old(requests), StartRequest, EnsureSpec(row, env));
        r := Ensure(id, row, env);
        return;
      }
      if env.start.Failed? { return NotApplied(env.start.error); }
      var u := Status(Provisioning, "");
      assert EnableSpec(row, portPath, env).requests == [StartRequest];
      WrittenToConcat(store.tenants, id, [u], ObserveRowSpec(row, portPath, env).writes);
      Write(id, u);
      r := ObserveWithURL(id, row.refs.resource, UpstreamOf(row, portPath), env);
    }

    method Disable(id: TenantId, row: Tenant, env: Replies) returns (r: Result)
      requires store.Valid()
      modifies this`requests, store
      ensures store.Valid() && Did(id, DisableSpec(row, env), r)
    {
      if row.refs.resource != "" {
        Send(StopRequest);
        if env.stop.Failed? { return NotApplied(env.stop.error); }
      }
      Write(id, Status(RuntimeState.Disabled, ""));
      return Applied("disabled", Some(RuntimeState.Disabled), Some(""), false, false);
    }

    method Delete(id: TenantId, row: Tenant, env: Replies) returns (r: Result)
      requires store.Valid()
      modifies this`requests, store
      ensures store.Valid() && Did(id, DeleteSpec(row, env), r)
    {
      if row.refs.resource == "" || env.check == NotFound { return DELETED; }
      if env.check.Failed? { return NotApplied(env.check.error); }
      var queued, shouldQueue := false, row.runtime != Deleting;
      if !shouldQueue && ShouldRequeueDelete(row.lastReconciled, env.now) { shouldQueue := true; }
      if shouldQueue {
        Send(DeleteRequest);
        if env.deletion == NotFound { return DELETED; }
        if env.deletion.Failed? { return NotApplied(env.deletion.error); }
        queued := true;
      }
      Write(id, Status(Deleting, ""));
      return Applied("deleting", Some(Deleting), Some(""), false, !queued);
    }

    method ApplyStaticUpstream(id: TenantId, row: Tenant, action: Action, env: Replies) returns (r: Result)
      requires store.Valid()
      modifies store
      ensures store.Valid() && Did(id, StaticSpec(row, action, env), r)
    {
      match action {
        case Disable =>
          Write(id, Status(RuntimeState.Disabled, ""));
          return Applied("disabled", Some(RuntimeState.Disabled), Some(""), false, false);
        case Delete =>
          return DELETED;
        case Noop | Ensure | Enable =>
          if TrimSpace(row.refs.upstream) == "" { return NotApplied(NO_UPSTREAM); }
          r := ObserveWithURL(id, "", row.refs.upstream, env);
      }
    }

    method Apply(id: TenantId, row: Tenant, action: Action, env: Replies) returns (r: Result)
      requires store.Valid()
      modifies this`requests, store
      ensures store.Valid() && Did(id, ApplySpec(row, action, env), r)
    {
      if row.isStatic && action == Action.Delete {
        r := ApplyStaticUpstream(id, row, action, env);
        return;
      }
      if env.service.NoService? { return NotApplied(env.service.error); }
      var portPath := env.service.portPath;
      if row.isStatic {
        r := ApplyStaticUpstream(id, row, action, env);
        return;
      }
      match action {
        case Noop =>
          if row.runtime == Ready || row.runtime == Provisioning || row.runtime == Degraded {
            r := ObserveWithURL(id, row.refs.resource, UpstreamOf(row, portPath), env);
          } else {
            r := Applied("noop", None, None, false, false);
          }
        case Ensure => r := Ensure(id, row, env);
        case Enable => r := Enable(id, row, portPath, env);
        case Disable => r := Disable(id, row, env);
        case Delete => r := Delete(id, row, env);
      }
    }
  }
}
