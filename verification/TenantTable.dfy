/** The table of tenant instances and the statements that change it
    (internal/platform/sqlite/platformdb/controlplane.sql.go, without `created_at` and `updated_at`). */
module TenantTable {
  import opened Wrappers

  type Time = int
  type TenantId = nat

  datatype DesiredState = WantEnabled | WantDisabled | WantDeleted

  datatype RuntimeState = Provisioning | Ready | Degraded | Disabled | Deleting

  /** What the row remembers of the provider; the empty string stands for NULL. */
  datatype References = References(resource: string, application: string, upstream: string)

  const NO_REFERENCES := References("", "", "")

  datatype Tenant = Tenant(
    subject: string,
    service: string,
    subjectKey: string,
    name: string,
    dnsName: string,
    desired: DesiredState,
    runtime: RuntimeState,
    refs: References,
    lastHealthy: Option<Time>,
    lastReconciled: Option<Time>,
    lastError: string,
    isStatic: bool)

  type Table = map<TenantId, Tenant>

  function BuildTenantInstanceName(service: string, subjectKey: string): string {
    "mcp-" + service + "-" + subjectKey
  }

  /** One row of the desired-specs query: a grant for an enabled built-in service, with its subject. */
  datatype Spec = Spec(subject: string, subjectKey: string, service: string)

  function SpecName(spec: Spec): string {
    BuildTenantInstanceName(spec.service, spec.subjectKey)
  }

  // UNIQUE (subject_sub, service_id) and UNIQUE (tenant_instance_name).

  ghost predicate UniquePairs(t: Table) {
    forall i, j :: i in t && j in t && t[i].subject == t[j].subject && t[i].service == t[j].service ==> i == j
  }

  predicate NameFree(t: Table, id: TenantId, name: string) {
    forall j :: j in t && j != id ==> t[j].name != name
  }

  ghost predicate UniqueNames(t: Table) {
    forall i :: i in t ==> NameFree(t, i, t[i].name)
  }

  function Inserted(spec: Spec): Tenant {
    Tenant(spec.subject, spec.service, spec.subjectKey, SpecName(spec), SpecName(spec), WantEnabled, Provisioning,
           NO_REFERENCES, None, None, "", false)
  }

  const DRIFT := "tenant identity drift detected; reprovision required"

  predicate Drifted(row: Tenant, spec: Spec) {
    row.subjectKey != spec.subjectKey || row.name != SpecName(spec) || row.dnsName != SpecName(spec)
  }

  /** `enableTenantInstance`: adopts the spec's identity, and asks for a repair if that was not the row's own. */
  function Enabled(row: Tenant, spec: Spec): Tenant {
    row.(subjectKey := spec.subjectKey, name := SpecName(spec), dnsName := SpecName(spec), desired := WantEnabled,
         runtime := if Drifted(row, spec) then Degraded else row.runtime,
         lastError := if Drifted(row, spec) then DRIFT else row.lastError)
  }

  predicate Suspendable(row: Tenant, subject: string, service: string) {
    row.subject == subject && row.service == service && row.desired != WantDeleted
  }

  function Suspend(t: Table, subject: string, service: string): Table {
    map id | id in t :: if Suspendable(t[id], subject, service) then t[id].(desired := WantDisabled) else t[id]
  }

  /** `granted`: the subject has the grant and the service is enabled. */
  function Resume(t: Table, subject: string, service: string, granted: bool): Table {
    map id | id in t :: if granted && Suspendable(t[id], subject, service) then t[id].(desired := WantEnabled)
      else t[id]
  }

  function MadeStatic(row: Tenant, spec: Spec, upstream: string, now: Time): Tenant {
    row.(subjectKey := spec.subjectKey, name := SpecName(spec), dnsName := SpecName(spec), desired := WantEnabled,
         runtime := Ready, refs := References("", "", upstream), lastHealthy := Some(now), lastError := "",
         isStatic := true)
  }

  /** The parameters of `UpdateTenantRuntimeStatus`. */
  datatype RuntimeUpdate = RuntimeUpdate(
    runtime: RuntimeState,
    refs: References,
    lastHealthy: Option<Time>,
    lastError: string,
    clear: bool)

  function Keep(given: string, stored: string): string {
    if given == "" then stored else given
  }

  /** An empty reference keeps the stored one; `clear` drops them all. */
  function Updated(row: Tenant, u: RuntimeUpdate): Tenant {
    row.(runtime := u.runtime,
         refs := if u.clear then NO_REFERENCES
                 else References(Keep(u.refs.resource, row.refs.resource),
                                 Keep(u.refs.application, row.refs.application),
                                 Keep(u.refs.upstream, row.refs.upstream)),
         lastHealthy := if u.clear then None else if u.lastHealthy.Some? then u.lastHealthy else row.lastHealthy,
         lastError := u.lastError)
  }

  function MarkReconciled(row: Tenant, now: Time, lastError: string): Tenant {
    row.(lastReconciled := Some(now), lastError := lastError)
  }
}
