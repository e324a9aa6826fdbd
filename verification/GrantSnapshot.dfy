/** From the identity provider's users and groups to grants (internal/controlplane/authentik_client.go). */
module GrantSnapshot {
  import opened Wrappers
  import opened GoStrings
  import opened Collections
  import opened Grants

  const ADMIN := "mcp-admin"
  const PREFIX := "mcp-service-"

  datatype User = User(pk: string, uid: string, subAttribute: Option<string>, isActive: bool)

  datatype Group = Group(name: string, userIds: seq<string>)

  function SubjectSubFromAuthentikUser(u: User): string {
    if u.subAttribute.Some? && TrimSpace(u.subAttribute.value) != "" then TrimSpace(u.subAttribute.value)
    else if TrimSpace(u.uid) != "" then TrimSpace(u.uid)
    else if TrimSpace(u.pk) != "" then "authentik|" + TrimSpace(u.pk)
    else ""
  }

  lemma PrefixedKey(pk: string)
    ensures var key := "authentik|" + TrimSpace(pk);
            TrimSpace(key) == key && key[10..] == TrimSpace(pk)
  {
    var k, key := TrimSpace(pk), "authentik|" + TrimSpace(pk);
    assert key[0] == 'a';
    if k != "" { assert key[|key| - 1] == k[|k| - 1]; } else { assert key == "authentik|"; }
  }

  /** Every subject is trimmed. */
  lemma SubjectIsTrimmed(u: User)
    ensures TrimSpace(SubjectSubFromAuthentikUser(u)) == SubjectSubFromAuthentikUser(u)
  {
    PrefixedKey(u.pk);
  }

  predicate HasAttribute(u: User) {
    u.subAttribute.Some? && !Blank(u.subAttribute.value)
  }

  /** A subject attribute decides alone. */
  lemma AttributeDecides(u: User)
    requires HasAttribute(u)
    ensures SubjectSubFromAuthentikUser(u) == TrimSpace(u.subAttribute.value)
  {
    BlankIsTrimmedAway(u.subAttribute.value);
  }

  /** Without one the unique id decides, and users with neither are told apart by their keys. */
  lemma KeysTellApart(u: User, v: User)
    requires !HasAttribute(u) && !HasAttribute(v)
    ensures !Blank(u.uid) ==> SubjectSubFromAuthentikUser(u) == TrimSpace(u.uid)
    ensures Blank(u.uid) && Blank(v.uid) ==>
              (SubjectSubFromAuthentikUser(u) == SubjectSubFromAuthentikUser(v) <==> TrimSpace(u.pk) == TrimSpace(v.pk))
  {
    if u.subAttribute.Some? { BlankIsTrimmedAway(u.subAttribute.value); }
    if v.subAttribute.Some? { BlankIsTrimmedAway(v.subAttribute.value); }
    BlankIsTrimmedAway(u.uid);
    BlankIsTrimmedAway(v.uid);
    PrefixedKey(u.pk);
    PrefixedKey(v.pk);
  }

  // What a list of group names grants.

  predicate HasGroup(names: seq<string>, name: string) {
    exists i :: 0 <= i < |names| && TrimSpace(names[i]) == name
  }

  /** The group that grants a service: its own group before the administrators'. */
  function GrantedBy(names: seq<string>, supported: seq<string>, service: string): Option<string> {
    if service !in supported then None
    else if service != "" && HasGroup(names, PREFIX + service) then Some(PREFIX + service)
    else if HasGroup(names, ADMIN) then Some(ADMIN)
    else None
  }

  lemma HasGroupStep(names: seq<string>, i: nat, name: string)
    requires i < |names|
    ensures HasGroup(names[..i + 1], name) <==> HasGroup(names[..i], name) || TrimSpace(names[i]) == name
  {
    assert names[..i + 1][i] == names[i];
    assert forall k :: 0 <= k < i ==> names[..i + 1][k] == names[..i][k];
  }

  // One more group name: a service's own group overrides, the administrators' group fills in.
  lemma GrantedByStep(names: seq<string>, i: nat, supported: seq<string>, service: string)
    requires i < |names|
    ensures var name, before := TrimSpace(names[i]), GrantedBy(names[..i], supported, service);
            GrantedBy(names[..i + 1], supported, service) ==
            if service !in supported then None
            else if service != "" && name == PREFIX + service then Some(name)
            else if before.Some? then before
            else if name == ADMIN then Some(ADMIN) else None
  {
    HasGroupStep(names, i, PREFIX + service);
    HasGroupStep(names, i, ADMIN);
  }

  lemma ServiceOfGroup(name: string, service: string)
    requires HasPrefix(name, PREFIX)
    ensures name == PREFIX + service <==> TrimPrefix(name, PREFIX) == service
    ensures name != ADMIN
  {
    assert (PREFIX + service)[|PREFIX|..] == service;
    assert name == PREFIX + name[|PREFIX|..];
    assert name[4] == PREFIX[4];
  }

  /** Only the set of names matters, not their order or number. */
  lemma GrantedByIgnoresOrder(n1: seq<string>, n2: seq<string>, supported: seq<string>, service: string)
    requires forall name :: name in n1 <==> name in n2
    ensures GrantedBy(n1, supported, service) == GrantedBy(n2, supported, service)
  {
    SameGroups(n1, n2, PREFIX + service);
    SameGroups(n1, n2, ADMIN);
  }

  lemma SameGroups(n1: seq<string>, n2: seq<string>, name: string)
    requires forall n :: n in n1 <==> n in n2
    ensures HasGroup(n1, name) <==> HasGroup(n2, name)
  {
    if i :| 0 <= i < |n1| && TrimSpace(n1[i]) == name { assert n1[i] in n2; }
    if i :| 0 <= i < |n2| && TrimSpace(n2[i]) == name { assert n2[i] in n1; }
  }

  /** `grants` holds, for every service, the group that grants it. */
  ghost predicate Derived(grants: map<string, string>, names: seq<string>, supported: seq<string>) {
    forall s :: GrantedBy(names, supported, s) == if s in grants then Some(grants[s]) else None
  }

  method DeriveServiceGrants(names: seq<string>, supported: seq<string>)
    returns (grants: map<string, string>, ignored: seq<string>)
    ensures Derived(grants, names, supported)
    ensures forall g :: g in ignored <==> Ignored(names, supported, g)
  {
    grants, ignored := map[], [];
    for i := 0 to |names|
      invariant Derived(grants, names[..i], supported)
      invariant forall g :: g in ignored <==> Ignored(names[..i], supported, g)
    {
      var name := TrimSpace(names[i]);
      forall service { GrantedByStep(names, i, supported, service); }
      forall g { HasGroupStep(names, i, g); }
      if name == ADMIN {
        grants := GrantAll(grants, supported);
      } else if HasPrefix(name, PREFIX) {
        var service := TrimPrefix(name, PREFIX);
        forall s { ServiceOfGroup(name, s); }
        if service != "" {
          if service !in supported {
            ignored := ignored + [name];
          } else {
            grants := grants[service := name];
          }
        }
      }
    }
    assert names[..|names|] == names;
  }

  predicate Ignored(names: seq<string>, supported: seq<string>, name: string) {
    HasGroup(names, name) && HasPrefix(name, PREFIX) && name != PREFIX && TrimPrefix(name, PREFIX) !in supported
  }

  // Every supported service not yet granted goes to the administrators' group.
  method GrantAll(grants: map<string, string>, supported: seq<string>) returns (r: map<string, string>)
    ensures forall s :: s in r <==> s in grants || s in supported
    ensures forall s :: s in r ==> r[s] == if s in grants then grants[s] else ADMIN
  {
    r := grants;
    for i := 0 to |supported|
      invariant forall s :: s in r <==> s in grants || s in supported[..i]
      invariant forall s :: s in r ==> r[s] == if s in grants then grants[s] else ADMIN
    {
      assert supported[..i + 1] == supported[..i] + [supported[i]];
      if supported[i] !in r { r := r[supported[i] := ADMIN]; }
    }
    assert supported[..|supported|] == supported;
  }

  // Memberships.

  predicate IsMember(groups: seq<Group>, pk: string, name: string) {
    exists i :: 0 <= i < |groups| && groups[i].name == name && pk in groups[i].userIds
  }

  function NamesOf(memberships: map<string, seq<string>>, pk: string): seq<string> {
    if pk in memberships then memberships[pk] else []
  }

  ghost predicate Memberships(m: map<string, seq<string>>, groups: seq<Group>) {
    forall pk, name :: name in NamesOf(m, pk) <==> IsMember(groups, pk, name)
  }

  method GroupMemberships(groups: seq<Group>) returns (m: map<string, seq<string>>)
    ensures Memberships(m, groups)
  {
    m := map[];
    for i := 0 to |groups|
      invariant Memberships(m, groups[..i])
    {
      var name, ids := groups[i].name, groups[i].userIds;
      ghost var before := m;
      for k := 0 to |ids|
        invariant forall pk, n :: n in NamesOf(m, pk) <==> n in NamesOf(before, pk) || (n == name && pk in ids[..k])
      {
        assert ids[..k + 1] == ids[..k] + [ids[k]];
        m := m[ids[k] := NamesOf(m, ids[k]) + [name]];
      }
      assert ids[..|ids|] == ids;
      MemberStep(groups, i);
    }
    assert groups[..|groups|] == groups;
  }

  lemma MemberStep(groups: seq<Group>, i: nat)
    requires i < |groups|
    ensures forall pk, name :: IsMember(groups[..i + 1], pk, name) <==>
              IsMember(groups[..i], pk, name) || (groups[i].name == name && pk in groups[i].userIds)
  {
    var before, after := groups[..i], groups[..i + 1];
    assert after[i] == groups[i] && forall k :: 0 <= k < i ==> after[k] == before[k];
    forall pk, name
      ensures IsMember(after, pk, name) <==>
              IsMember(before, pk, name) ||
              (groups[i].name == name && pk in groups[i].userIds)
    {
      if k :| 0 <= k < |before| && before[k].name == name && pk in before[k].userIds {
        assert after[k].name == name;
      }
      if k :| 0 <= k < |after| && after[k].name == name && pk in after[k].userIds {
        assert k < i ==> before[k].name == name;
      }
    }
  }

  /** Membership in a group, as `deriveServiceGrants` compares names. */
  predicate InGroup(groups: seq<Group>, pk: string, name: string) {
    exists i :: 0 <= i < |groups| && TrimSpace(groups[i].name) == name && pk in groups[i].userIds
  }

  /** The reference: the group that grants a service to a user. */
  function GrantedTo(groups: seq<Group>, pk: string, supported: seq<string>, service: string): Option<string> {
    if service !in supported then None
    else if service != "" && InGroup(groups, pk, PREFIX + service) then Some(PREFIX + service)
    else if InGroup(groups, pk, ADMIN) then Some(ADMIN)
    else None
  }

  lemma MembershipGrants(m: map<string, seq<string>>, groups: seq<Group>, pk: string, supported: seq<string>,
                         service: string)
    requires Memberships(m, groups)
    ensures GrantedBy(NamesOf(m, pk), supported, service) == GrantedTo(groups, pk, supported, service)
  {
    forall name ensures HasGroup(NamesOf(m, pk), name) <==> InGroup(groups, pk, name) {
      var names := NamesOf(m, pk);
      if i :| 0 <= i < |names| && TrimSpace(names[i]) == name {
        assert names[i] in names;
        assert IsMember(groups, pk, names[i]);
      }
      if i :| 0 <= i < |groups| && TrimSpace(groups[i].name) == name && pk in groups[i].userIds {
        assert IsMember(groups, pk, groups[i].name);
        assert groups[i].name in names;
      }
    }
  }

  // The snapshot.

  /** The first user with a subject speaks for it. */
  predicate SpeaksFor(users: seq<User>, i: nat, subject: string)
    requires i < |users|
  {
    && subject != "" && SubjectSubFromAuthentikUser(users[i]) == subject
    && forall j :: 0 <= j < i ==> SubjectSubFromAuthentikUser(users[j]) != subject
  }

  predicate IsGranted(users: seq<User>, groups: seq<Group>, supported: seq<string>, g: Grant) {
    exists i :: 0 <= i < |users| && SpeaksFor(users, i, g.subject) && users[i].isActive
                && GrantedTo(groups, users[i].pk, supported, g.service) == Some(g.group)
  }

  predicate IsSubject(users: seq<User>, subject: string) {
    subject != "" && exists i :: 0 <= i < |users| && SubjectSubFromAuthentikUser(users[i]) == subject
  }

  method BuildGrantSnapshot(users: seq<User>, groups: seq<Group>, supported: seq<string>)
    returns (subjects: seq<string>, grants: seq<Grant>)
    ensures forall s :: s in subjects <==> IsSubject(users, s)
    ensures Distinct(subjects)
    ensures forall g :: g in grants <==> IsGranted(users, groups, supported, g)
  {
    var memberships := GroupMemberships(groups);
    subjects, grants := [], [];
    for i := 0 to |users|
      invariant forall s :: s in subjects <==> IsSubject(users[..i], s)
      invariant Distinct(subjects)
      invariant forall g :: g in grants <==> IsGranted(users[..i], groups, supported, g)
    {
      var user := users[i];
      var subject := SubjectSubFromAuthentikUser(user);
      forall s { SubjectStep(users, i, s); }
      forall g { GrantStep(users, groups, supported, i, g); }
      if subject == "" || subject in subjects { continue; }
      subjects := subjects + [subject];
      if !user.isActive { continue; }
      var derived, ignored := DeriveServiceGrants(NamesOf(memberships, user.pk), supported);
      forall s ensures GrantedTo(groups, user.pk, supported, s) == if s in derived then Some(derived[s]) else None {
        MembershipGrants(memberships, groups, user.pk, supported, s);
      }
      var own := GrantsOf(subject, derived);
      grants := grants + own;
    }
    assert users[..|users|] == users;
  }

  // The order in which Go visits the map is not specified; neither is this one.
  method GrantsOf(subject: string, derived: map<string, string>) returns (grants: seq<Grant>)
    ensures forall g :: g in grants <==> g.subject == subject && g.service in derived && derived[g.service] == g.group
  {
    grants := [];
    var todo := derived.Keys;
    while todo != {}
      invariant todo <= derived.Keys
      invariant forall g :: g in grants <==>
                  g.subject == subject && g.service in derived && g.service !in todo && derived[g.service] == g.group
      decreases |todo|
    {
      var service :| service in todo;
      grants := grants + [Grant(subject, service, derived[service])];
      todo := todo - {service};
    }
  }

  lemma SubjectStep(users: seq<User>, i: nat, subject: string)
    requires i < |users|
    ensures IsSubject(users[..i + 1], subject) <==>
            IsSubject(users[..i], subject) || (subject != "" && SubjectSubFromAuthentikUser(users[i]) == subject)
  {
    var before, after := users[..i], users[..i + 1];
    assert after[i] == users[i] && forall k :: 0 <= k < i ==> after[k] == before[k];
    if k :| 0 <= k < |before| && SubjectSubFromAuthentikUser(before[k]) == subject {
      assert SubjectSubFromAuthentikUser(after[k]) == subject;
    }
  }

  lemma SpeaksStep(users: seq<User>, i: nat, k: nat, subject: string)
    requires k <= i < |users|
    ensures k < i ==> (SpeaksFor(users[..i + 1], k, subject) <==> SpeaksFor(users[..i], k, subject))
    ensures k == i ==> (SpeaksFor(users[..i + 1], k, subject) <==>
              subject != "" && SubjectSubFromAuthentikUser(users[i]) == subject && !IsSubject(users[..i], subject))
  {
    var before, after := users[..i], users[..i + 1];
    assert after[i] == users[i] && forall k :: 0 <= k < i ==> after[k] == before[k];
  }

  lemma GrantStep(users: seq<User>, groups: seq<Group>, supported: seq<string>, i: nat, g: Grant)
    requires i < |users|
    ensures IsGranted(users[..i + 1], groups, supported, g) <==>
              || IsGranted(users[..i], groups, supported, g)
              || (&& g.subject == SubjectSubFromAuthentikUser(users[i]) && g.subject != ""
                  && !IsSubject(users[..i], g.subject) && users[i].isActive
                  && GrantedTo(groups, users[i].pk, supported, g.service) == Some(g.group))
  {
    var before, after := users[..i], users[..i + 1];
    SpeaksStep(users, i, i, g.subject);
    assert after[i] == users[i];
    if k :| 0 <= k < |before| && SpeaksFor(before, k, g.subject) && before[k].isActive
            && GrantedTo(groups, before[k].pk, supported, g.service) == Some(g.group) {
      SpeaksStep(users, i, k, g.subject);
      assert after[k] == before[k];
    }
    if k :| 0 <= k < |after| && SpeaksFor(after, k, g.subject) && after[k].isActive
            && GrantedTo(groups, after[k].pk, supported, g.service) == Some(g.group) {
      SpeaksStep(users, i, k, g.subject);
      assert k < i ==> after[k] == before[k];
    }
  }

  // The whole pipeline.

  ghost predicate Enables(services: map<string, bool>, supported: seq<string>) {
    forall s :: s in supported <==> s in services && services[s]
  }

  /** After a sync the effective grants are the manual ones and those of the users' groups; a pair with both is manual.
      `supported` lists the enabled services. */
  method SyncStore(store: Store, users: seq<User>, groups: seq<Group>, supported: seq<string>) returns (ok: bool)
    requires store.Valid() && Enables(store.services, supported)
    modifies store
    ensures store.Valid() && ok
    ensures Manuals(store.sources) == Manuals(old(store.sources))
    ensures forall p :: p in store.effective <==>
              HasManual(old(store.sources), p) ||
              exists g :: IsGranted(users, groups, supported, Grant(p.subject, p.service, g))
    ensures forall p :: p in store.effective ==>
              if HasManual(old(store.sources), p) then store.effective[p] == MANUAL
              else IsGranted(users, groups, supported, Grant(p.subject, p.service, store.effective[p]))
  {
    ghost var before := store.sources;
    var subjects, grants := BuildGrantSnapshot(users, groups, supported);
    SnapshotIsGranted(users, groups, supported, subjects, grants);
    ok := store.SyncSubjectGrantSnapshot(subjects, grants);
    EffectiveAfterSync(before, store.sources, store.effective, users, groups, supported);
  }

  lemma NoGroupIsManual(service: string)
    ensures PREFIX + service != MANUAL && ADMIN != MANUAL
  {
    assert (PREFIX + service)[1] == 'c' && MANUAL[1] == 'a';
  }

  lemma SnapshotIsGranted(users: seq<User>, groups: seq<Group>, supported: seq<string>, subjects: seq<string>,
                          grants: seq<Grant>)
    requires forall s :: s in subjects <==> IsSubject(users, s)
    requires forall g :: g in grants <==> IsGranted(users, groups, supported, g)
    ensures forall s :: s in SnapshotSources(subjects, grants) <==>
              IsGranted(users, groups, supported, Grant(s.subject, s.service, s.group))
    ensures forall s :: s in SnapshotSources(subjects, grants) ==> s.service in supported && s.group != MANUAL
  {
    forall g | IsGranted(users, groups, supported, g)
      ensures g.subject in subjects && g.service in supported && g.group != MANUAL
    {
      var i :| 0 <= i < |users| && SpeaksFor(users, i, g.subject) && users[i].isActive
               && GrantedTo(groups, users[i].pk, supported, g.service) == Some(g.group);
      assert IsSubject(users, g.subject);
      NoGroupIsManual(g.service);
    }
    forall s: Source | IsGranted(users, groups, supported, Grant(s.subject, s.service, s.group))
      ensures s in SnapshotSources(subjects, grants)
    {
      var g := Grant(s.subject, s.service, s.group);
      assert g in grants && Source(g.subject, g.service, g.group) == s;
    }
  }

  lemma EffectiveAfterSync(before: set<Source>, after: set<Source>, effective: map<Pair, string>,
                           users: seq<User>, groups: seq<Group>, supported: seq<string>)
    requires Projects(effective, after)
    requires forall s :: s in after <==>
               (s in before && s.group == MANUAL) ||
                 IsGranted(users, groups, supported, Grant(s.subject, s.service, s.group))
    requires forall s: Source :: IsGranted(users, groups, supported, Grant(s.subject, s.service, s.group)) ==>
             s.group != MANUAL
    ensures Manuals(after) == Manuals(before)
    ensures forall p :: p in effective <==>
              HasManual(before, p) || exists g :: IsGranted(users, groups, supported, Grant(p.subject, p.service, g))
    ensures forall p :: p in effective ==>
              if HasManual(before, p) then effective[p] == MANUAL
              else IsGranted(users, groups, supported, Grant(p.subject, p.service, effective[p]))
  {
    forall s ensures s in Manuals(after) <==> s in Manuals(before) {
      assert Source(s.subject, s.service, s.group) == s;
    }
    forall p ensures HasManual(after, p) <==> HasManual(before, p) {
      var s := Source(p.subject, p.service, MANUAL);
      assert s in Manuals(after) <==> s in Manuals(before);
    }
    forall p | p in effective
      ensures if HasManual(before, p) then effective[p] == MANUAL
              else IsGranted(users, groups, supported, Grant(p.subject, p.service, effective[p]))
    {
      assert IsLabel(after, p, effective[p]);
      var s := Source(p.subject, p.service, effective[p]);
      assert s in after;
    }
    forall p | HasManual(before, p) || exists g :: IsGranted(users, groups, supported, Grant(p.subject, p.service, g))
      ensures p in effective
    {
      if HasManual(before, p) {
        assert PairOf(Source(p.subject, p.service, MANUAL)) == p;
      } else {
        var g :| IsGranted(users, groups, supported, Grant(p.subject, p.service, g));
        var s := Source(p.subject, p.service, g);
        assert Grant(s.subject, s.service, s.group) == Grant(p.subject, p.service, g);
        assert s in after && PairOf(s) == p;
      }
    }
  }
}
