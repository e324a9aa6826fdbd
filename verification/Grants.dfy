/** Grant sources and the effective grants rebuilt from them (internal/controlplane/store.go and its statements). */
module Grants {

  const MANUAL := "manual"

  datatype Source = Source(subject: string, service: string, group: string)

  datatype Pair = Pair(subject: string, service: string)

  function PairOf(s: Source): Pair {
    Pair(s.subject, s.service)
  }

  /** The byte order of SQL's MIN over text. */
  predicate AtMost(a: string, b: string) {
    a == "" || (b != "" && (a[0] < b[0] || (a[0] == b[0] && AtMost(a[1..], b[1..]))))
  }

  lemma {:induction false} AtMostIsAnOrder(a: string, b: string, c: string)
    ensures AtMost(a, a)
    ensures AtMost(a, b) || AtMost(b, a)
    ensures AtMost(a, b) && AtMost(b, a) ==> a == b
    ensures AtMost(a, b) && AtMost(b, c) ==> AtMost(a, c)
    decreases |a| + |b| + |c|
  {
    var ta, tb := if a == "" then "" else a[1..], if b == "" then "" else b[1..];
    if a != "" || b != "" || c != "" {
      AtMostIsAnOrder(ta, tb, if c == "" then "" else c[1..]);
      assert a != "" ==> a == [a[0]] + ta;
      assert b != "" ==> b == [b[0]] + tb;
    }
  }

  // The meaning of the effective table.

  predicate HasSource(sources: set<Source>, p: Pair) {
    exists s :: s in sources && PairOf(s) == p
  }

  predicate HasManual(sources: set<Source>, p: Pair) {
    Source(p.subject, p.service, MANUAL) in sources
  }

  /** The label of a pair: `manual` if it has a manual source, else the least of its groups. */
  predicate IsLabel(sources: set<Source>, p: Pair, group: string) {
    && Source(p.subject, p.service, group) in sources
    && if HasManual(sources, p) then group == MANUAL
       else forall s :: s in sources && PairOf(s) == p ==> AtMost(group, s.group)
  }

  /** Present exactly when there is a source, and labelled as above. */
  predicate Projects(effective: map<Pair, string>, sources: set<Source>) {
    && (forall p :: p in effective ==> IsLabel(sources, p, effective[p]))
    && (forall s :: s in sources ==> PairOf(s) in effective)
  }

  /** The projection is determined by the sources. */
  lemma ProjectionIsUnique(e1: map<Pair, string>, e2: map<Pair, string>, sources: set<Source>)
    requires Projects(e1, sources) && Projects(e2, sources)
    ensures e1 == e2
  {
    forall p | p in e1 ensures p in e2 && e2[p] == e1[p] {
      var s := Source(p.subject, p.service, e1[p]);
      assert PairOf(s) == p;
      var t := Source(p.subject, p.service, e2[p]);
      assert PairOf(t) == p;
      AtMostIsAnOrder(e1[p], e2[p], "");
    }
    forall p | p in e2 ensures p in e1 {
      assert PairOf(Source(p.subject, p.service, e2[p])) == p;
    }
  }

  function Merge(effective: map<Pair, string>, s: Source): map<Pair, string> {
    var p := PairOf(s);
    effective[p := if p !in effective then s.group
                   else if s.group == MANUAL || effective[p] == MANUAL then MANUAL
                   else if AtMost(s.group, effective[p]) then s.group else effective[p]]
  }

  lemma MergeStep(effective: map<Pair, string>, sources: set<Source>, s: Source)
    requires Projects(effective, sources)
    ensures Projects(Merge(effective, s), sources + {s})
  {
    var e, all, p := Merge(effective, s), sources + {s}, PairOf(s);
    forall q | q in e ensures IsLabel(all, q, e[q]) {
      if q != p {
        assert IsLabel(sources, q, effective[q]);
        assert HasManual(all, q) <==> HasManual(sources, q);
      } else {
        assert HasManual(all, p) <==> HasManual(sources, p) || s.group == MANUAL;
        if p in effective {
          assert IsLabel(sources, p, effective[p]);
          forall t | t in all && PairOf(t) == p ensures HasManual(all, p) || AtMost(e[p], t.group) {
            AtMostIsAnOrder(s.group, effective[p], t.group);
            AtMostIsAnOrder(effective[p], s.group, t.group);
          }
        } else {
          forall t | t in all && PairOf(t) == p ensures t == s {
            assert t in sources ==> PairOf(t) in effective;
          }
          AtMostIsAnOrder(s.group, s.group, s.group);
        }
      }
    }
  }

  datatype Grant = Grant(subject: string, service: string, group: string)

  function Synced(sources: set<Source>): set<Source> {
    set s | s in sources && s.group != MANUAL
  }

  function Manuals(sources: set<Source>): set<Source> {
    set s | s in sources && s.group == MANUAL
  }

  function OfSubject(sources: set<Source>, subject: string): set<Source> {
    set s | s in sources && s.subject == subject
  }

  /** The grants of one subject, as sources of `subject`. */
  function AsSources(subject: string, grants: seq<Grant>): set<Source> {
    set g | g in grants :: Source(subject, g.service, g.group)
  }

  function ForSubject(grants: seq<Grant>, subject: string): (r: seq<Grant>)
    ensures forall g :: g in r <==> g in grants && g.subject == subject
  {
    if grants == [] then []
    else (if grants[0].subject == subject then [grants[0]] else []) + ForSubject(grants[1..], subject)
  }

  /** What a snapshot contributes: the grants of its own subjects. */
  function SnapshotSources(subjects: seq<string>, grants: seq<Grant>): set<Source> {
    set g | g in grants && g.subject in subjects :: Source(g.subject, g.service, g.group)
  }

  class Store {
    /** The service catalog: whether each service is enabled. */
    var services: map<string, bool>
    var subjects: set<string>
    var sources: set<Source>
    var effective: map<Pair, string>

    /** Foreign keys, and the effective table in step with its sources. */
    ghost predicate Valid()
      reads this
    {
      && (forall s :: s in sources ==> s.subject in subjects && s.service in services)
      && Projects(effective, sources)
    }

    constructor (services: map<string, bool>)
      ensures Valid() && this.services == services && subjects == {} && sources == {} && effective == map[]
    {
      this.services, subjects, sources, effective := services, {}, {}, map[];
    }

    method RebuildEffectiveServiceGrants()
      modifies this`effective
      ensures Projects(effective, sources)
    {
      effective := map[];
      var todo := sources;
      while todo != {}
        invariant todo <= sources && Projects(effective, sources - todo)
        decreases |todo|
      {
        var s :| s in todo;
        MergeStep(effective, sources - todo, s);
        effective := Merge(effective, s);
        assert sources - todo + {s} == sources - (todo - {s});
        todo := todo - {s};
      }
      assert sources - todo == sources;
    }

    // `insertGrants`; an unknown subject or service violates a foreign key.
    method InsertGrants(subject: string, grants: seq<Grant>) returns (ok: bool)
      modifies this`sources
      ensures ok <==> grants == [] || (subject in subjects && forall g :: g in grants ==> g.service in services)
      ensures ok ==> sources == old(sources) + AsSources(subject, grants)
    {
      for i := 0 to |grants|
        invariant sources == old(sources) + AsSources(subject, grants[..i])
        invariant i > 0 ==> subject in subjects && forall g :: g in grants[..i] ==> g.service in services
      {
        assert grants[i] in grants;
        if subject !in subjects || grants[i].service !in services { return false; }
        assert grants[..i + 1] == grants[..i] + [grants[i]];
        sources := sources + {Source(subject, grants[i].service, grants[i].group)};
      }
      assert grants[..|grants|] == grants;
      ok := true;
    }

    /** Replaces every source of the subject, manual ones included. */
    method ReplaceSubjectGrants(subject: string, grants: seq<Grant>) returns (ok: bool)
      requires Valid()
      modifies this`sources, this`effective
      ensures Valid()
      ensures ok <==> grants == [] || (subject in subjects && forall g :: g in grants ==> g.service in services)
      ensures sources == if ok then old(sources) - OfSubject(old(sources), subject) + AsSources(subject, grants)
              else old(sources)
    {
      var before := sources;
      sources := sources - OfSubject(sources, subject);
      ok := InsertGrants(subject, grants);
      if !ok {
        sources := before;
        return;
      }
      RebuildEffectiveServiceGrants();
    }

    /** One transaction: the manual sources stay, every other source is replaced by the snapshot's grants for its own
        subjects. Grants for other subjects are ignored; an unknown service rolls everything back. */
    method SyncSubjectGrantSnapshot(snapshot: seq<string>, grants: seq<Grant>) returns (ok: bool)
      requires Valid()
      modifies this`subjects, this`sources, this`effective
      ensures Valid()
      ensures ok <==> forall s :: s in SnapshotSources(snapshot, grants) ==> s.service in services
      ensures sources == if ok then Manuals(old(sources)) + SnapshotSources(snapshot, grants) else old(sources)
      ensures subjects == if ok then old(subjects) + (set s | s in snapshot) else old(subjects)
    {
      var before, known := sources, subjects;
      var bySub := set s | s in snapshot;
      subjects := subjects + bySub;
      ok := ReplaceSynced(bySub, grants);
      if !ok {
        SomeServiceUnknown(services, snapshot, grants);
        sources, subjects := before, known;
        return;
      }
      SyncDone(before, sources, bySub, snapshot, grants);
      RebuildEffectiveServiceGrants();
    }

    // Deletes what is stale, then replaces the synced sources subject by subject.
    method ReplaceSynced(bySub: set<string>, grants: seq<Grant>) returns (ok: bool)
      requires bySub <= subjects
      modifies this`sources
      ensures ok <==> forall g :: g in grants && g.subject in bySub ==> g.service in services
      ensures ok ==> SyncedExcept(old(sources), sources, bySub, {}, grants)
    {
      ghost var before := sources;
      SyncStart(before, bySub, grants);
      if bySub == {} {
        sources := sources - Synced(sources);
      } else {
        sources := sources - set s | s in sources && s.group != MANUAL && s.subject !in bySub;
      }
      var todo := bySub;
      while todo != {}
        invariant todo <= bySub && SyncedExcept(before, sources, bySub, todo, grants)
        invariant forall g :: g in grants && g.subject in bySub - todo ==> g.service in services
        decreases |todo|
      {
        var subject :| subject in todo;
        SyncStep(before, sources, bySub, todo, grants, subject);
        sources := sources - Synced(OfSubject(sources, subject));
        ok := InsertGrants(subject, ForSubject(grants, subject));
        if !ok { return; }
        todo := todo - {subject};
      }
      ok := true;
    }

    /** The subject is created if need be; the service must be enabled. */
    method UpsertManualServiceGrant(subject: string, service: string) returns (ok: bool)
      requires Valid()
      modifies this`subjects, this`sources, this`effective
      ensures Valid()
      ensures ok <==> service in services && services[service]
      ensures sources == old(sources) + if ok then {Source(subject, service, MANUAL)} else {}
    {
      if service !in services || !services[service] { return false; }
      subjects := subjects + {subject};
      sources := sources + {Source(subject, service, MANUAL)};
      RebuildEffectiveServiceGrants();
      ok := true;
    }

    method DeleteManualServiceGrant(subject: string, service: string)
      requires Valid()
      modifies this`sources, this`effective
      ensures Valid() && sources == old(sources) - {Source(subject, service, MANUAL)}
    {
      sources := sources - {Source(subject, service, MANUAL)};
      RebuildEffectiveServiceGrants();
    }

    /** The count query joins the enabled services. */
    method SubjectServiceGranted(subject: string, service: string) returns (granted: bool)
      requires Valid()
      ensures granted <==> HasSource(sources, Pair(subject, service)) && service in services && services[service]
    {
      granted := Pair(subject, service) in effective && service in services && services[service];
      if Pair(subject, service) in effective {
        var p := Pair(subject, service);
        assert IsLabel(sources, p, effective[p]);
        assert PairOf(Source(subject, service, effective[p])) == p;
      }
    }
  }

  // The loop of the sync, subject by subject.

  /** Subjects outside the snapshot have lost their synced sources; those no longer in `todo` have the snapshot's. */
  ghost predicate SyncedExcept(before: set<Source>, now: set<Source>, bySub: set<string>, todo: set<string>,
                               grants: seq<Grant>) {
    now == Manuals(before) + (set s | s in before && s.subject in todo)
           + (set g | g in grants && g.subject in bySub - todo :: Source(g.subject, g.service, g.group))
  }

  lemma SyncStart(before: set<Source>, bySub: set<string>, grants: seq<Grant>)
    ensures SyncedExcept(before, before - (set s | s in before && s.group != MANUAL && s.subject !in bySub),
                         bySub, bySub, grants)
    ensures bySub == {} ==>
              Synced(before) == set s | s in before && s.group != MANUAL && s.subject !in bySub
  {
  }

  lemma SyncStep(before: set<Source>, now: set<Source>, bySub: set<string>, todo: set<string>, grants: seq<Grant>,
                 subject: string)
    requires SyncedExcept(before, now, bySub, todo, grants) && subject in todo && todo <= bySub
    ensures SyncedExcept(before,
                         now - Synced(OfSubject(now, subject)) + AsSources(subject, ForSubject(grants, subject)),
                         bySub, todo - {subject}, grants)
  {
    var after := now - Synced(OfSubject(now, subject)) + AsSources(subject, ForSubject(grants, subject));
    var rest := bySub - (todo - {subject});
    var target := Manuals(before) + (set s | s in before && s.subject in todo - {subject})
                  + (set g | g in grants && g.subject in rest :: Source(g.subject, g.service, g.group));
    forall x ensures x in after <==> x in target {
      if x.subject == subject {
        assert x in AsSources(subject, ForSubject(grants, subject)) <==>
               Grant(subject, x.service, x.group) in grants by {
          if x in AsSources(subject, ForSubject(grants, subject)) {
            var g :| g in ForSubject(grants, subject) && Source(subject, g.service, g.group) == x;
            assert g == Grant(subject, x.service, x.group);
          }
          if Grant(subject, x.service, x.group) in grants {
            assert Grant(subject, x.service, x.group) in ForSubject(grants, subject);
          }
        }
      }
    }
  }

  lemma SyncDone(before: set<Source>, now: set<Source>, bySub: set<string>, snapshot: seq<string>, grants: seq<Grant>)
    requires SyncedExcept(before, now, bySub, {}, grants) && bySub == set s | s in snapshot
    ensures now == Manuals(before) + SnapshotSources(snapshot, grants)
  {
    assert bySub - {} == bySub;
  }

  lemma SomeServiceUnknown(services: map<string, bool>, snapshot: seq<string>, grants: seq<Grant>)
    requires exists g :: g in grants && g.subject in snapshot && g.service !in services
    ensures exists s :: s in SnapshotSources(snapshot, grants) && s.service !in services
  {
    var g :| g in grants && g.subject in snapshot && g.service !in services;
    assert Source(g.subject, g.service, g.group) in SnapshotSources(snapshot, grants);
  }

  /** The order in which subjects and grants arrive does not matter. */
  lemma SyncIgnoresOrder(s1: seq<string>, g1: seq<Grant>, s2: seq<string>, g2: seq<Grant>)
    requires multiset(s1) == multiset(s2) && multiset(g1) == multiset(g2)
    ensures SnapshotSources(s1, g1) == SnapshotSources(s2, g2)
  {
    forall s ensures s in s1 <==> s in s2 { assert s in s1 <==> s in multiset(s1); }
    forall g ensures g in g1 <==> g in g2 { assert g in g1 <==> g in multiset(g1); }
  }
}
