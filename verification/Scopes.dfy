/** Scope strings: splitting them into requested services, and the two ways of asking whether all of them are
    granted, a loop over the services and an SQL count. */
module Scopes {
  import opened Wrappers
  import opened GoStrings
  import opened Collections

  const PREFIX := "mcp:"

  /** `strings.Fields`: the maximal runs of characters that are not white space. */
  function Fields(s: string): (r: seq<string>)
    ensures forall f <- r :: f != "" && forall c <- f :: !IsSpace(c)
    decreases |s|
  {
    if s == "" then []
    else if IsSpace(s[0]) then Fields(s[1..])
    else
      var n := WordLength(s);
      [s[..n]] + Fields(s[n..])
  }

  function WordLength(s: string): (n: nat)
    ensures n <= |s| && forall c <- s[..n] :: !IsSpace(c)
    ensures n < |s| ==> IsSpace(s[n])
    ensures s != "" && !IsSpace(s[0]) ==> n > 0
  {
    if s == "" || IsSpace(s[0]) then 0
    else
      var n := 1 + WordLength(s[1..]);
      assert s[..n] == [s[0]] + s[1..][..n - 1];
      n
  }

  lemma {:induction false} BlankHasNoFields(s: string)
    ensures Blank(s) <==> Fields(s) == []
    decreases |s|
  {
    if s != "" {
      if IsSpace(s[0]) {
        BlankHasNoFields(s[1..]);
        assert s == [s[0]] + s[1..];
      } else {
        assert s[0] in s;
      }
    }
  }

  lemma {:induction false} WordEndsAtSpace(a: string, c: char, b: string)
    requires IsSpace(c)
    ensures WordLength(a + [c] + b) == WordLength(a)
  {
    if a != "" && !IsSpace(a[0]) {
      WordEndsAtSpace(a[1..], c, b);
      assert (a + [c] + b)[1..] == a[1..] + [c] + b;
    }
  }

  /** White space separates: the fields of two parts are those of the one, then those of the other. */
  lemma {:induction false} FieldsOfParts(a: string, c: char, b: string)
    requires IsSpace(c)
    ensures Fields(a + [c] + b) == Fields(a) + Fields(b)
    decreases |a|
  {
    var s := a + [c] + b;
    if a == "" {
      assert s[1..] == b;
    } else if IsSpace(a[0]) {
      FieldsOfParts(a[1..], c, b);
      assert s[1..] == a[1..] + [c] + b;
    } else {
      var n := WordLength(a);
      WordEndsAtSpace(a, c, b);
      FieldsOfParts(a[n..], c, b);
      assert s[..n] == a[..n] && s[n..] == a[n..] + [c] + b;
    }
  }

  /** And a text without any is one field. */
  lemma {:induction false} WordIsField(word: string)
    requires word != "" && forall c <- word :: !IsSpace(c)
    ensures Fields(word) == [word]
  {
    WholeWord(word);
    assert word[0] in word;
    assert word[..|word|] == word && word[|word|..] == "";
  }

  lemma {:induction false} WholeWord(word: string)
    requires forall c <- word :: !IsSpace(c)
    ensures WordLength(word) == |word|
  {
    if word != "" {
      assert word[0] in word && forall c <- word[1..] :: c in word;
      WholeWord(word[1..]);
    }
  }

  function ServiceOf(entry: string): string {
    TrimSpace(TrimPrefix(entry, PREFIX))
  }

  /** An entry of the form mcp:<service> with no further colon. */
  predicate IsServiceEntry(entry: string) {
    HasPrefix(entry, PREFIX) && ServiceOf(entry) != "" && ':' !in ServiceOf(entry)
  }

  /** The meaning of a scope: the services it requests, or nothing when some entry is not a service entry. */
  ghost function Requested(scope: string): Option<set<string>> {
    if Fields(scope) != [] && forall f <- Fields(scope) :: IsServiceEntry(f)
    then Some(set f <- Fields(scope) :: ServiceOf(f))
    else None
  }

  /** The scope that asks for these services. */
  function ScopeFor(ids: seq<string>): string {
    if ids == [] then "" else PREFIX + ids[0] + " " + ScopeFor(ids[1..])
  }

  function Entries(ids: seq<string>): seq<string> {
    seq(|ids|, i requires 0 <= i < |ids| => PREFIX + ids[i])
  }

  predicate IsWord(s: string) {
    s != "" && forall c <- s :: !IsSpace(c)
  }

  lemma EntryIsWord(id: string)
    requires IsWord(id)
    ensures IsWord(PREFIX + id) && HasPrefix(PREFIX + id, PREFIX) && ServiceOf(PREFIX + id) == id
    ensures IsServiceEntry(PREFIX + id) <==> ':' !in id
  {
    assert forall c <- PREFIX :: !IsSpace(c);
    assert (PREFIX + id)[|PREFIX|..] == id;
    assert id[0] in id && id[|id| - 1] in id;
  }

  lemma {:induction false} FieldsOfScope(ids: seq<string>)
    requires forall id <- ids :: IsWord(id)
    ensures Fields(ScopeFor(ids)) == Entries(ids)
  {
    if ids != [] {
      assert ids[0] in ids && forall id <- ids[1..] :: id in ids;
      FieldsOfScope(ids[1..]);
      EntryIsWord(ids[0]);
      WordIsField(PREFIX + ids[0]);
      FieldsOfParts(PREFIX + ids[0], ' ', ScopeFor(ids[1..]));
      assert PREFIX + ids[0] + " " + ScopeFor(ids[1..]) == PREFIX + ids[0] + [' '] + ScopeFor(ids[1..]);
      assert Entries(ids) == [PREFIX + ids[0]] + Entries(ids[1..]);
    }
  }

  /** A scope written for some services requests exactly these, unless one of the ids has a colon, and then it is not
      valid. */
  lemma RequestedOfScope(ids: seq<string>)
    requires ids != [] && forall id <- ids :: IsWord(id)
    ensures Requested(ScopeFor(ids)).Some? <==> forall id <- ids :: ':' !in id
    ensures Requested(ScopeFor(ids)).Some? ==> Requested(ScopeFor(ids)).value == SetOf(ids)
  {
    var fields := Fields(ScopeFor(ids));
    FieldsOfScope(ids);
    forall i | 0 <= i < |ids|
      ensures (IsServiceEntry(fields[i]) <==> ':' !in ids[i]) && ServiceOf(fields[i]) == ids[i]
    {
      assert ids[i] in ids;
      EntryIsWord(ids[i]);
    }
    RequestedByPosition(ScopeFor(ids), ids);
  }

  // What a scope requests, entry by entry.
  lemma RequestedByPosition(scope: string, ids: seq<string>)
    requires ids != [] && |Fields(scope)| == |ids|
    requires forall i :: 0 <= i < |ids| ==>
               (IsServiceEntry(Fields(scope)[i]) <==> ':' !in ids[i]) && ServiceOf(Fields(scope)[i]) == ids[i]
    ensures Requested(scope).Some? <==> forall id <- ids :: ':' !in id
    ensures Requested(scope).Some? ==> Requested(scope).value == SetOf(ids)
  {
    var fields := Fields(scope);
    if forall f <- fields :: IsServiceEntry(f) {
      forall i | 0 <= i < |ids| ensures ':' !in ids[i] { assert fields[i] in fields; }
      forall id | id in ids ensures id in Requested(scope).value {
        var i :| 0 <= i < |ids| && ids[i] == id;
        assert fields[i] in fields;
      }
    } else {
      var f :| f in fields && !IsServiceEntry(f);
      var i :| 0 <= i < |fields| && fields[i] == f;
      assert ids[i] in ids;
    }
  }

  /** Collects each requested service once. */
  method RequestedServiceScopes(scope: string) returns (ids: seq<string>, valid: bool)
    ensures valid <==> Requested(scope).Some?
    ensures valid ==> Distinct(ids) && SetOf(ids) == Requested(scope).value
  {
    BlankHasNoFields(scope);
    if Blank(scope) { return [], false; }
    var fields := Fields(scope);
    var seen: set<string> := {};
    ids := [];
    for i := 0 to |fields|
      invariant forall f <- fields[..i] :: IsServiceEntry(f)
      invariant seen == SetOf(ids) == set f <- fields[..i] :: ServiceOf(f)
      invariant Distinct(ids)
      invariant i > 0 ==> ids != []
    {
      var entry := fields[i];
      assert fields[..i + 1] == fields[..i] + [entry];
      assert entry in fields;
      if !HasPrefix(entry, PREFIX) { return [], false; }
      var service := ServiceOf(entry);
      if service == "" || ':' in service { return [], false; }
      if service in seen { continue; }
      seen := seen + {service};
      ids := ids + [service];
    }
    assert fields[..|fields|] == fields;
    return ids, |ids| > 0;
  }

  // The statement CountAllowedServiceGrants, where `granted` holds the services that are granted to the
  // subject and enabled in the catalog.
  function CountGranted(granted: set<string>, ids: seq<string>): nat {
    |set s <- granted | s in ids|
  }

  /** The in-memory store: every requested service in turn. */
  method AllowedScopesInMemory(granted: set<string>, scope: string) returns (allowed: bool)
    ensures allowed <==> Requested(scope).Some? && Requested(scope).value <= granted
  {
    var ids, valid := RequestedServiceScopes(scope);
    if !valid { return false; }
    for i := 0 to |ids|
      invariant forall s <- ids[..i] :: s in granted
    {
      if ids[i] !in granted {
        assert ids[i] in SetOf(ids);
        return false;
      }
    }
    assert forall s <- SetOf(ids) :: s in granted;
    return true;
  }

  /** The persistent store: as many distinct granted services as requested ones. */
  method AllowedScopesBySQL(granted: set<string>, scope: string) returns (allowed: bool)
    ensures allowed <==> Requested(scope).Some? && Requested(scope).value <= granted
  {
    var ids, valid := RequestedServiceScopes(scope);
    if !valid { return false; }
    CountingQuantifies(granted, ids);
    return CountGranted(granted, ids) == |ids|;
  }

  /** Counting is the same as quantifying exactly for lists without repetitions, and never for others. */
  lemma CountingQuantifies(granted: set<string>, ids: seq<string>)
    ensures CountGranted(granted, ids) == |ids| <==> Distinct(ids) && forall s <- ids :: s in granted
  {
    var both := set s <- granted | s in ids;
    DistinctCounts(ids);
    SubsetsAreSmaller(both, SetOf(ids));
    if CountGranted(granted, ids) == |ids| {
      SubsetOfEqualSize(both, SetOf(ids));
      assert forall s <- ids :: s in SetOf(ids);
    } else if forall s <- ids :: s in granted {
      assert both == SetOf(ids);
    }
  }

  /** Every entry of the scope is one that the client, or the directory, allows. */
  method ScopeStringAllowed(scope: string, allowed: seq<string>) returns (ok: bool)
    ensures ok <==> SetOf(Fields(scope)) <= SetOf(allowed)
  {
    BlankHasNoFields(scope);
    if Blank(scope) { return true; }
    var fields := Fields(scope);
    for i := 0 to |fields|
      invariant SetOf(fields[..i]) <= SetOf(allowed)
    {
      assert fields[..i + 1] == fields[..i] + [fields[i]];
      if fields[i] !in allowed {
        assert fields[i] in SetOf(fields);
        return false;
      }
    }
    assert fields[..|fields|] == fields;
    return true;
  }

  /** The entries that carry the mcp: prefix, in order. */
  function Prefixed(fields: seq<string>): seq<string> {
    if fields == [] then []
    else
      var front := Prefixed(fields[..|fields| - 1]);
      if HasPrefix(fields[|fields| - 1], PREFIX) then front + [fields[|fields| - 1]] else front
  }

  /** Exactly one prefixed entry, not counting bare `mcp:` entries that come before it: a bare entry leaves
      the service empty, so the loop does not notice it, but a bare entry after the named one is refused. */
  ghost predicate NamesOneService(entries: seq<string>, service: string) {
    && entries != [] && entries[|entries| - 1] == PREFIX + service && service != ""
    && forall i :: 0 <= i < |entries| - 1 ==> entries[i] == PREFIX
  }

  method SingleServiceFromScope(scope: string) returns (service: Option<string>)
    ensures service.Some? ==> NamesOneService(Prefixed(Fields(scope)), service.value)
    ensures service.None? ==> forall s :: !NamesOneService(Prefixed(Fields(scope)), s)
  {
    var fields := Fields(scope);
    var found := "";
    for i := 0 to |fields|
      invariant found == "" ==> var p := Prefixed(fields[..i]); forall k :: 0 <= k < |p| ==> p[k] == PREFIX
      invariant found != "" ==> NamesOneService(Prefixed(fields[..i]), found)
    {
      var entry := fields[i];
      PrefixedStep(fields, i);
      if !HasPrefix(entry, PREFIX) { continue; }
      if found != "" {
        TwoServicesAreRefused(fields, i);
        return None;
      }
      found := TrimPrefix(entry, PREFIX);
      assert entry == PREFIX + found;
    }
    assert fields[..|fields|] == fields;
    if found == "" {
      assert forall s: string :: s != "" ==> |PREFIX + s| != |PREFIX|;
      return None;
    }
    return Some(found);
  }

  lemma PrefixedStep(fields: seq<string>, i: nat)
    requires i < |fields|
    ensures Prefixed(fields[..i + 1]) == Prefixed(fields[..i]) + if HasPrefix(fields[i], PREFIX) then [fields[i]]
            else []
  {
    assert fields[..i + 1][..i] == fields[..i];
  }

  lemma {:induction false} PrefixedGrows(fields: seq<string>, n: nat)
    requires n <= |fields|
    ensures Prefixed(fields[..n]) <= Prefixed(fields)
    decreases |fields|
  {
    if n < |fields| {
      var front := fields[..|fields| - 1];
      assert front[..n] == fields[..n];
      PrefixedGrows(front, n);
    } else {
      assert fields[..n] == fields;
    }
  }

  lemma TwoServicesAreRefused(fields: seq<string>, i: nat)
    requires i < |fields| && HasPrefix(fields[i], PREFIX)
    requires exists s :: NamesOneService(Prefixed(fields[..i]), s)
    ensures forall s :: !NamesOneService(Prefixed(fields), s)
  {
    var before := Prefixed(fields[..i]);
    var named :| NamesOneService(before, named);
    PrefixedStep(fields, i);
    PrefixedGrows(fields, i + 1);
    LaterEntryIsRefused(before, named, Prefixed(fields));
  }

  lemma LaterEntryIsRefused(before: seq<string>, named: string, all: seq<string>)
    requires NamesOneService(before, named) && before <= all && |before| < |all|
    ensures forall s :: !NamesOneService(all, s)
  {
    assert all[|before| - 1] == PREFIX + named;
    assert |PREFIX + named| > |PREFIX|;
  }

  /** A scope that requests services at all names a single one exactly when that is its only entry. */
  lemma OneEntryOneService(scope: string, service: string)
    requires Requested(scope).Some?
    ensures NamesOneService(Prefixed(Fields(scope)), service) <==>
            |Fields(scope)| == 1 && Requested(scope).value == {service}
  {
    var fields := Fields(scope);
    AllPrefixed(fields);
    if NamesOneService(fields, service) {
      assert !IsServiceEntry(PREFIX) by { assert TrimPrefix(PREFIX, PREFIX) == ""; }
      assert fields[0] in fields && IsServiceEntry(fields[0]);
      assert fields == [PREFIX + service];
    }
    if |fields| == 1 {
      assert fields[0] in fields;
      EntryIsPrefixed(fields[0]);
      assert fields == [fields[0]] && Requested(scope).value == {ServiceOf(fields[0])};
      assert ServiceOf(fields[0]) in {service} <==> ServiceOf(fields[0]) == service;
      assert PREFIX + service == fields[0] <==> service == ServiceOf(fields[0]) by {
        assert (PREFIX + service)[|PREFIX|..] == service;
      }
    }
  }

  lemma EntryIsPrefixed(entry: string)
    requires IsServiceEntry(entry) && forall c <- entry :: !IsSpace(c)
    ensures entry == PREFIX + ServiceOf(entry)
  {
    var service := TrimPrefix(entry, PREFIX);
    assert entry == PREFIX + service;
    assert forall c <- service :: c in entry;
    NothingToTrim(service);
  }

  lemma NothingToTrim(s: string)
    requires forall c <- s :: !IsSpace(c)
    ensures TrimSpace(s) == s
  {
    if s != "" { assert s[0] in s && s[|s| - 1] in s; }
  }

  lemma {:induction false} AllPrefixed(fields: seq<string>)
    requires forall f <- fields :: HasPrefix(f, PREFIX)
    ensures Prefixed(fields) == fields
  {
    if fields != [] {
      AllPrefixed(fields[..|fields| - 1]);
      assert fields[|fields| - 1] in fields;
      assert fields == fields[..|fields| - 1] + [fields[|fields| - 1]];
    }
  }
}
