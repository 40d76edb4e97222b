/**
  The audit-exception gate (tools/check_pnpm_audit_exceptions.py): findings are extracted from the
  audit report, exceptions are indexed, and the verdict loops compare the two.

  Case folding and ISO date parsing are parameters, as is the current date.
*/
module AuditGate {
  import opened Common
  import opened AuditText

  datatype Env = Env(lower: string -> string, parseDate: string -> Option<int>, today: int)

  /** One item yielded by `iter_vulns`. */
  datatype Finding = Finding(
    name: Option<string>, severity: Option<string>, advisory: Option<string>, title: Option<string>)

  type Key = (string, string)

  /** The fields of an exception record that the gate looks at; a missing one counts as empty. */
  datatype Exception = Exception(
    package: string, advisory: string, severity: string, mitigation: string, expiresOn: string)

  function Get(e: Record, field: string): string {
    if field in e then e[field] else ""
  }

  function ExceptionOf(e: Record): Exception {
    Exception(Get(e, "package"), Get(e, "advisory"), Get(e, "severity"), Get(e, "mitigation"), Get(e, "expires_on"))
  }

  function ExceptionsOf(records: seq<Record>): seq<Exception> {
    MapSeq(records, ExceptionOf)
  }

  function Text(v: Option<string>): string {
    if v.Some? then v.value else ""
  }

  function NormalizeSeverity(env: Env, s: string): string {
    env.lower(Strip(s))
  }

  function NormalizeAdvisory(env: Env, s: string): string {
    env.lower(Strip(s))
  }

  function NormalizePackage(s: string): string {
    Strip(s)
  }

  // ----- exceptions

  datatype Indexed = Indexed(severity: string, expiresOn: int)

  /** Every required field is present and not empty. */
  predicate Complete(e: Exception) {
    e.package != "" && e.advisory != "" && e.severity != "" && e.mitigation != "" && e.expiresOn != ""
  }

  function KeyOf(env: Env, e: Exception): Key {
    (NormalizePackage(e.package), NormalizeAdvisory(env, e.advisory))
  }

  /** A complete exception with a valid date and a key that is not blank after normalization. */
  predicate ValidException(env: Env, e: Exception) {
    && Complete(e)
    && env.parseDate(e.expiresOn).Some?
    && KeyOf(env, e).0 != "" && KeyOf(env, e).1 != ""
  }

  function Entry(env: Env, e: Exception): Indexed
    requires ValidException(env, e)
  {
    Indexed(NormalizeSeverity(env, e.severity), env.parseDate(e.expiresOn).value)
  }

  ghost predicate UniqueKeys(env: Env, es: seq<Exception>) {
    forall i, j :: 0 <= i < j < |es| ==> KeyOf(env, es[i]) != KeyOf(env, es[j])
  }

  ghost predicate ExceptionsOk(env: Env, es: seq<Exception>) {
    (forall e :: e in es ==> ValidException(env, e)) && UniqueKeys(env, es)
  }

  ghost predicate IsIndexOf(env: Env, es: seq<Exception>, index: map<Key, Indexed>)
    requires forall e :: e in es ==> ValidException(env, e)
  {
    && (forall k :: k in index ==> exists e :: e in es && KeyOf(env, e) == k)
    && (forall e :: e in es ==> KeyOf(env, e) in index && index[KeyOf(env, e)] == Entry(env, e))
  }

  datatype Error =
    | MissingFields | InvalidDate | BlankKey | DuplicateException
    | MissingAdvisory | SeverityMismatch | MissingException | ExpiredException

  /** One turn of the index loop, up to the test for duplicates. */
  method Examine(env: Env, e: Exception) returns (r: Result<(Key, Indexed), Error>)
    ensures r.Ok? <==> ValidException(env, e)
    ensures r.Ok? ==> r.value == (KeyOf(env, e), Entry(env, e))
  {
    if !Complete(e) {
      return Err(MissingFields);
    }
    var severity := NormalizeSeverity(env, e.severity);
    var date := env.parseDate(e.expiresOn);
    if date.None? {
      return Err(InvalidDate);
    }
    var key := KeyOf(env, e);
    if key.0 == "" || key.1 == "" {
      return Err(BlankKey);
    }
    return Ok((key, Indexed(severity, date.value)));
  }

  lemma IndexStep(env: Env, es: seq<Exception>, e: Exception, index: map<Key, Indexed>)
    requires ExceptionsOk(env, es) && IsIndexOf(env, es, index) && ValidException(env, e)
    ensures KeyOf(env, e) in index <==> exists d :: d in es && KeyOf(env, d) == KeyOf(env, e)
    ensures KeyOf(env, e) !in index ==>
      && (forall x :: x in es + [e] ==> ValidException(env, x))
      && IsIndexOf(env, es + [e], index[KeyOf(env, e) := Entry(env, e)])
  {
    var index' := index[KeyOf(env, e) := Entry(env, e)];
    forall k | k in index'
      ensures exists d :: d in es + [e] && KeyOf(env, d) == k
    {
      if k in index {
        var d :| d in es && KeyOf(env, d) == k;
        assert d in es + [e];
      } else {
        assert e in es + [e];
      }
    }
  }

  /** No error so far means that the exceptions are sound and indexed. */
  ghost predicate Indexes(env: Env, es: seq<Exception>, index: map<Key, Indexed>, ok: bool) {
    (ok <==> ExceptionsOk(env, es)) && (ok ==> IsIndexOf(env, es, index))
  }

  lemma IndexTurn(env: Env, es: seq<Exception>, e: Exception, index: map<Key, Indexed>, ok: bool)
    requires Indexes(env, es, index, ok)
    ensures !ValidException(env, e) || KeyOf(env, e) in index ==> Indexes(env, es + [e], index, false)
    ensures ValidException(env, e) && KeyOf(env, e) !in index ==>
      Indexes(env, es + [e], index[KeyOf(env, e) := Entry(env, e)], ok)
  {
    ExceptionsStep(env, es, e);
    if ok && ValidException(env, e) {
      IndexStep(env, es, e, index);
    }
  }

  /** The index loop of `main`. */
  method IndexExceptions(env: Env, es: seq<Exception>) returns (index: map<Key, Indexed>, errors: seq<Error>)
    ensures errors == [] <==> ExceptionsOk(env, es)
    ensures errors == [] ==> IsIndexOf(env, es, index)
  {
    index, errors := map[], [];
    for i := 0 to |es|
      invariant Indexes(env, es[..i], index, errors == [])
    {
      var e := es[i];
      assert es[..i + 1] == es[..i] + [e];
      IndexTurn(env, es[..i], e, index, errors == []);
      var r := Examine(env, e);
      if r.Err? {
        errors := errors + [r.error];
        continue;
      }
      var (key, entry) := r.value;
      if key in index {
        errors := errors + [DuplicateException];
        continue;
      }
      index := index[key := entry];
    }
    assert es[..|es|] == es;
  }

  lemma UniqueStep(env: Env, es: seq<Exception>, e: Exception)
    ensures UniqueKeys(env, es + [e]) <==> UniqueKeys(env, es) && forall d :: d in es ==> KeyOf(env, d) != KeyOf(env, e)
  {
    var all := es + [e];
    assert forall i :: 0 <= i < |es| ==> all[i] == es[i] && es[i] in es;
    if UniqueKeys(env, all) {
      forall d | d in es
        ensures KeyOf(env, d) != KeyOf(env, e)
      {
        var i :| 0 <= i < |es| && es[i] == d;
        assert KeyOf(env, all[i]) != KeyOf(env, all[|es|]);
      }
    }
  }

  lemma ExceptionsStep(env: Env, es: seq<Exception>, e: Exception)
    ensures ExceptionsOk(env, es + [e]) <==>
      && ExceptionsOk(env, es)
      && ValidException(env, e)
      && forall d :: d in es ==> KeyOf(env, d) != KeyOf(env, e)
  {
    UniqueStep(env, es, e);
    assert (forall x :: x in es + [e] ==> ValidException(env, x)) <==>
      (forall x :: x in es ==> ValidException(env, x)) && ValidException(env, e) by {
      assert forall x :: x in es + [e] <==> x in es || x == e;
    }
  }

  // ----- findings

  function Severity(env: Env, f: Finding): string {
    NormalizeSeverity(env, Text(f.severity))
  }

  function FindingKey(env: Env, f: Finding): Key {
    (NormalizePackage(Text(f.name)), NormalizeAdvisory(env, Text(f.advisory)))
  }

  /** A named finding of high or critical severity. */
  predicate Gated(env: Env, f: Finding) {
    Severity(env, f) in {"high", "critical"} && Text(f.name) != ""
  }

  /** An earlier gated finding has the same key. */
  ghost predicate Repeats(env: Env, fs: seq<Finding>, i: int)
    requires 0 <= i < |fs|
  {
    exists j :: 0 <= j < i && Gated(env, fs[j]) && FindingKey(env, fs[j]) == FindingKey(env, fs[i])
  }

  predicate Excused(env: Env, index: map<Key, Indexed>, f: Finding) {
    var key := FindingKey(env, f);
    && key in index
    && (index[key].severity == "" || index[key].severity == Severity(env, f))
    && env.today <= index[key].expiresOn
  }

  /** Finding i has an advisory key and, if it is the first one of its key, an exception for it. */
  ghost predicate Passes(env: Env, index: map<Key, Indexed>, fs: seq<Finding>, i: int)
    requires 0 <= i < |fs|
  {
    Gated(env, fs[i]) ==>
      && FindingKey(env, fs[i]).1 != ""
      && (Repeats(env, fs, i) || Excused(env, index, fs[i]))
  }

  ghost predicate AllPass(env: Env, index: map<Key, Indexed>, fs: seq<Finding>, n: nat)
    requires n <= |fs|
  {
    forall i :: 0 <= i < n ==> Passes(env, index, fs, i)
  }

  lemma AllPassStep(env: Env, index: map<Key, Indexed>, fs: seq<Finding>, n: nat)
    requires n < |fs|
    ensures AllPass(env, index, fs, n + 1) <==> AllPass(env, index, fs, n) && Passes(env, index, fs, n)
  {
  }

  ghost predicate IsSeen(env: Env, fs: seq<Finding>, seen: set<Key>) {
    forall k :: k in seen <==>
      k.1 != "" && exists j :: 0 <= j < |fs| && Gated(env, fs[j]) && FindingKey(env, fs[j]) == k
  }

  /** One more finding: whether its key has been seen, and the set afterwards. */
  lemma SeenStep(env: Env, fs: seq<Finding>, f: Finding, seen: set<Key>)
    requires IsSeen(env, fs, seen)
    ensures Gated(env, f) && FindingKey(env, f).1 != "" ==>
      (FindingKey(env, f) in seen <==> Repeats(env, fs + [f], |fs|))
    ensures
      var adds := Gated(env, f) && FindingKey(env, f).1 != "";
      IsSeen(env, fs + [f], if adds then seen + {FindingKey(env, f)} else seen)
  {
    var all, key := fs + [f], FindingKey(env, f);
    assert forall j :: 0 <= j < |fs| ==> all[j] == fs[j];
    assert all[|fs|] == f;
  }

  lemma RepeatsInPrefix(env: Env, fs: seq<Finding>, n: nat)
    requires n < |fs|
    ensures Repeats(env, fs[..n] + [fs[n]], n) <==> Repeats(env, fs, n)
  {
    var p := fs[..n] + [fs[n]];
    assert forall j :: 0 <= j <= n ==> p[j] == fs[j];
  }

  /** What one finding adds to the error lists, and whether its key is now seen. */
  function Judge(env: Env, index: map<Key, Indexed>, seen: set<Key>, f: Finding): seq<Error> {
    var key := FindingKey(env, f);
    if !Gated(env, f) then []
    else if key.1 == "" then [MissingAdvisory]
    else if key in seen then []
    else if key !in index then [MissingException]
    else
      (if index[key].severity != "" && index[key].severity != Severity(env, f) then [SeverityMismatch] else []) +
      (if index[key].expiresOn < env.today then [ExpiredException] else [])
  }

  function SeenAfter(env: Env, seen: set<Key>, f: Finding): set<Key> {
    if Gated(env, f) && FindingKey(env, f).1 != "" then seen + {FindingKey(env, f)} else seen
  }

  lemma JudgePasses(env: Env, index: map<Key, Indexed>, fs: seq<Finding>, n: nat, seen: set<Key>)
    requires n < |fs| && IsSeen(env, fs[..n], seen)
    ensures Judge(env, index, seen, fs[n]) == [] <==> Passes(env, index, fs, n)
    ensures IsSeen(env, fs[..n + 1], SeenAfter(env, seen, fs[n]))
  {
    SeenStep(env, fs[..n], fs[n], seen);
    RepeatsInPrefix(env, fs, n);
    assert fs[..n + 1] == fs[..n] + [fs[n]];
  }

  /** One turn of the verdict loop of `main`. */
  method JudgeFinding(env: Env, index: map<Key, Indexed>, was: set<Key>, f: Finding)
    returns (seen: set<Key>, errors: seq<Error>)
    ensures seen == SeenAfter(env, was, f) && errors == Judge(env, index, was, f)
  {
    seen, errors := was, [];
    var sev := Severity(env, f);
    if sev !in {"high", "critical"} || Text(f.name) == "" {
      return;
    }
    var key := FindingKey(env, f);
    if key.1 == "" {
      errors := [MissingAdvisory];
      return;
    }
    if key in seen {
      assert seen + {key} == seen;
      return;
    }
    seen := seen + {key};
    if key !in index {
      errors := [MissingException];
      return;
    }
    if index[key].severity != "" && index[key].severity != sev {
      errors := [SeverityMismatch];
    }
    if index[key].expiresOn < env.today {
      errors := errors + [ExpiredException];
    }
  }

  /** The keys seen by the verdict loop after the findings `fs`. */
  function SeenKeys(env: Env, fs: seq<Finding>): set<Key> {
    if fs == [] then {} else SeenAfter(env, SeenKeys(env, fs[..|fs| - 1]), fs[|fs| - 1])
  }

  /** The errors of the verdict loop on the findings `fs`. */
  function Errors(env: Env, index: map<Key, Indexed>, fs: seq<Finding>): seq<Error> {
    if fs == [] then []
    else
      var init := fs[..|fs| - 1];
      Errors(env, index, init) + Judge(env, index, SeenKeys(env, init), fs[|fs| - 1])
  }

  lemma {:induction false} SeenKeysAreSeen(env: Env, fs: seq<Finding>, n: nat)
    requires n <= |fs|
    ensures IsSeen(env, fs[..n], SeenKeys(env, fs[..n]))
  {
    if n > 0 {
      assert fs[..n][..n - 1] == fs[..n - 1];
      SeenKeysAreSeen(env, fs, n - 1);
      JudgePasses(env, map[], fs, n - 1, SeenKeys(env, fs[..n - 1]));
    }
  }

  /** No error is recorded exactly when all findings pass. */
  lemma {:induction false} ErrorsIff(env: Env, index: map<Key, Indexed>, fs: seq<Finding>, n: nat)
    requires n <= |fs|
    ensures Errors(env, index, fs[..n]) == [] <==> AllPass(env, index, fs, n)
  {
    if n > 0 {
      assert fs[..n][..n - 1] == fs[..n - 1];
      ErrorsIff(env, index, fs, n - 1);
      SeenKeysAreSeen(env, fs, n - 1);
      JudgePasses(env, index, fs, n - 1, SeenKeys(env, fs[..n - 1]));
      AllPassStep(env, index, fs, n - 1);
    }
  }

  /** The verdict loop of `main`, with its set of keys already seen. */
  method CheckFindings(env: Env, index: map<Key, Indexed>, fs: seq<Finding>) returns (errors: seq<Error>)
    ensures errors == [] <==> AllPass(env, index, fs, |fs|)
  {
    errors := [];
    var seen: set<Key> := {};
    for n := 0 to |fs|
      invariant seen == SeenKeys(env, fs[..n]) && errors == Errors(env, index, fs[..n])
    {
      assert fs[..n + 1][..n] == fs[..n];
      var more;
      seen, more := JudgeFinding(env, index, seen, fs[n]);
      errors := errors + more;
    }
    assert fs[..|fs|] == fs;
    ErrorsIff(env, index, fs, |fs|);
  }

  // ----- the verdict

  /** Some exception excuses the finding. */
  ghost predicate ExcusedBy(env: Env, es: seq<Exception>, f: Finding) {
    exists e :: e in es && Excuses(env, e, f)
  }

  predicate Excuses(env: Env, e: Exception, f: Finding) {
    && ValidException(env, e)
    && KeyOf(env, e) == FindingKey(env, f)
    && (Entry(env, e).severity == "" || Entry(env, e).severity == Severity(env, f))
    && env.today <= Entry(env, e).expiresOn
  }

  /**
    The policy in plain words: every exception is valid and unique, every named high or critical
    finding has an advisory key, and the first one of each key is excused.
  */
  ghost predicate Accepts(env: Env, es: seq<Exception>, fs: seq<Finding>) {
    && ExceptionsOk(env, es)
    && forall i :: 0 <= i < |fs| ==> Cleared(env, es, fs, i)
  }

  ghost predicate Cleared(env: Env, es: seq<Exception>, fs: seq<Finding>, i: int)
    requires 0 <= i < |fs|
  {
    Gated(env, fs[i]) ==>
      && FindingKey(env, fs[i]).1 != ""
      && (Repeats(env, fs, i) || ExcusedBy(env, es, fs[i]))
  }

  lemma IndexExcuses(env: Env, es: seq<Exception>, index: map<Key, Indexed>, f: Finding)
    requires (forall e :: e in es ==> ValidException(env, e)) && IsIndexOf(env, es, index)
    ensures Excused(env, index, f) <==> ExcusedBy(env, es, f)
  {
    var key := FindingKey(env, f);
    if key in index {
      var e :| e in es && KeyOf(env, e) == key;
      assert index[key] == Entry(env, e);
      if Excused(env, index, f) {
        assert Excuses(env, e, f);
      }
    }
  }

  /** The exit status of the gate, once the files have been read and parsed. */
  method Verdict(env: Env, es: seq<Exception>, fs: seq<Finding>) returns (status: int)
    ensures status == if Accepts(env, es, fs) then 0 else 1
  {
    var index, errors := IndexExceptions(env, es);
    var found := CheckFindings(env, index, fs);
    if errors == [] {
      forall i | 0 <= i < |fs|
        ensures Passes(env, index, fs, i) <==> Cleared(env, es, fs, i)
      {
        IndexExcuses(env, es, index, fs[i]);
      }
    }
    errors := errors + found;
    status := if errors != [] then 1 else 0;
  }

  // ----- the policy on one exception and one finding

  /** A finding that the gate looks at, read off its fields. */
  ghost predicate IsSerious(env: Env, f: Finding) {
    && f.name.Some? && f.name.value != ""
    && f.severity.Some?
    && (env.lower(Strip(f.severity.value)) == "high" || env.lower(Strip(f.severity.value)) == "critical")
  }

  lemma GatedIff(env: Env, f: Finding)
    requires env.lower("") == ""
    ensures Gated(env, f) <==> IsSerious(env, f)
  {
    assert "" != "high" && "" != "critical";
  }

  /** Without exceptions the gate passes exactly the reports without a serious finding. */
  lemma WithoutExceptions(env: Env, fs: seq<Finding>)
    requires env.lower("") == ""
    ensures Accepts(env, [], fs) <==> forall f :: f in fs ==> !IsSerious(env, f)
  {
    if f :| f in fs && IsSerious(env, f) {
      GatedIff(env, f);
      HopelessFinding(env, [], fs, f);
    } else {
      forall i | 0 <= i < |fs|
        ensures Cleared(env, [], fs, i)
      {
        assert fs[i] in fs;
        GatedIff(env, fs[i]);
      }
    }
  }

  /** An exception that the gate accepts, read off its fields. */
  ghost predicate IsSound(env: Env, e: Exception) {
    && e.package != "" && e.advisory != "" && e.severity != "" && e.mitigation != "" && e.expiresOn != ""
    && env.parseDate(e.expiresOn).Some? && Strip(e.package) != "" && env.lower(Strip(e.advisory)) != ""
  }

  /**
    The finding is the one that the exception is for: the package is the same, the advisory and the
    severity are the same up to letter case, white space around them aside, and the exception has not
    expired before today.  A severity that is blank matches every severity.
  */
  ghost predicate Covers(env: Env, e: Exception, f: Finding)
    requires IsSound(env, e)
  {
    && f.name.Some? && Strip(f.name.value) == Strip(e.package)
    && f.advisory.Some? && env.lower(Strip(f.advisory.value)) == env.lower(Strip(e.advisory))
    && f.severity.Some?
    && (env.lower(Strip(e.severity)) == "" || env.lower(Strip(e.severity)) == env.lower(Strip(f.severity.value)))
    && env.today <= env.parseDate(e.expiresOn).value
  }

  lemma CoversIff(env: Env, e: Exception, f: Finding)
    requires env.lower("") == "" && IsSerious(env, f) && IsSound(env, e)
    ensures Covers(env, e, f) <==> Excuses(env, e, f)
  {
    if f.advisory.None? {
      assert FindingKey(env, f).1 == "";
    }
  }

  /** One exception against one finding, from the fields of both. */
  lemma OneAgainstOne(env: Env, e: Exception, f: Finding)
    requires env.lower("") == ""
    ensures Accepts(env, [e], [f]) <==> IsSound(env, e) && (IsSerious(env, f) ==> Covers(env, e, f))
  {
    GatedIff(env, f);
    assert [f][0] == f && !Repeats(env, [f], 0);
    assert ExceptionsOk(env, [e]) <==> IsSound(env, e) by {
      assert e in [e];
      assert ValidException(env, e) <==> IsSound(env, e);
    }
    if IsSound(env, e) && IsSerious(env, f) {
      CoversIff(env, e, f);
      assert ExcusedBy(env, [e], f) <==> Excuses(env, e, f);
      assert Accepts(env, [e], [f]) <==> Cleared(env, [e], [f], 0);
    }
  }

  // ----- the order of the inputs

  lemma UniqueKeysPermuted(env: Env, es: seq<Exception>, es': seq<Exception>)
    requires multiset(es) == multiset(es') && UniqueKeys(env, es')
    ensures UniqueKeys(env, es)
  {
    forall i, j | 0 <= i < j < |es|
      ensures KeyOf(env, es[i]) != KeyOf(env, es[j])
    {
      var a, b := PositionsInPermutation(es, es', i, j);
    }
  }

  lemma ExceptionsOkPermuted(env: Env, es: seq<Exception>, es': seq<Exception>)
    requires multiset(es) == multiset(es')
    ensures ExceptionsOk(env, es) <==> ExceptionsOk(env, es')
  {
    SameMembers(es, es');
    if UniqueKeys(env, es) {
      UniqueKeysPermuted(env, es', es);
    }
    if UniqueKeys(env, es') {
      UniqueKeysPermuted(env, es, es');
    }
  }

  /** The verdict does not depend on the order of the exceptions. */
  lemma ExceptionOrderIsIrrelevant(env: Env, es: seq<Exception>, es': seq<Exception>, fs: seq<Finding>)
    requires multiset(es) == multiset(es')
    ensures Accepts(env, es, fs) <==> Accepts(env, es', fs)
  {
    ExceptionsOkPermuted(env, es, es');
    SameMembers(es, es');
    forall i | 0 <= i < |fs|
      ensures Cleared(env, es, fs, i) <==> Cleared(env, es', fs, i)
    {
    }
  }

  /** All gated findings of one key have one severity. */
  ghost predicate OneSeverityPerKey(env: Env, fs: seq<Finding>) {
    forall f, g :: f in fs && g in fs && Gated(env, f) && Gated(env, g) && FindingKey(env, f) == FindingKey(env, g) ==>
      Severity(env, f) == Severity(env, g)
  }

  ghost predicate AllCleared(env: Env, es: seq<Exception>, fs: seq<Finding>) {
    forall f :: f in fs && Gated(env, f) ==> FindingKey(env, f).1 != "" && ExcusedBy(env, es, f)
  }

  lemma ExcusedAlike(env: Env, es: seq<Exception>, f: Finding, g: Finding)
    requires FindingKey(env, f) == FindingKey(env, g) && Severity(env, f) == Severity(env, g)
    ensures ExcusedBy(env, es, f) ==> ExcusedBy(env, es, g)
  {
    if ExcusedBy(env, es, f) {
      var e :| e in es && Excuses(env, e, f);
      assert Excuses(env, e, g);
    }
  }

  /** The first position of a gated finding with the key of finding i. */
  lemma {:induction false} FirstOfKey(env: Env, fs: seq<Finding>, i: nat) returns (j: nat)
    requires i < |fs| && Gated(env, fs[i])
    ensures j <= i && Gated(env, fs[j]) && FindingKey(env, fs[j]) == FindingKey(env, fs[i]) && !Repeats(env, fs, j)
    decreases i
  {
    if Repeats(env, fs, i) {
      var k: nat :| k < i && Gated(env, fs[k]) && FindingKey(env, fs[k]) == FindingKey(env, fs[i]);
      j := FirstOfKey(env, fs, k);
    } else {
      j := i;
    }
  }

  /** With one severity per key, looking at first occurrences is looking at all of them. */
  lemma UniformFindings(env: Env, es: seq<Exception>, fs: seq<Finding>)
    requires OneSeverityPerKey(env, fs)
    ensures Accepts(env, es, fs) <==> ExceptionsOk(env, es) && AllCleared(env, es, fs)
  {
    if Accepts(env, es, fs) {
      forall f | f in fs && Gated(env, f)
        ensures FindingKey(env, f).1 != "" && ExcusedBy(env, es, f)
      {
        var i :| 0 <= i < |fs| && fs[i] == f;
        var j := FirstOfKey(env, fs, i);
        assert Cleared(env, es, fs, j) && Cleared(env, es, fs, i);
        assert fs[j] in fs;
        ExcusedAlike(env, es, fs[j], f);
      }
    }
    if AllCleared(env, es, fs) {
      forall i | 0 <= i < |fs|
        ensures Cleared(env, es, fs, i)
      {
        assert fs[i] in fs;
      }
    }
  }

  /** The verdict does not depend on the order of the findings when each key has one severity. */
  lemma FindingOrderIsIrrelevant(env: Env, es: seq<Exception>, fs: seq<Finding>, fs': seq<Finding>)
    requires multiset(fs) == multiset(fs') && OneSeverityPerKey(env, fs)
    ensures Accepts(env, es, fs) <==> Accepts(env, es, fs')
  {
    SameMembers(fs, fs');
    UniformFindings(env, es, fs);
    UniformFindings(env, es, fs');
  }

  ghost predicate ExcusedWithKey(env: Env, es: seq<Exception>, fs: seq<Finding>, f: Finding) {
    exists g :: g in fs && Gated(env, g) && FindingKey(env, g) == FindingKey(env, f) && ExcusedBy(env, es, g)
  }

  /**
    The inputs on which the order of the findings cannot matter: the exceptions are rejected anyway, a
    gated finding has a blank key or a key of which no finding is excused, or all of them are excused.
  */
  ghost predicate OrderBlind(env: Env, es: seq<Exception>, fs: seq<Finding>) {
    || !ExceptionsOk(env, es)
    || (exists f :: f in fs && Gated(env, f) && (FindingKey(env, f).1 == "" || !ExcusedWithKey(env, es, fs, f)))
    || (forall f :: f in fs && Gated(env, f) ==> ExcusedBy(env, es, f))
  }

  ghost predicate OrderIrrelevant(env: Env, es: seq<Exception>, fs: seq<Finding>) {
    forall fs' :: multiset(fs') == multiset(fs) ==> (Accepts(env, es, fs') <==> Accepts(env, es, fs))
  }

  /** A gated finding with a blank key, or with a key of which no finding is excused, is fatal. */
  lemma HopelessFinding(env: Env, es: seq<Exception>, fs: seq<Finding>, f: Finding)
    requires f in fs && Gated(env, f) && (FindingKey(env, f).1 == "" || !ExcusedWithKey(env, es, fs, f))
    ensures !Accepts(env, es, fs)
  {
    var i :| 0 <= i < |fs| && fs[i] == f;
    var j := FirstOfKey(env, fs, i);
    assert fs[j] in fs;
    assert !Cleared(env, es, fs, j);
  }

  lemma BlindOrders(env: Env, es: seq<Exception>, fs: seq<Finding>, fs': seq<Finding>)
    requires OrderBlind(env, es, fs) && multiset(fs') == multiset(fs)
    ensures Accepts(env, es, fs') <==>
      && ExceptionsOk(env, es)
      && forall f :: f in fs && Gated(env, f) ==> FindingKey(env, f).1 != "" && ExcusedBy(env, es, f)
  {
    SameMembers(fs, fs');
    if f :| f in fs && Gated(env, f) && (FindingKey(env, f).1 == "" || !ExcusedWithKey(env, es, fs, f)) {
      HopelessFinding(env, es, fs', f);
    } else if ExceptionsOk(env, es) {
      forall i | 0 <= i < |fs'|
        ensures Cleared(env, es, fs', i)
      {
        assert fs'[i] in fs;
      }
    }
  }

  lemma BlindIsIrrelevant(env: Env, es: seq<Exception>, fs: seq<Finding>)
    requires OrderBlind(env, es, fs)
    ensures OrderIrrelevant(env, es, fs)
  {
    BlindOrders(env, es, fs, fs);
    forall fs' | multiset(fs') == multiset(fs)
      ensures Accepts(env, es, fs') <==> Accepts(env, es, fs)
    {
      BlindOrders(env, es, fs, fs');
    }
  }

  ghost function ExcusedTest(env: Env, es: seq<Exception>, excused: bool): Finding -> bool {
    f => ExcusedBy(env, es, f) == excused
  }

  /** A finding behind all excused ones repeats the key of one of them. */
  lemma RepeatsExcused(env: Env, es: seq<Exception>, good: seq<Finding>, bad: seq<Finding>, i: nat)
    requires |good| <= i < |good + bad| && ExcusedWithKey(env, es, good, (good + bad)[i])
    ensures Repeats(env, good + bad, i)
  {
    var f := (good + bad)[i];
    var g :| g in good && Gated(env, g) && FindingKey(env, g) == FindingKey(env, f);
    var j :| 0 <= j < |good| && good[j] == g;
    assert (good + bad)[j] == g;
  }

  /** The order that puts all excused findings first. */
  lemma ExcusedFirst(env: Env, es: seq<Exception>, fs: seq<Finding>) returns (fs': seq<Finding>)
    requires ExceptionsOk(env, es)
    requires forall f :: f in fs && Gated(env, f) ==> FindingKey(env, f).1 != "" && ExcusedWithKey(env, es, fs, f)
    ensures multiset(fs') == multiset(fs) && Accepts(env, es, fs')
  {
    var good, bad := Filter(fs, ExcusedTest(env, es, true)), Filter(fs, ExcusedTest(env, es, false));
    fs' := good + bad;
    FilterSplits(fs, ExcusedTest(env, es, true), ExcusedTest(env, es, false));
    SameMembers(fs, fs');
    FilterMembers(fs, ExcusedTest(env, es, true));
    forall i | 0 <= i < |fs'|
      ensures Cleared(env, es, fs', i)
    {
      if i < |good| {
        assert good[i] in good;
      } else if Gated(env, fs'[i]) {
        assert fs'[i] in fs;
        RepeatsExcused(env, es, good, bad, i);
      }
    }
  }

  /** The order that puts one unexcused finding first. */
  lemma UnexcusedFirst(env: Env, es: seq<Exception>, fs: seq<Finding>, f: Finding) returns (fs': seq<Finding>)
    requires f in fs && Gated(env, f) && !ExcusedBy(env, es, f)
    ensures multiset(fs') == multiset(fs) && !Accepts(env, es, fs')
  {
    var i :| 0 <= i < |fs| && fs[i] == f;
    fs' := [f] + (fs[..i] + fs[i + 1..]);
    RemoveAt(fs, i);
    assert !Cleared(env, es, fs', 0);
  }

  /** The order of the findings is irrelevant exactly on the inputs described by `OrderBlind`. */
  lemma FindingOrderIsIrrelevantIff(env: Env, es: seq<Exception>, fs: seq<Finding>)
    ensures OrderIrrelevant(env, es, fs) <==> OrderBlind(env, es, fs)
  {
    if OrderBlind(env, es, fs) {
      BlindIsIrrelevant(env, es, fs);
    } else {
      var accepted := ExcusedFirst(env, es, fs);
      var f :| f in fs && Gated(env, f) && !ExcusedBy(env, es, f);
      var rejected := UnexcusedFirst(env, es, fs, f);
    }
  }

  /** The order can decide the verdict: the first severity of a key is the one compared. */
  lemma FindingOrderCanMatter()
    returns (env: Env, es: seq<Exception>, f: Finding, g: Finding)
    ensures Accepts(env, es, [f, g]) && !Accepts(env, es, [g, f])
  {
    env := Env(s => s, s => Some(1), 0);
    var e := Exception("p", "a", "high", "m", "d");
    es := [e];
    f := Finding(Some("p"), Some("high"), Some("a"), None);
    g := f.(severity := Some("critical"));
    StripTight("p");
    StripTight("a");
    StripTight("high");
    StripTight("critical");
    assert Excuses(env, e, f);
    assert Gated(env, f) && Gated(env, g);
    assert Repeats(env, [f, g], 1) by { assert Gated(env, [f, g][0]); }
    assert ExcusedBy(env, es, f);
    assert Cleared(env, es, [f, g], 0) && Cleared(env, es, [f, g], 1);
    assert !Excuses(env, e, g);
    assert !Cleared(env, es, [g, f], 0);
  }

  // ----- findings of an audit report

  /** An entry of `advisories`; numbers are given as their decimal text. */
  datatype Advisory = Advisory(
    moduleName: Option<string>,
    name: Option<string>,
    severity: Option<string>,
    githubId: Option<string>,
    url: Option<string>,
    cves: seq<string>,
    id: Option<string>,
    title: Option<string>,
    advisory: Option<string>,
    overview: Option<string>)

  /** An element of `via`: an object, a plain reference, or anything else. */
  datatype ViaItem =
    | Details(
        githubId: Option<string>, url: Option<string>, source: Option<string>, title: Option<string>,
        name: Option<string>, advisory: Option<string>)
    | Reference(text: string)
    | OtherItem

  datatype Via = Items(items: seq<ViaItem>) | Single(text: string) | OtherVia

  datatype Vulnerability = Vulnerability(name: string, severity: Option<string>, via: Via)

  datatype Audit = Audit(advisories: Option<seq<Advisory>>, vulnerabilities: Option<seq<Vulnerability>>)

  /** Python's `a or b or ...`: the first operand that is present and not empty. */
  function FirstOf(options: seq<Option<string>>): Option<string> {
    if options == [] then None
    else if Text(options[0]) != "" then options[0]
    else FirstOf(options[1..])
  }

  function PickAdvisoryId(a: Advisory): Option<string> {
    FirstOf([a.githubId, a.url, if a.cves == [] then None else Some(a.cves[0]), a.id, a.title, a.advisory, a.overview])
  }

  function AdvisoryFinding(a: Advisory): Finding {
    Finding(
      FirstOf([a.moduleName, a.name]), a.severity, PickAdvisoryId(a),
      FirstOf([a.title, a.advisory, a.overview, a.url]))
  }

  function ItemId(i: ViaItem): Option<string> {
    match i
    case Details(g, u, s, t, n, _) => FirstOf([g, u, s, t, n])
    case Reference(text) => FirstOf([Some(text)])
    case OtherItem => None
  }

  function ItemTitle(i: ViaItem): Option<string> {
    match i
    case Details(_, u, s, t, _, a) => FirstOf([t, u, a, s])
    case Reference(text) => FirstOf([Some(text)])
    case OtherItem => None
  }

  /** The present values of a sequence, in order. */
  function Present(options: seq<Option<string>>): seq<string> {
    if options == [] then []
    else
      var last := options[|options| - 1];
      Present(options[..|options| - 1]) + (if last.Some? then [last.value] else [])
  }

  function JoinTitles(titles: seq<string>): string {
    if titles == [] then ""
    else if |titles| == 1 then titles[0]
    else JoinTitles(titles[..|titles| - 1]) + "; " + titles[|titles| - 1]
  }

  function ViaIds(via: Via): seq<string> {
    match via
    case Items(items) => Present(MapSeq(items, ItemId))
    case Single(text) => Present([FirstOf([Some(text)])])
    case OtherVia => []
  }

  function ViaTitles(via: Via): seq<string> {
    match via
    case Items(items) => Present(MapSeq(items, ItemTitle))
    case Single(text) => Present([FirstOf([Some(text)])])
    case OtherVia => []
  }

  function ViaFinding(v: Vulnerability): string -> Finding {
    id => Finding(Some(v.name), v.severity, Some(id), Some(JoinTitles(ViaTitles(v.via))))
  }

  function OwnFindings(v: Vulnerability): seq<Finding> {
    MapSeq(ViaIds(v.via), ViaFinding(v))
  }

  function VulnerabilityFindings(vs: seq<Vulnerability>): seq<Finding> {
    FlatMap(vs, OwnFindings)
  }

  function FindingsOf(audit: Audit): seq<Finding> {
    (if audit.advisories.Some? then MapSeq(audit.advisories.value, AdvisoryFinding) else []) +
    (if audit.vulnerabilities.Some? then VulnerabilityFindings(audit.vulnerabilities.value) else [])
  }

  /** The generator `iter_vulns`, collected. */
  method IterVulns(audit: Audit) returns (fs: seq<Finding>)
    ensures fs == FindingsOf(audit)
  {
    fs := [];
    if audit.advisories.Some? {
      fs := IterAdvisories(audit.advisories.value);
    }
    if audit.vulnerabilities.Some? {
      var more := IterVulnerabilities(audit.vulnerabilities.value);
      fs := fs + more;
    }
  }

  method IterAdvisories(advisories: seq<Advisory>) returns (fs: seq<Finding>)
    ensures fs == MapSeq(advisories, AdvisoryFinding)
  {
    fs := [];
    for i := 0 to |advisories|
      invariant fs == MapSeq(advisories[..i], AdvisoryFinding)
    {
      assert advisories[..i + 1] == advisories[..i] + [advisories[i]];
      MapSeqMore(advisories[..i], advisories[i], AdvisoryFinding);
      fs := fs + [AdvisoryFinding(advisories[i])];
    }
    assert advisories[..|advisories|] == advisories;
  }

  method IterVulnerabilities(vs: seq<Vulnerability>) returns (fs: seq<Finding>)
    ensures fs == VulnerabilityFindings(vs)
  {
    fs := [];
    for i := 0 to |vs|
      invariant fs == VulnerabilityFindings(vs[..i])
    {
      assert vs[..i + 1][..i] == vs[..i];
      var more := VulnFindings(vs[i]);
      fs := fs + more;
    }
    assert vs[..|vs|] == vs;
  }

  method VulnFindings(v: Vulnerability) returns (fs: seq<Finding>)
    ensures fs == OwnFindings(v)
  {
    fs := [];
    var ids, titles := CollectVia(v.via);
    for k := 0 to |ids|
      invariant fs == MapSeq(ids[..k], ViaFinding(v))
    {
      assert ids[..k + 1] == ids[..k] + [ids[k]];
      MapSeqMore(ids[..k], ids[k], ViaFinding(v));
      fs := fs + [Finding(Some(v.name), v.severity, Some(ids[k]), Some(JoinTitles(titles)))];
    }
    assert ids[..|ids|] == ids;
  }

  lemma PresentMore(options: seq<Option<string>>, o: Option<string>)
    ensures Present(options + [o]) == Present(options) + (if o.Some? then [o.value] else [])
  {
    assert (options + [o])[..|options|] == options;
  }

  method CollectVia(via: Via) returns (ids: seq<string>, titles: seq<string>)
    ensures ids == ViaIds(via) && titles == ViaTitles(via)
  {
    var advisories: seq<Option<string>>, names: seq<Option<string>> := [], [];
    match via {
      case Items(items) =>
        for i := 0 to |items|
          invariant Present(advisories) == Present(MapSeq(items[..i], ItemId))
          invariant Present(names) == Present(MapSeq(items[..i], ItemTitle))
        {
          var item := items[i];
          assert items[..i + 1] == items[..i] + [item];
          MapSeqMore(items[..i], item, ItemId);
          MapSeqMore(items[..i], item, ItemTitle);
          PresentMore(MapSeq(items[..i], ItemId), ItemId(item));
          PresentMore(MapSeq(items[..i], ItemTitle), ItemTitle(item));
          if item.Details? || item.Reference? {
            PresentMore(advisories, ItemId(item));
            PresentMore(names, ItemTitle(item));
            advisories := advisories + [ItemId(item)];
            names := names + [ItemTitle(item)];
          }
        }
        assert items[..|items|] == items;
      case Single(text) =>
        advisories, names := [FirstOf([Some(text)])], [FirstOf([Some(text)])];
      case OtherVia =>
    }
    ids, titles := Present(advisories), Present(names);
  }

  /** A vulnerability is seen exactly through the identifiers in its `via`; without one it is not seen. */
  lemma VulnerabilitySeen(vs: seq<Vulnerability>, f: Finding)
    ensures f in VulnerabilityFindings(vs) <==> exists v :: v in vs && SeenThrough(v, f)
  {
    InFlatMap(vs, OwnFindings, f);
    forall v | v in vs
      ensures f in OwnFindings(v) <==> SeenThrough(v, f)
    {
      InMapSeq(ViaIds(v.via), ViaFinding(v), f);
    }
  }

  ghost predicate SeenThrough(v: Vulnerability, f: Finding) {
    exists id :: id in ViaIds(v.via) && ViaFinding(v)(id) == f
  }

  // ----- which identifier, name and title a finding has

  /** `r` is the first of the options that is present and not empty, if there is one. */
  ghost predicate Ranked(options: seq<Option<string>>, r: Option<string>) {
    if r.None? then forall i :: 0 <= i < |options| ==> Text(options[i]) == ""
    else
      r.value != "" && exists i ::
        0 <= i < |options| && options[i] == r && forall j :: 0 <= j < i ==> Text(options[j]) == ""
  }

  lemma {:induction false} FirstOfIsRanked(options: seq<Option<string>>)
    ensures Ranked(options, FirstOf(options))
  {
    if options != [] && Text(options[0]) == "" {
      var r, rest := FirstOf(options), options[1..];
      FirstOfIsRanked(rest);
      assert forall i :: 0 < i < |options| ==> options[i] == rest[i - 1];
      if r.Some? {
        var i :| 0 <= i < |rest| && rest[i] == r && forall j :: 0 <= j < i ==> Text(rest[j]) == "";
        assert options[i + 1] == r;
      }
    }
  }

  /** What the finding of an advisory says, field by field. */
  ghost predicate Reports(a: Advisory, f: Finding) {
    && Ranked([a.moduleName, a.name], f.name)
    && f.severity == a.severity
    && Ranked([a.githubId, a.url, if a.cves == [] then None else Some(a.cves[0]), a.id, a.title, a.advisory,
               a.overview], f.advisory)
    && Ranked([a.title, a.advisory, a.overview, a.url], f.title)
  }

  /** The advisories of a report are its first findings, in order. */
  lemma AdvisoryReported(audit: Audit, i: nat)
    requires audit.advisories.Some? && i < |audit.advisories.value|
    ensures i < |FindingsOf(audit)| && Reports(audit.advisories.value[i], FindingsOf(audit)[i])
  {
    var a := audit.advisories.value[i];
    assert FindingsOf(audit)[i] == AdvisoryFinding(a);
    FirstOfIsRanked([a.moduleName, a.name]);
    FirstOfIsRanked([a.githubId, a.url, if a.cves == [] then None else Some(a.cves[0]), a.id, a.title, a.advisory,
                     a.overview]);
    FirstOfIsRanked([a.title, a.advisory, a.overview, a.url]);
  }

  /** The identifier of a `via` item. */
  ghost predicate ItemIdIs(item: ViaItem, r: Option<string>) {
    match item
    case Details(githubId, url, source, title, name, _) => Ranked([githubId, url, source, title, name], r)
    case Reference(text) => Ranked([Some(text)], r)
    case OtherItem => r == None
  }

  /** The title of a `via` item. */
  ghost predicate ItemTitleIs(item: ViaItem, r: Option<string>) {
    match item
    case Details(_, url, source, title, _, advisory) => Ranked([title, url, advisory, source], r)
    case Reference(text) => Ranked([Some(text)], r)
    case OtherItem => r == None
  }

  lemma ItemsAreRanked(item: ViaItem)
    ensures ItemIdIs(item, ItemId(item)) && ItemTitleIs(item, ItemTitle(item))
  {
    match item {
      case Details(g, u, s, t, n, a) =>
        FirstOfIsRanked([g, u, s, t, n]);
        FirstOfIsRanked([t, u, a, s]);
      case Reference(text) => FirstOfIsRanked([Some(text)]);
      case OtherItem =>
    }
  }

  function IsPresent(): Option<string> -> bool {
    (o: Option<string>) => o.Some?
  }

  /** What is present is, in order, what the options that hold something hold. */
  lemma {:induction false} PresentIsFiltered(options: seq<Option<string>>)
    ensures |Filter(options, IsPresent())| == |Present(options)|
    ensures forall i :: 0 <= i < |Present(options)| ==> Filter(options, IsPresent())[i] == Some(Present(options)[i])
  {
    if options != [] {
      var init, o := options[..|options| - 1], options[|options| - 1];
      assert options == init + [o];
      PresentIsFiltered(init);
      FilterStep(init, IsPresent(), o);
      PresentMore(init, o);
    }
  }

  /** The values that the items of a list have, in order; an item without one is passed over. */
  ghost predicate Collects(items: seq<ViaItem>, valueIs: (ViaItem, Option<string>) -> bool, values: seq<string>) {
    exists picks: seq<nat> ::
      && |picks| == |values|
      && (forall i, j :: 0 <= i < j < |picks| ==> picks[i] < picks[j])
      && (forall i :: 0 <= i < |picks| ==> picks[i] < |items| && valueIs(items[picks[i]], Some(values[i])))
      && (forall k :: 0 <= k < |items| && k !in picks ==> valueIs(items[k], None))
  }

  ghost function IdIs(): (ViaItem, Option<string>) -> bool {
    (item, r) => ItemIdIs(item, r)
  }

  ghost function TitleIs(): (ViaItem, Option<string>) -> bool {
    (item, r) => ItemTitleIs(item, r)
  }

  lemma Collected(items: seq<ViaItem>, f: ViaItem -> Option<string>, valueIs: (ViaItem, Option<string>) -> bool)
    requires forall item :: valueIs(item, f(item))
    ensures Collects(items, valueIs, Present(MapSeq(items, f)))
  {
    var options := MapSeq(items, f);
    var picks := FilterPicks(options, IsPresent());
    PresentIsFiltered(options);
    forall i | 0 <= i < |picks|
      ensures picks[i] < |items| && valueIs(items[picks[i]], Some(Present(options)[i]))
    {
      assert options[picks[i]] == f(items[picks[i]]);
    }
    forall k | 0 <= k < |items| && k !in picks
      ensures valueIs(items[k], None)
    {
      assert options[k] == f(items[k]) && !IsPresent()(options[k]);
    }
  }

  /** The identifiers and titles that a `via` value carries, in order. */
  ghost predicate Carries(via: Via, ids: seq<string>, titles: seq<string>) {
    match via
    case Items(items) => Collects(items, IdIs(), ids) && Collects(items, TitleIs(), titles)
    case Single(text) => ids == titles == if text == "" then [] else [text]
    case OtherVia => ids == titles == []
  }

  lemma ViaCarries(via: Via)
    ensures Carries(via, ViaIds(via), ViaTitles(via))
  {
    match via {
      case Items(items) =>
        forall item
          ensures ItemIdIs(item, ItemId(item)) && ItemTitleIs(item, ItemTitle(item))
        {
          ItemsAreRanked(item);
        }
        Collected(items, ItemId, IdIs());
        Collected(items, ItemTitle, TitleIs());
      case Single(text) =>
        FirstOfOne(text);
        PresentOne(FirstOf([Some(text)]));
      case OtherVia =>
    }
  }

  lemma FirstOfOne(text: string)
    ensures FirstOf([Some(text)]) == if text == "" then None else Some(text)
  {
    assert [Some(text)][0] == Some(text);
    FirstOfIsRanked([Some(text)]);
  }

  lemma PresentOne(o: Option<string>)
    ensures Present([o]) == if o.Some? then [o.value] else []
  {
    PresentMore([], o);
    assert [] + [o] == [o];
  }

  /** A vulnerability is reported once for each identifier that it carries, in order. */
  lemma VulnerabilityReported(v: Vulnerability) returns (ids: seq<string>, titles: seq<string>)
    ensures Carries(v.via, ids, titles) && |OwnFindings(v)| == |ids|
    ensures forall i :: 0 <= i < |ids| ==>
      OwnFindings(v)[i] == Finding(Some(v.name), v.severity, Some(ids[i]), Some(JoinTitles(titles)))
  {
    ids, titles := ViaIds(v.via), ViaTitles(v.via);
    ViaCarries(v.via);
  }

  lemma JoinStep(a: seq<string>, t: string)
    requires a != []
    ensures JoinTitles(a + [t]) == JoinTitles(a) + "; " + t
  {
    assert (a + [t])[..|a|] == a;
  }

  lemma JoinFew(t: string)
    ensures JoinTitles([]) == "" && JoinTitles([t]) == t
  {
  }

  lemma Regrouped(x: string, y: string, z: string)
    ensures x + "; " + y + "; " + z == x + "; " + (y + "; " + z)
  {
  }

  /** Titles are joined by a semicolon and a blank. */
  lemma {:induction false} JoinTitlesConcat(a: seq<string>, b: seq<string>)
    requires a != [] && b != []
    ensures JoinTitles(a + b) == JoinTitles(a) + "; " + JoinTitles(b)
  {
    var init, t := b[..|b| - 1], b[|b| - 1];
    assert b == init + [t];
    if init == [] {
      assert b == [t];
      JoinFew(t);
      JoinStep(a, t);
    } else {
      JoinTitlesConcat(a, init);
      JoinStep(init, t);
      JoinStep(a + init, t);
      assert a + b == (a + init) + [t];
      Regrouped(JoinTitles(a), JoinTitles(init), t);
    }
  }

  lemma FindingsConcat(vs: seq<Vulnerability>, ws: seq<Vulnerability>)
    ensures VulnerabilityFindings(vs + ws) == VulnerabilityFindings(vs) + VulnerabilityFindings(ws)
  {
    FlatMapConcat(vs, ws, OwnFindings);
  }

  /** Behind the advisories come the findings of the vulnerabilities, one vulnerability after the other. */
  lemma VulnerabilitiesFollow(audit: Audit, vs: seq<Vulnerability>, v: Vulnerability, ws: seq<Vulnerability>)
    requires audit.vulnerabilities == Some(vs + [v] + ws)
    ensures
      var n := if audit.advisories.Some? then |audit.advisories.value| else 0;
      && n <= |FindingsOf(audit)|
      && FindingsOf(audit)[n..] == VulnerabilityFindings(vs) + OwnFindings(v) + VulnerabilityFindings(ws)
  {
    assert vs + [v] + ws == (vs + [v]) + ws;
    FindingsConcat(vs + [v], ws);
    FindingsConcat(vs, [v]);
    assert [v][..0] == [];
    assert VulnerabilityFindings([v]) == OwnFindings(v);
  }

  // ----- the gate, from text to exit status

  /** `None` is an exception raised while parsing. */
  method RunGate(env: Env, text: string, audit: Audit) returns (status: Option<int>)
    ensures status.None? <==> Parse(text).None?
    ensures status.Some? ==>
      status.value == if Accepts(env, ExceptionsOf(Parse(text).value), FindingsOf(audit)) then 0 else 1
  {
    var es := ParseExceptions(text);
    if es.None? {
      return None;
    }
    var fs := IterVulns(audit);
    var code := Verdict(env, ExceptionsOf(es.value), fs);
    return Some(code);
  }

  /** The five fields of an exception, written one per line in any styles, are the ones that count. */
  lemma WrittenExceptionIsRead(p: Pair, a: Pair, s: Pair, m: Pair, d: Pair)
    requires p.key == "package" && a.key == "advisory" && s.key == "severity"
    requires m.key == "mitigation" && d.key == "expires_on"
    requires IsValue(p) && IsValue(a) && IsValue(s) && IsValue(m) && IsValue(d)
    ensures Parse(Print([[p, a, s, m, d]])).Some?
    ensures ExceptionsOf(Parse(Print([[p, a, s, m, d]])).value) ==
      [Exception(p.value, a.value, s.value, m.value, d.value)]
  {
    FiveArePrintable(p, a, s, m, d);
    OneRecord([p, a, s, m, d]);
    FiveFields(p, a, s, m, d);
  }

  const FIELDS := ["package", "advisory", "severity", "mitigation", "expires_on"]

  /** A record that lacks one of the fields, or leaves it empty, is never accepted. */
  lemma EveryFieldIsRequired(env: Env, records: seq<Record>, i: nat, field: string, fs: seq<Finding>)
    requires i < |records| && field in FIELDS && (field in records[i] ==> records[i][field] == "")
    ensures !Accepts(env, ExceptionsOf(records), fs)
  {
    assert Get(records[i], field) == "";
    assert !Complete(ExceptionOf(records[i]));
    var es := ExceptionsOf(records);
    assert es[i] == ExceptionOf(records[i]) && es[i] in es;
  }

  lemma OneRecord(pairs: Pairs)
    requires Printable(pairs)
    ensures Parse(Print([pairs])).Some?
    ensures ExceptionsOf(Parse(Print([pairs])).value) == [ExceptionOf(DictOf(pairs))]
  {
    ParsePrinted([pairs]);
    assert Dicts([pairs]) == [DictOf(pairs)];
  }

  lemma FiveArePrintable(p: Pair, a: Pair, s: Pair, m: Pair, d: Pair)
    requires p.key == "package" && a.key == "advisory" && s.key == "severity"
    requires m.key == "mitigation" && d.key == "expires_on"
    requires IsValue(p) && IsValue(a) && IsValue(s) && IsValue(m) && IsValue(d)
    ensures Printable([p, a, s, m, d])
  {
    ExceptionKeys();
    PlainWord(p.key);
    PlainWord(a.key);
    PlainWord(s.key);
    PlainWord(m.key);
    PlainWord(d.key);
    FivePairs(p, a, s, m, d);
  }

  lemma FivePairs(p: Pair, a: Pair, s: Pair, m: Pair, d: Pair)
    requires IsPlainKey(p.key) && IsPlainKey(a.key) && IsPlainKey(s.key) && IsPlainKey(m.key) && IsPlainKey(d.key)
    requires IsValue(p) && IsValue(a) && IsValue(s) && IsValue(m) && IsValue(d)
    ensures Printable([p, a, s, m, d])
  {
  }

  /** A word of small letters and underscores that is not one of the headers. */
  ghost predicate IsWord(k: string) {
    && k != "" && k != "version" && k != "exceptions"
    && forall i :: 0 <= i < |k| ==> 'a' <= k[i] <= 'z' || k[i] == '_'
  }

  lemma ExceptionKeys()
    ensures IsWord("package") && IsWord("advisory") && IsWord("severity")
    ensures IsWord("mitigation") && IsWord("expires_on")
  {
    assert "package"[0] != "version"[0] && "expires_on"[2] != "exceptions"[2];
    assert "mitigation"[0] != "exceptions"[0];
  }

  lemma PlainWord(k: string)
    requires IsWord(k)
    ensures IsPlainKey(k)
  {
    assert Tight(k);
    StripTight(k);
    StartsWithHead(k, "- ");
  }

  lemma DictMore(pairs: Pairs, kv: Pair)
    ensures DictOf(pairs + [kv]) == DictOf(pairs)[kv.key := kv.value]
  {
    assert (pairs + [kv])[..|pairs|] == pairs;
  }

  lemma FiveFields(p: Pair, a: Pair, s: Pair, m: Pair, d: Pair)
    requires p.key == "package" && a.key == "advisory" && s.key == "severity"
    requires m.key == "mitigation" && d.key == "expires_on"
    ensures ExceptionOf(DictOf([p, a, s, m, d])) == Exception(p.value, a.value, s.value, m.value, d.value)
  {
    DictMore([], p);
    DictMore([p], a);
    DictMore([p, a], s);
    DictMore([p, a, s], m);
    DictMore([p, a, s, m], d);
    assert [] + [p] == [p] && [p] + [a] == [p, a] && [p, a] + [s] == [p, a, s];
    assert [p, a, s] + [m] == [p, a, s, m] && [p, a, s, m] + [d] == [p, a, s, m, d];
    assert |"package"| == 7 && |"advisory"| == 8 && |"severity"| == 8 && |"mitigation"| == 10 && |"expires_on"| == 10;
    assert "mitigation"[0] != "expires_on"[0] && "advisory"[0] != "severity"[0];
  }

  /** A printed exception list is judged as the records it was printed from. */
  lemma PrintedExceptionsAreJudged(env: Env, records: seq<Pairs>, es: seq<Exception>, fs: seq<Finding>)
    requires AllPrintable(records) && multiset(ExceptionsOf(Dicts(records))) == multiset(es)
    ensures Parse(Print(records)).Some?
    ensures Accepts(env, ExceptionsOf(Parse(Print(records)).value), fs) <==> Accepts(env, es, fs)
  {
    ParsePrinted(records);
    ExceptionOrderIsIrrelevant(env, ExceptionsOf(Dicts(records)), es, fs);
  }
}
