/**
  Probe-evidence import (tools/import_model_route_probes.py).

  Probe files are merged into one snapshot per (account id, host), and each snapshot becomes one
  guarded UPDATE of an account row.  Timestamps are integers: one format is assumed, in which the
  string order used by the merge and the timestamp order used by the UPDATE agree.
*/
module ProbeImport {
  import opened Common

  datatype Verdict = Supported | Unsupported

  datatype ProbeRow = ProbeRow(model: string, result: Option<string>, httpStatus: Option<int>, error: string)

  datatype Entry = Entry(id: int, baseUrl: string, checkedAt: int, models: seq<ProbeRow>)

  type Key = (int, string)

  datatype Snapshot = Snapshot(baseUrl: string, checkedAt: int, models: map<string, Verdict>)

  // ----- definitive verdicts

  function Lower(s: string): string {
    seq(|s|, i requires 0 <= i < |s| => LowerChar(s[i]))
  }

  lemma LowerIs(s: string)
    ensures |Lower(s)| == |s| && forall i :: 0 <= i < |s| ==> IsLowerOf(s[i], Lower(s)[i])
  {
    forall i | 0 <= i < |s|
      ensures IsLowerOf(s[i], Lower(s)[i])
    {
      LowerCharIs(s[i], Lower(s)[i]);
    }
  }

  predicate OccursAt(s: string, t: string, i: int) {
    0 <= i && i + |t| <= |s| && s[i..i + |t|] == t
  }

  predicate Contains(s: string, t: string) {
    exists i | 0 <= i <= |s| :: OccursAt(s, t, i)
  }

  const MARKERS: seq<string> := [
    "invalid model format", "model not found", "model_not_found", "model is not available",
    "model not available", "model is not found", "unknown model", "unsupported model",
    "does not support this model"]

  /** The pattern `requested model '[^']+' is not available`, with `s[i..j]` the quoted name. */
  predicate NamesMissingModel(s: string, i: int, j: int) {
    && 0 <= i < j <= |s|
    && (forall k | i <= k < j :: s[k] != '\'')
    && OccursAt(s, "requested model '", i - 17)
    && OccursAt(s, "' is not available", j)
  }

  predicate HasMissingModel(s: string) {
    exists i, j | 0 <= i <= |s| && 0 <= j <= |s| :: NamesMissingModel(s, i, j)
  }

  function DefinitiveResult(row: ProbeRow): Option<Verdict> {
    if row.result == Some("supported") then Some(Supported)
    else
      var message := Lower(row.error);
      if row.httpStatus !in {Some(400), Some(404), Some(410), Some(422)} then None
      else if HasMissingModel(message) || exists m | m in MARKERS :: Contains(message, m) then Some(Unsupported)
      else None
  }

  lemma ContainsTransitive(s: string, t: string, u: string)
    requires Contains(s, t) && Contains(t, u)
    ensures Contains(s, u)
  {
    var i :| 0 <= i <= |s| && OccursAt(s, t, i);
    var j :| 0 <= j <= |t| && OccursAt(t, u, j);
    forall k | 0 <= k < |u|
      ensures s[i + j..i + j + |u|][k] == u[k]
    {
      assert s[i..i + |t|][j + k] == t[j..j + |u|][k];
    }
    assert OccursAt(s, u, i + j);
  }

  lemma MarkersNameAModel(m: string)
    requires m in MARKERS
    ensures Contains(m, "model")
  {
    assert OccursAt("invalid model format", "model", 8);
    assert OccursAt("model not found", "model", 0);
    assert OccursAt("model_not_found", "model", 0);
    assert OccursAt("model is not available", "model", 0);
    assert OccursAt("model not available", "model", 0);
    assert OccursAt("model is not found", "model", 0);
    assert OccursAt("unknown model", "model", 8);
    assert OccursAt("unsupported model", "model", 12);
    assert OccursAt("does not support this model", "model", 22);
  }

  // ----- the verdict, read off the row

  /** The phrases that name a model as the cause, in any letter case. */
  ghost predicate IsPhrase(p: string) {
    Lower(p) in {
      "invalid model format", "model not found", "model_not_found", "model is not available",
      "model not available", "model is not found", "unknown model", "unsupported model",
      "does not support this model"}
  }

  /** The error text consists of one of those phrases and what surrounds it. */
  ghost predicate HasPhrase(error: string) {
    exists a, p, b :: Phrased(error, a, p, b)
  }

  ghost predicate Phrased(error: string, a: string, p: string, b: string) {
    error == a + p + b && IsPhrase(p)
  }

  /** The error text says that a quoted model is not available, in any letter case. */
  ghost predicate QuotesModel(error: string) {
    exists a, p, name, q, b :: Quoting(error, a, p, name, q, b)
  }

  ghost predicate Quoting(error: string, a: string, p: string, name: string, q: string, b: string) {
    && error == a + p + name + q + b
    && Lower(p) == "requested model '" && Lower(q) == "' is not available"
    && name != "" && '\'' !in name
  }

  lemma LowerPart(s: string, i: nat, j: nat)
    requires i <= j <= |s|
    ensures Lower(s)[i..j] == Lower(s[i..j])
  {
  }

  lemma PhraseIsMarker(error: string, a: string, p: string, b: string)
    requires Phrased(error, a, p, b)
    ensures exists m | m in MARKERS :: Contains(Lower(error), m)
  {
    LowerPart(error, |a|, |a| + |p|);
    assert error[|a|..|a| + |p|] == p;
    assert OccursAt(Lower(error), Lower(p), |a|);
    assert Contains(Lower(error), Lower(p));
    assert Lower(p) in MARKERS;
  }

  lemma MarkerIsPhrase(error: string, m: string)
    requires m in MARKERS && Contains(Lower(error), m)
    ensures HasPhrase(error)
  {
    var i :| 0 <= i <= |error| && OccursAt(Lower(error), m, i);
    var j := i + |m|;
    LowerPart(error, i, j);
    ThreeParts(error, i, j);
    assert Phrased(error, error[..i], error[i..j], error[j..]);
  }

  lemma ThreeParts(s: string, i: nat, j: nat)
    requires i <= j <= |s|
    ensures s == s[..i] + s[i..j] + s[j..]
  {
  }

  lemma PhraseIff(error: string)
    ensures HasPhrase(error) <==> exists m | m in MARKERS :: Contains(Lower(error), m)
  {
    if a, p, b :| Phrased(error, a, p, b) {
      PhraseIsMarker(error, a, p, b);
    }
    if m :| m in MARKERS && Contains(Lower(error), m) {
      MarkerIsPhrase(error, m);
    }
  }

  lemma QuotesModelIff(error: string)
    ensures QuotesModel(error) <==> HasMissingModel(Lower(error))
  {
    if a, p, name, q, b :| Quoting(error, a, p, name, q, b) {
      QuotedIsMissing(error, a, p, name, q, b);
    }
    if HasMissingModel(Lower(error)) {
      MissingIsQuoted(error);
    }
  }

  lemma QuotedIsMissing(error: string, a: string, p: string, name: string, q: string, b: string)
    requires Quoting(error, a, p, name, q, b)
    ensures HasMissingModel(Lower(error))
  {
    var s, i := Lower(error), |a| + |p|;
    var j := i + |name|;
    assert |p| == |Lower(p)| == 17 && |q| == |Lower(q)|;
    assert error[|a|..i] == p && error[j..j + |q|] == q;
    LowerPart(error, |a|, i);
    LowerPart(error, j, j + |q|);
    assert forall k | i <= k < j :: s[k] != '\'' by {
      assert forall k | i <= k < j :: error[k] == name[k - i] && name[k - i] in name;
    }
    assert NamesMissingModel(s, i, j);
  }

  lemma MissingIsQuoted(error: string)
    requires HasMissingModel(Lower(error))
    ensures QuotesModel(error)
  {
    var s := Lower(error);
    var i, j :| 0 <= i <= |s| && 0 <= j <= |s| && NamesMissingModel(s, i, j);
    MissingAt(error, i, j);
  }

  lemma MissingAt(error: string, i: nat, j: nat)
    requires i <= |error| && j <= |error| && NamesMissingModel(Lower(error), i, j)
    ensures QuotesModel(error)
  {
    var n := |"' is not available"|;
    var name := error[i..j];
    LowerPart(error, i - 17, i);
    LowerPart(error, j, j + n);
    LowerPart(error, i, j);
    FiveParts(error, i - 17, i, j, j + n);
    assert '\'' !in name by { UnquotedPart(name); }
    assert Quoting(error, error[..i - 17], error[i - 17..i], name, error[j..j + n], error[j + n..]);
  }

  lemma UnquotedPart(name: string)
    requires forall k :: 0 <= k < |name| ==> Lower(name)[k] != '\''
    ensures '\'' !in name
  {
    assert forall k :: 0 <= k < |name| ==> Lower(name)[k] == LowerChar(name[k]);
  }

  lemma FiveParts(s: string, i: nat, j: nat, k: nat, l: nat)
    requires i <= j <= k <= l <= |s|
    ensures s == s[..i] + s[i..j] + s[j..k] + s[k..l] + s[l..]
  {
    ThreeParts(s, i, j);
    ThreeParts(s, k, l);
    assert s[..k] == s[..i] + s[i..j] + s[j..k];
  }

  /**
    The verdict of a row: supported when the probe says so, unsupported exactly for four statuses with
    a text that blames the model, and otherwise none.
  */
  lemma VerdictIff(row: ProbeRow)
    ensures DefinitiveResult(row) == Some(Supported) <==> row.result == Some("supported")
    ensures DefinitiveResult(row) == Some(Unsupported) <==>
      && row.result != Some("supported")
      && (row.httpStatus == Some(400) || row.httpStatus == Some(404)
          || row.httpStatus == Some(410) || row.httpStatus == Some(422))
      && (HasPhrase(row.error) || QuotesModel(row.error))
  {
    PhraseIff(row.error);
    QuotesModelIff(row.error);
  }

  /** An ordinary 404, or any failure that does not talk about a model, is never evidence. */
  lemma UnsupportedNamesAModel(row: ProbeRow)
    requires DefinitiveResult(row) == Some(Unsupported)
    ensures row.httpStatus in {Some(400), Some(404), Some(410), Some(422)}
    ensures Contains(Lower(row.error), "model")
  {
    var message := Lower(row.error);
    if HasMissingModel(message) {
      var i, j :| 0 <= i <= |message| && 0 <= j <= |message| && NamesMissingModel(message, i, j);
      var prefix := "requested model '";
      assert OccursAt(prefix, "model", 10);
      assert OccursAt(message, prefix, i - 17);
      ContainsTransitive(message, prefix, "model");
    } else {
      var m :| m in MARKERS && Contains(message, m);
      MarkersNameAModel(m);
      ContainsTransitive(message, m, "model");
    }
  }

  lemma LowerConcat(a: string, b: string)
    ensures Lower(a + b) == Lower(a) + Lower(b)
  {
  }

  lemma OccursInContext(s: string, t: string, i: int, a: string, b: string)
    requires OccursAt(s, t, i)
    ensures OccursAt(a + s + b, t, |a| + i)
  {
    assert (a + s + b)[|a| + i..|a| + i + |t|] == s[i..i + |t|];
  }

  lemma MissingModelInContext(s: string, a: string, b: string)
    requires HasMissingModel(s)
    ensures HasMissingModel(a + s + b)
  {
    var t := a + s + b;
    var i, j :| 0 <= i <= |s| && 0 <= j <= |s| && NamesMissingModel(s, i, j);
    OccursInContext(s, "requested model '", i - 17, a, b);
    OccursInContext(s, "' is not available", j, a, b);
    assert forall k | |a| + i <= k < |a| + j :: t[k] == s[k - |a|];
    assert NamesMissingModel(t, |a| + i, |a| + j);
  }

  /** Wrapping an explicit model error in more text never hides it. */
  lemma VerdictSurvivesContext(row: ProbeRow, a: string, b: string)
    requires DefinitiveResult(row) == Some(Unsupported)
    ensures DefinitiveResult(row.(error := a + row.error + b)) == Some(Unsupported)
  {
    var s := Lower(row.error);
    LowerConcat(a + row.error, b);
    LowerConcat(a, row.error);
    var wrapped := Lower(a) + s + Lower(b);
    assert Lower(a + row.error + b) == wrapped;
    if HasMissingModel(s) {
      MissingModelInContext(s, Lower(a), Lower(b));
    } else {
      var m :| m in MARKERS && Contains(s, m);
      var i :| 0 <= i <= |s| && OccursAt(s, m, i);
      OccursInContext(s, m, i, Lower(a), Lower(b));
      assert Contains(wrapped, m);
    }
  }

  // ----- merging probe files into snapshots

  /** Python's `rstrip('/')` and SQL's `rtrim(_, '/')`. */
  function RTrim(s: string): string {
    if s != "" && s[|s| - 1] == '/' then RTrim(s[..|s| - 1]) else s
  }

  ghost predicate OnlySlashes(s: string) {
    forall i :: 0 <= i < |s| ==> s[i] == '/'
  }

  /** `t` is `s` without its trailing slashes. */
  ghost predicate IsHostOf(s: string, t: string) {
    t <= s && OnlySlashes(s[|t|..]) && (t == "" || t[|t| - 1] != '/')
  }

  /** Trimming removes the trailing slashes, all of them and nothing else. */
  lemma {:induction false} RTrimIs(s: string)
    ensures IsHostOf(s, RTrim(s))
  {
    if s != "" && s[|s| - 1] == '/' {
      RTrimIs(s[..|s| - 1]);
    }
  }

  lemma HostIsUnique(s: string, t: string, u: string)
    requires IsHostOf(s, t) && IsHostOf(s, u)
    ensures t == u
  {
    assert forall k :: |t| <= k < |s| ==> s[k] == s[|t|..][k - |t|];
    assert forall k :: |u| <= k < |s| ==> s[k] == s[|u|..][k - |u|];
  }

  /** Two addresses that differ at most in their trailing slashes. */
  ghost predicate SameHost(a: string, b: string) {
    exists host, x, y :: a == host + x && b == host + y && OnlySlashes(x) && OnlySlashes(y)
  }

  lemma RTrimPadded(host: string, x: string)
    requires OnlySlashes(x)
    ensures RTrim(host + x) == RTrim(host)
  {
    var s, t := host + x, RTrim(host);
    RTrimIs(host);
    RTrimIs(s);
    assert OnlySlashes(s[|t|..]) by {
      assert s[|t|..] == host[|t|..] + x;
    }
    HostIsUnique(s, t, RTrim(s));
  }

  /** Trimmed addresses are equal exactly for the same host. */
  lemma SameHostIff(a: string, b: string)
    ensures SameHost(a, b) <==> RTrim(a) == RTrim(b)
  {
    if host, x, y :| a == host + x && b == host + y && OnlySlashes(x) && OnlySlashes(y) {
      RTrimPadded(host, x);
      RTrimPadded(host, y);
    }
    if RTrim(a) == RTrim(b) {
      RTrimIs(a);
      RTrimIs(b);
      var host := RTrim(a);
      assert a == host + a[|host|..] && b == host + b[|host|..];
    }
  }

  function KeyOf(e: Entry): Key {
    (e.id, RTrim(e.baseUrl))
  }

  function Max(a: int, b: int): int {
    if a < b then b else a
  }

  /** The verdict dictionary after the rows of one entry have been visited in order. */
  function Verdicts(models: map<string, Verdict>, rows: seq<ProbeRow>): map<string, Verdict> {
    if rows == [] then models
    else
      var before := Verdicts(models, rows[..|rows| - 1]);
      var row := rows[|rows| - 1];
      match DefinitiveResult(row)
      case None => before
      case Some(v) => before[row.model := v]
  }

  /** What one entry alone contributes. */
  function SnapshotOf(e: Entry): Snapshot {
    Snapshot(RTrim(e.baseUrl), e.checkedAt, Verdicts(map[], e.models))
  }

  /** The later snapshot's verdicts win; the larger timestamp stays. */
  function Join(a: Snapshot, b: Snapshot): Snapshot {
    Snapshot(a.baseUrl, Max(a.checkedAt, b.checkedAt), a.models + b.models)
  }

  function Merge(a: map<Key, Snapshot>, b: map<Key, Snapshot>): map<Key, Snapshot> {
    map k | k in a.Keys + b.Keys ::
      if k !in b then a[k] else if k !in a then b[k] else Join(a[k], b[k])
  }

  function Absorb(c: map<Key, Snapshot>, e: Entry): map<Key, Snapshot> {
    var k := KeyOf(e);
    c[k := if k in c then Join(c[k], SnapshotOf(e)) else SnapshotOf(e)]
  }

  /** The dictionary before the empty snapshots are filtered out. */
  function Combined(es: seq<Entry>): map<Key, Snapshot> {
    if es == [] then map[] else Absorb(Combined(es[..|es| - 1]), es[|es| - 1])
  }

  function Evidence(es: seq<Entry>): map<Key, Snapshot> {
    var c := Combined(es);
    map k | k in c && c[k].models != map[] :: c[k]
  }

  lemma VerdictsExtend(models: map<string, Verdict>, rows: seq<ProbeRow>)
    ensures Verdicts(models, rows) == models + Verdicts(map[], rows)
  {
    if rows != [] {
      VerdictsExtend(models, rows[..|rows| - 1]);
    }
  }

  /** The two outer loops of `snapshots`, over files and over the accounts of a file. */
  method Snapshots(files: seq<seq<Entry>>) returns (evidence: map<Key, Snapshot>)
    ensures evidence == Evidence(Flatten(files))
  {
    var combined: map<Key, Snapshot> := map[];
    for f := 0 to |files|
      invariant combined == Combined(Flatten(files[..f]))
    {
      combined := VisitFile(combined, files[f], Flatten(files[..f]));
      assert files[..f + 1][..f] == files[..f];
    }
    assert files[..|files|] == files;
    evidence := map k | k in combined && combined[k].models != map[] :: combined[k];
  }

  lemma CombinedStep(es: seq<Entry>, e: Entry)
    ensures Combined(es + [e]) == Absorb(Combined(es), e)
  {
    assert (es + [e])[..|es|] == es;
  }

  /** The inner one of these loops, after the entries `before`. */
  method VisitFile(c: map<Key, Snapshot>, accounts: seq<Entry>, ghost before: seq<Entry>)
    returns (combined: map<Key, Snapshot>)
    requires c == Combined(before)
    ensures combined == Combined(before + accounts)
  {
    combined := c;
    assert before + accounts[..0] == before;
    for a := 0 to |accounts|
      invariant combined == Combined(before + accounts[..a])
    {
      combined := VisitAccount(combined, accounts[a]);
      CombinedStep(before + accounts[..a], accounts[a]);
      assert before + accounts[..a + 1] == before + accounts[..a] + [accounts[a]];
    }
    assert accounts[..|accounts|] == accounts;
  }

  /** One account of one file: open its snapshot, raise the timestamp, then visit its rows. */
  method VisitAccount(c: map<Key, Snapshot>, account: Entry) returns (combined: map<Key, Snapshot>)
    ensures combined == Absorb(c, account)
  {
    combined := c;
    var key := (account.id, RTrim(account.baseUrl));
    if key !in combined {
      combined := combined[key := Snapshot(key.1, account.checkedAt, map[])];
    }
    combined := combined[key := combined[key].(checkedAt := Max(combined[key].checkedAt, account.checkedAt))];
    ghost var start := combined[key];
    for r := 0 to |account.models|
      invariant combined == c[key := start.(models := Verdicts(start.models, account.models[..r]))]
    {
      var row := account.models[r];
      assert account.models[..r + 1][..r] == account.models[..r];
      var status := DefinitiveResult(row);
      if status.Some? {
        combined := combined[key := combined[key].(models := combined[key].models[row.model := status.value])];
      }
    }
    assert account.models[..|account.models|] == account.models;
    VerdictsExtend(start.models, account.models);
    assert map[] + Verdicts(map[], account.models) == Verdicts(map[], account.models);
  }

  // ----- what a snapshot means

  function RowsFor(es: seq<Entry>, k: Key): seq<ProbeRow> {
    if es == [] then []
    else
      var e := es[|es| - 1];
      RowsFor(es[..|es| - 1], k) + (if KeyOf(e) == k then e.models else [])
  }

  function VerdictOn(row: ProbeRow, m: string): Option<Verdict> {
    if row.model == m then DefinitiveResult(row) else None
  }

  /** `v` is the verdict of the last definitive row about model `m`. */
  ghost predicate IsLastVerdict(rows: seq<ProbeRow>, m: string, v: Verdict) {
    exists i ::
      && 0 <= i < |rows|
      && VerdictOn(rows[i], m) == Some(v)
      && forall j :: i < j < |rows| ==> VerdictOn(rows[j], m) == None
  }

  ghost predicate HasEntry(es: seq<Entry>, k: Key) {
    exists e :: e in es && KeyOf(e) == k
  }

  ghost predicate IsLatest(es: seq<Entry>, k: Key, t: int) {
    && (exists e :: e in es && KeyOf(e) == k && e.checkedAt == t)
    && (forall e :: e in es && KeyOf(e) == k ==> e.checkedAt <= t)
  }

  lemma LastVerdictStep(init: seq<ProbeRow>, row: ProbeRow, m: string, v: Verdict)
    ensures IsLastVerdict(init + [row], m, v) <==>
      if VerdictOn(row, m).Some? then VerdictOn(row, m) == Some(v) else IsLastVerdict(init, m, v)
  {
    var rows := init + [row];
    if VerdictOn(row, m) == Some(v) {
      assert VerdictOn(rows[|init|], m) == Some(v);
    } else if IsLastVerdict(init, m, v) && VerdictOn(row, m).None? {
      var i :| 0 <= i < |init| && VerdictOn(init[i], m) == Some(v)
        && forall j :: i < j < |init| ==> VerdictOn(init[j], m) == None;
      assert VerdictOn(rows[i], m) == Some(v);
      assert forall j :: i < j < |rows| ==> VerdictOn(rows[j], m) == None;
    }
    if IsLastVerdict(rows, m, v) && VerdictOn(row, m) != Some(v) {
      var i :| 0 <= i < |rows| && VerdictOn(rows[i], m) == Some(v)
        && forall j :: i < j < |rows| ==> VerdictOn(rows[j], m) == None;
      assert VerdictOn(rows[|init|], m) == None;
      assert VerdictOn(init[i], m) == Some(v);
      assert forall j :: i < j < |init| ==> VerdictOn(init[j], m) == VerdictOn(rows[j], m);
    }
  }

  lemma {:induction false} VerdictsAreLast(rows: seq<ProbeRow>, m: string, v: Verdict)
    ensures (m in Verdicts(map[], rows) && Verdicts(map[], rows)[m] == v) <==> IsLastVerdict(rows, m, v)
  {
    if rows != [] {
      var init, row := rows[..|rows| - 1], rows[|rows| - 1];
      VerdictsAreLast(init, m, v);
      LastVerdictStep(init, row, m, v);
      assert rows == init + [row];
    }
  }

  lemma {:induction false} VerdictsConcat(a: seq<ProbeRow>, b: seq<ProbeRow>)
    ensures Verdicts(map[], a + b) == Verdicts(map[], a) + Verdicts(map[], b)
  {
    if b == [] {
      assert a + b == a;
    } else {
      var init, row := b[..|b| - 1], b[|b| - 1];
      VerdictsConcat(a, init);
      OneMoreRow(a, init, row);
      assert b == init + [row] && a + b == (a + init) + [row];
    }
  }

  lemma OneMoreRow(a: seq<ProbeRow>, b: seq<ProbeRow>, row: ProbeRow)
    requires Verdicts(map[], a + b) == Verdicts(map[], a) + Verdicts(map[], b)
    ensures Verdicts(map[], (a + b) + [row]) == Verdicts(map[], a) + Verdicts(map[], b + [row])
  {
    VerdictsStep(a + b, row);
    VerdictsStep(b, row);
    if DefinitiveResult(row).Some? {
      UpdatedLater(Verdicts(map[], a), Verdicts(map[], b), row.model, DefinitiveResult(row).value);
    }
  }

  lemma UpdatedLater(a: map<string, Verdict>, b: map<string, Verdict>, m: string, v: Verdict)
    ensures (a + b)[m := v] == a + b[m := v]
  {
  }

  lemma VerdictsStep(rows: seq<ProbeRow>, row: ProbeRow)
    ensures Verdicts(map[], rows + [row]) ==
      if DefinitiveResult(row).None? then Verdicts(map[], rows)
      else Verdicts(map[], rows)[row.model := DefinitiveResult(row).value]
  {
    assert (rows + [row])[..|rows|] == rows;
  }

  lemma {:induction false} CombinedModels(es: seq<Entry>, k: Key)
    ensures k in Combined(es) ==> Combined(es)[k].models == Verdicts(map[], RowsFor(es, k))
    ensures k !in Combined(es) ==> RowsFor(es, k) == []
  {
    if es != [] {
      var init, e := es[..|es| - 1], es[|es| - 1];
      CombinedModels(init, k);
      VerdictsConcat(RowsFor(init, k), e.models);
      assert map[] + Verdicts(map[], e.models) == Verdicts(map[], e.models);
      assert KeyOf(e) != k ==> RowsFor(init, k) + [] == RowsFor(init, k);
    }
  }

  lemma {:induction false} CombinedContents(es: seq<Entry>, k: Key)
    ensures k in Combined(es) <==> HasEntry(es, k)
    ensures k in Combined(es) ==> Combined(es)[k].baseUrl == k.1 && IsLatest(es, k, Combined(es)[k].checkedAt)
  {
    if es != [] {
      var init, e := es[..|es| - 1], es[|es| - 1];
      CombinedContents(init, k);
      assert es == init + [e];
      assert forall x :: x in es <==> x in init || x == e;
      if KeyOf(e) == k {
        assert e in es;
        if k in Combined(init) {
          var t := Combined(init)[k].checkedAt;
          var d :| d in init && KeyOf(d) == k && d.checkedAt == t;
          assert d in es;
          assert IsLatest(es, k, Max(t, e.checkedAt));
        }
      }
    }
  }

  lemma {:induction false} SomeVerdict(rows: seq<ProbeRow>)
    ensures Verdicts(map[], rows) != map[] <==> exists r :: r in rows && DefinitiveResult(r).Some?
  {
    if rows != [] {
      SomeVerdict(rows[..|rows| - 1]);
      var row := rows[|rows| - 1];
      assert rows == rows[..|rows| - 1] + [row];
      if DefinitiveResult(row).Some? {
        assert row.model in Verdicts(map[], rows);
      }
    }
  }

  /**
    The evidence dictionary, without its loops: a key is present exactly when one of its rows is
    definitive, it keeps the latest timestamp over every entry of the key, and every model has the
    verdict of its last definitive row in traversal order.
  */
  lemma SnapshotsSpec(es: seq<Entry>, k: Key)
    ensures k in Evidence(es) <==> exists r :: r in RowsFor(es, k) && DefinitiveResult(r).Some?
    ensures k in Evidence(es) ==>
      var s := Evidence(es)[k];
      && s.baseUrl == k.1
      && IsLatest(es, k, s.checkedAt)
      && forall m, v :: (m in s.models && s.models[m] == v) <==> IsLastVerdict(RowsFor(es, k), m, v)
  {
    CombinedContents(es, k);
    CombinedModels(es, k);
    SomeVerdict(RowsFor(es, k));
    if k in Evidence(es) {
      forall m, v
        ensures (m in Evidence(es)[k].models && Evidence(es)[k].models[m] == v) <==> IsLastVerdict(RowsFor(es, k), m, v)
      {
        VerdictsAreLast(RowsFor(es, k), m, v);
      }
    }
  }

  /** The dictionary of concatenated inputs is the merge of the separate dictionaries. */
  lemma {:induction false} CombinedConcat(a: seq<Entry>, b: seq<Entry>)
    ensures Combined(a + b) == Merge(Combined(a), Combined(b))
  {
    if b == [] {
      assert a + b == a;
    } else {
      var init, e := b[..|b| - 1], b[|b| - 1];
      CombinedConcat(a, init);
      assert (a + b)[..|a + b| - 1] == a + init;
      AbsorbIntoMerge(Combined(a), Combined(init), e);
    }
  }

  lemma JoinAssociates(a: Snapshot, b: Snapshot, c: Snapshot)
    ensures Join(Join(a, b), c) == Join(a, Join(b, c))
  {
    assert a.models + b.models + c.models == a.models + (b.models + c.models);
  }

  lemma AbsorbIntoMerge(a: map<Key, Snapshot>, b: map<Key, Snapshot>, e: Entry)
    ensures Absorb(Merge(a, b), e) == Merge(a, Absorb(b, e))
  {
    var k, s := KeyOf(e), SnapshotOf(e);
    var l, b' := Absorb(Merge(a, b), e), Absorb(b, e);
    assert l == Merge(a, b)[k := if k in Merge(a, b) then Join(Merge(a, b)[k], s) else s];
    assert b' == b[k := if k in b then Join(b[k], s) else s];
    if k in a && k in b {
      JoinAssociates(a[k], b[k], s);
    }
  }

  // ----- the guarded UPDATE

  datatype Probes = Probes(baseUrl: Option<string>, checkedAt: Option<int>, models: Option<map<string, Verdict>>)

  /** The `extra` document: the evidence under `model_route_probes`, and every other key. */
  datatype Extra = Extra(probes: Option<Probes>, others: map<string, string>)

  datatype Row = Row(deleted: bool, kind: string, credBase: Option<string>, extra: Option<Extra>, updatedAt: int)
  {
    function Probes(): Option<Probes> {
      if extra.Some? then extra.value.probes else None
    }

    function Others(): map<string, string> {
      if extra.Some? then extra.value.others else map[]
    }

    function CheckedAt(): Option<int> {
      if Probes().Some? then Probes().value.checkedAt else None
    }

    /** The stored verdicts, as far as they belong to `host`. */
    function ModelsFor(host: string): map<string, Verdict> {
      if Probes().Some? && Probes().value.baseUrl == Some(host) && Probes().value.models.Some?
      then Probes().value.models.value
      else map[]
    }

    /** A live API-key row that currently points at `host`. */
    predicate Targets(host: string) {
      !deleted && kind == "apikey" && credBase.Some? && RTrim(credBase.value) == host
    }
  }

  predicate Guard(row: Row, s: Snapshot) {
    row.Targets(s.baseUrl) && (row.CheckedAt().None? || row.CheckedAt().value <= s.checkedAt)
  }

  /** `row` with new evidence; every other key of `extra` is carried over. */
  function Stored(row: Row, host: string, checkedAt: int, models: map<string, Verdict>, now: int): Row {
    row.(
      extra := Some(Extra(Some(Probes(Some(host), Some(checkedAt), Some(models))), row.Others())),
      updatedAt := now)
  }

  function Apply(row: Row, s: Snapshot, now: int): Row {
    if !Guard(row, s) then row
    else Stored(row, s.baseUrl, s.checkedAt, row.ModelsFor(s.baseUrl) + s.models, now)
  }

  type Db = map<int, Row>

  function Execute(db: Db, k: Key, s: Snapshot, now: int): Db {
    if k.0 in db then db[k.0 := Apply(db[k.0], s, now)] else db
  }

  /** The statements of one batch, in the order of `keys`, inside one transaction. */
  function Batch(db: Db, keys: seq<Key>, evidence: map<Key, Snapshot>, now: int): Db
    requires forall k :: k in keys ==> k in evidence
  {
    if keys == [] then db
    else Execute(Batch(db, keys[..|keys| - 1], evidence, now), keys[|keys| - 1], evidence[keys[|keys| - 1]], now)
  }

  /** `keys` lists every key of the evidence once, in some order. */
  ghost predicate Lists(keys: seq<Key>, evidence: map<Key, Snapshot>) {
    Distinct(keys) && forall k :: k in keys <==> k in evidence
  }

  ghost predicate KeyedByHost(evidence: map<Key, Snapshot>) {
    forall k :: k in evidence ==> evidence[k].baseUrl == k.1
  }

  /** What a batch does to one row: at most the statement for the row's own host matters. */
  function ImportRow(id: int, row: Row, evidence: map<Key, Snapshot>, now: int): Row {
    if row.credBase.Some? && (id, RTrim(row.credBase.value)) in evidence
    then Apply(row, evidence[(id, RTrim(row.credBase.value))], now)
    else row
  }

  lemma EvidenceKeyedByHost(es: seq<Entry>)
    ensures KeyedByHost(Evidence(es))
  {
    forall k | k in Evidence(es)
      ensures Evidence(es)[k].baseUrl == k.1
    {
      SnapshotsSpec(es, k);
    }
  }

  ghost predicate BatchUpTo(db: Db, keys: seq<Key>, evidence: map<Key, Snapshot>, now: int, id: int)
    requires forall k :: k in keys ==> k in evidence
    requires id in db && id in Batch(db, keys, evidence, now)
  {
    Batch(db, keys, evidence, now)[id] ==
    if db[id].credBase.Some? && (id, RTrim(db[id].credBase.value)) in keys
    then Apply(db[id], evidence[(id, RTrim(db[id].credBase.value))], now)
    else db[id]
  }

  lemma {:induction false} BatchOnRow(db: Db, keys: seq<Key>, evidence: map<Key, Snapshot>, now: int)
    requires KeyedByHost(evidence) && Distinct(keys)
    requires forall k :: k in keys ==> k in evidence
    ensures Batch(db, keys, evidence, now).Keys == db.Keys
    ensures forall id :: id in db ==> BatchUpTo(db, keys, evidence, now, id)
  {
    if keys != [] {
      var init, k := keys[..|keys| - 1], keys[|keys| - 1];
      BatchOnRow(db, init, evidence, now);
      assert keys == init + [k];
      forall id | id in db
        ensures BatchUpTo(db, keys, evidence, now, id)
      {
        assert BatchUpTo(db, init, evidence, now, id);
        assert k !in init;
      }
    }
  }

  /**
    The order of the statements of one batch does not matter: at most one key per account matches
    the row's own host, so the whole batch acts on every row as that one statement.
  */
  lemma BatchIsPointwise(db: Db, keys: seq<Key>, es: seq<Entry>, now: int)
    requires Lists(keys, Evidence(es))
    ensures Batch(db, keys, Evidence(es), now) == map id | id in db :: ImportRow(id, db[id], Evidence(es), now)
  {
    EvidenceKeyedByHost(es);
    BatchOnRow(db, keys, Evidence(es), now);
    forall id | id in db
      ensures Batch(db, keys, Evidence(es), now)[id] == ImportRow(id, db[id], Evidence(es), now)
    {
      assert BatchUpTo(db, keys, Evidence(es), now, id);
    }
  }

  /** Any two orders of the same batch give the same database. */
  lemma BatchCommutes(db: Db, keys: seq<Key>, keys': seq<Key>, es: seq<Entry>, now: int)
    requires Lists(keys, Evidence(es)) && Lists(keys', Evidence(es))
    ensures Batch(db, keys, Evidence(es), now) == Batch(db, keys', Evidence(es), now)
  {
    BatchIsPointwise(db, keys, es, now);
    BatchIsPointwise(db, keys', es, now);
  }

  lemma ApplyIsIdempotent(row: Row, s: Snapshot, now: int, later: int)
    ensures Apply(Apply(row, s, now), s, later).(updatedAt := 0) == Apply(row, s, now).(updatedAt := 0)
  {
    assert row.ModelsFor(s.baseUrl) + s.models + s.models == row.ModelsFor(s.baseUrl) + s.models;
  }

  lemma ImportIsIdempotent(id: int, row: Row, evidence: map<Key, Snapshot>, now: int, later: int)
    ensures
      var once := ImportRow(id, row, evidence, now);
      ImportRow(id, once, evidence, later).(updatedAt := 0) == once.(updatedAt := 0)
  {
    if row.credBase.Some? && (id, RTrim(row.credBase.value)) in evidence {
      ApplyIsIdempotent(row, evidence[(id, RTrim(row.credBase.value))], now, later);
    }
  }

  /** Applying the same batch again, at any later time, leaves the same evidence. */
  lemma BatchIsIdempotent(db: Db, keys: seq<Key>, es: seq<Entry>, now: int, later: int)
    requires Lists(keys, Evidence(es))
    ensures
      var once := Batch(db, keys, Evidence(es), now);
      var twice := Batch(once, keys, Evidence(es), later);
      once.Keys == twice.Keys && forall id :: id in once ==> twice[id].(updatedAt := 0) == once[id].(updatedAt := 0)
  {
    var once := Batch(db, keys, Evidence(es), now);
    var twice := Batch(once, keys, Evidence(es), later);
    BatchIsPointwise(db, keys, es, now);
    BatchIsPointwise(once, keys, es, later);
    EvidenceKeyedByHost(es);
    forall id | id in once
      ensures twice[id].(updatedAt := 0) == once[id].(updatedAt := 0)
    {
      ImportIsIdempotent(id, db[id], Evidence(es), now, later);
    }
  }

  // ----- one import against many

  /** Importing the entries one at a time, each as an import of its own. */
  function OneByOne(id: int, row: Row, es: seq<Entry>, now: int): Row {
    if es == [] then row
    else ImportRow(id, OneByOne(id, row, es[..|es| - 1], now), Evidence([es[|es| - 1]]), now)
  }

  predicate Definitive(e: Entry) {
    Verdicts(map[], e.models) != map[]
  }

  /** The entries of one key, in order. */
  function EntriesFor(es: seq<Entry>, k: Key): seq<Entry> {
    Filter(es, e => KeyOf(e) == k)
  }

  ghost predicate InOrder(es: seq<Entry>) {
    forall i, j :: 0 <= i <= j < |es| ==> es[i].checkedAt <= es[j].checkedAt
  }

  /** The timestamp of the last entry that has a definitive verdict. */
  function LastDefinitive(es: seq<Entry>): Option<int> {
    if es == [] then None
    else if Definitive(es[|es| - 1]) then Some(es[|es| - 1].checkedAt)
    else LastDefinitive(es[..|es| - 1])
  }

  ghost predicate NotBefore(a: Option<int>, b: Option<int>) {
    a.Some? ==> b.Some? && a.value <= b.value
  }

  ghost predicate NoNewer(row: Row, mine: seq<Entry>) {
    mine != [] && row.CheckedAt().Some? ==> row.CheckedAt().value <= mine[0].checkedAt
  }

  function ModelsIn(es: seq<Entry>, k: Key): map<string, Verdict> {
    if k in Combined(es) then Combined(es)[k].models else map[]
  }

  lemma SingleEvidence(e: Entry)
    ensures Evidence([e]) == if Definitive(e) then map[KeyOf(e) := SnapshotOf(e)] else map[]
  {
    assert [e][..0] == [];
    assert Combined([e]) == map[KeyOf(e) := SnapshotOf(e)];
  }

  /** How the entries and the verdicts of key `k` grow by one more entry. */
  lemma EntriesStep(init: seq<Entry>, e: Entry, k: Key)
    ensures EntriesFor(init + [e], k) == EntriesFor(init, k) + (if KeyOf(e) == k then [e] else [])
    ensures ModelsIn(init + [e], k) == ModelsIn(init, k) + (if KeyOf(e) == k then SnapshotOf(e).models else map[])
    ensures LastDefinitive(EntriesFor(init + [e], k)) ==
      if KeyOf(e) == k && Definitive(e) then Some(e.checkedAt) else LastDefinitive(EntriesFor(init, k))
  {
    assert (init + [e])[..|init|] == init;
    var before := EntriesFor(init, k);
    assert (before + [e])[..|before|] == before;
    assert before + [] == before;
    assert map[] + SnapshotOf(e).models == SnapshotOf(e).models;
    assert ModelsIn(init, k) + map[] == ModelsIn(init, k);
  }

  lemma UnionEmpty(a: map<string, Verdict>, b: map<string, Verdict>)
    ensures a + b == map[] <==> a == map[] && b == map[]
  {
    if a != map[] {
      var m :| m in a;
      assert m in a + b;
    }
    if b != map[] {
      var m :| m in b;
      assert m in a + b;
    }
  }

  lemma {:induction false} DefinitiveHasModels(es: seq<Entry>, k: Key)
    ensures LastDefinitive(EntriesFor(es, k)).None? <==> ModelsIn(es, k) == map[]
  {
    if es != [] {
      var init, e := es[..|es| - 1], es[|es| - 1];
      DefinitiveHasModels(init, k);
      EntriesStep(init, e, k);
      assert es == init + [e];
      UnionEmpty(ModelsIn(init, k), if KeyOf(e) == k then SnapshotOf(e).models else map[]);
    }
  }

  lemma ImportOfOne(id: int, row: Row, e: Entry, host: string, now: int)
    requires row.Targets(host)
    ensures ImportRow(id, row, Evidence([e]), now) ==
      if KeyOf(e) == (id, host) && Definitive(e) then Apply(row, SnapshotOf(e), now) else row
  {
    SingleEvidence(e);
  }

  function StoredAt(row: Row, host: string, t: Option<int>, models: map<string, Verdict>, now: int): Row {
    if t.None? then row else Stored(row, host, t.value, row.ModelsFor(host) + models, now)
  }

  lemma ApplyToStored(row: Row, host: string, t: Option<int>, models: map<string, Verdict>, s: Snapshot, now: int)
    requires row.Targets(host) && s.baseUrl == host
    requires t.Some? ==> t.value <= s.checkedAt
    requires t.None? ==> models == map[] && NotBefore(row.CheckedAt(), Some(s.checkedAt))
    ensures Apply(StoredAt(row, host, t, models, now), s, now) ==
      StoredAt(row, host, Some(s.checkedAt), models + s.models, now)
  {
    var was := row.ModelsFor(host);
    assert was + (models + s.models) == was + models + s.models;
    assert t.None? ==> models + s.models == s.models;
  }

  /** The ordering facts that one more entry of key `k` gives. */
  lemma OrderStep(row: Row, init: seq<Entry>, e: Entry, k: Key)
    requires InOrder(EntriesFor(init + [e], k)) && NoNewer(row, EntriesFor(init + [e], k))
    ensures InOrder(EntriesFor(init, k)) && NoNewer(row, EntriesFor(init, k))
    ensures KeyOf(e) == k ==>
      var t := LastDefinitive(EntriesFor(init, k));
      (t.Some? ==> t.value <= e.checkedAt) && (t.None? ==> NotBefore(row.CheckedAt(), Some(e.checkedAt)))
  {
    var before, mine := EntriesFor(init, k), EntriesFor(init + [e], k);
    EntriesStep(init, e, k);
    assert forall i :: 0 <= i < |before| ==> mine[i] == before[i];
    if KeyOf(e) == k {
      assert mine[|before|] == e;
      LastDefinitiveIsMember(before);
    }
  }

  /** One more import on the state that the earlier ones left. */
  lemma StoredStep(id: int, row: Row, e: Entry, host: string, t: Option<int>, models: map<string, Verdict>, now: int)
    requires row.Targets(host)
    requires KeyOf(e) == (id, host) && t.Some? ==> t.value <= e.checkedAt
    requires KeyOf(e) == (id, host) && t.None? ==> models == map[] && NotBefore(row.CheckedAt(), Some(e.checkedAt))
    ensures ImportRow(id, StoredAt(row, host, t, models, now), Evidence([e]), now) ==
      if KeyOf(e) == (id, host) && Definitive(e)
      then StoredAt(row, host, Some(e.checkedAt), models + SnapshotOf(e).models, now)
      else StoredAt(row, host, t, models, now)
  {
    ImportOfOne(id, StoredAt(row, host, t, models, now), e, host, now);
    if KeyOf(e) == (id, host) && Definitive(e) {
      ApplyToStored(row, host, t, models, SnapshotOf(e), now);
    }
  }

  /** An entry of another key, or without a verdict, adds nothing to key `k`. */
  lemma SilentEntry(init: seq<Entry>, e: Entry, k: Key)
    requires KeyOf(e) != k || !Definitive(e)
    ensures ModelsIn(init + [e], k) == ModelsIn(init, k)
    ensures LastDefinitive(EntriesFor(init + [e], k)) == LastDefinitive(EntriesFor(init, k))
  {
    EntriesStep(init, e, k);
    assert KeyOf(e) == k ==> SnapshotOf(e).models == map[];
    assert ModelsIn(init, k) + map[] == ModelsIn(init, k);
  }

  lemma {:induction false} OneByOneState(id: int, row: Row, es: seq<Entry>, host: string, now: int)
    requires row.Targets(host)
    requires InOrder(EntriesFor(es, (id, host))) && NoNewer(row, EntriesFor(es, (id, host)))
    ensures OneByOne(id, row, es, now) ==
      StoredAt(row, host, LastDefinitive(EntriesFor(es, (id, host))), ModelsIn(es, (id, host)), now)
  {
    if es != [] {
      var k, init, e := (id, host), es[..|es| - 1], es[|es| - 1];
      assert es == init + [e];
      OrderStep(row, init, e, k);
      OneByOneState(id, row, init, host, now);
      DefinitiveHasModels(init, k);
      StoredStep(id, row, e, host, LastDefinitive(EntriesFor(init, k)), ModelsIn(init, k), now);
      if KeyOf(e) == k && Definitive(e) {
        EntriesStep(init, e, k);
      } else {
        SilentEntry(init, e, k);
      }
    }
  }

  lemma {:induction false} LastDefinitiveIsMember(es: seq<Entry>)
    ensures LastDefinitive(es).Some? ==> exists e :: e in es && LastDefinitive(es) == Some(e.checkedAt)
  {
    if es != [] && !Definitive(es[|es| - 1]) {
      LastDefinitiveIsMember(es[..|es| - 1]);
    }
  }

  /**
    One import of many entries against importing them one at a time, for a live row whose stored
    evidence is no newer than its first entry and whose entries come in time order.  The two agree
    exactly when no entry of the row comes after its last definitive one with a later timestamp: a
    batch lets such an entry raise `checked_at`, an import of its own drops it.
  */
  lemma OneImportEqualsMany(id: int, row: Row, es: seq<Entry>, host: string, now: int)
    requires row.Targets(host)
    requires InOrder(EntriesFor(es, (id, host))) && NoNewer(row, EntriesFor(es, (id, host)))
    ensures
      var mine := EntriesFor(es, (id, host));
      ImportRow(id, row, Evidence(es), now) == OneByOne(id, row, es, now) <==>
      (LastDefinitive(mine).None? || LastDefinitive(mine) == Some(mine[|mine| - 1].checkedAt))
  {
    var k := (id, host);
    var mine := EntriesFor(es, k);
    OneByOneState(id, row, es, host, now);
    DefinitiveHasModels(es, k);
    CombinedContents(es, k);
    FilterMembers(es, (e: Entry) => KeyOf(e) == k);
    if LastDefinitive(mine).Some? {
      var t := Combined(es)[k].checkedAt;
      assert t == mine[|mine| - 1].checkedAt by {
        var d :| d in es && KeyOf(d) == k && d.checkedAt == t;
        assert d in mine;
        var i :| 0 <= i < |mine| && mine[i] == d;
        assert mine[|mine| - 1] in es;
      }
      assert ImportRow(id, row, Evidence(es), now) == Stored(row, host, t, row.ModelsFor(host) + ModelsIn(es, k), now);
    }
  }

  /** In particular they agree when every entry of the row has a definitive verdict. */
  lemma DefinitiveEntriesImportAlike(id: int, row: Row, es: seq<Entry>, host: string, now: int)
    requires row.Targets(host)
    requires InOrder(EntriesFor(es, (id, host))) && NoNewer(row, EntriesFor(es, (id, host)))
    requires forall e :: e in es && KeyOf(e) == (id, host) ==> Definitive(e)
    ensures ImportRow(id, row, Evidence(es), now) == OneByOne(id, row, es, now)
  {
    var mine := EntriesFor(es, (id, host));
    FilterMembers(es, (e: Entry) => KeyOf(e) == (id, host));
    OneImportEqualsMany(id, row, es, host, now);
    if mine != [] {
      assert mine[|mine| - 1] in es;
    }
  }

  /** Without that condition they differ: a later entry without a verdict moves the timestamp of a batch. */
  lemma SilentEntryMovesTheTimestamp(now: int)
    returns (id: int, row: Row, es: seq<Entry>, host: string)
    ensures row.Targets(host)
    ensures InOrder(EntriesFor(es, (id, host))) && NoNewer(row, EntriesFor(es, (id, host)))
    ensures ImportRow(id, row, Evidence(es), now) != OneByOne(id, row, es, now)
  {
    id, host := 1, "h";
    row := Row(false, "apikey", Some("h"), None, 0);
    var probe := ProbeRow("m", Some("supported"), None, "");
    var first, last := Entry(1, "h", 1, [probe]), Entry(1, "h", 2, []);
    es := [first, last];
    assert EntriesFor(es, (id, host)) == es && LastDefinitive(es) == Some(1) by {
      assert Definitive(first) by {
        assert [probe][..0] == [];
        assert "m" in Verdicts(map[], [probe]);
      }
      assert !Definitive(last);
      EntriesStep([], first, (id, host));
      EntriesStep([first], last, (id, host));
      assert [] + [first] == [first] && [first] + [last] == es;
    }
    OneImportEqualsMany(id, row, es, host, now);
  }

  // ----- whole runs

  /** An import, or any change to the columns that the UPDATE only reads. */
  datatype Event =
    | Import(entries: seq<Entry>, now: int)
    | Edit(deleted: bool, kind: string, credBase: Option<string>, at: int)

  function Step(id: int, row: Row, e: Event): Row {
    match e
    case Import(entries, now) => ImportRow(id, row, Evidence(entries), now)
    case Edit(deleted, kind, credBase, at) =>
      row.(deleted := deleted, kind := kind, credBase := credBase, updatedAt := at)
  }

  function Run(id: int, row: Row, events: seq<Event>): Row {
    if events == [] then row else Step(id, Run(id, row, events[..|events| - 1]), events[|events| - 1])
  }

  /** The snapshot an event writes to the row, if its guard lets it. */
  function Written(id: int, row: Row, e: Event): Option<Snapshot> {
    if e.Edit? || row.credBase.None? then None
    else
      var k := (id, RTrim(row.credBase.value));
      var evidence := Evidence(e.entries);
      if k in evidence && Guard(row, evidence[k]) then Some(evidence[k]) else None
  }

  /** The snapshots that passed the guard during a run, oldest first. */
  function Accepted(id: int, row: Row, events: seq<Event>): seq<Snapshot> {
    if events == [] then []
    else
      var init := events[..|events| - 1];
      var w := Written(id, Run(id, row, init), events[|events| - 1]);
      Accepted(id, row, init) + (if w.Some? then [w.value] else [])
  }

  /** The verdicts of the trailing accepted snapshots that share the last host, later ones winning. */
  function Streak(accepted: seq<Snapshot>): map<string, Verdict> {
    var n := |accepted|;
    if n == 0 then map[]
    else if n == 1 || accepted[n - 2].baseUrl != accepted[n - 1].baseUrl then accepted[n - 1].models
    else Streak(accepted[..n - 1]) + accepted[n - 1].models
  }

  function Summary(accepted: seq<Snapshot>): Option<Probes> {
    if accepted == [] then None
    else
      var last := accepted[|accepted| - 1];
      Some(Probes(Some(last.baseUrl), Some(last.checkedAt), Some(Streak(accepted))))
  }

  ghost predicate Ascending(accepted: seq<Snapshot>) {
    forall i, j :: 0 <= i <= j < |accepted| ==> accepted[i].checkedAt <= accepted[j].checkedAt
  }

  lemma StreakStep(accepted: seq<Snapshot>, s: Snapshot)
    ensures Streak(accepted + [s]) ==
      (if accepted != [] && accepted[|accepted| - 1].baseUrl == s.baseUrl then Streak(accepted) else map[]) + s.models
  {
    var all := accepted + [s];
    assert all[..|accepted|] == accepted;
    assert map[] + s.models == s.models;
  }

  lemma AscendingStep(accepted: seq<Snapshot>, s: Snapshot)
    requires Ascending(accepted) && (accepted == [] || accepted[|accepted| - 1].checkedAt <= s.checkedAt)
    ensures Ascending(accepted + [s])
  {
  }

  lemma StepSummarised(row: Row, accepted: seq<Snapshot>, s: Snapshot, now: int)
    requires row.Probes() == Summary(accepted) && Ascending(accepted) && Guard(row, s)
    ensures Apply(row, s, now).Probes() == Summary(accepted + [s]) && Ascending(accepted + [s])
  {
    StreakStep(accepted, s);
    AscendingStep(accepted, s);
  }

  /**
    The stored evidence after any run of imports and edits, from a row without evidence: it is the
    summary of the accepted snapshots, whose timestamps never go back, and nothing else in `extra`
    has changed.
  */
  lemma {:induction false} RunSummarised(id: int, row: Row, events: seq<Event>)
    requires row.Probes().None?
    ensures
      var accepted := Accepted(id, row, events);
      var final := Run(id, row, events);
      && final.Probes() == Summary(accepted)
      && Ascending(accepted)
      && final.Others() == row.Others()
  {
    if events != [] {
      var init, e := events[..|events| - 1], events[|events| - 1];
      var before := Run(id, row, init);
      RunSummarised(id, row, init);
      assert Accepted(id, row, init) + [] == Accepted(id, row, init);
      if e.Import? && before.credBase.Some? && (id, RTrim(before.credBase.value)) in Evidence(e.entries) {
        var s := Evidence(e.entries)[(id, RTrim(before.credBase.value))];
        if Guard(before, s) {
          StepSummarised(before, Accepted(id, row, init), s, e.now);
        }
      }
    }
  }

  /** From any row at all, the stored timestamp never decreases between two points of a run. */
  lemma {:induction false} CheckedAtNeverDecreases(id: int, row: Row, events: seq<Event>, i: nat)
    requires i <= |events|
    ensures NotBefore(Run(id, row, events[..i]).CheckedAt(), Run(id, row, events).CheckedAt())
  {
    if i == |events| {
      assert events[..i] == events;
    } else {
      var init := events[..|events| - 1];
      assert init[..i] == events[..i];
      CheckedAtNeverDecreases(id, row, init, i);
    }
  }

  ghost predicate CameFrom(id: int, events: seq<Event>, s: Snapshot) {
    exists e :: e in events && e.Import? && (id, s.baseUrl) in Evidence(e.entries)
      && Evidence(e.entries)[(id, s.baseUrl)] == s
  }

  lemma {:induction false} AcceptedCameFrom(id: int, row: Row, events: seq<Event>)
    ensures forall s :: s in Accepted(id, row, events) ==> CameFrom(id, events, s)
  {
    if events != [] {
      var init, e := events[..|events| - 1], events[|events| - 1];
      AcceptedCameFrom(id, row, init);
      assert events == init + [e];
      forall s | s in Accepted(id, row, events)
        ensures CameFrom(id, events, s)
      {
        if s in Accepted(id, row, init) {
          var d :| d in init && d.Import? && (id, s.baseUrl) in Evidence(d.entries)
            && Evidence(d.entries)[(id, s.baseUrl)] == s;
          assert d in events;
        } else {
          EvidenceKeyedByHost(e.entries);
          assert e in events;
        }
      }
    }
  }

  lemma {:induction false} StreakMember(accepted: seq<Snapshot>, m: string) returns (s: Snapshot)
    requires m in Streak(accepted)
    ensures s in accepted && s.baseUrl == accepted[|accepted| - 1].baseUrl
    ensures m in s.models && s.models[m] == Streak(accepted)[m]
  {
    var n := |accepted|;
    s := accepted[n - 1];
    if m !in s.models {
      s := StreakMember(accepted[..n - 1], m);
    }
  }

  /** `v` is what some import of the run, for this account and `host`, definitively said of `m`. */
  ghost predicate Witnessed(id: int, events: seq<Event>, host: string, m: string, v: Verdict) {
    exists e :: e in events && e.Import? && IsLastVerdict(RowsFor(e.entries, (id, host)), m, v)
  }

  /** Every stored verdict was imported for the stored host, in every reachable state. */
  lemma StoredVerdictsAreWitnessed(id: int, row: Row, events: seq<Event>, m: string)
    requires row.Probes().None?
    requires Run(id, row, events).Probes().Some?
    ensures
      var p := Run(id, row, events).Probes().value;
      && p.baseUrl.Some? && p.checkedAt.Some? && p.models.Some?
      && (m in p.models.value ==> Witnessed(id, events, p.baseUrl.value, m, p.models.value[m]))
  {
    RunSummarised(id, row, events);
    var accepted := Accepted(id, row, events);
    if m in Streak(accepted) {
      var s := StreakMember(accepted, m);
      AcceptedCameFrom(id, row, events);
      assert CameFrom(id, events, s);
      var e :| e in events && e.Import? && (id, s.baseUrl) in Evidence(e.entries)
        && Evidence(e.entries)[(id, s.baseUrl)] == s;
      SnapshotsSpec(e.entries, (id, s.baseUrl));
      assert IsLastVerdict(RowsFor(e.entries, (id, s.baseUrl)), m, s.models[m]);
    }
  }

  // ----- trailing slashes

  /** The same entries, up to trailing slashes of their addresses. */
  ghost predicate SameEntries(es: seq<Entry>, es': seq<Entry>) {
    && |es| == |es'|
    && forall i :: 0 <= i < |es| ==> SameEntry(es[i], es'[i])
  }

  ghost predicate SameEntry(e: Entry, e': Entry) {
    e' == e.(baseUrl := e'.baseUrl) && SameHost(e.baseUrl, e'.baseUrl)
  }

  lemma {:induction false} SlashesShareASnapshot(es: seq<Entry>, es': seq<Entry>)
    requires SameEntries(es, es')
    ensures Combined(es) == Combined(es') && Evidence(es) == Evidence(es')
  {
    if es != [] {
      var n := |es| - 1;
      SlashesShareASnapshot(es[..n], es'[..n]);
      assert SameEntry(es[n], es'[n]);
      SameHostIff(es[n].baseUrl, es'[n].baseUrl);
    }
  }

  /** Trailing slashes matter neither in the probe files nor in the stored address. */
  lemma SlashesDoNotMatter(id: int, row: Row, host: string, es: seq<Entry>, es': seq<Entry>, now: int)
    requires SameEntries(es, es') && row.credBase.Some? && SameHost(row.credBase.value, host)
    ensures ImportRow(id, row.(credBase := Some(host)), Evidence(es'), now) ==
      ImportRow(id, row, Evidence(es), now).(credBase := Some(host))
  {
    SlashesShareASnapshot(es, es');
    SameHostIff(row.credBase.value, host);
    SlashesOfTheRow(id, row, host, Evidence(es), now);
  }

  lemma SlashesOfTheRow(id: int, row: Row, host: string, evidence: map<Key, Snapshot>, now: int)
    requires row.credBase.Some? && RTrim(row.credBase.value) == RTrim(host)
    ensures ImportRow(id, row.(credBase := Some(host)), evidence, now) ==
      ImportRow(id, row, evidence, now).(credBase := Some(host))
  {
  }

  ghost predicate HasProbes(row: Row, p: Probes) {
    row.extra.Some? && row.extra.value.probes == Some(p)
  }

  /** The row that one entry is meant for: live, of its account and host, with no newer evidence. */
  ghost predicate MeantFor(id: int, row: Row, e: Entry) {
    && e.id == id && !row.deleted && row.kind == "apikey"
    && row.credBase.Some? && SameHost(row.credBase.value, e.baseUrl)
    && (forall p :: HasProbes(row, p) && p.checkedAt.Some? ==> p.checkedAt.value <= e.checkedAt)
    && exists r :: r in e.models && DefinitiveResult(r).Some?
  }

  /** What a row holds after the evidence of `e` has been stored, and that nothing else has changed. */
  ghost predicate Holds(row: Row, e: Entry, now: int, r: Row) {
    && r.deleted == row.deleted && r.kind == row.kind && r.credBase == row.credBase && r.updatedAt == now
    && r.extra.Some? && r.extra.value.probes.Some?
    && r.extra.value.others == (if row.extra.Some? then row.extra.value.others else map[])
    && var p := r.extra.value.probes.value;
    && p.baseUrl.Some? && IsHostOf(e.baseUrl, p.baseUrl.value)
    && p.checkedAt == Some(e.checkedAt) && p.models.Some?
    && forall m, v ::
         (m in p.models.value && p.models.value[m] == v) <==>
         || IsLastVerdict(e.models, m, v)
         || (Silent(e.models, m) && StoredFor(row, e.baseUrl, m, v))
  }

  ghost predicate Silent(rows: seq<ProbeRow>, m: string) {
    forall r :: r in rows && r.model == m ==> DefinitiveResult(r).None?
  }

  /** The row already holds verdict `v` on model `m` for the host of `baseUrl`. */
  ghost predicate StoredFor(row: Row, baseUrl: string, m: string, v: Verdict) {
    exists p ::
      && HasProbes(row, p) && p.baseUrl.Some? && p.models.Some?
      && IsHostOf(baseUrl, p.baseUrl.value)
      && m in p.models.value && p.models.value[m] == v
  }

  lemma {:induction false} VerdictKnown(rows: seq<ProbeRow>, m: string)
    ensures m in Verdicts(map[], rows) <==> !Silent(rows, m)
  {
    if rows != [] {
      VerdictKnown(rows[..|rows| - 1], m);
      assert rows == rows[..|rows| - 1] + [rows[|rows| - 1]];
    }
  }

  lemma StoredForIff(row: Row, baseUrl: string, m: string, v: Verdict)
    ensures StoredFor(row, baseUrl, m, v) <==>
      m in row.ModelsFor(RTrim(baseUrl)) && row.ModelsFor(RTrim(baseUrl))[m] == v
  {
    RTrimIs(baseUrl);
    if row.Probes().Some? {
      var p := row.Probes().value;
      assert HasProbes(row, p);
      if p.baseUrl.Some? && IsHostOf(baseUrl, p.baseUrl.value) {
        HostIsUnique(baseUrl, RTrim(baseUrl), p.baseUrl.value);
      }
    }
  }

  /** What one entry writes into a row that it is meant for. */
  function WrittenBy(row: Row, e: Entry, now: int): Row {
    var host := RTrim(e.baseUrl);
    Stored(row, host, e.checkedAt, row.ModelsFor(host) + Verdicts(map[], e.models), now)
  }

  lemma EntryWrites(id: int, row: Row, e: Entry, now: int)
    ensures ImportRow(id, row, Evidence([e]), now) == if MeantFor(id, row, e) then WrittenBy(row, e, now) else row
  {
    SingleEvidence(e);
    SomeVerdict(e.models);
    if row.credBase.Some? {
      SameHostIff(row.credBase.value, e.baseUrl);
    }
    assert row.Probes().Some? ==> HasProbes(row, row.Probes().value);
  }

  lemma WrittenHolds(row: Row, e: Entry, now: int)
    ensures Holds(row, e, now, WrittenBy(row, e, now))
  {
    var stored, verdicts := row.ModelsFor(RTrim(e.baseUrl)), Verdicts(map[], e.models);
    RTrimIs(e.baseUrl);
    forall m, v
      ensures (m in stored + verdicts && (stored + verdicts)[m] == v) <==>
        (IsLastVerdict(e.models, m, v) || (Silent(e.models, m) && StoredFor(row, e.baseUrl, m, v)))
    {
      VerdictsAreLast(e.models, m, v);
      VerdictKnown(e.models, m);
      StoredForIff(row, e.baseUrl, m, v);
    }
  }

  /** One entry stores its verdicts in the row that it is meant for, and changes no other row. */
  lemma EntryIsStored(id: int, row: Row, e: Entry, now: int)
    ensures
      var r := ImportRow(id, row, Evidence([e]), now);
      if MeantFor(id, row, e) then Holds(row, e, now, r) else r == row
  {
    EntryWrites(id, row, e, now);
    WrittenHolds(row, e, now);
  }

  /** A deleted row, a row of another type, or one whose host has no definitive row never changes. */
  lemma ImportSparesOtherRows(id: int, row: Row, es: seq<Entry>, now: int)
    requires row.deleted || row.kind != "apikey" || row.credBase.None?
      || forall r :: r in RowsFor(es, (id, RTrim(row.credBase.value))) ==> DefinitiveResult(r).None?
    ensures ImportRow(id, row, Evidence(es), now) == row
  {
    if row.credBase.Some? {
      SnapshotsSpec(es, (id, RTrim(row.credBase.value)));
    }
  }

  // ----- the SQL text

  function Double(v: string): string {
    if v == "" then "" else Double(v[..|v| - 1]) + (if v[|v| - 1] == '\'' then "''" else [v[|v| - 1]])
  }

  function Quote(v: string): string {
    "'" + Double(v) + "'"
  }

  /** How SQL reads a quoted literal: the value and the text after the closing quote. */
  function ReadLiteral(s: string): Option<(string, string)> {
    if s == "" || s[0] != '\'' then None else ReadBody(s[1..])
  }

  function ReadBody(s: string): Option<(string, string)> {
    if s == "" then None
    else if s[0] != '\'' then Prepend(s[0], ReadBody(s[1..]))
    else if |s| > 1 && s[1] == '\'' then Prepend('\'', ReadBody(s[2..]))
    else Some(("", s[1..]))
  }

  function Prepend(c: char, r: Option<(string, string)>): Option<(string, string)> {
    if r.None? then None else Some(([c] + r.value.0, r.value.1))
  }

  lemma {:induction false} DoubleFront(c: char, v: string)
    ensures Double([c] + v) == (if c == '\'' then "''" else [c]) + Double(v)
  {
    if v == "" {
      assert [c] + v == [c];
      assert [c][..0] == "";
    } else {
      DoubleFront(c, v[..|v| - 1]);
      assert ([c] + v)[..|v|] == [c] + v[..|v| - 1];
    }
  }

  lemma ReadFront(c: char, tail: string)
    requires ReadBody(tail).Some?
    ensures ReadBody((if c == '\'' then "''" else [c]) + tail) == Prepend(c, ReadBody(tail))
  {
    var head := if c == '\'' then "''" else [c];
    assert (head + tail)[|head|..] == tail;
    assert (head + tail)[0] == c;
    assert c == '\'' ==> (head + tail)[1] == c;
  }

  lemma {:induction false} ReadDoubled(v: string, rest: string)
    requires rest == "" || rest[0] != '\''
    ensures ReadBody(Double(v) + "'" + rest) == Some((v, rest))
  {
    if v == "" {
      assert Double(v) + "'" + rest == "'" + rest;
      assert ("'" + rest)[1..] == rest;
    } else {
      var c, w := v[0], v[1..];
      var head, tail := if c == '\'' then "''" else [c], Double(w) + "'" + rest;
      assert v == [c] + w;
      assert Double(v) + "'" + rest == head + tail by {
        DoubleFront(c, w);
        assert head + Double(w) + "'" + rest == head + tail;
      }
      assert ReadBody(tail) == Some((w, rest)) by {
        ReadDoubled(w, rest);
      }
      assert ReadBody(head + tail) == Prepend(c, Some((w, rest))) by {
        ReadFront(c, tail);
      }
    }
  }

  /** A quoted value is read back whole, and whatever follows it stays outside the literal. */
  lemma QuoteRoundTrip(v: string, rest: string)
    requires rest == "" || rest[0] != '\''
    ensures ReadLiteral(Quote(v) + rest) == Some((v, rest))
  {
    ReadDoubled(v, rest);
    assert (Quote(v) + rest)[1..] == Double(v) + "'" + rest;
  }
}
