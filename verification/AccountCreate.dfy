/**
  Defaults and validation of the account builder (backend/ent/account_create.go), and why bulk
  save may ignore the error of `defaults`.
*/
module AccountCreate {
  import opened Common
  import opened BulkCreate

  type Time = int
  type Json = string

  /** The fields that `defaults` and `check` look at; a field is `None` while it is unset. */
  datatype AccountMutation = AccountMutation(
    createdAt: Option<Time>,
    updatedAt: Option<Time>,
    name: Option<string>,
    platform: Option<string>,
    kind: Option<string>,
    credentials: Option<Json>,
    extra: Option<Json>,
    concurrency: Option<int>,
    priority: Option<int>,
    rateMultiplier: Option<real>,
    status: Option<string>,
    autoPauseOnExpired: Option<bool>,
    schedulable: Option<bool>,
    sessionWindowStatus: Option<string>,
    quotaDimension: Option<string>)

  /**
    The package variables that the runtime package fills in.  The four default functions are nil
    (`None`) when it was not imported.
  */
  datatype Runtime = Runtime(
    createdAt: Option<Time>,
    updatedAt: Option<Time>,
    credentials: Option<Json>,
    extra: Option<Json>,
    concurrency: int,
    priority: int,
    rateMultiplier: real,
    status: string,
    autoPauseOnExpired: bool,
    schedulable: bool,
    nameOk: string -> bool,
    platformOk: string -> bool,
    kindOk: string -> bool,
    statusOk: string -> bool,
    sessionWindowStatusOk: string -> bool)

  const DEFAULT_QUOTA_DIMENSION := "global"

  predicate QuotaDimensionOk(q: string) {
    q == "global" || q == "spark"
  }

  function OrElse<T>(a: Option<T>, b: Option<T>): Option<T> {
    if a.Some? then a else b
  }

  /** `check`: the name of the first offending field, or `None`. */
  function Check(rt: Runtime, m: AccountMutation): Option<string> {
    if m.createdAt.None? then Some("created_at")
    else if m.updatedAt.None? then Some("updated_at")
    else if m.name.None? || !rt.nameOk(m.name.value) then Some("name")
    else if m.platform.None? || !rt.platformOk(m.platform.value) then Some("platform")
    else if m.kind.None? || !rt.kindOk(m.kind.value) then Some("type")
    else if m.credentials.None? then Some("credentials")
    else if m.extra.None? then Some("extra")
    else if m.concurrency.None? then Some("concurrency")
    else if m.priority.None? then Some("priority")
    else if m.rateMultiplier.None? then Some("rate_multiplier")
    else if m.status.None? || !rt.statusOk(m.status.value) then Some("status")
    else if m.autoPauseOnExpired.None? then Some("auto_pause_on_expired")
    else if m.schedulable.None? then Some("schedulable")
    else if m.sessionWindowStatus.Some? && !rt.sessionWindowStatusOk(m.sessionWindowStatus.value)
    then Some("session_window_status")
    else if m.quotaDimension.None? || !QuotaDimensionOk(m.quotaDimension.value) then Some("quota_dimension")
    else None
  }

  /** Every field that has a default is set. */
  predicate DefaultsFilled(m: AccountMutation) {
    && m.createdAt.Some? && m.updatedAt.Some? && m.credentials.Some? && m.extra.Some?
    && m.concurrency.Some? && m.priority.Some? && m.rateMultiplier.Some? && m.status.Some?
    && m.autoPauseOnExpired.Some? && m.schedulable.Some? && m.quotaDimension.Some?
  }

  function WithPlainDefaults(rt: Runtime, m: AccountMutation): AccountMutation {
    m.(
      concurrency := OrElse(m.concurrency, Some(rt.concurrency)),
      priority := OrElse(m.priority, Some(rt.priority)),
      rateMultiplier := OrElse(m.rateMultiplier, Some(rt.rateMultiplier)),
      status := OrElse(m.status, Some(rt.status)),
      autoPauseOnExpired := OrElse(m.autoPauseOnExpired, Some(rt.autoPauseOnExpired)),
      schedulable := OrElse(m.schedulable, Some(rt.schedulable)),
      quotaDimension := OrElse(m.quotaDimension, Some(DEFAULT_QUOTA_DIMENSION)))
  }

  /** `m` with every unset field that has a default set to it. */
  function Filled(rt: Runtime, m: AccountMutation): AccountMutation {
    WithPlainDefaults(rt, m.(
      createdAt := OrElse(m.createdAt, rt.createdAt),
      updatedAt := OrElse(m.updatedAt, rt.updatedAt),
      credentials := OrElse(m.credentials, rt.credentials),
      extra := OrElse(m.extra, rt.extra)))
  }

  /** The first field that is unset and whose default function is missing. */
  function MissingDefault(rt: Runtime, m: AccountMutation): Option<string> {
    if OrElse(m.createdAt, rt.createdAt).None? then Some("created_at")
    else if OrElse(m.updatedAt, rt.updatedAt).None? then Some("updated_at")
    else if OrElse(m.credentials, rt.credentials).None? then Some("credentials")
    else if OrElse(m.extra, rt.extra).None? then Some("extra")
    else None
  }

  /** `defaults` gives up at the first missing default function and keeps what it has set so far. */
  function Defaulted(rt: Runtime, m: AccountMutation): AccountMutation {
    match MissingDefault(rt, m)
    case None => Filled(rt, m)
    case Some(f) =>
      if f == "created_at" then m
      else if f == "updated_at" then m.(createdAt := OrElse(m.createdAt, rt.createdAt))
      else if f == "credentials" then
        m.(createdAt := OrElse(m.createdAt, rt.createdAt), updatedAt := OrElse(m.updatedAt, rt.updatedAt))
      else
        m.(createdAt := OrElse(m.createdAt, rt.createdAt), updatedAt := OrElse(m.updatedAt, rt.updatedAt),
           credentials := OrElse(m.credentials, rt.credentials))
  }

  /**
    How far `defaults` gets: the position of the first of the four fields with a default function that
    is unset and whose function is nil, and 4 if there is none.
  */
  function StopsAt(rt: Runtime, m: AccountMutation): nat {
    if m.createdAt.None? && rt.createdAt.None? then 0
    else if m.updatedAt.None? && rt.updatedAt.None? then 1
    else if m.credentials.None? && rt.credentials.None? then 2
    else if m.extra.None? && rt.extra.None? then 3
    else 4
  }

  /** A set field is kept; an unset one gets its default if `defaults` comes that far. */
  predicate Settles<T(==)>(was: Option<T>, now: Option<T>, default: Option<T>, reached: bool) {
    if was.Some? then now == was else if reached then now == default else now == None
  }

  /** What `defaults` does to every field, and the error that it returns. */
  predicate FieldByField(rt: Runtime, was: AccountMutation, now: AccountMutation, err: Option<string>) {
    var p := StopsAt(rt, was);
    && err == (if p < 4 then Some(["created_at", "updated_at", "credentials", "extra"][p]) else None)
    && Settles(was.createdAt, now.createdAt, rt.createdAt, 0 < p)
    && Settles(was.updatedAt, now.updatedAt, rt.updatedAt, 1 < p)
    && Settles(was.credentials, now.credentials, rt.credentials, 2 < p)
    && Settles(was.extra, now.extra, rt.extra, 3 < p)
    && Settles(was.concurrency, now.concurrency, Some(rt.concurrency), p == 4)
    && Settles(was.priority, now.priority, Some(rt.priority), p == 4)
    && Settles(was.rateMultiplier, now.rateMultiplier, Some(rt.rateMultiplier), p == 4)
    && Settles(was.status, now.status, Some(rt.status), p == 4)
    && Settles(was.autoPauseOnExpired, now.autoPauseOnExpired, Some(rt.autoPauseOnExpired), p == 4)
    && Settles(was.schedulable, now.schedulable, Some(rt.schedulable), p == 4)
    && Settles(was.quotaDimension, now.quotaDimension, Some("global"), p == 4)
    && now.name == was.name && now.platform == was.platform && now.kind == was.kind
    && now.sessionWindowStatus == was.sessionWindowStatus
  }

  /** The defaulted mutation, field by field. */
  lemma DefaultedFieldByField(rt: Runtime, m: AccountMutation)
    ensures FieldByField(rt, m, Defaulted(rt, m), MissingDefault(rt, m))
  {
    var p := StopsAt(rt, m);
    assert MissingDefault(rt, m).Some? <==> p < 4;
  }

  class AccountBuilder {
    const rt: Runtime
    var mutation: AccountMutation

    constructor (rt: Runtime, m: AccountMutation)
      ensures this.rt == rt && mutation == m
    {
      this.rt, mutation := rt, m;
    }

    method Defaults() returns (err: Option<string>)
      modifies this
      ensures mutation == Defaulted(rt, old(mutation))
      ensures err == MissingDefault(rt, old(mutation))
    {
      if mutation.createdAt.None? {
        if rt.createdAt.None? { return Some("created_at"); }
        mutation := mutation.(createdAt := rt.createdAt);
      }
      if mutation.updatedAt.None? {
        if rt.updatedAt.None? { return Some("updated_at"); }
        mutation := mutation.(updatedAt := rt.updatedAt);
      }
      if mutation.credentials.None? {
        if rt.credentials.None? { return Some("credentials"); }
        mutation := mutation.(credentials := rt.credentials);
      }
      if mutation.extra.None? {
        if rt.extra.None? { return Some("extra"); }
        mutation := mutation.(extra := rt.extra);
      }
      PlainDefaults();
      return None;
    }

    /** The defaults that are plain values and cannot be missing. */
    method PlainDefaults()
      modifies this
      ensures mutation == WithPlainDefaults(rt, old(mutation))
    {
      mutation := mutation.(concurrency := OrElse(mutation.concurrency, Some(rt.concurrency)));
      mutation := mutation.(priority := OrElse(mutation.priority, Some(rt.priority)));
      mutation := mutation.(rateMultiplier := OrElse(mutation.rateMultiplier, Some(rt.rateMultiplier)));
      mutation := mutation.(status := OrElse(mutation.status, Some(rt.status)));
      mutation := mutation.(autoPauseOnExpired := OrElse(mutation.autoPauseOnExpired, Some(rt.autoPauseOnExpired)));
      mutation := mutation.(schedulable := OrElse(mutation.schedulable, Some(rt.schedulable)));
      mutation := mutation.(quotaDimension := OrElse(mutation.quotaDimension, Some(DEFAULT_QUOTA_DIMENSION)));
    }
  }

  /** A user-supplied field that is missing, or any present field that its validator rejects. */
  predicate UserError(rt: Runtime, m: AccountMutation) {
    || m.name.None? || !rt.nameOk(m.name.value)
    || m.platform.None? || !rt.platformOk(m.platform.value)
    || m.kind.None? || !rt.kindOk(m.kind.value)
    || (m.status.Some? && !rt.statusOk(m.status.value))
    || (m.sessionWindowStatus.Some? && !rt.sessionWindowStatusOk(m.sessionWindowStatus.value))
    || (m.quotaDimension.Some? && !QuotaDimensionOk(m.quotaDimension.value))
  }

  /** `check` passes exactly when nothing that has a default is missing and the user made no error. */
  lemma CheckIff(rt: Runtime, m: AccountMutation)
    ensures Check(rt, m).None? <==> DefaultsFilled(m) && !UserError(rt, m)
  {
  }

  /** The fields in the order in which `check` looks at them. */
  const FIELDS := [
    "created_at", "updated_at", "name", "platform", "type", "credentials", "extra", "concurrency", "priority",
    "rate_multiplier", "status", "auto_pause_on_expired", "schedulable", "session_window_status",
    "quota_dimension"]

  /** What `check` has against a field: it is required and unset, or its validator rejects it. */
  predicate Offends(rt: Runtime, m: AccountMutation, field: nat) {
    match field
    case 0 => m.createdAt.None?
    case 1 => m.updatedAt.None?
    case 2 => m.name.None? || !rt.nameOk(m.name.value)
    case 3 => m.platform.None? || !rt.platformOk(m.platform.value)
    case 4 => m.kind.None? || !rt.kindOk(m.kind.value)
    case 5 => m.credentials.None?
    case 6 => m.extra.None?
    case 7 => m.concurrency.None?
    case 8 => m.priority.None?
    case 9 => m.rateMultiplier.None?
    case 10 => m.status.None? || !rt.statusOk(m.status.value)
    case 11 => m.autoPauseOnExpired.None?
    case 12 => m.schedulable.None?
    case 13 => m.sessionWindowStatus.Some? && !rt.sessionWindowStatusOk(m.sessionWindowStatus.value)
    case 14 => m.quotaDimension.None? || (m.quotaDimension.value != "global" && m.quotaDimension.value != "spark")
    case _ => false
  }

  /** The fields in front of position `i` are in order. */
  ghost predicate InOrderUpTo(rt: Runtime, m: AccountMutation, i: nat) {
    forall j :: 0 <= j < i ==> !Offends(rt, m, j)
  }

  lemma EarlyFieldsInOrder(rt: Runtime, m: AccountMutation, i: nat)
    requires InOrderUpTo(rt, m, i)
    ensures 0 < i ==> m.createdAt.Some?
    ensures 1 < i ==> m.updatedAt.Some?
    ensures 2 < i ==> m.name.Some? && rt.nameOk(m.name.value)
    ensures 3 < i ==> m.platform.Some? && rt.platformOk(m.platform.value)
    ensures 4 < i ==> m.kind.Some? && rt.kindOk(m.kind.value)
    ensures 5 < i ==> m.credentials.Some?
    ensures 6 < i ==> m.extra.Some?
  {
    assert 0 < i ==> !Offends(rt, m, 0);
    assert 1 < i ==> !Offends(rt, m, 1);
    assert 2 < i ==> !Offends(rt, m, 2);
    assert 3 < i ==> !Offends(rt, m, 3);
    assert 4 < i ==> !Offends(rt, m, 4);
    assert 5 < i ==> !Offends(rt, m, 5);
    assert 6 < i ==> !Offends(rt, m, 6);
  }

  lemma LateFieldsInOrder(rt: Runtime, m: AccountMutation, i: nat)
    requires InOrderUpTo(rt, m, i)
    ensures 7 < i ==> m.concurrency.Some?
    ensures 8 < i ==> m.priority.Some?
    ensures 9 < i ==> m.rateMultiplier.Some?
    ensures 10 < i ==> m.status.Some? && rt.statusOk(m.status.value)
    ensures 11 < i ==> m.autoPauseOnExpired.Some?
    ensures 12 < i ==> m.schedulable.Some?
    ensures 13 < i ==> !Offends(rt, m, 13)
    ensures 14 < i ==> m.quotaDimension.Some? && QuotaDimensionOk(m.quotaDimension.value)
  {
    assert 7 < i ==> !Offends(rt, m, 7);
    assert 8 < i ==> !Offends(rt, m, 8);
    assert 9 < i ==> !Offends(rt, m, 9);
    assert 10 < i ==> !Offends(rt, m, 10);
    assert 11 < i ==> !Offends(rt, m, 11);
    assert 12 < i ==> !Offends(rt, m, 12);
    assert 14 < i ==> !Offends(rt, m, 14);
  }

  /** `check` names the first offending field, and passes when there is none. */
  lemma CheckNamesTheFirst(rt: Runtime, m: AccountMutation, i: nat)
    requires i <= 15 && InOrderUpTo(rt, m, i) && (i < 15 ==> Offends(rt, m, i))
    ensures Check(rt, m) == if i < 15 then Some(FIELDS[i]) else None
  {
    EarlyFieldsInOrder(rt, m, i);
    LateFieldsInOrder(rt, m, i);
  }

  /**
    `defaults` and `check` in sequence: a failing `defaults` is always caught by `check`, and after a
    successful one `check` fails exactly on a missing name, platform or type or a rejecting validator.
  */
  lemma CheckAfterDefaults(rt: Runtime, m: AccountMutation)
    ensures MissingDefault(rt, m).Some? ==> Check(rt, Defaulted(rt, m)).Some?
    ensures MissingDefault(rt, m).None? ==>
      (Check(rt, Defaulted(rt, m)).Some? <==> UserError(rt, Filled(rt, m)))
    ensures MissingDefault(rt, m).Some? <==> !DefaultsFilled(Defaulted(rt, m))
  {
    CheckIff(rt, Defaulted(rt, m));
  }

  ghost predicate IsAccountBulk<N, S>(rt: Runtime, bulk: Bulk<AccountMutation, N, S, string>) {
    && (forall m :: bulk.defaults(m) == Defaulted(rt, m))
    && (forall m :: bulk.check(m) == Check(rt, m))
  }

  /** The hook never sets the last missing one of the fields that have defaults. */
  ghost predicate LeavesGaps(hook: Hook<AccountMutation, string>) {
    hook.Wraps? ==> forall m :: !DefaultsFilled(m) ==> !DefaultsFilled(hook.edit(m))
  }

  /** Those hooks of builder i whose edits `check` gets to see do not fill gaps. */
  ghost predicate GapsStay<N, S>(bulk: Bulk<AccountMutation, N, S, string>, i: nat)
    requires i < |bulk.builders|
  {
    forall k :: 0 <= k < bulk.InPlace(i, |bulk.builders[i].hooks|) ==> LeavesGaps(bulk.builders[i].hooks[k])
  }

  lemma {:induction false} GapsRemain<N, S>(rt: Runtime, bulk: Bulk<AccountMutation, N, S, string>, i: nat, h: nat)
    requires IsAccountBulk(rt, bulk) && i < |bulk.builders| && h <= bulk.InPlace(i, |bulk.builders[i].hooks|)
    requires MissingDefault(rt, bulk.builders[i].mutation).Some? && GapsStay(bulk, i)
    ensures !DefaultsFilled(bulk.Edited(i, h))
  {
    if h == 0 {
      CheckAfterDefaults(rt, bulk.builders[i].mutation);
    } else {
      GapsRemain(rt, bulk, i, h - 1);
      assert LeavesGaps(bulk.builders[i].hooks[h - 1]);
    }
  }

  /** A gap that no hook fills before the check is caught by it. */
  lemma GapsAreCaught<N, S>(rt: Runtime, bulk: Bulk<AccountMutation, N, S, string>, i: nat)
    requires IsAccountBulk(rt, bulk) && i < |bulk.builders|
    requires MissingDefault(rt, bulk.builders[i].mutation).Some? && GapsStay(bulk, i)
    ensures !DefaultsFilled(bulk.Checked(i))
  {
    bulk.CheckSeesOwnMutation(i);
    GapsRemain(rt, bulk, i, bulk.InPlace(i, |bulk.builders[i].hooks|));
  }

  /**
    Ignoring the error of `defaults` is safe: a bulk save in which the gap is still there when some
    builder is checked never reaches the insert, and unless a hook drops the error it returns one and
    marks no mutation.
  */
  lemma IgnoringDefaultsIsSafe<N, S>(rt: Runtime, bulk: Bulk<AccountMutation, N, S, string>, i: nat)
    requires IsAccountBulk(rt, bulk) && i < |bulk.builders| && !DefaultsFilled(bulk.Checked(i))
    ensures forall e :: e in bulk.Outcome().0.trace ==> !e.Insert?
    ensures !bulk.EverythingSaved(bulk.Outcome().0)
    ensures bulk.AllKeepErrors() ==> bulk.Outcome().1.Some? && bulk.NothingMarked(bulk.Outcome().0)
  {
    assert bulk.Obstructs(i) by { CheckIff(rt, bulk.Checked(i)); }
    forall e | e in bulk.Outcome().0.trace
      ensures !e.Insert?
    {
      bulk.ObstructedSaveNeverInserts(e);
    }
    bulk.ObstructedIsNotSaved(i);
    if bulk.AllKeepErrors() {
      bulk.KeptErrorsMakeItAllOrNothing();
    }
  }
}
