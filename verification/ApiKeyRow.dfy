/**
  API-key rows (backend/ent/apikey_create.go and backend/ent/apikey.go): the node that `createSpec`
  returns against the node that `scanValues` and `assignValues` rebuild from the row it wrote.

  Times and amounts are opaque values.  A JSON column holds a document that decodes to a Go slice,
  which may be nil; encoding and decoding are inverse to each other.
*/
module ApiKeyRow {
  import opened Common

  type Time = int

  /** A Go `[]string`: nil, or a list. */
  type List = Option<seq<string>>

  datatype Column =
    | Id | CreatedAt | UpdatedAt | DeletedAt | UserId | KeyText
    | Name | GroupId | Status | LastUsedAt | IpWhitelist | IpBlacklist
    | Quota | QuotaUsed | ExpiresAt | RateLimit5h | RateLimit1d | RateLimit7d
    | Usage5h | Usage1d | Usage7d | Window5hStart | Window1dStart | Window7dStart
    | Unknown(name: string)

  /** A value of the database row. */
  datatype Cell =
    | Null
    | IntCell(i: int)
    | TextCell(s: string)
    | TimeCell(t: Time)
    | FloatCell(f: real)
    | JsonCell(doc: List)

  type DbRow = Column -> Cell

  datatype Target = NullInt64 | NullString | NullTime | NullFloat64 | Bytes | UnknownType

  /** A scan destination after scanning; `None` is a NULL. */
  datatype Scanned =
    | ScannedInt(i: Option<int>)
    | ScannedText(s: Option<string>)
    | ScannedTime(t: Option<Time>)
    | ScannedFloat(f: Option<real>)
    | ScannedJson(doc: Option<List>)
    | ScannedUnknown(cell: Cell)

  datatype APIKey = APIKey(
    id: int,
    createdAt: Time,
    updatedAt: Time,
    deletedAt: Option<Time>,
    userId: int,
    key: string,
    name: string,
    groupId: Option<int>,
    status: string,
    lastUsedAt: Option<Time>,
    ipWhitelist: List,
    ipBlacklist: List,
    quota: real,
    quotaUsed: real,
    expiresAt: Option<Time>,
    rateLimit5h: real,
    rateLimit1d: real,
    rateLimit7d: real,
    usage5h: real,
    usage1d: real,
    usage7d: real,
    window5hStart: Option<Time>,
    window1dStart: Option<Time>,
    window7dStart: Option<Time>,
    selectValues: map<string, Scanned>)

  /** `&APIKey{}` */
  const ZERO := APIKey(
    0, 0, 0, None, 0, "", "", None, "", None, None, None, 0.0, 0.0, None, 0.0, 0.0, 0.0, 0.0, 0.0, 0.0, None, None,
      None, map[])

  /** The set fields of a mutation; `user` and `group` are the edges behind `user_id` and `group_id`. */
  datatype APIKeyMutation = APIKeyMutation(
    createdAt: Option<Time>,
    updatedAt: Option<Time>,
    deletedAt: Option<Time>,
    user: Option<int>,
    key: Option<string>,
    name: Option<string>,
    group: Option<int>,
    status: Option<string>,
    lastUsedAt: Option<Time>,
    ipWhitelist: Option<List>,
    ipBlacklist: Option<List>,
    quota: Option<real>,
    quotaUsed: Option<real>,
    expiresAt: Option<Time>,
    rateLimit5h: Option<real>,
    rateLimit1d: Option<real>,
    rateLimit7d: Option<real>,
    usage5h: Option<real>,
    usage1d: Option<real>,
    usage7d: Option<real>,
    window5hStart: Option<Time>,
    window1dStart: Option<Time>,
    window7dStart: Option<Time>)

  function Or<T>(a: Option<T>, zero: T): T {
    if a.Some? then a.value else zero
  }

  /** The node that `createSpec` returns. */
  function CreatedNode(m: APIKeyMutation): APIKey {
    ZERO.(
      createdAt := Or(m.createdAt, 0),
      updatedAt := Or(m.updatedAt, 0),
      deletedAt := m.deletedAt,
      userId := Or(m.user, 0),
      key := Or(m.key, ""),
      name := Or(m.name, ""),
      groupId := m.group,
      status := Or(m.status, ""),
      lastUsedAt := m.lastUsedAt,
      ipWhitelist := Or(m.ipWhitelist, None),
      ipBlacklist := Or(m.ipBlacklist, None),
      quota := Or(m.quota, 0.0),
      quotaUsed := Or(m.quotaUsed, 0.0),
      expiresAt := m.expiresAt,
      rateLimit5h := Or(m.rateLimit5h, 0.0),
      rateLimit1d := Or(m.rateLimit1d, 0.0),
      rateLimit7d := Or(m.rateLimit7d, 0.0),
      usage5h := Or(m.usage5h, 0.0),
      usage1d := Or(m.usage1d, 0.0),
      usage7d := Or(m.usage7d, 0.0),
      window5hStart := m.window5hStart,
      window1dStart := m.window1dStart,
      window7dStart := m.window7dStart)
  }

  function IntOrNull(v: Option<int>): Cell {
    if v.Some? then IntCell(v.value) else Null
  }

  function TextOrNull(v: Option<string>): Cell {
    if v.Some? then TextCell(v.value) else Null
  }

  function TimeOrNull(v: Option<Time>): Cell {
    if v.Some? then TimeCell(v.value) else Null
  }

  function FloatOrNull(v: Option<real>): Cell {
    if v.Some? then FloatCell(v.value) else Null
  }

  function JsonOrNull(v: Option<List>): Cell {
    if v.Some? then JsonCell(v.value) else Null
  }

  /** The row that the insert of `createSpec`'s spec leaves in the table, under the new identifier. */
  function Written(m: APIKeyMutation, id: int, c: Column): Cell {
    match c
    case Id => IntCell(id)
    case CreatedAt => TimeOrNull(m.createdAt)
    case UpdatedAt => TimeOrNull(m.updatedAt)
    case DeletedAt => TimeOrNull(m.deletedAt)
    case UserId => IntOrNull(m.user)
    case KeyText => TextOrNull(m.key)
    case Name => TextOrNull(m.name)
    case GroupId => IntOrNull(m.group)
    case Status => TextOrNull(m.status)
    case LastUsedAt => TimeOrNull(m.lastUsedAt)
    case IpWhitelist => JsonOrNull(m.ipWhitelist)
    case IpBlacklist => JsonOrNull(m.ipBlacklist)
    case Quota => FloatOrNull(m.quota)
    case QuotaUsed => FloatOrNull(m.quotaUsed)
    case ExpiresAt => TimeOrNull(m.expiresAt)
    case RateLimit5h => FloatOrNull(m.rateLimit5h)
    case RateLimit1d => FloatOrNull(m.rateLimit1d)
    case RateLimit7d => FloatOrNull(m.rateLimit7d)
    case Usage5h => FloatOrNull(m.usage5h)
    case Usage1d => FloatOrNull(m.usage1d)
    case Usage7d => FloatOrNull(m.usage7d)
    case Window5hStart => TimeOrNull(m.window5hStart)
    case Window1dStart => TimeOrNull(m.window1dStart)
    case Window7dStart => TimeOrNull(m.window7dStart)
    case Unknown(_) => Null
  }

  function WrittenRow(m: APIKeyMutation, id: int): DbRow {
    c => Written(m, id, c)
  }

  // ----- reading

  /** `scanValues`, one column. */
  function TargetOf(c: Column): Target {
    match c
    case IpWhitelist | IpBlacklist => Bytes
    case Quota | QuotaUsed | RateLimit5h | RateLimit1d | RateLimit7d | Usage5h | Usage1d | Usage7d => NullFloat64
    case Id | UserId | GroupId => NullInt64
    case KeyText | Name | Status => NullString
    case CreatedAt | UpdatedAt | DeletedAt | LastUsedAt | ExpiresAt | Window5hStart | Window1dStart | Window7dStart =>
      NullTime
    case Unknown(_) => UnknownType
  }

  /** What the SQL driver stores in a scan destination; a value of another type is an error. */
  function Scan(t: Target, cell: Cell): Option<Scanned> {
    match (t, cell)
    case (UnknownType, _) => Some(ScannedUnknown(cell))
    case (NullInt64, Null) => Some(ScannedInt(None))
    case (NullInt64, IntCell(i)) => Some(ScannedInt(Some(i)))
    case (NullString, Null) => Some(ScannedText(None))
    case (NullString, TextCell(s)) => Some(ScannedText(Some(s)))
    case (NullTime, Null) => Some(ScannedTime(None))
    case (NullTime, TimeCell(t)) => Some(ScannedTime(Some(t)))
    case (NullFloat64, Null) => Some(ScannedFloat(None))
    case (NullFloat64, FloatCell(f)) => Some(ScannedFloat(Some(f)))
    case (Bytes, Null) => Some(ScannedJson(None))
    case (Bytes, JsonCell(d)) => Some(ScannedJson(Some(d)))
    case _ => None
  }

  /** `assignValues`, one column; `None` is the "unexpected type" error. */
  function Assign(k: APIKey, c: Column, v: Scanned): Option<APIKey> {
    match c
    case Id => if v.ScannedInt? then Some(k.(id := Or(v.i, 0))) else None
    case CreatedAt => if v.ScannedTime? then Some(k.(createdAt := Or(v.t, k.createdAt))) else None
    case UpdatedAt => if v.ScannedTime? then Some(k.(updatedAt := Or(v.t, k.updatedAt))) else None
    case DeletedAt => if v.ScannedTime? then Some(k.(deletedAt := if v.t.Some? then v.t else k.deletedAt)) else None
    case UserId => if v.ScannedInt? then Some(k.(userId := Or(v.i, k.userId))) else None
    case KeyText => if v.ScannedText? then Some(k.(key := Or(v.s, k.key))) else None
    case Name => if v.ScannedText? then Some(k.(name := Or(v.s, k.name))) else None
    case GroupId => if v.ScannedInt? then Some(k.(groupId := if v.i.Some? then v.i else k.groupId)) else None
    case Status => if v.ScannedText? then Some(k.(status := Or(v.s, k.status))) else None
    case LastUsedAt => if v.ScannedTime? then Some(k.(lastUsedAt := if v.t.Some? then v.t else k.lastUsedAt)) else None
    case IpWhitelist => if v.ScannedJson? then Some(k.(ipWhitelist := Or(v.doc, k.ipWhitelist))) else None
    case IpBlacklist => if v.ScannedJson? then Some(k.(ipBlacklist := Or(v.doc, k.ipBlacklist))) else None
    case Quota => if v.ScannedFloat? then Some(k.(quota := Or(v.f, k.quota))) else None
    case QuotaUsed => if v.ScannedFloat? then Some(k.(quotaUsed := Or(v.f, k.quotaUsed))) else None
    case ExpiresAt => if v.ScannedTime? then Some(k.(expiresAt := if v.t.Some? then v.t else k.expiresAt)) else None
    case RateLimit5h => if v.ScannedFloat? then Some(k.(rateLimit5h := Or(v.f, k.rateLimit5h))) else None
    case RateLimit1d => if v.ScannedFloat? then Some(k.(rateLimit1d := Or(v.f, k.rateLimit1d))) else None
    case RateLimit7d => if v.ScannedFloat? then Some(k.(rateLimit7d := Or(v.f, k.rateLimit7d))) else None
    case Usage5h => if v.ScannedFloat? then Some(k.(usage5h := Or(v.f, k.usage5h))) else None
    case Usage1d => if v.ScannedFloat? then Some(k.(usage1d := Or(v.f, k.usage1d))) else None
    case Usage7d => if v.ScannedFloat? then Some(k.(usage7d := Or(v.f, k.usage7d))) else None
    case Window5hStart =>
      if v.ScannedTime? then Some(k.(window5hStart := if v.t.Some? then v.t else k.window5hStart)) else None
    case Window1dStart =>
      if v.ScannedTime? then Some(k.(window1dStart := if v.t.Some? then v.t else k.window1dStart)) else None
    case Window7dStart =>
      if v.ScannedTime? then Some(k.(window7dStart := if v.t.Some? then v.t else k.window7dStart)) else None
    case Unknown(name) => Some(k.(selectValues := k.selectValues[name := v]))
  }

  /** The field behind a column, as the cell that would store it. */
  function View(k: APIKey, c: Column): Cell {
    match c
    case Id => IntCell(k.id)
    case CreatedAt => TimeCell(k.createdAt)
    case UpdatedAt => TimeCell(k.updatedAt)
    case DeletedAt => TimeOrNull(k.deletedAt)
    case UserId => IntCell(k.userId)
    case KeyText => TextCell(k.key)
    case Name => TextCell(k.name)
    case GroupId => IntOrNull(k.groupId)
    case Status => TextCell(k.status)
    case LastUsedAt => TimeOrNull(k.lastUsedAt)
    case IpWhitelist => JsonCell(k.ipWhitelist)
    case IpBlacklist => JsonCell(k.ipBlacklist)
    case Quota => FloatCell(k.quota)
    case QuotaUsed => FloatCell(k.quotaUsed)
    case ExpiresAt => TimeOrNull(k.expiresAt)
    case RateLimit5h => FloatCell(k.rateLimit5h)
    case RateLimit1d => FloatCell(k.rateLimit1d)
    case RateLimit7d => FloatCell(k.rateLimit7d)
    case Usage5h => FloatCell(k.usage5h)
    case Usage1d => FloatCell(k.usage1d)
    case Usage7d => FloatCell(k.usage7d)
    case Window5hStart => TimeOrNull(k.window5hStart)
    case Window1dStart => TimeOrNull(k.window1dStart)
    case Window7dStart => TimeOrNull(k.window7dStart)
    case Unknown(_) => Null
  }

  /** `scanValues` */
  method ScanValues(columns: seq<Column>) returns (values: seq<Target>)
    ensures values == MapSeq(columns, TargetOf)
  {
    values := [];
    for i := 0 to |columns|
      invariant values == MapSeq(columns[..i], TargetOf)
    {
      values := values + [TargetOf(columns[i])];
    }
    assert columns[..|columns|] == columns;
  }

  /** The columns assigned so far, in order; `None` after an error. */
  function AssignAll(columns: seq<Column>, values: seq<Scanned>): Option<APIKey>
    requires |columns| == |values|
  {
    if columns == [] then Some(ZERO)
    else
      var n := |columns| - 1;
      var before := AssignAll(columns[..n], values[..n]);
      if before.None? then None else Assign(before.value, columns[n], values[n])
  }

  /** `assignValues` on a new node; `None` is an error. */
  method AssignValues(columns: seq<Column>, values: seq<Scanned>) returns (r: Option<APIKey>)
    ensures |values| < |columns| ==> r.None?
    ensures |values| >= |columns| ==> r == AssignAll(columns, values[..|columns|])
  {
    if |values| < |columns| {
      return None;
    }
    var node := ZERO;
    for i := 0 to |columns|
      invariant AssignAll(columns[..i], values[..i]) == Some(node)
    {
      assert columns[..i + 1][..i] == columns[..i] && values[..i + 1][..i] == values[..i];
      var next := Assign(node, columns[i], values[i]);
      if next.None? {
        AssignAllStops(columns, values[..|columns|], i + 1);
        assert values[..|columns|][..i + 1] == values[..i + 1];
        return None;
      }
      node := next.value;
    }
    assert columns[..|columns|] == columns;
    return Some(node);
  }

  lemma {:induction false} AssignAllStops(columns: seq<Column>, values: seq<Scanned>, i: nat)
    requires |columns| == |values| && i <= |columns|
    ensures AssignAll(columns[..i], values[..i]).None? ==> AssignAll(columns, values).None?
    decreases |columns| - i
  {
    if i == |columns| {
      assert columns[..i] == columns && values[..i] == values;
    } else {
      assert columns[..i + 1][..i] == columns[..i] && values[..i + 1][..i] == values[..i];
      AssignAllStops(columns, values, i + 1);
    }
  }

  // ----- the round trip

  /** Every cell of a row has the type that its column is scanned as. */
  ghost predicate WellTyped(row: DbRow) {
    forall c :: Scan(TargetOf(c), row(c)).Some?
  }

  ghost function ScanRow(row: DbRow, columns: seq<Column>): seq<Scanned>
    requires WellTyped(row)
  {
    seq(|columns|, i requires 0 <= i < |columns| => Scan(TargetOf(columns[i]), row(columns[i])).value)
  }

  /** Reading a row with any column list. */
  ghost function ReadBack(row: DbRow, columns: seq<Column>): Option<APIKey>
    requires WellTyped(row)
  {
    AssignAll(columns, ScanRow(row, columns))
  }

  /**
    One row of a query: the destinations of the columns, the driver's scan into each of them, and the
    assignment of the scanned values.
  */
  method ReadRow(row: DbRow, columns: seq<Column>) returns (r: Option<APIKey>)
    ensures (exists c :: c in columns && Scan(TargetOf(c), row(c)).None?) ==> r.None?
    ensures WellTyped(row) ==> r == ReadBack(row, columns)
  {
    var targets := ScanValues(columns);
    var values: seq<Scanned> := [];
    for i := 0 to |columns|
      invariant |values| == i
      invariant forall j :: 0 <= j < i ==> Scan(TargetOf(columns[j]), row(columns[j])) == Some(values[j])
    {
      var scanned := Scan(targets[i], row(columns[i]));
      if scanned.None? {
        return None;
      }
      values := values + [scanned.value];
    }
    r := AssignValues(columns, values);
    assert values[..|columns|] == values;
    assert WellTyped(row) ==> values == ScanRow(row, columns);
  }

  lemma WrittenIsWellTyped(m: APIKeyMutation, id: int)
    ensures WellTyped(WrittenRow(m, id))
  {
  }

  /** `row(c)` seen through a field that is zero until something else is assigned. */
  function Seen(cell: Cell, c: Column): Cell {
    if cell.Null? then View(ZERO, c) else cell
  }

  /** `r` is `k` with `cell` assigned to column `c`; the field behind any other column `d` is kept. */
  ghost predicate Changed(k: APIKey, c: Column, r: Option<APIKey>, cell: Cell, d: Column) {
    && r.Some?
    && r.value.selectValues == k.selectValues
    && (d != c ==> View(r.value, d) == View(k, d))
    && View(r.value, c) == if !cell.Null? then cell else if c.Id? then IntCell(0) else View(k, c)
  }

  lemma AssignTime(k: APIKey, c: Column, t: Option<Time>, d: Column)
    requires c.CreatedAt? || c.UpdatedAt? || c.DeletedAt? || c.LastUsedAt?
    ensures Changed(k, c, Assign(k, c, ScannedTime(t)), TimeOrNull(t), d)
  {
  }

  lemma AssignDeadline(k: APIKey, c: Column, t: Option<Time>, d: Column)
    requires c.ExpiresAt? || c.Window5hStart? || c.Window1dStart? || c.Window7dStart?
    ensures Changed(k, c, Assign(k, c, ScannedTime(t)), TimeOrNull(t), d)
  {
  }

  lemma AssignAnyTime(k: APIKey, c: Column, t: Option<Time>, d: Column)
    requires TargetOf(c) == NullTime
    ensures Changed(k, c, Assign(k, c, ScannedTime(t)), TimeOrNull(t), d)
  {
    if c.CreatedAt? || c.UpdatedAt? || c.DeletedAt? || c.LastUsedAt? {
      AssignTime(k, c, t, d);
    } else {
      AssignDeadline(k, c, t, d);
    }
  }

  lemma AssignLimit(k: APIKey, c: Column, f: Option<real>, d: Column)
    requires c.Quota? || c.RateLimit5h? || c.RateLimit1d? || c.RateLimit7d?
    ensures Changed(k, c, Assign(k, c, ScannedFloat(f)), FloatOrNull(f), d)
  {
  }

  lemma AssignUsage(k: APIKey, c: Column, f: Option<real>, d: Column)
    requires c.QuotaUsed? || c.Usage5h? || c.Usage1d? || c.Usage7d?
    ensures Changed(k, c, Assign(k, c, ScannedFloat(f)), FloatOrNull(f), d)
  {
  }

  lemma AssignAmount(k: APIKey, c: Column, f: Option<real>, d: Column)
    requires TargetOf(c) == NullFloat64
    ensures Changed(k, c, Assign(k, c, ScannedFloat(f)), FloatOrNull(f), d)
  {
    if c.Quota? || c.RateLimit5h? || c.RateLimit1d? || c.RateLimit7d? {
      AssignLimit(k, c, f, d);
    } else {
      AssignUsage(k, c, f, d);
    }
  }

  lemma AssignText(k: APIKey, c: Column, s: Option<string>, d: Column)
    requires TargetOf(c) == NullString
    ensures Changed(k, c, Assign(k, c, ScannedText(s)), TextOrNull(s), d)
  {
  }

  lemma AssignKey(k: APIKey, c: Column, i: Option<int>, d: Column)
    requires TargetOf(c) == NullInt64
    ensures Changed(k, c, Assign(k, c, ScannedInt(i)), IntOrNull(i), d)
  {
  }

  lemma AssignList(k: APIKey, c: Column, doc: Option<List>, d: Column)
    requires TargetOf(c) == Bytes
    ensures Changed(k, c, Assign(k, c, ScannedJson(doc)), JsonOrNull(doc), d)
  {
  }

  /** Assigning one column changes the field behind it and no other. */
  lemma AssignChangesOneField(k: APIKey, c: Column, cell: Cell, d: Column)
    requires Scan(TargetOf(c), cell).Some? && !c.Unknown?
    ensures Changed(k, c, Assign(k, c, Scan(TargetOf(c), cell).value), cell, d)
  {
    ScanIs(TargetOf(c), cell);
    match Scan(TargetOf(c), cell).value {
      case ScannedTime(t) => AssignAnyTime(k, c, t, d);
      case ScannedFloat(f) => AssignAmount(k, c, f, d);
      case ScannedText(s) => AssignText(k, c, s, d);
      case ScannedInt(i) => AssignKey(k, c, i, d);
      case ScannedJson(doc) => AssignList(k, c, doc, d);
    }
  }

  /** A scanned value is of its destination's type, and it is the cell. */
  lemma ScanIs(t: Target, cell: Cell)
    requires Scan(t, cell).Some?
    ensures
      match Scan(t, cell).value
      case ScannedTime(v) => t == NullTime && cell == TimeOrNull(v)
      case ScannedFloat(v) => t == NullFloat64 && cell == FloatOrNull(v)
      case ScannedText(v) => t == NullString && cell == TextOrNull(v)
      case ScannedInt(v) => t == NullInt64 && cell == IntOrNull(v)
      case ScannedJson(v) => t == Bytes && cell == JsonOrNull(v)
      case ScannedUnknown(v) => t == UnknownType && cell == v
  {
  }

  /** A column that the schema does not know is kept aside under its name. */
  lemma AssignUnknown(k: APIKey, name: string, cell: Cell, d: Column)
    ensures
      var r := Assign(k, Unknown(name), Scan(TargetOf(Unknown(name)), cell).value);
      && r.Some? && View(r.value, d) == View(k, d)
      && r.value.selectValues == k.selectValues[name := ScannedUnknown(cell)]
  {
  }

  lemma ReadBackStep(row: DbRow, init: seq<Column>, c: Column)
    requires WellTyped(row) && ReadBack(row, init).Some?
    ensures ReadBack(row, init + [c]) == Assign(ReadBack(row, init).value, c, Scan(TargetOf(c), row(c)).value)
  {
    var columns := init + [c];
    assert columns[..|init|] == init;
    assert ScanRow(row, columns)[..|init|] == ScanRow(row, init);
  }

  lemma {:induction false} ReadBackFields(row: DbRow, columns: seq<Column>, d: Column)
    requires WellTyped(row) && !d.Unknown?
    ensures
      var r := ReadBack(row, columns);
      r.Some? && View(r.value, d) == if d in columns then Seen(row(d), d) else View(ZERO, d)
  {
    if columns != [] {
      var init, c := columns[..|columns| - 1], columns[|columns| - 1];
      ReadBackFields(row, init, d);
      assert columns == init + [c];
      ReadBackStep(row, init, c);
      if c.Unknown? {
        AssignUnknown(ReadBack(row, init).value, c.name, row(c), d);
      } else {
        AssignChangesOneField(ReadBack(row, init).value, c, row(c), d);
      }
    }
  }

  /** The values kept aside are those of exactly the unknown columns that were read. */
  ghost predicate KeptAside(row: DbRow, columns: seq<Column>, values: map<string, Scanned>) {
    && (forall name :: name in values <==> Unknown(name) in columns)
    && (forall name :: name in values ==> values[name] == ScannedUnknown(row(Unknown(name))))
  }

  lemma {:induction false} ReadBackKeepsAside(row: DbRow, columns: seq<Column>)
    requires WellTyped(row)
    ensures ReadBack(row, columns).Some? && KeptAside(row, columns, ReadBack(row, columns).value.selectValues)
  {
    ReadBackFields(row, columns, Id);
    if columns != [] {
      var init, c := columns[..|columns| - 1], columns[|columns| - 1];
      ReadBackKeepsAside(row, init);
      assert columns == init + [c];
      ReadBackStep(row, init, c);
      if c.Unknown? {
        AssignUnknown(ReadBack(row, init).value, c.name, row(c), Id);
      } else {
        AssignChangesOneField(ReadBack(row, init).value, c, row(c), Id);
      }
    }
  }

  ghost predicate SameViews(a: APIKey, b: APIKey) {
    forall c :: View(a, c) == View(b, c)
  }

  lemma SameView(a: APIKey, b: APIKey, c: Column)
    requires SameViews(a, b)
    ensures View(a, c) == View(b, c)
  {
  }

  lemma SameIdentity(a: APIKey, b: APIKey)
    requires SameViews(a, b)
    ensures a.id == b.id
    ensures a.createdAt == b.createdAt
    ensures a.updatedAt == b.updatedAt
    ensures a.deletedAt == b.deletedAt
    ensures a.userId == b.userId
    ensures a.key == b.key
    ensures a.name == b.name
    ensures a.groupId == b.groupId
  {
    assert a.id == b.id by { SameView(a, b, Id); }
    assert a.createdAt == b.createdAt by { SameView(a, b, CreatedAt); }
    assert a.updatedAt == b.updatedAt by { SameView(a, b, UpdatedAt); }
    assert a.deletedAt == b.deletedAt by { SameView(a, b, DeletedAt); }
    assert a.userId == b.userId by { SameView(a, b, UserId); }
    assert a.key == b.key by { SameView(a, b, KeyText); }
    assert a.name == b.name by { SameView(a, b, Name); }
    assert a.groupId == b.groupId by { SameView(a, b, GroupId); }
  }

  lemma SameTerms(a: APIKey, b: APIKey)
    requires SameViews(a, b)
    ensures a.status == b.status
    ensures a.lastUsedAt == b.lastUsedAt
    ensures a.ipWhitelist == b.ipWhitelist
    ensures a.ipBlacklist == b.ipBlacklist
    ensures a.quota == b.quota
    ensures a.quotaUsed == b.quotaUsed
    ensures a.expiresAt == b.expiresAt
    ensures a.rateLimit5h == b.rateLimit5h
  {
    assert a.status == b.status by { SameView(a, b, Status); }
    assert a.lastUsedAt == b.lastUsedAt by { SameView(a, b, LastUsedAt); }
    assert a.ipWhitelist == b.ipWhitelist by { SameView(a, b, IpWhitelist); }
    assert a.ipBlacklist == b.ipBlacklist by { SameView(a, b, IpBlacklist); }
    assert a.quota == b.quota by { SameView(a, b, Quota); }
    assert a.quotaUsed == b.quotaUsed by { SameView(a, b, QuotaUsed); }
    assert a.expiresAt == b.expiresAt by { SameView(a, b, ExpiresAt); }
    assert a.rateLimit5h == b.rateLimit5h by { SameView(a, b, RateLimit5h); }
  }

  lemma SameUsage(a: APIKey, b: APIKey)
    requires SameViews(a, b)
    ensures a.rateLimit1d == b.rateLimit1d
    ensures a.rateLimit7d == b.rateLimit7d
    ensures a.usage5h == b.usage5h
    ensures a.usage1d == b.usage1d
    ensures a.usage7d == b.usage7d
    ensures a.window5hStart == b.window5hStart
    ensures a.window1dStart == b.window1dStart
    ensures a.window7dStart == b.window7dStart
  {
    assert a.rateLimit1d == b.rateLimit1d by { SameView(a, b, RateLimit1d); }
    assert a.rateLimit7d == b.rateLimit7d by { SameView(a, b, RateLimit7d); }
    assert a.usage5h == b.usage5h by { SameView(a, b, Usage5h); }
    assert a.usage1d == b.usage1d by { SameView(a, b, Usage1d); }
    assert a.usage7d == b.usage7d by { SameView(a, b, Usage7d); }
    assert a.window5hStart == b.window5hStart by { SameView(a, b, Window5hStart); }
    assert a.window1dStart == b.window1dStart by { SameView(a, b, Window1dStart); }
    assert a.window7dStart == b.window7dStart by { SameView(a, b, Window7dStart); }
  }

  lemma SameFieldsSameNode(a: APIKey, b: APIKey)
    requires a.selectValues == b.selectValues
    requires SameViews(a, b)
    ensures a == b
  {
    SameIdentity(a, b);
    SameTerms(a, b);
    SameUsage(a, b);
  }

  /** What the saved node shows is what the written row holds, column by column. */
  lemma CreatedNodeMatchesRow(m: APIKeyMutation, id: int, c: Column)
    ensures View(CreatedNode(m).(id := id), c) == Seen(Written(m, id, c), c)
  {
  }

  /**
    Reading back the written row through the full column list, in any order, with any repetitions and
    with any unknown columns besides, gives exactly the node that the save returned; the values of the
    unknown columns are kept aside.
  */
  lemma RowRoundTrip(m: APIKeyMutation, id: int, columns: seq<Column>)
    requires forall c: Column :: !c.Unknown? ==> c in columns
    ensures WellTyped(WrittenRow(m, id))
    ensures
      var r := ReadBack(WrittenRow(m, id), columns);
      && r.Some? && KeptAside(WrittenRow(m, id), columns, r.value.selectValues)
      && r.value.(selectValues := map[]) == CreatedNode(m).(id := id)
  {
    WrittenIsWellTyped(m, id);
    var row, node := WrittenRow(m, id), CreatedNode(m).(id := id);
    ReadBackKeepsAside(row, columns);
    var r := ReadBack(row, columns).value.(selectValues := map[]);
    forall c
      ensures View(r, c) == View(node, c)
    {
      if !c.Unknown? {
        ReadBackFields(row, columns, c);
        CreatedNodeMatchesRow(m, id, c);
      }
    }
    SameFieldsSameNode(r, node);
  }

  /** A narrower column list reads the selected fields of the saved node and zeroes for the rest. */
  lemma PartialRowRoundTrip(m: APIKeyMutation, id: int, columns: seq<Column>, c: Column)
    requires !c.Unknown?
    ensures WellTyped(WrittenRow(m, id))
    ensures
      var r := ReadBack(WrittenRow(m, id), columns);
      r.Some? && View(r.value, c) == View(if c in columns then CreatedNode(m).(id := id) else ZERO, c)
  {
    WrittenIsWellTyped(m, id);
    ReadBackFields(WrittenRow(m, id), columns, c);
    CreatedNodeMatchesRow(m, id, c);
  }

  // ----- check

  /** The validators that the runtime package installs. */
  datatype Validators = Validators(keyOk: string -> bool, nameOk: string -> bool, statusOk: string -> bool)

  /** `check`: the first offending field. */
  function Check(v: Validators, m: APIKeyMutation): Option<Column> {
    if m.createdAt.None? then Some(CreatedAt)
    else if m.updatedAt.None? then Some(UpdatedAt)
    else if m.user.None? then Some(UserId)
    else if m.key.None? || !v.keyOk(m.key.value) then Some(KeyText)
    else if m.name.None? || !v.nameOk(m.name.value) then Some(Name)
    else if m.status.None? || !v.statusOk(m.status.value) then Some(Status)
    else if m.quota.None? then Some(Quota)
    else if m.quotaUsed.None? then Some(QuotaUsed)
    else if m.rateLimit5h.None? then Some(RateLimit5h)
    else if m.rateLimit1d.None? then Some(RateLimit1d)
    else if m.rateLimit7d.None? then Some(RateLimit7d)
    else if m.usage5h.None? then Some(Usage5h)
    else if m.usage1d.None? then Some(Usage1d)
    else if m.usage7d.None? then Some(Usage7d)
    else None
  }

  /** The columns whose Go field is a pointer or a slice; every other known column is required. */
  predicate Nullable(c: Column) {
    c in {DeletedAt, GroupId, LastUsedAt, IpWhitelist, IpBlacklist, ExpiresAt, Window5hStart, Window1dStart,
      Window7dStart}
  }

  ghost predicate RequiredColumnsFilled(m: APIKeyMutation, id: int) {
    forall c :: !Nullable(c) && !c.Unknown? ==> Written(m, id, c) != Null
  }

  predicate RequiredFieldsSet(m: APIKeyMutation) {
    && m.createdAt.Some? && m.updatedAt.Some? && m.user.Some? && m.key.Some? && m.name.Some? && m.status.Some?
    && m.quota.Some? && m.quotaUsed.Some? && m.rateLimit5h.Some? && m.rateLimit1d.Some? && m.rateLimit7d.Some?
    && m.usage5h.Some? && m.usage1d.Some? && m.usage7d.Some?
  }

  lemma RequiredColumnFilled(m: APIKeyMutation, id: int, c: Column)
    requires RequiredFieldsSet(m) && !Nullable(c) && !c.Unknown?
    ensures Written(m, id, c) != Null
  {
  }

  lemma FilledMeansSet(m: APIKeyMutation, id: int)
    requires RequiredColumnsFilled(m, id)
    ensures RequiredFieldsSet(m)
  {
    assert m.createdAt.Some? by { assert Written(m, id, CreatedAt) != Null; }
    assert m.updatedAt.Some? by { assert Written(m, id, UpdatedAt) != Null; }
    assert m.user.Some? by { assert Written(m, id, UserId) != Null; }
    assert m.key.Some? by { assert Written(m, id, KeyText) != Null; }
    assert m.name.Some? by { assert Written(m, id, Name) != Null; }
    assert m.status.Some? by { assert Written(m, id, Status) != Null; }
    assert m.quota.Some? by { assert Written(m, id, Quota) != Null; }
    assert m.quotaUsed.Some? by { assert Written(m, id, QuotaUsed) != Null; }
    assert m.rateLimit5h.Some? by { assert Written(m, id, RateLimit5h) != Null; }
    assert m.rateLimit1d.Some? by { assert Written(m, id, RateLimit1d) != Null; }
    assert m.rateLimit7d.Some? by { assert Written(m, id, RateLimit7d) != Null; }
    assert m.usage5h.Some? by { assert Written(m, id, Usage5h) != Null; }
    assert m.usage1d.Some? by { assert Written(m, id, Usage1d) != Null; }
    assert m.usage7d.Some? by { assert Written(m, id, Usage7d) != Null; }
  }

  /** The required columns in the order in which `check` looks at them. */
  const REQUIRED: seq<Column> := [
    CreatedAt, UpdatedAt, UserId, KeyText, Name, Status, Quota, QuotaUsed,
    RateLimit5h, RateLimit1d, RateLimit7d, Usage5h, Usage1d, Usage7d]

  /** What `check` has against a required column, by its position: it is unset, or its validator rejects it. */
  predicate Offends(v: Validators, m: APIKeyMutation, column: nat) {
    match column
    case 0 => m.createdAt.None?
    case 1 => m.updatedAt.None?
    case 2 => m.user.None?
    case 3 => m.key.None? || !v.keyOk(m.key.value)
    case 4 => m.name.None? || !v.nameOk(m.name.value)
    case 5 => m.status.None? || !v.statusOk(m.status.value)
    case 6 => m.quota.None?
    case 7 => m.quotaUsed.None?
    case 8 => m.rateLimit5h.None?
    case 9 => m.rateLimit1d.None?
    case 10 => m.rateLimit7d.None?
    case 11 => m.usage5h.None?
    case 12 => m.usage1d.None?
    case 13 => m.usage7d.None?
    case _ => false
  }

  /** The columns in front of position `i` are in order. */
  ghost predicate InOrderUpTo(v: Validators, m: APIKeyMutation, i: nat) {
    forall j :: 0 <= j < i ==> !Offends(v, m, j)
  }

  lemma EarlyColumnsInOrder(v: Validators, m: APIKeyMutation, i: nat)
    requires InOrderUpTo(v, m, i)
    ensures 0 < i ==> m.createdAt.Some?
    ensures 1 < i ==> m.updatedAt.Some?
    ensures 2 < i ==> m.user.Some?
    ensures 3 < i ==> m.key.Some? && v.keyOk(m.key.value)
    ensures 4 < i ==> m.name.Some? && v.nameOk(m.name.value)
    ensures 5 < i ==> m.status.Some? && v.statusOk(m.status.value)
    ensures 6 < i ==> m.quota.Some?
  {
    assert 0 < i ==> !Offends(v, m, 0);
    assert 1 < i ==> !Offends(v, m, 1);
    assert 2 < i ==> !Offends(v, m, 2);
    assert 3 < i ==> !Offends(v, m, 3);
    assert 4 < i ==> !Offends(v, m, 4);
    assert 5 < i ==> !Offends(v, m, 5);
    assert 6 < i ==> !Offends(v, m, 6);
  }

  lemma LateColumnsInOrder(v: Validators, m: APIKeyMutation, i: nat)
    requires InOrderUpTo(v, m, i)
    ensures 7 < i ==> m.quotaUsed.Some?
    ensures 8 < i ==> m.rateLimit5h.Some?
    ensures 9 < i ==> m.rateLimit1d.Some?
    ensures 10 < i ==> m.rateLimit7d.Some?
    ensures 11 < i ==> m.usage5h.Some?
    ensures 12 < i ==> m.usage1d.Some?
    ensures 13 < i ==> m.usage7d.Some?
  {
    assert 7 < i ==> !Offends(v, m, 7);
    assert 8 < i ==> !Offends(v, m, 8);
    assert 9 < i ==> !Offends(v, m, 9);
    assert 10 < i ==> !Offends(v, m, 10);
    assert 11 < i ==> !Offends(v, m, 11);
    assert 12 < i ==> !Offends(v, m, 12);
    assert 13 < i ==> !Offends(v, m, 13);
  }

  /** `check` names the first offending column, and passes when there is none. */
  lemma CheckNamesTheFirst(v: Validators, m: APIKeyMutation, i: nat)
    requires i <= 14 && InOrderUpTo(v, m, i) && (i < 14 ==> Offends(v, m, i))
    ensures Check(v, m) == if i < 14 then Some(REQUIRED[i]) else None
  {
    EarlyColumnsInOrder(v, m, i);
    LateColumnsInOrder(v, m, i);
  }

  /** A mutation passes `check` exactly when its row fills every required column and the validators agree. */
  lemma CheckFillsRequiredColumns(v: Validators, m: APIKeyMutation, id: int)
    ensures Check(v, m).None? <==>
      && RequiredColumnsFilled(m, id)
      && v.keyOk(Or(m.key, "")) && v.nameOk(Or(m.name, "")) && v.statusOk(Or(m.status, ""))
  {
    if RequiredFieldsSet(m) {
      forall c | !Nullable(c) && !c.Unknown?
        ensures Written(m, id, c) != Null
      {
        RequiredColumnFilled(m, id, c);
      }
    } else if RequiredColumnsFilled(m, id) {
      FilledMeansSet(m, id);
    }
  }
}
