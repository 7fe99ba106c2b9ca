/**
 * The query rewrite that keeps tenants apart. A scoped call on the shared table does to one tenant's
 * rows what the call would do on a table holding only those rows, and nothing to the others.
 */
module TenantScoping {
  import opened Selections
  import opened Wrappers

  datatype Value = Null | Text(text: string) | Number(number: real) | Flag(flag: bool)

  type Row = map<string, Value>

  type Table = seq<Row>

  /** A `where` object: its field filters and its `AND`, `OR` and `NOT` keys. */
  datatype Where = Where(
    fields: map<string, Value -> bool>,
    all: seq<Where>,
    anyGiven: bool,
    any: seq<Where>,
    none: seq<Where>)

  datatype Payload = Absent | One(row: Row) | Many(rows: seq<Row>)

  /** `shape` stands for the ordering, paging, selection or aggregation applied to the matching rows. */
  datatype Args = Args(
    where_: Option<Where>,
    data: Payload,
    create: Payload,
    update: Payload,
    shape: seq<Row> -> seq<Row>)

  datatype Operation =
    | FindUnique | FindUniqueOrThrow | FindFirst | FindFirstOrThrow | FindMany | Count | Aggregate | GroupBy
    | Create | CreateMany | Update | UpdateMany | Upsert | Delete | DeleteMany

  datatype Reply =
    | Rows(rows: seq<Row>)
    | Affected(count: nat)
    | RecordNotFound
    | UniqueViolation
    | InvalidArgs

  const TENANT := "tenantId"

  // --- The rewrite.

  predicate TakesWhere(op: Operation) { !op.Create? && !op.CreateMany? }

  predicate TakesUniqueWhere(op: Operation) {
    op.FindUnique? || op.FindUniqueOrThrow? || op.Update? || op.Upsert? || op.Delete?
  }

  const EMPTY_WHERE := Where(map[], [], false, [], [])

  function IsTenant(t: string): Value -> bool { v => v == Text(t) }

  function StampRow(row: Row, t: string): Row { row[TENANT := Text(t)] }

  function Stamp(data: Payload, t: string): Payload {
    match data
    case Absent => Absent
    case One(row) => One(StampRow(row, t))
    case Many(rows) => Many(seq(|rows|, i requires 0 <= i < |rows| => StampRow(rows[i], t)))
  }

  function ScopeWhere(op: Operation, w: Where, t: string): Where {
    if TakesUniqueWhere(op) then w.(fields := w.fields[TENANT := IsTenant(t)])
    else Where(map[], [w, Where(map[TENANT := IsTenant(t)], [], false, [], [])], false, [], [])
  }

  function WhereOf(args: Args): Where { if args.where_.Some? then args.where_.value else EMPTY_WHERE }

  function Scope(op: Operation, args: Args, t: string): Args {
    Args(
      if TakesWhere(op) then Some(ScopeWhere(op, WhereOf(args), t)) else args.where_,
      if op in {Create, Update, CreateMany} then Stamp(args.data, t) else args.data,
      if op.Upsert? then Stamp(args.create, t) else args.create,
      if op.Upsert? then Stamp(args.update, t) else args.update,
      args.shape)
  }

  // --- What an operation does to a table.

  function Column(row: Row, f: string): Value { if f in row then row[f] else Null }

  predicate Matches(w: Where, row: Row) {
    && (forall f | f in w.fields :: w.fields[f](Column(row, f)))
    && (forall i | 0 <= i < |w.all| :: Matches(w.all[i], row))
    && (w.anyGiven ==> exists i | 0 <= i < |w.any| :: Matches(w.any[i], row))
    && (forall i | 0 <= i < |w.none| :: !Matches(w.none[i], row))
  }

  function Matching(table: Table, w: Where): Table {
    if table == [] then []
    else (if Matches(w, table[0]) then [table[0]] else []) + Matching(table[1..], w)
  }

  function PatchFirst(table: Table, w: Where, patch: Row): Table {
    if table == [] then []
    else if Matches(w, table[0]) then [table[0] + patch] + table[1..]
    else [table[0]] + PatchFirst(table[1..], w, patch)
  }

  function PatchAll(table: Table, w: Where, patch: Row): Table {
    if table == [] then []
    else [if Matches(w, table[0]) then table[0] + patch else table[0]] + PatchAll(table[1..], w, patch)
  }

  function DropFirst(table: Table, w: Where): Table {
    if table == [] then []
    else if Matches(w, table[0]) then table[1..]
    else [table[0]] + DropFirst(table[1..], w)
  }

  function DropAll(table: Table, w: Where): Table {
    if table == [] then []
    else (if Matches(w, table[0]) then [] else [table[0]]) + DropAll(table[1..], w)
  }

  /** A unique key of the model: the values no two rows may share, or none for a row the key does not apply to. */
  type Key = Row -> Option<seq<Value>>

  /** All unique keys of the model. */
  type Keys = seq<Key>

  ghost predicate SharesKey(key: Key, a: Row, b: Row) { key(a).Some? && key(a) == key(b) }

  /** Two rows the table cannot both hold. */
  ghost predicate Collide(keys: Keys, a: Row, b: Row) { exists i :: 0 <= i < |keys| && SharesKey(keys[i], a, b) }

  ghost predicate Accepts(keys: Keys, table: Table) {
    table == [] || ((forall row | row in table[1..] :: !Collide(keys, row, table[0])) && Accepts(keys, table[1..]))
  }

  /** Reads find exactly the matching rows, in table order. */
  lemma {:induction false} MatchingSelects(table: Table, w: Where)
    ensures Selects(table, (row: Row) => Matches(w, row), (row: Row) => row, Matching(table, w))
  {
    hide Matches, Selects;
    var keep := (row: Row) => Matches(w, row);
    var project := (row: Row) => row;
    if table == [] {
      SelectsNothing(keep, project);
    } else {
      MatchingSelects(table[1..], w);
      SelectsOneBefore(table[0], table[1..], keep, project, Matching(table[1..], w));
      assert [table[0]] + table[1..] == table;
    }
  }

  /** `deleteMany` leaves exactly the other rows, in table order. */
  lemma {:induction false} DropAllSelects(table: Table, w: Where)
    ensures Selects(table, (row: Row) => !Matches(w, row), (row: Row) => row, DropAll(table, w))
  {
    hide Matches, Selects;
    var keep := (row: Row) => !Matches(w, row);
    var project := (row: Row) => row;
    if table == [] {
      SelectsNothing(keep, project);
    } else {
      DropAllSelects(table[1..], w);
      SelectsOneBefore(table[0], table[1..], keep, project, DropAll(table[1..], w));
      assert [table[0]] + table[1..] == table;
    }
  }

  /** `updateMany` patches the matching rows in place. */
  lemma {:induction false} PatchAllAt(table: Table, w: Where, patch: Row, i: nat)
    ensures |PatchAll(table, w, patch)| == |table|
    ensures i < |table| ==> PatchAll(table, w, patch)[i] == if Matches(w, table[i]) then table[i] + patch else table[i]
  {
    hide Matches;
    if table != [] { PatchAllAt(table[1..], w, patch, if i == 0 then 0 else i - 1); }
  }

  ghost predicate FirstMatch(table: Table, w: Where, i: nat) {
    i < |table| && Matches(w, table[i]) && forall j | 0 <= j < i :: !Matches(w, table[j])
  }

  /** `update` and `delete` change the first matching row and no other. */
  lemma {:induction false} FirstAt(table: Table, w: Where, patch: Row, i: nat)
    requires FirstMatch(table, w, i)
    ensures PatchFirst(table, w, patch) == table[i := table[i] + patch]
    ensures DropFirst(table, w) == table[..i] + table[i + 1..]
  {
    hide Matches;
    if i > 0 {
      FirstAt(table[1..], w, patch, i - 1);
      assert [table[0]] + table[1..] == table;
    }
  }

  datatype Outcome = Outcome(table: Table, reply: Reply)

  /** The table an operation tries to write, and its answer if the table is accepted. */
  function Attempt(op: Operation, args: Args, table: Table): Outcome {
    var w := WhereOf(args);
    var found := Matching(table, w);
    match op
    case FindUnique => Outcome(table, Rows(found[..if found == [] then 0 else 1]))
    case FindUniqueOrThrow => Outcome(table, if found == [] then RecordNotFound else Rows(found[..1]))
    case FindFirst =>
      var shown := args.shape(found);
      Outcome(table, Rows(shown[..if shown == [] then 0 else 1]))
    case FindFirstOrThrow =>
      var shown := args.shape(found);
      Outcome(table, if shown == [] then RecordNotFound else Rows(shown[..1]))
    case FindMany => Outcome(table, Rows(args.shape(found)))
    case Count => Outcome(table, Affected(|args.shape(found)|))
    case Aggregate => Outcome(table, Rows(args.shape(found)))
    case GroupBy => Outcome(table, Rows(args.shape(found)))
    case Create =>
      if args.data.One? then Outcome(table + [args.data.row], Rows([args.data.row])) else Outcome(table, InvalidArgs)
    case CreateMany =>
      (match args.data
       case Absent => Outcome(table, InvalidArgs)
       case One(row) => Outcome(table + [row], Affected(1))
       case Many(rows) => Outcome(table + rows, Affected(|rows|)))
    case Update =>
      if !args.data.One? then Outcome(table, InvalidArgs)
      else if found == [] then Outcome(table, RecordNotFound)
      else Outcome(PatchFirst(table, w, args.data.row), Rows([found[0] + args.data.row]))
    case UpdateMany =>
      if !args.data.One? then Outcome(table, InvalidArgs)
      else Outcome(PatchAll(table, w, args.data.row), Affected(|found|))
    case Upsert =>
      if !args.create.One? || !args.update.One? then Outcome(table, InvalidArgs)
      else if found == [] then Outcome(table + [args.create.row], Rows([args.create.row]))
      else Outcome(PatchFirst(table, w, args.update.row), Rows([found[0] + args.update.row]))
    case Delete =>
      if found == [] then Outcome(table, RecordNotFound) else Outcome(DropFirst(table, w), Rows(found[..1]))
    case DeleteMany => Outcome(DropAll(table, w), Affected(|found|))
  }

  ghost function Exec(keys: Keys, op: Operation, args: Args, table: Table): Outcome {
    var o := Attempt(op, args, table);
    if Accepts(keys, o.table) then o else Outcome(table, UniqueViolation)
  }

  // --- A tenant's rows, and everybody else's.

  predicate Owns(t: string, row: Row) { Column(row, TENANT) == Text(t) }

  function Only(table: Table, t: string): Table {
    if table == [] then [] else (if Owns(t, table[0]) then [table[0]] else []) + Only(table[1..], t)
  }

  function Others(table: Table, t: string): Table {
    if table == [] then [] else (if Owns(t, table[0]) then [] else [table[0]]) + Others(table[1..], t)
  }

  lemma {:induction false} PartsSelect(table: Table, t: string)
    ensures Selects(table, (row: Row) => "tenantId" in row && row["tenantId"] == Text(t), (row: Row) => row, Only(table, t))
    ensures Selects(table, (row: Row) => !("tenantId" in row && row["tenantId"] == Text(t)), (row: Row) => row, Others(table, t))
  {
    hide Selects;
    var owned := (row: Row) => "tenantId" in row && row["tenantId"] == Text(t);
    var foreign := (row: Row) => !("tenantId" in row && row["tenantId"] == Text(t));
    var project := (row: Row) => row;
    if table == [] {
      SelectsNothing(owned, project);
      SelectsNothing(foreign, project);
    } else {
      PartsSelect(table[1..], t);
      SelectsOneBefore(table[0], table[1..], owned, project, Only(table[1..], t));
      SelectsOneBefore(table[0], table[1..], foreign, project, Others(table[1..], t));
      assert [table[0]] + table[1..] == table;
    }
  }

  /** The row the tenant meant to write: the columns it gave, in its own name. */
  function InOwnName(row: Row, t: string): Row {
    map f | f in row.Keys + {"tenantId"} :: if f == "tenantId" then Text(t) else row[f]
  }

  function PayloadInOwnName(p: Payload, t: string): Payload {
    match p
    case Absent => p
    case One(row) => One(InOwnName(row, t))
    case Many(rows) => Many(seq(|rows|, i requires 0 <= i < |rows| => InOwnName(rows[i], t)))
  }

  /** The call the tenant meant: any tenant it named in a unique `where` is dropped, the rows it gives are its own. */
  function Meant(op: Operation, args: Args, t: string): Args {
    var w := WhereOf(args);
    var unnamed := Some(w.(fields := w.fields - {"tenantId"}));
    match op
    case FindUnique => args.(where_ := unnamed)
    case FindUniqueOrThrow => args.(where_ := unnamed)
    case Delete => args.(where_ := unnamed)
    case Update => args.(where_ := unnamed, data := PayloadInOwnName(args.data, t))
    case Upsert =>
      args.(where_ := unnamed, create := PayloadInOwnName(args.create, t), update := PayloadInOwnName(args.update, t))
    case Create => args.(data := PayloadInOwnName(args.data, t))
    case CreateMany => args.(data := PayloadInOwnName(args.data, t))
    case _ => args
  }

  /** `row` has the columns of `given` with the same values, and the tenant `t`. */
  ghost predicate SameColumns(given: Row, row: Row, t: string) {
    && row.Keys == given.Keys + {"tenantId"}
    && row["tenantId"] == Text(t)
    && forall f | f in given && f != "tenantId" :: row[f] == given[f]
  }

  /** Row by row, in order. */
  ghost predicate SameRows(given: Payload, sent: Payload, t: string) {
    match given
    case Absent => sent.Absent?
    case One(row) => sent.One? && SameColumns(row, sent.row, t)
    case Many(rows) =>
      sent.Many? && |sent.rows| == |rows| && forall i | 0 <= i < |rows| :: SameColumns(rows[i], sent.rows[i], t)
  }

  /** Each payload goes out in its own place with the caller's columns, and only the tenant set. */
  ghost predicate PayloadsKept(op: Operation, args: Args, s: Args, t: string) {
    && (if op.Create? || op.CreateMany? || op.Update? then SameRows(args.data, s.data, t) else s.data == args.data)
    && (if op.Upsert? then SameRows(args.create, s.create, t) && SameRows(args.update, s.update, t)
        else s.create == args.create && s.update == args.update)
    && (op.Create? || op.CreateMany? ==> s.where_ == args.where_)
    && s.shape == args.shape
  }

  lemma PayloadsAreTheCallers(op: Operation, args: Args, t: string)
    ensures PayloadsKept(op, args, Scope(op, args, t), t)
  {
  }

  lemma StampedInOwnName(p: Payload, t: string)
    ensures Stamp(p, t) == PayloadInOwnName(p, t)
  {
    match p
    case Absent =>
    case One(row) => assert StampRow(row, t) == InOwnName(row, t);
    case Many(rows) =>
      forall i | 0 <= i < |rows| ensures StampRow(rows[i], t) == InOwnName(rows[i], t) {}
      assert Stamp(p, t).rows == PayloadInOwnName(p, t).rows;
  }

  /** But for the filter, the rewritten call is the one the tenant meant. */
  lemma ScopedButForWhere(op: Operation, args: Args, t: string)
    ensures Scope(op, args, t).(where_ := None) == Meant(op, args, t).(where_ := None)
    ensures WhereOf(Meant(op, args, t))
            == if TakesUniqueWhere(op) then WhereOf(args).(fields := WhereOf(args).fields - {TENANT}) else WhereOf(args)
  {
    hide Stamp, PayloadInOwnName, ScopeWhere;
    StampedInOwnName(args.data, t);
    StampedInOwnName(args.create, t);
    StampedInOwnName(args.update, t);
  }

  /** Reassigning rows to another tenant through `updateMany`, whose data is not stamped. */
  predicate KeepsTenant(op: Operation, args: Args, t: string) {
    op.UpdateMany? && args.data.One? && TENANT in args.data.row ==> args.data.row[TENANT] == Text(t)
  }

  /** The tenant's new rows would take a key that another tenant's row holds. */
  ghost predicate Clash(keys: Keys, own: Table, others: Table) {
    exists row, other :: row in own && other in others && Collide(keys, row, other)
  }

  lemma MergedMatches(w: Where, t: string, row: Row)
    ensures Matches(w.(fields := w.fields[TENANT := IsTenant(t)]), row)
            <==> Owns(t, row) && Matches(w.(fields := w.fields - {TENANT}), row)
  {
    var s := w.(fields := w.fields[TENANT := IsTenant(t)]);
    var u := w.(fields := w.fields - {TENANT});
    assert s.fields[TENANT](Column(row, TENANT)) <==> Owns(t, row);
    assert forall f | f in u.fields :: s.fields[f] == u.fields[f];
    assert forall f | f in s.fields && f != TENANT :: f in u.fields;
  }

  lemma WrappedMatches(w: Where, t: string, row: Row)
    ensures Matches(Where(map[], [w, Where(map[TENANT := IsTenant(t)], [], false, [], [])], false, [], []), row)
            <==> Owns(t, row) && Matches(w, row)
  {
    var own := Where(map[TENANT := IsTenant(t)], [], false, [], []);
    assert Matches(own, row) <==> Owns(t, row) by {
      assert own.fields[TENANT](Column(row, TENANT)) <==> Owns(t, row);
    }
    var s := Where(map[], [w, own], false, [], []);
    assert s.all[0] == w && s.all[1] == own;
  }

  lemma ScopedMatches(op: Operation, w: Where, t: string, row: Row)
    ensures Matches(ScopeWhere(op, w, t), row)
            <==> Owns(t, row) && Matches(if TakesUniqueWhere(op) then w.(fields := w.fields - {TENANT}) else w, row)
  {
    hide Matches, IsTenant;
    if TakesUniqueWhere(op) { MergedMatches(w, t, row); } else { WrappedMatches(w, t, row); }
  }

  /**
   * The rewritten filter selects the tenant's rows that the caller's selects, whatever tenant a unique
   * one named, and a unique one keeps its selectors at the top level.
   */
  ghost predicate SelectsOwn(op: Operation, given: Where, sent: Where, t: string) {
    && (TakesUniqueWhere(op) ==> sent.fields - {"tenantId"} == given.fields - {"tenantId"})
    && forall row :: Matches(sent, row) <==>
                    && ("tenantId" in row && row["tenantId"] == Text(t))
                    && Matches(if TakesUniqueWhere(op) then given.(fields := given.fields - {"tenantId"}) else given, row)
  }

  lemma ScopedSelectsOwn(op: Operation, args: Args, t: string)
    requires TakesWhere(op)
    ensures SelectsOwn(op, WhereOf(args), WhereOf(Scope(op, args, t)), t)
  {
    hide Matches, Stamp;
    forall row { ScopedMatches(op, WhereOf(args), t, row); }
  }

  /** The rewrite as it runs: pass through unscoped models, refuse without a tenant, else rewrite a copy. */
  method ApplyTenantScoping(models: set<string>, model: Option<string>, tenantId: Option<string>, op: Operation, args: Args)
    returns (r: Result<Args>)
    ensures model.None? || model.value !in models ==> r == Ok(args)
    ensures model.Some? && model.value in models && (tenantId.None? || tenantId.value == "") ==> r == Err(Forbidden)
    ensures model.Some? && model.value in models && tenantId.Some? && tenantId.value != "" ==>
              && r == Ok(Scope(op, args, tenantId.value))
              && PayloadsKept(op, args, r.value, tenantId.value)
              && (TakesWhere(op) ==> SelectsOwn(op, WhereOf(args), WhereOf(r.value), tenantId.value))
  {
    if model.None? || model.value !in models {
      return Ok(args);
    }
    if tenantId.None? || tenantId.value == "" {
      return Err(Forbidden);
    }
    var t := tenantId.value;
    var scopedArgs := args;
    if TakesWhere(op) {
      var existingWhere := if scopedArgs.where_.Some? then scopedArgs.where_.value else EMPTY_WHERE;
      if TakesUniqueWhere(op) {
        scopedArgs := scopedArgs.(where_ := Some(existingWhere.(fields := existingWhere.fields[TENANT := IsTenant(t)])));
      } else {
        var own := Where(map[TENANT := IsTenant(t)], [], false, [], []);
        scopedArgs := scopedArgs.(where_ := Some(Where(map[], [existingWhere, own], false, [], [])));
      }
    }
    match op {
      case Create => scopedArgs := scopedArgs.(data := Stamp(scopedArgs.data, t));
      case Update => scopedArgs := scopedArgs.(data := Stamp(scopedArgs.data, t));
      case CreateMany => scopedArgs := scopedArgs.(data := Stamp(scopedArgs.data, t));
      case Upsert =>
        scopedArgs := scopedArgs.(create := Stamp(scopedArgs.create, t));
        scopedArgs := scopedArgs.(update := Stamp(scopedArgs.update, t));
      case _ =>
    }
    PayloadsAreTheCallers(op, args, t);
    if TakesWhere(op) { ScopedSelectsOwn(op, args, t); }
    return Ok(scopedArgs);
  }

  /** Two filters that agree on a table's rows select the same ones. */
  ghost predicate Agree(v: Where, w: Where, table: Table) {
    forall row | row in table :: Matches(v, row) <==> Matches(w, row)
  }

  lemma {:induction false} AgreeingFilters(v: Where, w: Where, table: Table, patch: Row)
    requires Agree(v, w, table)
    ensures Matching(table, v) == Matching(table, w)
    ensures PatchFirst(table, v, patch) == PatchFirst(table, w, patch)
    ensures PatchAll(table, v, patch) == PatchAll(table, w, patch)
    ensures DropFirst(table, v) == DropFirst(table, w)
    ensures DropAll(table, v) == DropAll(table, w)
  {
    if table != [] { AgreeingFilters(v, w, table[1..], patch); }
  }

  lemma {:induction false} OnlyOwned(table: Table, t: string)
    ensures forall row | row in Only(table, t) :: Owns(t, row)
    ensures forall row | row in Others(table, t) :: !Owns(t, row)
    ensures (forall row | row in table :: Owns(t, row)) ==> Only(table, t) == table && Others(table, t) == []
  {
    if table != [] { OnlyOwned(table[1..], t); }
  }

  /** A filter that only ever selects rows of `t`. */
  ghost predicate SelectsOnly(w: Where, t: string) { forall row :: Matches(w, row) ==> Owns(t, row) }

  predicate KeepsOwner(patch: Row, t: string) { TENANT in patch ==> patch[TENANT] == Text(t) }

  lemma OnlyHead(table: Table, t: string)
    requires table != []
    ensures if Owns(t, table[0])
            then Only(table, t) != [] && Only(table, t)[0] == table[0] && Only(table, t)[1..] == Only(table[1..], t)
                 && Others(table, t) == Others(table[1..], t)
            else Only(table, t) == Only(table[1..], t)
                 && Others(table, t) != [] && Others(table, t)[0] == table[0] && Others(table, t)[1..] == Others(table[1..], t)
  {
  }

  lemma OnlyCons(row: Row, rest: Table, t: string)
    ensures Only([row] + rest, t) == (if Owns(t, row) then [row] else []) + Only(rest, t)
    ensures Others([row] + rest, t) == (if Owns(t, row) then [] else [row]) + Others(rest, t)
  {
    assert ([row] + rest)[1..] == rest;
  }

  lemma {:induction false} FilterOwn(table: Table, w: Where, t: string)
    requires SelectsOnly(w, t)
    ensures Matching(table, w) == Matching(Only(table, t), w)
  {
    if table != [] {
      FilterOwn(table[1..], w, t);
      OnlyHead(table, t);
    }
  }

  lemma {:induction false} PatchOwn(table: Table, w: Where, patch: Row, t: string)
    requires SelectsOnly(w, t) && KeepsOwner(patch, t)
    ensures Only(PatchFirst(table, w, patch), t) == PatchFirst(Only(table, t), w, patch)
    ensures Others(PatchFirst(table, w, patch), t) == Others(table, t)
    ensures Only(PatchAll(table, w, patch), t) == PatchAll(Only(table, t), w, patch)
    ensures Others(PatchAll(table, w, patch), t) == Others(table, t)
  {
    if table != [] {
      var rest := table[1..];
      PatchOwn(rest, w, patch, t);
      OnlyHead(table, t);
      var head := table[0] + patch;
      OnlyCons(head, rest, t);
      OnlyCons(table[0], PatchFirst(rest, w, patch), t);
      OnlyCons(if Matches(w, table[0]) then head else table[0], PatchAll(rest, w, patch), t);
    }
  }

  lemma {:induction false} DropFirstOwn(table: Table, w: Where, t: string)
    requires SelectsOnly(w, t)
    ensures Only(DropFirst(table, w), t) == DropFirst(Only(table, t), w)
    ensures Others(DropFirst(table, w), t) == Others(table, t)
  {
    if table != [] {
      DropFirstOwn(table[1..], w, t);
      OnlyHead(table, t);
      OnlyCons(table[0], DropFirst(table[1..], w), t);
    }
  }

  lemma {:induction false} DropAllOwn(table: Table, w: Where, t: string)
    requires SelectsOnly(w, t)
    ensures Only(DropAll(table, w), t) == DropAll(Only(table, t), w)
    ensures Others(DropAll(table, w), t) == Others(table, t)
  {
    if table != [] {
      var rest := DropAll(table[1..], w);
      DropAllOwn(table[1..], w, t);
      OnlyHead(table, t);
      OnlyCons(table[0], rest, t);
      assert [] + rest == rest;
    }
  }

  lemma {:induction false} AppendOwn(table: Table, rows: Table, t: string)
    requires forall row | row in rows :: Owns(t, row)
    ensures Only(table + rows, t) == Only(table, t) + rows
    ensures Others(table + rows, t) == Others(table, t)
  {
    if table == [] {
      assert table + rows == rows;
      OnlyOwned(rows, t);
    } else {
      hide Owns, Only, Others;
      AppendOwn(table[1..], rows, t);
      assert table + rows == [table[0]] + (table[1..] + rows) && table == [table[0]] + table[1..];
      OnlyCons(table[0], table[1..] + rows, t);
      OnlyCons(table[0], table[1..], t);
    }
  }

  lemma {:induction false} InParts(table: Table, t: string, row: Row)
    ensures row in table <==> row in Only(table, t) || row in Others(table, t)
  {
    if table != [] { InParts(table[1..], t, row); }
  }

  lemma CollideIsSymmetric(keys: Keys, a: Row, b: Row)
    ensures Collide(keys, a, b) <==> Collide(keys, b, a)
  {
    if Collide(keys, a, b) {
      var i :| 0 <= i < |keys| && SharesKey(keys[i], a, b);
      assert SharesKey(keys[i], b, a);
    }
    if Collide(keys, b, a) {
      var i :| 0 <= i < |keys| && SharesKey(keys[i], b, a);
      assert SharesKey(keys[i], a, b);
    }
  }

  /** Uniqueness of the whole table is uniqueness of the parts and no clash between them. */
  lemma {:induction false} AcceptsParts(keys: Keys, table: Table, t: string)
    ensures Accepts(keys, table)
            <==> Accepts(keys, Only(table, t)) && Accepts(keys, Others(table, t)) && !Clash(keys, Only(table, t), Others(table, t))
  {
    if table != [] {
      var rest := table[1..];
      AcceptsParts(keys, rest, t);
      forall row
        ensures row in rest <==> row in Only(rest, t) || row in Others(rest, t)
      {
        InParts(rest, t, row);
      }
      forall row ensures Collide(keys, row, table[0]) <==> Collide(keys, table[0], row) { CollideIsSymmetric(keys, row, table[0]); }
      hide Collide;
      if Owns(t, table[0]) {
        assert Only(table, t)[1..] == Only(rest, t) && Others(table, t) == Others(rest, t);
      } else {
        assert Others(table, t)[1..] == Others(rest, t) && Only(table, t) == Only(rest, t);
      }
    }
  }

  lemma ScopeSelectsOnly(op: Operation, args: Args, t: string)
    requires TakesWhere(op)
    ensures SelectsOnly(WhereOf(Scope(op, args, t)), t)
    ensures forall row | Owns(t, row) :: Matches(WhereOf(Scope(op, args, t)), row) <==> Matches(WhereOf(Meant(op, args, t)), row)
  {
    ScopedButForWhere(op, args, t);
    hide Meant;
    forall row
      ensures Matches(WhereOf(Scope(op, args, t)), row) ==> Owns(t, row)
      ensures Owns(t, row) ==> (Matches(WhereOf(Scope(op, args, t)), row) <==> Matches(WhereOf(Meant(op, args, t)), row))
    {
      ScopedMatches(op, WhereOf(args), t, row);
    }
  }

  /** On the tenant's own rows the rewritten call is the call it meant. */
  lemma ScopedIsMeant(op: Operation, args: Args, table: Table, t: string)
    ensures Attempt(op, Scope(op, args, t), Only(table, t)) == Attempt(op, Meant(op, args, t), Only(table, t))
  {
    hide Matches, Only, Others, Matching, PatchFirst, PatchAll, DropFirst, DropAll, ScopeWhere, Stamp, Owns, Meant;
    var s, m := Scope(op, args, t), Meant(op, args, t);
    ScopedButForWhere(op, args, t);
    assert s.data == m.data && s.create == m.create && s.update == m.update && s.shape == m.shape;
    if TakesWhere(op) {
      OnlyOwned(table, t);
      ScopeSelectsOnly(op, args, t);
      assert Agree(WhereOf(s), WhereOf(m), Only(table, t));
      AgreeingFilters(WhereOf(s), WhereOf(m), Only(table, t), if s.data.One? then s.data.row else map[]);
      AgreeingFilters(WhereOf(s), WhereOf(m), Only(table, t), if s.update.One? then s.update.row else map[]);
    }
  }

  /** Before uniqueness is checked, the scoped call on the whole table is the call meant on the tenant's part. */
  lemma AttemptCommutes(op: Operation, args: Args, table: Table, t: string)
    requires KeepsTenant(op, args, t)
    ensures var whole := Attempt(op, Scope(op, args, t), table);
            var own := Attempt(op, Meant(op, args, t), Only(table, t));
            Only(whole.table, t) == own.table && Others(whole.table, t) == Others(table, t) && whole.reply == own.reply
  {
    hide Matches, Only, Others, Matching, PatchFirst, PatchAll, DropFirst, DropAll, ScopeWhere, Meant;
    var s := Scope(op, args, t);
    var w := WhereOf(s);
    ScopedIsMeant(op, args, table, t);
    if TakesWhere(op) {
      ScopeSelectsOnly(op, args, t);
      FilterOwn(table, w, t);
      DropFirstOwn(table, w, t);
      DropAllOwn(table, w, t);
    }
    match op
    case Create => if s.data.One? { AppendOwn(table, [s.data.row], t); }
    case CreateMany =>
      if s.data.One? { AppendOwn(table, [s.data.row], t); }
      if s.data.Many? { AppendOwn(table, s.data.rows, t); }
    case Update => if s.data.One? { PatchOwn(table, w, s.data.row, t); }
    case UpdateMany => if s.data.One? { PatchOwn(table, w, s.data.row, t); }
    case Upsert =>
      if s.create.One? { AppendOwn(table, [s.create.row], t); }
      if s.update.One? { PatchOwn(table, w, s.update.row, t); }
    case _ =>
  }

  /** The call touched only the tenant's rows, and did and answered what it would have done on those alone. */
  ghost predicate Isolated(keys: Keys, op: Operation, args: Args, table: Table, t: string) {
    var whole := Exec(keys, op, Scope(op, args, t), table);
    var own := Exec(keys, op, Meant(op, args, t), Only(table, t));
    Only(whole.table, t) == own.table && Others(whole.table, t) == Others(table, t) && whole.reply == own.reply
  }

  /** The rows a call writes to a table, as it writes them: none when it reads or deletes. */
  function Written(op: Operation, args: Args, table: Table): seq<Row> {
    var found := Matching(table, WhereOf(args));
    match op
    case Create => if args.data.One? then [args.data.row] else []
    case CreateMany => (match args.data case Absent => [] case One(row) => [row] case Many(rows) => rows)
    case Update => if args.data.One? && found != [] then [found[0] + args.data.row] else []
    case UpdateMany =>
      if args.data.One? then seq(|found|, i requires 0 <= i < |found| => found[i] + args.data.row) else []
    case Upsert =>
      if !args.create.One? || !args.update.One? then []
      else if found == [] then [args.create.row] else [found[0] + args.update.row]
    case _ => []
  }

  /** A row the call writes has the key of another tenant's row, and the tenant's own table would take the write. */
  ghost predicate TakesForeignKey(keys: Keys, op: Operation, args: Args, table: Table, t: string) {
    && Accepts(keys, Attempt(op, Meant(op, args, t), Only(table, t)).table)
    && Clash(keys, Written(op, Meant(op, args, t), Only(table, t)), Others(table, t))
  }

  lemma {:induction false} PatchFirstRows(table: Table, w: Where, patch: Row, row: Row)
    ensures row in PatchFirst(table, w, patch) ==>
              row in table || (Matching(table, w) != [] && row == Matching(table, w)[0] + patch)
    ensures Matching(table, w) != [] ==> Matching(table, w)[0] + patch in PatchFirst(table, w, patch)
  {
    if table != [] && !Matches(w, table[0]) { PatchFirstRows(table[1..], w, patch, row); }
  }

  lemma {:induction false} PatchAllRows(table: Table, w: Where, patch: Row, row: Row)
    ensures row in PatchAll(table, w, patch) ==> row in table || exists found :: found in Matching(table, w) && row == found + patch
    ensures forall found | found in Matching(table, w) :: found + patch in PatchAll(table, w, patch)
  {
    if table != [] { PatchAllRows(table[1..], w, patch, row); }
  }

  lemma {:induction false} DropRows(table: Table, w: Where, row: Row)
    ensures row in DropFirst(table, w) ==> row in table
    ensures row in DropAll(table, w) ==> row in table
  {
    if table != [] { DropRows(table[1..], w, row); }
  }

  /** The rows after a call are rows from before it and rows it wrote, which are all there. */
  lemma RowsAfter(op: Operation, args: Args, table: Table, row: Row)
    ensures row in Attempt(op, args, table).table ==> row in table || row in Written(op, args, table)
    ensures row in Written(op, args, table) ==> row in Attempt(op, args, table).table
  {
    hide Matches, Matching, PatchFirst, PatchAll, DropFirst, DropAll;
    var w := WhereOf(args);
    match op
    case Update => if args.data.One? { PatchFirstRows(table, w, args.data.row, row); }
    case Upsert => if args.update.One? { PatchFirstRows(table, w, args.update.row, row); }
    case UpdateMany =>
      if args.data.One? {
        PatchAllRows(table, w, args.data.row, row);
        var found := Matching(table, w);
        assert forall i | 0 <= i < |found| :: Written(op, args, table)[i] == found[i] + args.data.row;
      }
    case Delete => DropRows(table, w, row);
    case DeleteMany => DropRows(table, w, row);
    case _ =>
  }

  /** A clash with the tenant's new table can only come from a row the call wrote. */
  lemma ClashIsWritten(keys: Keys, op: Operation, args: Args, own: Table, others: Table)
    requires !Clash(keys, own, others)
    ensures Clash(keys, Attempt(op, args, own).table, others) <==> Clash(keys, Written(op, args, own), others)
  {
    hide Attempt, Written;
    forall row
      ensures row in Attempt(op, args, own).table ==> row in own || row in Written(op, args, own)
      ensures row in Written(op, args, own) ==> row in Attempt(op, args, own).table
    {
      RowsAfter(op, args, own, row);
    }
  }

  /** Reads and deletes write no row, so they never take another tenant's key. */
  lemma ReadsAndDeletesTakeNothing(keys: Keys, op: Operation, args: Args, table: Table, t: string)
    requires !op.Create? && !op.CreateMany? && !op.Update? && !op.UpdateMany? && !op.Upsert?
    ensures !TakesForeignKey(keys, op, args, table, t)
  {
  }

  lemma NoViolationOnReads(op: Operation, args: Args, table: Table)
    ensures Attempt(op, args, table).reply != UniqueViolation
  {
  }

  /** Scoping isolates the tenant exactly when no row the call writes takes a unique key of another tenant's row. */
  lemma ScopingIsolates(keys: Keys, op: Operation, args: Args, table: Table, t: string)
    requires Accepts(keys, table) && KeepsTenant(op, args, t)
    ensures Isolated(keys, op, args, table, t) <==> !TakesForeignKey(keys, op, args, table, t)
  {
    hide Matches, Only, Others, Attempt, Scope, Meant, Clash, Written;
    AttemptCommutes(op, args, table, t);
    var whole := Attempt(op, Scope(op, args, t), table);
    AcceptsParts(keys, whole.table, t);
    AcceptsParts(keys, table, t);
    NoViolationOnReads(op, Meant(op, args, t), Only(table, t));
    ClashIsWritten(keys, op, Meant(op, args, t), Only(table, t), Others(table, t));
  }

  /** Two rows that share the key have one tenant. */
  ghost predicate TenantKey(key: Key) { forall a, b | SharesKey(key, a, b) :: Column(a, TENANT) == Column(b, TENANT) }

  ghost predicate TenantKeys(keys: Keys) { forall i | 0 <= i < |keys| :: TenantKey(keys[i]) }

  /** A call writes the tenant's rows only. */
  lemma WritesOwn(op: Operation, args: Args, table: Table, t: string)
    requires KeepsTenant(op, args, t)
    ensures forall row | row in Written(op, Meant(op, args, t), Only(table, t)) :: Owns(t, row)
  {
    hide *;
    AttemptCommutes(op, args, table, t);
    OnlyOwned(Attempt(op, Scope(op, args, t), table).table, t);
    forall row | row in Written(op, Meant(op, args, t), Only(table, t)) ensures Owns(t, row) {
      RowsAfter(op, Meant(op, args, t), Only(table, t), row);
    }
  }

  /** A key that includes the tenant never clashes, so scoping then isolates without condition. */
  lemma TenantKeysIsolate(keys: Keys, op: Operation, args: Args, table: Table, t: string)
    requires Accepts(keys, table) && KeepsTenant(op, args, t)
    requires TenantKeys(keys)
    ensures Isolated(keys, op, args, table, t) && !TakesForeignKey(keys, op, args, table, t)
  {
    hide Matches, Only, Others, Attempt, Scope, Meant, Written, Accepts, KeepsTenant, Isolated;
    ScopingIsolates(keys, op, args, table, t);
    WritesOwn(op, args, table, t);
    OnlyOwned(table, t);
  }

  lemma {:induction false} HandedOver(table: Table, w: Where, patch: Row, t: string, u: string)
    requires SelectsOnly(w, t) && TENANT in patch && patch[TENANT] == Text(u) && u != t
    ensures |Others(PatchAll(table, w, patch), t)| == |Others(table, t)| + |Matching(table, w)|
    ensures Matching(table, w) == [] ==> PatchAll(table, w, patch) == table
  {
    if table != [] { HandedOver(table[1..], w, patch, t, u); }
  }

  /**
   * `updateMany` data naming another tenant hands over the rows it matches: the others stay as they
   * were only if none match or the write is refused.
   */
  lemma UnstampedUpdateMany(keys: Keys, args: Args, table: Table, t: string, u: string)
    requires args.data.One? && TENANT in args.data.row && args.data.row[TENANT] == Text(u) && u != t
    ensures Others(Exec(keys, UpdateMany, Scope(UpdateMany, args, t), table).table, t) == Others(table, t)
            <==> || Matching(table, WhereOf(Scope(UpdateMany, args, t))) == []
                 || !Accepts(keys, Attempt(UpdateMany, Scope(UpdateMany, args, t), table).table)
  {
    hide Matches, Others, PatchAll, Matching, Accepts, ScopeWhere;
    ScopeSelectsOnly(UpdateMany, args, t);
    HandedOver(table, WhereOf(Scope(UpdateMany, args, t)), args.data.row, t, u);
  }

  // --- Runs of calls by many tenants.

  datatype Call = Call(tenant: string, op: Operation, args: Args)

  ghost function Run(keys: Keys, table: Table, calls: seq<Call>): Table
    decreases |calls|
  {
    if calls == [] then table
    else Run(keys, Exec(keys, calls[0].op, Scope(calls[0].op, calls[0].args, calls[0].tenant), table).table, calls[1..])
  }

  function CallsOf(calls: seq<Call>, t: string): seq<Call> {
    if calls == [] then [] else (if calls[0].tenant == t then [calls[0]] else []) + CallsOf(calls[1..], t)
  }

  /** The answers tenant `t` gets during a run. */
  ghost function Replies(keys: Keys, table: Table, calls: seq<Call>, t: string): (r: seq<Reply>)
    ensures |r| == |CallsOf(calls, t)|
    decreases |calls|
  {
    if calls == [] then []
    else
      var o := Exec(keys, calls[0].op, Scope(calls[0].op, calls[0].args, calls[0].tenant), table);
      (if calls[0].tenant == t then [o.reply] else []) + Replies(keys, o.table, calls[1..], t)
  }

  /** No call of the run takes a foreign key or hands rows over. */
  ghost predicate Harmless(keys: Keys, table: Table, calls: seq<Call>)
    decreases |calls|
  {
    calls == [] ||
    (var c := calls[0];
     && KeepsTenant(c.op, c.args, c.tenant)
     && !TakesForeignKey(keys, c.op, c.args, table, c.tenant)
     && Harmless(keys, Exec(keys, c.op, Scope(c.op, c.args, c.tenant), table).table, calls[1..]))
  }

  /** With keys that include the tenant, calls whose `updateMany` data names no other tenant are harmless in any run. */
  lemma {:induction false} TenantKeysHarmless(keys: Keys, table: Table, calls: seq<Call>)
    requires TenantKeys(keys) && Accepts(keys, table) && forall c | c in calls :: KeepsTenant(c.op, c.args, c.tenant)
    ensures Harmless(keys, table, calls)
    decreases |calls|
  {
    hide Attempt, Scope, Accepts, KeepsTenant, TakesForeignKey, Isolated;
    if calls != [] {
      var c := calls[0];
      TenantKeysIsolate(keys, c.op, c.args, table, c.tenant);
      TenantKeysHarmless(keys, Exec(keys, c.op, Scope(c.op, c.args, c.tenant), table).table, calls[1..]);
    }
  }

  lemma {:induction false} OnlyOfOthers(a: Table, s: string, t: string)
    requires s != t
    ensures Only(Others(a, s), t) == Only(a, t)
  {
    if a != [] {
      OnlyOfOthers(a[1..], s, t);
      OnlyHead(a, s);
      OnlyHead(a, t);
      OnlyCons(a[0], Others(a[1..], s), t);
    }
  }

  lemma {:induction false} OtherTenantUntouched(a: Table, b: Table, s: string, t: string)
    requires s != t && Others(a, s) == Others(b, s)
    ensures Only(a, t) == Only(b, t)
  {
    OnlyOfOthers(a, s, t);
    OnlyOfOthers(b, s, t);
  }

  /** Alone on its table, a tenant's scoped call is already isolated: there is nobody to clash with. */
  lemma AloneIsMeant(keys: Keys, op: Operation, args: Args, table: Table, t: string)
    ensures Exec(keys, op, Scope(op, args, t), Only(table, t)) == Exec(keys, op, Meant(op, args, t), Only(table, t))
  {
    hide Attempt, Scope, Meant, Only;
    ScopedIsMeant(op, args, table, t);
  }

  /**
   * No tenant's calls can be told from another's data: over any run, a tenant's rows and answers are
   * what its own calls alone would have produced from its own rows.
   */
  lemma {:induction false} Noninterference(keys: Keys, table: Table, calls: seq<Call>, t: string)
    requires Accepts(keys, table) && Harmless(keys, table, calls)
    ensures Only(Run(keys, table, calls), t) == Run(keys, Only(table, t), CallsOf(calls, t))
    ensures Replies(keys, table, calls, t) == Replies(keys, Only(table, t), CallsOf(calls, t), t)
    decreases |calls|
  {
    hide Attempt, Scope, Meant, Only, Others, TakesForeignKey, KeepsTenant, Accepts;
    if calls != [] {
      var c := calls[0];
      ScopingIsolates(keys, c.op, c.args, table, c.tenant);
      var next := Exec(keys, c.op, Scope(c.op, c.args, c.tenant), table).table;
      Noninterference(keys, next, calls[1..], t);
      if c.tenant == t {
        AloneIsMeant(keys, c.op, c.args, table, t);
        assert CallsOf(calls, t)[0] == c && CallsOf(calls, t)[1..] == CallsOf(calls[1..], t);
      } else {
        OtherTenantUntouched(next, table, c.tenant, t);
        assert CallsOf(calls, t) == CallsOf(calls[1..], t);
      }
    }
  }

  /** With keys that include the tenant, that needs only that no `updateMany` data names another tenant. */
  lemma TenantKeysNoninterference(keys: Keys, table: Table, calls: seq<Call>, t: string)
    requires TenantKeys(keys) && Accepts(keys, table) && forall c | c in calls :: KeepsTenant(c.op, c.args, c.tenant)
    ensures Only(Run(keys, table, calls), t) == Run(keys, Only(table, t), CallsOf(calls, t))
    ensures Replies(keys, table, calls, t) == Replies(keys, Only(table, t), CallsOf(calls, t), t)
  {
    TenantKeysHarmless(keys, table, calls);
    Noninterference(keys, table, calls, t);
  }

  // --- Columns that are unique across schools, such as identifiers.

  /** A unique column of its own; like the database, it does not apply to a row without a value. */
  function ColumnKey(f: string): Key { row => if Column(row, f) == Null then None else Some([Column(row, f)]) }

  function PayloadRows(p: Payload): seq<Row> {
    match p case Absent => [] case One(row) => [row] case Many(rows) => rows
  }

  /** The rows and patches a call brings. */
  function Given(op: Operation, args: Args): seq<Row> {
    if op in {Create, CreateMany, Update, UpdateMany} then PayloadRows(args.data)
    else if op.Upsert? then PayloadRows(args.create) + PayloadRows(args.update) else []
  }

  /** The values rows have in some columns. */
  ghost function ValuesIn(fields: set<string>, rows: seq<Row>): set<(string, Value)> {
    set f, row | f in fields && row in rows && Column(row, f) != Null :: (f, Column(row, f))
  }

  ghost predicate IsColumnKey(key: Key, f: string) { forall row :: key(row) == ColumnKey(f)(row) }

  /** Each key includes the tenant or is one of the columns. */
  ghost predicate Classified(keys: Keys, fields: set<string>) {
    forall i | 0 <= i < |keys| :: TenantKey(keys[i]) || exists f :: f in fields && IsColumnKey(keys[i], f)
  }

  /** No call brings a value of these columns that was in use before the run or brought by an earlier call. */
  ghost predicate GivesFresh(used: set<(string, Value)>, fields: set<string>, calls: seq<Call>)
    decreases |calls|
  {
    calls == [] ||
    (var brought := ValuesIn(fields, Given(calls[0].op, calls[0].args));
     brought !! used && GivesFresh(used + brought, fields, calls[1..]))
  }

  lemma PatchedValue(row: Row, patch: Row, f: string)
    ensures Column(row + patch, f) == if f in patch then Column(patch, f) else Column(row, f)
  {
  }

  lemma {:induction false} MatchingAreRows(table: Table, w: Where)
    ensures forall row | row in Matching(table, w) :: row in table
  {
    if table != [] { MatchingAreRows(table[1..], w); }
  }

  /** A written row's value is one the call brought or one an own row had. */
  lemma WrittenValue(op: Operation, args: Args, table: Table, row: Row, f: string)
    requires row in Written(op, args, table) && Column(row, f) != Null
    ensures (exists given :: given in Given(op, args) && Column(row, f) == Column(given, f))
            || exists before :: before in table && Column(row, f) == Column(before, f)
  {
    hide Matches, Matching;
    var found := Matching(table, WhereOf(args));
    MatchingAreRows(table, WhereOf(args));
    match op
    case Update => PatchedValue(found[0], args.data.row, f);
    case Upsert => if found != [] { PatchedValue(found[0], args.update.row, f); }
    case UpdateMany =>
      var i :| 0 <= i < |found| && row == found[i] + args.data.row;
      PatchedValue(found[i], args.data.row, f);
    case _ =>
  }

  lemma ValuesAppend(a: seq<Row>, b: seq<Row>, fields: set<string>)
    ensures ValuesIn(fields, a + b) == ValuesIn(fields, a) + ValuesIn(fields, b)
  {
  }

  lemma StampedRows(p: Payload, t: string, fields: set<string>)
    requires TENANT !in fields
    ensures ValuesIn(fields, PayloadRows(Stamp(p, t))) == ValuesIn(fields, PayloadRows(p))
  {
    var a, b := PayloadRows(p), PayloadRows(Stamp(p, t));
    assert |a| == |b| && forall i | 0 <= i < |a| :: b[i] == StampRow(a[i], t);
    forall v | v in ValuesIn(fields, a) ensures v in ValuesIn(fields, b) {
      var f, row :| f in fields && row in a && Column(row, f) != Null && v == (f, Column(row, f));
      var i :| 0 <= i < |a| && a[i] == row;
      assert b[i] in b && Column(b[i], f) == Column(row, f);
    }
    forall v | v in ValuesIn(fields, b) ensures v in ValuesIn(fields, a) {
      var f, row :| f in fields && row in b && Column(row, f) != Null && v == (f, Column(row, f));
      var i :| 0 <= i < |b| && b[i] == row;
      assert a[i] in a && Column(a[i], f) == Column(row, f);
    }
  }

  /** The tenant stamp changes no other column. */
  lemma StampedGiven(op: Operation, args: Args, t: string, fields: set<string>)
    requires TENANT !in fields
    ensures ValuesIn(fields, Given(op, Meant(op, args, t))) == ValuesIn(fields, Given(op, args))
  {
    ScopedButForWhere(op, args, t);
    StampedRows(args.data, t, fields);
    StampedRows(args.create, t, fields);
    StampedRows(args.update, t, fields);
    ValuesAppend(PayloadRows(args.create), PayloadRows(args.update), fields);
    ValuesAppend(PayloadRows(Stamp(args.create, t)), PayloadRows(Stamp(args.update, t)), fields);
    var s, m := Scope(op, args, t), Meant(op, args, t);
    hide ValuesIn, PayloadRows, Stamp, ScopeWhere, Meant;
    assert s.data == m.data && s.create == m.create && s.update == m.update;
  }

  lemma NoneShared(keys: Keys, own: seq<Row>, others: Table)
    requires forall row, other, i | row in own && other in others && 0 <= i < |keys| :: !SharesKey(keys[i], row, other)
    ensures !Clash(keys, own, others)
  {
  }

  lemma ValueListed(fields: set<string>, rows: seq<Row>, row: Row, f: string)
    requires f in fields && row in rows && Column(row, f) != Null
    ensures (f, Column(row, f)) in ValuesIn(fields, rows)
  {
  }

  lemma FreshKeyDiffers(keys: Keys, i: nat, fields: set<string>, used: set<(string, Value)>, op: Operation, args: Args,
                        table: Table, t: string, row: Row, other: Row)
    requires i < |keys| && Classified(keys, fields) && TENANT !in fields && Accepts(keys, table)
    requires ValuesIn(fields, table) <= used && ValuesIn(fields, Given(op, args)) !! used
    requires row in Written(op, Meant(op, args, t), Only(table, t)) && other in Others(table, t)
    requires Owns(t, row) && !Owns(t, other)
    ensures !SharesKey(keys[i], row, other)
  {
    hide Accepts, Written, Meant, Given, ValuesIn;
    if !TenantKey(keys[i]) {
      var f :| f in fields && IsColumnKey(keys[i], f);
      assert keys[i](row) == ColumnKey(f)(row) && keys[i](other) == ColumnKey(f)(other);
      if Column(row, f) != Null {
        WrittenValue(op, Meant(op, args, t), Only(table, t), row, f);
        InParts(table, t, other);
        if given :| given in Given(op, Meant(op, args, t)) && Column(row, f) == Column(given, f) {
          ValueListed(fields, Given(op, Meant(op, args, t)), given, f);
          StampedGiven(op, args, t, fields);
          if Column(other, f) != Null { ValueListed(fields, table, other, f); }
        } else {
          var mine :| mine in Only(table, t) && Column(row, f) == Column(mine, f);
          AcceptsParts(keys, table, t);
          assert !Collide(keys, mine, other);
          assert !SharesKey(keys[i], mine, other);
          assert keys[i](mine) == ColumnKey(f)(mine);
        }
      }
    }
  }

  /** A call that brings only fresh values takes no other tenant's key. */
  lemma FreshCallIsHarmless(keys: Keys, fields: set<string>, used: set<(string, Value)>, op: Operation, args: Args, table: Table, t: string)
    requires Classified(keys, fields) && TENANT !in fields && Accepts(keys, table) && KeepsTenant(op, args, t)
    requires ValuesIn(fields, table) <= used && ValuesIn(fields, Given(op, args)) !! used
    ensures !TakesForeignKey(keys, op, args, table, t)
  {
    hide Accepts, KeepsTenant, Written, Meant, Given, Collide, SharesKey, ValuesIn, Classified;
    var own, others := Only(table, t), Others(table, t);
    var written := Written(op, Meant(op, args, t), own);
    WritesOwn(op, args, table, t);
    OnlyOwned(table, t);
    forall row, other, i | row in written && other in others && 0 <= i < |keys|
      ensures !SharesKey(keys[i], row, other)
    {
      FreshKeyDiffers(keys, i, fields, used, op, args, table, t, row, other);
    }
    NoneShared(keys, written, others);
  }

  /** A call leaves only values that were there or that it brought. */
  lemma ValuesAfter(keys: Keys, fields: set<string>, op: Operation, args: Args, table: Table, t: string)
    requires KeepsTenant(op, args, t) && TENANT !in fields
    ensures ValuesIn(fields, Exec(keys, op, Scope(op, args, t), table).table)
            <= ValuesIn(fields, table) + ValuesIn(fields, Given(op, args))
  {
    hide Accepts, KeepsTenant, Written, Meant, Scope, Given, Attempt, Only, Others, Column;
    AttemptCommutes(op, args, table, t);
    StampedGiven(op, args, t, fields);
    var after := Attempt(op, Scope(op, args, t), table).table;
    forall v | v in ValuesIn(fields, after)
      ensures v in ValuesIn(fields, table) + ValuesIn(fields, Given(op, args))
    {
      var f, row :| f in fields && row in after && Column(row, f) != Null && v == (f, Column(row, f));
      InParts(after, t, row);
      InParts(table, t, row);
      if row in Only(after, t) {
        RowsAfter(op, Meant(op, args, t), Only(table, t), row);
        if row in Written(op, Meant(op, args, t), Only(table, t)) {
          WrittenValue(op, Meant(op, args, t), Only(table, t), row, f);
          if given :| given in Given(op, Meant(op, args, t)) && Column(row, f) == Column(given, f) {
            ValueListed(fields, Given(op, Meant(op, args, t)), given, f);
          } else {
            var mine :| mine in Only(table, t) && Column(row, f) == Column(mine, f);
            InParts(table, t, mine);
            ValueListed(fields, table, mine, f);
          }
        }
      }
    }
  }

  /**
   * With every key tenant-bearing or a column of its own, calls that bring only fresh values of those
   * columns, and whose `updateMany` data names no other tenant, are harmless in any run.
   */
  lemma {:induction false} FreshValuesHarmless(keys: Keys, fields: set<string>, used: set<(string, Value)>, table: Table, calls: seq<Call>)
    requires Classified(keys, fields) && TENANT !in fields && Accepts(keys, table)
    requires forall c | c in calls :: KeepsTenant(c.op, c.args, c.tenant)
    requires ValuesIn(fields, table) <= used && GivesFresh(used, fields, calls)
    ensures Harmless(keys, table, calls)
    decreases |calls|
  {
    hide Attempt, Scope, Accepts, KeepsTenant, TakesForeignKey, Classified, ValuesIn, Given;
    if calls != [] {
      var c := calls[0];
      FreshCallIsHarmless(keys, fields, used, c.op, c.args, table, c.tenant);
      ValuesAfter(keys, fields, c.op, c.args, table, c.tenant);
      FreshValuesHarmless(keys, fields, used + ValuesIn(fields, Given(c.op, c.args)),
                          Exec(keys, c.op, Scope(c.op, c.args, c.tenant), table).table, calls[1..]);
    }
  }

  /** So a model whose keys are its identifier, other unique columns and tenant-bearing keys is free of interference. */
  lemma FreshValuesNoninterference(keys: Keys, fields: set<string>, table: Table, calls: seq<Call>, t: string)
    requires Classified(keys, fields) && TENANT !in fields && Accepts(keys, table)
    requires forall c | c in calls :: KeepsTenant(c.op, c.args, c.tenant)
    requires GivesFresh(ValuesIn(fields, table), fields, calls)
    ensures Only(Run(keys, table, calls), t) == Run(keys, Only(table, t), CallsOf(calls, t))
    ensures Replies(keys, table, calls, t) == Replies(keys, Only(table, t), CallsOf(calls, t), t)
  {
    FreshValuesHarmless(keys, fields, ValuesIn(fields, table), table, calls);
    Noninterference(keys, table, calls, t);
  }

  // --- Calls that are not isolated.

  lemma RefusedPair(keys: Keys, a: Row, b: Row)
    requires Collide(keys, b, a)
    ensures !Accepts(keys, [a, b]) && Accepts(keys, [b])
  {
    assert b in [a, b][1..] && [b][1..] == [];
  }

  lemma TwoRows(theirs: Row, mine: Row, t: string)
    requires !Owns(t, theirs) && Owns(t, mine)
    ensures Only([theirs], t) == [] && Others([theirs], t) == [theirs]
  {
    assert Only([theirs][1..], t) == [] && Others([theirs][1..], t) == [];
  }

  /** Certificates are unique by their verification code alone: one cannot be issued with a code another school's has. */
  lemma ForeignKeyExample()
    ensures var keys: Keys := [ColumnKey("verifyCode")];
            var theirs := map["verifyCode" := Text("9f3c"), TENANT := Text("u")];
            var args := Args(None, One(map["verifyCode" := Text("9f3c")]), Absent, Absent, found => found);
            && TakesForeignKey(keys, Create, args, [theirs], "t")
            && Exec(keys, Create, Scope(Create, args, "t"), [theirs]).reply == UniqueViolation
            && Exec(keys, Create, Meant(Create, args, "t"), Only([theirs], "t")).reply.Rows?
  {
    var keys: Keys := [ColumnKey("verifyCode")];
    var theirs := map["verifyCode" := Text("9f3c"), TENANT := Text("u")];
    var args := Args(None, One(map["verifyCode" := Text("9f3c")]), Absent, Absent, found => found);
    var mine := StampRow(map["verifyCode" := Text("9f3c")], "t");
    TwoRows(theirs, mine, "t");
    ScopedButForWhere(Create, args, "t");
    assert Scope(Create, args, "t").data == One(mine);
    hide Meant, Scope, StampRow;
    assert SharesKey(keys[0], mine, theirs);
    assert Collide(keys, mine, theirs);
    hide Collide, SharesKey, Only, Others, Matching, Accepts;
    RefusedPair(keys, theirs, mine);
    assert Attempt(Create, Meant(Create, args, "t"), []).table == [mine];
    assert Written(Create, Meant(Create, args, "t"), []) == [mine];
    assert mine in [mine] && theirs in [theirs];
    assert Attempt(Create, Scope(Create, args, "t"), [theirs]).table == [theirs, mine];
  }

  /** An `updateMany` of all rows with another school's name in its data gives the caller's row away. */
  lemma HandOverExample()
    ensures var mine := map[TENANT := Text("t")];
            var args := Args(None, One(map[TENANT := Text("u")]), Absent, Absent, found => found);
            var after := Attempt(UpdateMany, Scope(UpdateMany, args, "t"), [mine]).table;
            Others([mine], "t") == [] && after == [map[TENANT := Text("u")]] && Others(after, "t") == after
  {
    var mine := map[TENANT := Text("t")];
    var args := Args(None, One(map[TENANT := Text("u")]), Absent, Absent, found => found);
    var w := WhereOf(Scope(UpdateMany, args, "t"));
    ScopedMatches(UpdateMany, EMPTY_WHERE, "t", mine);
    assert Matches(EMPTY_WHERE, mine);
    assert Owns("t", mine);
    assert Matches(w, mine);
    var given := map[TENANT := Text("u")];
    assert mine + given == given;
    assert PatchAll([mine], w, given) == [given] by { assert [mine][1..] == []; }
    assert !Owns("t", given) && Others([given][1..], "t") == [] && Others([mine][1..], "t") == [];
  }
}
