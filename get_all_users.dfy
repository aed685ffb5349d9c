/** The admin listing: an early empty result for a zero limit, a conjunction
    of equality conditions over the supplied filter fields, then `OFFSET` and
    `LIMIT`. The table is read in its own row order (no `ORDER BY`). */
module ListUsers {
  import opened Wrappers
  import opened Schema
  import opened Query
  import opened Store

  const NegativeOffset := "OFFSET must not be negative"

  /** One `eq(column, value)` condition of the query. */
  datatype Condition =
    | StatusIs(status: MembershipStatus)
    | ProvinsiIs(provinsi: Provinsi)
    | JenisIs(jenis: JenisKeanggotaan)

  predicate Holds(c: Condition, u: User) {
    match c
    case StatusIs(s) => u.membershipStatus == s
    case ProvinsiIs(p) => u.profile.provinsi == p
    case JenisIs(j) => u.profile.jenisKeanggotaan == j
  }

  /** The conditions pushed for the supplied fields, in the order the handler pushes them. */
  function Conditions(f: UserListFilter): seq<Condition> {
    (if f.membershipStatus.Some? then [StatusIs(f.membershipStatus.value)] else [])
    + (if f.provinsi.Some? then [ProvinsiIs(f.provinsi.value)] else [])
    + (if f.jenisKeanggotaan.Some? then [JenisIs(f.jenisKeanggotaan.value)] else [])
  }

  /** `and(...conditions)`; no condition at all selects every row. */
  predicate AllHold(conditions: seq<Condition>, u: User) {
    forall k :: 0 <= k < |conditions| ==> Holds(conditions[k], u)
  }

  function Satisfies(conditions: seq<Condition>): User -> bool {
    (u: User) => AllHold(conditions, u)
  }

  /** A row matches a filter exactly when it agrees with every supplied field. */
  lemma MatchesExactlySuppliedFields(f: UserListFilter, u: User)
    ensures Satisfies(Conditions(f))(u) <==>
      && (f.membershipStatus.Some? ==> u.membershipStatus == f.membershipStatus.value)
      && (f.provinsi.Some? ==> u.profile.provinsi == f.provinsi.value)
      && (f.jenisKeanggotaan.Some? ==> u.profile.jenisKeanggotaan == f.jenisKeanggotaan.value)
  {
    var a := if f.membershipStatus.Some? then [StatusIs(f.membershipStatus.value)] else [];
    var b := if f.provinsi.Some? then [ProvinsiIs(f.provinsi.value)] else [];
    var c := if f.jenisKeanggotaan.Some? then [JenisIs(f.jenisKeanggotaan.value)] else [];
    assert Conditions(f) == a + b + c;
    SatisfiesConcat(a + b, c, u);
    SatisfiesConcat(a, b, u);
    if a != [] { assert AllHold(a, u) <==> Holds(a[0], u); }
    if b != [] { assert AllHold(b, u) <==> Holds(b[0], u); }
    if c != [] { assert AllHold(c, u) <==> Holds(c[0], u); }
  }

  lemma SatisfiesConcat(a: seq<Condition>, b: seq<Condition>, u: User)
    ensures AllHold(a + b, u) <==> AllHold(a, u) && AllHold(b, u)
  {
    if AllHold(a, u) && AllHold(b, u) {
      forall k | 0 <= k < |a + b| ensures Holds((a + b)[k], u) {
        if k >= |a| { assert (a + b)[k] == b[k - |a|]; } else { assert (a + b)[k] == a[k]; }
      }
    }
    if AllHold(a + b, u) {
      forall k | 0 <= k < |a| ensures Holds(a[k], u) {
        assert (a + b)[k] == a[k];
      }
      forall k | 0 <= k < |b| ensures Holds(b[k], u) {
        assert (a + b)[|a| + k] == b[k];
      }
    }
  }

  /** `OFFSET` then `LIMIT` over the matching rows. */
  function Paginate(rows: seq<User>, limit: Option<int>, offset: Option<int>): Result<seq<User>> {
    if offset.Some? && offset.value < 0 then Err(NegativeOffset)
    else
      var skipped := if offset.None? then rows else if offset.value >= |rows| then [] else rows[offset.value..];
      Ok(if limit.Some? && 0 < limit.value < |skipped| then skipped[..limit.value] else skipped)
  }

  /** The listing over the rows of the table. */
  function ListUsers(rows: seq<User>, filter: Option<UserListFilter>): Result<seq<User>> {
    match filter
    case None => Ok(rows)
    case Some(f) =>
      if f.limit == Some(0) then Ok([])
      else Paginate(Filter(rows, Satisfies(Conditions(f))), f.limit, f.offset)
  }

  /** A zero limit answers empty, whatever else the filter holds. */
  lemma ZeroLimitIsEmpty(rows: seq<User>, f: UserListFilter)
    requires f.limit == Some(0)
    ensures ListUsers(rows, Some(f)) == Ok([])
  {
  }

  /** No filter, or a filter with no field supplied, returns every row. */
  lemma NoFilterReturnsAll(rows: seq<User>, f: UserListFilter)
    requires f == UserListFilter(None, None, None, None, None)
    ensures ListUsers(rows, None) == Ok(rows)
    ensures ListUsers(rows, Some(f)) == Ok(rows)
  {
    assert Conditions(f) == [];
    FilterAll(rows, Satisfies([]));
  }

  /** Every returned row is a row of the table agreeing with every supplied field. */
  lemma ResultsMatchFilter(rows: seq<User>, f: UserListFilter)
    requires ListUsers(rows, Some(f)).Ok?
    ensures forall k :: 0 <= k < |ListUsers(rows, Some(f)).value| ==>
      var u := ListUsers(rows, Some(f)).value[k];
      && u in rows
      && (f.membershipStatus.Some? ==> u.membershipStatus == f.membershipStatus.value)
      && (f.provinsi.Some? ==> u.profile.provinsi == f.provinsi.value)
      && (f.jenisKeanggotaan.Some? ==> u.profile.jenisKeanggotaan == f.jenisKeanggotaan.value)
  {
    var r := ListUsers(rows, Some(f)).value;
    var matched := Filter(rows, Satisfies(Conditions(f)));
    if f.limit != Some(0) {
      assert forall k :: 0 <= k < |r| ==> r[k] in matched;
    }
    forall k | 0 <= k < |r| {
      MatchesExactlySuppliedFields(f, r[k]);
    }
  }

  /** Without limit and offset, every matching row is returned, in table order. */
  lemma UnpagedReturnsAllMatching(rows: seq<User>, f: UserListFilter)
    requires f.limit.None? && f.offset.None?
    ensures ListUsers(rows, Some(f)) == Ok(Filter(rows, Satisfies(Conditions(f))))
    ensures forall k :: 0 <= k < |rows| && Satisfies(Conditions(f))(rows[k]) ==>
              rows[k] in ListUsers(rows, Some(f)).value
  {
  }

  /** A positive limit bounds the answer; an offset skips that many matching rows. */
  lemma LimitAndOffset(rows: seq<User>, f: UserListFilter)
    requires f.limit != Some(0) && (f.offset.Some? ==> f.offset.value >= 0)
    ensures var matched := Filter(rows, Satisfies(Conditions(f)));
      var r := ListUsers(rows, Some(f));
      var o := f.offset.GetOr(0);
      && r.Ok?
      && (f.limit.Some? && f.limit.value > 0 ==> |r.value| <= f.limit.value)
      && (o <= |matched| ==> r.value == (if f.limit.Some? && 0 < f.limit.value < |matched| - o
                                          then matched[o..o + f.limit.value] else matched[o..]))
      && (o > |matched| ==> r.value == [])
  {
  }

  /** The list schema demands a positive limit and a non-negative offset, so a
      validated filter never meets the zero-limit path or the offset error. */
  lemma ValidFilterNeverFails(rows: seq<User>, f: UserListFilter)
    requires ValidListFilter(f)
    ensures ListUsers(rows, Some(f)).Ok?
    ensures f.limit != Some(0)
  {
  }

  /** The conditions the handler pushes, one supplied field at a time. */
  method PushConditions(f: UserListFilter) returns (conditions: seq<Condition>)
    ensures conditions == Conditions(f)
  {
    conditions := [];
    if f.membershipStatus.Some? {
      conditions := conditions + [StatusIs(f.membershipStatus.value)];
    }
    if f.provinsi.Some? {
      conditions := conditions + [ProvinsiIs(f.provinsi.value)];
    }
    if f.jenisKeanggotaan.Some? {
      conditions := conditions + [JenisIs(f.jenisKeanggotaan.value)];
    }
  }

  /** Tests one row against every condition, stopping at the first that fails. */
  method CheckRow(conditions: seq<Condition>, u: User) returns (ok: bool)
    ensures ok == AllHold(conditions, u)
  {
    var k := 0;
    while k < |conditions| && Holds(conditions[k], u)
      invariant 0 <= k <= |conditions|
      invariant forall j :: 0 <= j < k ==> Holds(conditions[j], u)
    {
      k := k + 1;
    }
    ok := k == |conditions|;
  }

  /** Reads the table in row order, keeping the rows every condition accepts. */
  method Scan(db: Database, conditions: seq<Condition>) returns (results: seq<User>)
    requires db.Valid()
    ensures results == Filter(UserRows(db.Snapshot()), Satisfies(conditions))
  {
    results := [];
    var id := 0;
    while id < db.nextUserId
      invariant 0 <= id <= db.nextUserId
      invariant results == Filter(RowsBelow(db.users, id), Satisfies(conditions))
    {
      if id in db.users {
        var u := db.users[id];
        FilterAppend(RowsBelow(db.users, id), u, Satisfies(conditions));
        var ok := CheckRow(conditions, u);
        if ok {
          results := results + [u];
        }
      } else {
        assert RowsBelow(db.users, id + 1) == RowsBelow(db.users, id);
      }
      id := id + 1;
    }
  }

  /** The handler: early return for a zero limit, the filtered scan, then
      offset and limit. It changes nothing. */
  method GetAllUsers(db: Database, filter: Option<UserListFilter>) returns (r: Result<seq<User>>)
    requires db.Valid()
    ensures r == ListUsers(UserRows(db.Snapshot()), filter)
  {
    if filter.Some? && filter.value.limit == Some(0) {
      return Ok([]);
    }
    var conditions: seq<Condition> := [];
    if filter.Some? {
      conditions := PushConditions(filter.value);
    }
    var results := Scan(db, conditions);
    if filter.None? {
      FilterAll(UserRows(db.Snapshot()), Satisfies([]));
      return Ok(results);
    }
    var f := filter.value;
    if f.offset.Some? && f.offset.value < 0 {
      return Err(NegativeOffset);
    }
    if f.offset.Some? {
      results := if f.offset.value >= |results| then [] else results[f.offset.value..];
    }
    if f.limit.Some? && f.limit.value > 0 && f.limit.value < |results| {
      results := results[..f.limit.value];
    }
    r := Ok(results);
  }
}
