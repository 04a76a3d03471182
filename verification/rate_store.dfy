/**
  The `state_rates` table (src-tauri/src/db.rs) as its rows in rowid
  order. SQLite's AUTOINCREMENT counter is `lastId`: a new row takes the
  next id and the ids of deleted rows are never handed out again. The
  UNIQUE constraint on `state` is part of the table's invariant.
*/
module RateStore {
  import opened Wrappers
  import opened Models

  datatype Table = Table(rows: seq<StateRate>, lastId: int)

  /** Ids come from the counter in increasing order, and no two rows share
      a state name. */
  predicate Valid(t: Table) {
    && 0 <= t.lastId
    && (forall i :: 0 <= i < |t.rows| ==> 1 <= t.rows[i].id <= t.lastId)
    && IdsIncreasing(t.rows)
    && DistinctStates(t.rows)
  }

  predicate DistinctStates(rows: seq<StateRate>) {
    forall i, j :: 0 <= i < j < |rows| ==> rows[i].state != rows[j].state
  }

  type RateTable = t: Table | Valid(t) witness Table([], 0)

  /** A freshly created, empty table. */
  const EmptyTable: RateTable := Table([], 0)

  /** SQLite's message for an insert that would duplicate a state name. */
  const UniqueStateViolation := "UNIQUE constraint failed: state_rates.state"

  predicate HasState(rows: seq<StateRate>, name: string) {
    exists i :: 0 <= i < |rows| && rows[i].state == name
  }

  predicate HasId(rows: seq<StateRate>, id: int) {
    exists i :: 0 <= i < |rows| && rows[i].id == id
  }

  // ---------------------------------------------------------------------
  // String order: SQLite's BINARY collation. Comparing UTF-8 bytes orders
  // text exactly as comparing code points does.

  predicate StringLess(a: string, b: string) {
    |b| > 0 && (|a| == 0 || a[0] < b[0] || (a[0] == b[0] && StringLess(a[1..], b[1..])))
  }

  predicate SortedByState(rows: seq<StateRate>) {
    forall i, j :: 0 <= i < j < |rows| ==> StringLess(rows[i].state, rows[j].state)
  }

  lemma {:induction false} StringLessIrreflexive(a: string)
    ensures !StringLess(a, a)
  {
    if |a| > 0 {
      StringLessIrreflexive(a[1..]);
    }
  }

  lemma {:induction false} StringLessTransitive(a: string, b: string, c: string)
    requires StringLess(a, b) && StringLess(b, c)
    ensures StringLess(a, c)
  {
    if |a| > 0 && a[0] == b[0] && b[0] == c[0] {
      StringLessTransitive(a[1..], b[1..], c[1..]);
    }
  }

  lemma {:induction false} StringLessTotal(a: string, b: string)
    requires a != b
    ensures StringLess(a, b) || StringLess(b, a)
  {
    if |a| > 0 && |b| > 0 && a[0] == b[0] {
      assert a == [a[0]] + a[1..] && b == [b[0]] + b[1..];
      StringLessTotal(a[1..], b[1..]);
    }
  }

  /** Rows sorted strictly by name have distinct names. */
  lemma SortedDistinct(rows: seq<StateRate>)
    requires SortedByState(rows)
    ensures DistinctStates(rows)
  {
    forall i, j | 0 <= i < j < |rows|
      ensures rows[i].state != rows[j].state
    {
      StringLessIrreflexive(rows[i].state);
    }
  }

  // ---------------------------------------------------------------------
  // Operations

  /** The first row, in rowid order, named `name`. */
  function FindState(rows: seq<StateRate>, name: string): (r: Option<StateRate>)
    ensures r.None? <==> !HasState(rows, name)
    ensures r.Some? ==> r.value in rows && r.value.state == name
  {
    if rows == [] then None
    else if rows[0].state == name then Some(rows[0])
    else
      var r := FindState(rows[1..], name);
      assert HasState(rows, name) ==> HasState(rows[1..], name) by {
        if HasState(rows, name) {
          var i :| 0 <= i < |rows| && rows[i].state == name;
          assert rows[1..][i - 1] == rows[i];
        }
      }
      r
  }

  /** `get_state_rate`: the row whose state is exactly `name`, if any. */
  function Lookup(t: RateTable, name: string): (r: Option<StateRate>)
    ensures r.None? <==> !HasState(t.rows, name)
    ensures r.Some? ==> r.value in t.rows && r.value.state == name
  {
    FindState(t.rows, name)
  }

  /** The row a lookup returns is the only row with that name. */
  lemma LookupUnique(t: RateTable, name: string, i: int)
    requires 0 <= i < |t.rows| && t.rows[i].state == name
    ensures Lookup(t, name) == Some(t.rows[i])
  {
    var r := Lookup(t, name);
    var j :| 0 <= j < |t.rows| && t.rows[j] == r.value;
    assert !(i < j) && !(j < i);
  }

  /** `insert_state_rate`: append a row under the next id; the id in `rec`
      is ignored. A duplicate state name fails and changes nothing. */
  function Insert(t: RateTable, rec: StateRate): (r: (RateTable, Outcome<string>))
    ensures r.1.Fail? <==> HasState(t.rows, rec.state)
    ensures r.1.Fail? ==> r.0 == t && r.1.error == UniqueStateViolation
    ensures r.1.Pass? ==>
      && r.0.lastId == t.lastId + 1
      && !HasId(t.rows, r.0.lastId)
      && r.0.rows == t.rows + [rec.(id := t.lastId + 1)]
  {
    if HasState(t.rows, rec.state) then (t, Fail(UniqueStateViolation))
    else
      var id := t.lastId + 1;
      var t': Table := Table(t.rows + [rec.(id := id)], id);
      assert DistinctStates(t'.rows) by {
        forall i, j | 0 <= i < j < |t'.rows|
          ensures t'.rows[i].state != t'.rows[j].state
        {
          if j < |t.rows| {
            assert t'.rows[i] == t.rows[i] && t'.rows[j] == t.rows[j];
          } else {
            assert t'.rows[i] == t.rows[i];
          }
        }
      }
      (t', Pass)
  }

  /** `update_state_rate`: overwrite the rate fields of the row with
      `rec.id`; that row's id and state name stay. No such row: no change. */
  function Update(t: RateTable, rec: StateRate): (r: RateTable)
    ensures r.lastId == t.lastId && |r.rows| == |t.rows|
    ensures forall i :: 0 <= i < |t.rows| && t.rows[i].id != rec.id ==> r.rows[i] == t.rows[i]
    ensures forall i :: 0 <= i < |t.rows| && t.rows[i].id == rec.id ==>
      r.rows[i] == rec.(state := t.rows[i].state)
    ensures !HasId(t.rows, rec.id) ==> r == t
  {
    var rows := seq(|t.rows|, i requires 0 <= i < |t.rows| =>
      if t.rows[i].id == rec.id then Overwrite(t.rows[i], rec) else t.rows[i]);
    assert DistinctStates(rows) by {
      forall i, j | 0 <= i < j < |rows|
        ensures rows[i].state != rows[j].state
      {
        assert rows[i].state == t.rows[i].state && rows[j].state == t.rows[j].state;
      }
    }
    assert !HasId(t.rows, rec.id) ==> rows == t.rows;
    Table(rows, t.lastId)
  }

  /** The fields `update_state_rate` writes, taken from `rec`. */
  function Overwrite(current: StateRate, rec: StateRate): StateRate {
    current.(
      rate := rec.rate,
      isVariable := rec.isVariable,
      plusPercentage := rec.plusPercentage,
      updateFrequency := rec.updateFrequency,
      lastUpdate := rec.lastUpdate,
      notes := rec.notes)
  }

  /** `delete_state_rate`: remove the row with `id`, if there is one. */
  function Delete(t: RateTable, id: int): (r: RateTable)
    ensures r.lastId == t.lastId
    ensures !HasId(r.rows, id)
    ensures forall x :: x in r.rows <==> x in t.rows && x.id != id
    ensures !HasId(t.rows, id) ==> r == t
  {
    var rows := Without(t.rows, id);
    WithoutValid(t, id);
    WithoutAbsent(t.rows, id);
    Table(rows, t.lastId)
  }

  /** The rows, in order, whose id is not `id`. */
  function Without(rows: seq<StateRate>, id: int): (r: seq<StateRate>)
    ensures forall x :: x in r <==> x in rows && x.id != id
    ensures |r| <= |rows|
  {
    if rows == [] then []
    else if rows[0].id == id then Without(rows[1..], id)
    else [rows[0]] + Without(rows[1..], id)
  }

  /** Removing an id no row carries removes nothing. */
  lemma {:induction false} WithoutAbsent(rows: seq<StateRate>, id: int)
    ensures !HasId(rows, id) ==> Without(rows, id) == rows
  {
    if rows != [] && !HasId(rows, id) {
      assert rows[0].id != id;
      WithoutAbsent(rows[1..], id);
      assert [rows[0]] + rows[1..] == rows;
    }
  }

  /** Removing rows keeps the table's invariant. */
  lemma WithoutValid(t: RateTable, id: int)
    ensures Valid(Table(Without(t.rows, id), t.lastId))
  {
    WithoutOrdered(t.rows, id);
  }

  predicate IdsIncreasing(rows: seq<StateRate>) {
    forall i, j :: 0 <= i < j < |rows| ==> rows[i].id < rows[j].id
  }

  /** Every surviving pair of rows was a pair, in the same order, before. */
  lemma {:induction false} WithoutOrdered(rows: seq<StateRate>, id: int)
    requires IdsIncreasing(rows) && DistinctStates(rows)
    ensures IdsIncreasing(Without(rows, id)) && DistinctStates(Without(rows, id))
  {
    if rows != [] {
      WithoutOrdered(rows[1..], id);
      if rows[0].id != id {
        var rest := Without(rows[1..], id);
        HeadBeforeTail(rows, rest);
        OrderedCons(rows[0], rest);
      }
    }
  }

  /** The first row precedes, and differs in state from, every row drawn
      from the rest. */
  lemma HeadBeforeTail(rows: seq<StateRate>, rest: seq<StateRate>)
    requires IdsIncreasing(rows) && DistinctStates(rows) && rows != []
    requires forall x :: x in rest ==> x in rows[1..]
    ensures forall x :: x in rest ==> rows[0].id < x.id && rows[0].state != x.state
  {
    forall x | x in rest
      ensures rows[0].id < x.id && rows[0].state != x.state
    {
      var j :| 0 <= j < |rows[1..]| && rows[1..][j] == x;
      assert rows[j + 1] == x;
    }
  }

  lemma OrderedCons(y: StateRate, rest: seq<StateRate>)
    requires IdsIncreasing(rest) && DistinctStates(rest)
    requires forall x :: x in rest ==> y.id < x.id && y.state != x.state
    ensures IdsIncreasing([y] + rest) && DistinctStates([y] + rest)
  {
    var r := [y] + rest;
    forall a, b | 0 <= a < b < |r|
      ensures r[a].id < r[b].id && r[a].state != r[b].state
    {
      assert r[b] == rest[b - 1];
      if a > 0 {
        assert r[a] == rest[a - 1];
      } else {
        assert r[b] in rest;
      }
    }
  }

  /** `x` placed into rows sorted by state name. */
  function InsertByState(rows: seq<StateRate>, x: StateRate): (r: seq<StateRate>)
    requires SortedByState(rows)
    requires forall i :: 0 <= i < |rows| ==> rows[i].state != x.state
    ensures SortedByState(r)
    ensures multiset(r) == multiset(rows) + multiset{x}
    decreases |rows|
  {
    if rows == [] then [x]
    else if StringLess(x.state, rows[0].state) then
      SortedBelowHead(rows, x);
      SortedCons(x, rows);
      [x] + rows
    else
      StringLessTotal(x.state, rows[0].state);
      assert rows == [rows[0]] + rows[1..];
      var rest := InsertByState(rows[1..], x);
      HeadBelowAll(rows, x, rest);
      SortedCons(rows[0], rest);
      [rows[0]] + rest
  }

  lemma SortedBelowHead(rows: seq<StateRate>, x: StateRate)
    requires SortedByState(rows) && rows != []
    requires StringLess(x.state, rows[0].state)
    ensures forall k :: 0 <= k < |rows| ==> StringLess(x.state, rows[k].state)
  {
    forall k | 0 < k < |rows|
      ensures StringLess(x.state, rows[k].state)
    {
      StringLessTransitive(x.state, rows[0].state, rows[k].state);
    }
  }

  lemma HeadBelowAll(rows: seq<StateRate>, x: StateRate, rest: seq<StateRate>)
    requires SortedByState(rows) && rows != []
    requires StringLess(rows[0].state, x.state)
    requires multiset(rest) == multiset(rows[1..]) + multiset{x}
    ensures forall k :: 0 <= k < |rest| ==> StringLess(rows[0].state, rest[k].state)
  {
    forall k | 0 <= k < |rest|
      ensures StringLess(rows[0].state, rest[k].state)
    {
      assert rest[k] in multiset(rest);
      if rest[k] != x {
        assert rest[k] in multiset(rows[1..]);
        var i :| 0 <= i < |rows[1..]| && rows[1..][i] == rest[k];
        assert rows[i + 1] == rest[k];
      }
    }
  }

  lemma SortedCons(y: StateRate, rest: seq<StateRate>)
    requires SortedByState(rest)
    requires forall k :: 0 <= k < |rest| ==> StringLess(y.state, rest[k].state)
    ensures SortedByState([y] + rest)
  {
    var s := [y] + rest;
    forall i, j | 0 <= i < j < |s|
      ensures StringLess(s[i].state, s[j].state)
    {
      if i > 0 {
        assert s[i] == rest[i - 1] && s[j] == rest[j - 1];
      } else {
        assert s[j] == rest[j - 1];
      }
    }
  }

  /** `get_all_states`: every row, ordered by state name. */
  method ListAll(t: RateTable) returns (rows: seq<StateRate>)
    ensures SortedByState(rows)
    ensures multiset(rows) == multiset(t.rows)
  {
    rows := [];
    var k := 0;
    while k < |t.rows|
      invariant 0 <= k <= |t.rows|
      invariant SortedByState(rows)
      invariant multiset(rows) == multiset(t.rows[..k])
    {
      var x := t.rows[k];
      NewStateSoFar(t.rows, rows, k);
      rows := InsertByState(rows, x);
      assert t.rows[..k + 1] == t.rows[..k] + [x];
      k := k + 1;
    }
    assert t.rows[..k] == t.rows;
  }

  /** The next row's state is not among those already placed. */
  lemma NewStateSoFar(all: seq<StateRate>, rows: seq<StateRate>, k: nat)
    requires DistinctStates(all) && k < |all|
    requires multiset(rows) == multiset(all[..k])
    ensures forall i :: 0 <= i < |rows| ==> rows[i].state != all[k].state
  {
    forall i | 0 <= i < |rows|
      ensures rows[i].state != all[k].state
    {
      assert rows[i] in multiset(all[..k]);
      var j :| 0 <= j < k && all[j] == rows[i];
    }
  }

  // ---------------------------------------------------------------------
  // Seeding

  /** Insert the records in order, stopping at the first failure (the
      `?` in the seeding loop). */
  function InsertAll(t: RateTable, recs: seq<StateRate>): (r: (RateTable, Outcome<string>))
    decreases |recs|
  {
    if recs == [] then (t, Pass)
    else
      var (t', outcome) := Insert(t, recs[0]);
      if outcome.Fail? then (t', outcome) else InsertAll(t', recs[1..])
  }

  /** `init_db`: seed the table only when it has no rows. */
  function InitDb(t: RateTable, today: string): (r: (RateTable, Outcome<string>))
    ensures |t.rows| > 0 ==> r == (t, Pass)
  {
    if |t.rows| == 0 then InsertAll(t, SeedRecords(today)) else (t, Pass)
  }

  /** The rows `seed_initial_data` inserts, in its order, before
      `StateRate::new` stamps them with the current date: the federal row,
      then the fifty states and the District of Columbia alphabetically.
      The blocks of at most five rows, `Prefix`, `SeedGroup` and the group
      lemmas below exist only to keep the proof that the names are distinct
      small for the solver; the data is one list in the source. */
  const SeedTemplate: seq<StateRate> := [SeedFederal] + SeedStates

  /** The fifty states and the District of Columbia, alphabetically: those
      whose names sort before "Federal", then those after it. */
  const SeedStates: seq<StateRate> := SeedBeforeFederal + SeedAfterFederal

  const SeedBeforeFederal: seq<StateRate> := SeedAl + SeedCa + SeedDe

  const SeedAfterFederal: seq<StateRate> := SeedFlToMo + SeedNeToWy

  const SeedFlToMo: seq<StateRate> := SeedFl + SeedHa + SeedKa + SeedMa + SeedMi

  const SeedNeToWy: seq<StateRate> := SeedNe + SeedNew + SeedNo + SeedPe + SeedTe + SeedWa

  const SeedFederal: StateRate :=
    StateRate(0, "Federal", 0.0, true, 0.0, "Weekly", "", "Based on 1-year Treasury yield")

  const SeedAl: seq<StateRate> := [
    StateRate(0, "Alabama", 7.5, false, 0.0, "Annual", "", "7.5% per annum"),
    StateRate(0, "Alaska", 3.0, true, 0.0, "Annual", "", "Federal rate + 3%"),
    StateRate(0, "Arizona", 10.0, false, 0.0, "Annual", "", "10% per annum"),
    StateRate(0, "Arkansas", 8.0, false, 0.0, "Annual", "", "8% per annum")
  ]

  const SeedCa: seq<StateRate> := [
    StateRate(0, "California", 10.0, false, 0.0, "Annual", "", "10% per annum"),
    StateRate(0, "Colorado", 8.0, false, 0.0, "Annual", "", "8% per annum compounded annually"),
    StateRate(0, "Connecticut", 8.0, false, 0.0, "Annual", "", "8% per annum")
  ]

  const SeedDe: seq<StateRate> := [
    StateRate(0, "Delaware", 0.0, true, 5.0, "Annual", "", "Federal rate + 5%"),
    StateRate(0, "District of Columbia", 6.0, false, 0.0, "Annual", "", "6% per annum")
  ]

  const SeedFl: seq<StateRate> := [
    StateRate(0, "Florida", 4.75, false, 0.0, "Annual", "", "4.75% per annum as of 2024"),
    StateRate(0, "Georgia", 7.0, false, 0.0, "Annual", "", "7% per annum")
  ]

  const SeedHa: seq<StateRate> := [
    StateRate(0, "Hawaii", 10.0, false, 0.0, "Annual", "", "10% per annum"),
    StateRate(0, "Idaho", 12.0, false, 0.0, "Annual", "", "12% per annum"),
    StateRate(0, "Illinois", 9.0, false, 0.0, "Annual", "", "9% per annum"),
    StateRate(0, "Indiana", 8.0, false, 0.0, "Annual", "", "8% per annum"),
    StateRate(0, "Iowa", 5.0, true, 2.0, "Annual", "", "Federal rate + 2%")
  ]

  const SeedKa: seq<StateRate> := [
    StateRate(0, "Kansas", 10.0, false, 0.0, "Annual", "", "10% per annum"),
    StateRate(0, "Kentucky", 8.0, false, 0.0, "Annual", "", "8% per annum"),
    StateRate(0, "Louisiana", 3.5, false, 0.0, "Annual", "", "3.5% per annum")
  ]

  const SeedMa: seq<StateRate> := [
    StateRate(0, "Maine", 8.0, false, 0.0, "Annual", "", "8% per annum"),
    StateRate(0, "Maryland", 10.0, false, 0.0, "Annual", "", "10% per annum"),
    StateRate(0, "Massachusetts", 12.0, false, 0.0, "Annual", "", "12% per annum")
  ]

  const SeedMi: seq<StateRate> := [
    StateRate(0, "Michigan", 5.25, false, 0.0, "Semi-Annual", "", "5.25% per annum"),
    StateRate(0, "Minnesota", 10.0, false, 0.0, "Annual", "", "10% per annum"),
    StateRate(0, "Mississippi", 8.0, false, 0.0, "Annual", "", "8% per annum"),
    StateRate(0, "Missouri", 9.0, false, 0.0, "Annual", "", "9% per annum"),
    StateRate(0, "Montana", 10.0, false, 0.0, "Annual", "", "10% per annum")
  ]

  const SeedNe: seq<StateRate> := [
    StateRate(0, "Nebraska", 12.0, false, 0.0, "Annual", "", "12% per annum"),
    StateRate(0, "Nevada", 5.25, false, 0.0, "Annual", "", "Prime rate + 2%")
  ]

  const SeedNew: seq<StateRate> := [
    StateRate(0, "New Hampshire", 7.0, false, 0.0, "Annual", "", "7% per annum"),
    StateRate(0, "New Jersey", 8.75, false, 0.0, "Annual", "", "8.75% per annum"),
    StateRate(0, "New Mexico", 15.0, false, 0.0, "Annual", "", "15% per annum"),
    StateRate(0, "New York", 9.0, false, 0.0, "Annual", "", "9% per annum")
  ]

  const SeedNo: seq<StateRate> := [
    StateRate(0, "North Carolina", 8.0, false, 0.0, "Annual", "", "8% per annum"),
    StateRate(0, "North Dakota", 12.0, false, 0.0, "Annual", "", "12% per annum"),
    StateRate(0, "Ohio", 3.0, true, 0.0, "Annual", "", "Federal rate + 3%"),
    StateRate(0, "Oklahoma", 4.5, true, 4.0, "Annual", "", "Prime rate + 4%"),
    StateRate(0, "Oregon", 9.0, false, 0.0, "Annual", "", "9% per annum")
  ]

  const SeedPe: seq<StateRate> := [
    StateRate(0, "Pennsylvania", 6.0, false, 0.0, "Annual", "", "6% per annum"),
    StateRate(0, "Rhode Island", 12.0, false, 0.0, "Annual", "", "12% per annum"),
    StateRate(0, "South Carolina", 8.75, false, 0.0, "Annual", "", "8.75% per annum"),
    StateRate(0, "South Dakota", 10.0, false, 0.0, "Annual", "", "10% per annum")
  ]

  const SeedTe: seq<StateRate> := [
    StateRate(0, "Tennessee", 10.0, false, 0.0, "Annual", "", "10% per annum"),
    StateRate(0, "Texas", 5.0, false, 0.0, "Annual", "", "5% per annum if parties agree, 18% otherwise"),
    StateRate(0, "Utah", 2.0, true, 0.0, "Annual", "", "Federal rate + 2%"),
    StateRate(0, "Vermont", 12.0, false, 0.0, "Annual", "", "12% per annum"),
    StateRate(0, "Virginia", 6.0, false, 0.0, "Annual", "", "6% per annum")
  ]

  const SeedWa: seq<StateRate> := [
    StateRate(0, "Washington", 12.0, false, 0.0, "Annual", "", "12% per annum or contract rate"),
    StateRate(0, "West Virginia", 7.0, false, 0.0, "Annual", "", "7% per annum"),
    StateRate(0, "Wisconsin", 5.0, false, 0.0, "Annual", "", "5% per annum"),
    StateRate(0, "Wyoming", 10.0, false, 0.0, "Annual", "", "10% per annum")
  ]

  /** Records as `StateRate::new` makes them on `today`: the same fields,
      not yet numbered, stamped with the date. */
  function Stamped(rows: seq<StateRate>, today: string): (r: seq<StateRate>)
    ensures |r| == |rows|
    ensures forall k :: 0 <= k < |r| ==> r[k] == rows[k].(id := 0, lastUpdate := today)
  {
    seq(|rows|, k requires 0 <= k < |rows| =>
      var row := rows[k];
      NewStateRate(row.state, row.rate, row.isVariable, row.plusPercentage, row.updateFrequency, row.notes, today))
  }

  /** `seed_initial_data`'s records, each made by `StateRate::new` on
      `today`. */
  function SeedRecords(today: string): (r: seq<StateRate>)
    ensures |r| == 52
  {
    Stamped(SeedTemplate, today)
  }

  // ---------------------------------------------------------------------
  // Seeding lemmas

  /** Records with new, distinct names are all appended, in order, under
      consecutive ids. */
  lemma {:induction false} InsertAllFresh(t: RateTable, recs: seq<StateRate>)
    requires DistinctStates(recs)
    requires forall k :: 0 <= k < |recs| ==> !HasState(t.rows, recs[k].state)
    ensures InsertAll(t, recs).1 == Pass
    ensures InsertAll(t, recs).0.lastId == t.lastId + |recs|
    ensures InsertAll(t, recs).0.rows == t.rows + Numbered(recs, t.lastId + 1)
    decreases |recs|
  {
    if recs != [] {
      var x := recs[0].(id := t.lastId + 1);
      var t' := InsertAllStep(t, recs);
      forall k | 0 <= k < |recs[1..]|
        ensures !HasState(t'.rows, recs[1..][k].state)
      {
        assert recs[1..][k] == recs[k + 1];
        HasStateAppend(t.rows, x, recs[k + 1].state);
      }
      DistinctTail(recs);
      InsertAllFresh(t', recs[1..]);
      NumberedAppend(t.rows, recs, t.lastId + 1);
    }
  }

  /** One step of the seeding loop: the first record is appended under the
      next id and the rest are inserted into the result. */
  lemma InsertAllStep(t: RateTable, recs: seq<StateRate>) returns (t': RateTable)
    requires recs != [] && !HasState(t.rows, recs[0].state)
    ensures t'.rows == t.rows + [recs[0].(id := t.lastId + 1)]
    ensures t'.lastId == t.lastId + 1
    ensures InsertAll(t, recs) == InsertAll(t', recs[1..])
  {
    t' := Insert(t, recs[0]).0;
  }

  lemma NumberedAppend(rows: seq<StateRate>, recs: seq<StateRate>, first: int)
    requires recs != []
    ensures rows + Numbered(recs, first) == (rows + [recs[0].(id := first)]) + Numbered(recs[1..], first + 1)
  {
  }

  lemma HasStateAppend(rows: seq<StateRate>, x: StateRate, name: string)
    ensures HasState(rows + [x], name) <==> HasState(rows, name) || x.state == name
  {
    if HasState(rows + [x], name) {
      var i :| 0 <= i < |rows + [x]| && (rows + [x])[i].state == name;
      if i < |rows| {
        assert rows[i].state == name;
      }
    }
    if HasState(rows, name) {
      var i :| 0 <= i < |rows| && rows[i].state == name;
      assert (rows + [x])[i].state == name;
    }
    if x.state == name {
      assert (rows + [x])[|rows|].state == name;
    }
  }

  lemma DistinctTail(rows: seq<StateRate>)
    requires DistinctStates(rows) && rows != []
    ensures DistinctStates(rows[1..])
  {
    forall i, j | 0 <= i < j < |rows[1..]|
      ensures rows[1..][i].state != rows[1..][j].state
    {
      assert rows[1..][i] == rows[i + 1] && rows[1..][j] == rows[j + 1];
    }
  }

  /** The records renumbered with consecutive ids from `first`. */
  function Numbered(recs: seq<StateRate>, first: int): (r: seq<StateRate>)
    ensures |r| == |recs|
    ensures forall k :: 0 <= k < |recs| ==> r[k] == recs[k].(id := first + k)
  {
    if recs == [] then [] else [recs[0].(id := first)] + Numbered(recs[1..], first + 1)
  }

  /** The first three letters of a name as one number, in alphabetical
      order; names with different numbers differ. */
  function Prefix(name: string): int
    requires |name| >= 3
  {
    (name[0] as int * 0x1_0000 + name[1] as int) * 0x1_0000 + name[2] as int
  }

  /** Every name has a prefix between `lo` and `hi`. */
  predicate InRange(rows: seq<StateRate>, lo: int, hi: int) {
    forall k :: 0 <= k < |rows| ==> |rows[k].state| >= 3 && lo <= Prefix(rows[k].state) <= hi
  }

  /** A group of seed rows: distinct names, all with prefixes between `lo`
      and `hi`. */
  predicate SeedGroup(rows: seq<StateRate>, lo: int, hi: int) {
    DistinctStates(rows) && InRange(rows, lo, hi)
  }

  /** Two groups whose prefix ranges do not overlap join into one group. */
  lemma SeedGroupJoin(a: seq<StateRate>, b: seq<StateRate>, lo: int, m: int, n: int, hi: int)
    requires SeedGroup(a, lo, m) && SeedGroup(b, n, hi) && lo <= m < n <= hi
    ensures SeedGroup(a + b, lo, hi)
  {
    var r := a + b;
    forall i, j | 0 <= i < j < |r|
      ensures r[i].state != r[j].state
    {
      if j < |a| {
        assert r[i] == a[i] && r[j] == a[j];
      } else if i >= |a| {
        assert r[i] == b[i - |a|] && r[j] == b[j - |a|];
      } else {
        assert r[i] == a[i] && r[j] == b[j - |a|];
        assert Prefix(r[i].state) != Prefix(r[j].state);
      }
    }
    forall k | 0 <= k < |r|
      ensures |r[k].state| >= 3 && lo <= Prefix(r[k].state) <= hi
    {
      if k < |a| {
        assert r[k] == a[k];
      } else {
        assert r[k] == b[k - |a|];
      }
    }
  }

  /** A name whose prefix falls between two joined groups is in neither. */
  lemma SeedGroupGap(a: seq<StateRate>, b: seq<StateRate>, lo: int, m: int, n: int, hi: int, name: string)
    requires SeedGroup(a, lo, m) && SeedGroup(b, n, hi)
    requires |name| >= 3 && m < Prefix(name) < n
    ensures forall k :: 0 <= k < |a + b| ==> (a + b)[k].state != name
  {
    forall k | 0 <= k < |a + b|
      ensures (a + b)[k].state != name
    {
      if k < |a| {
        assert (a + b)[k] == a[k];
      } else {
        assert (a + b)[k] == b[k - |a|];
      }
    }
  }

  /** A row whose name no other row has can be put in front. */
  lemma DistinctCons(x: StateRate, rows: seq<StateRate>)
    requires DistinctStates(rows)
    requires forall k :: 0 <= k < |rows| ==> rows[k].state != x.state
    ensures DistinctStates([x] + rows)
  {
    var r := [x] + rows;
    forall i, j | 0 <= i < j < |r|
      ensures r[i].state != r[j].state
    {
      assert r[j] == rows[j - 1];
      if i > 0 {
        assert r[i] == rows[i - 1];
      }
    }
  }

  /** Stamping records with a date keeps their names. */
  lemma StampedDistinct(rows: seq<StateRate>, today: string)
    requires DistinctStates(rows)
    ensures DistinctStates(Stamped(rows, today))
  {
    var r := Stamped(rows, today);
    forall i, j | 0 <= i < j < |r|
      ensures r[i].state != r[j].state
    {
      assert r[i].state == rows[i].state && r[j].state == rows[j].state;
    }
  }

  // Each block of rows is checked on its own: its names are distinct and
  // lie in the block's prefix range.

  lemma SeedAlDistinct()
    ensures DistinctStates(SeedAl)
  {
  }

  lemma SeedAlInRange()
    ensures InRange(SeedAl, Prefix("Ala"), Prefix("Ark"))
  {
  }

  lemma SeedCaDistinct()
    ensures DistinctStates(SeedCa)
  {
  }

  lemma SeedCaInRange()
    ensures InRange(SeedCa, Prefix("Cal"), Prefix("Con"))
  {
  }

  lemma SeedDeDistinct()
    ensures DistinctStates(SeedDe)
  {
  }

  lemma SeedDeInRange()
    ensures InRange(SeedDe, Prefix("Del"), Prefix("Dis"))
  {
  }

  lemma SeedFlDistinct()
    ensures DistinctStates(SeedFl)
  {
  }

  lemma SeedFlInRange()
    ensures InRange(SeedFl, Prefix("Flo"), Prefix("Geo"))
  {
  }

  lemma SeedHaDistinct()
    ensures DistinctStates(SeedHa)
  {
  }

  lemma SeedHaInRange()
    ensures InRange(SeedHa, Prefix("Haw"), Prefix("Iow"))
  {
  }

  lemma SeedKaDistinct()
    ensures DistinctStates(SeedKa)
  {
  }

  lemma SeedKaInRange()
    ensures InRange(SeedKa, Prefix("Kan"), Prefix("Lou"))
  {
  }

  lemma SeedMaDistinct()
    ensures DistinctStates(SeedMa)
  {
  }

  lemma SeedMaInRange()
    ensures InRange(SeedMa, Prefix("Mai"), Prefix("Mas"))
  {
  }

  lemma SeedMiDistinct()
    ensures DistinctStates(SeedMi)
  {
  }

  lemma SeedMiInRange()
    ensures InRange(SeedMi, Prefix("Mic"), Prefix("Mon"))
  {
  }

  lemma SeedNeDistinct()
    ensures DistinctStates(SeedNe)
  {
  }

  lemma SeedNeInRange()
    ensures InRange(SeedNe, Prefix("Neb"), Prefix("Nev"))
  {
  }

  lemma SeedNewDistinct()
    ensures DistinctStates(SeedNew)
  {
  }

  lemma SeedNewInRange()
    ensures InRange(SeedNew, Prefix("New"), Prefix("New"))
  {
  }

  lemma SeedNoDistinct()
    ensures DistinctStates(SeedNo)
  {
  }

  lemma SeedNoInRange()
    ensures InRange(SeedNo, Prefix("Nor"), Prefix("Ore"))
  {
  }

  lemma SeedPeDistinct()
    ensures DistinctStates(SeedPe)
  {
  }

  lemma SeedPeInRange()
    ensures InRange(SeedPe, Prefix("Pen"), Prefix("Sou"))
  {
  }

  lemma SeedTeDistinct()
    ensures DistinctStates(SeedTe)
  {
  }

  lemma SeedTeInRange()
    ensures InRange(SeedTe, Prefix("Ten"), Prefix("Vir"))
  {
  }

  lemma SeedWaDistinct()
    ensures DistinctStates(SeedWa)
  {
  }

  lemma SeedWaInRange()
    ensures InRange(SeedWa, Prefix("Was"), Prefix("Wyo"))
  {
  }

  lemma SeedBeforeFederalWellFormed()
    ensures SeedGroup(SeedBeforeFederal, Prefix("Ala"), Prefix("Dis"))
  {
    SeedAlDistinct();
    SeedAlInRange();
    SeedCaDistinct();
    SeedCaInRange();
    SeedDeDistinct();
    SeedDeInRange();
    SeedGroupJoin(SeedAl, SeedCa, Prefix("Ala"), Prefix("Ark"), Prefix("Cal"), Prefix("Con"));
    SeedGroupJoin(SeedAl + SeedCa, SeedDe, Prefix("Ala"), Prefix("Con"), Prefix("Del"), Prefix("Dis"));
  }

  lemma SeedFlToMoWellFormed()
    ensures SeedGroup(SeedFlToMo, Prefix("Flo"), Prefix("Mon"))
  {
    SeedFlDistinct();
    SeedFlInRange();
    SeedHaDistinct();
    SeedHaInRange();
    SeedKaDistinct();
    SeedKaInRange();
    SeedMaDistinct();
    SeedMaInRange();
    SeedMiDistinct();
    SeedMiInRange();
    SeedGroupJoin(SeedFl, SeedHa, Prefix("Flo"), Prefix("Geo"), Prefix("Haw"), Prefix("Iow"));
    SeedGroupJoin(SeedFl + SeedHa, SeedKa, Prefix("Flo"), Prefix("Iow"), Prefix("Kan"), Prefix("Lou"));
    SeedGroupJoin(SeedFl + SeedHa + SeedKa, SeedMa, Prefix("Flo"), Prefix("Lou"), Prefix("Mai"), Prefix("Mas"));
    SeedGroupJoin(SeedFl + SeedHa + SeedKa + SeedMa, SeedMi, Prefix("Flo"), Prefix("Mas"), Prefix("Mic"), Prefix("Mon"));
  }

  lemma SeedNeToWyWellFormed()
    ensures SeedGroup(SeedNeToWy, Prefix("Neb"), Prefix("Wyo"))
  {
    SeedNeDistinct();
    SeedNeInRange();
    SeedNewDistinct();
    SeedNewInRange();
    SeedNoDistinct();
    SeedNoInRange();
    SeedPeDistinct();
    SeedPeInRange();
    SeedTeDistinct();
    SeedTeInRange();
    SeedWaDistinct();
    SeedWaInRange();
    SeedGroupJoin(SeedNe, SeedNew, Prefix("Neb"), Prefix("Nev"), Prefix("New"), Prefix("New"));
    SeedGroupJoin(SeedNe + SeedNew, SeedNo, Prefix("Neb"), Prefix("New"), Prefix("Nor"), Prefix("Ore"));
    SeedGroupJoin(SeedNe + SeedNew + SeedNo, SeedPe, Prefix("Neb"), Prefix("Ore"), Prefix("Pen"), Prefix("Sou"));
    SeedGroupJoin(SeedNe + SeedNew + SeedNo + SeedPe, SeedTe, Prefix("Neb"), Prefix("Sou"), Prefix("Ten"), Prefix("Vir"));
    SeedGroupJoin(SeedNe + SeedNew + SeedNo + SeedPe + SeedTe, SeedWa, Prefix("Neb"), Prefix("Vir"), Prefix("Was"), Prefix("Wyo"));
  }

  lemma SeedAfterFederalWellFormed()
    ensures SeedGroup(SeedAfterFederal, Prefix("Flo"), Prefix("Wyo"))
  {
    SeedFlToMoWellFormed();
    SeedNeToWyWellFormed();
    SeedGroupJoin(SeedFlToMo, SeedNeToWy, Prefix("Flo"), Prefix("Mon"), Prefix("Neb"), Prefix("Wyo"));
  }

  /** The 52 seed names are distinct: "Federal" sorts between the two parts
      of the state list. */
  lemma SeedTemplateDistinct()
    ensures DistinctStates(SeedTemplate)
  {
    SeedBeforeFederalWellFormed();
    SeedAfterFederalWellFormed();
    SeedGroupJoin(SeedBeforeFederal, SeedAfterFederal, Prefix("Ala"), Prefix("Dis"), Prefix("Flo"), Prefix("Wyo"));
    SeedGroupGap(SeedBeforeFederal, SeedAfterFederal, Prefix("Ala"), Prefix("Dis"), Prefix("Flo"), Prefix("Wyo"), SeedFederal.state);
    DistinctCons(SeedFederal, SeedStates);
  }

  lemma SeedStatesDistinct(today: string)
    ensures DistinctStates(SeedRecords(today))
  {
    SeedTemplateDistinct();
    StampedDistinct(SeedTemplate, today);
  }

  /** Opening a database with no rows seeds all 52 records in order under
      the next ids of the counter (1 to 52 on a new file); the federal row is
      variable with a base and a margin of 0. */
  lemma InitDbSeedsEmpty(t: RateTable, today: string)
    requires |t.rows| == 0
    ensures InitDb(t, today).1 == Pass
    ensures |InitDb(t, today).0.rows| == 52
    ensures forall k :: 0 <= k < 52 ==>
      InitDb(t, today).0.rows[k] == SeedRecords(today)[k].(id := t.lastId + 1 + k)
    ensures InitDb(t, today).0.lastId == t.lastId + 52
    ensures Lookup(InitDb(t, today).0, "Federal") ==
      Some(StateRate(t.lastId + 1, "Federal", 0.0, true, 0.0, "Weekly", today, "Based on 1-year Treasury yield"))
  {
    var recs := SeedRecords(today);
    SeedStatesDistinct(today);
    InsertAllFresh(t, recs);
    assert InitDb(t, today).0.rows == Numbered(recs, t.lastId + 1);
    LookupUnique(InitDb(t, today).0, "Federal", 0);
  }

  /** Opening twice is opening once: the second opening finds rows and
      changes nothing. */
  lemma InitDbIdempotent(t: RateTable, today: string)
    requires InitDb(t, today).1 == Pass
    ensures InitDb(InitDb(t, today).0, today) == InitDb(t, today)
  {
    if |t.rows| == 0 {
      InitDbSeedsEmpty(t, today);
    }
  }

  /** Three variable seed records carry their margin in `rate` and a margin
      of 0 in `plusPercentage`: Alaska and Ohio (notes "+ 3%") and Utah
      (notes "+ 2%"). */
  lemma SeededZeroMargins(today: string)
    ensures SeedRecords(today)[2] ==
      StateRate(0, "Alaska", 3.0, true, 0.0, "Annual", today, "Federal rate + 3%")
    ensures SeedRecords(today)[36] ==
      StateRate(0, "Ohio", 3.0, true, 0.0, "Annual", today, "Federal rate + 3%")
    ensures SeedRecords(today)[45] ==
      StateRate(0, "Utah", 2.0, true, 0.0, "Annual", today, "Federal rate + 2%")
  {
  }
}
