/** The two persisted tables, `customers` and `daily_recaps`, held in memory.
    Rows are kept in insertion order. The app's SELECTs have no ORDER BY; the model
    takes them to list rows in insertion order. */
module Store {
  import opened Strings

  /** The pair the `UNIQUE(customer_name, po_number)` constraint is over. */
  datatype OrderKey = OrderKey(customerName: string, poNumber: string)

  /** One row of `customers`; the shade lists are stored comma-joined. */
  datatype CustomerRow = CustomerRow(
    customerName: string,
    poNumber: string,
    requiredFabric: string,
    requiredGsm: string,
    yarnDetail: string,
    reqWidth: string,
    numShades: int,
    shadeNames: string,
    shadeRequirements: string)
  {
    function Key(): OrderKey { OrderKey(customerName, poNumber) }
  }

  /** One row of `daily_recaps`. */
  datatype RecapRow = RecapRow(
    date: string,
    customerName: string,
    poNumber: string,
    shadeName: string,
    yarnBagsRequired: int,
    yarnBagsReceived: int,
    balanceYarnBags: int,
    knittingRequired: int,
    knittingProcessed: int,
    balanceKnitting: int,
    dyeingRequired: int,
    dyeingProcessed: int,
    balanceDyeing: int)

  /** Each balance is required minus received (or processed), with no clamping. */
  predicate BalancesConsistent(r: RecapRow)
  {
    && r.balanceYarnBags == r.yarnBagsRequired - r.yarnBagsReceived
    && r.balanceKnitting == r.knittingRequired - r.knittingProcessed
    && r.balanceDyeing == r.dyeingRequired - r.dyeingProcessed
  }

  /** `SELECT customer_name, po_number FROM customers`, listed in insertion order. */
  function Keys(cs: seq<CustomerRow>): seq<OrderKey>
  {
    seq(|cs|, i requires 0 <= i < |cs| => cs[i].Key())
  }

  /** The UNIQUE constraint: no two rows share a (customer name, PO number) pair. */
  predicate UniqueKeys(cs: seq<CustomerRow>)
  {
    forall i, j :: 0 <= i < j < |cs| ==> cs[i].Key() != cs[j].Key()
  }

  /** `SELECT ... WHERE customer_name = ? AND po_number = ?` followed by `fetchone()`:
      the first row with that key, if there is one. */
  function Find(cs: seq<CustomerRow>, key: OrderKey): (r: Option<CustomerRow>)
    ensures r.Some? <==> key in Keys(cs)
    ensures r.Some? ==> r.value in cs && r.value.Key() == key
  {
    if cs == [] then None
    else
      assert Keys(cs) == [cs[0].Key()] + Keys(cs[1..]);
      if cs[0].Key() == key then Some(cs[0]) else Find(cs[1..], key)
  }

  /** Appending a row with a fresh key keeps the constraint, and that row is what a lookup of its key finds. */
  lemma AppendFreshKey(cs: seq<CustomerRow>, row: CustomerRow)
    requires UniqueKeys(cs)
    requires row.Key() !in Keys(cs)
    ensures UniqueKeys(cs + [row])
    ensures Keys(cs + [row]) == Keys(cs) + [row.Key()]
    ensures Find(cs + [row], row.Key()) == Some(row)
    ensures forall key :: key != row.Key() ==> Find(cs + [row], key) == Find(cs, key)
  {
    var cs' := cs + [row];
    forall i, j | 0 <= i < j < |cs'| ensures cs'[i].Key() != cs'[j].Key() {
      if j == |cs| {
        assert cs'[i].Key() == Keys(cs)[i];
      }
    }
    assert Keys(cs') == Keys(cs) + [row.Key()];
    FindAppend(cs, row);
  }

  lemma {:induction false} FindAppend(cs: seq<CustomerRow>, row: CustomerRow)
    ensures forall key :: key in Keys(cs) ==> Find(cs + [row], key) == Find(cs, key)
    ensures forall key :: key !in Keys(cs) && key != row.Key() ==> Find(cs + [row], key) == None
    ensures row.Key() !in Keys(cs) ==> Find(cs + [row], row.Key()) == Some(row)
  {
    if cs != [] {
      FindAppend(cs[1..], row);
      assert (cs + [row])[1..] == cs[1..] + [row];
      assert Keys(cs) == [cs[0].Key()] + Keys(cs[1..]);
    }
  }

  /** Under the constraint, a key present in the table names exactly one row. */
  lemma KeyNamesOneRow(cs: seq<CustomerRow>, key: OrderKey)
    requires UniqueKeys(cs)
    requires key in Keys(cs)
    ensures exists i :: 0 <= i < |cs| && cs[i].Key() == key
              && forall j :: 0 <= j < |cs| && cs[j].Key() == key ==> j == i
  {
    var i :| 0 <= i < |Keys(cs)| && Keys(cs)[i] == key;
    assert cs[i].Key() == key;
  }

  /** `SELECT * FROM daily_recaps WHERE date = ?`: the rows with exactly that date, listed in insertion order. */
  function WithDate(rs: seq<RecapRow>, date: string): (r: seq<RecapRow>)
    ensures |r| <= |rs|
    ensures forall k :: 0 <= k < |r| ==> r[k].date == date
  {
    if rs == [] then []
    else WithDate(rs[..|rs| - 1], date) + (if rs[|rs| - 1].date == date then [rs[|rs| - 1]] else [])
  }

  /** The filter keeps exactly the rows with the date: both directions of membership. */
  lemma {:induction false} WithDateMembers(rs: seq<RecapRow>, date: string)
    ensures forall r :: r in WithDate(rs, date) <==> r in rs && r.date == date
  {
    if rs != [] {
      var init := rs[..|rs| - 1];
      WithDateMembers(init, date);
      assert rs == init + [rs[|rs| - 1]];
    }
  }

  /** No row with the date, nothing kept. */
  lemma {:induction false} WithDateNone(rs: seq<RecapRow>, date: string)
    requires forall k :: 0 <= k < |rs| ==> rs[k].date != date
    ensures WithDate(rs, date) == []
  {
    if rs != [] {
      WithDateNone(rs[..|rs| - 1], date);
    }
  }

  /** The filter keeps insertion order: the matches of an earlier stretch come before those of a later one. */
  lemma {:induction false} WithDateConcat(a: seq<RecapRow>, b: seq<RecapRow>, date: string)
    ensures WithDate(a + b, date) == WithDate(a, date) + WithDate(b, date)
  {
    if b != [] {
      var init := b[..|b| - 1];
      WithDateConcat(a, init, date);
      assert (a + b)[..|a + b| - 1] == a + init;
    } else {
      assert a + b == a;
    }
  }

  /** The number of rows the filter keeps is the number of indices whose row has the date. */
  lemma {:induction false} WithDateCount(rs: seq<RecapRow>, date: string)
    ensures |WithDate(rs, date)| == |set i | 0 <= i < |rs| && rs[i].date == date|
  {
    if rs != [] {
      var n := |rs| - 1;
      var init := rs[..n];
      WithDateCount(init, date);
      var before := set i | 0 <= i < n && init[i].date == date;
      var after := set i | 0 <= i < |rs| && rs[i].date == date;
      if rs[n].date == date {
        assert after == before + {n};
      } else {
        assert after == before;
      }
    }
  }

  /** The database file: both tables, updated in place by the app's statements. */
  class Database {
    var customers: seq<CustomerRow>
    var recaps: seq<RecapRow>

    ghost predicate Valid()
      reads this
    {
      UniqueKeys(customers)
    }

    /** A new database file: both tables empty. */
    constructor ()
      ensures Valid()
      ensures customers == [] && recaps == []
    {
      customers := [];
      recaps := [];
    }

    /** `create_tables`: `DROP TABLE IF EXISTS customers` and re-create it empty;
        `daily_recaps` is only created if absent, so its rows survive. */
    method CreateTables()
      modifies this
      ensures Valid()
      ensures customers == []
      ensures recaps == old(recaps)
    {
      customers := [];
    }

    /** `INSERT INTO customers`: false where the UNIQUE constraint raises IntegrityError,
        and then nothing changes; otherwise the row is appended. */
    method InsertCustomer(row: CustomerRow) returns (inserted: bool)
      requires Valid()
      modifies this
      ensures Valid()
      ensures inserted <==> row.Key() !in Keys(old(customers))
      ensures customers == if inserted then old(customers) + [row] else old(customers)
      ensures recaps == old(recaps)
    {
      if row.Key() in Keys(customers) {
        inserted := false;
      } else {
        AppendFreshKey(customers, row);
        customers := customers + [row];
        inserted := true;
      }
    }

    /** `SELECT customer_name, po_number FROM customers`, one key per row in insertion order. */
    method SelectKeys() returns (keys: seq<OrderKey>)
      ensures |keys| == |customers|
      ensures forall i :: 0 <= i < |keys| ==> keys[i] == customers[i].Key()
    {
      keys := Keys(customers);
    }

    /** `SELECT shade_names, shade_requirements FROM customers WHERE ...` and `fetchone()`. */
    method SelectShades(key: OrderKey) returns (info: Option<(string, string)>)
      ensures info.Some? <==> key in Keys(customers)
      ensures info.Some? ==> exists row :: row in customers && row.Key() == key
                               && info.value == (row.shadeNames, row.shadeRequirements)
      ensures info.Some? ==> var row := Find(customers, key).value;
                               info.value == (row.shadeNames, row.shadeRequirements)
    {
      match Find(customers, key)
      case None => info := None;
      case Some(row) => info := Some((row.shadeNames, row.shadeRequirements));
    }

    /** `INSERT INTO daily_recaps`: the table has no constraint, so the row is always appended. */
    method InsertRecap(row: RecapRow)
      modifies this
      ensures recaps == old(recaps) + [row]
      ensures customers == old(customers)
    {
      recaps := recaps + [row];
    }

    /** `SELECT * FROM daily_recaps WHERE date = ...`. */
    method SelectRecapsByDate(date: string) returns (rows: seq<RecapRow>)
      ensures forall r :: r in rows <==> r in recaps && r.date == date
      ensures rows == WithDate(recaps, date)
    {
      rows := WithDate(recaps, date);
      WithDateMembers(recaps, date);
    }
  }
}
