/** The daily recap page (`daily_recap`): pick an order by its label, decode its shades,
    and on a shade's button append one recap row with its three balances. */
module Recaps {
  import opened Strings
  import opened Store
  import opened Orders

  /** `f"{customer_name} - PO: {po_number}"`. */
  function Label(key: OrderKey): string
  {
    key.customerName + " - PO: " + key.poNumber
  }

  /** Where the parts sit in a label: the customer name first, then `" - PO: "`, then the PO number last. */
  lemma LabelParts(key: OrderKey)
    ensures var l := Label(key);
            && |l| == |key.customerName| + 7 + |key.poNumber|
            && l[..|key.customerName|] == key.customerName
            && l[|key.customerName|..|key.customerName| + 7] == " - PO: "
            && l[|l| - |key.poNumber|..] == key.poNumber
  {
  }

  /** Labels only collide across customer names of different lengths: for names of equal length
      the label gives back both the name and the PO number. */
  lemma LabelInjectiveOnNameLength(a: OrderKey, b: OrderKey)
    requires Label(a) == Label(b)
    requires |a.customerName| == |b.customerName|
    ensures a == b
  {
    LabelParts(a);
    LabelParts(b);
    var l := Label(a);
    assert a.customerName == l[..|a.customerName|] == b.customerName;
    assert a.poNumber == l[|l| - |a.poNumber|..] == b.poNumber;
  }

  /** The dict comprehension from labels to (customer name, PO number), built in listing order,
      so a later order with the same label replaces an earlier one. */
  function LabelMap(keys: seq<OrderKey>): (options: map<string, OrderKey>)
    ensures forall l :: l in options ==> options[l] in keys && Label(options[l]) == l
    ensures forall i :: 0 <= i < |keys| ==> Label(keys[i]) in options
  {
    if keys == [] then map[]
    else
      var last := keys[|keys| - 1];
      LabelMap(keys[..|keys| - 1])[Label(last) := last]
  }

  /** A label picks the last order in listing order that carries it. */
  lemma {:induction false} LabelMapLastWins(keys: seq<OrderKey>, i: nat)
    requires i < |keys|
    requires forall j :: i < j < |keys| ==> Label(keys[j]) != Label(keys[i])
    ensures LabelMap(keys)[Label(keys[i])] == keys[i]
  {
    var n := |keys| - 1;
    var init, last := keys[..n], keys[n];
    assert LabelMap(keys) == LabelMap(init)[Label(last) := last];
    if i < n {
      assert Label(last) != Label(keys[i]);
      assert init[i] == keys[i];
      forall j | i < j < |init| ensures Label(init[j]) != Label(init[i]) {
        assert init[j] == keys[j];
      }
      LabelMapLastWins(init, i);
    }
  }

  /** When no two listed orders share a label, selecting an order's label gives back that order. */
  lemma SelectByLabel(keys: seq<OrderKey>)
    requires forall i, j :: 0 <= i < j < |keys| ==> Label(keys[i]) != Label(keys[j])
    ensures forall i :: 0 <= i < |keys| ==> LabelMap(keys)[Label(keys[i])] == keys[i]
  {
    forall i | 0 <= i < |keys| ensures LabelMap(keys)[Label(keys[i])] == keys[i] {
      LabelMapLastWins(keys, i);
    }
  }

  /** Two different orders can share a label, and then the earlier one cannot be selected. */
  lemma LabelsCanCollide()
    ensures var first := OrderKey("Acme - PO: 1", "2");
            var second := OrderKey("Acme", "1 - PO: 2");
            && first != second
            && Label(first) == Label(second)
            && LabelMap([first, second])[Label(first)] == second
  {
    var first := OrderKey("Acme - PO: 1", "2");
    var second := OrderKey("Acme", "1 - PO: 2");
    assert Label(first) == Label(second);
    LabelMapLastWins([first, second], 1);
  }

  /** One shade section of the page: the stripped shade name and the prefilled "Yarn Bags Required". */
  datatype ShadeForm = ShadeForm(shadeName: string, defaultYarnBagsRequired: int)

  /** `enumerate(zip(shade_names, shade_requirements))` with each name stripped:
      as many sections as the shorter list, section i pairing stripped name i with requirement i. */
  function ShadeForms(names: seq<string>, reqs: seq<int>): (forms: seq<ShadeForm>)
    ensures |forms| == if |names| <= |reqs| then |names| else |reqs|
    ensures forall i :: 0 <= i < |forms| ==> forms[i] == ShadeForm(Strip(names[i]), reqs[i])
  {
    var n := if |names| <= |reqs| then |names| else |reqs|;
    seq(n, i requires 0 <= i < n => ShadeForm(Strip(names[i]), reqs[i]))
  }

  /** The sections shown for an order whose kept shades are ks. */
  function FormsOf(ks: seq<Shade>): seq<ShadeForm>
  {
    seq(|ks|, k requires 0 <= k < |ks| => ShadeForm(Strip(ks[k].name), ks[k].kg))
  }

  /** The six numbers entered for one shade (all widgets have `min_value=0`). */
  datatype RecapEntry = RecapEntry(
    yarnBagsRequired: int,
    yarnBagsReceived: int,
    knittingRequired: int,
    knittingProcessed: int,
    dyeingRequired: int,
    dyeingProcessed: int)
  {
    predicate NonNegative()
    {
      && yarnBagsRequired >= 0 && yarnBagsReceived >= 0
      && knittingRequired >= 0 && knittingProcessed >= 0
      && dyeingRequired >= 0 && dyeingProcessed >= 0
    }
  }

  /** The row "Add Daily Recap" inserts: the entered numbers as given and each balance
      recomputed from them, unclamped. */
  function MakeRecap(date: string, key: OrderKey, shadeName: string, e: RecapEntry): (r: RecapRow)
    ensures BalancesConsistent(r)
    ensures r.date == date && r.customerName == key.customerName && r.poNumber == key.poNumber
    ensures r.shadeName == shadeName
    ensures r.yarnBagsRequired == e.yarnBagsRequired && r.yarnBagsReceived == e.yarnBagsReceived
    ensures r.knittingRequired == e.knittingRequired && r.knittingProcessed == e.knittingProcessed
    ensures r.dyeingRequired == e.dyeingRequired && r.dyeingProcessed == e.dyeingProcessed
  {
    RecapRow(date, key.customerName, key.poNumber, shadeName,
             e.yarnBagsRequired, e.yarnBagsReceived, e.yarnBagsRequired - e.yarnBagsReceived,
             e.knittingRequired, e.knittingProcessed, e.knittingRequired - e.knittingProcessed,
             e.dyeingRequired, e.dyeingProcessed, e.dyeingRequired - e.dyeingProcessed)
  }

  /** With non-negative entries no balance exceeds its required value, and a balance is
      negative exactly when more was received or processed than required. */
  lemma BalanceBounds(date: string, key: OrderKey, shadeName: string, e: RecapEntry)
    requires e.NonNegative()
    ensures var r := MakeRecap(date, key, shadeName, e);
            && r.balanceYarnBags <= r.yarnBagsRequired
            && r.balanceKnitting <= r.knittingRequired
            && r.balanceDyeing <= r.dyeingRequired
            && (r.balanceYarnBags < 0 <==> e.yarnBagsReceived > e.yarnBagsRequired)
            && (r.balanceKnitting < 0 <==> e.knittingProcessed > e.knittingRequired)
            && (r.balanceDyeing < 0 <==> e.dyeingProcessed > e.dyeingRequired)
  {
  }

  /** Every recap row in a log satisfies the balance equations. */
  predicate RecapsBalanced(rs: seq<RecapRow>)
  {
    forall k :: 0 <= k < |rs| ==> BalancesConsistent(rs[k])
  }

  /** Appending a row that satisfies the balance equations keeps the whole log balanced. */
  lemma AppendBalanced(rs: seq<RecapRow>, r: RecapRow)
    requires RecapsBalanced(rs) && BalancesConsistent(r)
    ensures RecapsBalanced(rs + [r])
  {
    forall k | 0 <= k < |rs + [r]| ensures BalancesConsistent((rs + [r])[k]) {
      if k < |rs| {
        assert (rs + [r])[k] == rs[k];
      }
    }
  }

  /** What one run of the recap page leads to. */
  datatype RecapOutcome =
    | NoCustomers              // "No customers found."
    | NoSelection              // "Please select a customer."
    | UnknownSelection         // a label not among the options: `customer_options[...]` raises KeyError
    | MissingOrder             // "No shade information found ..."
    | BadRequirement           // `int(...)` raises ValueError while decoding the requirements
    | Shown(forms: seq<ShadeForm>)  // the shade sections, no button pressed
    | Added(row: RecapRow)     // "Daily recap added ..."

  /** The recap page's decisions over the customers table: `pressed` is the index of the
      shade section whose button was pressed, if any. */
  function RecapResult(cs: seq<CustomerRow>, date: string, selection: string,
                       pressed: Option<nat>, entry: RecapEntry): RecapOutcome
  {
    var keys := Keys(cs);
    if keys == [] then NoCustomers
    else if selection == "" then NoSelection
    else
      var options := LabelMap(keys);
      if selection !in options then UnknownSelection
      else
        var key := options[selection];
        match Find(cs, key)
        case None => MissingOrder
        case Some(row) =>
          match DecodeShades(row.shadeNames, row.shadeRequirements)
          case None => BadRequirement
          case Some(decoded) =>
            var forms := ShadeForms(decoded.0, decoded.1);
            if pressed.Some? && pressed.value < |forms|
            then Added(MakeRecap(date, key, forms[pressed.value].shadeName, entry))
            else Shown(forms)
  }

  /** Which message the page ends on: "No customers found." exactly for an empty table, "Please select
      a customer." exactly for an empty selection, and the KeyError exactly for a selection that is no
      listed order's label. */
  lemma RecapOutcomes(cs: seq<CustomerRow>, date: string, selection: string, pressed: Option<nat>, entry: RecapEntry)
    ensures var r := RecapResult(cs, date, selection, pressed, entry);
            && (r == NoCustomers <==> cs == [])
            && (r == NoSelection <==> cs != [] && selection == "")
            && (r == UnknownSelection <==>
                  cs != [] && selection != "" && forall i :: 0 <= i < |cs| ==> Label(cs[i].Key()) != selection)
  {
    var keys := Keys(cs);
    var r := RecapResult(cs, date, selection, pressed, entry);
    if cs != [] && selection != "" {
      assert keys != [];
      var options := LabelMap(keys);
      if selection in options {
        var i :| 0 <= i < |keys| && keys[i] == options[selection];
        assert Label(cs[i].Key()) == selection;
      } else {
        forall i | 0 <= i < |cs| ensures Label(cs[i].Key()) != selection {
          assert Label(keys[i]) in options;
        }
      }
    }
  }

  /** The ValueError shows exactly when the selected order's stored requirements do not all parse. */
  lemma BadRequirementIff(cs: seq<CustomerRow>, date: string, selection: string, pressed: Option<nat>, entry: RecapEntry)
    requires cs != [] && selection in LabelMap(Keys(cs))
    ensures var row := Find(cs, LabelMap(Keys(cs))[selection]).value;
            RecapResult(cs, date, selection, pressed, entry) == BadRequirement
            <==> ParseAll(Split(row.shadeRequirements, ',')).None?
  {
    assert Keys(cs) != [];
    assert LabelMap(Keys(cs))[selection] in Keys(cs);
  }

  /** A label offered by the page always names a stored order, so "no shade information" never shows. */
  lemma NeverMissingOrder(cs: seq<CustomerRow>, date: string, selection: string, pressed: Option<nat>, entry: RecapEntry)
    ensures RecapResult(cs, date, selection, pressed, entry) != MissingOrder
  {
    var keys := Keys(cs);
    if keys != [] && selection != "" && selection in LabelMap(keys) {
      assert LabelMap(keys)[selection] in Keys(cs);
    }
  }

  /** A recap row is only added for a listed order whose label was selected, for the decoded shade
      whose button was pressed (its name stripped), with the entered numbers and consistent balances. */
  lemma AddedRowBelongs(cs: seq<CustomerRow>, date: string, selection: string, pressed: Option<nat>, entry: RecapEntry)
    requires RecapResult(cs, date, selection, pressed, entry).Added?
    ensures var r := RecapResult(cs, date, selection, pressed, entry).row;
            var key := OrderKey(r.customerName, r.poNumber);
            && key in Keys(cs)
            && Label(key) == selection
            && r.date == date
            && BalancesConsistent(r)
            && r.yarnBagsRequired == entry.yarnBagsRequired && r.yarnBagsReceived == entry.yarnBagsReceived
            && r.knittingRequired == entry.knittingRequired && r.knittingProcessed == entry.knittingProcessed
            && r.dyeingRequired == entry.dyeingRequired && r.dyeingProcessed == entry.dyeingProcessed
            && var names := Split(Find(cs, key).value.shadeNames, ',');
               pressed.Some? && pressed.value < |names| && r.shadeName == Strip(names[pressed.value])
  {
    var key := LabelMap(Keys(cs))[selection];
    var row := Find(cs, key).value;
    var decoded := DecodeShades(row.shadeNames, row.shadeRequirements).value;
    var forms := ShadeForms(decoded.0, decoded.1);
    assert RecapResult(cs, date, selection, pressed, entry) == Added(MakeRecap(date, key, forms[pressed.value].shadeName, entry));
  }

  /** The end-to-end property: right after an order is added, selecting its label shows one section
      per kept shade, in entry order, each prefilled with that shade's kilograms
      (when a shade was kept and no shade name holds a comma). */
  lemma NewOrderShowsItsShades(cs: seq<CustomerRow>, name: string, poNumber: string, fabric: string, gsm: string,
                               yarnDetail: string, reqWidth: string, numShades: int, inputs: seq<ShadeInput>,
                               date: string, entry: RecapEntry)
    requires UniqueKeys(cs)
    requires OrderKey(name, poNumber) !in Keys(cs)
    requires |Kept(inputs)| >= 1
    requires forall i :: 0 <= i < |inputs| ==> ',' !in inputs[i].name
    ensures var cs' := cs + [OrderRow(name, poNumber, fabric, gsm, yarnDetail, reqWidth, numShades, inputs)];
            RecapResult(cs', date, Label(OrderKey(name, poNumber)), None, entry) == Shown(FormsOf(Kept(inputs)))
  {
    var key := OrderKey(name, poNumber);
    var row := OrderRow(name, poNumber, fabric, gsm, yarnDetail, reqWidth, numShades, inputs);
    var cs' := cs + [row];
    AddThenDecode(cs, name, poNumber, fabric, gsm, yarnDetail, reqWidth, numShades, inputs);
    AppendFreshKey(cs, row);
    var keys := Keys(cs');
    LabelMapLastWins(keys, |keys| - 1);
    assert LabelMap(keys)[Label(key)] == key;
    var ks := Kept(inputs);
    assert ShadeForms(Names(ks), Kilograms(ks)) == FormsOf(ks);
  }

  /** The recap page's result once the selected order's shade columns have decoded. */
  lemma RecapResultOfDecoded(cs: seq<CustomerRow>, date: string, selection: string, pressed: Option<nat>,
                             entry: RecapEntry, decoded: (seq<string>, seq<int>))
    requires Keys(cs) != [] && selection in LabelMap(Keys(cs))
    requires var row := Find(cs, LabelMap(Keys(cs))[selection]).value;
             DecodeShades(row.shadeNames, row.shadeRequirements) == Some(decoded)
    ensures var forms := ShadeForms(decoded.0, decoded.1);
            RecapResult(cs, date, selection, pressed, entry)
            == if pressed.Some? && pressed.value < |forms|
               then Added(MakeRecap(date, LabelMap(Keys(cs))[selection], forms[pressed.value].shadeName, entry))
               else Shown(forms)
  {
    assert selection != "";
    assert LabelMap(Keys(cs))[selection] in Keys(cs);
  }

  /** The other end-to-end case: right after an order with no kept shade is added, selecting its
      label stops the page on the ValueError of `int('')`. */
  lemma NewOrderWithoutShadesFails(cs: seq<CustomerRow>, name: string, poNumber: string, fabric: string, gsm: string,
                                   yarnDetail: string, reqWidth: string, numShades: int, inputs: seq<ShadeInput>,
                                   date: string, pressed: Option<nat>, entry: RecapEntry)
    requires UniqueKeys(cs)
    requires OrderKey(name, poNumber) !in Keys(cs)
    requires Kept(inputs) == []
    ensures var cs' := cs + [OrderRow(name, poNumber, fabric, gsm, yarnDetail, reqWidth, numShades, inputs)];
            RecapResult(cs', date, Label(OrderKey(name, poNumber)), pressed, entry) == BadRequirement
  {
    var key := OrderKey(name, poNumber);
    var row := OrderRow(name, poNumber, fabric, gsm, yarnDetail, reqWidth, numShades, inputs);
    var cs' := cs + [row];
    AppendFreshKey(cs, row);
    DecodeNoShades(name, poNumber, fabric, gsm, yarnDetail, reqWidth, numShades, inputs);
    var keys := Keys(cs');
    LabelMapLastWins(keys, |keys| - 1);
    assert LabelMap(keys)[Label(key)] == key;
  }

  /** `daily_recap`: list the orders, resolve the selected label, read and decode the order's shades,
      and on a pressed button append one recap row; the customers table is only read. */
  method DailyRecap(db: Database, date: string, selection: string, pressed: Option<nat>, entry: RecapEntry)
    returns (outcome: RecapOutcome)
    modifies db
    ensures outcome == RecapResult(old(db.customers), date, selection, pressed, entry)
    ensures db.customers == old(db.customers)
    ensures db.recaps == if outcome.Added? then old(db.recaps) + [outcome.row] else old(db.recaps)
    ensures RecapsBalanced(old(db.recaps)) ==> RecapsBalanced(db.recaps)
  {
    var keys := db.SelectKeys();
    assert keys == Keys(db.customers);
    if keys == [] {
      return NoCustomers;
    }
    if selection == "" {
      return NoSelection;
    }
    var options := LabelMap(keys);
    if selection !in options {
      return UnknownSelection;
    }
    var key := options[selection];
    var info := db.SelectShades(key);
    if info.None? {
      return MissingOrder;
    }
    var decoded := DecodeShades(info.value.0, info.value.1);
    if decoded.None? {
      return BadRequirement;
    }
    var forms := ShadeForms(decoded.value.0, decoded.value.1);
    RecapResultOfDecoded(db.customers, date, selection, pressed, entry, decoded.value);
    if pressed.Some? && pressed.value < |forms| {
      var row := MakeRecap(date, key, forms[pressed.value].shadeName, entry);
      if RecapsBalanced(db.recaps) {
        AppendBalanced(db.recaps, row);
      }
      db.InsertRecap(row);
      outcome := Added(row);
    } else {
      outcome := Shown(forms);
    }
  }
}
