/** Order entry (`add_customer`) and the shade-list encoding it stores:
    the entered (shade name, kg) pairs are filtered, joined with commas, and
    later split and parsed back by the recap page. */
module Orders {
  import opened Strings
  import opened Store

  /** One "Shade Name i" / "Required KG" pair as entered on the form. */
  datatype ShadeInput = ShadeInput(name: string, kg: int)

  /** A pair the form keeps. */
  datatype Shade = Shade(name: string, kg: nat)

  /** The loop's test `shade_name and shade_kg >= 0`. */
  predicate Keeps(e: ShadeInput)
  {
    e.name != "" && e.kg >= 0
  }

  /** The pairs the shade loop keeps, in entry order. */
  function Kept(inputs: seq<ShadeInput>): (kept: seq<Shade>)
    ensures |kept| <= |inputs|
    ensures forall k :: 0 <= k < |kept| ==> kept[k].name != ""
  {
    if inputs == [] then []
    else
      var e := inputs[|inputs| - 1];
      Kept(inputs[..|inputs| - 1]) + (if Keeps(e) then [Shade(e.name, e.kg)] else [])
  }

  /** The `shade_names` list built from kept pairs. */
  function Names(ks: seq<Shade>): seq<string>
  {
    seq(|ks|, k requires 0 <= k < |ks| => ks[k].name)
  }

  /** The `shade_requirements` list: each kept kg as `str(shade_kg)`. */
  function Requirements(ks: seq<Shade>): seq<string>
  {
    seq(|ks|, k requires 0 <= k < |ks| => NatToString(ks[k].kg))
  }

  /** The kilograms of kept pairs, as integers. */
  function Kilograms(ks: seq<Shade>): seq<int>
  {
    seq(|ks|, k requires 0 <= k < |ks| => ks[k].kg)
  }

  /** The shade-collection loop: for each entered pair, in order, append the name and
      `str(kg)` to the two lists when the pair passes the test. */
  method CollectShades(inputs: seq<ShadeInput>) returns (shadeNames: seq<string>, shadeRequirements: seq<string>)
    ensures shadeNames == Names(Kept(inputs))
    ensures shadeRequirements == Requirements(Kept(inputs))
  {
    shadeNames, shadeRequirements := [], [];
    for i := 0 to |inputs|
      invariant shadeNames == Names(Kept(inputs[..i]))
      invariant shadeRequirements == Requirements(Kept(inputs[..i]))
    {
      assert inputs[..i + 1][..i] == inputs[..i];
      var e := inputs[i];
      if e.name != "" && e.kg >= 0 {
        shadeNames := shadeNames + [e.name];
        shadeRequirements := shadeRequirements + [NatToString(e.kg)];
      }
    }
    assert inputs[..|inputs|] == inputs;
  }

  /** Kept distributes over concatenation: entry order is kept. */
  lemma {:induction false} KeptConcat(a: seq<ShadeInput>, b: seq<ShadeInput>)
    ensures Kept(a + b) == Kept(a) + Kept(b)
  {
    if b == [] {
      assert a + b == a;
    } else {
      KeptConcat(a, b[..|b| - 1]);
      assert (a + b)[..|a + b| - 1] == a + b[..|b| - 1];
    }
  }

  /** A pair is kept exactly when some entered pair with a non-empty name and kg >= 0 is it. */
  lemma {:induction false} KeptMembers(inputs: seq<ShadeInput>)
    ensures forall s :: s in Kept(inputs) <==>
              exists i :: 0 <= i < |inputs| && Keeps(inputs[i]) && s == Shade(inputs[i].name, inputs[i].kg)
  {
    if inputs != [] {
      var n := |inputs| - 1;
      KeptMembers(inputs[..n]);
      forall s ensures s in Kept(inputs) <==>
        exists i :: 0 <= i < |inputs| && Keeps(inputs[i]) && s == Shade(inputs[i].name, inputs[i].kg)
      {
        if s in Kept(inputs[..n]) {
          var i :| 0 <= i < n && Keeps(inputs[..n][i]) && s == Shade(inputs[..n][i].name, inputs[..n][i].kg);
          assert inputs[i] == inputs[..n][i];
        }
        if exists i :: 0 <= i < |inputs| && Keeps(inputs[i]) && s == Shade(inputs[i].name, inputs[i].kg) {
          var i :| 0 <= i < |inputs| && Keeps(inputs[i]) && s == Shade(inputs[i].name, inputs[i].kg);
          if i < n {
            assert inputs[..n][i] == inputs[i];
          }
        }
      }
    }
  }

  /** The form's kg widgets never go below 0, and then only the name test decides:
      every entered pair is kept exactly when each name is non-empty. */
  lemma {:induction false} KeptAllIffNamed(inputs: seq<ShadeInput>)
    requires forall i :: 0 <= i < |inputs| ==> inputs[i].kg >= 0
    ensures |Kept(inputs)| == |inputs| <==> forall i :: 0 <= i < |inputs| ==> inputs[i].name != ""
  {
    if inputs != [] {
      var n := |inputs| - 1;
      KeptAllIffNamed(inputs[..n]);
      assert forall i :: 0 <= i < n ==> inputs[..n][i] == inputs[i];
    }
  }

  /** The two stored lists have the same length, at most the number of entered pairs,
      and position k of each describes the same kept pair. */
  lemma KeptListsAligned(inputs: seq<ShadeInput>)
    ensures |Names(Kept(inputs))| == |Requirements(Kept(inputs))| <= |inputs|
    ensures forall k :: 0 <= k < |Kept(inputs)| ==>
              Names(Kept(inputs))[k] == Kept(inputs)[k].name
              && ParseInt(Requirements(Kept(inputs))[k]) == Some(Kept(inputs)[k].kg as int)
  {
    forall k | 0 <= k < |Kept(inputs)| {
      ParseIntToString(Kept(inputs)[k].kg);
    }
  }

  /** The row `add_customer` inserts; `num_shades` is the requested count, whatever was kept. */
  function OrderRow(name: string, poNumber: string, fabric: string, gsm: string, yarnDetail: string,
                    reqWidth: string, numShades: int, inputs: seq<ShadeInput>): (row: CustomerRow)
    ensures row.Key() == OrderKey(name, poNumber) && row.numShades == numShades
  {
    var kept := Kept(inputs);
    CustomerRow(name, poNumber, fabric, gsm, yarnDetail, reqWidth, numShades,
                Join(Names(kept), ','), Join(Requirements(kept), ','))
  }

  /** The stored shade count can differ from the number of shades kept: a blank name is dropped
      but still counted. */
  lemma NumShadesNotKeptCount()
    ensures var inputs := [ShadeInput("Navy", 100), ShadeInput("", 50)];
            var row := OrderRow("Acme", "PO-1", "Cotton", "180", "20s", "60in", 2, inputs);
            row.numShades == 2 && Split(row.shadeNames, ',') == ["Navy"]
  {
    var inputs := [ShadeInput("Navy", 100), ShadeInput("", 50)];
    assert inputs[..1] == [ShadeInput("Navy", 100)];
    assert Kept(inputs) == [Shade("Navy", 100)];
    SplitWhole("Navy", ',');
  }

  /** `map(int, text.split(','))`: every piece parsed, or None at the first ValueError. */
  function ParseAll(pieces: seq<string>): (r: Option<seq<int>>)
    ensures r.Some? ==> |r.value| == |pieces|
    ensures r.Some? ==> forall k :: 0 <= k < |pieces| ==> ParseInt(pieces[k]) == Some(r.value[k])
    ensures r.None? ==> exists k :: 0 <= k < |pieces| && ParseInt(pieces[k]).None?
  {
    if pieces == [] then Some([])
    else
      match ParseInt(pieces[0])
      case None => None
      case Some(v) =>
        match ParseAll(pieces[1..])
        case None => None
        case Some(vs) => Some([v] + vs)
  }

  /** The recap page's decoding of a stored order's shade columns
      (`shade_names.split(',')` and `list(map(int, shade_requirements.split(',')))`);
      None where `int` raises ValueError. */
  function DecodeShades(shadeNames: string, shadeRequirements: string): (r: Option<(seq<string>, seq<int>)>)
    ensures r.Some? ==> r.value.0 == Split(shadeNames, ',')
    ensures r.Some? <==> ParseAll(Split(shadeRequirements, ',')).Some?
    ensures r.Some? ==> ParseAll(Split(shadeRequirements, ',')) == Some(r.value.1)
  {
    match ParseAll(Split(shadeRequirements, ','))
    case None => None
    case Some(reqs) => Some((Split(shadeNames, ','), reqs))
  }

  /** Parsing what `str` wrote gives the kilograms back. */
  lemma {:induction false} ParseAllRequirements(ks: seq<Shade>)
    ensures ParseAll(Requirements(ks)) == Some(Kilograms(ks))
  {
    if ks != [] {
      ParseIntToString(ks[0].kg);
      ParseAllRequirements(ks[1..]);
      var ps := Requirements(ks);
      assert ps[0] == NatToString(ks[0].kg) == IntToString(ks[0].kg);
      assert ps[1..] == Requirements(ks[1..]);
      assert Kilograms(ks) == [ks[0].kg] + Kilograms(ks[1..]);
    } else {
      assert Requirements(ks) == [] && Kilograms(ks) == [];
    }
  }

  /** The round trip: with at least one kept shade and no comma in any name, decoding the stored
      columns gives the kept names and requirements back, in the same order. */
  lemma EncodeDecode(ks: seq<Shade>)
    requires |ks| >= 1
    requires forall k :: 0 <= k < |ks| ==> ',' !in ks[k].name
    ensures DecodeShades(Join(Names(ks), ','), Join(Requirements(ks), ',')) == Some((Names(ks), Kilograms(ks)))
  {
    SplitJoin(Names(ks), ',');
    forall k | 0 <= k < |Requirements(ks)| ensures ',' !in Requirements(ks)[k] {
      NoCommaInDigits(NatToString(ks[k].kg));
    }
    SplitJoin(Requirements(ks), ',');
    ParseAllRequirements(ks);
  }

  lemma NoCommaInDigits(s: string)
    requires AllDigits(s)
    ensures ',' !in s
  {
  }

  /** With no shade kept both stored columns are empty text, and decoding them fails (`int('')`). */
  lemma DecodeNoShades(name: string, poNumber: string, fabric: string, gsm: string, yarnDetail: string,
                       reqWidth: string, numShades: int, inputs: seq<ShadeInput>)
    requires Kept(inputs) == []
    ensures var row := OrderRow(name, poNumber, fabric, gsm, yarnDetail, reqWidth, numShades, inputs);
            && row.shadeNames == "" && row.shadeRequirements == ""
            && DecodeShades(row.shadeNames, row.shadeRequirements) == None
  {
    assert Split("", ',') == [""];
    assert ParseInt("") == None;
  }

  /** A comma inside a shade name is read back as a separator: one entered shade decodes as two names. */
  lemma CommaInNameSplits(kg: nat)
    ensures DecodeShades(Join(Names([Shade("Navy,Red", kg)]), ','), Join(Requirements([Shade("Navy,Red", kg)]), ','))
            == Some((["Navy", "Red"], [kg as int]))
  {
    var ks := [Shade("Navy,Red", kg)];
    assert Names(ks) == ["Navy,Red"];
    assert Join(Names(ks), ',') == "Navy" + [','] + "Red";
    SplitPrefix("Navy", ',', "Red");
    SplitWhole("Red", ',');
    assert Split(Join(Names(ks), ','), ',') == ["Navy", "Red"];
    var digits := NatToString(kg);
    assert Requirements(ks) == [digits];
    assert Join(Requirements(ks), ',') == digits;
    NoCommaInDigits(digits);
    SplitWhole(digits, ',');
    ParseAllRequirements(ks);
    assert Kilograms(ks) == [kg as int];
    assert ParseAll(Split(Join(Requirements(ks), ','), ',')) == Some([kg as int]);
  }

  datatype AddOutcome = NotSubmitted | CustomerAdded | DuplicateOrder

  /** `add_customer`: collect the shade pairs, and when "Add Customer" is pressed insert the order;
      an existing (customer name, PO number) pair is reported and leaves the table as it was. */
  method AddCustomer(db: Database, name: string, poNumber: string, fabric: string, gsm: string,
                     yarnDetail: string, reqWidth: string, numShades: int, inputs: seq<ShadeInput>,
                     submit: bool) returns (outcome: AddOutcome)
    requires db.Valid()
    requires numShades >= 1 && |inputs| == numShades
    modifies db
    ensures db.Valid()
    ensures outcome == if !submit then NotSubmitted
                       else if OrderKey(name, poNumber) in Keys(old(db.customers)) then DuplicateOrder
                       else CustomerAdded
    ensures db.customers == if outcome == CustomerAdded
                            then old(db.customers) + [OrderRow(name, poNumber, fabric, gsm, yarnDetail, reqWidth, numShades, inputs)]
                            else old(db.customers)
    ensures db.recaps == old(db.recaps)
  {
    var shadeNames, shadeRequirements := CollectShades(inputs);
    if !submit {
      return NotSubmitted;
    }
    var row := CustomerRow(name, poNumber, fabric, gsm, yarnDetail, reqWidth, numShades,
                           Join(shadeNames, ','), Join(shadeRequirements, ','));
    var inserted := db.InsertCustomer(row);
    outcome := if inserted then CustomerAdded else DuplicateOrder;
  }

  /** Adding an order and then looking it up: a fresh key finds the new row, and its shade columns
      decode to the kept names and kilograms (when a shade was kept and no name holds a comma). */
  lemma AddThenDecode(cs: seq<CustomerRow>, name: string, poNumber: string, fabric: string, gsm: string,
                      yarnDetail: string, reqWidth: string, numShades: int, inputs: seq<ShadeInput>)
    requires UniqueKeys(cs)
    requires OrderKey(name, poNumber) !in Keys(cs)
    requires |Kept(inputs)| >= 1
    requires forall i :: 0 <= i < |inputs| ==> ',' !in inputs[i].name
    ensures var row := OrderRow(name, poNumber, fabric, gsm, yarnDetail, reqWidth, numShades, inputs);
            && UniqueKeys(cs + [row])
            && Find(cs + [row], OrderKey(name, poNumber)) == Some(row)
            && DecodeShades(row.shadeNames, row.shadeRequirements) == Some((Names(Kept(inputs)), Kilograms(Kept(inputs))))
  {
    var row := OrderRow(name, poNumber, fabric, gsm, yarnDetail, reqWidth, numShades, inputs);
    AppendFreshKey(cs, row);
    var ks := Kept(inputs);
    KeptMembers(inputs);
    forall k | 0 <= k < |ks| ensures ',' !in ks[k].name {
      assert ks[k] in ks;
    }
    EncodeDecode(ks);
  }

  /** A second order with the same (customer name, PO number) is a duplicate, whatever else differs. */
  lemma SecondAddIsDuplicate(cs: seq<CustomerRow>, first: CustomerRow, second: CustomerRow)
    requires UniqueKeys(cs) && first.Key() !in Keys(cs)
    requires second.Key() == first.Key()
    ensures second.Key() in Keys(cs + [first])
  {
    AppendFreshKey(cs, first);
    assert Keys(cs + [first])[|cs|] == first.Key();
  }
}
