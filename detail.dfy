/** The technical data sheet of a material: the CSV export, the key selection of its
    property tables, and the merged physical-and-thermal table. */
module Detail {
  import opened Wrappers
  import opened Text
  import JsObject
  import Seqs
  import opened Catalogue

  // ---------------------------------------------------------------------------
  // Quote doubling in the description field
  // ---------------------------------------------------------------------------

  predicate IsQuote(c: char)
  {
    c == '"'
  }

  /** `s.replace(/"/g, '""')`: every double quote written twice, everything else kept. */
  function EscapeQuotes(s: string): (r: string)
    ensures |r| == |s| + Seqs.Count(s, IsQuote)
  {
    if s == [] then []
    else (if s[0] == '"' then "\"\"" else [s[0]]) + EscapeQuotes(s[1..])
  }

  /** How a CSV reader reads the inside of a quoted field: a doubled quote stands for one. */
  function UnescapeQuotes(r: string): string
  {
    if r == [] then []
    else if |r| >= 2 && r[0] == '"' && r[1] == '"' then ['"'] + UnescapeQuotes(r[2..])
    else [r[0]] + UnescapeQuotes(r[1..])
  }

  /** Undoing the doubling gives back the description as it was. */
  lemma {:induction false} UnescapeEscape(s: string)
    ensures UnescapeQuotes(EscapeQuotes(s)) == s
  {
    if s != [] {
      var rest := EscapeQuotes(s[1..]);
      UnescapeEscape(s[1..]);
      if s[0] == '"' {
        assert EscapeQuotes(s) == "\"\"" + rest;
        assert (EscapeQuotes(s))[2..] == rest;
      } else {
        assert EscapeQuotes(s) == [s[0]] + rest;
        assert (EscapeQuotes(s))[1..] == rest;
      }
      assert s == [s[0]] + s[1..];
    }
  }

  /** A description without quotes is written unchanged. */
  lemma {:induction false} EscapeWithoutQuotes(s: string)
    requires '"' !in s
    ensures EscapeQuotes(s) == s
  {
    if s != [] {
      assert '"' !in s[1..];
      EscapeWithoutQuotes(s[1..]);
      assert s == [s[0]] + s[1..];
    }
  }

  // ---------------------------------------------------------------------------
  // The CSV lines
  // ---------------------------------------------------------------------------

  const Header: string := "Category,Property,Value"

  /** The eight `Basic` rows (Name, Grade, Category, Standard, Shape, Condition,
      Process, Description): a missing optional field is written as the empty string,
      and the description is quoted with its quotes doubled. */
  function BasicLines(m: Material): (ls: seq<string>)
    ensures |ls| == 8
  {
    [
      "Basic,Name," + m.name,
      "Basic,Grade," + OrElse(m.grade, ""),
      "Basic,Category," + m.category,
      "Basic,Standard," + OrElse(m.standard, ""),
      "Basic,Shape," + OrElse(m.shape, ""),
      "Basic,Condition," + OrElse(m.supplyCondition, ""),
      "Basic,Process," + OrElse(m.process, ""),
      "Basic,Description,\"" + EscapeQuotes(m.description) + "\""]
  }

  /** One entry of a property group: `group,"key","value"`, with no escaping. */
  function EntryLine(groupName: string, key: string, value: string): string
  {
    groupName + ",\"" + key + "\",\"" + value + "\""
  }

  /** The lines of the entries of `g` under the keys `ks`, in that order. */
  function EntryLines(groupName: string, g: Group, ks: seq<string>): (ls: seq<string>)
    requires forall k :: k in ks ==> k in g.keys
    ensures |ls| == |ks|
    ensures forall i :: 0 <= i < |ks| ==> ls[i] == EntryLine(groupName, ks[i], g.vals[ks[i]])
  {
    if ks == [] then []
    else EntryLines(groupName, g, ks[..|ks| - 1]) + [EntryLine(groupName, ks[|ks| - 1], g.vals[ks[|ks| - 1]])]
  }

  /** `addProperties`: one line per entry of a present group, in entry order; an absent
      group adds nothing. */
  function GroupLines(groupName: string, data: Option<Group>): (ls: seq<string>)
    ensures |ls| == GroupSize(data)
  {
    match data
    case None => []
    case Some(g) => EntryLines(groupName, g, g.keys)
  }

  /** The number of entries of an optional group. */
  function GroupSize(data: Option<Group>): nat
  {
    match data
    case None => 0
    case Some(g) => |g.keys|
  }

  /** A performance row for each of the two ratings that is present and non-empty. */
  function PerformanceLines(m: Material): (ls: seq<string>)
    ensures |ls| == (if Truthy(m.wearResistance) then 1 else 0) + (if Truthy(m.corrosionResistance) then 1 else 0)
  {
    (if Truthy(m.wearResistance) then ["Performance,Wear Resistance,\"" + m.wearResistance.value + "\""] else [])
    + (if Truthy(m.corrosionResistance) then ["Performance,Corrosion Resistance,\"" + m.corrosionResistance.value + "\""] else [])
  }

  /** Every line of the export, in order: the header, the eight basic rows, one row per
      group entry and one per present rating. */
  function CsvLines(m: Material): (ls: seq<string>)
    ensures |ls| == 9 + GroupSize(m.chemicalComposition) + GroupSize(m.mechanicalProperties)
                      + GroupSize(m.physicalProperties) + GroupSize(m.thermalProperties)
                      + GroupSize(m.characteristicProperties)
                      + (if Truthy(m.wearResistance) then 1 else 0)
                      + (if Truthy(m.corrosionResistance) then 1 else 0)
  {
    [Header] + BasicLines(m)
    + GroupLines("Chemical Composition", m.chemicalComposition)
    + GroupLines("Mechanical Properties", m.mechanicalProperties)
    + GroupLines("Physical Properties", m.physicalProperties)
    + GroupLines("Thermal Properties", m.thermalProperties)
    + GroupLines("Characteristics", m.characteristicProperties)
    + PerformanceLines(m)
  }

  /** The lines, each followed by a newline. */
  function Join(ls: seq<string>): string
  {
    if ls == [] then "" else Join(ls[..|ls| - 1]) + ls[|ls| - 1] + "\n"
  }

  lemma JoinSnoc(ls: seq<string>, l: string)
    ensures Join(ls + [l]) == Join(ls) + l + "\n"
  {
    assert (ls + [l])[..|ls|] == ls;
  }

  lemma {:induction false} JoinAppend(a: seq<string>, b: seq<string>)
    ensures Join(a + b) == Join(a) + Join(b)
  {
    if b == [] {
      assert a + b == a;
    } else {
      assert (a + b)[..|a + b| - 1] == a + b[..|b| - 1];
      assert (a + b)[|a + b| - 1] == b[|b| - 1];
      JoinAppend(a, b[..|b| - 1]);
    }
  }

  predicate IsNewline(c: char)
  {
    c == '\n'
  }

  /** Lines free of newlines come out as exactly as many text lines. */
  lemma {:induction false} JoinNewlines(ls: seq<string>)
    requires forall i :: 0 <= i < |ls| ==> Seqs.Count(ls[i], IsNewline) == 0
    ensures Seqs.Count(Join(ls), IsNewline) == |ls|
  {
    if ls != [] {
      var front := ls[..|ls| - 1];
      JoinNewlines(front);
      Seqs.CountAppend(Join(front) + ls[|ls| - 1], "\n", IsNewline);
      Seqs.CountAppend(Join(front), ls[|ls| - 1], IsNewline);
    }
  }

  /** The export opens with the header and the eight basic rows. */
  lemma CsvLinesStart(m: Material)
    ensures CsvLines(m)[..9] == [Header] + BasicLines(m)
  {
    var a0 := [Header] + BasicLines(m);
    var a1 := a0 + GroupLines("Chemical Composition", m.chemicalComposition);
    var a2 := a1 + GroupLines("Mechanical Properties", m.mechanicalProperties);
    var a3 := a2 + GroupLines("Physical Properties", m.physicalProperties);
    var a4 := a3 + GroupLines("Thermal Properties", m.thermalProperties);
    var a5 := a4 + GroupLines("Characteristics", m.characteristicProperties);
    var a6 := a5 + PerformanceLines(m);
    assert CsvLines(m) == a6;
    assert a1[..9] == a0;
    assert a2[..9] == a1[..9];
    assert a3[..9] == a2[..9];
    assert a4[..9] == a3[..9];
    assert a5[..9] == a4[..9];
    assert a6[..9] == a5[..9];
  }

  /** The description row holds the description in quotes, and reading the quoted field
      back gives the description itself. */
  lemma DescriptionRoundTrip(m: Material)
    ensures var l := CsvLines(m)[8];
            var prefix := "Basic,Description,\"";
            && |l| >= |prefix| + 1 && l[..|prefix|] == prefix && l[|l| - 1] == '"'
            && UnescapeQuotes(l[|prefix|..|l| - 1]) == m.description
  {
    var prefix := "Basic,Description,\"";
    var l := CsvLines(m)[8];
    CsvLinesStart(m);
    assert l == BasicLines(m)[7];
    assert l == prefix + EscapeQuotes(m.description) + "\"";
    assert l[|prefix|..|l| - 1] == EscapeQuotes(m.description);
    UnescapeEscape(m.description);
  }

  /** A missing optional field leaves its basic row ending right after the caption. */
  lemma MissingFieldsEmpty(m: Material)
    ensures !Truthy(m.grade) ==> CsvLines(m)[2] == "Basic,Grade,"
    ensures !Truthy(m.standard) ==> CsvLines(m)[4] == "Basic,Standard,"
    ensures !Truthy(m.shape) ==> CsvLines(m)[5] == "Basic,Shape,"
    ensures !Truthy(m.supplyCondition) ==> CsvLines(m)[6] == "Basic,Condition,"
    ensures !Truthy(m.process) ==> CsvLines(m)[7] == "Basic,Process,"
  {
    CsvLinesStart(m);
  }

  /** `handleExportCSV`: the text is built by appending one line at a time. */
  method ExportCsv(m: Material) returns (csv: string)
    ensures csv == Join(CsvLines(m))
  {
    var basic := [Header] + BasicLines(m);
    csv := "";
    for i := 0 to |basic|
      invariant csv == Join(basic[..i])
    {
      JoinSnoc(basic[..i], basic[i]);
      Seqs.TakeSnoc(basic, i);
      csv := csv + basic[i] + "\n";
    }
    assert basic[..|basic|] == basic;
    var done := basic;
    csv := AddProperties(csv, "Chemical Composition", m.chemicalComposition);
    JoinAppend(done, GroupLines("Chemical Composition", m.chemicalComposition));
    done := done + GroupLines("Chemical Composition", m.chemicalComposition);
    csv := AddProperties(csv, "Mechanical Properties", m.mechanicalProperties);
    JoinAppend(done, GroupLines("Mechanical Properties", m.mechanicalProperties));
    done := done + GroupLines("Mechanical Properties", m.mechanicalProperties);
    csv := AddProperties(csv, "Physical Properties", m.physicalProperties);
    JoinAppend(done, GroupLines("Physical Properties", m.physicalProperties));
    done := done + GroupLines("Physical Properties", m.physicalProperties);
    csv := AddProperties(csv, "Thermal Properties", m.thermalProperties);
    JoinAppend(done, GroupLines("Thermal Properties", m.thermalProperties));
    done := done + GroupLines("Thermal Properties", m.thermalProperties);
    csv := AddProperties(csv, "Characteristics", m.characteristicProperties);
    JoinAppend(done, GroupLines("Characteristics", m.characteristicProperties));
    done := done + GroupLines("Characteristics", m.characteristicProperties);
    CsvLinesSplit(m, done);
    ghost var base, perf := done, [];
    assert done == base + perf;
    if Truthy(m.wearResistance) {
      var line := "Performance,Wear Resistance,\"" + m.wearResistance.value + "\"";
      JoinSnoc(done, line);
      csv := csv + line + "\n";
      Seqs.AppendAssoc(base, perf, [line]);
      done := done + [line];
      perf := perf + [line];
    }
    if Truthy(m.corrosionResistance) {
      var line := "Performance,Corrosion Resistance,\"" + m.corrosionResistance.value + "\"";
      JoinSnoc(done, line);
      csv := csv + line + "\n";
      Seqs.AppendAssoc(base, perf, [line]);
      done := done + [line];
      perf := perf + [line];
    }
    assert perf == PerformanceLines(m);
    assert done == CsvLines(m);
  }

  /** The export's lines are the lines up to the last group followed by the ratings. */
  lemma CsvLinesSplit(m: Material, done: seq<string>)
    requires done == [Header] + BasicLines(m)
                     + GroupLines("Chemical Composition", m.chemicalComposition)
                     + GroupLines("Mechanical Properties", m.mechanicalProperties)
                     + GroupLines("Physical Properties", m.physicalProperties)
                     + GroupLines("Thermal Properties", m.thermalProperties)
                     + GroupLines("Characteristics", m.characteristicProperties)
    ensures CsvLines(m) == done + PerformanceLines(m)
  {
  }

  /** One turn of the `addProperties` loop appends the line of the next entry. */
  lemma EntryStep(csv: string, groupName: string, g: Group, i: nat)
    requires i < |g.keys|
    ensures csv + Join(EntryLines(groupName, g, g.keys[..i + 1]))
         == csv + Join(EntryLines(groupName, g, g.keys[..i])) + EntryLine(groupName, g.keys[i], g.vals[g.keys[i]]) + "\n"
  {
    var line := EntryLine(groupName, g.keys[i], g.vals[g.keys[i]]);
    var done := EntryLines(groupName, g, g.keys[..i]);
    Seqs.TakeSnoc(g.keys, i);
    assert EntryLines(groupName, g, g.keys[..i + 1]) == done + [line];
    JoinSnoc(done, line);
    var j := Join(done);
    assert csv + (j + line + "\n") == csv + j + line + "\n";
  }

  /** The `addProperties` helper: appends the lines of a present group, entry by entry. */
  method AddProperties(csv: string, groupName: string, data: Option<Group>) returns (out: string)
    ensures out == csv + Join(GroupLines(groupName, data))
  {
    out := csv;
    if data.None? {
      return;
    }
    var g := data.value;
    for i := 0 to |g.keys|
      invariant out == csv + Join(EntryLines(groupName, g, g.keys[..i]))
    {
      var key := g.keys[i];
      EntryStep(csv, groupName, g, i);
      out := out + EntryLine(groupName, key, g.vals[key]) + "\n";
    }
    assert g.keys[..|g.keys|] == g.keys;
  }

  /** The download name: `name_grade.csv`, with `Data` for a missing grade. */
  function FileName(m: Material): (r: string)
    ensures StartsWith(r, m.name + "_")
    ensures |r| >= |m.name| + 5 && r[|r| - 4..] == ".csv"
    ensures Truthy(m.grade) ==> r[|m.name| + 1..|r| - 4] == m.grade.value
    ensures !Truthy(m.grade) ==> r[|m.name| + 1..|r| - 4] == "Data"
  {
    m.name + "_" + OrElse(m.grade, "Data") + ".csv"
  }

  // ---------------------------------------------------------------------------
  // Property tables
  // ---------------------------------------------------------------------------

  /** `PROPERTY_ORDER`: the fixed row order of the steel and aluminium tables. */
  function PropertyOrder(orderKey: string): Option<seq<string>>
  {
    match orderKey
    case "Steel_Chem" => Some(["C", "Si", "Mn", "P", "S", "Cr", "Ni", "Mo", "V", "Cu", "Fe"])
    case "Steel_Mech" => Some(["弹性模量", "屈服强度", "抗拉强度", "断后伸长率", "断面收缩率", "冲击功", "硬度"])
    case "Al_Chem" => Some(["Si", "Fe", "Cu", "Mg", "Mn", "Cr", "Zn", "Ti", "Al"])
    case "Al_Mech" => Some(["弹性模量", "屈服强度", "抗拉强度", "断口伸长率", "硬度", "疲劳强度"])
    case _ => None
  }

  /** `data[k]` is a non-empty string. */
  predicate Shown(data: Group, k: string)
  {
    Truthy(JsObject.Get(data, k))
  }

  /** `keys.filter(k => data[k])`. */
  function ValidKeys(g: Group, keys: seq<string>): (r: seq<string>)
    ensures forall k :: k in r <==> k in keys && Shown(g, k)
  {
    Seqs.Filter(keys, (k: string) => Shown(g, k))
  }

  /** The row keys `DataTable` shows, or `None` when it renders nothing: the fixed order
      of a known order key, else the group's own keys, kept only where the value is
      non-empty. */
  function TableKeys(data: Option<Group>, orderKey: Option<string>): (r: Option<seq<string>>)
    ensures r.Some? ==> data.Some? && r.value != [] && forall k :: k in r.value ==> Shown(data.value, k)
  {
    match data
    case None => None
    case Some(g) =>
      var keys := if Truthy(orderKey) && PropertyOrder(orderKey.value).Some?
                  then PropertyOrder(orderKey.value).value else g.keys;
      var valid := ValidKeys(g, keys);
      if valid == [] then None else Some(valid)
  }

  /** With a known order key the table shows exactly the listed keys whose value is
      non-empty, in the listed order (`ValidKeys` is an order-preserving filter): keys
      outside the list never appear, and the table is absent when no listed key has a
      value. */
  lemma TableKeysOrdered(g: Group, orderKey: string)
    requires PropertyOrder(orderKey).Some?
    ensures var order := PropertyOrder(orderKey).value;
            var r := TableKeys(Some(g), Some(orderKey));
            && (r.None? <==> forall k :: k in order ==> !Shown(g, k))
            && (r.Some? ==> && r.value == ValidKeys(g, order)
                            && (forall k :: k in r.value <==> k in order && Shown(g, k))
                            && Seqs.Distinct(r.value))
  {
    var order := PropertyOrder(orderKey).value;
    OrderListsDistinct(orderKey);
    Seqs.FilterDistinct(order, (k: string) => Shown(g, k));
    var valid := ValidKeys(g, order);
    if valid != [] {
      assert valid[0] in order && Shown(g, valid[0]);
    }
  }

  /** Without an order key (or with an unknown one) the table shows the group's own keys
      with a non-empty value, in insertion order, and is absent when there are none. */
  lemma TableKeysUnordered(g: Group, orderKey: Option<string>)
    requires !Truthy(orderKey) || PropertyOrder(orderKey.value).None?
    ensures var r := TableKeys(Some(g), orderKey);
            && (r.None? <==> forall k :: k in g.keys ==> !Shown(g, k))
            && (r.Some? ==> && r.value == ValidKeys(g, g.keys)
                            && (forall k :: k in r.value <==> k in g.keys && Shown(g, k))
                            && Seqs.Distinct(r.value))
  {
    Seqs.FilterDistinct(g.keys, (k: string) => Shown(g, k));
    var valid := ValidKeys(g, g.keys);
    if valid != [] {
      assert valid[0] in g.keys && Shown(g, valid[0]);
    }
  }

  /** No key is listed twice in a fixed order. */
  lemma OrderListsDistinct(orderKey: string)
    ensures PropertyOrder(orderKey).Some? ==> Seqs.Distinct(PropertyOrder(orderKey).value)
  {
  }

  /** A coating-only element such as `TiB2` in an aluminium composition is not shown. */
  lemma UnlistedKeyDropped(g: Group)
    ensures var r := TableKeys(Some(g), Some("Al_Chem"));
            r.Some? ==> "TiB2" !in r.value
  {
    TableKeysOrdered(g, "Al_Chem");
    assert "TiB2" !in PropertyOrder("Al_Chem").value;
  }

  /** `{ ...physicalProperties, ...thermalProperties }`: a key in both takes the thermal
      value, every other key keeps the value of the one group that has it; the rows
      list the physical keys in their own order, then the thermal keys the physical
      group lacks, in the thermal group's order. */
  function PhysicalThermal(m: Material): (r: Group)
    ensures forall k :: JsObject.Get(r, k)
                        == if m.thermalProperties.Some? && k in m.thermalProperties.value.keys
                           then JsObject.Get(m.thermalProperties.value, k)
                           else if m.physicalProperties.Some? then JsObject.Get(m.physicalProperties.value, k)
                           else None
    ensures var pk := if m.physicalProperties.Some? then m.physicalProperties.value.keys else [];
            var tk := if m.thermalProperties.Some? then m.thermalProperties.value.keys else [];
            r.keys == pk + Seqs.Filter(tk, (k: string) => k !in pk)
  {
    JsObject.Spread(m.physicalProperties.GetOr(JsObject.Empty()), m.thermalProperties.GetOr(JsObject.Empty()))
  }

  // ---------------------------------------------------------------------------
  // Tables by category
  // ---------------------------------------------------------------------------

  /** One `DataTable` of the right-hand column: its title, the group it is given and its
      order key. */
  datatype TableSpec = TableSpec(title: string, data: Option<Group>, orderKey: Option<string>)

  const Steel: string := "钢材"
  const Aluminium: string := "铝合金"
  const Coating: string := "涂层材料"

  /** The tables the detail sheet lays out for the material's category: composition,
      mechanical and merged physical and thermal tables for steel and aluminium, with the
      category's order keys; four unordered tables for a coating; none otherwise. */
  function DetailTables(m: Material): seq<TableSpec>
  {
    if m.category == Steel then
      [ TableSpec("Chemical Composition (%)", m.chemicalComposition, Some("Steel_Chem")),
        TableSpec("Mechanical Properties", m.mechanicalProperties, Some("Steel_Mech")),
        TableSpec("Physical & Thermal", Some(PhysicalThermal(m)), None) ]
    else if m.category == Aluminium then
      [ TableSpec("Chemical Composition (%)", m.chemicalComposition, Some("Al_Chem")),
        TableSpec("Mechanical Properties", m.mechanicalProperties, Some("Al_Mech")),
        TableSpec("Physical & Thermal", Some(PhysicalThermal(m)), None) ]
    else if m.category == Coating then
      [ TableSpec("Characteristics", m.characteristicProperties, None),
        TableSpec("Composition", m.chemicalComposition, None),
        TableSpec("Coating Performance", m.mechanicalProperties, None),
        TableSpec("Physical Properties", m.physicalProperties, None) ]
    else []
  }

  /** The rows each laid-out table renders, in layout order; `None` for a table that
      renders nothing. */
  function DetailRows(m: Material): (r: seq<Option<seq<string>>>)
    ensures |r| == |DetailTables(m)|
  {
    var ts := DetailTables(m);
    seq(|ts|, i requires 0 <= i < |ts| => TableKeys(ts[i].data, ts[i].orderKey))
  }

  /** Which tables a category gets: steel and aluminium get three, whose composition and
      mechanical rows follow their own category's fixed lists and whose third table
      holds the merged physical and thermal rows in spread order; a coating gets four
      tables, each in its group's own order; every other category gets no table. Every
      order key in use is a known one. */
  lemma DetailTablesSpec(m: Material)
    ensures var ts := DetailTables(m);
            && (m.category !in {Steel, Aluminium, Coating} <==> ts == [])
            && (forall t :: t in ts && t.orderKey.Some? ==> PropertyOrder(t.orderKey.value).Some?)
            && (m.category in {Steel, Aluminium} ==>
                  && |ts| == 3
                  && ts[0].data == m.chemicalComposition && ts[1].data == m.mechanicalProperties
                  && ts[0].orderKey == Some(if m.category == Steel then "Steel_Chem" else "Al_Chem")
                  && ts[1].orderKey == Some(if m.category == Steel then "Steel_Mech" else "Al_Mech")
                  && ts[2].data == Some(PhysicalThermal(m)) && ts[2].orderKey.None?)
            && (m.category == Coating ==>
                  && |ts| == 4
                  && (forall t :: t in ts ==> t.orderKey.None?)
                  && ts[0].data == m.characteristicProperties && ts[1].data == m.chemicalComposition
                  && ts[2].data == m.mechanicalProperties && ts[3].data == m.physicalProperties)
  {
  }

  /** For steel and aluminium the composition table shows exactly the category's listed
      elements that have a value, in listed order, and the physical and thermal table
      shows the merged keys that have a value, physical keys first. */
  lemma DetailRowsOrdered(m: Material)
    requires m.category in {Steel, Aluminium}
    ensures var rows := DetailRows(m);
            var chem := if m.category == Steel then "Steel_Chem" else "Al_Chem";
            && (m.chemicalComposition.Some? && rows[0].Some? ==>
                  rows[0].value == ValidKeys(m.chemicalComposition.value, PropertyOrder(chem).value))
            && (m.chemicalComposition.None? ==> rows[0].None?)
            && (rows[2].Some? ==> rows[2].value == ValidKeys(PhysicalThermal(m), PhysicalThermal(m).keys))
  {
    var chem := if m.category == Steel then "Steel_Chem" else "Al_Chem";
    if m.chemicalComposition.Some? {
      TableKeysOrdered(m.chemicalComposition.value, chem);
    }
    TableKeysUnordered(PhysicalThermal(m), None);
  }
}
