/**
 * Worked sheets: the whole data path on small concrete inputs, from the raw
 * text to what the container shows.
 */
module Examples {
  import opened Wrappers
  import opened Text
  import opened Csv
  import opened Grouping
  import opened Render
  import opened Loader

  // ---------------------------------------------------------------------------
  // Small steps shared by the examples
  // ---------------------------------------------------------------------------

  /** A final newline after an unpadded text changes nothing. */
  lemma TrailingNewline(text: string)
    requires text == [] || (!IsSpace(text[0]) && !IsSpace(text[|text| - 1]))
    ensures ParseCsv(text + "\n") == ParseCsv(text)
  {
    assert "" + text + "\n" == text + "\n";
    TrimPadded("", text, "\n");
    ParseIgnoresPadding(text + "\n");
  }

  /** Two services of one category make a single group that keeps their order. */
  lemma OneCategory(first: Record, second: Record)
    requires Category(first) == Category(second)
    ensures Groups([first, second]) == [Group(Category(first), [first, second])]
  {
    assert [first][..0] == [];
    assert Groups([first][..0]) == [];
    var g1 := Groups([first]);
    assert g1 == [Group(Category(first), [first])];
    assert [first, second][..1] == [first];
    assert g1[1..] == [];
    assert [first] + [second] == [first, second];
  }

  // ---------------------------------------------------------------------------
  // A price sheet
  // ---------------------------------------------------------------------------

  // The sheet `Tjänst,Pris,Kategori` / `Klippning,300kr,Hår` / `Färgning,500kr,Hår`.
  const PriceHeaders: seq<string> := ["Tjänst", "Pris", "Kategori"]
  const CutRow: seq<string> := ["Klippning", "300kr", "Hår"]
  const ColourRow: seq<string> := ["Färgning", "500kr", "Hår"]
  const Cut: Record := map["Tjänst" := "Klippning", "Pris" := "300kr", "Kategori" := "Hår"]
  const Colour: Record := map["Tjänst" := "Färgning", "Pris" := "500kr", "Kategori" := "Hår"]

  lemma PriceSheetUnpadded()
    ensures var text := Sheet(PriceHeaders, [CutRow, ColourRow], ',');
      text != [] && !IsSpace(text[0]) && !IsSpace(text[|text| - 1])
  {
    PriceFields();
    SheetUnpadded(PriceHeaders, [CutRow, ColourRow], ',');
  }

  lemma PriceFields()
    ensures forall i :: 0 <= i < 3 ==> PlainField(PriceHeaders[i], ',')
    ensures forall j :: 0 <= j < 3 ==> PlainField(CutRow[j], ',')
    ensures forall j :: 0 <= j < 3 ==> PlainField(ColourRow[j], ',')
  {
  }

  lemma PriceRecords()
    ensures BuildRecord(PriceHeaders, CutRow) == Cut
    ensures BuildRecord(PriceHeaders, ColourRow) == Colour
  {
    assert Fill(PriceHeaders, CutRow, 1) == map["Tjänst" := "Klippning"];
    assert Fill(PriceHeaders, CutRow, 2) == map["Tjänst" := "Klippning", "Pris" := "300kr"];
    assert Fill(PriceHeaders, ColourRow, 1) == map["Tjänst" := "Färgning"];
    assert Fill(PriceHeaders, ColourRow, 2) == map["Tjänst" := "Färgning", "Pris" := "500kr"];
  }

  /** The price sheet parses to its two records, in order. */
  lemma PriceSheetRecords()
    ensures ParseCsv(Sheet(PriceHeaders, [CutRow, ColourRow], ',')) == [Cut, Colour]
  {
    PriceSheetUnpadded();
    PriceFields();
    PriceRecords();
    ParseOfSheet(PriceHeaders, [CutRow, ColourRow], ',');
  }

  /** A final newline after the price sheet changes nothing. */
  lemma PriceSheetParse()
    ensures ParseCsv(Sheet(PriceHeaders, [CutRow, ColourRow], ',') + "\n") == [Cut, Colour]
  {
    PriceSheetUnpadded();
    PriceSheetRecords();
    TrailingNewline(Sheet(PriceHeaders, [CutRow, ColourRow], ','));
  }

  lemma PriceGroups()
    ensures Groups([Cut, Colour]) == [Group("Hår", [Cut, Colour])]
  {
    assert Category(Cut) == "Hår" && Category(Colour) == "Hår";
    OneCategory(Cut, Colour);
  }

  lemma PriceBlock()
    ensures PriceListView([Group("Hår", [Cut, Colour])])
         == [PriceCategory("Hår", [PriceRow("Klippning", None, "300kr"), PriceRow("Färgning", None, "500kr")])]
  {
    var rows := PriceRowsOf([Cut, Colour]);
    assert rows[0] == PriceRow("Klippning", None, "300kr");
    assert rows[1] == PriceRow("Färgning", None, "500kr");
    assert rows == [PriceRow("Klippning", None, "300kr"), PriceRow("Färgning", None, "500kr")];
  }

  /**
   * The price sheet with a trailing newline becomes two records of category
   * `Hår`, grouped into one block whose two lines keep the sheet's order;
   * neither line has a description.
   */
  lemma PriceSheetEndToEnd(url: string)
    requires url != ""
    ensures PricesView(url, Fetched(Sheet(PriceHeaders, [CutRow, ColourRow], ',') + "\n"))
         == [PriceCategory("Hår", [PriceRow("Klippning", None, "300kr"), PriceRow("Färgning", None, "500kr")])]
  {
    PriceSheetParse();
    PriceGroups();
    PriceBlock();
  }

  // ---------------------------------------------------------------------------
  // A tab-separated sheet
  // ---------------------------------------------------------------------------

  // The sheet `Dag<tab>Tid` / `Mån, Tis<tab>9-17`.
  const TabHeaders: seq<string> := ["Dag", "Tid"]
  const TabRow: seq<string> := ["Mån, Tis", "9-17"]

  /**
   * A tab in the header line makes tab the delimiter for every line, so a
   * comma inside a value is kept, and so is the space after it.
   */
  lemma TabSheetKeepsCommas()
    ensures ParseCsv(Sheet(TabHeaders, [TabRow], '\t')) == [map["Dag" := "Mån, Tis", "Tid" := "9-17"]]
  {
    TabSheetUnpadded();
    TabFields();
    TabRecord();
    ParseOfSheet(TabHeaders, [TabRow], '\t');
  }

  lemma TabSheetUnpadded()
    ensures var text := Sheet(TabHeaders, [TabRow], '\t');
      text != [] && !IsSpace(text[0]) && !IsSpace(text[|text| - 1])
  {
    TabFields();
    SheetUnpadded(TabHeaders, [TabRow], '\t');
  }

  lemma TabFields()
    ensures forall i :: 0 <= i < 2 ==> PlainField(TabHeaders[i], '\t')
    ensures forall j :: 0 <= j < 2 ==> PlainField(TabRow[j], '\t')
  {
  }

  lemma TabRecord()
    ensures BuildRecord(TabHeaders, TabRow) == map["Dag" := "Mån, Tis", "Tid" := "9-17"]
  {
    assert Fill(TabHeaders, TabRow, 1) == map["Dag" := "Mån, Tis"];
  }

  // ---------------------------------------------------------------------------
  // An hours sheet
  // ---------------------------------------------------------------------------

  // The sheet `Dag,Tid,Notering` / `Måndag,9-17,` / `Lördag,10-14,Stängt 24/12`.
  const HoursHeaders: seq<string> := ["Dag", "Tid", "Notering"]
  const MondayRow: seq<string> := ["Måndag", "9-17", ""]
  const SaturdayRow: seq<string> := ["Lördag", "10-14", "Stängt 24/12"]
  const Monday: Record := map["Dag" := "Måndag", "Tid" := "9-17", "Notering" := ""]
  const Saturday: Record := map["Dag" := "Lördag", "Tid" := "10-14", "Notering" := "Stängt 24/12"]

  lemma HoursSheetUnpadded()
    ensures var text := Sheet(HoursHeaders, [MondayRow, SaturdayRow], ',');
      text != [] && !IsSpace(text[0]) && !IsSpace(text[|text| - 1])
  {
    HoursFields();
    SheetUnpadded(HoursHeaders, [MondayRow, SaturdayRow], ',');
  }

  lemma HoursFields()
    ensures forall i :: 0 <= i < 3 ==> PlainField(HoursHeaders[i], ',')
    ensures forall j :: 0 <= j < 3 ==> PlainField(MondayRow[j], ',')
    ensures forall j :: 0 <= j < 3 ==> PlainField(SaturdayRow[j], ',')
  {
  }

  lemma HoursRecords()
    ensures BuildRecord(HoursHeaders, MondayRow) == Monday
    ensures BuildRecord(HoursHeaders, SaturdayRow) == Saturday
  {
    assert Fill(HoursHeaders, MondayRow, 1) == map["Dag" := "Måndag"];
    assert Fill(HoursHeaders, MondayRow, 2) == map["Dag" := "Måndag", "Tid" := "9-17"];
    assert Fill(HoursHeaders, SaturdayRow, 1) == map["Dag" := "Lördag"];
    assert Fill(HoursHeaders, SaturdayRow, 2) == map["Dag" := "Lördag", "Tid" := "10-14"];
  }

  lemma HoursSheetParse()
    ensures ParseCsv(Sheet(HoursHeaders, [MondayRow, SaturdayRow], ',')) == [Monday, Saturday]
  {
    HoursSheetUnpadded();
    HoursFields();
    HoursRecords();
    ParseOfSheet(HoursHeaders, [MondayRow, SaturdayRow], ',');
  }

  /** An hours sheet with a note on one day only: the note shows on that line alone. */
  lemma HoursSheetEndToEnd(url: string)
    requires url != ""
    ensures HoursPageView(url, Fetched(Sheet(HoursHeaders, [MondayRow, SaturdayRow], ',')))
         == [HoursItem("Måndag", "9-17", None), HoursItem("Lördag", "10-14", Some("Stängt 24/12"))]
  {
    HoursSheetParse();
    HoursItems();
  }

  lemma HoursItems()
    ensures HoursView([Monday, Saturday]) == [HoursItem("Måndag", "9-17", None), HoursItem("Lördag", "10-14", Some("Stängt 24/12"))]
  {
    var view := HoursView([Monday, Saturday]);
    assert view[0] == HoursItem("Måndag", "9-17", None);
    assert view[1] == HoursItem("Lördag", "10-14", Some("Stängt 24/12"));
  }

  // ---------------------------------------------------------------------------
  // Cleaning and grouping
  // ---------------------------------------------------------------------------

  /** Of doubled quotes only the outer pair is removed. */
  lemma OuterQuotesOnly(m: string)
    ensures Clean("\"\"" + m + "\"\"") == "\"" + m + "\""
  {
    var q := "\"" + m + "\"";
    var f := "\"\"" + m + "\"\"";
    assert f == "\"" + q + "\"";
    CleanWrapped(q);
  }

  /** White space inside the quotes survives, so a cleaned field can begin with white space. */
  lemma QuotedSpaceSurvives(m: string)
    requires m != [] && IsSpace(m[0])
    ensures Clean("\"" + m + "\"") == m
    ensures Clean("\"" + m + "\"") != [] && IsSpace(Clean("\"" + m + "\"")[0])
  {
    CleanWrapped(m);
  }

  /**
   * Categories `A`, `B`, `A` give the groups `A` then `B`, with both `A`
   * services in their original order; a service without a category goes to
   * the fallback group.
   */
  lemma GroupingExample(a1: Record, b: Record, a2: Record, other: Record)
    requires CategoryField in a1 && a1[CategoryField] == "A"
    requires CategoryField in b && b[CategoryField] == "B"
    requires CategoryField in a2 && a2[CategoryField] == "A"
    requires CategoryField !in other
    ensures Groups([a1, b, a2]) == [Group("A", [a1, a2]), Group("B", [b])]
    ensures Groups([a1, other]) == [Group("A", [a1]), Group(FallbackCategory, [other])]
  {
    assert Category(a1) == "A" && Category(b) == "B" && Category(a2) == "A";
    assert Category(other) == FallbackCategory;
    assert [a1][..0] == [];
    assert Groups([a1][..0]) == [];
    var g1 := Groups([a1]);
    assert g1 == [Group("A", [a1])];
    assert [a1, b][..1] == [a1];
    var g2 := Groups([a1, b]);
    assert g2 == AddTo(g1, "B", b);
    assert g2 == [Group("A", [a1]), Group("B", [b])];
    assert [a1, b, a2][..2] == [a1, b];
    assert Groups([a1, b, a2]) == AddTo(g2, "A", a2);
    assert [a1] + [a2] == [a1, a2];
    assert [a1, other][..1] == [a1];
    assert "A" != FallbackCategory;
    assert Groups([a1, other]) == AddTo(g1, FallbackCategory, other);
    assert g1[1..] == [];
    assert AddTo(g1, FallbackCategory, other) == [g1[0]] + AddTo([], FallbackCategory, other);
  }
}
