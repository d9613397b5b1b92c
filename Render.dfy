/**
 * `renderPriceList`, `renderHours` and `showError`: a page container is
 * modelled by the sequence of element values it holds. Each operation first
 * discards the old content and then appends the new elements in order.
 */
module Render {
  import opened Wrappers
  import opened Csv
  import opened Grouping

  /** One service line of a price block: name, optional description, price. */
  datatype PriceRow = PriceRow(name: string, description: Option<string>, price: string)

  /** The element values a container can hold. */
  datatype Node =
    | PriceCategory(title: string, rows: seq<PriceRow>)          // a heading and its service lines
    | HoursItem(day: string, time: string, note: Option<string>)  // one line of opening hours
    | ErrorMessage(paragraphs: seq<string>)                       // a notice of one or two paragraphs

  /** `record[key] || ''`: a field's text, or empty when absent. */
  function Field(r: Record, key: string): string {
    if key in r then r[key] else ""
  }

  /** An optional text: present only when non-empty. */
  function NonEmpty(s: string): Option<string> {
    if s != "" then Some(s) else None
  }

  function PriceRowOf(service: Record): PriceRow {
    PriceRow(Field(service, "Tjänst"), NonEmpty(Field(service, "Beskrivning")), Field(service, "Pris"))
  }

  function PriceRowsOf(services: seq<Record>): seq<PriceRow> {
    seq(|services|, j requires 0 <= j < |services| => PriceRowOf(services[j]))
  }

  /**
   * What `renderPriceList(groups)` leaves in its container: one block per
   * group, in order, titled by its category and with one line per service.
   */
  function PriceListView(groups: seq<Group>): (view: seq<Node>)
    ensures |view| == |groups|
    ensures forall i :: 0 <= i < |groups| ==>
      && view[i].PriceCategory?
      && view[i].title == groups[i].category
      && |view[i].rows| == |groups[i].services|
  {
    seq(|groups|, i requires 0 <= i < |groups| => PriceCategory(groups[i].category, PriceRowsOf(groups[i].services)))
  }

  function HoursItemOf(item: Record): Node {
    HoursItem(Field(item, "Dag"), Field(item, "Tid"), NonEmpty(Field(item, "Notering")))
  }

  /** What `renderHours(hours)` leaves in its container: one line per record, in order. */
  function HoursView(hours: seq<Record>): (view: seq<Node>)
    ensures |view| == |hours|
    ensures forall i :: 0 <= i < |hours| ==> view[i].HoursItem?
  {
    seq(|hours|, i requires 0 <= i < |hours| => HoursItemOf(hours[i]))
  }

  /**
   * The notice `showError` writes: the message, followed by the fallback text
   * as a second paragraph exactly when that text is non-empty.
   */
  function ErrorView(message: string, fallbackText: string): (notice: Node)
    ensures notice.ErrorMessage?
    ensures var ps := notice.paragraphs;
      && 1 <= |ps| <= 2 && ps[0] == message
      && (|ps| == 2 <==> fallbackText != "")
      && (|ps| == 2 ==> ps[1] == fallbackText)
  {
    ErrorMessage([message] + (if fallbackText != "" then [fallbackText] else []))
  }

  /** The number of service lines shown in a sequence of elements. */
  function RowTotal(nodes: seq<Node>): nat {
    if nodes == [] then 0
    else (if nodes[0].PriceCategory? then |nodes[0].rows| else 0) + RowTotal(nodes[1..])
  }

  /** A page element whose children the renderers replace. */
  class Container {
    var children: seq<Node>

    constructor ()
      ensures children == []
    {
      children := [];
    }

    /** `innerHTML = …`: the old children are discarded for the given ones. */
    method Replace(nodes: seq<Node>)
      modifies this
      ensures children == nodes
    {
      children := nodes;
    }

    /** `appendChild(node)`. */
    method Append(node: Node)
      modifies this
      ensures children == old(children) + [node]
    {
      children := children + [node];
    }
  }

  /**
   * `renderPriceList(groups)`: a missing container is left alone; otherwise it
   * is cleared and then receives one block per group, each built row by row.
   */
  method RenderPriceList(container: Container?, groups: seq<Group>)
    modifies container
    ensures container != null ==> container.children == PriceListView(groups)
  {
    if container == null {
      return;
    }
    container.Replace([]);
    var i := 0;
    while i < |groups|
      invariant 0 <= i <= |groups|
      invariant container.children == PriceListView(groups[..i])
    {
      var services := groups[i].services;
      var rows: seq<PriceRow> := [];
      var j := 0;
      while j < |services|
        invariant 0 <= j <= |services|
        invariant rows == PriceRowsOf(services[..j])
      {
        rows := rows + [PriceRowOf(services[j])];
        j := j + 1;
      }
      assert services[..j] == services;
      container.Append(PriceCategory(groups[i].category, rows));
      i := i + 1;
    }
    assert groups[..i] == groups;
  }

  /**
   * `renderHours(hours)`: a missing container is left alone; otherwise it is
   * cleared and then receives one line per record.
   */
  method RenderHours(container: Container?, hours: seq<Record>)
    modifies container
    ensures container != null ==> container.children == HoursView(hours)
  {
    if container == null {
      return;
    }
    container.Replace([]);
    var i := 0;
    while i < |hours|
      invariant 0 <= i <= |hours|
      invariant container.children == HoursView(hours[..i])
    {
      container.Append(HoursItemOf(hours[i]));
      i := i + 1;
    }
    assert hours[..i] == hours;
  }

  /** `showError(id, message, fallbackText)`: the container then holds the notice alone. */
  method ShowError(container: Container?, message: string, fallbackText: string)
    modifies container
    ensures container != null ==> container.children == [ErrorView(message, fallbackText)]
  {
    if container == null {
      return;
    }
    container.Replace([ErrorView(message, fallbackText)]);
  }

  /**
   * Line `j` of block `i` shows service `j` of group `i`: name and price
   * default to `''`, and a description is present exactly when `Beskrivning`
   * is non-empty.
   */
  lemma PriceListShape(groups: seq<Group>, i: nat, j: nat)
    requires i < |groups| && j < |groups[i].services|
    ensures var s, row := groups[i].services[j], PriceListView(groups)[i].rows[j];
      && row.name == (if "Tjänst" in s then s["Tjänst"] else "")
      && row.price == (if "Pris" in s then s["Pris"] else "")
      && (row.description.Some? <==> "Beskrivning" in s && s["Beskrivning"] != "")
      && (row.description.Some? ==> row.description.value == s["Beskrivning"])
  {
  }

  /** Line `i` of the hours list shows record `i`, with a note exactly when `Notering` is non-empty. */
  lemma HoursShape(hours: seq<Record>, i: nat)
    requires i < |hours|
    ensures var h, item := hours[i], HoursView(hours)[i];
      && item.HoursItem?
      && item.day == (if "Dag" in h then h["Dag"] else "")
      && item.time == (if "Tid" in h then h["Tid"] else "")
      && (item.note.Some? <==> "Notering" in h && h["Notering"] != "")
      && (item.note.Some? ==> item.note.value == h["Notering"])
  {
  }

  /** A price list shows as many service lines as its groups hold services. */
  lemma {:induction false} PriceListRows(groups: seq<Group>)
    ensures RowTotal(PriceListView(groups)) == TotalSize(groups)
  {
    if groups != [] {
      PriceListRows(groups[1..]);
      assert PriceListView(groups)[1..] == PriceListView(groups[1..]);
    }
  }

  /** Rendering grouped services shows every service exactly once. */
  lemma RenderedServiceCount(services: seq<Record>)
    ensures RowTotal(PriceListView(Groups(services))) == |services|
  {
    PriceListRows(Groups(services));
    GroupsSize(services);
  }
}
