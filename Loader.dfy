/**
 * `loadPrices` and `loadHours`: each loader ends in exactly one of four
 * states (not configured, could not load, nothing found, shown) and leaves
 * the matching content in its container. The fetch is not performed here: its
 * result is an input.
 */
module Loader {
  import opened Wrappers
  import opened Text
  import opened Csv
  import opened Grouping
  import opened Render

  /** What `fetch(url)` and `response.text()` produced. */
  datatype FetchOutcome =
    | Fetched(body: string)  // `response.ok`, with the body text
    | NotOk                  // a response whose `ok` is false
    | Threw                  // `fetch` or `response.text()` threw

  /** The terminal state a loader reaches. */
  datatype Stage = NotConfigured | LoadFailed | NothingFound | Shown

  /**
   * The state reached for a URL (empty means not configured) and a fetch
   * outcome: "nothing found" is a fetched sheet of at most one line.
   */
  function StageOf(url: string, outcome: FetchOutcome): (stage: Stage)
    ensures stage == NotConfigured <==> url == ""
    ensures stage == LoadFailed <==> url != "" && !outcome.Fetched?
    ensures stage == NothingFound <==> url != "" && outcome.Fetched? && '\n' !in Trim(outcome.body)
  {
    if url == "" then NotConfigured
    else match outcome
      case Fetched(body) =>
        ParseEmptyIffSingleLine(body);
        if ParseCsv(body) == [] then NothingFound else Shown
      case NotOk => LoadFailed
      case Threw => LoadFailed
  }

  const PricesNotConfigured: string := "Prislistan är inte konfigurerad ännu."
  const PricesNotFound: string := "Inga tjänster hittades."
  const PricesLoadError: string := "Kunde inte ladda prislistan."
  const PricesContact: string := "Kontakta oss för aktuell prislista."

  const HoursNotConfigured: string := "Öppettider är inte konfigurerade ännu."
  const HoursNotFound: string := "Inga öppettider hittades."
  const HoursLoadError: string := "Kunde inte ladda öppettider."
  const HoursContact: string := "Kontakta oss för aktuella öppettider."

  /** The content `loadPrices` leaves in the price container, branch by branch; it is never empty. */
  function PricesView(url: string, outcome: FetchOutcome): (view: seq<Node>)
    ensures view != []
  {
    if url == "" then [ErrorView(PricesNotConfigured, PricesContact)]
    else match outcome
      case Fetched(body) =>
        var services := ParseCsv(body);
        if |services| == 0 then [ErrorView(PricesNotFound, PricesContact)]
        else PriceListView(Groups(services))
      case NotOk => [ErrorView(PricesLoadError, PricesContact)]
      case Threw => [ErrorView(PricesLoadError, PricesContact)]
  }

  /** The content `loadHours` leaves in the hours container, branch by branch; it is never empty. */
  function HoursPageView(url: string, outcome: FetchOutcome): (view: seq<Node>)
    ensures view != []
  {
    if url == "" then [ErrorView(HoursNotConfigured, HoursContact)]
    else match outcome
      case Fetched(body) =>
        var hours := ParseCsv(body);
        if |hours| == 0 then [ErrorView(HoursNotFound, HoursContact)]
        else HoursView(hours)
      case NotOk => [ErrorView(HoursLoadError, HoursContact)]
      case Threw => [ErrorView(HoursLoadError, HoursContact)]
  }

  /** The state a price container's content shows. */
  function PricesStageShown(view: seq<Node>): Stage {
    if view == [ErrorMessage([PricesNotConfigured, PricesContact])] then NotConfigured
    else if view == [ErrorMessage([PricesLoadError, PricesContact])] then LoadFailed
    else if view == [ErrorMessage([PricesNotFound, PricesContact])] then NothingFound
    else Shown
  }

  /** The state an hours container's content shows. */
  function HoursStageShown(view: seq<Node>): Stage {
    if view == [ErrorMessage([HoursNotConfigured, HoursContact])] then NotConfigured
    else if view == [ErrorMessage([HoursLoadError, HoursContact])] then LoadFailed
    else if view == [ErrorMessage([HoursNotFound, HoursContact])] then NothingFound
    else Shown
  }

  /** A notice with a non-empty contact line has exactly two paragraphs. */
  lemma NoticeWithContact(message: string, contact: string)
    requires contact != ""
    ensures ErrorView(message, contact) == ErrorMessage([message, contact])
  {
    assert [message] + [contact] == [message, contact];
  }

  /** Grouping a non-empty sheet gives at least one group. */
  lemma GroupsNonEmpty(services: seq<Record>)
    requires services != []
    ensures Groups(services) != []
  {
    GroupsSize(services);
  }

  /**
   * Each outcome of `loadPrices`: every notice is the state's message followed
   * by the same contact line, and a rendered price list is a non-empty
   * sequence of category blocks, so the content tells the four states apart.
   */
  lemma PricesOutcome(url: string, outcome: FetchOutcome)
    ensures StageOf(url, outcome) == NotConfigured ==>
              PricesView(url, outcome) == [ErrorMessage([PricesNotConfigured, PricesContact])]
    ensures StageOf(url, outcome) == LoadFailed ==>
              PricesView(url, outcome) == [ErrorMessage([PricesLoadError, PricesContact])]
    ensures StageOf(url, outcome) == NothingFound ==>
              PricesView(url, outcome) == [ErrorMessage([PricesNotFound, PricesContact])]
    ensures StageOf(url, outcome) == Shown ==>
              && PricesView(url, outcome) == PriceListView(Groups(ParseCsv(outcome.body)))
              && PricesView(url, outcome) != []
              && forall i :: 0 <= i < |PricesView(url, outcome)| ==> PricesView(url, outcome)[i].PriceCategory?
    ensures PricesStageShown(PricesView(url, outcome)) == StageOf(url, outcome)
  {
    NoticeWithContact(PricesNotConfigured, PricesContact);
    NoticeWithContact(PricesLoadError, PricesContact);
    NoticeWithContact(PricesNotFound, PricesContact);
    if StageOf(url, outcome) == Shown {
      GroupsNonEmpty(ParseCsv(outcome.body));
      var v := PricesView(url, outcome);
      assert v[0].PriceCategory?;
    }
  }

  /** Each outcome of `loadHours`, in the same terms. */
  lemma HoursOutcome(url: string, outcome: FetchOutcome)
    ensures StageOf(url, outcome) == NotConfigured ==>
              HoursPageView(url, outcome) == [ErrorMessage([HoursNotConfigured, HoursContact])]
    ensures StageOf(url, outcome) == LoadFailed ==>
              HoursPageView(url, outcome) == [ErrorMessage([HoursLoadError, HoursContact])]
    ensures StageOf(url, outcome) == NothingFound ==>
              HoursPageView(url, outcome) == [ErrorMessage([HoursNotFound, HoursContact])]
    ensures StageOf(url, outcome) == Shown ==>
              && HoursPageView(url, outcome) == HoursView(ParseCsv(outcome.body))
              && |HoursPageView(url, outcome)| == |ParseCsv(outcome.body)| > 0
              && forall i :: 0 <= i < |HoursPageView(url, outcome)| ==> HoursPageView(url, outcome)[i].HoursItem?
    ensures HoursStageShown(HoursPageView(url, outcome)) == StageOf(url, outcome)
  {
    NoticeWithContact(HoursNotConfigured, HoursContact);
    NoticeWithContact(HoursLoadError, HoursContact);
    NoticeWithContact(HoursNotFound, HoursContact);
    if StageOf(url, outcome) == Shown {
      var v := HoursPageView(url, outcome);
      assert v[0].HoursItem?;
    }
  }

  /** Without a URL nothing is fetched: the content does not depend on the fetch outcome. */
  lemma UnconfiguredIgnoresFetch(outcome1: FetchOutcome, outcome2: FetchOutcome)
    ensures PricesView("", outcome1) == PricesView("", outcome2)
    ensures HoursPageView("", outcome1) == HoursPageView("", outcome2)
  {
  }

  /** An empty or header-only sheet is the "nothing found" state, not a load failure. */
  lemma SingleLineSheetIsNothingFound(url: string, body: string)
    requires url != "" && '\n' !in Trim(body)
    ensures StageOf(url, Fetched(body)) == NothingFound
    ensures PricesView(url, Fetched(body)) == [ErrorMessage([PricesNotFound, PricesContact])]
    ensures HoursPageView(url, Fetched(body)) == [ErrorMessage([HoursNotFound, HoursContact])]
  {
    ParseEmptyIffSingleLine(body);
    NoticeWithContact(PricesNotFound, PricesContact);
    NoticeWithContact(HoursNotFound, HoursContact);
  }

  /**
   * `loadPrices()`: with no container nothing happens; with no URL the
   * "not configured" notice; a failed fetch is logged and shows "could not
   * load"; an empty sheet shows "nothing found"; otherwise the grouped price
   * list is rendered. `logged` stands for the `console.error` call.
   */
  method LoadPrices(container: Container?, url: string, outcome: FetchOutcome) returns (logged: bool)
    modifies container
    ensures container != null ==> container.children == PricesView(url, outcome)
    ensures logged <==> container != null && StageOf(url, outcome) == LoadFailed
  {
    logged := false;
    if container == null {
      return;
    }
    if url == "" {
      ShowError(container, PricesNotConfigured, PricesContact);
      return;
    }
    match outcome {
      case Fetched(body) =>
        var services := ParseCsv(body);
        if |services| == 0 {
          ShowError(container, PricesNotFound, PricesContact);
          return;
        }
        var groups := GroupByCategory(services);
        RenderPriceList(container, groups);
      case NotOk =>
        logged := true;
        ShowError(container, PricesLoadError, PricesContact);
      case Threw =>
        logged := true;
        ShowError(container, PricesLoadError, PricesContact);
    }
  }

  /** `loadHours()`: the same decisions, ending in the hours list. */
  method LoadHours(container: Container?, url: string, outcome: FetchOutcome) returns (logged: bool)
    modifies container
    ensures container != null ==> container.children == HoursPageView(url, outcome)
    ensures logged <==> container != null && StageOf(url, outcome) == LoadFailed
  {
    logged := false;
    if container == null {
      return;
    }
    if url == "" {
      ShowError(container, HoursNotConfigured, HoursContact);
      return;
    }
    match outcome {
      case Fetched(body) =>
        var hours := ParseCsv(body);
        if |hours| == 0 {
          ShowError(container, HoursNotFound, HoursContact);
          return;
        }
        RenderHours(container, hours);
      case NotOk =>
        logged := true;
        ShowError(container, HoursLoadError, HoursContact);
      case Threw =>
        logged := true;
        ShowError(container, HoursLoadError, HoursContact);
    }
  }
}
