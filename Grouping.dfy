/**
 * `groupByCategory`: the services are partitioned by their `Kategori` field,
 * with the groups in the order their category first appears and each group's
 * services in their original order.
 */
module Grouping {
  import opened Csv

  /** The column that names a service's category. */
  const CategoryField: string := "Kategori"

  /** The category of a service whose `Kategori` is absent or empty. */
  const FallbackCategory: string := "Övriga tjänster"

  /** `service['Kategori'] || 'Övriga tjänster'`. */
  function Category(service: Record): string {
    if CategoryField in service && service[CategoryField] != "" then service[CategoryField] else FallbackCategory
  }

  /**
   * A service's category is its own `Kategori` when that is non-empty and the
   * fallback otherwise, so it is never empty.
   */
  lemma CategoryChoice(service: Record)
    ensures Category(service) != ""
    ensures CategoryField in service && service[CategoryField] != "" ==> Category(service) == service[CategoryField]
    ensures (CategoryField !in service || service[CategoryField] == "") ==> Category(service) == FallbackCategory
  {
  }

  /** One entry of the insertion-ordered map: a category and its services. */
  datatype Group = Group(category: string, services: seq<Record>)

  /** The categories of the groups, in order. */
  function Keys(groups: seq<Group>): seq<string> {
    seq(|groups|, i requires 0 <= i < |groups| => groups[i].category)
  }

  /** The number of services held by all groups together. */
  function TotalSize(groups: seq<Group>): nat {
    if groups == [] then 0 else |groups[0].services| + TotalSize(groups[1..])
  }

  /**
   * One step of the grouping loop: append `service` to the group of `category`
   * if there is one, otherwise add a new group at the end.
   */
  function AddTo(groups: seq<Group>, category: string, service: Record): (r: seq<Group>)
    ensures |groups| <= |r| <= |groups| + 1
  {
    if groups == [] then [Group(category, [service])]
    else if groups[0].category == category then [Group(category, groups[0].services + [service])] + groups[1..]
    else [groups[0]] + AddTo(groups[1..], category, service)
  }

  /**
   * The grouping, as the services are visited from first to last: at most one
   * group per service, and no group only when there is no service.
   */
  function Groups(services: seq<Record>): (groups: seq<Group>)
    ensures |groups| <= |services|
    ensures groups == [] <==> services == []
  {
    if services == [] then []
    else
      var n := |services| - 1;
      AddTo(Groups(services[..n]), Category(services[n]), services[n])
  }

  // ---------------------------------------------------------------------------
  // An independent description of the same result: the distinct categories in
  // order of first appearance, each with the services of that category.

  /** The category of every service, in order. */
  function Categories(services: seq<Record>): seq<string> {
    seq(|services|, i requires 0 <= i < |services| => Category(services[i]))
  }

  /** The distinct elements of `xs`, in order of first appearance. */
  function Distinct(xs: seq<string>): seq<string> {
    if xs == [] then []
    else
      var d := Distinct(xs[..|xs| - 1]);
      if xs[|xs| - 1] in d then d else d + [xs[|xs| - 1]]
  }

  /** The services of one category, in their original order. */
  function InCategory(services: seq<Record>, category: string): seq<Record> {
    if services == [] then []
    else
      var n := |services| - 1;
      InCategory(services[..n], category) + (if Category(services[n]) == category then [services[n]] else [])
  }

  /** The position of the first occurrence of `x` in `xs`. */
  function FirstIndex(xs: seq<string>, x: string): (i: nat)
    requires x in xs
    ensures i < |xs| && xs[i] == x && x !in xs[..i]
  {
    if xs[0] == x then 0 else 1 + FirstIndex(xs[1..], x)
  }

  lemma {:induction false} DistinctMembers(xs: seq<string>)
    ensures forall x :: x in Distinct(xs) <==> x in xs
  {
    if xs != [] {
      var n := |xs| - 1;
      DistinctMembers(xs[..n]);
      assert xs == xs[..n] + [xs[n]];
    }
  }

  lemma {:induction false} DistinctNoRepeats(xs: seq<string>)
    ensures forall i, j :: 0 <= i < j < |Distinct(xs)| ==> Distinct(xs)[i] != Distinct(xs)[j]
  {
    if xs != [] {
      DistinctNoRepeats(xs[..|xs| - 1]);
    }
  }

  /** A position holding `x` with no `x` before it is the first index of `x`. */
  lemma {:induction false} FirstIndexAt(xs: seq<string>, x: string, k: nat)
    requires k < |xs| && xs[k] == x && x !in xs[..k]
    ensures FirstIndex(xs, x) == k
  {
    if k > 0 {
      assert xs[0] == xs[..k][0];
      assert xs[1..][..k - 1] == xs[..k][1..];
      FirstIndexAt(xs[1..], x, k - 1);
    }
  }

  lemma FirstIndexOfPrefix(p: seq<string>, x: string, y: string)
    requires y in p
    ensures FirstIndex(p + [x], y) == FirstIndex(p, y)
  {
    var i := FirstIndex(p, y);
    assert (p + [x])[..i] == p[..i];
    FirstIndexAt(p + [x], y, i);
  }

  /** The distinct elements are listed in the order of their first occurrences. */
  lemma {:induction false} DistinctFirstAppearance(xs: seq<string>, i: nat, j: nat)
    requires i < j < |Distinct(xs)|
    ensures Distinct(xs)[i] in xs && Distinct(xs)[j] in xs
    ensures FirstIndex(xs, Distinct(xs)[i]) < FirstIndex(xs, Distinct(xs)[j])
  {
    DistinctMembers(xs);
    var n := |xs| - 1;
    var p, x := xs[..n], xs[n];
    var d := Distinct(p);
    assert xs == p + [x];
    DistinctMembers(p);
    if j < |d| {
      DistinctFirstAppearance(p, i, j);
      FirstIndexOfPrefix(p, x, d[i]);
      FirstIndexOfPrefix(p, x, d[j]);
    } else {
      FirstIndexAt(xs, x, n);
      FirstIndexOfPrefix(p, x, d[i]);
    }
  }

  lemma {:induction false} InCategoryAbsent(services: seq<Record>, category: string)
    requires category !in Categories(services)
    ensures InCategory(services, category) == []
  {
    if services != [] {
      var n := |services| - 1;
      assert Categories(services[..n]) == Categories(services)[..n];
      InCategoryAbsent(services[..n], category);
      assert Categories(services)[n] == Category(services[n]);
    }
  }

  /** Adding to the group that has the category updates that group only. */
  lemma {:induction false} AddToExisting(groups: seq<Group>, category: string, service: Record, j: nat)
    requires j < |groups| && groups[j].category == category
    requires forall i :: 0 <= i < j ==> groups[i].category != category
    ensures AddTo(groups, category, service) == groups[j := Group(category, groups[j].services + [service])]
  {
    if j > 0 {
      AddToExisting(groups[1..], category, service, j - 1);
    }
  }

  /** Adding a category no group has appends a new group. */
  lemma {:induction false} AddToNew(groups: seq<Group>, category: string, service: Record)
    requires forall i :: 0 <= i < |groups| ==> groups[i].category != category
    ensures AddTo(groups, category, service) == groups + [Group(category, [service])]
  {
    if groups != [] {
      AddToNew(groups[1..], category, service);
    }
  }

  lemma {:induction false} AddToSize(groups: seq<Group>, category: string, service: Record)
    ensures TotalSize(AddTo(groups, category, service)) == TotalSize(groups) + 1
  {
    if groups != [] && groups[0].category != category {
      AddToSize(groups[1..], category, service);
      assert ([groups[0]] + AddTo(groups[1..], category, service))[1..] == AddTo(groups[1..], category, service);
    } else if groups != [] {
      assert ([Group(category, groups[0].services + [service])] + groups[1..])[1..] == groups[1..];
    }
  }

  /** One more service: the distinct categories grow only by a first appearance. */
  lemma DistinctSnoc(services: seq<Record>)
    requires services != []
    ensures var n := |services| - 1;
      var d := Distinct(Categories(services[..n]));
      Distinct(Categories(services)) == if Category(services[n]) in d then d else d + [Category(services[n])]
  {
    var n := |services| - 1;
    assert Categories(services)[..n] == Categories(services[..n]);
  }

  /** `groups` pairs each category of `d`, in order, with exactly the services of that category. */
  ghost predicate GroupedBy(groups: seq<Group>, services: seq<Record>, d: seq<string>) {
    && |groups| == |d|
    && forall i :: 0 <= i < |groups| ==> groups[i] == Group(d[i], InCategory(services, d[i]))
  }

  /**
   * The grouping is the distinct categories in first-appearance order, each
   * paired with exactly the services of that category in their original order.
   */
  lemma GroupsByDistinctCategories(services: seq<Record>)
    ensures |Groups(services)| == |Distinct(Categories(services))|
    ensures forall i :: 0 <= i < |Groups(services)| ==>
              Groups(services)[i] == Group(Distinct(Categories(services))[i],
                                           InCategory(services, Distinct(Categories(services))[i]))
  {
    GroupsGrouped(services);
  }

  lemma {:induction false} GroupsGrouped(services: seq<Record>)
    ensures GroupedBy(Groups(services), services, Distinct(Categories(services)))
  {
    if services != [] {
      var n := |services| - 1;
      var p, s := services[..n], services[n];
      GroupsGrouped(p);
      DistinctSnoc(services);
      assert services == p + [s];
      if Category(s) in Distinct(Categories(p)) {
        GroupsStepExisting(p, s);
      } else {
        GroupsStepNew(p, s);
      }
    }
  }

  lemma GroupsStepExisting(p: seq<Record>, s: Record)
    requires GroupedBy(Groups(p), p, Distinct(Categories(p)))
    requires Category(s) in Distinct(Categories(p))
    ensures GroupedBy(AddTo(Groups(p), Category(s), s), p + [s], Distinct(Categories(p)))
  {
    var c, g, d := Category(s), Groups(p), Distinct(Categories(p));
    DistinctNoRepeats(Categories(p));
    var j :| 0 <= j < |d| && d[j] == c;
    AddToExisting(g, c, s, j);
    assert (p + [s])[..|p|] == p;
  }

  lemma GroupsStepNew(p: seq<Record>, s: Record)
    requires GroupedBy(Groups(p), p, Distinct(Categories(p)))
    requires Category(s) !in Distinct(Categories(p))
    ensures GroupedBy(AddTo(Groups(p), Category(s), s), p + [s], Distinct(Categories(p)) + [Category(s)])
  {
    var c, g := Category(s), Groups(p);
    AddToNew(g, c, s);
    DistinctMembers(Categories(p));
    InCategoryAbsent(p, c);
    assert (p + [s])[..|p|] == p;
  }

  /** The categories of the groups are the distinct categories, in first-appearance order. */
  lemma GroupKeys(services: seq<Record>)
    ensures Keys(Groups(services)) == Distinct(Categories(services))
  {
    GroupsByDistinctCategories(services);
  }

  /** The groups hold the services, each counted once. */
  lemma {:induction false} GroupsSize(services: seq<Record>)
    ensures TotalSize(Groups(services)) == |services|
  {
    if services != [] {
      var n := |services| - 1;
      GroupsSize(services[..n]);
      AddToSize(Groups(services[..n]), Category(services[n]), services[n]);
    }
  }

  lemma {:induction false} InCategoryMembers(services: seq<Record>, category: string)
    ensures forall s :: s in InCategory(services, category) ==> Category(s) == category
    ensures forall i :: 0 <= i < |services| && Category(services[i]) == category ==>
              services[i] in InCategory(services, category)
  {
    if services != [] {
      InCategoryMembers(services[..|services| - 1], category);
    }
  }

  /** No category has two groups. */
  lemma GroupsDistinctCategories(services: seq<Record>)
    ensures forall i, j :: 0 <= i < j < |Groups(services)| ==>
              Groups(services)[i].category != Groups(services)[j].category
  {
    GroupsByDistinctCategories(services);
    DistinctNoRepeats(Categories(services));
  }

  /** Groups come in the order in which their categories first appear among the services. */
  lemma GroupsFirstAppearanceOrder(services: seq<Record>, i: nat, j: nat)
    requires i < j < |Groups(services)|
    ensures Groups(services)[i].category in Categories(services)
    ensures Groups(services)[j].category in Categories(services)
    ensures FirstIndex(Categories(services), Groups(services)[i].category)
              < FirstIndex(Categories(services), Groups(services)[j].category)
  {
    GroupsByDistinctCategories(services);
    DistinctFirstAppearance(Categories(services), i, j);
  }

  /** Every group is non-empty and holds only services of its own category. */
  lemma GroupsHomogeneous(services: seq<Record>, i: nat)
    requires i < |Groups(services)|
    ensures Groups(services)[i].services != []
    ensures forall s :: s in Groups(services)[i].services ==> Category(s) == Groups(services)[i].category
  {
    var g, cs := Groups(services), Categories(services);
    GroupsByDistinctCategories(services);
    DistinctMembers(cs);
    InCategoryMembers(services, g[i].category);
    var k := FirstIndex(cs, g[i].category);
    assert Category(services[k]) == cs[k];
  }

  /** Every service is in the group of its category. */
  lemma GroupsCover(services: seq<Record>, k: nat)
    requires k < |services|
    ensures exists i :: 0 <= i < |Groups(services)| && Groups(services)[i].category == Category(services[k])
                                                    && services[k] in Groups(services)[i].services
  {
    var g, cs := Groups(services), Categories(services);
    GroupsByDistinctCategories(services);
    DistinctMembers(cs);
    assert cs[k] == Category(services[k]) && cs[k] in cs;
    assert cs[k] in Distinct(cs);
    var i :| 0 <= i < |g| && Distinct(cs)[i] == cs[k];
    InCategoryMembers(services, cs[k]);
    assert g[i].category == Category(services[k]) && services[k] in g[i].services;
  }

  /** `index` maps each group's category to its position: the lookup `groupByCategory`'s `Map` provides. */
  ghost predicate Indexed(groups: seq<Group>, index: map<string, nat>) {
    && (forall j :: 0 <= j < |groups| ==> groups[j].category in index && index[groups[j].category] == j)
    && (forall c :: c in index ==> index[c] < |groups| && groups[index[c]].category == c)
  }

  lemma IndexedAppend(groups: seq<Group>, index: map<string, nat>, g: Group)
    requires Indexed(groups, index) && g.category !in index
    ensures Indexed(groups + [g], index[g.category := |groups|])
  {
  }

  /** With an index at hand, `AddTo` either appends a new group or extends the indexed one. */
  lemma IndexedAddTo(groups: seq<Group>, index: map<string, nat>, category: string, service: Record)
    requires Indexed(groups, index)
    ensures category !in index ==> AddTo(groups, category, service) == groups + [Group(category, [service])]
    ensures category in index ==>
      AddTo(groups, category, service) == groups[index[category] := Group(category, groups[index[category]].services + [service])]
  {
    if category in index {
      AddToExisting(groups, category, service, index[category]);
    } else {
      AddToNew(groups, category, service);
    }
  }

  /** Creating an empty group and then pushing onto it is appending a one-service group. */
  lemma PushOntoNew(groups: seq<Group>, category: string, service: Record)
    ensures (groups + [Group(category, [])])[|groups| := Group(category, [] + [service])] == groups + [Group(category, [service])]
  {
    assert [] + [service] == [service];
  }

  /** One more service is one more `AddTo`. */
  lemma GroupsSnoc(services: seq<Record>, i: nat)
    requires i < |services|
    ensures Groups(services[..i + 1]) == AddTo(Groups(services[..i]), Category(services[i]), services[i])
  {
    assert services[..i + 1][..i] == services[..i];
  }

  lemma IndexedUpdate(groups: seq<Group>, index: map<string, nat>, j: nat, g: Group)
    requires Indexed(groups, index) && j < |groups| && g.category == groups[j].category
    ensures Indexed(groups[j := g], index)
  {
  }

  /**
   * `groupByCategory(services)`: a loop over the services that fills an
   * insertion-ordered map, looking each category up in `index` (the map's
   * `has`/`get`), adding an empty group for a new category (`set`) and then
   * appending the service to its group (`push`).
   */
  method GroupByCategory(services: seq<Record>) returns (groups: seq<Group>)
    ensures groups == Groups(services)
  {
    groups := [];
    var index: map<string, nat> := map[];
    var i := 0;
    while i < |services|
      invariant 0 <= i <= |services|
      invariant groups == Groups(services[..i])
      invariant Indexed(groups, index)
    {
      var service := services[i];
      var category := Category(service);
      IndexedAddTo(groups, index, category, service);
      GroupsSnoc(services, i);
      if category !in index {
        PushOntoNew(groups, category, service);
        IndexedAppend(groups, index, Group(category, []));
        index := index[category := |groups|];
        groups := groups + [Group(category, [])];
      }
      var j := index[category];
      IndexedUpdate(groups, index, j, Group(category, groups[j].services + [service]));
      groups := groups[j := Group(category, groups[j].services + [service])];
      i := i + 1;
    }
    assert services[..i] == services;
  }
}
