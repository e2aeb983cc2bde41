/**
 * The search page: the list of cities offered in the From/To pickers, the
 * search guard, and the "View Buses" buttons of the popular routes.
 */
module SearchPage {
  import opened Wrappers

  datatype Route = Route(source: string, destination: string)

  /** A journey date; the page only ever tests whether one was picked. */
  datatype Date = Date(epochMillis: int)

  const Routes: seq<Route> := [
    Route("Bangalore", "Bhatkal"),
    Route("Bangalore", "Mantralaya"),
    Route("Bangalore", "Goa"),
    Route("Chikkamagaluru", "Bangalore"),
    Route("Hassan", "Bhatkal")
  ]

  // ---------------------------------------------------------------- string order

  /**
   * The order the default array sort uses: lexicographic by character, a
   * proper prefix coming first.
   */
  predicate Less(a: string, b: string)
  {
    if a == [] then b != []
    else if b == [] then false
    else a[0] < b[0] || (a[0] == b[0] && Less(a[1..], b[1..]))
  }

  lemma {:induction false} LessIrreflexive(a: string)
    ensures !Less(a, a)
  {
    if a != [] {
      LessIrreflexive(a[1..]);
    }
  }

  lemma {:induction false} LessTransitive(a: string, b: string, c: string)
    requires Less(a, b) && Less(b, c)
    ensures Less(a, c)
  {
    if a != [] && a[0] == b[0] && b[0] == c[0] {
      LessTransitive(a[1..], b[1..], c[1..]);
    }
  }

  lemma {:induction false} LessTotal(a: string, b: string)
    requires a != b
    ensures Less(a, b) || Less(b, a)
  {
    if a != [] && b != [] && a[0] == b[0] {
      assert a == [a[0]] + a[1..] && b == [b[0]] + b[1..];
      LessTotal(a[1..], b[1..]);
    }
  }

  // ---------------------------------------------------------------- locations

  /** Every route's source followed by its destination, route by route. */
  function Endpoints(routes: seq<Route>): (r: seq<string>)
    ensures forall x :: x in r <==> exists i :: 0 <= i < |routes| && (routes[i].source == x || routes[i].destination == x)
  {
    if routes == [] then []
    else
      var rest := Endpoints(routes[1..]);
      assert forall i :: 1 <= i < |routes| ==> routes[i] == routes[1..][i - 1];
      [routes[0].source, routes[0].destination] + rest
  }

  predicate NoDuplicates(xs: seq<string>)
  {
    forall i, j :: 0 <= i < j < |xs| ==> xs[i] != xs[j]
  }

  /**
   * The values of `xs`, each once, kept in first-occurrence order as a `Set`
   * built from `xs` iterates them. Only the elements are stated: `Sort` is
   * applied next, and `StrictlySortedUnique` shows its result does not
   * depend on the order it receives.
   */
  function Dedup(xs: seq<string>): (r: seq<string>)
    ensures NoDuplicates(r)
    ensures forall x :: x in r <==> x in xs
  {
    if xs == [] then []
    else
      var rest := Dedup(xs[..|xs| - 1]);
      var last := xs[|xs| - 1];
      assert forall x :: x in xs <==> x in xs[..|xs| - 1] || x == last by {
        assert xs == xs[..|xs| - 1] + [last];
      }
      if last in rest then rest else rest + [last]
  }

  predicate StrictlySorted(xs: seq<string>)
  {
    forall i, j :: 0 <= i < j < |xs| ==> Less(xs[i], xs[j])
  }

  function Insert(x: string, xs: seq<string>): (r: seq<string>)
    ensures multiset(r) == multiset(xs) + multiset{x}
  {
    if xs == [] then [x]
    else if x == xs[0] || Less(x, xs[0]) then [x] + xs
    else
      assert xs == [xs[0]] + xs[1..];
      [xs[0]] + Insert(x, xs[1..])
  }

  /** Sorting in the string order above (an insertion sort). */
  function Sort(xs: seq<string>): (r: seq<string>)
    ensures multiset(r) == multiset(xs)
  {
    if xs == [] then []
    else
      assert xs == [xs[0]] + xs[1..];
      Insert(xs[0], Sort(xs[1..]))
  }

  /** Inserting a new value into a strictly sorted list keeps it strictly sorted. */
  lemma {:induction false} InsertStrictlySorted(x: string, xs: seq<string>)
    requires StrictlySorted(xs) && x !in xs
    ensures StrictlySorted(Insert(x, xs))
  {
    if xs == [] {
    } else if Less(x, xs[0]) {
      var r := Insert(x, xs);
      forall i, j | 0 <= i < j < |r|
        ensures Less(r[i], r[j])
      {
        if i == 0 && j > 1 {
          LessTransitive(x, xs[0], xs[j - 1]);
        }
      }
    } else {
      LessTotal(x, xs[0]);
      InsertStrictlySorted(x, xs[1..]);
      var tail := Insert(x, xs[1..]);
      var r := [xs[0]] + tail;
      forall j | 0 <= j < |tail|
        ensures Less(xs[0], tail[j])
      {
        assert tail[j] in multiset(tail);
        if tail[j] != x {
          assert tail[j] in xs[1..];
        }
      }
      forall i, j | 0 <= i < j < |r|
        ensures Less(r[i], r[j])
      {
        if i > 0 {
          assert r[i] == tail[i - 1] && r[j] == tail[j - 1];
        }
      }
    }
  }

  /** Sorting a list without duplicates gives a strictly ascending list. */
  lemma {:induction false} SortStrictlySorted(xs: seq<string>)
    requires NoDuplicates(xs)
    ensures StrictlySorted(Sort(xs))
  {
    if xs != [] {
      SortStrictlySorted(xs[1..]);
      assert xs[0] !in xs[1..];
      assert xs[0] !in multiset(Sort(xs[1..]));
      InsertStrictlySorted(xs[0], Sort(xs[1..]));
    }
  }

  /** The cities offered in the From and To pickers. */
  function Locations(routes: seq<Route>): seq<string>
  {
    Sort(Dedup(Endpoints(routes)))
  }

  /**
   * The locations are exactly the routes' endpoints, each listed once, in
   * ascending order.
   */
  lemma LocationsCharacterised(routes: seq<Route>)
    ensures forall i :: 0 <= i < |routes| ==>
      routes[i].source in Locations(routes) && routes[i].destination in Locations(routes)
    ensures forall x :: x in Locations(routes) ==>
      exists i :: 0 <= i < |routes| && (routes[i].source == x || routes[i].destination == x)
    ensures StrictlySorted(Locations(routes))
    ensures NoDuplicates(Locations(routes))
  {
    var ends := Endpoints(routes);
    var unique := Dedup(ends);
    var locations := Sort(unique);
    forall x
      ensures x in locations <==> x in ends
    {
      assert x in locations <==> x in multiset(unique);
    }
    SortStrictlySorted(unique);
    forall i, j | 0 <= i < j < |locations|
      ensures locations[i] != locations[j]
    {
      LessIrreflexive(locations[i]);
    }
  }

  /** A strictly ascending list is determined by its elements. */
  lemma {:induction false} StrictlySortedUnique(a: seq<string>, b: seq<string>)
    requires StrictlySorted(a) && StrictlySorted(b)
    requires forall x :: x in a <==> x in b
    ensures a == b
    decreases |a|
  {
    if a != [] {
      assert a[0] in b;
    }
    if b != [] {
      assert b[0] in a;
    }
    if a != [] && b != [] {
      if a[0] != b[0] {
        assert b[0] in a && a[0] in b;
        var i :| 0 <= i < |a| && a[i] == b[0];
        var j :| 0 <= j < |b| && b[j] == a[0];
        LessTransitive(a[0], b[0], a[0]);
        LessIrreflexive(a[0]);
      }
      forall x
        ensures x in a[1..] <==> x in b[1..]
      {
        if x in a[1..] {
          var i :| 1 <= i < |a| && a[i] == x;
          LessIrreflexive(x);
          assert x in b;
          var j :| 0 <= j < |b| && b[j] == x;
          assert j != 0;
        }
        if x in b[1..] {
          var j :| 1 <= j < |b| && b[j] == x;
          LessIrreflexive(x);
          assert x in a;
          var i :| 0 <= i < |a| && a[i] == x;
          assert i != 0;
        }
      }
      StrictlySortedUnique(a[1..], b[1..]);
      assert a == [a[0]] + a[1..] && b == [b[0]] + b[1..];
    }
  }

  const CatalogueCities: seq<string> :=
    ["Bangalore", "Bhatkal", "Chikkamagaluru", "Goa", "Hassan", "Mantralaya"]

  lemma CatalogueCitiesSorted()
    ensures StrictlySorted(CatalogueCities)
  {
  }

  lemma CatalogueEndpoints()
    ensures forall x :: x in Endpoints(Routes) <==> x in CatalogueCities
  {
  }

  /** The five popular routes offer six cities, in this order. */
  lemma CatalogueLocations()
    ensures Locations(Routes) == CatalogueCities
  {
    CatalogueCitiesSorted();
    CatalogueEndpoints();
    LocationsCharacterised(Routes);
    StrictlySortedUnique(Locations(Routes), CatalogueCities);
  }

  // ---------------------------------------------------------------- form state

  /** The search form's state. */
  datatype Form = Form(source: string, destination: string, date: Option<Date>, searchClicked: bool)

  /** The user actions that change the form. */
  datatype Action =
    | SelectSource(city: string)
    | SelectDestination(city: string)
    | SelectDate(picked: Option<Date>)
    | Search
    | ViewBuses(route: Route)

  const InitialForm: Form := Form("", "", None, false)

  /** The search guard: both cities chosen (non-empty) and a date picked. */
  predicate ReadyToSearch(f: Form)
  {
    f.source != "" && f.destination != "" && f.date.Some?
  }

  /** The form after one action. */
  function Step(f: Form, a: Action): (r: Form)
    ensures f.searchClicked ==> r.searchClicked
    ensures r.searchClicked != f.searchClicked <==> a.Search? && ReadyToSearch(f) && !f.searchClicked
    ensures a.Search? ==> r.source == f.source && r.destination == f.destination && r.date == f.date
    ensures a.ViewBuses? ==> r == f.(source := a.route.source, destination := a.route.destination)
  {
    match a
    case SelectSource(city) => f.(source := city)
    case SelectDestination(city) => f.(destination := city)
    case SelectDate(picked) => f.(date := picked)
    case Search => if ReadyToSearch(f) then f.(searchClicked := true) else f
    case ViewBuses(route) => f.(source := route.source, destination := route.destination)
  }

  /** The form after a sequence of actions. */
  function Run(f: Form, actions: seq<Action>): Form
    decreases |actions|
  {
    if actions == [] then f else Run(Step(f, actions[0]), actions[1..])
  }

  /**
   * Once `searchClicked` is set it stays set, whatever the user does next.
   * This is about the flag alone: the date may be deselected afterwards.
   */
  lemma {:induction false} SearchClickedStays(f: Form, actions: seq<Action>)
    requires f.searchClicked
    ensures Run(f, actions).searchClicked
    decreases |actions|
  {
    if actions != [] {
      SearchClickedStays(Step(f, actions[0]), actions[1..]);
    }
  }

  /**
   * The bus listing is only ever shown after a search issued while both
   * cities and a date were present.
   */
  lemma {:induction false} SearchClickedNeedsReadySearch(f: Form, actions: seq<Action>)
    requires !f.searchClicked && Run(f, actions).searchClicked
    ensures exists i :: 0 <= i < |actions| && actions[i].Search? && ReadyToSearch(Run(f, actions[..i]))
    decreases |actions|
  {
    var next := Step(f, actions[0]);
    if next.searchClicked {
      assert actions[..0] == [];
      assert actions[0].Search? && ReadyToSearch(Run(f, actions[..0]));
    } else {
      SearchClickedNeedsReadySearch(next, actions[1..]);
      var i :| 0 <= i < |actions[1..]| && actions[1..][i].Search? && ReadyToSearch(Run(next, actions[1..][..i]));
      assert actions[..i + 1] == [actions[0]] + actions[1..][..i];
      assert actions[..i + 1][1..] == actions[1..][..i];
      assert actions[i + 1].Search? && ReadyToSearch(Run(f, actions[..i + 1]));
    }
  }

  /** The page component, with its four pieces of state. */
  class Page {
    const routes: seq<Route>
    var source: string
    var destination: string
    var date: Option<Date>
    var searchClicked: bool

    function State(): Form
      reads this
    {
      Form(source, destination, date, searchClicked)
    }

    constructor ()
      ensures routes == Routes && State() == InitialForm
    {
      routes := Routes;
      source, destination, date, searchClicked := "", "", None, false;
    }

    method SetSource(city: string)
      modifies this
      ensures State() == Step(old(State()), SelectSource(city))
    {
      source := city;
    }

    method SetDestination(city: string)
      modifies this
      ensures State() == Step(old(State()), SelectDestination(city))
    {
      destination := city;
    }

    method SetDate(picked: Option<Date>)
      modifies this
      ensures State() == Step(old(State()), SelectDate(picked))
    {
      date := picked;
    }

    method HandleSearch()
      modifies this
      ensures State() == Step(old(State()), Search)
    {
      if source != "" && destination != "" && date.Some? {
        searchClicked := true;
      }
    }

    /** The "View Buses" button of popular route `k`. */
    method ViewBusesClicked(k: nat)
      requires k < |routes|
      modifies this
      ensures State() == Step(old(State()), ViewBuses(routes[k]))
    {
      source := routes[k].source;
      destination := routes[k].destination;
    }
  }
}
