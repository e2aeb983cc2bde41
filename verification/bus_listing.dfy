/**
 * The bus listing: the mock catalogue of buses, which bus (if any) has its
 * seat picker open, and what happens when the picker asks to book.
 */
module BusListing {
  import opened Wrappers
  import SeatSelection

  /** One bus of the listing. Ratings and the displayed seat counts are not modelled. */
  datatype Bus = Bus(
    id: string,
    name: string,
    busType: string,
    departureTime: string,
    arrivalTime: string,
    duration: string,
    price: int,
    amenities: seq<string>)

  /** The result of a booking request: a confirmation (naming the open bus, if found) or an error. */
  datatype BookOutcome =
    | Confirmed(seatCount: int, busName: Option<string>, totalAmount: int)
    | Rejected

  const Buses: seq<Bus> := [
    Bus("bus1", "Karnataka State Express", "AC Sleeper", "21:00", "06:00", "9h", 950,
        ["Charging Point", "Blankets", "Water Bottle", "Reading Light"]),
    Bus("bus2", "Seabird Tourists", "Non-AC Sleeper", "20:30", "05:30", "9h", 750,
        ["Water Bottle", "Reading Light"]),
    Bus("bus3", "VRL Travels", "AC Seater", "22:15", "06:45", "8h 30m", 850,
        ["Charging Point", "WiFi", "Water Bottle", "Snacks"]),
    Bus("bus4", "SRS Travels", "Volvo AC Sleeper", "23:00", "07:30", "8h 30m", 1050,
        ["Charging Point", "Blankets", "Water Bottle", "Reading Light", "WiFi"])
  ]

  predicate IdsDistinct(buses: seq<Bus>)
  {
    forall i, j :: 0 <= i < j < |buses| ==> buses[i].id != buses[j].id
  }

  lemma CatalogIdsDistinct()
    ensures IdsDistinct(Buses)
    ensures |Buses| == 4
  {
  }

  /** `buses[i]` is the first bus with id `busId`. */
  predicate IsFirstMatch(buses: seq<Bus>, busId: string, i: int)
  {
    0 <= i < |buses| && buses[i].id == busId && forall j :: 0 <= j < i ==> buses[j].id != busId
  }

  /** The first bus whose id is the selected one; nothing when no bus is selected or none matches. */
  function FindBus(buses: seq<Bus>, selected: Option<string>): (r: Option<Bus>)
    ensures r.Some? <==> selected.Some? && exists i :: 0 <= i < |buses| && buses[i].id == selected.value
    ensures r.Some? ==> r.value.id == selected.value
    ensures r.Some? ==> exists i :: IsFirstMatch(buses, selected.value, i) && buses[i] == r.value
  {
    if selected.None? || buses == [] then None
    else if buses[0].id == selected.value then Some(buses[0])
    else
      var rest := FindBus(buses[1..], selected);
      if rest.Some? then
        ghost var i :| IsFirstMatch(buses[1..], selected.value, i) && buses[1..][i] == rest.value;
        assert IsFirstMatch(buses, selected.value, i + 1);
        rest
      else
        assert forall i :: 1 <= i < |buses| ==> buses[i] == buses[1..][i - 1];
        rest
  }

  /** With distinct ids, looking up a catalogue bus by its id finds exactly that bus. */
  lemma FindBusById(buses: seq<Bus>, k: nat)
    requires IdsDistinct(buses) && k < |buses|
    ensures FindBus(buses, Some(buses[k].id)) == Some(buses[k])
  {
  }

  /** The selection after clicking "View Seats"/"Hide Seats" on bus `busId`. */
  function ToggledSelection(selected: Option<string>, busId: string): (r: Option<string>)
    ensures r.None? <==> selected == Some(busId)
    ensures r.Some? ==> r.value == busId
  {
    if selected == Some(busId) then None else Some(busId)
  }

  /** Two clicks on the same bus from a state where it was not open close it again. */
  lemma ToggleTwiceCloses(selected: Option<string>, busId: string)
    requires selected != Some(busId)
    ensures ToggledSelection(ToggledSelection(selected, busId), busId) == None
  {
  }

  /**
   * The outcome of a booking request and the selection after it: a positive
   * seat count confirms and closes the picker, anything else is an error
   * and keeps the selection.
   */
  function BookOutcomeOf(buses: seq<Bus>, selected: Option<string>, seatCount: int, totalAmount: int)
    : (r: (BookOutcome, Option<string>))
    ensures r.0.Confirmed? <==> seatCount > 0
    ensures r.0.Confirmed? ==> r.1.None? && r.0.seatCount == seatCount && r.0.totalAmount == totalAmount
    ensures r.0.Confirmed? ==> (r.0.busName.Some? <==> FindBus(buses, selected).Some?)
    ensures r.0.Confirmed? && FindBus(buses, selected).Some? ==> r.0.busName == Some(FindBus(buses, selected).value.name)
    ensures r.0.Rejected? ==> r.1 == selected
  {
    var details := FindBus(buses, selected);
    if seatCount > 0 then
      (Confirmed(seatCount, if details.Some? then Some(details.value.name) else None, totalAmount), None)
    else
      (Rejected, selected)
  }

  /**
   * A booking that the seat picker of an open catalogue bus lets through is
   * always confirmed, names that bus, and closes the picker.
   */
  lemma PickerBookingConfirms(k: nat, seats: seq<SeatSelection.Seat>)
    requires k < |Buses|
    requires SeatSelection.BookNow(seats).Some?
    ensures var b := SeatSelection.BookNow(seats).value;
      BookOutcomeOf(Buses, Some(Buses[k].id), b.seatCount, b.amount)
        == (Confirmed(b.seatCount, Some(Buses[k].name), b.amount), None)
  {
  }

  /** The listing component: its only state is the id of the bus whose seats are shown. */
  class Listing {
    const buses: seq<Bus>
    var selectedBus: Option<string>

    constructor ()
      ensures buses == Buses && selectedBus.None?
    {
      buses := Buses;
      selectedBus := None;
    }

    method ToggleBusSelection(busId: string)
      modifies this
      ensures selectedBus == ToggledSelection(old(selectedBus), busId)
    {
      if selectedBus == Some(busId) {
        selectedBus := None;
      } else {
        selectedBus := Some(busId);
      }
    }

    method HandleBookNow(seatCount: int, totalAmount: int) returns (outcome: BookOutcome)
      modifies this
      ensures (outcome, selectedBus) == BookOutcomeOf(buses, old(selectedBus), seatCount, totalAmount)
    {
      var details := FindBus(buses, selectedBus);
      if seatCount > 0 {
        outcome := Confirmed(seatCount, if details.Some? then Some(details.value.name) else None, totalAmount);
        selectedBus := None;
      } else {
        outcome := Rejected;
      }
    }
  }
}
