/**
 * The seat picker of one bus: the fixed 5-row seat map, selection toggling,
 * the fare basket (selected seats and their total) and the booking request
 * it hands to the bus listing.
 */
module SeatSelection {
  import opened Wrappers

  /** How a seat is classed; only window seats cost more. */
  datatype SeatType = Window | Middle | Aisle

  /** One seat of the map. `number` is the row letter followed by the position digit. */
  datatype Seat = Seat(
    id: string,
    number: string,
    isAvailable: bool,
    isSelected: bool,
    price: int,
    seatType: SeatType)

  /** What the "Book" button reports to the bus listing. */
  datatype Booking = Booking(seatCount: nat, amount: int)

  const Rows: seq<char> := ['A', 'B', 'C', 'D', 'E']
  /** The positions generated in each row: position 3 is the gangway and is skipped. */
  const Positions: seq<nat> := [1, 2, 4, 5, 6]
  const SeatsPerRow: nat := 5
  const SeatCount: nat := 25
  const WindowSurcharge: int := 50
  const ServiceFee: int := 25

  function TypeOf(position: nat): SeatType
  {
    if position == 1 || position == 6 then Window
    else if position == 2 || position == 5 then Middle
    else Aisle
  }

  function PriceOf(basePrice: int, t: SeatType): int
  {
    if t == Window then basePrice + WindowSurcharge else basePrice
  }

  function Digit(d: nat): char
    requires d <= 9
  {
    ('0' as int + d) as char
  }

  function SeatId(busId: string, number: string): string
  {
    busId + "-" + number
  }

  function MakeSeat(busId: string, basePrice: int, row: char, position: nat, available: bool): Seat
    requires position <= 9
  {
    var number := [row, Digit(position)];
    var t := TypeOf(position);
    Seat(SeatId(busId, number), number, available, false, PriceOf(basePrice, t), t)
  }

  /**
   * The seat map, in the order the generator pushes it: row by row, and
   * within a row by position. `availability[k]` is the availability drawn
   * for the k-th seat generated.
   */
  function Layout(busId: string, basePrice: int, availability: seq<bool>): (seats: seq<Seat>)
    requires |availability| == SeatCount
    ensures |seats| == SeatCount
    ensures forall k :: 0 <= k < SeatCount ==>
      && seats[k].number == [Rows[k / SeatsPerRow], Digit(Positions[k % SeatsPerRow])]
      && seats[k].number[1] != '3'
      && seats[k].id == busId + "-" + seats[k].number
      && seats[k].isAvailable == availability[k]
      && !seats[k].isSelected
    ensures forall k :: 0 <= k < SeatCount ==>
      && (seats[k].seatType == Window <==> seats[k].number[1] in {'1', '6'})
      && (seats[k].seatType == Middle <==> seats[k].number[1] in {'2', '5'})
      && (seats[k].seatType == Aisle <==> seats[k].number[1] == '4')
      && seats[k].price == (if seats[k].seatType == Window then basePrice + 50 else basePrice)
  {
    seq(SeatCount, k requires 0 <= k < SeatCount =>
      MakeSeat(busId, basePrice, Rows[k / SeatsPerRow], Positions[k % SeatsPerRow], availability[k]))
  }

  /** The generator: every row, positions 1 to 6 with 3 skipped, one push per seat. */
  method GenerateSeats(busId: string, basePrice: int, availability: seq<bool>) returns (seats: seq<Seat>)
    requires |availability| == SeatCount
    ensures seats == Layout(busId, basePrice, availability)
  {
    ghost var layout := Layout(busId, basePrice, availability);
    seats := [];
    for r := 0 to |Rows|
      invariant |seats| == SeatsPerRow * r
      invariant seats == layout[..SeatsPerRow * r]
    {
      for i := 1 to 7
        invariant |seats| == SeatsPerRow * r + (if i <= 3 then i - 1 else i - 2)
        invariant seats == layout[..|seats|]
      {
        if i == 3 {
          continue;
        }
        var k := |seats|;
        assert Positions[k % SeatsPerRow] == i && k / SeatsPerRow == r;
        seats := seats + [MakeSeat(busId, basePrice, Rows[r], i, availability[k])];
      }
    }
  }

  /** Every seat id of the layout is different from every other. */
  lemma LayoutIdsDistinct(busId: string, basePrice: int, availability: seq<bool>)
    requires |availability| == SeatCount
    ensures IdsDistinct(Layout(busId, basePrice, availability))
  {
    var seats := Layout(busId, basePrice, availability);
    forall i, j | 0 <= i < j < |seats|
      ensures seats[i].id != seats[j].id
    {
      var n := |busId|;
      if i / SeatsPerRow != j / SeatsPerRow {
        assert seats[i].id[n + 1] != seats[j].id[n + 1];
      } else {
        assert i % SeatsPerRow != j % SeatsPerRow;
        assert seats[i].id[n + 2] != seats[j].id[n + 2];
      }
    }
  }

  // ---------------------------------------------------------------- invariants

  predicate IdsDistinct(seats: seq<Seat>)
  {
    forall i, j :: 0 <= i < j < |seats| ==> seats[i].id != seats[j].id
  }

  /** The invariant the picker keeps: a seat is only ever selected if it is available. */
  predicate SelectedAreAvailable(seats: seq<Seat>)
  {
    forall k :: 0 <= k < |seats| ==> seats[k].isSelected ==> seats[k].isAvailable
  }

  /** `a` and `b` are the same seat, except perhaps for whether it is selected. */
  predicate SameSeat(a: Seat, b: Seat)
  {
    a.id == b.id && a.number == b.number && a.isAvailable == b.isAvailable
    && a.price == b.price && a.seatType == b.seatType
  }

  lemma LayoutInvariant(busId: string, basePrice: int, availability: seq<bool>)
    requires |availability| == SeatCount
    ensures SelectedAreAvailable(Layout(busId, basePrice, availability))
    ensures SelectedSeats(Layout(busId, basePrice, availability)) == []
  {
    var seats := Layout(busId, basePrice, availability);
    NoneSelectedMeansEmptyBasket(seats);
  }

  // ---------------------------------------------------------------- toggling

  function Flip(seat: Seat, seatId: string): Seat
  {
    if seat.id == seatId && seat.isAvailable then seat.(isSelected := !seat.isSelected) else seat
  }

  /**
   * The seat list after a click on `seatId`: the seat with that id flips its
   * selection if it is available; all else stays as it was.
   */
  function ToggleSeat(seats: seq<Seat>, seatId: string): (r: seq<Seat>)
    ensures |r| == |seats|
    ensures forall k :: 0 <= k < |seats| ==> SameSeat(r[k], seats[k])
    ensures forall k :: 0 <= k < |seats| ==>
      (r[k].isSelected != seats[k].isSelected <==> seats[k].id == seatId && seats[k].isAvailable)
  {
    seq(|seats|, k requires 0 <= k < |seats| => Flip(seats[k], seatId))
  }

  /** Clicking an unknown id, or the id of an unavailable seat, changes nothing. */
  lemma ToggleNoMatch(seats: seq<Seat>, seatId: string)
    requires forall k :: 0 <= k < |seats| && seats[k].id == seatId ==> !seats[k].isAvailable
    ensures ToggleSeat(seats, seatId) == seats
  {
  }

  /** Clicking the same seat twice restores the seat list. */
  lemma ToggleInvolution(seats: seq<Seat>, seatId: string)
    ensures ToggleSeat(ToggleSeat(seats, seatId), seatId) == seats
  {
  }

  lemma TogglePreservesInvariant(seats: seq<Seat>, seatId: string)
    requires SelectedAreAvailable(seats)
    ensures SelectedAreAvailable(ToggleSeat(seats, seatId))
    ensures IdsDistinct(seats) ==> IdsDistinct(ToggleSeat(seats, seatId))
  {
  }

  /** The seat list after a sequence of clicks. */
  function ToggleAll(seats: seq<Seat>, clicks: seq<string>): seq<Seat>
    decreases |clicks|
  {
    if clicks == [] then seats else ToggleAll(ToggleSeat(seats, clicks[0]), clicks[1..])
  }

  /**
   * However many clicks arrive: the invariant holds, the seats stay the same
   * seats, and an unavailable seat is never changed at all.
   */
  lemma {:induction false} ToggleAllKeepsInvariant(seats: seq<Seat>, clicks: seq<string>)
    requires SelectedAreAvailable(seats)
    ensures |ToggleAll(seats, clicks)| == |seats|
    ensures SelectedAreAvailable(ToggleAll(seats, clicks))
    ensures forall k :: 0 <= k < |seats| ==> SameSeat(ToggleAll(seats, clicks)[k], seats[k])
    ensures forall k :: 0 <= k < |seats| && !seats[k].isAvailable ==> ToggleAll(seats, clicks)[k] == seats[k]
    decreases |clicks|
  {
    if clicks != [] {
      var next := ToggleSeat(seats, clicks[0]);
      TogglePreservesInvariant(seats, clicks[0]);
      ToggleAllKeepsInvariant(next, clicks[1..]);
    }
  }

  // ---------------------------------------------------------------- fare basket

  /** The selected seats, in seat-map order. */
  function SelectedSeats(seats: seq<Seat>): (r: seq<Seat>)
    ensures |r| <= |seats|
    ensures forall x :: x in r ==> x in seats && x.isSelected
    ensures forall x :: x in seats && x.isSelected ==> x in r
  {
    if seats == [] then []
    else (if seats[0].isSelected then [seats[0]] else []) + SelectedSeats(seats[1..])
  }

  /** Selection distributes over concatenation, so it keeps seat-map order. */
  lemma {:induction false} SelectedSeatsConcat(a: seq<Seat>, b: seq<Seat>)
    ensures SelectedSeats(a + b) == SelectedSeats(a) + SelectedSeats(b)
  {
    if a != [] {
      var head := if a[0].isSelected then [a[0]] else [];
      assert (a + b)[0] == a[0];
      assert (a + b)[1..] == a[1..] + b;
      SelectedSeatsConcat(a[1..], b);
      calc {
        SelectedSeats(a + b);
        head + SelectedSeats(a[1..] + b);
        head + (SelectedSeats(a[1..]) + SelectedSeats(b));
        (head + SelectedSeats(a[1..])) + SelectedSeats(b);
        SelectedSeats(a) + SelectedSeats(b);
      }
    } else {
      assert a + b == b;
    }
  }

  function SumPrices(seats: seq<Seat>): int
  {
    if seats == [] then 0 else seats[0].price + SumPrices(seats[1..])
  }

  /** The fare of the current selection, before the service fee. */
  function TotalAmount(seats: seq<Seat>): int
  {
    SumPrices(SelectedSeats(seats))
  }

  /** Per-seat contribution to the fare: its price if it is selected, else nothing. */
  function Charged(seat: Seat): int
  {
    if seat.isSelected then seat.price else 0
  }

  /** The fare counted seat by seat over the whole map. */
  function ChargedSum(seats: seq<Seat>): int
  {
    if seats == [] then 0 else Charged(seats[0]) + ChargedSum(seats[1..])
  }

  /** The total equals the sum, over all seats, of the price of each selected seat. */
  lemma {:induction false} TotalIsChargedSum(seats: seq<Seat>)
    ensures TotalAmount(seats) == ChargedSum(seats)
  {
    if seats != [] {
      TotalIsChargedSum(seats[1..]);
      var rest := SelectedSeats(seats[1..]);
      if seats[0].isSelected {
        assert ([seats[0]] + rest)[1..] == rest;
      } else {
        assert SelectedSeats(seats) == rest;
      }
    }
  }

  lemma {:induction false} NoneSelectedMeansEmptyBasket(seats: seq<Seat>)
    requires forall k :: 0 <= k < |seats| ==> !seats[k].isSelected
    ensures SelectedSeats(seats) == []
    ensures TotalAmount(seats) == 0
  {
    if seats != [] {
      NoneSelectedMeansEmptyBasket(seats[1..]);
    }
  }

  /** Two seat lists that differ only at position `k` differ in fare only by that seat's charge. */
  lemma {:induction false} ChargedSumAt(a: seq<Seat>, b: seq<Seat>, k: nat)
    requires |a| == |b| && k < |a|
    requires forall i :: 0 <= i < |a| && i != k ==> a[i] == b[i]
    ensures ChargedSum(b) == ChargedSum(a) - Charged(a[k]) + Charged(b[k])
  {
    if k == 0 {
      assert a[1..] == b[1..];
    } else {
      ChargedSumAt(a[1..], b[1..], k - 1);
    }
  }

  /**
   * With distinct ids, clicking available seat `k` adds its price to the
   * fare when it was free and removes it when it was selected.
   */
  lemma ToggleChangesTotalBySeatPrice(seats: seq<Seat>, k: nat)
    requires IdsDistinct(seats)
    requires k < |seats| && seats[k].isAvailable
    ensures TotalAmount(ToggleSeat(seats, seats[k].id))
         == TotalAmount(seats) + (if seats[k].isSelected then -seats[k].price else seats[k].price)
  {
    var after := ToggleSeat(seats, seats[k].id);
    ChargedSumAt(seats, after, k);
    TotalIsChargedSum(seats);
    TotalIsChargedSum(after);
  }

  function CountWindows(seats: seq<Seat>): nat
  {
    if seats == [] then 0 else (if seats[0].seatType == Window then 1 else 0) + CountWindows(seats[1..])
  }

  /**
   * When every seat is priced by the layout's rule, the fare is the base price
   * per selected seat plus the window surcharge per selected window seat.
   */
  lemma TotalByCategory(seats: seq<Seat>, basePrice: int)
    requires forall k :: 0 <= k < |seats| ==> seats[k].price == PriceOf(basePrice, seats[k].seatType)
    ensures TotalAmount(seats)
         == basePrice * |SelectedSeats(seats)| + WindowSurcharge * CountWindows(SelectedSeats(seats))
  {
    var selected := SelectedSeats(seats);
    forall k | 0 <= k < |selected|
      ensures selected[k].price == PriceOf(basePrice, selected[k].seatType)
    {
      assert selected[k] in seats;
    }
    SumByCategory(selected, basePrice);
  }

  lemma {:induction false} SumByCategory(seats: seq<Seat>, basePrice: int)
    requires forall k :: 0 <= k < |seats| ==> seats[k].price == PriceOf(basePrice, seats[k].seatType)
    ensures SumPrices(seats) == basePrice * |seats| + WindowSurcharge * CountWindows(seats)
  {
    if seats != [] {
      SumByCategory(seats[1..], basePrice);
      assert basePrice * |seats| == basePrice * |seats[1..]| + basePrice;
    }
  }

  // ---------------------------------------------------------------- booking

  /**
   * The "Book" button: disabled (None) while no seat is selected, otherwise
   * it reports the number of seats and the fare plus the service fee.
   */
  function BookNow(seats: seq<Seat>): (r: Option<Booking>)
    ensures r.None? <==> forall k :: 0 <= k < |seats| ==> !seats[k].isSelected
    ensures r.Some? ==> r.value.seatCount == |SelectedSeats(seats)| > 0
    ensures r.Some? ==> r.value.amount == TotalAmount(seats) + 25
  {
    var selected := SelectedSeats(seats);
    if |selected| == 0 then
      assert forall k :: 0 <= k < |seats| ==> seats[k] !in selected;
      None
    else
      assert selected[0] in seats;
      Some(Booking(|selected|, TotalAmount(seats) + ServiceFee))
  }

  // ---------------------------------------------------------------- state

  /** The picker component: its seat list is generated once and replaced on every click. */
  class SeatPicker {
    const busId: string
    const basePrice: int
    var seats: seq<Seat>

    ghost predicate Valid()
      reads this
    {
      && |seats| == SeatCount
      && IdsDistinct(seats)
      && SelectedAreAvailable(seats)
      && forall k :: 0 <= k < |seats| ==> seats[k].price == PriceOf(basePrice, seats[k].seatType)
    }

    constructor (busId: string, basePrice: int, availability: seq<bool>)
      requires |availability| == SeatCount
      ensures this.busId == busId && this.basePrice == basePrice
      ensures seats == Layout(busId, basePrice, availability)
      ensures Valid()
    {
      this.busId := busId;
      this.basePrice := basePrice;
      var generated := GenerateSeats(busId, basePrice, availability);
      seats := generated;
      new;
      LayoutIdsDistinct(busId, basePrice, availability);
      LayoutInvariant(busId, basePrice, availability);
    }

    method ToggleSeatSelection(seatId: string)
      requires Valid()
      modifies this
      ensures Valid()
      ensures seats == ToggleSeat(old(seats), seatId)
    {
      TogglePreservesInvariant(seats, seatId);
      seats := ToggleSeat(seats, seatId);
    }
  }
}
