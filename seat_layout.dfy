/**
 * The seat-selection page (src/bus-reservation-system/src/app/components/seat-layout/seat-layout.ts):
 * the seats of the loaded layout are objects whose `isSelected` flag the
 * page flips, and `selectedSeats` holds the very same objects in the order
 * they were picked.
 */
module SeatLayout {
  import opened Wrappers
  import opened BusClient

  /** A seat object of the loaded layout. Only `isSelected` is ever written. */
  class Seat {
    const id: string
    const seatNumber: string
    const isBooked: bool
    var isSelected: bool
    const isSold: bool

    constructor (v: SeatView)
      ensures View() == v
    {
      id := v.id;
      seatNumber := v.seatNumber;
      isBooked := v.isBooked;
      isSelected := v.isSelected;
      isSold := v.isSold;
    }

    /** The seat as `JSON.stringify` writes it out. */
    function View(): SeatView
      reads this
    {
      SeatView(id, seatNumber, isBooked, isSelected, isSold)
    }
  }

  /** Some entry of `xs` has the id. */
  predicate HasId(xs: seq<Seat>, id: string) {
    exists k :: 0 <= k < |xs| && xs[k].id == id
  }

  /** No id occurs twice. */
  predicate DistinctIds(xs: seq<Seat>) {
    forall i, j :: 0 <= i < j < |xs| ==> xs[i].id != xs[j].id
  }

  /** `a` is `b` with some entries left out, the rest in their order. */
  predicate IsSubsequence(a: seq<Seat>, b: seq<Seat>)
    decreases |b|
  {
    if a == [] then true
    else if b == [] then false
    else (a[0] == b[0] && IsSubsequence(a[1..], b[1..])) || IsSubsequence(a, b[1..])
  }

  /** `xs.filter(s => s.id !== id)`: every entry with another id, in the
      same order, and none with this id. */
  function WithoutId(xs: seq<Seat>, id: string): (r: seq<Seat>)
    ensures IsSubsequence(r, xs)
    ensures forall i :: 0 <= i < |r| ==> r[i].id != id
    ensures forall i :: 0 <= i < |xs| && xs[i].id != id ==> xs[i] in r
    ensures forall other :: HasId(r, other) <==> HasId(xs, other) && other != id
  {
    if xs == [] then []
    else
      var rest := WithoutId(xs[1..], id);
      assert xs == [xs[0]] + xs[1..];
      assert forall other :: HasId(xs, other) <==> xs[0].id == other || HasId(xs[1..], other) by {
        forall other ensures HasId(xs, other) <==> xs[0].id == other || HasId(xs[1..], other) {
          if HasId(xs, other) && xs[0].id != other {
            var k :| 0 <= k < |xs| && xs[k].id == other;
            assert xs[1..][k - 1].id == other;
          }
          if HasId(xs[1..], other) {
            var k :| 0 <= k < |xs[1..]| && xs[1..][k].id == other;
            assert xs[k + 1].id == other;
          }
        }
      }
      if xs[0].id == id then
        rest
      else
        var r := [xs[0]] + rest;
        assert r[1..] == rest;
        assert forall other :: HasId(r, other) <==> xs[0].id == other || HasId(rest, other) by {
          forall other ensures HasId(r, other) <==> xs[0].id == other || HasId(rest, other) {
            if HasId(r, other) && xs[0].id != other {
              var k :| 0 <= k < |r| && r[k].id == other;
              assert rest[k - 1].id == other;
            }
            if HasId(rest, other) {
              var k :| 0 <= k < |rest| && rest[k].id == other;
              assert r[k + 1].id == other;
            }
          }
        }
        r
  }

  /** Leaving entries out keeps ids apart. */
  lemma {:induction false} SubsequenceKeepsIdsApart(a: seq<Seat>, b: seq<Seat>)
    requires IsSubsequence(a, b) && DistinctIds(b)
    ensures DistinctIds(a)
    ensures forall x :: x in a ==> x in b
    decreases |b|
  {
    if a != [] && b != [] {
      assert DistinctIds(b[1..]) by {
        forall i, j | 0 <= i < j < |b[1..]| ensures b[1..][i].id != b[1..][j].id {
          assert b[1..][i] == b[i + 1] && b[1..][j] == b[j + 1];
        }
      }
      if a[0] == b[0] && IsSubsequence(a[1..], b[1..]) {
        SubsequenceKeepsIdsApart(a[1..], b[1..]);
        forall i, j | 0 <= i < j < |a| ensures a[i].id != a[j].id {
          assert a[j] == a[1..][j - 1];
          assert a[j] in b[1..];
          var k :| 0 <= k < |b[1..]| && b[1..][k] == a[j];
          assert b[k + 1] == a[j];
          if i > 0 {
            assert a[i] == a[1..][i - 1];
          }
        }
        forall x | x in a ensures x in b {
          if x != a[0] {
            assert x in a[1..];
          }
        }
      } else {
        SubsequenceKeepsIdsApart(a, b[1..]);
      }
    }
  }

  /** Appending an unselected seat of the layout keeps ids apart, keeps the
      selection inside the layout and adds exactly that seat's id. */
  lemma SelectingKeepsIds(selected: seq<Seat>, seat: Seat, seats: seq<Seat>)
    requires DistinctIds(seats) && seat in seats
    requires DistinctIds(selected) && (forall k :: 0 <= k < |selected| ==> selected[k] in seats)
    requires !HasId(selected, seat.id)
    ensures DistinctIds(selected + [seat])
    ensures forall k :: 0 <= k < |selected + [seat]| ==> (selected + [seat])[k] in seats
    ensures forall s :: s in seats ==> (HasId(selected + [seat], s.id) <==> HasId(selected, s.id) || s == seat)
  {
    var r := selected + [seat];
    forall s | s in seats ensures HasId(r, s.id) <==> HasId(selected, s.id) || s == seat {
      if HasId(selected, s.id) {
        var k :| 0 <= k < |selected| && selected[k].id == s.id;
        assert r[k].id == s.id;
      }
      assert r[|selected|] == seat;
      if HasId(r, s.id) && !HasId(selected, s.id) {
        var k :| 0 <= k < |r| && r[k].id == s.id;
        assert k == |selected|;
        var p :| 0 <= p < |seats| && seats[p] == s;
        var q :| 0 <= q < |seats| && seats[q] == seat;
        assert p == q;
      }
    }
  }

  /** Filtering out a layout seat's id keeps ids apart, keeps the selection
      inside the layout and removes exactly that seat's id. */
  lemma DeselectingKeepsIds(selected: seq<Seat>, seat: Seat, seats: seq<Seat>)
    requires DistinctIds(seats) && seat in seats
    requires DistinctIds(selected) && (forall k :: 0 <= k < |selected| ==> selected[k] in seats)
    ensures DistinctIds(WithoutId(selected, seat.id))
    ensures forall k :: 0 <= k < |WithoutId(selected, seat.id)| ==> WithoutId(selected, seat.id)[k] in seats
    ensures forall s :: s in seats ==> (HasId(WithoutId(selected, seat.id), s.id) <==> HasId(selected, s.id) && s != seat)
  {
    var r := WithoutId(selected, seat.id);
    SubsequenceKeepsIdsApart(r, selected);
    forall s | s in seats ensures HasId(r, s.id) <==> HasId(selected, s.id) && s != seat {
      if s != seat {
        var p :| 0 <= p < |seats| && seats[p] == s;
        var q :| 0 <= q < |seats| && seats[q] == seat;
        assert s.id != seat.id;
      }
    }
  }

  /** What `proceedToBooking` does: an alert, or navigation to the booking
      page after (in a browser) storing the selected seats. */
  datatype Proceed = Alert(message: string) | Navigate(stored: Option<seq<SeatView>>, commands: seq<string>)

  /** The seats as `JSON.stringify` writes them. */
  function Snapshot(seats: seq<Seat>): (r: seq<SeatView>)
    reads set s | s in seats
    ensures |r| == |seats|
    ensures forall i :: 0 <= i < |seats| ==> r[i] == seats[i].View()
  {
    if seats == [] then [] else [seats[0].View()] + Snapshot(seats[1..])
  }

  /** The rows concatenated. */
  function Flatten(rows: seq<seq<Seat>>): seq<Seat> {
    if rows == [] then [] else Flatten(rows[..|rows| - 1]) + rows[|rows| - 1]
  }

  function Min(a: int, b: int): int {
    if a <= b then a else b
  }

  class SeatLayoutComponent {
    var busId: string
    /** `seatLayout.seats`, or None while no layout is loaded. */
    var seatLayout: Option<seq<Seat>>
    var selectedSeats: seq<Seat>
    const isBrowser: bool

    constructor (isBrowser: bool)
      ensures this.isBrowser == isBrowser
      ensures busId == "" && seatLayout == None && selectedSeats == []
    {
      this.isBrowser := isBrowser;
      busId := "";
      seatLayout := None;
      selectedSeats := [];
    }

    function Seats(): seq<Seat>
      reads this
    {
      if seatLayout.Some? then seatLayout.value else []
    }

    /** The selection is consistent: layout seats have distinct ids, every
        selected entry is a layout seat, no id is selected twice, and a
        layout seat is flagged selected exactly when its id is in
        `selectedSeats`. */
    ghost predicate Valid()
      reads this, set s | s in Seats()
    {
      && DistinctIds(Seats())
      && DistinctIds(selectedSeats)
      && (forall k :: 0 <= k < |selectedSeats| ==> selectedSeats[k] in Seats())
      && (forall s :: s in Seats() ==> (s.isSelected <==> HasId(selectedSeats, s.id)))
    }

    /** The route's id and the layout `getSeatLayout` delivered arrive; the
        selection is kept as it was. A fresh layout of unselected seats with
        distinct ids, loaded while nothing is selected, is consistent. */
    method ShowLayout(id: string, seats: seq<Seat>)
      modifies this
      ensures busId == id && seatLayout == Some(seats) && selectedSeats == old(selectedSeats)
      ensures old(selectedSeats) == [] && DistinctIds(seats) && (forall s :: s in seats ==> !s.isSelected) ==> Valid()
    {
      busId := id;
      seatLayout := Some(seats);
    }

    /** `toggleSeatSelection`: a booked seat is left alone; otherwise its
        flag flips, a newly selected seat is appended and a deselected one
        is filtered out by id. A consistent selection stays consistent. */
    method ToggleSeatSelection(seat: Seat)
      modifies this, seat
      ensures busId == old(busId) && seatLayout == old(seatLayout)
      ensures seat.isBooked ==> seat.isSelected == old(seat.isSelected) && selectedSeats == old(selectedSeats)
      ensures !seat.isBooked ==> seat.isSelected == !old(seat.isSelected)
      ensures !seat.isBooked && seat.isSelected ==> selectedSeats == old(selectedSeats) + [seat]
      ensures !seat.isBooked && !seat.isSelected ==> selectedSeats == WithoutId(old(selectedSeats), seat.id)
      ensures old(Valid()) && seat in Seats() ==> Valid()
    {
      ghost var before := selectedSeats;
      if seat.isBooked {
        return;
      }
      seat.isSelected := !seat.isSelected;
      if seat.isSelected {
        selectedSeats := selectedSeats + [seat];
        if old(Valid()) && seat in Seats() {
          SelectingKeepsIds(before, seat, Seats());
          forall s | s in Seats() ensures s.isSelected <==> HasId(selectedSeats, s.id) {
            if s != seat {
              assert s.isSelected == old(s.isSelected);
            }
          }
        }
      } else {
        selectedSeats := WithoutId(selectedSeats, seat.id);
        if old(Valid()) && seat in Seats() {
          DeselectingKeepsIds(before, seat, Seats());
          forall s | s in Seats() ensures s.isSelected <==> HasId(selectedSeats, s.id) {
            if s != seat {
              assert s.isSelected == old(s.isSelected);
            }
          }
        }
      }
    }

    /** `isSeatSelected`: the seat's own flag, which in a consistent
        selection says whether its id is among the selected ones. */
    function IsSeatSelected(seat: Seat): (r: bool)
      reads this, seat, set s | s in Seats()
      ensures r == seat.isSelected
      ensures Valid() && seat in Seats() ==> (r <==> HasId(selectedSeats, seat.id))
    {
      seat.isSelected
    }

    /** `getSeatsInRows`: no rows without a layout; otherwise consecutive
        slices of four seats, the last one holding the one to four left over,
        which together are the layout's seats. */
    method GetSeatsInRows() returns (rows: seq<seq<Seat>>)
      ensures seatLayout.None? ==> rows == []
      ensures seatLayout.Some? ==>
        var seats := seatLayout.value;
        && |rows| == RowsOfFour(|seats|)
        && Flatten(rows) == seats
        && (forall k :: 0 <= k < |rows| ==> 4 * k < |seats| && rows[k] == seats[4 * k..Min(4 * k + 4, |seats|)])
        && (forall k :: 0 <= k < |rows| - 1 ==> |rows[k]| == 4)
        && (|rows| > 0 ==> 1 <= |rows[|rows| - 1]| <= 4)
    {
      if seatLayout.None? {
        return [];
      }
      var seats := seatLayout.value;
      rows := [];
      var i := 0;
      while i < |seats|
        invariant i == 4 * |rows|
        invariant i <= |seats| || (|seats| > 0 && i - 4 < |seats|)
        invariant Flatten(rows) == seats[..Min(i, |seats|)]
        invariant forall k :: 0 <= k < |rows| ==> 4 * k < |seats| && rows[k] == seats[4 * k..Min(4 * k + 4, |seats|)]
        decreases |seats| - i
      {
        var row := seats[i..Min(i + 4, |seats|)];
        assert (rows + [row])[..|rows|] == rows;
        assert seats[..Min(i + 4, |seats|)] == seats[..i] + row;
        rows := rows + [row];
        i := i + 4;
      }
      assert seats[..Min(i, |seats|)] == seats;
    }

    /** `proceedToBooking`: with nothing selected only the alert; otherwise
        the selected seats are stored (in a browser) and the booking page of
        this bus is opened. */
    method ProceedToBooking() returns (p: Proceed)
      ensures |selectedSeats| == 0 <==> p.Alert?
      ensures |selectedSeats| == 0 ==> p == Alert("Please select at least one seat to continue.")
      ensures |selectedSeats| > 0 ==>
        p == Navigate(if isBrowser then Some(Snapshot(selectedSeats)) else None, ["/booking", busId])
    {
      if |selectedSeats| == 0 {
        return Alert("Please select at least one seat to continue.");
      }
      var stored: Option<seq<SeatView>> := None;
      if isBrowser {
        stored := Some(Snapshot(selectedSeats));
      }
      return Navigate(stored, ["/booking", busId]);
    }
  }
}
