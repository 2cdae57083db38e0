/**
 * The booking page's controller (src/components/bookings/BookingPage.js):
 * the class picked for the train, the seat map, the roster with its fare
 * summary, and the three steps Passenger Details → Seat Selection →
 * Review & Pay.  Each handler is a method; the handlers the page only
 * renders on one step or inside the seat dialog require that step or that
 * dialog.
 */
module Booking {
  import opened Wrappers
  import opened Fares
  import opened Roster
  import opened SeatMap
  import opened Trains

  /** The class the page settles on once the train is fetched: the one asked
      for when the train offers it, otherwise the train's first class. */
  function DefaultClass(requested: string, classes: seq<string>): (c: string)
    requires |classes| > 0
    ensures c in classes
    ensures requested != "" && requested in classes ==> c == requested
    ensures requested == "" || requested !in classes ==> c == classes[0]
  {
    if requested == "" || requested !in classes then classes[0] else requested
  }

  /** What `handleSubmit` hands to the payment page. */
  datatype BookingRequest = BookingRequest(
    bookingId: nat,
    totalAmount: int,
    passengers: seq<Passenger>,
    train: Train,
    journeyDate: string,
    selectedClass: string)

  const PassengerDetails: nat := 0
  const SeatSelection: nat := 1
  const ReviewAndPay: nat := 2

  class BookingSession {
    const train: Train
    const selectedClass: string
    const price: nat
    const seats: seq<Seat>
    const journeyDate: string

    var passengers: seq<Passenger>
    var activeStep: nat
    var termsAccepted: bool
    var seatDialogOpen: bool
    var currentPassengerIndex: Option<nat>
    var totalFare: int
    var discountedFare: int

    /**
     * The session invariant: 1 to 6 passengers, no seat held twice, every
     * held seat on the map, fares derived from the roster, and the gates
     * already passed still holding (details valid from Seat Selection on,
     * every passenger seated on Review & Pay).
     */
    ghost predicate Valid()
      reads this
    {
      && 1 <= |passengers| <= MaxPassengers
      && activeStep <= ReviewAndPay
      && SeatsDistinct(passengers)
      && SeatsOnMap(passengers, |seats|)
      && (forall k :: 0 <= k < |seats| ==> seats[k].number == k + 1)
      && totalFare == TotalFare(|passengers|, price)
      && discountedFare == DiscountedFare(Categories(passengers), price)
      && (activeStep >= SeatSelection ==> AllPassengersValid(passengers))
      && (activeStep == ReviewAndPay ==> AllSeated(passengers))
      && (seatDialogOpen ==>
            activeStep == SeatSelection
            && currentPassengerIndex.Some? && currentPassengerIndex.value < |passengers|)
    }

    /**
     * The page once the train has been fetched: the class defaulted, the
     * seat map generated for it from the availability draw, one blank
     * passenger, and the fare effect run once.
     */
    constructor (t: Train, requestedClass: string, date: string, available: nat -> bool)
      requires Bookable(t)
      ensures Valid()
      ensures train == t && journeyDate == date
      ensures selectedClass == DefaultClass(requestedClass, t.classes)
      ensures Lookup(t.price, selectedClass) == Some(price)
      ensures |seats| == Lookup(t.availableSeats, selectedClass).value
      ensures forall k :: 0 <= k < |seats| ==> seats[k] == SeatAt(selectedClass, k + 1, available)
      ensures passengers == [BlankPassenger] && activeStep == PassengerDetails
      ensures !termsAccepted && !seatDialogOpen && currentPassengerIndex == None
    {
      var cls := DefaultClass(requestedClass, t.classes);
      var generated := GenerateSeats(cls, Lookup(t.availableSeats, cls).value, available);
      var base, discounted := AccumulateFares([Adult], Lookup(t.price, cls).value);
      train := t;
      journeyDate := date;
      selectedClass := cls;
      price := Lookup(t.price, cls).value;
      seats := generated;
      passengers := [BlankPassenger];
      activeStep := PassengerDetails;
      termsAccepted := false;
      seatDialogOpen := false;
      currentPassengerIndex := None;
      totalFare := base;
      discountedFare := discounted;
      assert Categories([BlankPassenger]) == [Adult];
    }

    /** The fare effect: recomputed from the roster after every change to it. */
    method RefreshFares()
      modifies this`totalFare, this`discountedFare
      ensures totalFare == TotalFare(|passengers|, price)
      ensures discountedFare == DiscountedFare(Categories(passengers), price)
    {
      totalFare, discountedFare := AccumulateFares(Categories(passengers), price);
    }

    /** `handleAddPassenger`: a blank entry while there are fewer than 6;
        at 6 the roster stays and `ok` is false (the page warns). */
    method AddPassenger() returns (ok: bool)
      requires Valid() && activeStep == PassengerDetails
      modifies this`passengers, this`totalFare, this`discountedFare
      ensures Valid()
      ensures ok == (|old(passengers)| < MaxPassengers)
      ensures passengers == if ok then old(passengers) + [BlankPassenger] else old(passengers)
    {
      ok := |passengers| < MaxPassengers;
      if ok {
        AppendBlankKeepsSeatInvariants(passengers, |seats|);
        passengers := passengers + [BlankPassenger];
        RefreshFares();
      }
    }

    /** `handleRemovePassenger`: entry `i` removed while there is more than one;
        with one left the roster stays and `ok` is false (the page warns).
        An index past the end removes nothing, as `splice` does. */
    method RemovePassenger(i: nat) returns (ok: bool)
      requires Valid() && activeStep == PassengerDetails
      modifies this`passengers, this`totalFare, this`discountedFare
      ensures Valid()
      ensures ok == (|old(passengers)| > 1)
      ensures passengers == if ok && i < |old(passengers)| then RemoveAt(old(passengers), i) else old(passengers)
    {
      ok := |passengers| > 1;
      if ok && i < |passengers| {
        RemoveAtKeepsSeatInvariants(passengers, i, |seats|);
        passengers := RemoveAt(passengers, i);
        RefreshFares();
      }
    }

    /** `handlePassengerChange`: one field of entry `i` rewritten; an age edit
        re-derives the category. */
    method ChangePassenger(i: nat, e: Edit)
      requires Valid() && activeStep == PassengerDetails && i < |passengers|
      modifies this`passengers, this`totalFare, this`discountedFare
      ensures Valid()
      ensures passengers == old(passengers)[i := ApplyEdit(old(passengers)[i], e)]
    {
      EditKeepsSeatInvariants(passengers, i, e, |seats|);
      passengers := passengers[i := ApplyEdit(passengers[i], e)];
      RefreshFares();
    }

    /** `handleOpenSeatSelection` */
    method OpenSeatSelection(i: nat)
      requires Valid() && activeStep == SeatSelection && i < |passengers|
      modifies this`currentPassengerIndex, this`seatDialogOpen
      ensures Valid()
      ensures currentPassengerIndex == Some(i) && seatDialogOpen
    {
      currentPassengerIndex := Some(i);
      seatDialogOpen := true;
    }

    /** `handleCloseSeatSelection` (also the dialog's Cancel and Done buttons) */
    method CloseSeatSelection()
      requires Valid()
      modifies this`seatDialogOpen
      ensures Valid() && !seatDialogOpen
    {
      seatDialogOpen := false;
    }

    /** The seat dialog's button for `seat` is enabled: the seat drew as available,
        and nobody other than the current passenger holds it. */
    predicate SeatButtonEnabled(seat: nat)
      reads this
      requires 1 <= seat <= |seats| && currentPassengerIndex.Some? && currentPassengerIndex.value < |passengers|
    {
      seats[seat - 1].available
      && (forall k :: 0 <= k < |passengers| && passengers[k].seatNumber == Some(seat) ==>
            k == currentPassengerIndex.value)
    }

    /**
     * `handleSeatSelect`: the current passenger takes `seat` and its berth
     * label; any other holder is cleared; the dialog closes.  When the
     * seat's button was enabled, no other passenger changes at all.
     */
    method SelectSeat(seat: nat)
      requires Valid() && seatDialogOpen && 1 <= seat <= |seats|
      modifies this`passengers, this`seatDialogOpen
      ensures Valid() && !seatDialogOpen
      ensures passengers ==
        AssignSeat(old(passengers), currentPassengerIndex.value, seat, BerthLabel(seats[seat - 1].position))
      ensures old(SeatButtonEnabled(seat)) ==>
        forall k :: 0 <= k < |passengers| && k != currentPassengerIndex.value ==> passengers[k] == old(passengers)[k]
    {
      var i := currentPassengerIndex.value;
      var berth := BerthLabel(seats[seat - 1].position);
      AssignSeatKeepsDistinct(passengers, i, seat, berth);
      AssignSeatKeepsSeatsOnMap(passengers, i, seat, berth, |seats|);
      AssignSeatKeepsValidity(passengers, i, seat, berth);
      if SeatButtonEnabled(seat) {
        NoEvictionWhenSeatFree(passengers, i, seat, berth);
      }
      passengers := SelectSeatFor(passengers, i, seat, berth);
      seatDialogOpen := false;
    }

    /**
     * `handleNext`: from Passenger Details only when every passenger passes
     * validation, from Seat Selection only when every passenger has a seat;
     * otherwise (and on Review & Pay) the step stays.
     */
    method Next()
      requires Valid() && !seatDialogOpen
      modifies this`activeStep
      ensures Valid()
      ensures old(activeStep) == PassengerDetails ==>
        activeStep == if AllPassengersValid(passengers) then SeatSelection else PassengerDetails
      ensures old(activeStep) == SeatSelection ==>
        activeStep == if AllSeated(passengers) then ReviewAndPay else SeatSelection
      ensures old(activeStep) == ReviewAndPay ==> activeStep == ReviewAndPay
    {
      if activeStep == PassengerDetails {
        var isValid := ValidateAll(passengers);
        if isValid {
          activeStep := activeStep + 1;
        }
      } else if activeStep == SeatSelection {
        if AllSeated(passengers) {
          activeStep := activeStep + 1;
        }
      }
    }

    /** `handleBack`: one step back, without any check.  The Back button exists on
        the second and third steps only. */
    method Back()
      requires Valid() && activeStep > PassengerDetails && !seatDialogOpen
      modifies this`activeStep
      ensures Valid() && activeStep == old(activeStep) - 1
    {
      activeStep := activeStep - 1;
    }

    /** The terms checkbox. */
    method SetTermsAccepted(accepted: bool)
      requires Valid()
      modifies this`termsAccepted
      ensures Valid() && termsAccepted == accepted
    {
      termsAccepted := accepted;
    }

    /**
     * `handleSubmit` on Review & Pay: nothing unless the terms are accepted;
     * otherwise the booking handed to payment, with `bookingId` standing for
     * the random id and the total being the one the summary shows.  Every
     * passenger of that booking is valid and seated, on distinct seats.
     */
    method Submit(bookingId: nat) returns (request: Option<BookingRequest>)
      requires Valid() && activeStep == ReviewAndPay
      ensures request.Some? <==> termsAccepted
      ensures request.Some? ==>
        request.value == BookingRequest(bookingId, TotalPayable(discountedFare),
                                        passengers, train, journeyDate, selectedClass)
      ensures request.Some? ==>
        && AllPassengersValid(request.value.passengers)
        && AllSeated(request.value.passengers)
        && SeatsDistinct(request.value.passengers)
        && request.value.totalAmount == discountedFare + Gst(discountedFare)
    {
      if !termsAccepted {
        return None;
      }
      GstCompletesTotal(discountedFare);
      request := Some(BookingRequest(bookingId, TotalPayable(discountedFare),
                                     passengers, train, journeyDate, selectedClass));
    }
  }
}
