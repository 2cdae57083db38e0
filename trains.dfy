/**
 * The train descriptor the pages receive from the mock catalogue
 * (src/components/bookings/BookingPage.js:48-81,
 * src/components/trains/TrainSearchPage.js:51-112).  The price and seat
 * tables are JavaScript objects, kept here as ordered key/value lists.
 */
module Trains {
  import opened Wrappers

  datatype Train = Train(
    id: nat,
    trainNo: string,
    name: string,
    departureTime: string,
    duration: string,
    classes: seq<string>,
    price: seq<(string, nat)>,
    availableSeats: seq<(string, nat)>)

  /** `table[key]`; `None` is `undefined`. */
  function Lookup(table: seq<(string, nat)>, key: string): (r: Option<nat>)
    ensures r.Some? <==> exists k :: 0 <= k < |table| && table[k].0 == key
    ensures r.Some? ==> exists k :: 0 <= k < |table| && table[k] == (key, r.value)
                          && forall j :: 0 <= j < k ==> table[j].0 != key
  {
    if table == [] then None
    else if table[0].0 == key then Some(table[0].1)
    else Lookup(table[1..], key)
  }

  /** `Object.values(table)` */
  function Values(table: seq<(string, nat)>): (vs: seq<nat>)
    ensures |vs| == |table|
    ensures forall k :: 0 <= k < |table| ==> vs[k] == table[k].1
  {
    seq(|table|, k requires 0 <= k < |table| => table[k].1)
  }

  /** A train the booking page can work with: it offers at least one class, and
      each class it offers has a price and a seat count. */
  predicate Bookable(t: Train) {
    |t.classes| > 0
    && forall c :: c in t.classes ==> Lookup(t.price, c).Some? && Lookup(t.availableSeats, c).Some?
  }
}
