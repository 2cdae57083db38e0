/**
 * The passenger roster of the booking page
 * (src/components/bookings/BookingPage.js:141-150, 207-296): the entries,
 * the edits `handlePassengerChange` applies, the seat hand-over of
 * `handleSeatSelect`, and the per-passenger validation rules.
 */
module Roster {
  import opened Wrappers
  import opened Fares
  import JsText

  datatype Gender = Male | Female

  /** One roster entry.  `age` is the raw text of the age field. */
  datatype Passenger = Passenger(
    name: string,
    age: string,
    gender: Gender,
    ageCategory: AgeCategory,
    seatNumber: Option<nat>,
    berth: string)

  const MaxPassengers: nat := 6

  /** The entry the page starts with and `handleAddPassenger` appends. */
  const BlankPassenger := Passenger("", "", Male, Adult, None, "")

  /** The field a `handlePassengerChange` call writes, with the new value. */
  datatype Edit =
    | SetName(name: string)
    | SetAge(age: string)
    | SetGender(gender: Gender)
    | SetAgeCategory(ageCategory: AgeCategory)

  /** The category an age edit derives: child from 5 to 11, senior from 60, adult otherwise. */
  function CategoryForAge(age: int): (c: AgeCategory)
    ensures c == Child <==> 5 <= age < 12
    ensures c == Senior <==> age >= 60
    ensures c == Adult <==> age < 5 || 12 <= age < 60
  {
    if age < 12 && age >= 5 then Child
    else if age >= 60 then Senior
    else Adult
  }

  /** One `handlePassengerChange` on one entry.  An age that `parseInt` reads
      re-derives the category; any other edit, or an unreadable age, leaves it. */
  function ApplyEdit(p: Passenger, e: Edit): (r: Passenger)
    ensures r.seatNumber == p.seatNumber && r.berth == p.berth
  {
    match e
    case SetName(n) => p.(name := n)
    case SetGender(g) => p.(gender := g)
    case SetAgeCategory(c) => p.(ageCategory := c)
    case SetAge(a) =>
      match JsText.ParseInt(a)
      case Some(v) => p.(age := a, ageCategory := CategoryForAge(v))
      case None => p.(age := a)
  }

  /** An age edit that parses fixes the category from the age alone, whatever was chosen before. */
  lemma LastAgeEditWins(p: Passenger, c: AgeCategory, a: string)
    requires JsText.ParseInt(a).Some?
    ensures ApplyEdit(ApplyEdit(p, SetAgeCategory(c)), SetAge(a)) == ApplyEdit(p, SetAge(a))
    ensures ApplyEdit(p, SetAge(a)).ageCategory == CategoryForAge(JsText.ParseInt(a).value)
  {
  }

  /** An age edit that does not parse keeps the category and changes only the age text. */
  lemma UnreadableAgeKeepsCategory(p: Passenger, a: string)
    requires JsText.ParseInt(a).None?
    ensures ApplyEdit(p, SetAge(a)) == p.(age := a)
  {
  }

  /** A four-year-old counts as adult: the child band starts at 5. */
  lemma AgeFourIsAdult(p: Passenger)
    ensures ApplyEdit(p, SetAge("4")).ageCategory == Adult
  {
    JsText.ParseIntOfDigits("4");
    assert JsText.DecimalValue("4") == 4;
  }

  /** `parseInt` reads only the leading digits: "8y" gives a child. */
  lemma LeadingDigitsGiveChild(p: Passenger)
    ensures ApplyEdit(p, SetAge("8y")).ageCategory == Child
  {
    assert JsText.ParseInt("8y") == Some(8) by {
      assert JsText.TrimStart("8y") == "8y";
      assert JsText.DigitPrefix("8y") == "8";
      assert JsText.DecimalValue("8") == 8;
    }
  }

  /** Sixty-five is a senior. */
  lemma AgeSixtyFiveIsSenior(p: Passenger)
    ensures ApplyEdit(p, SetAge("65")).ageCategory == Senior
  {
    JsText.ParseIntOfDigits("65");
    assert JsText.DecimalValue("65") == 65 by { assert "65"[..1] == "6"; }
  }

  // ---- Seats -------------------------------------------------------------

  /** No two entries hold the same seat. */
  predicate SeatsDistinct(ps: seq<Passenger>) {
    forall j, k :: 0 <= j < k < |ps| && ps[j].seatNumber.Some? ==> ps[j].seatNumber != ps[k].seatNumber
  }

  /** Every entry's seat, when it has one, is a number of the seat map. */
  predicate SeatsOnMap(ps: seq<Passenger>, seatCount: nat) {
    forall k :: 0 <= k < |ps| && ps[k].seatNumber.Some? ==> 1 <= ps[k].seatNumber.value <= seatCount
  }

  /** `passengers.every(p => p.seatNumber !== null)` */
  predicate AllSeated(ps: seq<Passenger>) {
    forall k :: 0 <= k < |ps| ==> ps[k].seatNumber.Some?
  }

  /** The clearing step of `handleSeatSelect` for an entry other than the chosen one. */
  function Evict(p: Passenger, seat: nat): Passenger {
    if p.seatNumber == Some(seat) then p.(seatNumber := None, berth := "") else p
  }

  /** The roster after `handleSeatSelect`: entry `i` takes `seat` and its berth label,
      and any other holder of `seat` loses its seat and berth. */
  function AssignSeat(ps: seq<Passenger>, i: nat, seat: nat, berth: string): (r: seq<Passenger>)
    requires i < |ps|
    ensures |r| == |ps|
  {
    seq(|ps|, k requires 0 <= k < |ps| =>
      if k == i then ps[i].(seatNumber := Some(seat), berth := berth) else Evict(ps[k], seat))
  }

  /** What `AssignSeat` does, entry by entry: the chosen entry holds the seat, nobody
      else does, entries that did not hold it are untouched, and no name, age,
      gender or category changes. */
  lemma AssignSeatEffect(ps: seq<Passenger>, i: nat, seat: nat, berth: string)
    requires i < |ps|
    ensures var r := AssignSeat(ps, i, seat, berth);
      && r[i].seatNumber == Some(seat) && r[i].berth == berth
      && (forall k :: 0 <= k < |ps| && k != i ==> r[k].seatNumber != Some(seat))
      && (forall k :: 0 <= k < |ps| && k != i && ps[k].seatNumber != Some(seat) ==> r[k] == ps[k])
      && (forall k :: 0 <= k < |ps| ==> r[k].(seatNumber := ps[k].seatNumber, berth := ps[k].berth) == ps[k])
  {
  }

  /** Seat exclusivity survives every seat selection. */
  lemma AssignSeatKeepsDistinct(ps: seq<Passenger>, i: nat, seat: nat, berth: string)
    requires i < |ps| && SeatsDistinct(ps)
    ensures SeatsDistinct(AssignSeat(ps, i, seat, berth))
  {
    var r := AssignSeat(ps, i, seat, berth);
    forall j, k | 0 <= j < k < |r| && r[j].seatNumber.Some?
      ensures r[j].seatNumber != r[k].seatNumber
    {
      if j != i && k != i {
        assert r[j].seatNumber == ps[j].seatNumber;
      }
    }
  }

  /** Selecting the same seat for the same entry a second time changes nothing. */
  lemma AssignSeatIdempotent(ps: seq<Passenger>, i: nat, seat: nat, berth: string)
    requires i < |ps|
    ensures AssignSeat(AssignSeat(ps, i, seat, berth), i, seat, berth) == AssignSeat(ps, i, seat, berth)
  {
    var r := AssignSeat(ps, i, seat, berth);
    var r2 := AssignSeat(r, i, seat, berth);
    forall k | 0 <= k < |ps| ensures r2[k] == r[k] {
    }
  }

  /** Seat 5 given to entry 0 and then to entry 1 ends with entry 1 holding it and entry 0 seatless. */
  lemma SecondSelectionTakesTheSeat(ps: seq<Passenger>, berth: string)
    requires |ps| >= 2
    ensures var r := AssignSeat(AssignSeat(ps, 0, 5, berth), 1, 5, berth);
      r[0].seatNumber == None && r[0].berth == "" && r[1].seatNumber == Some(5)
  {
  }

  /** A selected seat stays on the map. */
  lemma AssignSeatKeepsSeatsOnMap(ps: seq<Passenger>, i: nat, seat: nat, berth: string, seatCount: nat)
    requires i < |ps| && SeatsOnMap(ps, seatCount) && 1 <= seat <= seatCount
    ensures SeatsOnMap(AssignSeat(ps, i, seat, berth), seatCount)
  {
  }

  /** Seat selection touches no name or age, so it keeps the roster valid and the fares as they were. */
  lemma AssignSeatKeepsValidity(ps: seq<Passenger>, i: nat, seat: nat, berth: string)
    requires i < |ps|
    ensures AllPassengersValid(ps) ==> AllPassengersValid(AssignSeat(ps, i, seat, berth))
    ensures Categories(AssignSeat(ps, i, seat, berth)) == Categories(ps)
  {
  }

  /**
   * The seat dialog enables a seat only when nobody but the current entry
   * holds it (src/components/bookings/BookingPage.js:694-703); selecting
   * such a seat evicts nobody.
   */
  lemma NoEvictionWhenSeatFree(ps: seq<Passenger>, i: nat, seat: nat, berth: string)
    requires i < |ps|
    requires forall k :: 0 <= k < |ps| && ps[k].seatNumber == Some(seat) ==> k == i
    ensures forall k :: 0 <= k < |ps| && k != i ==> AssignSeat(ps, i, seat, berth)[k] == ps[k]
  {
  }

  /**
   * The body of `handleSeatSelect`: a pass over a copy of the roster that
   * clears every other holder of the seat, then the assignment to entry `i`.
   */
  method SelectSeatFor(ps: seq<Passenger>, i: nat, seat: nat, berth: string) returns (updated: seq<Passenger>)
    requires i < |ps|
    ensures updated == AssignSeat(ps, i, seat, berth)
  {
    updated := ps;
    var k := 0;
    while k < |updated|
      invariant |updated| == |ps| && k <= |ps|
      invariant forall j :: 0 <= j < k ==> updated[j] == if j == i then ps[j] else Evict(ps[j], seat)
      invariant forall j :: k <= j < |ps| ==> updated[j] == ps[j]
    {
      if k != i && updated[k].seatNumber == Some(seat) {
        updated := updated[k := updated[k].(seatNumber := None, berth := "")];
      }
      k := k + 1;
    }
    updated := updated[i := updated[i].(seatNumber := Some(seat), berth := berth)];
  }

  /** The age categories of the roster, in order: what the fare effect reads. */
  function Categories(ps: seq<Passenger>): (cats: seq<AgeCategory>)
    ensures |cats| == |ps|
    ensures forall k :: 0 <= k < |ps| ==> cats[k] == ps[k].ageCategory
  {
    seq(|ps|, k requires 0 <= k < |ps| => ps[k].ageCategory)
  }

  // ---- Roster bounds -----------------------------------------------------

  /** `splice(index, 1)`: the entry at `i` taken out, the rest in order. */
  function RemoveAt(ps: seq<Passenger>, i: nat): (r: seq<Passenger>)
    requires i < |ps|
    ensures |r| == |ps| - 1
    ensures forall k :: 0 <= k < i ==> r[k] == ps[k]
    ensures forall k :: i <= k < |r| ==> r[k] == ps[k + 1]
  {
    ps[..i] + ps[i + 1..]
  }

  lemma RemoveAtKeepsSeatInvariants(ps: seq<Passenger>, i: nat, seatCount: nat)
    requires i < |ps| && SeatsDistinct(ps) && SeatsOnMap(ps, seatCount)
    ensures SeatsDistinct(RemoveAt(ps, i)) && SeatsOnMap(RemoveAt(ps, i), seatCount)
  {
    var r := RemoveAt(ps, i);
    forall j, k | 0 <= j < k < |r| && r[j].seatNumber.Some?
      ensures r[j].seatNumber != r[k].seatNumber
    {
      var j', k' := if j < i then j else j + 1, if k < i then k else k + 1;
      assert r[j] == ps[j'] && r[k] == ps[k'] && j' < k';
    }
  }

  lemma AppendBlankKeepsSeatInvariants(ps: seq<Passenger>, seatCount: nat)
    requires SeatsDistinct(ps) && SeatsOnMap(ps, seatCount)
    ensures SeatsDistinct(ps + [BlankPassenger]) && SeatsOnMap(ps + [BlankPassenger], seatCount)
  {
  }

  lemma EditKeepsSeatInvariants(ps: seq<Passenger>, i: nat, e: Edit, seatCount: nat)
    requires i < |ps| && SeatsDistinct(ps) && SeatsOnMap(ps, seatCount)
    ensures SeatsDistinct(ps[i := ApplyEdit(ps[i], e)]) && SeatsOnMap(ps[i := ApplyEdit(ps[i], e)], seatCount)
  {
    var r := ps[i := ApplyEdit(ps[i], e)];
    assert forall k :: 0 <= k < |ps| ==> r[k].seatNumber == ps[k].seatNumber;
  }

  // ---- Validation --------------------------------------------------------

  /**
   * The number Yup reads from the age text: all `\s` removed, empty text is
   * `NaN`, then `Number(...)` of an integer literal (optionally signed
   * decimal digits, or `0x` hexadecimal digits).
   */
  function FormNumber(s: string): Option<int> {
    var t := JsText.RemoveSpaces(s);
    if t == [] then None
    else if (t[0] == '-' || t[0] == '+') && |t| > 1 && JsText.AllDigits(t[1..]) then
      var magnitude: int := JsText.DecimalValue(t[1..]);
      Some(if t[0] == '-' then -magnitude else magnitude)
    else if JsText.AllDigits(t) then Some(JsText.DecimalValue(t))
    else if |t| > 2 && t[0] == '0' && (t[1] == 'x' || t[1] == 'X') && JsText.AllHexDigits(t[2..]) then
      Some(JsText.HexValue(t[2..]))
    else None
  }

  /** name: required, at least 3 characters. */
  predicate NameValid(name: string) { |name| >= 3 }

  /** age: required, a positive integer, at most 120. */
  predicate AgeValid(age: string) {
    FormNumber(age).Some? && 1 <= FormNumber(age).value <= 120
  }

  /**
   * `passengerValidationSchema` on one entry.  Gender and category are
   * required too; here they are enumerations with no empty value, so those
   * two rules always pass.
   */
  predicate PassengerValid(p: Passenger) {
    NameValid(p.name) && AgeValid(p.age)
  }

  predicate AllPassengersValid(ps: seq<Passenger>) {
    forall k :: 0 <= k < |ps| ==> PassengerValid(ps[k])
  }

  /** The entry the page starts with does not pass validation: its name and age are empty. */
  lemma BlankPassengerInvalid()
    ensures !PassengerValid(BlankPassenger)
  {
  }

  /** Spaces around the digits are ignored by the form's number rule. */
  lemma SpacedAgeValid()
    ensures AgeValid(" 30 ")
  {
    assert JsText.RemoveSpaces(" 30 ") == "30";
    assert JsText.DecimalValue("30") == 30 by { assert "30"[..1] == "3"; }
  }

  /** 121 is over the limit. */
  lemma AgeOverLimitInvalid()
    ensures !AgeValid("121")
  {
    assert JsText.RemoveSpaces("121") == "121";
    assert JsText.DecimalValue("121") == 121 by { assert "121"[..2] == "12" && "12"[..1] == "1"; }
  }

  /** Zero is not positive, and text or empty text is not a number. */
  lemma NonPositiveOrTextAgeInvalid()
    ensures !AgeValid("0") && !AgeValid("abc") && !AgeValid("")
  {
    assert JsText.RemoveSpaces("0") == "0";
    assert JsText.RemoveSpaces("abc") == "abc";
  }

  /**
   * The loop of `handleNext` on step 0: validate each entry in order and stop
   * at the first that fails.
   */
  method ValidateAll(ps: seq<Passenger>) returns (isValid: bool)
    ensures isValid <==> AllPassengersValid(ps)
  {
    isValid := true;
    var k := 0;
    while k < |ps|
      invariant k <= |ps|
      invariant isValid && forall j :: 0 <= j < k ==> PassengerValid(ps[j])
    {
      if !PassengerValid(ps[k]) {
        isValid := false;
        break;
      }
      k := k + 1;
    }
  }
}
