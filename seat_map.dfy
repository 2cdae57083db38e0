/**
 * The seat map of one coach class (`generateAvailableSeats`,
 * src/components/bookings/BookingPage.js:104-126): seats numbered from 1,
 * six to a row with the letters A to F, and a berth position for sleeper
 * and AC classes.  The random availability draw is a parameter.
 */
module SeatMap {
  import opened Wrappers
  import JsText

  datatype Berth = Lower | Middle | Upper

  datatype Seat = Seat(number: nat, position: Option<Berth>, code: string, available: bool)

  const SeatsPerRow := 6
  const RowLetters := "ABCDEF"

  /** The berth of the seat in column `j` of a row: Lower, Middle, Upper, twice. */
  function BerthAt(j: nat): Berth
    requires j < 6
  {
    [Lower, Middle, Upper, Lower, Middle, Upper][j]
  }

  /** The text the passenger's berth field receives: `seat.position || ''`. */
  function BerthLabel(position: Option<Berth>): string {
    match position
    case None => ""
    case Some(Lower) => "Lower"
    case Some(Middle) => "Middle"
    case Some(Upper) => "Upper"
  }

  /** Berths are shown for the sleeper class and for every class code containing `A`. */
  predicate HasBerths(classType: string) {
    classType == "SL" || 'A' in classType
  }

  /** The seat with number `n` as the generator builds it. */
  function SeatAt(classType: string, n: nat, available: nat -> bool): Seat
    requires n >= 1
  {
    var j := (n - 1) % SeatsPerRow;
    Seat(n,
         if HasBerths(classType) then Some(BerthAt(j)) else None,
         JsText.NatToString((n - 1) / SeatsPerRow + 1) + [RowLetters[j]],
         available(n))
  }

  /**
   * The nested loops of the generator: `ceil(count / 6)` rows, each filled
   * left to right while seat numbers last.  The result is exactly `count`
   * seats, the k-th numbered k + 1.
   */
  method GenerateSeats(classType: string, count: nat, available: nat -> bool) returns (seats: seq<Seat>)
    ensures |seats| == count
    ensures forall k :: 0 <= k < count ==> seats[k].number == k + 1
    ensures forall k :: 0 <= k < count ==> seats[k] == SeatAt(classType, k + 1, available)
  {
    seats := [];
    var rows := (count + SeatsPerRow - 1) / SeatsPerRow;
    var seatNumber := 1;
    var i := 1;
    while i <= rows
      invariant 1 <= i <= rows + 1
      invariant seatNumber == |seats| + 1
      invariant |seats| == if (i - 1) * 6 <= count then (i - 1) * 6 else count
      invariant forall k :: 0 <= k < |seats| ==> seats[k] == SeatAt(classType, k + 1, available)
    {
      var j := 0;
      while j < SeatsPerRow && seatNumber <= count
        invariant 0 <= j <= 6
        invariant seatNumber == |seats| + 1
        invariant |seats| == (i - 1) * 6 + j && |seats| <= count
        invariant forall k :: 0 <= k < |seats| ==> seats[k] == SeatAt(classType, k + 1, available)
      {
        var position := if HasBerths(classType) then Some(BerthAt(j)) else None;
        var code := JsText.NatToString(i) + [RowLetters[j]];
        RowAndColumn(i, j);
        seats := seats + [Seat(seatNumber, position, code, available(seatNumber))];
        seatNumber := seatNumber + 1;
        j := j + 1;
      }
      i := i + 1;
    }
  }

  lemma RowAndColumn(i: nat, j: nat)
    requires i >= 1 && j < 6
    ensures ((i - 1) * 6 + j) / 6 + 1 == i && ((i - 1) * 6 + j) % 6 == j
  {
  }

  /** Positions cycle Lower, Middle, Upper from seat 1 on, for berthed classes only. */
  lemma SeatPositionCycles(classType: string, n: nat, available: nat -> bool)
    requires n >= 1
    ensures SeatAt(classType, n, available).position ==
            if HasBerths(classType) then Some([Lower, Middle, Upper][(n - 1) % 3]) else None
  {
  }

  /** A seat's code determines its number: the row prints back to itself and the letter gives the column. */
  lemma SeatCodeDeterminesNumber(classType: string, m: nat, n: nat, available: nat -> bool)
    requires m >= 1 && n >= 1
    requires SeatAt(classType, m, available).code == SeatAt(classType, n, available).code
    ensures m == n
  {
    var rm, rn := (m - 1) / 6 + 1, (n - 1) / 6 + 1;
    var jm, jn := (m - 1) % 6, (n - 1) % 6;
    SplitCode(JsText.NatToString(rm), RowLetters[jm], JsText.NatToString(rn), RowLetters[jn]);
    NatToStringInjective(rm, rn);
    RowLetterInjective(jm, jn);
    SameRowAndColumn(m - 1, n - 1);
  }

  lemma SplitCode(a: string, x: char, b: string, y: char)
    requires a + [x] == b + [y]
    ensures a == b && x == y
  {
    var code := a + [x];
    assert a == code[..|code| - 1] == b;
  }

  lemma NatToStringInjective(x: nat, y: nat)
    requires JsText.NatToString(x) == JsText.NatToString(y)
    ensures x == y
  {
    JsText.DecimalValueOfNatToString(x);
    JsText.DecimalValueOfNatToString(y);
  }

  lemma RowLetterInjective(i: nat, j: nat)
    requires i < 6 && j < 6 && RowLetters[i] == RowLetters[j]
    ensures i == j
  {
  }

  lemma SameRowAndColumn(x: nat, y: nat)
    requires x / 6 == y / 6 && x % 6 == y % 6
    ensures x == y
  {
  }
}
