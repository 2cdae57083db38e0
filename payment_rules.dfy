/**
 * The payment page's field rules (src/components/bookings/PaymentPage.js):
 * the regular expressions of `validatePaymentDetails` and `handleOtpSubmit`,
 * written as predicates, and `formatCardNumber`, which regroups a card
 * number into blocks of four when the field loses focus.
 */
module PaymentRules {
  import opened JsText

  /** `/^\d{16}$/.test(cardNumber.replace(/\s/g, ''))` */
  predicate CardNumberWellFormed(cardNumber: string) {
    var d := RemoveSpaces(cardNumber);
    |d| == 16 && AllDigits(d)
  }

  /** `/^\d{2}\/\d{2}$/`: two digits, a slash, two digits; the month is not range-checked. */
  predicate ExpiryWellFormed(expiry: string) {
    |expiry| == 5 && IsDigit(expiry[0]) && IsDigit(expiry[1]) && expiry[2] == '/'
    && IsDigit(expiry[3]) && IsDigit(expiry[4])
  }

  /** `/^\d{3,4}$/` */
  predicate CvvWellFormed(cvv: string) {
    3 <= |cvv| <= 4 && AllDigits(cvv)
  }

  /** `otp.length === 6 && /^\d+$/.test(otp)` */
  predicate OtpWellFormed(otp: string) {
    |otp| == 6 && AllDigits(otp)
  }

  /** `[a-zA-Z0-9.\-_]` */
  predicate IsUpiHandleChar(c: char) {
    IsLetter(c) || IsDigit(c) || c == '.' || c == '-' || c == '_'
  }

  /**
   * What `/^[a-zA-Z0-9.\-_]{2,49}@[a-zA-Z]{2,}/` matches: some split of the
   * input into 2 to 49 handle characters, an `@`, and at least two letters.
   * There is no `$`, so anything may follow.
   */
  ghost predicate UpiPatternMatches(upiId: string) {
    exists k :: MatchesWithHandle(upiId, k)
  }

  /** The pattern matches with the first `k` characters as the handle. */
  predicate MatchesWithHandle(upiId: string, k: int) {
    2 <= k <= 49 && k + 3 <= |upiId|
    && (forall i :: 0 <= i < k ==> IsUpiHandleChar(upiId[i]))
    && upiId[k] == '@' && IsLetter(upiId[k + 1]) && IsLetter(upiId[k + 2])
  }

  /** The length of the leading run of handle characters. */
  function HandleLength(s: string): (n: nat)
    ensures n <= |s|
    ensures forall i :: 0 <= i < n ==> IsUpiHandleChar(s[i])
    ensures n < |s| ==> !IsUpiHandleChar(s[n])
  {
    if s != [] && IsUpiHandleChar(s[0]) then 1 + HandleLength(s[1..]) else 0
  }

  /** The UPI check as a single left-to-right scan: `@` cannot be a handle
      character, so the only candidate split is the end of the leading run. */
  predicate UpiIdWellFormed(upiId: string) {
    var k := HandleLength(upiId);
    2 <= k <= 49 && k + 3 <= |upiId|
    && upiId[k] == '@' && IsLetter(upiId[k + 1]) && IsLetter(upiId[k + 2])
  }

  /** The scan accepts exactly what the regular expression matches. */
  lemma UpiIdWellFormedIffPattern(upiId: string)
    ensures UpiIdWellFormed(upiId) <==> UpiPatternMatches(upiId)
  {
    if UpiIdWellFormed(upiId) {
      ScanMatchesPattern(upiId);
    }
    if UpiPatternMatches(upiId) {
      PatternPassesScan(upiId);
    }
  }

  lemma ScanMatchesPattern(upiId: string)
    requires UpiIdWellFormed(upiId)
    ensures UpiPatternMatches(upiId)
  {
    assert MatchesWithHandle(upiId, HandleLength(upiId));
  }

  lemma PatternPassesScan(upiId: string)
    requires UpiPatternMatches(upiId)
    ensures UpiIdWellFormed(upiId)
  {
    var k :| MatchesWithHandle(upiId, k);
    assert !IsUpiHandleChar(upiId[k]);
    HandleLengthAt(upiId, k);
  }

  /** The leading run ends at the first character that is not a handle character. */
  lemma {:induction false} HandleLengthAt(s: string, k: nat)
    requires k < |s| && !IsUpiHandleChar(s[k])
    requires forall i :: 0 <= i < k ==> IsUpiHandleChar(s[i])
    ensures HandleLength(s) == k
  {
    if k > 0 {
      assert forall i :: 0 <= i < k - 1 ==> s[1..][i] == s[i + 1];
      HandleLengthAt(s[1..], k - 1);
    }
  }

  /** A well-formed UPI id may carry anything after the provider's first two letters. */
  lemma UpiTrailingTextAccepted()
    ensures UpiIdWellFormed("ab@cd!!")
  {
    HandleLengthAt("ab@cd!!", 2);
  }

  /** A one-character handle and an id without `@` are refused. */
  lemma UpiShortHandleRejected()
    ensures !UpiIdWellFormed("a@upi") && !UpiIdWellFormed("abc")
  {
    HandleLengthAt("a@upi", 1);
    assert HandleLength("abc") <= 3;
  }

  // ---- formatCardNumber

  /** `value.replace(/\s+/g, '').replace(/[^0-9]/gi, '')` */
  function CardDigits(value: string): (d: string)
    ensures AllDigits(d) && |d| <= |value|
  {
    OnlyDigits(RemoveSpaces(value))
  }

  /** The card digits are exactly the digits typed, each as often as typed. */
  lemma CardDigitsKeepsDigits(value: string)
    ensures forall c :: IsDigit(c) ==> multiset(CardDigits(value))[c] == multiset(value)[c]
  {
    RemoveSpacesKeepsOthers(value);
    OnlyDigitsKeepsDigits(RemoveSpaces(value));
  }

  function Min(a: int, b: int): int { if a <= b then a else b }

  /** The slices `match.substring(i, i + 4)` for i = 0, 4, 8, …: blocks of four,
      the last one possibly shorter. */
  function Chunks(d: string): (parts: seq<string>)
    ensures Concat(parts) == d
    ensures |parts| == (|d| + 3) / 4
    ensures AllDigits(d) ==> forall k :: 0 <= k < |parts| ==> AllDigits(parts[k])
  {
    if d == [] then []
    else if |d| <= 4 then [d]
    else
      var rest := Chunks(d[4..]);
      assert d == d[..4] + d[4..];
      [d[..4]] + rest
  }

  /** Every block has one to four digits, and all but the last exactly four. */
  lemma {:induction false} ChunksShape(d: string)
    ensures forall k :: 0 <= k < |Chunks(d)| ==> 1 <= |Chunks(d)[k]| <= 4
    ensures forall k :: 0 <= k < |Chunks(d)| - 1 ==> |Chunks(d)[k]| == 4
  {
    if |d| > 4 {
      ChunksShape(d[4..]);
    }
  }

  function Concat(parts: seq<string>): string {
    if parts == [] then [] else parts[0] + Concat(parts[1..])
  }

  /** `parts.join(' ')` */
  function Join(parts: seq<string>): string {
    if parts == [] then []
    else if |parts| == 1 then parts[0]
    else parts[0] + " " + Join(parts[1..])
  }

  /**
   * `(v.match(/\d{4,16}/g) || [''])[0]` on the string of digits `v`: its
   * first 4 to 16 digits, or nothing when it has fewer than four.
   */
  function FirstMatch(value: string): (m: string)
    ensures AllDigits(m) && |m| <= 16
    ensures m == [] || 4 <= |m|
  {
    var d := CardDigits(value);
    if |d| < 4 then [] else d[..Min(|d|, 16)]
  }

  /**
   * What the field holds after `formatCardNumber`: the first 4 to 16 digits
   * of the entry in blocks of four separated by single spaces; an entry with
   * fewer than four digits is left as typed.
   */
  function FormattedCardNumber(value: string): string {
    var m := FirstMatch(value);
    if m == [] then value else Join(Chunks(m))
  }

  /**
   * `formatCardNumber` with its loop over the matched digits.  The only
   * match of `/\d{4,16}/g` that is read is the first, which on a string of
   * digits starts at 0 and takes up to 16 of them.
   */
  method FormatCardNumber(value: string) returns (r: string)
    ensures r == FormattedCardNumber(value)
  {
    var m := FirstMatch(value);
    var parts := BlocksOfFour(m);
    if |parts| > 0 {
      r := Join(parts);
    } else {
      r := value;
    }
  }

  /** The loop `for (let i = 0; i < match.length; i += 4)` collecting the blocks. */
  method BlocksOfFour(m: string) returns (parts: seq<string>)
    ensures parts == Chunks(m)
  {
    parts := [];
    var i := 0;
    while i < |m|
      invariant i < |m| + 4
      invariant parts + Chunks(m[Min(i, |m|)..]) == Chunks(m)
    {
      var block := m[i..Min(i + 4, |m|)];
      ChunksLoopStep(m, i, parts);
      parts := parts + [block];
      i := i + 4;
    }
    ChunksLoopEnd(m, i, parts);
  }

  /** One turn of the loop: the blocks from `i` on are the block at `i` and the blocks after it. */
  lemma ChunksStep(m: string, i: nat)
    requires i < |m|
    ensures Chunks(m[i..]) == [m[i..Min(i + 4, |m|)]] + Chunks(m[Min(i + 4, |m|)..])
  {
    var rest := m[i..];
    if |rest| <= 4 {
      assert m[i..Min(i + 4, |m|)] == rest;
      assert m[Min(i + 4, |m|)..] == [];
    } else {
      assert rest[..4] == m[i..i + 4] && rest[4..] == m[i + 4..];
    }
  }

  lemma ChunksLoopStep(m: string, i: nat, parts: seq<string>)
    requires i < |m|
    ensures (parts + [m[i..Min(i + 4, |m|)]]) + Chunks(m[Min(i + 4, |m|)..]) == parts + Chunks(m[Min(i, |m|)..])
  {
    ChunksStep(m, i);
    assert Min(i, |m|) == i;
  }

  lemma ChunksLoopEnd(m: string, i: nat, parts: seq<string>)
    requires i >= |m| && parts + Chunks(m[Min(i, |m|)..]) == Chunks(m)
    ensures parts == Chunks(m)
  {
    assert m[Min(i, |m|)..] == [];
  }

  /** Dropping the spaces of the joined blocks gives back the blocks run together. */
  lemma {:induction false} RemoveSpacesOfJoin(parts: seq<string>)
    requires forall k :: 0 <= k < |parts| ==> NoSpaces(parts[k])
    ensures RemoveSpaces(Join(parts)) == Concat(parts)
  {
    if |parts| == 1 {
      assert Concat(parts[1..]) == [];
      assert parts[0] + [] == parts[0];
    } else if |parts| > 1 {
      RemoveSpacesOfJoin(parts[1..]);
      RemoveSpacesAppend(parts[0] + " ", Join(parts[1..]));
      RemoveSpacesAppend(parts[0], " ");
      assert RemoveSpaces(" ") == [];
    }
  }

  /** The formatted field, with its spaces dropped, is the block of digits it was built from. */
  lemma FormattedDigits(value: string)
    requires FirstMatch(value) != []
    ensures RemoveSpaces(FormattedCardNumber(value)) == FirstMatch(value)
  {
    RemoveSpacesOfJoin(Chunks(FirstMatch(value)));
  }

  /**
   * What the field shows after formatting: an entry with fewer than four
   * digits is left as typed; otherwise, spaces aside, the field holds the
   * entry's first digits, sixteen at most.
   */
  lemma FormattedCardNumberDigits(value: string)
    ensures var d := CardDigits(value);
      && (|d| < 4 ==> FormattedCardNumber(value) == value)
      && (|d| >= 4 ==> RemoveSpaces(FormattedCardNumber(value)) == d[..Min(|d|, 16)])
  {
    if FirstMatch(value) != [] {
      FormattedDigits(value);
    }
  }

  /** Formatting is idempotent: blurring the field a second time changes nothing. */
  lemma FormatCardNumberIdempotent(value: string)
    ensures FormattedCardNumber(FormattedCardNumber(value)) == FormattedCardNumber(value)
  {
    var m := FirstMatch(value);
    if m != [] {
      var r := FormattedCardNumber(value);
      FormattedDigits(value);
      assert CardDigits(r) == m;
      assert m[..Min(|m|, 16)] == m;
      assert FirstMatch(r) == m;
    }
  }

  /**
   * After formatting, the card number passes the 16-digit rule exactly when
   * the entry held at least 16 digits: formatting never spoils a long enough
   * number and never makes a short one pass.
   */
  lemma FormattedCardNumberWellFormedIff(value: string)
    ensures CardNumberWellFormed(FormattedCardNumber(value)) <==> |CardDigits(value)| >= 16
  {
    if FirstMatch(value) != [] {
      FormattedDigits(value);
    } else if AllDigits(RemoveSpaces(value)) {
      assert CardDigits(value) == RemoveSpaces(value);
    }
  }

  /** A card number that already passes keeps its 16 digits through formatting. */
  lemma FormattingKeepsWellFormedCard(value: string)
    requires CardNumberWellFormed(value)
    ensures CardNumberWellFormed(FormattedCardNumber(value))
    ensures CardDigits(FormattedCardNumber(value)) == CardDigits(value)
  {
    var d := CardDigits(value);
    assert d == RemoveSpaces(value);
    assert FirstMatch(value) == d;
    FormattedCardNumberWellFormedIff(value);
    FormattedDigits(value);
  }
}
