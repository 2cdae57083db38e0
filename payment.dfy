/**
 * The payment page's controller (src/components/bookings/PaymentPage.js):
 * three steps (Review Booking, Select Payment Method, Payment), field
 * validation with per-field error messages, a confirmation dialog, a
 * simulated settlement delay, and a one-time-password dialog for cards and
 * net banking.  The two `setTimeout` delays are a pending timer that the
 * environment fires with `TimerFired`; navigating to the confirmation page
 * is the `completed` flag.
 */
module Payment {
  import opened Wrappers
  import opened Fares
  import opened PaymentRules
  import Booking
  import JsText

  datatype PaymentMethod = CreditCard | Upi | NetBanking

  /** The keys of the page's `errors` object. */
  datatype PayField = CardNumber | NameOnCard | ExpiryDate | Cvv | UpiId | Bank | Otp

  /** `paymentMethod`, `cardDetails`, `upiDetails` and `netBankingDetails`. */
  datatype PaymentDetails = PaymentDetails(
    paymentMethod: PaymentMethod,
    cardNumber: string,
    nameOnCard: string,
    expiryDate: string,
    cvv: string,
    upiId: string,
    bank: string)

  const NoDetails := PaymentDetails(CreditCard, "", "", "", "", "", "")

  /** The fields the form shows, and validation reads, for each method. */
  function FieldsOf(m: PaymentMethod): (fields: set<PayField>)
    ensures Otp !in fields && fields != {}
  {
    match m
    case CreditCard => {CardNumber, NameOnCard, ExpiryDate, Cvv}
    case Upi => {UpiId}
    case NetBanking => {Bank}
  }

  /** The text of one field (`""` for the OTP, which is not part of the details). */
  function FieldText(d: PaymentDetails, f: PayField): string {
    match f
    case CardNumber => d.cardNumber
    case NameOnCard => d.nameOnCard
    case ExpiryDate => d.expiryDate
    case Cvv => d.cvv
    case UpiId => d.upiId
    case Bank => d.bank
    case Otp => ""
  }

  /** The same details with field `f` replaced by `text`. */
  function WithField(d: PaymentDetails, f: PayField, text: string): (e: PaymentDetails)
    requires f != Otp
    ensures e.paymentMethod == d.paymentMethod && FieldText(e, f) == text
    ensures forall g :: g != f ==> FieldText(e, g) == FieldText(d, g)
  {
    match f
    case CardNumber => d.(cardNumber := text)
    case NameOnCard => d.(nameOnCard := text)
    case ExpiryDate => d.(expiryDate := text)
    case Cvv => d.(cvv := text)
    case UpiId => d.(upiId := text)
    case Bank => d.(bank := text)
  }

  /** The message for a field left empty. */
  function RequiredMessage(f: PayField): string {
    match f
    case CardNumber => "Card number is required"
    case NameOnCard => "Name is required"
    case ExpiryDate => "Expiry date is required"
    case Cvv => "CVV is required"
    case UpiId => "UPI ID is required"
    case Bank => "Please select a bank"
    case Otp => "Please enter a valid 6-digit OTP"
  }

  /** The message for a field filled in but failing its pattern. */
  function FormatMessage(f: PayField): string {
    match f
    case CardNumber => "Invalid card number"
    case ExpiryDate => "Use MM/YY format"
    case Cvv => "Invalid CVV"
    case UpiId => "Invalid UPI ID"
    case _ => RequiredMessage(f)
  }

  const OtpMessage := "Please enter a valid 6-digit OTP"

  /** One field passes: filled in, and matching its pattern where it has one. */
  predicate FieldAccepted(d: PaymentDetails, f: PayField) {
    match f
    case CardNumber => d.cardNumber != "" && CardNumberWellFormed(d.cardNumber)
    case NameOnCard => d.nameOnCard != ""
    case ExpiryDate => ExpiryWellFormed(d.expiryDate)
    case Cvv => CvvWellFormed(d.cvv)
    case UpiId => UpiIdWellFormed(d.upiId)
    case Bank => d.bank != ""
    case Otp => true
  }

  /** The details can be paid with: every field of the chosen method passes. */
  predicate DetailsAccepted(d: PaymentDetails) {
    match d.paymentMethod
    case CreditCard =>
      d.cardNumber != "" && CardNumberWellFormed(d.cardNumber) && d.nameOnCard != ""
      && ExpiryWellFormed(d.expiryDate) && CvvWellFormed(d.cvv)
    case Upi => UpiIdWellFormed(d.upiId)
    case NetBanking => d.bank != ""
  }

  /** The message `validatePaymentDetails` gives a failing field. */
  function ErrorMessage(d: PaymentDetails, f: PayField): (msg: string)
    requires f != Otp && !FieldAccepted(d, f)
    ensures msg == RequiredMessage(f) <==> FieldText(d, f) == ""
  {
    if FieldText(d, f) == "" then RequiredMessage(f) else FormatMessage(f)
  }

  /** One `if (!x) … else if (!/…/.test(x)) …` step of the validator: an error for
      `f` exactly when `f` fails. */
  function CheckField(errs: map<PayField, string>, d: PaymentDetails, f: PayField): (r: map<PayField, string>)
    requires f != Otp
    ensures r == if FieldAccepted(d, f) then errs else errs[f := ErrorMessage(d, f)]
  {
    if FieldText(d, f) == "" then errs[f := RequiredMessage(f)]
    else if !FieldAccepted(d, f) then errs[f := FormatMessage(f)]
    else errs
  }

  /** The credit-card branch of the validator: card number, name, expiry, CVV, in that order. */
  function CardErrors(d: PaymentDetails): map<PayField, string> {
    var afterNumber := CheckField(map[], d, CardNumber);
    var afterName := CheckField(afterNumber, d, NameOnCard);
    var afterExpiry := CheckField(afterName, d, ExpiryDate);
    CheckField(afterExpiry, d, Cvv)
  }

  /** `validatePaymentDetails`: the checks of the chosen method's fields. */
  function ValidationErrors(d: PaymentDetails): map<PayField, string> {
    match d.paymentMethod
    case CreditCard => CardErrors(d)
    case Upi => CheckField(map[], d, UpiId)
    case NetBanking => CheckField(map[], d, Bank)
  }

  /**
   * The validator reports field `f` exactly when `f` belongs to the chosen
   * method and fails, and its message says "required" exactly when `f` is
   * empty.
   */
  lemma ValidationErrorsField(d: PaymentDetails, f: PayField)
    ensures f in ValidationErrors(d) <==> f in FieldsOf(d.paymentMethod) && !FieldAccepted(d, f)
    ensures f in ValidationErrors(d) ==>
      f != Otp && !FieldAccepted(d, f) && ValidationErrors(d)[f] == ErrorMessage(d, f)
    ensures f in ValidationErrors(d) ==> (ValidationErrors(d)[f] == RequiredMessage(f) <==> FieldText(d, f) == "")
  {
    match d.paymentMethod
    case CreditCard =>
      CardErrorsField(d, f);
    case Upi =>
      CheckFieldAt(map[], d, UpiId, f);
    case NetBanking =>
      CheckFieldAt(map[], d, Bank, f);
  }

  /** The card branch reports field `f` exactly when `f` is one of the four card fields and fails. */
  lemma CardErrorsField(d: PaymentDetails, f: PayField)
    ensures f in CardErrors(d) <==> f in FieldsOf(CreditCard) && !FieldAccepted(d, f)
    ensures f in CardErrors(d) ==> f != Otp && !FieldAccepted(d, f) && CardErrors(d)[f] == ErrorMessage(d, f)
  {
    var afterNumber := CheckField(map[], d, CardNumber);
    var afterName := CheckField(afterNumber, d, NameOnCard);
    var afterExpiry := CheckField(afterName, d, ExpiryDate);
    assert CardErrors(d) == CheckField(afterExpiry, d, Cvv);
    CheckFieldAt(afterExpiry, d, Cvv, f);
    if f != Cvv {
      CheckFieldAt(afterName, d, ExpiryDate, f);
      if f != ExpiryDate {
        CheckFieldAt(afterNumber, d, NameOnCard, f);
        if f != NameOnCard {
          CheckFieldAt(map[], d, CardNumber, f);
        }
      }
    }
  }

  /** One validator step, seen from field `g`: it gains `f`'s error when `f` fails and
      keeps every other entry. */
  lemma CheckFieldAt(errs: map<PayField, string>, d: PaymentDetails, f: PayField, g: PayField)
    requires f != Otp
    ensures g in CheckField(errs, d, f) <==> g in errs || (g == f && !FieldAccepted(d, f))
    ensures g == f && !FieldAccepted(d, f) ==> CheckField(errs, d, f)[g] == ErrorMessage(d, f)
    ensures g != f && g in errs ==> CheckField(errs, d, f)[g] == errs[g]
  {
  }

  /** No errors exactly when the details can be paid with. */
  lemma ValidationErrorsEmptyIff(d: PaymentDetails)
    ensures ValidationErrors(d) == map[] <==> DetailsAccepted(d)
  {
    forall f | f in FieldsOf(d.paymentMethod) {
      ValidationErrorsField(d, f);
    }
    if DetailsAccepted(d) {
      forall f | f in ValidationErrors(d)
        ensures false
      {
        ValidationErrorsField(d, f);
      }
      assert ValidationErrors(d).Keys == {};
    }
  }

  predicate AtMostOne(a: bool, b: bool, c: bool, d: bool) {
    (a ==> !b && !c && !d) && (b ==> !c && !d) && (c ==> !d)
  }

  /** The pending `setTimeout`: settlement after Confirm Payment, verification after Verify OTP. */
  datatype PendingTimer = NoTimer | SettlementTimer | OtpTimer

  const ReviewBooking: nat := 0
  const SelectPaymentMethod: nat := 1
  const MakePayment: nat := 2

  class PaymentSession {
    const bookingId: nat
    const fare: FareLines

    var details: PaymentDetails
    var activeStep: nat
    var processing: bool
    var pending: PendingTimer
    var confirmOpen: bool
    var otpOpen: bool
    var otp: string
    var errors: map<PayField, string>
    var completed: bool

    /**
     * The session invariant.  The confirmation dialog, the OTP dialog, the
     * processing screen and the confirmation page are reached only from the
     * Payment step with accepted details, and at most one of them is up at a
     * time; the OTP dialog and its timer exist only for cards and net
     * banking, and the OTP timer only runs on a well-formed OTP.  Hence the
     * payment completes only with accepted details and, off UPI, a
     * well-formed OTP.
     */
    ghost predicate Valid()
      reads this
    {
      && activeStep <= MakePayment
      && (processing <==> pending != NoTimer)
      && (confirmOpen || otpOpen || processing || completed ==>
            activeStep == MakePayment && DetailsAccepted(details))
      && AtMostOne(confirmOpen, otpOpen, processing, completed)
      && (otpOpen ==> details.paymentMethod != Upi)
      && (pending == OtpTimer ==> details.paymentMethod != Upi && OtpWellFormed(otp))
      && (completed && details.paymentMethod != Upi ==> OtpWellFormed(otp))
    }

    /** No dialog, no processing screen, still on this page: the form and its buttons respond. */
    predicate Interactive()
      reads this
    {
      !confirmOpen && !otpOpen && !processing && !completed
    }

    /**
     * The page given the booking request.  The fare lines are the page's own
     * split of the received total (see `Fares.SplitReceivedTotal`), which
     * need not add up to that total (`Fares.SplitReceivedTotalDisagrees`).
     */
    constructor (request: Booking.BookingRequest)
      ensures Valid() && Interactive()
      ensures bookingId == request.bookingId
      ensures fare == SplitReceivedTotal(request.totalAmount)
      ensures fare.totalFare == request.totalAmount
      ensures details == NoDetails && activeStep == ReviewBooking
      ensures errors == map[] && otp == "" && pending == NoTimer
    {
      bookingId := request.bookingId;
      fare := SplitReceivedTotal(request.totalAmount);
      details := NoDetails;
      activeStep := ReviewBooking;
      processing := false;
      pending := NoTimer;
      confirmOpen := false;
      otpOpen := false;
      otp := "";
      errors := map[];
      completed := false;
    }

    /** The payment method radio group, shown on step 1. */
    method SelectMethod(m: PaymentMethod)
      requires Valid() && Interactive() && activeStep == SelectPaymentMethod
      modifies this`details
      ensures Valid() && Interactive()
      ensures details == old(details).(paymentMethod := m)
    {
      details := details.(paymentMethod := m);
    }

    /** `handleCardDetailsChange`, `handleUpiDetailsChange`, `handleNetBankingChange`:
        the field takes the typed text and its error is cleared. */
    method EditField(f: PayField, text: string)
      requires Valid() && Interactive() && activeStep == MakePayment && f in FieldsOf(details.paymentMethod)
      modifies this`details, this`errors
      ensures Valid() && Interactive()
      ensures details == WithField(old(details), f, text)
      ensures errors == old(errors) - {f}
    {
      details := WithField(details, f, text);
      errors := errors - {f};
    }

    /** The card number field's `onBlur`: the number regrouped by `formatCardNumber`. */
    method BlurCardNumber()
      requires Valid() && Interactive() && activeStep == MakePayment && details.paymentMethod == CreditCard
      modifies this`details
      ensures Valid() && Interactive()
      ensures details == old(details).(cardNumber := FormattedCardNumber(old(details).cardNumber))
      ensures CardNumberWellFormed(old(details).cardNumber) ==> CardNumberWellFormed(details.cardNumber)
    {
      var formatted := FormatCardNumber(details.cardNumber);
      if CardNumberWellFormed(details.cardNumber) {
        FormattingKeepsWellFormedCard(details.cardNumber);
      }
      details := details.(cardNumber := formatted);
    }

    /**
     * `handleNext`: Review Booking and Select Payment Method simply advance;
     * on Payment the details are validated and either the confirmation
     * dialog opens or the errors are shown.
     */
    method Next()
      requires Valid() && Interactive()
      modifies this`activeStep, this`confirmOpen, this`errors
      ensures Valid()
      ensures old(activeStep) < MakePayment ==>
        activeStep == old(activeStep) + 1 && Interactive() && errors == old(errors)
      ensures old(activeStep) == MakePayment ==> activeStep == MakePayment
      ensures old(activeStep) == MakePayment ==>
        (confirmOpen <==> DetailsAccepted(details))
        && errors == if DetailsAccepted(details) then old(errors) else ValidationErrors(details)
    {
      if activeStep == ReviewBooking {
        activeStep := SelectPaymentMethod;
      } else if activeStep == SelectPaymentMethod {
        activeStep := MakePayment;
      } else {
        var newErrors := ValidationErrors(details);
        ValidationErrorsEmptyIff(details);
        if newErrors == map[] {
          confirmOpen := true;
        } else {
          errors := newErrors;
        }
      }
    }

    /** `handleBack`; the Back button is disabled on the first step. */
    method Back()
      requires Valid() && Interactive() && activeStep > ReviewBooking
      modifies this`activeStep
      ensures Valid() && Interactive() && activeStep == old(activeStep) - 1
    {
      activeStep := activeStep - 1;
    }

    /** The confirmation dialog's Cancel button, or a click outside it. */
    method CancelConfirm()
      requires Valid() && confirmOpen
      modifies this`confirmOpen
      ensures Valid() && Interactive()
    {
      confirmOpen := false;
    }

    /** `handleConfirmPayment`: the dialog closes, the processing screen shows and
        the settlement timer starts. */
    method ConfirmPayment()
      requires Valid() && confirmOpen
      modifies this`confirmOpen, this`processing, this`pending
      ensures Valid()
      ensures !confirmOpen && processing && pending == SettlementTimer
    {
      confirmOpen := false;
      processing := true;
      pending := SettlementTimer;
    }

    /**
     * A pending timer fires.  After settlement a card or net-banking payment
     * asks for the OTP and a UPI payment completes; after OTP verification
     * the payment completes.
     */
    method TimerFired()
      requires Valid() && pending != NoTimer
      modifies this`processing, this`pending, this`otpOpen, this`completed
      ensures Valid() && !processing && pending == NoTimer
      ensures old(pending) == SettlementTimer ==>
        (otpOpen <==> details.paymentMethod != Upi) && (completed <==> details.paymentMethod == Upi)
      ensures old(pending) == OtpTimer ==> completed && !otpOpen
      ensures completed ==> DetailsAccepted(details) && (details.paymentMethod == Upi || OtpWellFormed(otp))
    {
      var timer := pending;
      processing := false;
      pending := NoTimer;
      if timer == SettlementTimer {
        if details.paymentMethod == CreditCard || details.paymentMethod == NetBanking {
          otpOpen := true;
        } else {
          completed := true;
        }
      } else {
        completed := true;
      }
    }

    /** The OTP field's `onChange`: the text is taken and its error cleared. */
    method EditOtp(text: string)
      requires Valid() && otpOpen
      modifies this`otp, this`errors
      ensures Valid() && otpOpen
      ensures otp == text && errors == old(errors) - {Otp}
    {
      otp := text;
      errors := errors - {Otp};
    }

    /** `handleOtpSubmit`: a malformed OTP only sets its error; a well-formed one closes
        the dialog and starts verification. */
    method SubmitOtp()
      requires Valid() && otpOpen
      modifies this`otpOpen, this`processing, this`pending, this`errors
      ensures Valid()
      ensures !OtpWellFormed(otp) ==>
        otpOpen && !processing && errors == old(errors)[Otp := OtpMessage]
      ensures OtpWellFormed(otp) ==>
        !otpOpen && processing && pending == OtpTimer && errors == old(errors)
    {
      if |otp| != 6 || !JsText.AllDigits(otp) {
        errors := errors[Otp := OtpMessage];
        return;
      }
      otpOpen := false;
      processing := true;
      pending := OtpTimer;
    }

    /** The OTP dialog's Cancel button, or a click outside it. */
    method CancelOtp()
      requires Valid() && otpOpen
      modifies this`otpOpen
      ensures Valid() && Interactive()
    {
      otpOpen := false;
    }
  }
}
