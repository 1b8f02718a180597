/** The per-customer driver check-in page (src/DriverCheckIn.jsx): the
    `pickupFormats` table, `isValidPickup` on the raw input, and `submit`,
    which checks the required fields, then the format, then inserts a
    waiting check-in and clears the six fields. The insert is an append to
    `rows`; its error message is a parameter. */
module DriverCheckIn {
  import opened Text
  import opened Optional
  import opened DriverCheckInForm

  /** The keys of `pickupFormats`, the options of the customer select. */
  datatype Customer = TateAndLyle | Primient | Adm | SolutionsDirect

  /** The key as the select's value carries it. */
  function CustomerName(c: Customer): string {
    match c
    case TateAndLyle => "Tate & Lyle"
    case Primient => "Primient"
    case Adm => "ADM"
    case SolutionsDirect => "Solutions Direct"
  }

  /** The regular expression of a customer, tried on the pickup as typed. */
  predicate FormatMatches(c: Customer, pickup: string) {
    match c
    case TateAndLyle => PrefixDigits(pickup, "2", 6) || PrefixDigits(pickup, "8", 7) || PrefixDigits(pickup, "44", 8)
    case Primient => PrefixDigits(pickup, "4", 6) || PrefixDigits(pickup, "8", 7)
    case Adm => PrefixDigits(pickup, "", 6)
    case SolutionsDirect => PrefixDigits(pickup, "TLNA-SO-00", 6)
  }

  /** `isValidPickup`; no customer chosen (the empty select value) is `None`. */
  function IsValidPickup(customer: Option<Customer>, pickup: string): (ok: bool)
    ensures ok ==> customer.Some? && |pickup| in {6, 7, 8, 10, 16}
  {
    customer.Some? && FormatMatches(customer.value, pickup)
  }

  /** The pickup is tested as typed: an accepted one holds no white space and
      no lower-case letter, so padding or lower case is refused. */
  lemma ValidPickupIsRaw(customer: Option<Customer>, pickup: string)
    requires IsValidPickup(customer, pickup)
    ensures forall i | 0 <= i < |pickup| :: !IsWhitespace(pickup[i])
    ensures NoLowerCase(pickup)
  {
    var k := |pickup| - (if customer == Some(SolutionsDirect) then 6 else if |pickup| == 10 then 8 else if |pickup| == 6 then 6 else |pickup| - 1);
    assert forall i | k <= i < |pickup| :: pickup[i] == pickup[k..][i - k];
    assert forall i | 0 <= i < k :: pickup[i] == pickup[..k][i];
  }

  /** Every pickup a customer other than Solutions Direct accepts is accepted
      by the form's customer-agnostic validator too. */
  lemma CustomerFormatsWithinForm(customer: Option<Customer>, pickup: string)
    requires IsValidPickup(customer, pickup) && customer != Some(SolutionsDirect)
    ensures ValidatePickupNumber(pickup)
  {
    ValidPickupIsRaw(customer, pickup);
    RemoveWhitespaceAbsent(pickup);
    UpperUnchanged(pickup);
    assert Cleaned(pickup) == pickup;
  }

  /** The two validators disagree on Solutions Direct numbers: the form
      takes four digits after "TLNA-SO-00", which no customer here accepts... */
  lemma FourDigitOrderNumber()
    ensures ValidatePickupNumber("TLNA-SO-001234")
    ensures forall c: Option<Customer> :: !IsValidPickup(c, "TLNA-SO-001234")
  {
    var four := "TLNA-SO-001234";
    CleanedOfPlain(four);
    assert four[..10] == "TLNA-SO-00" && AllDigits(four[10..]);
    assert !IsDigit(four[0]);
  }

  /** ... while this page takes six, which the form refuses. */
  lemma SixDigitOrderNumber()
    ensures IsValidPickup(Some(SolutionsDirect), "TLNA-SO-00123456")
    ensures !ValidatePickupNumber("TLNA-SO-00123456")
  {
    var six := "TLNA-SO-00123456";
    CleanedOfPlain(six);
    assert six[..10] == "TLNA-SO-00" && AllDigits(six[10..]);
    assert !IsDigit(six[0]);
    AcceptedByLength(six);
  }

  // ---- The page ----

  const MissingFields := "\U{274C} Please fill out all required fields."
  const InvalidFormat := "\U{274C} Pickup number format is invalid."
  const CheckedIn := "\U{2705} Check-in successful. Please wait for assignment."

  /** A row of `driver_checkins`; `Number(trailer)` is kept as the text typed. */
  datatype DriverRow = DriverRow(
    customer: Option<Customer>,
    pickupNumber: string,
    trailerLength: string,
    phone: string,
    city: string,
    state: string,
    status: string)

  /** A row this page may insert: every required field filled, a pickup the
      customer's format accepts, and the status "waiting". */
  predicate IsSubmittedRow(r: DriverRow) {
    && r.customer.Some? && r.pickupNumber != "" && r.phone != "" && r.city != "" && r.state != ""
    && IsValidPickup(r.customer, r.pickupNumber) && r.status == "waiting"
  }

  class DriverCheckInPage {
    var customer: Option<Customer>
    var pickup: string
    var trailer: string
    var phone: string
    var city: string
    var state: string
    var msg: string
    var loading: bool
    var rows: seq<DriverRow>

    predicate Valid()
      reads this
    {
      forall i | 0 <= i < |rows| :: IsSubmittedRow(rows[i])
    }

    constructor ()
      ensures customer == None && pickup == "" && trailer == "" && phone == "" && city == "" && state == ""
      ensures msg == "" && !loading && rows == [] && Valid()
    {
      customer := None;
      pickup := "";
      trailer := "";
      phone := "";
      city := "";
      state := "";
      msg := "";
      loading := false;
      rows := [];
    }

    predicate Missing()
      reads this
    {
      customer == None || pickup == "" || phone == "" || city == "" || state == ""
    }

    /** `submit`; `insertError` is the message of the insert's error, if it
        fails. */
    method Submit(insertError: Option<string>)
      requires Valid()
      modifies this
      ensures Valid()
      ensures old(Missing()) ==> msg == MissingFields && rows == old(rows) && UnchangedFields()
      ensures !old(Missing()) && !IsValidPickup(old(customer), old(pickup)) ==>
        msg == InvalidFormat && rows == old(rows) && UnchangedFields()
      ensures !old(Missing()) && IsValidPickup(old(customer), old(pickup)) && insertError.Some? ==>
        msg == insertError.value && rows == old(rows) && UnchangedFields() && !loading
      ensures !old(Missing()) && IsValidPickup(old(customer), old(pickup)) && insertError.None? ==>
        && msg == CheckedIn && !loading
        && rows == old(rows) + [DriverRow(old(customer), old(pickup), old(trailer), old(phone), old(city), old(state), "waiting")]
        && customer == None && pickup == "" && trailer == "" && phone == "" && city == "" && state == ""
    {
      msg := "";
      if customer == None || pickup == "" || phone == "" || city == "" || state == "" {
        msg := MissingFields;
        return;
      }
      var valid := IsValidPickup(customer, pickup);
      if !valid {
        msg := InvalidFormat;
        return;
      }
      loading := true;
      if insertError.Some? {
        msg := insertError.value;
      } else {
        rows := rows + [DriverRow(customer, pickup, trailer, phone, city, state, "waiting")];
        msg := CheckedIn;
        customer := None;
        pickup := "";
        trailer := "";
        phone := "";
        city := "";
        state := "";
      }
      loading := false;
    }

    /** The six fields are as they were before the call. */
    twostate predicate UnchangedFields()
      reads this
    {
      && customer == old(customer) && pickup == old(pickup) && trailer == old(trailer)
      && phone == old(phone) && city == old(city) && state == old(state)
    }
  }
}
