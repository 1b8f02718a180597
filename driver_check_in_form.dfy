/** The driver check-in form (src/components/DriverCheckInForm.tsx): the
    customer-agnostic pickup-number validator, the inline pickup hint kept
    while typing, and the submit step that inserts a pending check-in and
    resets the form. The insert is an append to `rows`; its failure is a
    parameter. */
module DriverCheckInForm {
  import opened Text
  import opened Optional

  // ---- validatePickupNumber ----

  /** The regular expression `^P\d{n}$`: the literal prefix P followed by
      exactly n ASCII digits and nothing else. */
  predicate PrefixDigits(s: string, prefix: string, n: nat) {
    |s| == |prefix| + n && s[..|prefix|] == prefix && AllDigits(s[|prefix|..])
  }

  /** `value.replace(/\s/g, '').toUpperCase()`. */
  function Cleaned(value: string): (c: string)
    ensures |c| <= |value|
    ensures forall i | 0 <= i < |c| :: !IsWhitespace(c[i])
  {
    var r := RemoveWhitespace(value);
    UpperKeepsWhitespace(r);
    ToUpper(r)
  }

  /** One of the six patterns, tried on the cleaned value. */
  predicate MatchesAnyPattern(c: string) {
    || PrefixDigits(c, "2", 6)
    || PrefixDigits(c, "4", 6)
    || PrefixDigits(c, "44", 8)
    || PrefixDigits(c, "8", 7)
    || PrefixDigits(c, "TLNA-SO-00", 4)
    || PrefixDigits(c, "", 6)
  }

  /** `validatePickupNumber(value)`. */
  function ValidatePickupNumber(value: string): (ok: bool)
    ensures ok ==> |Cleaned(value)| in {6, 7, 8, 10, 14}
    ensures AllWhitespace(value) ==> !ok
  {
    if AllWhitespace(value) then
      assert RemoveWhitespace(value) == [] by { RemoveWhitespaceOfBlank(value); }
      false
    else
      MatchesAnyPattern(Cleaned(value))
  }

  lemma {:induction false} RemoveWhitespaceOfBlank(s: string)
    requires AllWhitespace(s)
    ensures RemoveWhitespace(s) == []
  {
    if s != [] {
      RemoveWhitespaceOfBlank(s[..|s| - 1]);
    }
  }

  /** The accepted values by length: six digits; seven digits starting with 2
      or 4; eight digits starting with 8; ten digits starting with 44; or
      "TLNA-SO-00" and four digits. */
  lemma AcceptedByLength(value: string)
    ensures var c := Cleaned(value);
      ValidatePickupNumber(value) <==>
        || (AllDigits(c) && |c| == 6)
        || (AllDigits(c) && |c| == 7 && (c[0] == '2' || c[0] == '4'))
        || (AllDigits(c) && |c| == 8 && c[0] == '8')
        || (AllDigits(c) && |c| == 10 && c[..2] == "44")
        || (|c| == 14 && c[..10] == "TLNA-SO-00" && AllDigits(c[10..]))
  {
    var c := Cleaned(value);
    if AllWhitespace(value) {
      RemoveWhitespaceOfBlank(value);
    } else {
      if AllDigits(c) && |c| == 7 && (c[0] == '2' || c[0] == '4') {
        assert c[..1] == [c[0]];
      }
      if AllDigits(c) && |c| == 8 && c[0] == '8' {
        assert c[..1] == [c[0]];
      }
      if PrefixDigits(c, "2", 6) || PrefixDigits(c, "4", 6) || PrefixDigits(c, "44", 8) || PrefixDigits(c, "8", 7) {
        assert c[0] == c[..|c|][0];
        assert forall i | 1 <= i < |c| :: c[i] == c[1..][i - 1];
      }
      if PrefixDigits(c, "44", 8) {
        assert forall i | 2 <= i < |c| :: c[i] == c[2..][i - 2];
        assert c[0] == c[..2][0] && c[1] == c[..2][1];
      }
    }
  }

  /** Digits, capital letters and hyphens: text cleaning leaves it as it is. */
  predicate IsPlain(s: string) {
    forall i | 0 <= i < |s| :: IsDigit(s[i]) || 'A' <= s[i] <= 'Z' || s[i] == '-'
  }

  lemma CleanedOfPlain(s: string)
    requires IsPlain(s)
    ensures Cleaned(s) == s
  {
    RemoveWhitespaceAbsent(s);
    UpperUnchanged(s);
  }

  /** Validation ignores white space and letter case: a value and its cleaned
      form are judged alike. */
  lemma ValidateCleaned(value: string)
    ensures ValidatePickupNumber(Cleaned(value)) == ValidatePickupNumber(value)
  {
    var r := RemoveWhitespace(value);
    var c := Cleaned(value);
    UpperKeepsWhitespace(r);
    RemoveWhitespaceAbsent(c);
    assert Cleaned(c) == c;
    if AllWhitespace(value) {
      RemoveWhitespaceOfBlank(value);
    }
  }

  // ---- The form ----

  datatype Field = DriverName | DriverPhone | CarrierName | TrailerNumber | TrailerLength
                 | PickupNumber | LoadType | DestinationCity | DestinationState

  datatype FormData = FormData(
    driverName: string,
    driverPhone: string,
    carrierName: string,
    trailerNumber: string,
    trailerLength: string,
    pickupNumber: string,
    loadType: string,
    destinationCity: string,
    destinationState: string)

  /** The form as it starts and as a successful check-in leaves it. */
  const EmptyForm := FormData("", "", "", "", "", "", "inbound", "", "")

  /** `{ ...prev, [name]: value }`. */
  function SetField(f: FormData, name: Field, value: string): (g: FormData)
  {
    match name
    case DriverName => f.(driverName := value)
    case DriverPhone => f.(driverPhone := value)
    case CarrierName => f.(carrierName := value)
    case TrailerNumber => f.(trailerNumber := value)
    case TrailerLength => f.(trailerLength := value)
    case PickupNumber => f.(pickupNumber := value)
    case LoadType => f.(loadType := value)
    case DestinationCity => f.(destinationCity := value)
    case DestinationState => f.(destinationState := value)
  }

  function FieldValue(f: FormData, name: Field): string {
    match name
    case DriverName => f.driverName
    case DriverPhone => f.driverPhone
    case CarrierName => f.carrierName
    case TrailerNumber => f.trailerNumber
    case TrailerLength => f.trailerLength
    case PickupNumber => f.pickupNumber
    case LoadType => f.loadType
    case DestinationCity => f.destinationCity
    case DestinationState => f.destinationState
  }

  /** Setting a field changes that field and no other. */
  lemma SetFieldFrames(f: FormData, name: Field, value: string, other: Field)
    ensures FieldValue(SetField(f, name, value), name) == value
    ensures other != name ==> FieldValue(SetField(f, name, value), other) == FieldValue(f, other)
  {
  }

  const PickupHint := "Invalid format. Must match: 2xxxxxx, 4xxxxxx, 44xxxxxxxx, 8xxxxxxx, TLNA-SO-00xxxx, or xxxxxx"
  const InvalidPickup := "Invalid pickup number format"
  const CheckInFailed := "Failed to check in"

  /** What the insert throws: an `Error` with its message, or another value. */
  datatype InsertFailure = ErrorObject(message: string) | OtherValue

  /** A row of `check_ins` as the form inserts it. */
  datatype CheckInRow = CheckInRow(form: FormData, checkInTime: string, status: string)

  class CheckInForm {
    var formData: FormData
    var pickupError: Option<string>
    var error: Option<string>
    var success: bool
    var loading: bool
    var rows: seq<CheckInRow>

    /** Every check-in the form has inserted is pending and carries a pickup
        number the validator accepts. */
    predicate Valid()
      reads this
    {
      forall i | 0 <= i < |rows| :: rows[i].status == "pending" && ValidatePickupNumber(rows[i].form.pickupNumber)
    }

    constructor ()
      ensures formData == EmptyForm && pickupError == None && error == None
      ensures !success && !loading && rows == [] && Valid()
    {
      formData := EmptyForm;
      pickupError := None;
      error := None;
      success := false;
      loading := false;
      rows := [];
    }

    /** `handleInputChange`: store the value; for the pickup field, show the
        hint exactly when the new value is non-empty and rejected. */
    method HandleInputChange(name: Field, value: string)
      modifies this
      ensures formData == SetField(old(formData), name, value)
      ensures name == PickupNumber ==>
        pickupError == (if value != "" && !ValidatePickupNumber(value) then Some(PickupHint) else None)
      ensures name != PickupNumber ==> pickupError == old(pickupError)
      ensures error == old(error) && success == old(success) && loading == old(loading) && rows == old(rows)
    {
      formData := SetField(formData, name, value);
      if name == PickupNumber {
        if value != "" && !ValidatePickupNumber(value) {
          pickupError := Some(PickupHint);
        } else {
          pickupError := None;
        }
      }
    }

    /** `handleSubmit`; `checkInTime` is the ISO string of the current instant
        and `failure` what the insert throws, if anything. */
    method HandleSubmit(checkInTime: string, failure: Option<InsertFailure>)
      requires Valid()
      modifies this
      ensures Valid() && !loading
      ensures !ValidatePickupNumber(old(formData).pickupNumber) ==>
        && error == Some(InvalidPickup) && !success
        && rows == old(rows) && formData == old(formData) && pickupError == old(pickupError)
      ensures ValidatePickupNumber(old(formData).pickupNumber) && failure.Some? ==>
        && error == Some(if failure.value.ErrorObject? then failure.value.message else CheckInFailed)
        && !success && rows == old(rows) && formData == old(formData) && pickupError == old(pickupError)
      ensures ValidatePickupNumber(old(formData).pickupNumber) && failure.None? ==>
        && error == None && success
        && rows == old(rows) + [CheckInRow(old(formData), checkInTime, "pending")]
        && formData == EmptyForm && pickupError == None
    {
      loading := true;
      error := None;
      success := false;
      if !ValidatePickupNumber(formData.pickupNumber) {
        error := Some(InvalidPickup);
        loading := false;
        return;
      }
      if failure.Some? {
        error := Some(if failure.value.ErrorObject? then failure.value.message else CheckInFailed);
        loading := false;
        return;
      }
      rows := rows + [CheckInRow(formData, checkInTime, "pending")];
      success := true;
      formData := EmptyForm;
      pickupError := None;
      loading := false;
    }
  }
}
