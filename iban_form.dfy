/** The IBAN field of the payment-barcode form as a piece of mutable state:
    the displayed account number, the error message and the validation
    class of the input. The handlers update these fields in place, as the
    component's state setters do.

    The library check of a Finnish IBAN is code this model cannot see; it is
    passed to the handlers as an arbitrary total predicate on strings. */
module IbanForm {
  import opened IbanFormat

  datatype Option<T> = None | Some(value: T)

  /** The values of the field's validation class. */
  const Unchecked: string := ""
  const ValidClass: string := "is-valid"
  const InvalidClass: string := "is-invalid"

  /** A complete Finnish IBAN has this many letters and digits. */
  const FinnishIbanLength: nat := 18

  /** The validation class the check's answer maps to. */
  function ClassFor(valid: bool): (r: string)
    ensures r == ValidClass <==> valid
    ensures r == InvalidClass <==> !valid
  {
    if valid then ValidClass else InvalidClass
  }

  class IbanFormState {
    var iban: string
    var error: string
    var validationState: string

    /** The initial state: the stored account number if there is one (the
        empty string otherwise), no error and no validation class. */
    constructor (stored: Option<string>)
      ensures stored.Some? ==> iban == stored.value
      ensures stored.None? ==> iban == ""
      ensures error == "" && validationState == Unchecked
    {
      iban := if stored.Some? then stored.value else "";
      error := "";
      validationState := Unchecked;
    }

    /** Hands the value, with all whitespace removed, to the library check
        and shows the answer as the field's validation class. Nothing else
        changes. */
    method ValidateIban(value: string, isValidFinnishIban: string -> bool)
      modifies this`validationState
      ensures isValidFinnishIban(StripWhitespace(value)) ==> validationState == ValidClass
      ensures !isValidFinnishIban(StripWhitespace(value)) ==> validationState == InvalidClass
    {
      var isValidIban := isValidFinnishIban(StripWhitespace(value));
      validationState := ClassFor(isValidIban);
    }

    /** The change handler of the field: reformats the typed text into
        blocks of four, clears the error, and runs the check exactly when
        18 letters and digits have been entered; otherwise the validation
        class is reset. */
    method OnIbanChange(input: string, isValidFinnishIban: string -> bool)
      modifies this
      ensures iban == Format(input)
      ensures error == ""
      ensures |Alnums(input)| == FinnishIbanLength ==>
                validationState == ClassFor(isValidFinnishIban(Alnums(input)))
      ensures |Alnums(input)| != FinnishIbanLength ==> validationState == Unchecked
      // The displayed value is a fixed point: typing it again changes nothing.
      ensures Format(iban) == iban
    {
      var value := KeepAllowed(input);
      var formattedValue := Group(RemoveSpaces(value));
      var actualLength := |RemoveSpaces(formattedValue)|;
      assert formattedValue == Format(input);
      assert actualLength == |Alnums(input)|;
      assert Format(formattedValue) == formattedValue by { FormatIdempotent(input); }

      iban := formattedValue;
      error := "";
      if actualLength == FinnishIbanLength {
        ValidateIban(formattedValue, isValidFinnishIban);
        assert StripWhitespace(formattedValue) == Alnums(input) by { StripFormatted(input); }
      } else {
        validationState := Unchecked;
      }
    }
  }
}
