/**
 * The storefront login modal: the contact number typed into it is checked
 * for presence and then for the ten-digit format before `onLogin` is called.
 * The open/closing animation state is not modelled.
 */
module LoginModal {
  import opened Wrappers
  import opened Text

  const RequiredMessage: string := "Contact number is required"
  const FormatMessage: string := "Please enter a valid 10-digit contact number"

  /** `/^\d{10}$/.test(s)`: exactly ten ASCII digits and nothing else. */
  predicate IsTenDigits(s: string) {
    |s| == 10 && AllDigits(s)
  }

  /**
   * The error `handleSubmit` sets, or None when the number is accepted. The
   * blank check looks at the trimmed text, the format check at the text as
   * typed.
   */
  function Validate(s: string): (r: Option<string>)
    ensures r == Some(RequiredMessage) <==> AllSpace(s)
    ensures r == Some(FormatMessage) <==> !AllSpace(s) && !IsTenDigits(s)
    ensures r.None? <==> IsTenDigits(s)
  {
    TrimBlank(s);
    if Trim(s) == "" then Some(RequiredMessage)
    else if !IsTenDigits(s) then Some(FormatMessage)
    else None
  }

  /**
   * The format test is made on the untrimmed text: ten digits with white
   * space around them are refused with the format message, not accepted.
   */
  lemma PaddedNumberRefused(digits: string, pad: string)
    requires IsTenDigits(digits) && pad != "" && AllSpace(pad)
    ensures Validate(pad + digits) == Some(FormatMessage)
    ensures Validate(digits + pad) == Some(FormatMessage)
  {
    assert (pad + digits)[|pad|] == digits[0];
    assert (digits + pad)[0] == digits[0];
  }

  /** The modal's state: the input, the error shown, and every `onLogin` call made so far. */
  class Modal {
    var contactNumber: string
    var error: string
    var logins: seq<string>

    constructor()
      ensures contactNumber == "" && error == "" && logins == []
    {
      contactNumber, error, logins := "", "", [];
    }

    /**
     * `handleSubmit`: a refused number sets the error and leaves the input;
     * an accepted one is passed to `onLogin` once, unchanged, and the input
     * and error are cleared.
     */
    method Submit()
      modifies this
      ensures var e := Validate(old(contactNumber));
              && (e.Some? ==> error == e.value && contactNumber == old(contactNumber) && logins == old(logins))
              && (e.None? ==> && logins == old(logins) + [old(contactNumber)]
                              && IsTenDigits(old(contactNumber))
                              && contactNumber == "" && error == "")
    {
      var refusal := Validate(contactNumber);
      if refusal.Some? {
        error := refusal.value;
        return;
      }
      logins := logins + [contactNumber];
      contactNumber := "";
      error := "";
    }

    /** The input's `onChange`: the new text replaces the old one and the error is cleared. */
    method Change(value: string)
      modifies this
      ensures contactNumber == value && error == "" && logins == old(logins)
    {
      contactNumber := value;
      error := "";
    }
  }
}
