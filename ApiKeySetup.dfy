/**
 * The key setup form: a text field and an error line. Submitting trims the
 * typed key; a blank key shows the error, any other key is handed on
 * trimmed.
 */
module ApiKeySetup {
  import opened Types
  import opened Strings

  const EmptyKeyMessage := "Por favor, introduce una clave de API."

  /**
   * The check behind the submit handler: nothing for a key that trims to
   * the empty string, otherwise the trimmed key, which is never empty and
   * neither starts nor ends with whitespace.
   */
  function ValidateKey(input: string): (r: Option<string>)
    ensures r.None? <==> AllWhitespace(input)
    ensures r.Some? ==> r.value == Trim(input) && r.value != ""
    ensures r.Some? ==> !IsWhitespace(r.value[0]) && !IsWhitespace(r.value[|r.value| - 1])
  {
    var key := Trim(input);
    if key == "" then None else Some(key)
  }

  /** A submitted key passes the check again unchanged. */
  lemma ValidatedKeyIsStable(input: string)
    requires ValidateKey(input).Some?
    ensures ValidateKey(ValidateKey(input).value) == ValidateKey(input)
  {
    TrimIdempotent(input);
  }

  class ApiKeyForm {
    var apiKey: string
    var error: string

    /** Mounting: an empty field and no error. */
    constructor()
      ensures apiKey == "" && error == ""
    {
      apiKey := "";
      error := "";
    }

    /** Typing replaces the field's text. */
    method Type(value: string)
      modifies this`apiKey
      ensures apiKey == value
    {
      apiKey := value;
    }

    /**
     * Whether the error line is rendered: the blank-key message shows, and
     * a cleared error hides the line.
     */
    predicate ErrorShown()
      reads this
      ensures error == EmptyKeyMessage ==> ErrorShown()
      ensures error == "" ==> !ErrorShown()
    {
      error != ""
    }

    /**
     * `handleSubmit`: a blank key sets the error and submits nothing;
     * any other key clears the error and is submitted once, trimmed. The
     * typed text itself is left as it was.
     */
    method HandleSubmit() returns (submitted: Option<string>)
      modifies this`error
      ensures apiKey == old(apiKey)
      ensures submitted == ValidateKey(apiKey)
      ensures submitted.None? ==> error == EmptyKeyMessage && ErrorShown()
      ensures submitted.Some? ==> error == "" && !ErrorShown()
    {
      var trimmed := Trim(apiKey);
      if trimmed == "" {
        error := EmptyKeyMessage;
        return None;
      }
      error := "";
      submitted := Some(trimmed);
    }
  }
}
