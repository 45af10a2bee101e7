/**
 * The Gemini key form (src/components/GeminiApiKeyForm.tsx): a text field
 * that falls back to a built-in default key. The default's value is not part
 * of this model; it is a parameter and may be "".
 */
module GeminiApiKeyForm {
  import opened Wrappers
  import opened JsText

  /** The field's first value: the initial value when it has one, else the default. */
  function InitialKey(initialValue: string, defaultKey: string): (r: string)
    ensures r == [] <==> initialValue == [] && defaultKey == []
    ensures r == initialValue || r == defaultKey
    ensures initialValue != [] ==> r == initialValue
  {
    if initialValue != [] then initialValue else defaultKey
  }

  /**
   * The reset effect: with no initial value and a non-empty default the
   * field is set to the default; otherwise it keeps what it holds.
   */
  function AfterReset(apiKey: string, initialValue: string, defaultKey: string): (r: string)
    ensures r == apiKey || r == defaultKey
    ensures initialValue == [] && defaultKey != [] ==> r == defaultKey
    ensures r != apiKey ==> initialValue == [] && defaultKey != []
  {
    if initialValue == [] && defaultKey != [] then defaultKey else apiKey
  }

  /** On mount the effect finds the field already holding what it would set. */
  lemma MountResetKeepsInitialKey(initialValue: string, defaultKey: string)
    ensures AfterReset(InitialKey(initialValue, defaultKey), initialValue, defaultKey) == InitialKey(initialValue, defaultKey)
  {
  }

  /**
   * The submit rule: the trimmed field when it is not blank, else the
   * default as it is, untrimmed; nothing is saved when that is "". A saved
   * key is never "".
   */
  function KeyToSave(apiKey: string, defaultKey: string): (r: Option<string>)
    ensures r.None? <==> AllSpace(apiKey) && defaultKey == []
    ensures r.Some? ==> r.value != []
    ensures !AllSpace(apiKey) ==> r == Some(Trim(apiKey))
    ensures !AllSpace(apiKey) ==> r.Some? && IsTrimmed(r.value) && Occurs(apiKey, r.value)
    ensures AllSpace(apiKey) && defaultKey != [] ==> r == Some(defaultKey)
  {
    TrimOccurs(apiKey);
    var key := if Trim(apiKey) != [] then Trim(apiKey) else defaultKey;
    if key != [] then Some(key) else None
  }

  /** Whitespace typed around a key is dropped, and the key itself is saved as typed, whatever the default. */
  lemma {:induction false} KeyToSaveOfPadded(pre: string, key: string, post: string, defaultKey: string)
    requires AllSpace(pre) && AllSpace(post)
    requires key != [] && IsTrimmed(key)
    ensures KeyToSave(pre + key + post, defaultKey) == Some(key)
  {
    TrimOfPadded(pre, key, post);
  }

  /** With a non-empty default every submit saves a key. */
  lemma DefaultMakesEverySubmitSave(apiKey: string, defaultKey: string)
    requires defaultKey != []
    ensures KeyToSave(apiKey, defaultKey).Some?
  {
  }

  /**
   * The default is handed over without trimming: a default with surrounding
   * spaces reaches `onSave` with them, while the same text typed into the
   * field loses them.
   */
  lemma {:induction false} DefaultNotTrimmed(key: string)
    requires key != [] && IsTrimmed(key)
    ensures KeyToSave("", " " + key + " ") == Some(" " + key + " ")
    ensures KeyToSave(" " + key + " ", "") == Some(key)
  {
    assert AllSpace(" ");
    TrimOfPadded(" ", key, " ");
  }

  /**
   * The notice about the default is shown when the field equals the default
   * exactly, spaces included; a submit then saves the default, trimmed
   * unless it is all whitespace.
   */
  predicate ShowsDefaultNotice(apiKey: string, defaultKey: string)
    ensures ShowsDefaultNotice(apiKey, defaultKey) && !AllSpace(defaultKey) ==> KeyToSave(apiKey, defaultKey) == Some(Trim(defaultKey))
    ensures ShowsDefaultNotice(apiKey, defaultKey) && AllSpace(defaultKey) && defaultKey != [] ==> KeyToSave(apiKey, defaultKey) == Some(defaultKey)
  {
    apiKey == defaultKey
  }

  /** A form mounted without an initial value shows the notice about the default. */
  lemma MountShowsDefaultNotice(defaultKey: string)
    ensures ShowsDefaultNotice(InitialKey([], defaultKey), defaultKey)
  {
  }

  /** The form's state: its props and its one state field. */
  class KeyForm {
    const defaultKey: string
    var initialValue: string
    var apiKey: string

    /** Mounting: the field takes its first value, then the effect runs once. */
    constructor(initialValue: string, defaultKey: string)
      ensures this.defaultKey == defaultKey && this.initialValue == initialValue
      ensures apiKey == InitialKey(initialValue, defaultKey)
    {
      this.defaultKey := defaultKey;
      this.initialValue := initialValue;
      var key := InitialKey(initialValue, defaultKey);
      MountResetKeepsInitialKey(initialValue, defaultKey);
      apiKey := AfterReset(key, initialValue, defaultKey);
    }

    /**
     * A render with a new `initialValue`: the effect runs only when the value
     * changed. A non-empty new value does not replace what the field holds.
     */
    method ReceiveInitialValue(value: string)
      modifies this
      ensures initialValue == value
      ensures value == old(initialValue) ==> apiKey == old(apiKey)
      ensures value != old(initialValue) ==> apiKey == AfterReset(old(apiKey), value, defaultKey)
      ensures value != [] ==> apiKey == old(apiKey)
    {
      if value != initialValue {
        apiKey := AfterReset(apiKey, value, defaultKey);
      }
      initialValue := value;
    }

    /** The input's `onChange`. */
    method Change(value: string)
      modifies this
      ensures apiKey == value && initialValue == old(initialValue)
    {
      apiKey := value;
    }

    /** Which notice the form shows: the one about the default while the field holds it. */
    predicate ShowsDefault()
      reads this
      ensures ShowsDefault() && !AllSpace(defaultKey) ==> KeyToSave(apiKey, defaultKey) == Some(Trim(defaultKey))
    {
      ShowsDefaultNotice(apiKey, defaultKey)
    }

    /** `handleSubmit`: what is passed to `onSave`, if anything. */
    method Submit() returns (saved: Option<string>)
      ensures saved == KeyToSave(apiKey, defaultKey)
    {
      saved := KeyToSave(apiKey, defaultKey);
    }
  }
}
