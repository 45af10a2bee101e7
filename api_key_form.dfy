/**
 * The Perplexity key form (src/components/ApiKeyForm.tsx): a text field whose
 * value is handed to `onSave`, trimmed, when it is not blank.
 */
module ApiKeyForm {
  import opened Wrappers
  import opened JsText

  /**
   * The submit rule: nothing is saved for a blank field; otherwise the value
   * without its surrounding whitespace, which has content, is already trimmed
   * and is left unchanged by trimming it again.
   */
  function KeyToSave(apiKey: string): (r: Option<string>)
    ensures r.None? <==> AllSpace(apiKey)
    ensures r.Some? ==> r.value != [] && IsTrimmed(r.value) && Trim(r.value) == r.value
    ensures r.Some? ==> Occurs(apiKey, r.value)
  {
    var key := Trim(apiKey);
    TrimIdempotent(apiKey);
    TrimOccurs(apiKey);
    if key != [] then Some(key) else None
  }

  /** Padding typed around a key is dropped, and the key itself reaches `onSave` as typed. */
  lemma {:induction false} KeyToSaveOfPadded(pre: string, key: string, post: string)
    requires AllSpace(pre) && AllSpace(post)
    requires key != [] && IsTrimmed(key)
    ensures KeyToSave(pre + key + post) == Some(key)
  {
    TrimOfPadded(pre, key, post);
  }

  /** The button's `disabled`: exactly the fields for which a submit saves nothing. */
  predicate SaveDisabled(apiKey: string) {
    Blank(apiKey)
  }

  lemma SaveDisabledExactlyWhenNothingSaved(apiKey: string)
    ensures SaveDisabled(apiKey) <==> KeyToSave(apiKey).None?
  {
  }

  /** The form's one state field. */
  class KeyForm {
    var apiKey: string

    /** The field starts as the given initial value ("" when none is given). */
    constructor(initialValue: string)
      ensures apiKey == initialValue
    {
      apiKey := initialValue;
    }

    /** The input's `onChange`. */
    method Change(value: string)
      modifies this
      ensures apiKey == value
    {
      apiKey := value;
    }

    /** `handleSubmit`: what is passed to `onSave`, if anything; the field is kept as typed. */
    method Submit() returns (saved: Option<string>)
      ensures saved == KeyToSave(apiKey)
      ensures saved.None? <==> Blank(apiKey)
    {
      saved := KeyToSave(apiKey);
    }
  }
}
