/** The key-entry dialog of components/ApiKeyModal.tsx: which input is
    handed to the application, and when the submit button is enabled. */
module ApiKeyModal {
  import opened Common
  import opened Strings
  import opened Types
  import App

  /** A key must be longer than this many characters once trimmed. */
  const MIN_KEY_LENGTH: nat := 10

  /** `handleSubmit`: the trimmed input is handed on when it has more than
      ten characters; otherwise submitting does nothing. */
  function SubmittedKey(input: string): (key: Option<string>)
    ensures key.Some? <==> |Trim(input)| > MIN_KEY_LENGTH
    ensures key.Some? ==> key.value == Trim(input) && |key.value| > MIN_KEY_LENGTH
    ensures key.Some? ==> !IsWhitespace(key.value[0]) && !IsWhitespace(key.value[|key.value| - 1])
  {
    var trimmed := Trim(input);
    if |trimmed| > MIN_KEY_LENGTH then Some(trimmed) else None
  }

  /** The submit button as written: disabled while the raw input has fewer than ten characters. */
  predicate SubmitDisabled(input: string)
    ensures !SubmitDisabled(input) ==> |input| >= MIN_KEY_LENGTH
    ensures |input| < MIN_KEY_LENGTH ==> SubmitDisabled(input)
  {
    |input| < MIN_KEY_LENGTH
  }

  /** Whatever is submitted came through an enabled button. */
  lemma SubmittedKeyWasEnabled(input: string)
    ensures SubmittedKey(input).Some? ==> !SubmitDisabled(input)
  {
  }

  /** The button as written is enabled for a ten-character key that submitting ignores. */
  lemma TenCharactersIgnored()
    ensures !SubmitDisabled("0123456789") && SubmittedKey("0123456789").None?
  {
  }

  /** More generally, the button as written is enabled, and the click
      ignored, for every input of at least ten characters that trims to at
      most ten: a short key padded with white space, or one of exactly ten. */
  lemma EnabledButIgnored(input: string)
    requires |input| >= MIN_KEY_LENGTH && |Trim(input)| <= MIN_KEY_LENGTH
    ensures !SubmitDisabled(input) && SubmittedKey(input).None?
  {
  }

  /** The button as evidently intended: disabled exactly when submitting would be ignored. */
  predicate SubmitDisabledFixed(input: string) {
    |Trim(input)| <= MIN_KEY_LENGTH
  }

  /** With the corrected condition the button is enabled exactly when a key is handed on. */
  lemma FixedButtonMatchesSubmit(input: string)
    ensures !SubmitDisabledFixed(input) <==> SubmittedKey(input).Some?
  {
  }

  /** The dialog feeding `handleApiKeySubmit`: submitting an enabled form
      hands the trimmed key on; `loaded` says whether the map script then loaded. */
  function Submit(s: App.Session, input: string, loaded: bool): (r: App.Session)
    ensures SubmittedKey(input).None? || !loaded ==> r == s
    ensures SubmittedKey(input).Some? && loaded ==>
      && r.state == s.state.(step := Input, mapsApiKey := Trim(input))
      && r.isSearching == s.isSearching
      && r.selectedId == s.selectedId
  {
    match SubmittedKey(input)
    case None => s
    case Some(key) => App.ApiKeySubmit(s, key, loaded)
  }

  /** A stored key is already trimmed and has more than ten characters. */
  lemma StoredKeyIsTrimmed(s: App.Session, input: string)
    requires s.state.step == ApiKey
    requires Submit(s, input, true).state.step == Input
    ensures var key := Submit(s, input, true).state.mapsApiKey;
            |key| > MIN_KEY_LENGTH && Trim(key) == key
  {
    TrimIdempotent(input);
  }
}
