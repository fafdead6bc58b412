/** The message box (frontend/components/ChatInput.tsx): the text it holds,
    the guard in front of the page's send handler, the Enter key, and when
    the button and the text area are enabled. */
module ChatInput {
  import opened Wrappers
  import opened Text

  /** `message.trim() && !isLoading && !disabled`: the condition under
      which the box sends. */
  predicate CanSend(text: string, loading: bool, disabled: bool) {
    Trim(text) != "" && !loading && !disabled
  }

  /** What `handleSend` did: the text the box holds afterwards, and the
      text it forwarded to `onSendMessage`, if any. */
  datatype Sent = Sent(text: string, forwarded: Option<string>)

  /** `handleSend()`: when the guard holds, the trimmed text is forwarded
      and the box is cleared; otherwise nothing is forwarded and the box
      keeps its text. The forwarded text is never blank and has no
      whitespace at either end. */
  function HandleSend(text: string, loading: bool, disabled: bool): (r: Sent)
    ensures r.forwarded.Some? <==> CanSend(text, loading, disabled)
    ensures r.forwarded.Some? ==> r.text == ""
    ensures r.forwarded.None? ==> r.text == text
    ensures r.forwarded.Some? ==>
      var f := r.forwarded.value;
      && |f| > 0 && !IsJsWhitespace(f[0]) && !IsJsWhitespace(f[|f| - 1])
      && var i := LeadingBlank(text);
      && i + |f| <= |text| && text[i..i + |f|] == f
      && (forall k :: 0 <= k < i ==> IsJsWhitespace(text[k]))
      && (forall k :: i + |f| <= k < |text| ==> IsJsWhitespace(text[k]))
  {
    if CanSend(text, loading, disabled) then
      TrimShape(text);
      Sent("", Some(Trim(text)))
    else Sent(text, None)
  }

  /** A key event on the text area. */
  datatype KeyEvent = KeyEvent(key: string, shift: bool)

  /** `handleKeyPress(e)`: Enter without Shift sends (and the newline is
      suppressed, the `bool`); every other key leaves the box to the
      browser. */
  function HandleKeyPress(text: string, e: KeyEvent, loading: bool, disabled: bool): (r: (Sent, bool))
    ensures r.1 <==> e.key == "Enter" && !e.shift
    ensures r.1 ==> r.0 == HandleSend(text, loading, disabled)
    ensures !r.1 ==> r.0 == Sent(text, None)
  {
    if e.key == "Enter" && !e.shift then (HandleSend(text, loading, disabled), true)
    else (Sent(text, None), false)
  }

  /** The button's `disabled={!message.trim() || isLoading || disabled}`. */
  predicate ButtonDisabled(text: string, loading: bool, disabled: bool) {
    Trim(text) == "" || loading || disabled
  }

  /** The text area's `disabled={isLoading || disabled}`. */
  predicate TextAreaDisabled(loading: bool, disabled: bool) {
    loading || disabled
  }

  /** The button is enabled exactly when a click would send; a box the
      user cannot type into never sends; and a text of whitespace only
      never sends. */
  lemma EnablingMatchesGuard(text: string, loading: bool, disabled: bool)
    ensures !ButtonDisabled(text, loading, disabled) <==> HandleSend(text, loading, disabled).forwarded.Some?
    ensures TextAreaDisabled(loading, disabled) ==> HandleSend(text, loading, disabled).forwarded.None?
    ensures (forall k :: 0 <= k < |text| ==> IsJsWhitespace(text[k])) ==> HandleSend(text, loading, disabled).forwarded.None?
  {
    TrimEmptyIffBlank(text);
  }

  /** What the box forwards is already trimmed, so trimming it again (as
      the page's blank check does) changes nothing. */
  lemma ForwardedIsTrimmed(text: string, loading: bool, disabled: bool)
    requires CanSend(text, loading, disabled)
    ensures Trim(HandleSend(text, loading, disabled).forwarded.value) == HandleSend(text, loading, disabled).forwarded.value
    ensures exists k :: 0 <= k < |HandleSend(text, loading, disabled).forwarded.value|
                     && !IsJsWhitespace(HandleSend(text, loading, disabled).forwarded.value[k])
  {
    TrimIdempotent(text);
    var f := HandleSend(text, loading, disabled).forwarded.value;
    assert !IsJsWhitespace(f[0]);
  }

  /** Enter without Shift and a click on the button agree: Enter sends
      exactly when the button is enabled, and both forward the same text
      and leave the same box. Shift+Enter never sends. */
  lemma EnterMatchesButton(text: string, loading: bool, disabled: bool, shift: bool)
    ensures var r := HandleKeyPress(text, KeyEvent("Enter", shift), loading, disabled);
      && (r.0.forwarded.Some? <==> !shift && !ButtonDisabled(text, loading, disabled))
      && (!shift ==> r.0 == HandleSend(text, loading, disabled))
      && (shift ==> r.0 == Sent(text, None))
  {
    EnablingMatchesGuard(text, loading, disabled);
  }
}
