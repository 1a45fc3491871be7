/** Validation of the optional `count` query parameter of the simulator
    endpoint: absent or empty means the default of 20 sensors, anything else
    must be a positive decimal integer or the request is rejected. */
module CountParam {
  import opened Wrappers
  import opened Decimal

  const DefaultSensorCount: nat := 20
  const InvalidCountMessage: string := "Invalid 'count' parameter. Please provide a positive integer."

  /** Turns the raw parameter into a sensor count or a 400 rejection. */
  function ParseCount(param: Option<string>): (r: Result<nat>)
    ensures r.Ok? ==> r.value >= 1
    ensures r.Rejected? ==> r.message == InvalidCountMessage
  {
    match param
    case None => Ok(DefaultSensorCount)
    case Some(s) =>
      if s == "" then Ok(DefaultSensorCount)
      else if !AllDigits(s) || Value(s) <= 0 then Rejected(InvalidCountMessage)
      else Ok(Value(s))
  }

  /** A present, non-empty parameter is accepted exactly when it is all digits
      and at least one of them is not '0'; the accepted count is its value. */
  lemma ParseCountAcceptsIff(s: string)
    requires s != ""
    ensures ParseCount(Some(s)).Ok? <==>
              AllDigits(s) && exists i :: 0 <= i < |s| && s[i] != '0'
    ensures ParseCount(Some(s)).Ok? ==> ParseCount(Some(s)).value == Value(s)
  {
    if AllDigits(s) {
      ValueZeroIffAllZeros(s);
    }
  }

  /** Every positive count, written as the canonical numeral, is parsed back to itself. */
  lemma ParseCountRoundTrip(n: nat)
    requires n >= 1
    ensures ParseCount(Some(NatToString(n))) == Ok(n)
  {
    ValueOfNatToString(n);
  }

  /** Leading zeros are accepted and ignored: "05" means 5, and "000" is rejected like "0". */
  lemma ParseCountLeadingZero(s: string)
    requires s != ""
    ensures ParseCount(Some("0" + s)) == ParseCount(Some(s))
  {
    if AllDigits(s) {
      LeadingZeroIgnored(s);
    } else {
      var i :| 0 <= i < |s| && !IsDigit(s[i]);
      assert !IsDigit(("0" + s)[i + 1]);
    }
  }

  /** The outcome for a few sample inputs, including the boundary values. */
  lemma ParseCountExamples()
    ensures ParseCount(None) == Ok(20)
    ensures ParseCount(Some("")) == Ok(20)
    ensures ParseCount(Some("5")) == Ok(5)
    ensures ParseCount(Some("05")) == Ok(5)
    ensures ParseCount(Some("abc")).Rejected?
    ensures ParseCount(Some("0")).Rejected?
    ensures ParseCount(Some("000")).Rejected?
    ensures ParseCount(Some("-3")).Rejected?
  {
    assert !IsDigit("abc"[0]);
    assert !IsDigit("-3"[0]);
    ParseCountLeadingZero("5");
    assert "0" + "5" == "05";
    ParseCountLeadingZero("0");
    ParseCountLeadingZero("00");
    assert "0" + "0" == "00";
    assert "0" + "00" == "000";
  }

  /** Characters that Python's `str.isdigit` accepts but `int` refuses to
      convert: the Unicode characters with Numeric_Type=Digit that are not
      decimal digits (Unicode 15.0, 128 characters). Among them are the
      superscript and subscript digits, circled, parenthesised and dingbat
      digits, and the Ethiopic digits. */
  predicate IsNonDecimalDigit(c: char) {
    || '\U{00B2}' <= c <= '\U{00B3}' || c == '\U{00B9}'      // superscripts
    || '\U{1369}' <= c <= '\U{1371}'                         // Ethiopic digits
    || c == '\U{19DA}'                                        // New Tai Lue digit one
    || c == '\U{2070}' || '\U{2074}' <= c <= '\U{2079}'      // superscripts
    || '\U{2080}' <= c <= '\U{2089}'                         // subscripts
    || '\U{2460}' <= c <= '\U{2468}'                         // circled
    || '\U{2474}' <= c <= '\U{247C}'                         // parenthesised
    || '\U{2488}' <= c <= '\U{2490}'                         // with full stop
    || c == '\U{24EA}' || '\U{24F5}' <= c <= '\U{24FD}' || c == '\U{24FF}'
    || '\U{2776}' <= c <= '\U{277E}'                         // dingbat negative circled
    || '\U{2780}' <= c <= '\U{2788}'                         // dingbat sans-serif circled
    || '\U{278A}' <= c <= '\U{2792}'                         // dingbat negative sans-serif
    || '\U{10A40}' <= c <= '\U{10A43}'                       // Kharoshthi
    || '\U{10E60}' <= c <= '\U{10E68}'                       // Rumi
    || '\U{11052}' <= c <= '\U{1105A}'                       // Brahmi numbers
    || '\U{1F100}' <= c <= '\U{1F10A}'                       // with full stop or comma
  }

  /** The three outcomes of the handler's parameter check as the code is
      written: a count, a 400 rejection, or an exception from `int` that the
      handler's catch-all turns into a 500. */
  datatype CountOutcome = Accepted(count: nat) | BadRequest | InternalError

  /** The check as written: `isdigit` lets non-decimal digits through, and the
      following `int(...)` then raises instead of producing a number. */
  function ParseCountAsWritten(param: Option<string>): (r: CountOutcome)
    ensures r.Accepted? ==> r.count >= 1
  {
    match param
    case None => Accepted(DefaultSensorCount)
    case Some(s) =>
      if s == "" then Accepted(DefaultSensorCount)
      else if exists i :: 0 <= i < |s| && !IsDigit(s[i]) && !IsNonDecimalDigit(s[i]) then BadRequest
      else if !AllDigits(s) then InternalError
      else if Value(s) <= 0 then BadRequest
      else Accepted(Value(s))
  }

  /** "²", "₂" and "①" pass the digit test but are not numbers: the request
      fails with a 500 where a 400 rejection was meant. */
  lemma NonDecimalDigitCountIsInternalError()
    ensures ParseCountAsWritten(Some("\U{00B2}")) == InternalError
    ensures ParseCountAsWritten(Some("\U{2082}")) == InternalError
    ensures ParseCountAsWritten(Some("\U{2460}")) == InternalError
    ensures ParseCount(Some("\U{00B2}")) == Rejected(InvalidCountMessage)
    ensures ParseCount(Some("\U{2082}")) == Rejected(InvalidCountMessage)
    ensures ParseCount(Some("\U{2460}")) == Rejected(InvalidCountMessage)
  {
  }

  /** The written check fails internally exactly on a non-empty parameter made
      only of digits and non-decimal digits, with at least one of the latter;
      the corrected `ParseCount` rejects every such parameter with the 400 text. */
  lemma InternalErrorIff(param: Option<string>)
    ensures ParseCountAsWritten(param) == InternalError <==>
              && param.Some?
              && (forall i :: 0 <= i < |param.value| ==> IsDigit(param.value[i]) || IsNonDecimalDigit(param.value[i]))
              && (exists i :: 0 <= i < |param.value| && IsNonDecimalDigit(param.value[i]))
    ensures ParseCountAsWritten(param) == InternalError ==> ParseCount(param) == Rejected(InvalidCountMessage)
  {
  }

  /** Away from non-decimal digits the written check and the corrected
      `ParseCount` agree: same count accepted, same inputs rejected. */
  lemma AsWrittenAgreesWithoutNonDecimalDigits(param: Option<string>)
    requires param.Some? ==> forall i :: 0 <= i < |param.value| ==> !IsNonDecimalDigit(param.value[i])
    ensures ParseCountAsWritten(param) != InternalError
    ensures ParseCountAsWritten(param).Accepted? <==> ParseCount(param).Ok?
    ensures ParseCountAsWritten(param).Accepted? ==> ParseCountAsWritten(param).count == ParseCount(param).value
  {
  }
}
