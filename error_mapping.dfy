/**
 * The rule-based error classifier `ErrorMapping`: given a provider's error code, an
 * optional description and an optional state, it selects the first configured rule
 * that matches and turns it into a structured `Failure` or into one of the signals the
 * Java code raises as exceptions.
 *
 * The pure parts (matching, the reason texts, the ASCII-safe encoding) are functions;
 * the object, whose fields are set once by its constructor, is the class `ErrorMapping`
 * at the end, and its methods are proved to compute `Classify`.
 */
module Mapper {
  import opened Wrappers
  import opened MapperModel
  import opened Formatting
  import Utf8
  import Base64

  /** The two collaborators the classifier calls but does not define. */
  datatype Collaborators = Collaborators(
    /** `s.matches(regex)`: does the whole of `s` match `regex`. */
    matches: (string, string) -> bool,
    /** `TErrorUtil.toGeneral`: the structured failure for a taxonomy key. */
    toGeneral: string -> Failure)

  /** What `mapFailure` ends with: a returned failure or the exception it throws. */
  datatype Outcome =
    | Mapped(failure: Failure)
      /** `NullPointerException("Code must be set")` */
    | NullCode
      /** `WUndefinedResultException` for the rule, code and description */
    | Undefined(rule: Error, code: string, description: Option<string>)
      /** `WUnavailableResultException` for the rule, code and description */
    | Unavailable(rule: Error, code: string, description: Option<string>)
      /** `WRuntimeException` with its message and the reason of its error definition */
    | Unexpected(message: string, reason: string)

  /** A step that either returns a value or throws one of the signals. */
  datatype Attempt<T> = Returned(value: T) | Threw(signal: Outcome)

  // ---------------------------------------------------------------------------
  // Rule matching

  /** A rule's description pattern: an absent pattern matches anything; otherwise an
      absent description is matched as the empty string. */
  predicate MatchNullableStrings(matches: (string, string) -> bool, str: Option<string>, regex: Option<string>): (b: bool)
    ensures regex.None? ==> b
    ensures str.None? && regex.Some? ==> (b <==> matches("", regex.value))
  {
    regex.None? || matches(str.GetOr(""), regex.value)
  }

  /** A rule's state: absence on either side matches, otherwise the two must be equal. */
  predicate EqualsNullableStrings(str1: Option<string>, str2: Option<string>): (b: bool)
    ensures str1.None? || str2.None? ==> b
    ensures str1.Some? && str2.Some? ==> (b <==> str1 == str2)
  {
    str1.None? || str2.None? || str1.value == str2.value
  }

  /** Whether `error` applies to the code, description and state. */
  predicate MatchError(matches: (string, string) -> bool, error: Error, code: string,
                       description: Option<string>, state: Option<string>): (b: bool)
    ensures b ==> matches(code, error.codeRegex)
    ensures error.descriptionRegex.None? && error.state.None? ==> (b <==> matches(code, error.codeRegex))
    ensures state.None? || error.state.None? ==>
      (b <==> matches(code, error.codeRegex) && MatchNullableStrings(matches, description, error.descriptionRegex))
  {
    && matches(code, error.codeRegex)
    && MatchNullableStrings(matches, description, error.descriptionRegex)
    && EqualsNullableStrings(state, error.state)
  }

  /** The position of the first rule that applies, if any. */
  function FirstMatch(matches: (string, string) -> bool, rules: seq<Error>, code: string,
                      description: Option<string>, state: Option<string>): (r: Option<nat>)
    ensures r.Some? ==> r.value < |rules| && MatchError(matches, rules[r.value], code, description, state)
    ensures r.Some? ==> forall j :: 0 <= j < r.value ==> !MatchError(matches, rules[j], code, description, state)
    ensures r.None? <==> forall j :: 0 <= j < |rules| ==> !MatchError(matches, rules[j], code, description, state)
    decreases |rules|
  {
    if rules == [] then None
    else if MatchError(matches, rules[0], code, description, state) then Some(0)
    else
      match FirstMatch(matches, rules[1..], code, description, state)
      case None => None
      case Some(k) => Some(k + 1)
  }

  // ---------------------------------------------------------------------------
  // ASCII-safe text

  const Base64Prefix: string := "base64:"

  /** Every character can be encoded in US-ASCII. */
  predicate IsAscii(s: string)
  {
    forall i :: 0 <= i < |s| ==> (s[i] as int) < 0x80
  }

  lemma AsciiAppend(a: string, b: string)
    requires IsAscii(a) && IsAscii(b)
    ensures IsAscii(a + b)
  {
    forall i | 0 <= i < |a + b| ensures ((a + b)[i] as int) < 0x80 {
      if i >= |a| {
        assert (a + b)[i] == b[i - |a|];
      }
    }
  }

  /** Scans `text` and stops at the first character US-ASCII cannot encode. */
  method ContainsNonAsciiSymbols(text: string) returns (found: bool)
    ensures found <==> !IsAscii(text)
  {
    for i := 0 to |text|
      invariant forall j :: 0 <= j < i ==> (text[j] as int) < 0x80
    {
      if (text[i] as int) >= 0x80 {
        return true;
      }
    }
    return false;
  }

  /** Leaves absent and all-ASCII text as it is; any other text becomes the prefix
      followed by the unpadded Base64 of its UTF-8 bytes. */
  function MakeCompatibleWithHttpHeader(text: Option<string>): (r: Option<string>)
    ensures r.None? <==> text.None?
    ensures text.Some? && IsAscii(text.value) ==> r == text
    ensures text.Some? && !IsAscii(text.value) ==>
      r.value == Base64Prefix + Base64.Encode(Utf8.Encode(text.value))
    ensures r.Some? ==> IsAscii(r.value)
  {
    if text.None? || IsAscii(text.value) then text
    else
      var encoded := Base64.Encode(Utf8.Encode(text.value));
      Base64.EncodeIsAsciiWithoutPadding(Utf8.Encode(text.value));
      AsciiAppend(Base64Prefix, encoded);
      Some(Base64Prefix + encoded)
  }

  /** What a consumer that knows the prefix convention recovers from an encoded value. */
  function FromHttpHeader(value: Option<string>): Option<string>
  {
    if value.None? || |value.value| < |Base64Prefix| || value.value[..|Base64Prefix|] != Base64Prefix then value
    else match Base64.Decode(value.value[|Base64Prefix|..])
      case None => value
      case Some(bytes) => match Utf8.Decode(bytes)
        case None => value
        case Some(text) => Some(text)
  }

  /** The encoded form of a non-ASCII text is the prefix and then its encoded bytes. */
  lemma NonAsciiEncodingSplits(text: string)
    requires !IsAscii(text)
    ensures var r := MakeCompatibleWithHttpHeader(Some(text)).value;
      && |r| >= |Base64Prefix|
      && r[..|Base64Prefix|] == Base64Prefix
      && r[|Base64Prefix|..] == Base64.Encode(Utf8.Encode(text))
  {
  }

  /** The encoded form of a non-ASCII text has the prefix, holds no `=`, and its
      remainder decodes to the text's UTF-8 bytes and from them to the text itself. */
  lemma NonAsciiEncoding(text: string)
    requires !IsAscii(text)
    ensures var r := MakeCompatibleWithHttpHeader(Some(text)).value;
      && |r| >= |Base64Prefix| && r[..|Base64Prefix|] == Base64Prefix
      && (forall i :: 0 <= i < |r| ==> r[i] != '=')
      && Base64.Decode(r[|Base64Prefix|..]) == Some(Utf8.Encode(text))
      && Utf8.Decode(Utf8.Encode(text)) == Some(text)
  {
    var bytes := Utf8.Encode(text);
    var r := MakeCompatibleWithHttpHeader(Some(text)).value;
    NonAsciiEncodingSplits(text);
    Base64.EncodeIsAsciiWithoutPadding(bytes);
    forall i | 0 <= i < |r| ensures r[i] != '=' {
      if i >= |Base64Prefix| {
        assert r[i] == r[|Base64Prefix|..][i - |Base64Prefix|];
      }
    }
    Base64.DecodeEncode(bytes);
    Utf8.DecodeEncode(text);
  }

  /** The encoding can be undone for every text except an all-ASCII one that already
      starts with the prefix. */
  lemma HttpHeaderRoundTrip(text: Option<string>)
    requires text.Some? && IsAscii(text.value) ==> !(|text.value| >= |Base64Prefix| && text.value[..|Base64Prefix|] == Base64Prefix)
    ensures FromHttpHeader(MakeCompatibleWithHttpHeader(text)) == text
  {
    if text.Some? && !IsAscii(text.value) {
      NonAsciiEncoding(text.value);
    }
  }

  /** The exception above is real: an all-ASCII text that looks like an encoding is sent
      as it is, and so collides with the encoding of a different, non-ASCII text. */
  lemma HttpHeaderCollision()
    ensures MakeCompatibleWithHttpHeader(Some("base64:0Ys")) == MakeCompatibleWithHttpHeader(Some("ы"))
  {
    assert !IsAscii("ы") by { assert ("ы"[0] as int) == 0x44b; }
    assert Utf8.Encode("ы") == [0xD1, 0x8B] by {
      assert "ы"[1..] == [];
    }
    assert Base64.Encode([0xD1, 0x8B]) == "0Ys";
    assert Base64Prefix + "0Ys" == "base64:0Ys";
    assert IsAscii("base64:0Ys");
  }

  // ---------------------------------------------------------------------------
  // Reasons and signals

  /** `String.format(pattern, code, description)` for the templates the model covers. */
  predicate ValidTemplate(template: string)
  {
    WellFormed(template) && Placeholders(template) <= 2
  }

  /** `String.format(patternReason, code, description)`. */
  function PrepareReason(template: string, code: string, description: Option<string>): (r: string)
    requires ValidTemplate(template)
    ensures template == DefaultPatternReason ==> r == "'" + code + "' - '" + Render(description) + "'"
    ensures (forall i :: 0 <= i < |template| ==> template[i] != '%') ==> r == template
  {
    DefaultPattern(code, Render(description));
    Format(template, [code, Render(description)])
  }

  /** The reason under the default template with an absent description. */
  lemma DefaultReasonWithoutDescription(code: string)
    ensures ValidTemplate(DefaultPatternReason)
    ensures PrepareReason(DefaultPatternReason, code, None) == "'" + code + "' - 'null'"
  {
    DefaultPattern(code, "null");
    var quoted := "'" + code;
    Associative(quoted + "' - '", "null", "'");
    Associative(quoted, "' - '", "null" + "'");
    QuotedNull();
  }

  /** Concatenation helper: the quoted `null` after the separator. */
  lemma QuotedNull()
    ensures "' - '" + ("null" + "'") == "' - 'null'"
  {
  }

  /** The signal for an error nobody configured: the message names code, description
      and state; the reason names code and description only, each made ASCII-safe. */
  function GetUnexpectedError(code: string, description: Option<string>, state: Option<string>): (o: Outcome)
    ensures o.Unexpected?
    ensures IsAscii(o.reason)
  {
    var reason := "code = " + Render(MakeCompatibleWithHttpHeader(Some(code)))
      + ", description = " + Render(MakeCompatibleWithHttpHeader(description));
    assert IsAscii(reason) by {
      assert IsAscii("null");
      AsciiAppend("code = ", Render(MakeCompatibleWithHttpHeader(Some(code))));
      AsciiAppend("code = " + Render(MakeCompatibleWithHttpHeader(Some(code))), ", description = ");
      AsciiAppend("code = " + Render(MakeCompatibleWithHttpHeader(Some(code))) + ", description = ",
                  Render(MakeCompatibleWithHttpHeader(description)));
    }
    Unexpected(
      "Unexpected result, code = " + code + ", description = " + Render(description) + ", state = " + Render(state),
      reason)
  }

  /** The state never reaches the reason; it shows only in the message. */
  lemma UnexpectedReasonIgnoresState(code: string, description: Option<string>, s1: Option<string>, s2: Option<string>)
    ensures GetUnexpectedError(code, description, s1).reason == GetUnexpectedError(code, description, s2).reason
    ensures Render(s1) != Render(s2) ==>
      GetUnexpectedError(code, description, s1).message != GetUnexpectedError(code, description, s2).message
  {
    if Render(s1) != Render(s2) {
      var prefix := "Unexpected result, code = " + code + ", description = " + Render(description) + ", state = ";
      var m1, m2 := GetUnexpectedError(code, description, s1).message, GetUnexpectedError(code, description, s2).message;
      assert m1 == prefix + Render(s1) && m2 == prefix + Render(s2);
      assert m1[|prefix|..] == Render(s1) && m2[|prefix|..] == Render(s2);
    }
  }

  /** Turns a reserved `mapping` into its signal; an opaque one lets the mapping go on. */
  function CheckWoodyError(error: Error, code: string, description: Option<string>): (a: Attempt<()>)
    ensures a.Returned? <==> ParseMapping(error.mapping).Opaque?
  {
    match ParseMapping(error.mapping)
    case Reserved(ResultUndefined) => Threw(Undefined(error, code, description))
    case Reserved(ResultUnavailable) => Threw(Unavailable(error, code, description))
    case Reserved(ResultUnexpected) => Threw(GetUnexpectedError(code, description, None))
    case Opaque(_) => Returned(())
  }

  // ---------------------------------------------------------------------------
  // The whole classification

  /** The first rule that applies, or the unexpected-error signal. */
  function SelectError(matches: (string, string) -> bool, rules: seq<Error>, code: string,
                     description: Option<string>, state: Option<string>): (a: Attempt<Error>)
    ensures a.Returned? <==> exists j :: 0 <= j < |rules| && MatchError(matches, rules[j], code, description, state)
    ensures a.Returned? ==> a.value in rules && MatchError(matches, a.value, code, description, state)
    ensures a.Threw? ==> a.signal.Unexpected?
  {
    match FirstMatch(matches, rules, code, description, state)
    case None => Threw(GetUnexpectedError(code, description, state))
    case Some(i) => Returned(rules[i])
  }

  /** `mapFailure(code, description, state)` of an object holding `template` and `rules`. */
  function Classify(env: Collaborators, template: string, rules: seq<Error>,
                    code: Option<string>, description: Option<string>, state: Option<string>): (o: Outcome)
    requires ValidTemplate(template)
    ensures o.NullCode? <==> code.None?
    ensures o.Unexpected? ==> IsAscii(o.reason)
    ensures o.Mapped? ==> o.failure.reason == Some(PrepareReason(template, code.value, description))
  {
    if code.None? then NullCode
    else match SelectError(env.matches, rules, code.value, description, state)
      case Threw(signal) => signal
      case Returned(error) =>
        match CheckWoodyError(error, code.value, description)
        case Threw(signal) => signal
        case Returned(_) =>
          Mapped(env.toGeneral(error.mapping).(reason := Some(PrepareReason(template, code.value, description))))
  }

  /** A null code is rejected whatever the rules, description and state. */
  lemma NullCodeRejected(env: Collaborators, template: string, rules: seq<Error>,
                         description: Option<string>, state: Option<string>)
    requires ValidTemplate(template)
    ensures Classify(env, template, rules, None, description, state) == NullCode
  {
  }

  /** Rules after the first one that applies never change which rule is selected. */
  lemma {:induction false} FirstMatchIgnoresLaterRules(matches: (string, string) -> bool, rules: seq<Error>,
      more: seq<Error>, code: string, description: Option<string>, state: Option<string>)
    requires FirstMatch(matches, rules, code, description, state).Some?
    ensures FirstMatch(matches, rules + more, code, description, state) == FirstMatch(matches, rules, code, description, state)
  {
    var i := FirstMatch(matches, rules, code, description, state).value;
    assert (rules + more)[i] == rules[i];
    assert forall j :: 0 <= j < i ==> (rules + more)[j] == rules[j];
  }

  /** ... and so never change the outcome. */
  lemma ClassifyIgnoresLaterRules(env: Collaborators, template: string, rules: seq<Error>, more: seq<Error>,
      code: string, description: Option<string>, state: Option<string>)
    requires ValidTemplate(template)
    requires FirstMatch(env.matches, rules, code, description, state).Some?
    ensures Classify(env, template, rules + more, Some(code), description, state)
         == Classify(env, template, rules, Some(code), description, state)
  {
    FirstMatchIgnoresLaterRules(env.matches, rules, more, code, description, state);
    var i := FirstMatch(env.matches, rules, code, description, state).value;
    assert (rules + more)[i] == rules[i];
  }

  /** Description matching: an absent pattern matches every description, an absent
      description is matched as `""`, a present one as itself. */
  lemma DescriptionMatching(matches: (string, string) -> bool, description: Option<string>, regex: Option<string>)
    ensures regex.None? ==> MatchNullableStrings(matches, description, regex)
    ensures regex.Some? && description.None? ==> (MatchNullableStrings(matches, description, regex) <==> matches("", regex.value))
    ensures regex.Some? && description.Some? ==>
      (MatchNullableStrings(matches, description, regex) <==> matches(description.value, regex.value))
  {
  }

  /** State matching is symmetric, treats absence on either side as a wildcard and
      otherwise means equality. */
  lemma StateMatching(a: Option<string>, b: Option<string>)
    ensures EqualsNullableStrings(a, b) <==> EqualsNullableStrings(b, a)
    ensures a.None? || b.None? ==> EqualsNullableStrings(a, b)
    ensures a.Some? && b.Some? ==> (EqualsNullableStrings(a, b) <==> a == b)
  {
  }

  /** When no rule applies the outcome is the unexpected-error signal, whose reason is
      built from the ASCII-safe code and description only. */
  lemma NoMatchIsUnexpected(env: Collaborators, template: string, rules: seq<Error>,
      code: string, description: Option<string>, state: Option<string>)
    requires ValidTemplate(template)
    requires forall j :: 0 <= j < |rules| ==> !MatchError(env.matches, rules[j], code, description, state)
    ensures var o := Classify(env, template, rules, Some(code), description, state);
      && o.Unexpected?
      && o.reason == "code = " + Render(MakeCompatibleWithHttpHeader(Some(code)))
                     + ", description = " + Render(MakeCompatibleWithHttpHeader(description))
      && IsAscii(o.reason)
  {
  }

  /** A rule whose mapping is a reserved keyword signals without consulting the taxonomy
      mapper: `ResultUnknown` is Undefined, `ResourceUnavailable` is Unavailable, and
      `ResultUnexpected` carries the same reason as when no rule applies. */
  lemma ReservedKeywordsShortCircuit(env: Collaborators, template: string, rules: seq<Error>,
      code: string, description: Option<string>, state: Option<string>, other: string -> Failure)
    requires ValidTemplate(template)
    requires FirstMatch(env.matches, rules, code, description, state).Some?
    requires ParseMapping(rules[FirstMatch(env.matches, rules, code, description, state).value].mapping).Reserved?
    ensures var i := FirstMatch(env.matches, rules, code, description, state).value;
      var o := Classify(env, template, rules, Some(code), description, state);
      && !o.Mapped?
      && (rules[i].mapping == "ResultUnknown" ==> o == Undefined(rules[i], code, description))
      && (rules[i].mapping == "ResourceUnavailable" ==> o == Unavailable(rules[i], code, description))
      && (rules[i].mapping == "ResultUnexpected" ==>
            o.Unexpected? && o.reason == GetUnexpectedError(code, description, state).reason)
      && o == Classify(env.(toGeneral := other), template, rules, Some(code), description, state)
  {
    UnexpectedReasonIgnoresState(code, description, None, state);
  }

  /** Any other mapping yields the taxonomy mapper's failure with only its reason
      replaced by the formatted code and description. */
  lemma NormalOutcome(env: Collaborators, template: string, rules: seq<Error>,
      code: string, description: Option<string>, state: Option<string>)
    requires ValidTemplate(template)
    requires FirstMatch(env.matches, rules, code, description, state).Some?
    requires ParseMapping(rules[FirstMatch(env.matches, rules, code, description, state).value].mapping).Opaque?
    ensures var i := FirstMatch(env.matches, rules, code, description, state).value;
      var o := Classify(env, template, rules, Some(code), description, state);
      var general := env.toGeneral(rules[i].mapping);
      && o.Mapped?
      && o.failure.code == general.code
      && o.failure.sub == general.sub
      && o.failure.reason == Some(Format(template, [code, Render(description)]))
  {
  }

  // ---------------------------------------------------------------------------
  // The object

  /** An error mapping: a reason template and an ordered list of rules, both fixed at
      construction, together with the collaborators it calls. */
  class ErrorMapping {
    const patternReason: string
    const errors: seq<Error>
    const env: Collaborators

    predicate Valid()
    {
      ValidTemplate(patternReason)
    }

    constructor (patternReason: string, errors: seq<Error>, env: Collaborators)
      requires ValidTemplate(patternReason)
      ensures Valid()
      ensures this.patternReason == patternReason && this.errors == errors && this.env == env
    {
      this.patternReason := patternReason;
      this.errors := errors;
      this.env := env;
    }

    /** The first configured rule that applies, scanning in list order. */
    method FindErrorInConfig(code: string, description: Option<string>, state: Option<string>)
      returns (found: Option<Error>)
      ensures match FirstMatch(env.matches, errors, code, description, state)
        case None => found.None?
        case Some(i) => found == Some(errors[i])
    {
      for i := 0 to |errors|
        invariant forall j :: 0 <= j < i ==> !MatchError(env.matches, errors[j], code, description, state)
      {
        if MatchError(env.matches, errors[i], code, description, state) {
          return Some(errors[i]);
        }
      }
      return None;
    }

    /** The first configured rule that applies, or the unexpected-error signal. */
    method FindError(code: string, description: Option<string>, state: Option<string>)
      returns (a: Attempt<Error>)
      ensures a == SelectError(env.matches, errors, code, description, state)
    {
      var found := FindErrorInConfig(code, description, state);
      if found.None? {
        return Threw(GetUnexpectedError(code, description, state));
      }
      return Returned(found.value);
    }

    method MapFailure(code: Option<string>, description: Option<string>, state: Option<string>)
      returns (o: Outcome)
      requires Valid()
      ensures o == Classify(env, patternReason, errors, code, description, state)
    {
      if code.None? {
        return NullCode;
      }
      var error := FindError(code.value, description, state);
      if error.Threw? {
        return error.signal;
      }
      var check := CheckWoodyError(error.value, code.value, description);
      if check.Threw? {
        return check.signal;
      }
      var failure := env.toGeneral(error.value.mapping);
      failure := failure.(reason := Some(PrepareReason(patternReason, code.value, description)));
      return Mapped(failure);
    }

    /** `mapFailure(code)`: no description and no state. */
    method MapFailureOfCode(code: Option<string>) returns (o: Outcome)
      requires Valid()
      ensures o == Classify(env, patternReason, errors, code, None, None)
    {
      o := MapFailure(code, None, None);
    }

    /** `mapFailure(code, description)`: no state. */
    method MapFailureOfCodeAndDescription(code: Option<string>, description: Option<string>) returns (o: Outcome)
      requires Valid()
      ensures o == Classify(env, patternReason, errors, code, description, None)
    {
      o := MapFailure(code, description, None);
    }
  }
}
