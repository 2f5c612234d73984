# ErrorMapping, modelled in Dafny

This project models the rule-based error classifier `ErrorMapping` of the
error-mapping library (package `dev.vality.adapter.common.v2.mapper`). An
`ErrorMapping` is built from a reason template and an ordered list of rules
(`Error` records: `codeRegex`, `descriptionRegex`, `state`, `mapping`). Its
`mapFailure(code, description, state)` does the following:

- rejects a null code;
- selects the first rule that applies to the code, description and state;
- turns a missing rule into an "unexpected" error;
- turns the reserved mappings `ResultUnknown`, `ResourceUnavailable` and
  `ResultUnexpected` into their signals;
- otherwise asks the taxonomy mapper for the structured `Failure` of the rule's
  mapping and replaces its reason with the formatted code and description.

The reason of the "unexpected" error passes the code and the description through
an ASCII-safe encoding. Absent and all-ASCII text stays as it is. Any other text
becomes `base64:` followed by the unpadded standard Base64 (section 4 of
RFC 4648) of its UTF-8 bytes.

Modules:

- `Wrappers` and `Bytes`: `Option` and the byte type.
- `Utf8`: the UTF-8 encoding of a string, and a decoder as its partner.
- `Base64`: the unpadded encoder, and a decoder as its partner.
- `Formatting`: the part of `String.format` the reason template uses (`%s`, `%%`,
  and a null argument printed as `null`).
- `MapperModel`: the `Error` rule, the reserved keywords, and the `Failure` record.
- `Mapper`:
  - the matching predicates;
  - the first-match search `FirstMatch`;
  - the ASCII-safe encoding;
  - the whole classification as the function `Classify`;
  - the class `ErrorMapping`, whose fields are set once by its constructor and
    whose methods are proved to compute `Classify`.
- `MapperScenarios`: the unit tests of the classifier, stated as lemmas.

Java exceptions are the variants of the datatype `Mapper.Outcome`:

- `Mapped`: a returned failure.
- `NullCode`: the null-code `NullPointerException`.
- `Undefined`: `WUndefinedResultException`.
- `Unavailable`: `WUnavailableResultException`.
- `Unexpected`: `WRuntimeException`, with its message and the reason of its error
  definition.

The two collaborators the classifier calls but does not define are fields of
`Mapper.Collaborators`, so every property holds for every choice of them:

- the full-string regex match `String.matches`;
- the taxonomy mapper `TErrorUtil.toGeneral`.

The scenarios use literal equality as the regex match, since the test patterns
hold no metacharacters.

The non-ASCII unit test shows its code as the two characters `Ñ‹`. That is how
the UTF-8 bytes `D1 8B` of U+044B (`ы`) read when decoded as Windows-1252. The expected reason `base64:0Ys` is the
encoding of exactly those two bytes, so the scenario uses `ы`.

## Model

| member | source | states |
|---|---|---|
| MapperModel.ParseMapping | src/main/java/dev/vality/adapter/common/v2/mapper/model/MappingExceptions.java:10-12 | A mapping is reserved exactly when it equals the spelling of one of the three keywords. Otherwise it is an opaque key equal to the mapping itself. |
| MapperModel.ParseKeyword | src/main/java/dev/vality/adapter/common/v2/mapper/model/MappingExceptions.java:10-12 | The three keyword spellings are distinct, so each one is read back as its own reserved value. |
| Mapper.FirstMatch | src/main/java/dev/vality/adapter/common/v2/mapper/ErrorMapping.java:86-91 | A returned position is in range and its rule applies. No earlier rule applies. No position exactly when no rule at all applies. |
| Mapper.FirstMatchIgnoresLaterRules | src/main/java/dev/vality/adapter/common/v2/mapper/ErrorMapping.java:88-90 | Once some rule applies, appending rules after the list does not change which one is selected. |
| Mapper.ClassifyIgnoresLaterRules | src/main/java/dev/vality/adapter/common/v2/mapper/ErrorMapping.java:58-64 | Once some rule applies, appending rules does not change the outcome of `mapFailure`. |
| Mapper.DescriptionMatching | src/main/java/dev/vality/adapter/common/v2/mapper/ErrorMapping.java:93-99 | An absent description pattern matches every description, including an absent one. Otherwise an absent description is matched as `""` and a present one as itself. |
| Mapper.StateMatching | src/main/java/dev/vality/adapter/common/v2/mapper/ErrorMapping.java:101-106 | The state check is symmetric. It holds whenever either side is absent. Otherwise it holds exactly when the two states are equal. |
| Mapper.ContainsNonAsciiSymbols | src/main/java/dev/vality/adapter/common/v2/mapper/ErrorMapping.java:156-163 | The loop with an early exit returns true exactly when some character is at or above 0x80. |
| Mapper.MakeCompatibleWithHttpHeader | src/main/java/dev/vality/adapter/common/v2/mapper/ErrorMapping.java:148-154 | Absent text stays absent and all-ASCII text is unchanged. Other text becomes the prefix followed by the Base64 of its UTF-8 bytes. Every result is all-ASCII. |
| Mapper.NonAsciiEncoding | src/main/java/dev/vality/adapter/common/v2/mapper/ErrorMapping.java:152-153 | An encoded non-ASCII text starts with `base64:` and holds no `=`. Its remainder decodes to the text's UTF-8 bytes, and those bytes decode to the text. |
| Mapper.HttpHeaderRoundTrip | src/main/java/dev/vality/adapter/common/v2/mapper/ErrorMapping.java:148-154 | A consumer that knows the prefix recovers every input, except an all-ASCII text that already starts with `base64:`. |
| Mapper.HttpHeaderCollision | src/main/java/dev/vality/adapter/common/v2/mapper/ErrorMapping.java:149-150 | That exception is real: the ASCII text `base64:0Ys` and the text `ы` are sent as the same value. |
| Mapper.GetUnexpectedError | src/main/java/dev/vality/adapter/common/v2/mapper/ErrorMapping.java:137-146 | The result is the unexpected-error signal, and its reason is all-ASCII. |
| Mapper.UnexpectedReasonIgnoresState | src/main/java/dev/vality/adapter/common/v2/mapper/ErrorMapping.java:138-144 | The state never changes the reason. Two states that print differently give different messages. |
| Mapper.CheckWoodyError | src/main/java/dev/vality/adapter/common/v2/mapper/ErrorMapping.java:125-135 | The check lets the mapping go on exactly when the rule's mapping is not a reserved keyword. |
| Mapper.NullCodeRejected | src/main/java/dev/vality/adapter/common/v2/mapper/ErrorMapping.java:86-87 | An absent code is rejected, whatever the rules, description and state. |
| Mapper.NoMatchIsUnexpected | src/main/java/dev/vality/adapter/common/v2/mapper/ErrorMapping.java:81-84 | When no rule applies, the outcome is Unexpected. Its reason is `code = <enc(code)>, description = <enc(description)>`, with an absent description as `null`, and it is all-ASCII. |
| Mapper.ReservedKeywordsShortCircuit | src/main/java/dev/vality/adapter/common/v2/mapper/ErrorMapping.java:125-135 | A reserved mapping never yields a failure: `ResultUnknown` gives Undefined, `ResourceUnavailable` gives Unavailable, and `ResultUnexpected` gives the no-match reason. The outcome is the same for every taxonomy mapper. |
| Mapper.NormalOutcome | src/main/java/dev/vality/adapter/common/v2/mapper/ErrorMapping.java:59-63 | An opaque mapping yields the taxonomy mapper's failure for that mapping. Its code and sub-failure are kept, and its reason is the template formatted with the code and the printed description. |
| Mapper.DefaultReasonWithoutDescription | src/main/java/dev/vality/adapter/common/v2/mapper/ErrorMapping.java:121-123 | Under the default template an absent description prints as `'<code>' - 'null'`. |
| Mapper.MatchNullableStrings | src/main/java/dev/vality/adapter/common/v2/mapper/ErrorMapping.java:93-99 | An absent pattern matches. An absent description is matched as `""`. `Mapper.DescriptionMatching` states all three cases. |
| Mapper.EqualsNullableStrings | src/main/java/dev/vality/adapter/common/v2/mapper/ErrorMapping.java:101-106 | Absence on either side matches. Otherwise the check holds exactly when the two states are equal. `Mapper.StateMatching` adds symmetry. |
| Mapper.MatchError | src/main/java/dev/vality/adapter/common/v2/mapper/ErrorMapping.java:108-112 | A rule applies only if the code matches its code pattern. A rule with no description pattern and no state applies exactly when the code matches. An absent state on either side leaves only the code and description tests. |
| Mapper.SelectError | src/main/java/dev/vality/adapter/common/v2/mapper/ErrorMapping.java:81-84 | A rule is returned exactly when some rule applies. The returned rule is one of the rules and applies. Otherwise the unexpected-error signal is thrown. `Mapper.FirstMatch` fixes which rule is returned. |
| Mapper.Classify | src/main/java/dev/vality/adapter/common/v2/mapper/ErrorMapping.java:58-64 | The outcome is NullCode exactly when the code is absent. An Unexpected reason is all-ASCII. A Mapped failure's reason is the prepared reason. `Mapper.NullCodeRejected`, `Mapper.NoMatchIsUnexpected`, `Mapper.ReservedKeywordsShortCircuit` and `Mapper.NormalOutcome` characterise each case. |
| Mapper.PrepareReason | src/main/java/dev/vality/adapter/common/v2/mapper/ErrorMapping.java:121-123 | Requires a template of `%s` and `%%` only, with at most two `%s`. Under the default template the result is `'<code>' - '<description>'`, with an absent description as `null`. A template without `%` is returned as it is. |
| Formatting.Format | src/main/java/dev/vality/adapter/common/v2/mapper/ErrorMapping.java:122 | A template without `%` prints as it is. `Formatting.FormatAppend` and `Formatting.DefaultPattern` state how conversions take the arguments. |
| Formatting.Render | src/main/java/dev/vality/adapter/common/v2/mapper/ErrorMapping.java:138-139 | A present argument prints as itself. An absent one prints as `null`, as `%s` does with a null argument. |
| Mapper.ErrorMapping.constructor | src/main/java/dev/vality/adapter/common/v2/mapper/ErrorMapping.java:45-48 | The object holds the given template and rules. |
| Mapper.ErrorMapping.FindErrorInConfig | src/main/java/dev/vality/adapter/common/v2/mapper/ErrorMapping.java:86-91 | The scan returns the rule at the first matching position, or nothing when no rule applies. |
| Mapper.ErrorMapping.FindError | src/main/java/dev/vality/adapter/common/v2/mapper/ErrorMapping.java:81-84 | Returns that rule, or throws the unexpected-error signal built with the state. |
| Mapper.ErrorMapping.MapFailure | src/main/java/dev/vality/adapter/common/v2/mapper/ErrorMapping.java:58-64 | The method's outcome is `Classify` of the object's template and rules, which the lemmas above characterise. |
| Mapper.ErrorMapping.MapFailureOfCode | src/main/java/dev/vality/adapter/common/v2/mapper/ErrorMapping.java:50-52 | The one-argument overload is the classification with an absent description and state. |
| Mapper.ErrorMapping.MapFailureOfCodeAndDescription | src/main/java/dev/vality/adapter/common/v2/mapper/ErrorMapping.java:54-56 | The two-argument overload is the classification with an absent state. |
| Formatting.DefaultPattern | src/main/java/dev/vality/adapter/common/v2/mapper/ErrorMapping.java:22 | The default template has two conversions and quotes the code and the description as `'<code>' - '<description>'`. |
| Formatting.FormatAppend | src/main/java/dev/vality/adapter/common/v2/mapper/ErrorMapping.java:121-123 | Formatting a concatenated template is formatting each part in turn, the second part taking the arguments the first leaves over. |
| Formatting.FormatLiteral | src/main/java/dev/vality/adapter/common/v2/mapper/ErrorMapping.java:121-123 | A template without `%` prints as it is. |
| Base64.Encode | src/main/java/dev/vality/adapter/common/v2/mapper/ErrorMapping.java:153 | The unpadded encoding of n bytes has (4n+2)/3 symbols, all from the standard alphabet. |
| Base64.DecodeEncode | src/main/java/dev/vality/adapter/common/v2/mapper/ErrorMapping.java:153 | Decoding the unpadded encoding gives the original bytes back. |
| Base64.EncodeIsAsciiWithoutPadding | src/main/java/dev/vality/adapter/common/v2/mapper/ErrorMapping.java:153 | Every symbol of the encoding is below 0x80 and none is `=`. |
| Utf8.EncodeChar | src/main/java/dev/vality/adapter/common/v2/mapper/ErrorMapping.java:153 | A character takes one to four bytes. It takes one byte, equal to its code point, exactly when it is below 0x80. The later bytes are continuation bytes. |
| Utf8.Encode | src/main/java/dev/vality/adapter/common/v2/mapper/ErrorMapping.java:153 | A text of n characters takes between n and 4n bytes, and only the empty text takes none. |
| Utf8.DecodeEncode | src/main/java/dev/vality/adapter/common/v2/mapper/ErrorMapping.java:153 | Decoding the UTF-8 bytes of a text gives the text back. |
| Utf8.EncodeInjective | src/main/java/dev/vality/adapter/common/v2/mapper/ErrorMapping.java:153 | Different texts have different UTF-8 bytes. |
| MapperScenarios.UnknownCodeScenario | src/test/java/dev/vality/adapter/common/mapper/ErrorMappingTest.java:24 | A code no rule names is Unexpected. |
| MapperScenarios.MissingDescriptionScenario | src/test/java/dev/vality/adapter/common/mapper/ErrorMappingTest.java:25 | Code `00001` with an absent description is Unexpected, because the only rule for that code requires the description `Invalid Merchant ID`. |
| MapperScenarios.FallbackRuleSelected | src/test/java/dev/vality/adapter/common/mapper/ErrorMappingTest.java:27-30 | With a third rule that has no description pattern, the third rule is the one selected. |
| MapperScenarios.FallbackRuleScenario | src/test/java/dev/vality/adapter/common/mapper/ErrorMappingTest.java:30-33 | That rule yields the taxonomy failure for `authorization_failed:insufficient_funds` with reason `'00001' - 'null'`. |
| MapperScenarios.CyrillicEncoding | src/test/java/dev/vality/adapter/common/mapper/ErrorMappingTest.java:39-40 | U+044B is sent as `base64:0Ys`. |
| MapperScenarios.NonAsciiScenario | src/test/java/dev/vality/adapter/common/mapper/ErrorMappingTest.java:37-40 | With no rules and any template, that code gives the reason `code = base64:0Ys, description = null`. |
| MapperScenarios.DescriptionRequiredScenario | src/test/java/dev/vality/adapter/common/mapper/ErrorMappingTest.java:45-50 | A rule with a description pattern does not apply to an absent description. |
| MapperScenarios.DescriptionDroppedScenario | src/test/java/dev/vality/adapter/common/mapper/ErrorMappingTest.java:52-53 | Without that pattern, the rule applies and the outcome is a failure. |
| MapperScenarios.LatinScenario | src/main/java/dev/vality/adapter/common/v2/mapper/ErrorMapping.java:148-154 | U+00D1, whose UTF-8 bytes are C3 91, is sent as `base64:w5E`. |
| MapperScenarios.ReservedAheadScenario | src/main/java/dev/vality/adapter/common/v2/mapper/ErrorMapping.java:125-128 | A `ResultUnknown` rule ahead of a rule with a real mapping gives Undefined, carrying that rule, code and description. |

## Left out

- Loading the rules from JSON is not modelled. This covers `initErrorList` and the `InputStream` / `ObjectMapper` constructors (ErrorMapping.java lines 33-43 and 66-79). It is deserialisation I/O. The model starts from the `(patternReason, errors)` constructor.
- The Java regex engine is not modelled. `String.matches` is the field `matches` of `Collaborators`, an arbitrary total predicate. An invalid pattern's `PatternSyntaxException` is therefore not modelled.
- The taxonomy mapper is not modelled. `TErrorUtil.toGeneral` is the field `toGeneral` of `Collaborators`, a total function. A key it rejects and the exception it then throws are not modelled. Its `Failure` is a record of code, reason and sub-failure.
- Undefined and Unavailable do not carry message text. Their messages embed the rule's generated `toString`, so these variants carry the rule, code and description instead.
- The error definition's source and type of the unexpected error are not modelled. They are always INTERNAL and UNEXPECTED_ERROR, so the `Unexpected` variant implies them.
- A null `codeRegex`, a null rule list and null list elements are not modelled. Each ends in a `NullPointerException` in the source, and the record types here have no null.
- A null `mapping` is not modelled. In the source it fails the three keyword comparisons (ErrorMapping.java lines 126-132) and is passed to `TErrorUtil.toGeneral` (line 61). What happens next is up to that external mapper, which is not part of this model.
- A null `patternReason` is not modelled. The source accepts one at construction (lines 45-48). Only the normal path then fails, in `String.format` (line 122). The signals for reserved mappings and for a missing rule are unaffected.
- The rule list, description and state are never null as a whole. Absent description and state are `None`.
- Mapper.ErrorMapping.constructor: requires the template to use only `%s` and `%%`, with at most two `%s`, because only that part of `String.format` is modelled. Other templates, and the exceptions `String.format` raises for them in `mapFailure`, are left out. `MapFailure` and its overloads carry the same precondition through `Valid()`.
- Mapper.PrepareReason: requires the same restricted template, for the same reason.
- Mapper.Classify: requires the same restricted template, for the same reason.
- UTF-16 is not modelled. A Dafny `char` is a Unicode scalar value, so text is a sequence of code points. An unpaired surrogate, which Java's UTF-8 encoder replaces with `?`, cannot occur. A supplementary character counts as one non-ASCII character, where Java sees two surrogates; both give the same ASCII test and the same UTF-8 bytes.
- The shared `CharsetEncoder` and concurrent use of one `ErrorMapping` are not modelled. The model is sequential.
- Later changes to the caller's rules are not modelled. In the source, `Error` is a mutable record and the constructor keeps the caller's list by reference (line 47). A change made after construction to a rule or to the list therefore changes what the same `ErrorMapping` returns. Here rules are values and `errors` is a snapshot taken at construction. `MapperScenarios.DescriptionDroppedScenario` stands for the test's changed rule with a fresh one-rule list.
- `setReason` on the mapper's result is not modelled as an in-place change. Its effect is a datatype update of the returned `Failure`, so aliasing of that object is not captured.
- The null-code check is at the start of `MapFailure` rather than inside the first-match scan. Nothing happens before the check in the source, so the outcome is the same.
- The non-v2 copy of the keyword enum is not modelled, because it is identical to the v2 one. The unit tests belong to the non-v2 package. Their expectations are used as scenarios for the v2 logic.
