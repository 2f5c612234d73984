/**
 * The unit tests of the error mapping, as lemmas. Their patterns contain no regex
 * metacharacters, so full matching is string equality; the taxonomy mapper is left
 * arbitrary, so each scenario holds whatever failure it builds.
 */
module MapperScenarios {
  import opened Wrappers
  import opened MapperModel
  import opened Formatting
  import opened Mapper

  /** Full matching against a pattern without metacharacters. */
  function Literal(s: string, regex: string): bool
  {
    s == regex
  }

  const MerchantId := Error("00001", Some("Invalid Merchant ID"), None, "authorization_failed:unknown")
  const MerchantName := Error("00002", Some("Invalid Merchant Name"), None, "authorization_failed:provider_malfunction")
  const AnyDescription := Error("00001", None, None, "authorization_failed:insufficient_funds")

  /** A code no rule names is unexpected. */
  lemma UnknownCodeScenario(toGeneral: string -> Failure)
    ensures ValidTemplate(DefaultPatternReason)
    ensures Classify(Collaborators(Literal, toGeneral), DefaultPatternReason,
                     [MerchantId, MerchantName], Some("unknown"), None, None).Unexpected?
  {
    DefaultPatternWellFormed();
    NoMatchIsUnexpected(Collaborators(Literal, toGeneral), DefaultPatternReason,
                        [MerchantId, MerchantName], "unknown", None, None);
  }

  /** A code whose only rule wants a description that is absent is unexpected. */
  lemma MissingDescriptionScenario(toGeneral: string -> Failure)
    ensures ValidTemplate(DefaultPatternReason)
    ensures Classify(Collaborators(Literal, toGeneral), DefaultPatternReason,
                     [MerchantId, MerchantName], Some("00001"), None, None).Unexpected?
  {
    DefaultPatternWellFormed();
    assert !MatchError(Literal, MerchantId, "00001", None, None);
    NoMatchIsUnexpected(Collaborators(Literal, toGeneral), DefaultPatternReason,
                        [MerchantId, MerchantName], "00001", None, None);
  }

  /** With a later rule that has no description pattern, that rule is selected and its
      failure carries the quoted code and `null`. */
  lemma FallbackRuleScenario(toGeneral: string -> Failure)
    ensures ValidTemplate(DefaultPatternReason)
    ensures Classify(Collaborators(Literal, toGeneral), DefaultPatternReason,
                     [MerchantId, MerchantName, AnyDescription], Some("00001"), None, None)
         == Mapped(toGeneral("authorization_failed:insufficient_funds").(reason := Some("'00001' - 'null'")))
  {
    var rules := [MerchantId, MerchantName, AnyDescription];
    var env := Collaborators(Literal, toGeneral);
    DefaultReasonWithoutDescription("00001");
    FallbackRuleSelected();
    assert rules[2].mapping == "authorization_failed:insufficient_funds";
    NormalOutcome(env, DefaultPatternReason, rules, "00001", None, None);
    var o := Classify(env, DefaultPatternReason, rules, Some("00001"), None, None);
    var general := toGeneral("authorization_failed:insufficient_funds");
    FallbackReasonText();
    assert o.failure.reason == Some("'00001' - 'null'");
    assert o.failure == general.(reason := Some("'00001' - 'null'"));
  }

  lemma FallbackRuleSelected()
    ensures FirstMatch(Literal, [MerchantId, MerchantName, AnyDescription], "00001", None, None) == Some(2)
  {
    var rules := [MerchantId, MerchantName, AnyDescription];
    assert !MatchError(Literal, rules[0], "00001", None, None);
    assert !MatchError(Literal, rules[1], "00001", None, None);
    assert MatchError(Literal, rules[2], "00001", None, None);
  }

  /** The code of the non-ASCII test, U+044B, whose UTF-8 bytes are D1 8B. */
  lemma CyrillicEncoding()
    ensures MakeCompatibleWithHttpHeader(Some("ы")) == Some("base64:0Ys")
  {
    assert !IsAscii("ы") by { assert ("ы"[0] as int) == 0x44b; }
    assert Utf8.Encode("ы") == [0xD1, 0x8B] by {
      assert "ы"[1..] == [];
    }
    assert Base64.Encode([0xD1, 0x8B]) == "0Ys";
    assert Base64Prefix + "0Ys" == "base64:0Ys";
  }

  /** Concatenation helper: the expected reason of the fallback rule. */
  lemma FallbackReasonText()
    ensures "'" + "00001" + "' - 'null'" == "'00001' - 'null'"
  {
  }

  /** Concatenation helper: the expected reason of the non-ASCII code. */
  lemma NonAsciiReasonText()
    ensures "code = " + "base64:0Ys" + ", description = " + "null" == "code = base64:0Ys, description = null"
  {
  }

  /** A non-ASCII code with no rule at all, under any template: its reason carries the
      code as the Base64 of its UTF-8 bytes, and the absent description as `null`. */
  lemma NonAsciiScenario(env: Collaborators, template: string)
    requires ValidTemplate(template)
    ensures Classify(env, template, [], Some("ы"), None, None).reason
         == "code = base64:0Ys, description = null"
  {
    CyrillicEncoding();
    NoMatchIsUnexpected(env, template, [], "ы", None, None);
    NonAsciiReasonText();
  }

  /** A rule that wants a description does not apply to an absent one... */
  lemma DescriptionRequiredScenario(toGeneral: string -> Failure)
    ensures ValidTemplate(DefaultPatternReason)
    ensures Classify(Collaborators(Literal, toGeneral), DefaultPatternReason,
                     [Error("01", Some("desc"), None, "authorization_failed:unknown")], Some("01"), None, None).Unexpected?
  {
    DefaultPatternWellFormed();
    var rule := Error("01", Some("desc"), None, "authorization_failed:unknown");
    assert !MatchError(Literal, [rule][0], "01", None, None);
    NoMatchIsUnexpected(Collaborators(Literal, toGeneral), DefaultPatternReason, [rule], "01", None, None);
  }

  /** ... and once its description pattern is removed it does. Rules are values here,
      so the rule changed after construction is stood for by a fresh one-rule list. */
  lemma DescriptionDroppedScenario(toGeneral: string -> Failure)
    ensures ValidTemplate(DefaultPatternReason)
    ensures Classify(Collaborators(Literal, toGeneral), DefaultPatternReason,
                     [Error("01", None, None, "authorization_failed:unknown")], Some("01"), None, None).Mapped?
  {
    DefaultPatternWellFormed();
    var rule := Error("01", None, None, "authorization_failed:unknown");
    assert MatchError(Literal, [rule][0], "01", None, None);
    NormalOutcome(Collaborators(Literal, toGeneral), DefaultPatternReason, [rule], "01", None, None);
  }

  /** The encoding of the one-character text U+00D1, whose UTF-8 bytes are C3 91. */
  lemma LatinScenario()
    ensures MakeCompatibleWithHttpHeader(Some("Ñ")) == Some("base64:w5E")
  {
    assert !IsAscii("Ñ") by { assert ("Ñ"[0] as int) == 0xd1; }
    assert Utf8.Encode("Ñ") == [0xC3, 0x91] by {
      assert "Ñ"[1..] == [];
    }
    assert Base64.Encode([0xC3, 0x91]) == "w5E";
    assert Base64Prefix + "w5E" == "base64:w5E";
  }

  /** A reserved keyword in the first rule that applies wins over a later rule that
      would have produced a failure. */
  lemma ReservedAheadScenario(toGeneral: string -> Failure)
    ensures ValidTemplate(DefaultPatternReason)
    ensures Classify(Collaborators(Literal, toGeneral), DefaultPatternReason,
                     [Error("00001", None, None, "ResultUnknown"), AnyDescription], Some("00001"), None, None)
         == Undefined(Error("00001", None, None, "ResultUnknown"), "00001", None)
  {
    DefaultReasonWithoutDescription("00001");
    assert MatchError(Literal, Error("00001", None, None, "ResultUnknown"), "00001", None, None);
  }
}
