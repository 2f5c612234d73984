/**
 * The records the error mapping works on: a configured rule (`Error`), the three
 * reserved mapping keywords (`MappingExceptions`) and the structured failure that the
 * external taxonomy mapper builds.
 */
module MapperModel {
  import opened Wrappers

  /** One configured rule. `codeRegex` and `mapping` are required; an absent
      `descriptionRegex` or `state` matches anything. */
  datatype Error = Error(
    codeRegex: string,
    descriptionRegex: Option<string>,
    state: Option<string>,
    mapping: string)

  /** The reserved values of a rule's `mapping` that signal instead of mapping. */
  datatype MappingException = ResultUnavailable | ResultUndefined | ResultUnexpected

  /** The keyword a rule's `mapping` spells each reserved value with. */
  function Keyword(e: MappingException): (k: string)
    ensures |k| > 0
  {
    match e
    case ResultUnavailable => "ResourceUnavailable"
    case ResultUndefined => "ResultUnknown"
    case ResultUnexpected => "ResultUnexpected"
  }

  /** A rule's `mapping`, read as either a reserved keyword or an opaque taxonomy key. */
  datatype Mapping = Reserved(exception: MappingException) | Opaque(key: string)

  /** Reads `mapping` by exact string comparison with the three keywords. */
  function ParseMapping(mapping: string): (m: Mapping)
    ensures m.Reserved? ==> Keyword(m.exception) == mapping
    ensures m.Opaque? ==> m.key == mapping
    ensures m.Opaque? <==> forall e: MappingException :: Keyword(e) != mapping
  {
    if mapping == Keyword(ResultUndefined) then Reserved(ResultUndefined)
    else if mapping == Keyword(ResultUnavailable) then Reserved(ResultUnavailable)
    else if mapping == Keyword(ResultUnexpected) then Reserved(ResultUnexpected)
    else Opaque(mapping)
  }

  /** The three keywords are distinct, so each one is read back as itself. */
  lemma ParseKeyword(e: MappingException)
    ensures ParseMapping(Keyword(e)) == Reserved(e)
  {
  }

  /** The external `SubFailure`: a code and an optional deeper sub-failure. */
  datatype SubFailure = SubFailure(code: string, sub: Option<SubFailure>)

  /** The external `Failure`: a code, a free-text reason and an optional sub-failure. */
  datatype Failure = Failure(code: string, reason: Option<string>, sub: Option<SubFailure>)
}
