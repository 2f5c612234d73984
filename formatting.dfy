/**
 * The part of `String.format` the reason template uses: `%s` takes the next argument
 * (a null argument prints as `null`), `%%` prints one `%`, every other character is
 * copied as it is.
 */
module Formatting {
  import opened Wrappers

  /** How `%s` prints a possibly-null string argument. */
  function Render(s: Option<string>): (r: string)
    ensures s.Some? ==> r == s.value
    ensures s.None? ==> r == "null"
  {
    s.GetOr("null")
  }

  /** Every `%` in `t` starts a `%s` or a `%%`. */
  predicate WellFormed(t: string)
    decreases |t|
  {
    if t == [] then true
    else if t[0] == '%' then |t| >= 2 && (t[1] == 's' || t[1] == '%') && WellFormed(t[2..])
    else WellFormed(t[1..])
  }

  /** The number of `%s` conversions in a well-formed template. */
  function Placeholders(t: string): nat
    requires WellFormed(t)
    decreases |t|
  {
    if t == [] then 0
    else if t[0] == '%' then (if t[1] == 's' then 1 else 0) + Placeholders(t[2..])
    else Placeholders(t[1..])
  }

  /** Substitutes the arguments, in order, for the `%s` conversions of `t`. */
  function Format(t: string, args: seq<string>): (r: string)
    requires WellFormed(t) && Placeholders(t) <= |args|
    ensures (forall i :: 0 <= i < |t| ==> t[i] != '%') ==> r == t
    decreases |t|
  {
    if t == [] then ""
    else if t[0] == '%' then
      if t[1] == 's' then args[0] + Format(t[2..], args[1..])
      else "%" + Format(t[2..], args)
    else [t[0]] + Format(t[1..], args)
  }

  /** A template without `%` is printed as it is, whatever the arguments. */
  lemma {:induction false} FormatLiteral(t: string, args: seq<string>)
    requires forall i :: 0 <= i < |t| ==> t[i] != '%'
    ensures WellFormed(t) && Placeholders(t) == 0
    ensures Format(t, args) == t
    decreases |t|
  {
    if t != [] {
      FormatLiteral(t[1..], args);
      assert [t[0]] + t[1..] == t;
    }
  }

  /** Concatenating two well-formed templates gives a well-formed template with the
      conversions of both. */
  lemma {:induction false} AppendWellFormed(t1: string, t2: string)
    requires WellFormed(t1) && WellFormed(t2)
    ensures WellFormed(t1 + t2) && Placeholders(t1 + t2) == Placeholders(t1) + Placeholders(t2)
    decreases |t1|
  {
    if t1 == [] {
      assert t1 + t2 == t2;
    } else if t1[0] == '%' {
      assert (t1 + t2)[2..] == t1[2..] + t2;
      AppendWellFormed(t1[2..], t2);
    } else {
      assert (t1 + t2)[1..] == t1[1..] + t2;
      AppendWellFormed(t1[1..], t2);
    }
  }

  /** Formatting distributes over concatenation of templates: the second part takes the
      arguments the first part left over. */
  lemma {:induction false} FormatAppend(t1: string, t2: string, args: seq<string>)
    requires WellFormed(t1) && WellFormed(t2)
    requires Placeholders(t1) + Placeholders(t2) <= |args|
    ensures WellFormed(t1 + t2) && Placeholders(t1 + t2) <= |args|
    ensures Format(t1 + t2, args) == Format(t1, args) + Format(t2, args[Placeholders(t1)..])
    decreases |t1|
  {
    AppendWellFormed(t1, t2);
    var t := t1 + t2;
    if t1 == [] {
      assert t == t2;
    } else if t1[0] == '%' {
      assert t[2..] == t1[2..] + t2;
      if t1[1] == 's' {
        FormatAppend(t1[2..], t2, args[1..]);
        assert args[1..][Placeholders(t1[2..])..] == args[Placeholders(t1)..];
        Associative(args[0], Format(t1[2..], args[1..]), Format(t2, args[Placeholders(t1)..]));
      } else {
        FormatAppend(t1[2..], t2, args);
        Associative("%", Format(t1[2..], args), Format(t2, args[Placeholders(t1)..]));
      }
    } else {
      assert t[1..] == t1[1..] + t2;
      FormatAppend(t1[1..], t2, args);
      Associative([t1[0]], Format(t1[1..], args), Format(t2, args[Placeholders(t1)..]));
    }
  }

  /** The default reason template of the error mapping. */
  const DefaultPatternReason: string := "'%s' - '%s'"

  /** A leading `%s` prints the first argument. */
  lemma FormatConversionHead(t: string, a: string, args: seq<string>)
    requires WellFormed(t) && Placeholders(t) <= |args|
    ensures WellFormed("%s" + t) && Placeholders("%s" + t) == Placeholders(t) + 1
    ensures Format("%s" + t, [a] + args) == a + Format(t, args)
  {
    assert ("%s" + t)[2..] == t;
    assert ([a] + args)[1..] == args;
  }

  /** A leading run of ordinary characters is copied. */
  lemma {:induction false} FormatTextHead(p: string, t: string, args: seq<string>)
    requires forall i :: 0 <= i < |p| ==> p[i] != '%'
    requires WellFormed(t) && Placeholders(t) <= |args|
    ensures WellFormed(p + t) && Placeholders(p + t) == Placeholders(t)
    ensures Format(p + t, args) == p + Format(t, args)
    decreases |p|
  {
    if p == [] {
      assert p + t == t;
    } else {
      assert (p + t)[1..] == p[1..] + t;
      FormatTextHead(p[1..], t, args);
      Associative([p[0]], p[1..], Format(t, args));
      assert [p[0]] + p[1..] == p;
    }
  }

  /** Concatenation helper: the default template as its text and conversions. */
  lemma DefaultPatternSplits()
    ensures DefaultPatternReason == "'" + ("%s" + ("' - '" + ("%s" + "'")))
  {
  }

  /** The part of the default template after the first conversion. */
  lemma DefaultPatternTail(description: string)
    ensures WellFormed("' - '" + ("%s" + "'")) && Placeholders("' - '" + ("%s" + "'")) == 1
    ensures Format("' - '" + ("%s" + "'"), [description]) == "' - '" + (description + "'")
  {
    FormatLiteral("'", []);
    FormatConversionHead("'", description, []);
    FormatTextHead("' - '", "%s" + "'", [description]);
  }

  /** The default template has exactly two conversions. */
  lemma DefaultPatternWellFormed()
    ensures WellFormed(DefaultPatternReason) && Placeholders(DefaultPatternReason) == 2
  {
    DefaultPattern("", "");
  }

  /** Under the default template the code and the description are each quoted. */
  lemma DefaultPattern(code: string, description: string)
    ensures WellFormed(DefaultPatternReason) && Placeholders(DefaultPatternReason) == 2
    ensures Format(DefaultPatternReason, [code, description]) == "'" + code + "' - '" + description + "'"
  {
    var tail := "' - '" + ("%s" + "'");
    DefaultPatternTail(description);
    FormatConversionHead(tail, code, [description]);
    FormatTextHead("'", "%s" + tail, [code] + [description]);
    DefaultPatternSplits();
    assert [code] + [description] == [code, description];
    var d := description + "'";
    Associative("'", code, "' - '" + d);
    Associative("'" + code, "' - '", d);
    Associative("'" + code + "' - '", description, "'");
  }

  /** Concatenation helper: strings concatenate associatively. */
  lemma Associative(a: string, b: string, c: string)
    ensures a + (b + c) == (a + b) + c
  {
  }
}
