/** Small building blocks shared by both export variants: optional values,
    the outcome of a request handler, and the two pieces of Python string
    behaviour the handlers rely on (`str.join` and `str.isspace`). */
module Common {

  /** A JSON value that may be null or missing (`dict.get` gives `None`). */
  datatype Option<+T> = None | Some(value: T)

  /** What a request handler produces: a value, or the HTTP status it aborts with.
      An abort carries no partial value. */
  datatype Outcome<+T> = Ok(value: T) | Abort(status: int)

  /** Python's `sep.join(parts)`. */
  function Join(sep: string, parts: seq<string>): string
  {
    if |parts| == 0 then ""
    else if |parts| == 1 then parts[0]
    else parts[0] + sep + Join(sep, parts[1..])
  }

  /** The characters for which Python's `str.isspace` holds: Unicode
      whitespace (bidirectional class WS, B or S, or category Zs). */
  predicate IsPyWhitespace(c: char)
  {
    || c == ' ' || c == '\t' || c == '\n' || c == '\r'
    || c == '\U{0B}' || c == '\U{0C}'
    || ('\U{1C}' <= c <= '\U{1F}')
    || c == '\U{85}' || c == '\U{A0}' || c == '\U{1680}'
    || ('\U{2000}' <= c <= '\U{200A}')
    || c == '\U{2028}' || c == '\U{2029}' || c == '\U{202F}'
    || c == '\U{205F}' || c == '\U{3000}'
  }

  /** Python's `s.isspace()`: at least one character, and every character is whitespace. */
  predicate IsSpace(s: string)
  {
    |s| > 0 && forall i :: 0 <= i < |s| ==> IsPyWhitespace(s[i])
  }

  /** A query-string argument the handlers accept: present (`request.args.get`
      did not give `None`) and not all whitespace. */
  predicate ValidParam(p: Option<string>)
  {
    p.Some? && !IsSpace(p.value)
  }

  /** Which arguments pass: the empty string passes, because `"".isspace()` is false;
      an absent argument or one made only of whitespace does not. */
  lemma ValidParamExamples()
    ensures ValidParam(Some(""))
    ensures ValidParam(Some(" lock-1 "))
    ensures !ValidParam(None)
    ensures !ValidParam(Some(" \t\n"))
  {
    assert !IsPyWhitespace(" lock-1 "[1]);
  }
}
