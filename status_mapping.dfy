/** Classification of an upstream HTTP response before its body is used:
    `mapStatusToError` turns every status of 400 or more into an exception
    whose message carries the status code, the status text and the body. */
module StatusMapping {
  import opened Async

  /** The parts of a Vert.x HttpResponse that the classification reads.
      `body` is None when the response has no body, in which case
      `bodyAsString()` returns null. */
  datatype HttpResponse = HttpResponse(statusCode: int, statusMessage: string, body: Option<string>)

  predicate IsDigit(c: char) {
    '0' <= c <= '9'
  }

  predicate AllDigits(s: string) {
    forall i :: 0 <= i < |s| ==> IsDigit(s[i])
  }

  function DigitChar(d: nat): (c: char)
    requires d < 10
    ensures IsDigit(c)
  {
    (48 + d) as char
  }

  function DigitValue(c: char): (d: nat)
    requires IsDigit(c)
    ensures d < 10
  {
    c as int - 48
  }

  /** Decimal rendering of a non-negative `int`, as `%d` writes it. */
  function DecimalDigits(n: nat): (s: string)
    ensures |s| >= 1 && AllDigits(s)
  {
    if n < 10 then [DigitChar(n)] else DecimalDigits(n / 10) + [DigitChar(n % 10)]
  }

  /** The number a string of decimal digits denotes. */
  function DigitsValue(s: string): nat
    requires AllDigits(s)
  {
    if s == [] then 0 else DigitsValue(s[..|s| - 1]) * 10 + DigitValue(s[|s| - 1])
  }

  /** The longest prefix of `s` made of decimal digits. */
  function LeadingDigits(s: string): (d: string)
    ensures AllDigits(d) && d <= s
  {
    if s == [] || !IsDigit(s[0]) then [] else [s[0]] + LeadingDigits(s[1..])
  }

  /** `%s` renders a null string as "null". */
  function BodyText(body: Option<string>): string
  {
    match body
    case None => "null"
    case Some(s) => s
  }

  /** The message `format("%d: %s\n%s", code, statusMessage, body)`. */
  function ErrorMessage(r: HttpResponse): string
    requires r.statusCode >= 0
  {
    DecimalDigits(r.statusCode) + ": " + r.statusMessage + "\n" + BodyText(r.body)
  }

  function MapStatusToError(r: HttpResponse): (m: Maybe<HttpResponse>)
    ensures m.Just? <==> r.statusCode < 400
    ensures m.Just? ==> m.value == r
    ensures m.Error? ==> m.cause == ClientException(ErrorMessage(r))
  {
    if r.statusCode >= 400 then Error(ClientException(ErrorMessage(r)))
    else Just(r)
  }

  /** Reading back the digits of a rendered number gives the number. */
  lemma {:induction false} DecimalRoundTrip(n: nat)
    ensures DigitsValue(DecimalDigits(n)) == n
  {
    if n >= 10 {
      var s := DecimalDigits(n);
      assert s[..|s| - 1] == DecimalDigits(n / 10);
      DecimalRoundTrip(n / 10);
    }
  }

  lemma {:induction false} LeadingDigitsOfConcat(d: string, rest: string)
    requires AllDigits(d)
    requires rest == [] || !IsDigit(rest[0])
    ensures LeadingDigits(d + rest) == d
  {
    if d == [] {
      assert d + rest == rest;
    } else {
      assert (d + rest)[1..] == d[1..] + rest;
      LeadingDigitsOfConcat(d[1..], rest);
    }
  }

  /** An error message splits back into its parts: the leading digits denote
      the status code, and after them come ": ", the status text, a newline
      and the body. */
  lemma ErrorMessageDecodes(r: HttpResponse)
    requires r.statusCode >= 400
    ensures MapStatusToError(r).Error? && MapStatusToError(r).cause.ClientException?
    ensures var msg := MapStatusToError(r).cause.message;
            var d := LeadingDigits(msg);
            DigitsValue(d) == r.statusCode
            && msg[|d|..] == ": " + r.statusMessage + "\n" + BodyText(r.body)
  {
    var digits := DecimalDigits(r.statusCode);
    var tail := ": " + r.statusMessage + "\n" + BodyText(r.body);
    assert ErrorMessage(r) == digits + tail;
    LeadingDigitsOfConcat(digits, tail);
    DecimalRoundTrip(r.statusCode);
  }
}
