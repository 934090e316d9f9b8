/**
 * The clock of lib/time.ts: the current time in milliseconds, taken from the
 * `x-test-now-ms` request header when the process runs in test mode, and from
 * the wall clock otherwise. The environment variable, the request and the
 * wall-clock reading are passed in.
 */
module Clock {
  import opened Wrappers
  import opened JsText

  /** A request, reduced to its headers; names are held in lower case, as the Fetch `Headers` object normalises them. */
  datatype Request = Request(headers: map<string, string>)

  const TestNowHeader: string := "x-test-now-ms"

  /** `process.env.TEST_MODE === "1"`; `None` is an unset variable. */
  function TestModeEnabled(testModeVar: Option<string>): (r: bool)
    ensures r <==> testModeVar.Some? && |testModeVar.value| == 1 && testModeVar.value[0] == '1'
  {
    if testModeVar.Some? && |testModeVar.value| == 1 then
      assert testModeVar.value == [testModeVar.value[0]];
      testModeVar == Some("1")
    else false
  }

  /** `request.headers.get("x-test-now-ms")`: the header's value, or `null`. */
  function HeaderValue(request: Request, name: string): (r: Option<string>)
    ensures r.Some? <==> name in request.headers
    ensures r.Some? ==> r.value == request.headers[name]
  {
    if name in request.headers then Some(request.headers[name]) else None
  }

  /** `getCurrentTimeMs(request)`. */
  function CurrentTimeMs(testModeVar: Option<string>, request: Option<Request>, wallClockMs: int): (r: int)
    ensures !TestModeEnabled(testModeVar) ==> r == wallClockMs
    ensures request.None? ==> r == wallClockMs
    ensures request.Some? && HeaderValue(request.value, TestNowHeader) in {None, Some("")} ==> r == wallClockMs
    ensures request.Some? && HeaderValue(request.value, TestNowHeader).Some? ==>
      (ParseInt(HeaderValue(request.value, TestNowHeader).value) == None ==> r == wallClockMs)
    ensures r == wallClockMs || OverrideApplies(testModeVar, request, r)
  {
    if TestModeEnabled(testModeVar) && request.Some? then
      match HeaderValue(request.value, TestNowHeader)
      case Some(header) =>
        if header != [] then
          match ParseInt(header)
          case Some(parsed) => parsed
          case None => wallClockMs
        else wallClockMs
      case None => wallClockMs
    else wallClockMs
  }

  /** The test override supplies `t`: test mode is on and the request's header parses to `t`. */
  predicate OverrideApplies(testModeVar: Option<string>, request: Option<Request>, t: int)
  {
    && TestModeEnabled(testModeVar)
    && request.Some?
    && TestNowHeader in request.value.headers
    && ParseInt(request.value.headers[TestNowHeader]) == Some(t)
  }

  /** In test mode, a header that parses to `p` gives exactly `p`, whatever the wall clock says. */
  lemma OverrideWins(testModeVar: Option<string>, request: Option<Request>, wallClockMs: int, p: int)
    requires OverrideApplies(testModeVar, request, p)
    ensures CurrentTimeMs(testModeVar, request, wallClockMs) == p
  {
  }

  /** A test that sends the decimal notation of `t` as the header gets back exactly `t`. */
  lemma TestHeaderRoundTrip(headers: map<string, string>, t: int, wallClockMs: int)
    requires TestNowHeader in headers && headers[TestNowHeader] == DecimalString(t)
    ensures CurrentTimeMs(Some("1"), Some(Request(headers)), wallClockMs) == t
  {
    ParseIntDecimal(t, "");
    assert DecimalString(t) + "" == DecimalString(t);
    OverrideWins(Some("1"), Some(Request(headers)), wallClockMs, t);
  }
}
