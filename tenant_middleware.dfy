/** `TenantMiddleware`: the X-Tenant-ID header must be present and parse as an integer. */
module TenantMiddleware {
  import opened Wrappers
  import opened Text
  import opened Http
  import opened Gin

  /** The decision for one header value; nothing is stored in the context. */
  function CheckTenant(header: string): (o: Outcome)
    ensures o == Next <==> Atoi(header).Some?
    ensures header == "" ==> o == Abort(Fail(StatusBadRequest, "Tenant ID is required"))
    ensures header != "" && Atoi(header).None? ==> o == Abort(Fail(StatusBadRequest, "Invalid tenant ID format"))
  {
    if header == "" then Abort(Fail(StatusBadRequest, "Tenant ID is required"))
    else if Atoi(header).None? then Abort(Fail(StatusBadRequest, "Invalid tenant ID format"))
    else Next
  }

  /** Signed values pass; text, a blank and a fraction do not. */
  lemma TenantExamples()
    ensures CheckTenant("7") == Next
    ensures CheckTenant("-3") == Next
    ensures CheckTenant("abc") == Abort(Fail(StatusBadRequest, "Invalid tenant ID format"))
    ensures CheckTenant(" 7") == Abort(Fail(StatusBadRequest, "Invalid tenant ID format"))
    ensures CheckTenant("1.5") == Abort(Fail(StatusBadRequest, "Invalid tenant ID format"))
  {
    assert "-3"[1..] == "3";
    assert DigitsValue("3") == 3 by { assert "3"[..0] == ""; }
    assert DigitsValue("7") == 7 by { assert "7"[..0] == ""; }
    assert !IsDigit("abc"[0]);
    assert !IsDigit(" 7"[0]);
    assert !IsDigit("1.5"[1]);
  }
}
