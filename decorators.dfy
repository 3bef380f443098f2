/**
 * The three wrappers every adapter is built from: the required-field check
 * (`validate_data`), the HTTP status gate (`handle_http_request`) and the
 * browser lifetime (`initialize_driver`).
 */
module Decorators {
  import opened Wrappers
  import opened Records

  /**
   * `validate_data(required)`: the adapter's dict comes back unchanged when
   * every required key holds a non-`None` value; otherwise `ValueError` names
   * the first required key, in list order, that is absent or `None`.
   */
  function Validate(required: seq<Key>, data: Record): (r: Result<Record, Error>)
    ensures r.Success? <==> forall i :: 0 <= i < |required| ==> Present(data, required[i])
    ensures r.Success? ==> r.value == data
    ensures r.Failure? ==>
      exists i :: 0 <= i < |required| && r.error == MissingRequired(required[i])
        && !Present(data, required[i])
        && forall j :: 0 <= j < i ==> Present(data, required[j])
    decreases |required|
  {
    if required == [] then Success(data)
    else if !Present(data, required[0]) then Failure(MissingRequired(required[0]))
    else
      var r := Validate(required[1..], data);
      assert forall i :: 1 <= i < |required| ==> required[i] == required[1..][i - 1];
      r
  }

  /** Falsy values that are not `None` (`False`, `0`, `""`) satisfy the check. */
  lemma ValidateAcceptsFalsy(required: seq<Key>, data: Record)
    requires forall i :: 0 <= i < |required| ==>
      data.Get(required[i]) in {Some(Bool(false)), Some(Int(0)), Some(Str(""))}
    ensures Validate(required, data) == Success(data)
  {
  }

  /** Whether the check passes depends only on the required keys. */
  lemma {:induction false} ValidateIgnoresOtherKeys(required: seq<Key>, data: Record, k: Key, v: Value)
    requires k !in required
    ensures Validate(required, data.Set(k, v)) == (if Validate(required, data).Success? then Success(data.Set(k, v)) else Validate(required, data))
    decreases |required|
  {
    if required != [] {
      assert data.Set(k, v).Get(required[0]) == data.Get(required[0]);
      ValidateIgnoresOtherKeys(required[1..], data, k, v);
    }
  }

  /**
   * `handle_http_request(f)`: any status other than 200 raises `HTTPError`
   * before `f` sees the page; a 200 response is handed to `f`.
   */
  function HandleHttpRequest<P, T>(status: int, page: P, parse: P -> Result<T, Error>): (r: Result<T, Error>)
    ensures status != 200 ==> r == Failure(HttpStatus(status))
    ensures status == 200 ==> r == parse(page)
  {
    if status != 200 then Failure(HttpStatus(status)) else parse(page)
  }

  /** On a failed request the wrapped parser has no influence on the outcome. */
  lemma HttpGateIgnoresParser<P, T>(status: int, p1: P, p2: P, f: P -> Result<T, Error>, g: P -> Result<T, Error>)
    requires status != 200
    ensures HandleHttpRequest(status, p1, f) == HandleHttpRequest(status, p2, g)
  {
  }

  /** A Selenium Chrome session: usable from creation until `quit()`. */
  class Browser {
    var open: bool
    var quits: nat

    constructor ()
      ensures open && quits == 0
    {
      open := true;
      quits := 0;
    }

    /** `driver.quit()`; calling it again on a closed session is harmless. */
    method Quit()
      modifies this
      ensures !open && quits == old(quits) + 1
    {
      open := false;
      quits := quits + 1;
    }
  }

  /**
   * `initialize_driver(f)`: start a browser, run `f` with it, and quit it in a
   * `finally` block.  The wrapped function is given by its outcome on `url`
   * and by whether it quits the driver itself before returning (as the El
   * Químico adapter does).  Whatever the outcome, success or exception, the
   * browser is closed afterwards and the outcome is passed on unchanged.
   */
  method InitializeDriver<T>(url: string, wrapped: string -> (Result<T, Error>, bool))
    returns (r: Result<T, Error>, driver: Browser)
    ensures fresh(driver) && !driver.open
    ensures r == wrapped(url).0
    ensures driver.quits == if wrapped(url).1 then 2 else 1
  {
    driver := new Browser();
    var (outcome, quitsItself) := wrapped(url);
    if quitsItself {
      driver.Quit();
    }
    // finally: driver.quit()
    driver.Quit();
    r := outcome;
  }
}
