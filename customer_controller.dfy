/**
 * `GetCustomerStats`: a chain of early returns over the customer lookup and
 * the aggregation store, which it only reads. The customer service and the
 * store are given as values; the calls the action makes are returned so that
 * their order can be stated.
 */
module CustomerStats {
  import opened Wrappers
  import opened WageringData
  import opened Customers

  datatype CustomerStatResponse = CustomerStatResponse(customerId: int, name: string, totalStandToWin: real)

  datatype ActionResult = BadRequest | NotFound | ServiceUnavailable | Ok(response: CustomerStatResponse)

  /** The collaborator calls the action makes, in order. */
  datatype Call = GetCustomer(customerId: int) | ReadIsFeedComplete | GetTotalStandToWin(customerId: int)

  datatype Outcome = Outcome(result: ActionResult, calls: seq<Call>)

  /** Whether `x` is a whole number of cents. */
  predicate IsCents(x: real)
  {
    (x * 100.0).Floor as real == x * 100.0
  }

  /**
   * `Math.Round(x, 2)` on a decimal: the nearest whole number of cents, with
   * a value exactly half-way between two rounded to the one with an even
   * last digit (`MidpointRounding.ToEven`).
   */
  function Round2(x: real): (r: real)
    ensures IsCents(r)
    ensures -0.005 <= r - x <= 0.005
    ensures r - x == 0.005 || r - x == -0.005 ==> (r * 100.0).Floor % 2 == 0
    ensures IsCents(x) ==> r == x
  {
    var scaled := x * 100.0;
    var lower := scaled.Floor;
    var fraction := scaled - lower as real;
    var cents :=
      if fraction < 0.5 then lower
      else if fraction > 0.5 then lower + 1
      else if lower % 2 == 0 then lower
      else lower + 1;
    var r := cents as real / 100.0;
    assert r * 100.0 == cents as real && (r * 100.0).Floor == cents;
    assert r - x == (cents as real - scaled) / 100.0;
    r
  }

  /** The totals the controller's tests expect: 150.567 is reported as 150.57, and 150.00 as it is. */
  lemma RoundingExamples()
    ensures Round2(150.567) == 150.57
    ensures Round2(150.00) == 150.00
  {
  }

  /** `Math.Round(d, 2)` rounds a half cent to the even cent, not always up. */
  lemma RoundingTiesToEven()
    ensures Round2(0.125) == 0.12
    ensures Round2(0.135) == 0.14
  {
  }

  /** Rounding is determined by its contract: any whole number of cents strictly within half a cent of `x` is `Round2(x)`. */
  lemma Round2Nearest(x: real, y: real)
    requires IsCents(y) && -0.005 < y - x < 0.005
    ensures y == Round2(x)
  {
    var r := Round2(x);
    var a, b := (y * 100.0).Floor, (r * 100.0).Floor;
    assert a as real == y * 100.0 && b as real == r * 100.0;
    assert -1.0 < (a - b) as real < 1.0;
  }

  /**
   * The decision chain: a non-positive id is a bad request and nothing is
   * called; an unknown customer is not found before the feed flag is read; a
   * completed feed answers 503 whatever the stored total; a customer with no
   * total is not found; otherwise the total, rounded to cents, is returned.
   */
  function GetCustomerStats(
    customerId: int, getCustomer: int -> Option<CustomerInfo>, isFeedComplete: bool, totals: map<int, real>): (o: Outcome)
    ensures o.result == BadRequest <==> customerId <= 0
    ensures customerId <= 0 ==> o.calls == []
    ensures customerId > 0 && getCustomer(customerId).None? ==> o == Outcome(NotFound, [GetCustomer(customerId)])
    ensures o.result == ServiceUnavailable <==> customerId > 0 && getCustomer(customerId).Some? && isFeedComplete
    ensures o.result.Ok? <==>
      customerId > 0 && getCustomer(customerId).Some? && !isFeedComplete && customerId in totals
    ensures o.result.Ok? ==> o.result.response == CustomerStatResponse(
      customerId, getCustomer(customerId).value.customerName, Round2(totals[customerId]))
    ensures o.result.Ok? ==> o.calls == [GetCustomer(customerId), ReadIsFeedComplete, GetTotalStandToWin(customerId)]
    ensures o.result == ServiceUnavailable ==> o.calls == [GetCustomer(customerId), ReadIsFeedComplete]
    ensures customerId > 0 && getCustomer(customerId).Some? && !isFeedComplete && customerId !in totals ==>
      o == Outcome(NotFound, [GetCustomer(customerId), ReadIsFeedComplete, GetTotalStandToWin(customerId)])
  {
    if customerId <= 0 then Outcome(BadRequest, [])
    else
      var customerInfo := getCustomer(customerId);
      if customerInfo.None? then Outcome(NotFound, [GetCustomer(customerId)])
      else if isFeedComplete then Outcome(ServiceUnavailable, [GetCustomer(customerId), ReadIsFeedComplete])
      else
        var calls := [GetCustomer(customerId), ReadIsFeedComplete, GetTotalStandToWin(customerId)];
        var totalStandToWin := Lookup(totals, customerId);
        if totalStandToWin.None? then Outcome(NotFound, calls)
        else Outcome(Ok(CustomerStatResponse(customerId, customerInfo.value.customerName, Round2(totalStandToWin.value))), calls)
  }
}
