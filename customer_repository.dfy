/** The customer directory cache: a first-write-wins map from customer id to customer details. */
module Customers {
  import opened Wrappers

  /** A directory entry (`CustomerInfo(Id, CustomerName)`). */
  datatype CustomerInfo = CustomerInfo(id: int, customerName: string)

  /** `ConcurrentDictionary.TryAdd`: adds the entry only when the id is absent. */
  function TryAdd(m: map<int, CustomerInfo>, customerId: int, customer: CustomerInfo): (r: map<int, CustomerInfo>)
    ensures customerId in m ==> r == m
    ensures customerId !in m ==> r.Keys == m.Keys + {customerId} && r[customerId] == customer
    ensures forall k :: k in m ==> k in r && r[k] == m[k]
  {
    if customerId in m then m else m[customerId := customer]
  }

  /** The directory after the additions `adds`, in order. */
  function AddAll(m: map<int, CustomerInfo>, adds: seq<(int, CustomerInfo)>): map<int, CustomerInfo>
    decreases |adds|
  {
    if adds == [] then m else AddAll(TryAdd(m, adds[0].0, adds[0].1), adds[1..])
  }

  /** The first customer added under `customerId`, if any. */
  function FirstAdded(adds: seq<(int, CustomerInfo)>, customerId: int): Option<CustomerInfo>
  {
    if adds == [] then None
    else if adds[0].0 == customerId then Some(adds[0].1)
    else FirstAdded(adds[1..], customerId)
  }

  function Get(m: map<int, CustomerInfo>, customerId: int): Option<CustomerInfo>
  {
    if customerId in m then Some(m[customerId]) else None
  }

  /** First write wins: after any run of additions, an id keeps its starting entry or else maps to its earliest addition, and is absent if neither exists. */
  lemma {:induction false} FirstWriteWins(m: map<int, CustomerInfo>, adds: seq<(int, CustomerInfo)>, customerId: int)
    ensures Get(AddAll(m, adds), customerId) ==
      if customerId in m then Some(m[customerId]) else FirstAdded(adds, customerId)
    decreases |adds|
  {
    if adds != [] {
      FirstWriteWins(TryAdd(m, adds[0].0, adds[0].1), adds[1..], customerId);
    }
  }

  class CustomerRepository {
    var customers: map<int, CustomerInfo>

    constructor ()
      ensures customers == map[]
    {
      customers := map[];
    }

    /** Reports whether the id is cached and, if so, its entry; `None` stands for the null `out` value. */
    method TryGet(customerId: int) returns (found: bool, customer: Option<CustomerInfo>)
      ensures found <==> customerId in customers
      ensures found ==> customer == Some(customers[customerId])
      ensures !found ==> customer == None
    {
      if customerId in customers {
        found, customer := true, Some(customers[customerId]);
      } else {
        found, customer := false, None;
      }
    }

    /** Caches the entry unless the id is already present; no other entry changes. */
    method Add(customerId: int, customer: CustomerInfo)
      modifies this
      ensures customers == TryAdd(old(customers), customerId, customer)
    {
      if customerId !in customers {
        customers := customers[customerId := customer];
      }
    }
  }
}
