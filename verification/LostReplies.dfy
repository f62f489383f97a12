/**
Creating and dropping a table through the retrying failover call, when requests and
replies can be lost. There is one metastore behind all endpoints and no other writer.
*/
module LostReplies {

  /** What becomes of one attempt; `retryable` is how the client classifies the failure it sees. */
  datatype Delivery =
    | NotReceived(retryable: bool)
    | ReplyLost(retryable: bool)
    | Answered
    | Refused(retryable: bool)

  /** The environment, attempt by attempt: is there a client to use, and what becomes of the request. */
  datatype Network = Network(clientAt: nat -> bool, deliveryAt: nat -> Delivery)

  datatype CallResult = CallOk | CallAlreadyExists | CallNotFound | CallError

  /** A failure after which the call tries the next endpoint, if one is left. */
  predicate Retries(d: Delivery) {
    !d.Answered? && d.retryable
  }

  /** The call gets as far as sending attempt `k`. */
  predicate Sends(net: Network, endpoints: nat, k: nat) {
    k < endpoints && forall j :: 0 <= j <= k ==> net.clientAt(j) && (j < k ==> Retries(net.deliveryAt(j)))
  }

  /** The metastore carries out the request of attempt `k`. */
  predicate CarriedOut(net: Network, endpoints: nat, k: nat) {
    Sends(net, endpoints, k) && (net.deliveryAt(k).Answered? || net.deliveryAt(k).ReplyLost?)
  }

  /** The call is answered, at attempt `k`. */
  predicate AnsweredAt(net: Network, endpoints: nat, k: nat) {
    Sends(net, endpoints, k) && net.deliveryAt(k).Answered?
  }

  /**
  `create_hms_table` up to the final read. It succeeds exactly when some attempt is
  answered that is not a first attempt meeting an existing table it had to create; it
  reports an existing table exactly when the first attempt finds one; and whatever is
  lost, at most one create takes effect.
  */
  method CreateTable(net: Network, endpoints: nat, existed: bool, ifNotExists: bool)
    returns (result: CallResult, present: bool, created: nat)
    requires endpoints >= 1
    ensures created <= 1 && (created == 1 <==> !existed && present)
    ensures present <==> existed || exists k: nat :: CarriedOut(net, endpoints, k)
    ensures result.CallOk? ==> present
    ensures result.CallOk? <==> exists k: nat :: AnsweredAt(net, endpoints, k) && (k > 0 || !existed || ifNotExists)
    ensures result.CallAlreadyExists? <==> existed && !ifNotExists && AnsweredAt(net, endpoints, 0)
    ensures !result.CallNotFound?
  {
    present, created := existed, 0;
    var attempts := 0;
    while true
      invariant 0 <= attempts < endpoints
      invariant forall j :: 0 <= j < attempts ==> net.clientAt(j) && Retries(net.deliveryAt(j))
      invariant created <= 1 && (created == 1 <==> !existed && present)
      invariant present <==> existed || exists k: nat :: k < attempts && CarriedOut(net, endpoints, k)
      decreases endpoints - attempts
    {
      if !net.clientAt(attempts) {
        return CallError, present, created;
      }
      var delivery := net.deliveryAt(attempts);
      assert Sends(net, endpoints, attempts);
      var found := present;
      if delivery.Answered? || delivery.ReplyLost? {
        assert CarriedOut(net, endpoints, attempts);
        if !present {
          present, created := true, created + 1;
        }
      }
      if delivery.Answered? {
        assert AnsweredAt(net, endpoints, attempts);
        if !found || ifNotExists || attempts > 0 {
          return CallOk, present, created;
        }
        return CallAlreadyExists, present, created;
      }
      if !delivery.retryable || attempts + 1 >= endpoints {
        return CallError, present, created;
      }
      attempts := attempts + 1;
    }
  }

  /** `drop_hms_table`: the same with the roles of present and absent exchanged. */
  method DropTable(net: Network, endpoints: nat, existed: bool, ifExists: bool)
    returns (result: CallResult, present: bool, dropped: nat)
    requires endpoints >= 1
    ensures dropped <= 1 && (dropped == 1 <==> existed && !present)
    ensures !present <==> !existed || exists k: nat :: CarriedOut(net, endpoints, k)
    ensures result.CallOk? ==> !present
    ensures result.CallOk? <==> exists k: nat :: AnsweredAt(net, endpoints, k) && (k > 0 || existed || ifExists)
    ensures result.CallNotFound? <==> !existed && !ifExists && AnsweredAt(net, endpoints, 0)
    ensures !result.CallAlreadyExists?
  {
    present, dropped := existed, 0;
    var attempts := 0;
    while true
      invariant 0 <= attempts < endpoints
      invariant forall j :: 0 <= j < attempts ==> net.clientAt(j) && Retries(net.deliveryAt(j))
      invariant dropped <= 1 && (dropped == 1 <==> existed && !present)
      invariant !present <==> !existed || exists k: nat :: k < attempts && CarriedOut(net, endpoints, k)
      decreases endpoints - attempts
    {
      if !net.clientAt(attempts) {
        return CallError, present, dropped;
      }
      var delivery := net.deliveryAt(attempts);
      assert Sends(net, endpoints, attempts);
      var found := present;
      if delivery.Answered? || delivery.ReplyLost? {
        assert CarriedOut(net, endpoints, attempts);
        if present {
          present, dropped := false, dropped + 1;
        }
      }
      if delivery.Answered? {
        assert AnsweredAt(net, endpoints, attempts);
        if found || ifExists || attempts > 0 {
          return CallOk, present, dropped;
        }
        return CallNotFound, present, dropped;
      }
      if !delivery.retryable || attempts + 1 >= endpoints {
        return CallError, present, dropped;
      }
      attempts := attempts + 1;
    }
  }

  /**
  Success does not mean that this call created the table: if the first request is lost and
  the second one finds a table that was there before, the call still succeeds.
  */
  method SuccessWithoutCreating() returns (result: CallResult, created: nat)
    ensures result.CallOk? && created == 0
  {
    var net := Network(_ => true, k => if k == 0 then NotReceived(true) else Answered);
    var present;
    assert AnsweredAt(net, 2, 1);
    result, present, created := CreateTable(net, 2, true, false);
  }
}
