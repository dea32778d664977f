/** Bounded resending of one request under the caller's transaction ID. */
module IdempotentRequestRetry {
  import opened Wrappers
  import opened AutosaveModel
  import opened Texts

  // One try: the reply, no reply on a broken stream, or any other failure.
  datatype Try<T> = Reply(value: T) | ResponseNotReceived | OtherFailure

  datatype Ended<T> = Refused | Returned(value: T) | Lost | Failed | Cancelled

  // tries(k) and cancelled(k) are what happens at, and just before, the k-th try, counted from 1.
  // Only lost responses are tried again, always with the same ID; the first other ending is final.
  method ExecuteAsync<T>(transactionId: Tx, tries: nat -> Try<T>, cancelled: nat -> bool, maxAttempts: int)
    returns (ended: Ended<T>, sent: seq<Tx>)
    ensures ended.Refused? <==> Blank(transactionId) || maxAttempts < 1
    ensures forall i :: 0 <= i < |sent| ==> sent[i] == transactionId
    ensures forall k :: 1 <= k <= |sent| ==> !cancelled(k)
    ensures forall k :: 1 <= k < |sent| ==> tries(k) == ResponseNotReceived
    ensures match ended
            case Refused => sent == []
            case Returned(value) => 1 <= |sent| <= maxAttempts && tries(|sent|) == Reply(value)
            case Failed => 1 <= |sent| <= maxAttempts && tries(|sent|) == OtherFailure
            case Lost => |sent| == maxAttempts && tries(maxAttempts) == ResponseNotReceived
            case Cancelled => |sent| < maxAttempts && cancelled(|sent| + 1)
                              && (|sent| >= 1 ==> tries(|sent|) == ResponseNotReceived)
  {
    sent := [];
    if Blank(transactionId) || maxAttempts < 1 {
      return Refused, sent;
    }
    var index := 1;
    while true
      invariant 1 <= index <= maxAttempts && |sent| == index - 1
      invariant forall i :: 0 <= i < |sent| ==> sent[i] == transactionId
      invariant forall k :: 1 <= k <= |sent| ==> tries(k) == ResponseNotReceived && !cancelled(k)
      decreases maxAttempts - index
    {
      if cancelled(index) {
        return Cancelled, sent;
      }
      sent := sent + [transactionId];
      match tries(index) {
        case Reply(value) => return Returned(value), sent;
        case OtherFailure => return Failed, sent;
        case ResponseNotReceived =>
          if index >= maxAttempts {
            return Lost, sent;
          }
      }
      index := index + 1;
    }
  }

  // However many of the resent requests reach it, a receipt-keeping backend ends where the first one left it.
  function Deliveries<D, C>(w: World<D, C>, b: Backend<D, C>, r: Request<D>, n: nat): Backend<D, C> {
    if n == 0 then b else Process(w, Deliveries(w, b, r, n - 1), r)
  }

  lemma {:induction false} ResendingAppliesOnce<D, C>(w: World<D, C>, b: Backend<D, C>, r: Request<D>, n: nat)
    requires n >= 1
    ensures Deliveries(w, b, r, n) == Process(w, b, r)
    ensures |Deliveries(w, b, r, n).applied| <= |b.applied| + 1
  {
    if n > 1 {
      ResendingAppliesOnce(w, b, r, n - 1);
      RedeliveryIsIdle(w, b, r);
    }
  }
}
