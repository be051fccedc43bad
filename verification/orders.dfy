/** `getStatusColor` of the order history page: the chip colour of an order status. */
module OrderStatus {
  import opened Text

  /** The colour names the status chip accepts. */
  datatype Color = Warning | Success | Error | Default {
    function Name(): string {
      match this
      case Warning => "warning"
      case Success => "success"
      case Error => "error"
      case Default => "default"
    }
  }

  /** `switch (status.toLowerCase())` over the three known statuses, `default` otherwise. */
  function StatusColor(status: string): (c: Color)
    ensures c == Warning <==> Lower(status) == "pending"
    ensures c == Success <==> Lower(status) == "completed"
    ensures c == Error <==> Lower(status) == "cancelled"
    ensures c == Default <==> Lower(status) !in ["pending", "completed", "cancelled"]
  {
    var s := Lower(status);
    if s == "pending" then Warning
    else if s == "completed" then Success
    else if s == "cancelled" then Error
    else Default
  }

  /** Statuses that differ only in ASCII case get the same colour. */
  lemma StatusColorIgnoresCase(s: string, t: string)
    requires EqualIgnoringCase(s, t)
    ensures StatusColor(s) == StatusColor(t)
  {
    LowerOfEqualIgnoringCase(s, t);
  }

  /** A status and its lower-case form get the same colour. */
  lemma StatusColorOfLower(s: string)
    ensures StatusColor(Lower(s)) == StatusColor(s)
  {
    LowerIdempotent(s);
  }

  /** "pending" and "PENDING" are shown as warnings. */
  lemma PendingIsWarning()
    ensures StatusColor("pending").Name() == "warning"
    ensures StatusColor("PENDING").Name() == "warning"
  {
    LowerOfLowerCase("pending");
    assert Lower("PENDING") == "pending";
  }

  /** Completed orders are shown as successes, cancelled ones as errors. */
  lemma CompletedAndCancelled()
    ensures StatusColor("completed").Name() == "success"
    ensures StatusColor("cancelled").Name() == "error"
  {
    LowerOfLowerCase("completed");
    LowerOfLowerCase("cancelled");
  }

  /** Any other status gets the default colour. */
  lemma OtherStatus(status: string)
    requires Lower(status) != "pending" && Lower(status) != "completed" && Lower(status) != "cancelled"
    ensures StatusColor(status).Name() == "default"
  {
  }
}
