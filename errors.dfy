/** The errors the hardware-manager plugin returns, with the text Go's `Error()` gives them. */
module Errors {

  datatype Error =
    | ResourcesUnavailable                        // reading the "nodelist" config map failed
    | NotEnoughFree(profile: string, free: nat)   // admission check of CreateNodePool
    | NotEnoughRemaining(profile: string)         // a short group cannot be completed
    | ConfigMapUpdateFailed                       // Client.Update of the config map failed
    | NodeCreateFailed(node: string)              // Client.Create of a Node failed
    | NodeDeleteFailed(node: string)              // Client.Delete of a Node failed
    | CheckAllocationFailed(cause: Error)         // CheckNodePoolProgress wrapping IsNodeFullyAllocated
    | AllocateFailed(cause: Error)                // CheckNodePoolProgress wrapping AllocateNode
    | ProgressFailed(cause: Error)                // the processing handler wrapping CheckNodePoolProgress
    | StatusUpdateFailed(pool: string)            // updating the NodePool status failed
    | FetchFailed                                 // fetching the NodePool failed for a reason other than NotFound

  /** Decimal rendering of a natural number, as `%d` prints it. */
  function NatToString(n: nat): (s: string)
    ensures |s| >= 1
    ensures forall k :: 0 <= k < |s| ==> '0' <= s[k] <= '9'
  {
    var d := (('0' as int) + n % 10) as char;
    if n < 10 then [d] else NatToString(n / 10) + [d]
  }

  /** The number a string of decimal digits denotes, most significant digit first. */
  function DigitsValue(s: string): nat
    requires forall k :: 0 <= k < |s| ==> '0' <= s[k] <= '9'
  {
    if s == [] then 0 else 10 * DigitsValue(s[..|s| - 1]) + (s[|s| - 1] as int - '0' as int)
  }

  /** Reading back the digits NatToString writes gives the number. */
  lemma {:induction false} NatToStringRoundTrip(n: nat)
    ensures DigitsValue(NatToString(n)) == n
  {
    var s := NatToString(n);
    if n >= 10 {
      NatToStringRoundTrip(n / 10);
      assert s[..|s| - 1] == NatToString(n / 10);
    }
  }

  /** The message of an error. Client-library errors are not modelled, so an error wrapping one
      stops at the source's own prefix. A wrapping error (`%w`) ends with its cause's text. */
  function Message(e: Error): (r: string)
    ensures e.CheckAllocationFailed? || e.AllocateFailed? || e.ProgressFailed? ==>
              |Message(e.cause)| < |r| && r[|r| - |Message(e.cause)|..] == Message(e.cause)
    ensures !e.FetchFailed? ==> |r| > 0
  {
    match e
    case ResourcesUnavailable => "unable to get current resources"
    case NotEnoughFree(p, f) => "not enough free resources in group " + p + ": freenodes=" + NatToString(f)
    case NotEnoughRemaining(p) => "not enough free resources remaining in group " + p
    case ConfigMapUpdateFailed => "failed to update configmap"
    case NodeCreateFailed(n) => "failed to create allocated node: failed to create Node"
    case NodeDeleteFailed(n) => "failed to delete node " + n + ": failed to delete Node"
    case CheckAllocationFailed(c) => "failed to check nodepool allocation: " + Message(c)
    case AllocateFailed(c) => "failed to allocate node: " + Message(c)
    case ProgressFailed(c) => "failed CheckNodePoolProgress: " + Message(c)
    case StatusUpdateFailed(p) => "failed to update status for NodePool " + p
    case FetchFailed => ""   // the client error itself is returned, unwrapped
  }
}
