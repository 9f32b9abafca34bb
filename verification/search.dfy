/**
 * The two scans every policy is built from: the first element satisfying a
 * test, and the first element of minimal cost (a running minimum that starts
 * at +infinity and is replaced only on a strictly smaller cost).
 */
module Search {
  import opened Types

  /** Index of the first element of `s` satisfying `f`, if any. */
  function FirstWhere<T>(s: seq<T>, f: T -> bool): (r: Option<nat>)
    ensures r.None? <==> forall j :: 0 <= j < |s| ==> !f(s[j])
    ensures r.Some? ==> r.value < |s| && f(s[r.value])
    ensures r.Some? ==> forall j :: 0 <= j < r.value ==> !f(s[j])
  {
    if s == [] then None
    else if f(s[0]) then Some(0)
    else
      match FirstWhere(s[1..], f)
      case None => None
      case Some(i) => Some(i + 1)
  }

  /**
   * The running minimum over the admitted entries of `costs[..n]` (those with
   * `ok[j]`): starting from +infinity (no index), each admitted cost strictly
   * below the current minimum replaces it.
   */
  function RunningMin(costs: seq<real>, ok: seq<bool>, n: nat): (r: Option<nat>)
    requires |ok| == |costs| && n <= |costs|
    ensures r.None? <==> forall j :: 0 <= j < n ==> !ok[j]
    ensures r.Some? ==> r.value < n && ok[r.value]
    ensures r.Some? ==> forall j :: 0 <= j < n && ok[j] ==> costs[r.value] <= costs[j]
    ensures r.Some? ==> forall j :: 0 <= j < r.value && ok[j] ==> costs[r.value] < costs[j]
  {
    if n == 0 then None
    else
      var prev := RunningMin(costs, ok, n - 1);
      if !ok[n - 1] then prev
      else
        match prev
        case None => Some(n - 1)
        case Some(b) => if costs[n - 1] < costs[b] then Some(n - 1) else Some(b)
  }

  /** The first index of minimal cost among the admitted entries, if any is admitted. */
  function FirstArgMinWhere(costs: seq<real>, ok: seq<bool>): (r: Option<nat>)
    requires |ok| == |costs|
    ensures r.None? <==> forall j :: 0 <= j < |costs| ==> !ok[j]
    ensures r.Some? ==> r.value < |costs| && ok[r.value]
    ensures r.Some? ==> forall j :: 0 <= j < |costs| && ok[j] ==> costs[r.value] <= costs[j]
    ensures r.Some? ==> forall j :: 0 <= j < r.value && ok[j] ==> costs[r.value] < costs[j]
  {
    RunningMin(costs, ok, |costs|)
  }

  /** The first index of minimal cost (Python's `min` with a key), or None when empty. */
  function FirstArgMin(costs: seq<real>): (r: Option<nat>)
    ensures r.None? <==> costs == []
    ensures r.Some? ==> r.value < |costs|
    ensures r.Some? ==> forall j :: 0 <= j < |costs| ==> costs[r.value] <= costs[j]
    ensures r.Some? ==> forall j :: 0 <= j < r.value ==> costs[r.value] < costs[j]
  {
    if costs == [] then None
    else
      var n := |costs| - 1;
      match FirstArgMin(costs[..n])
      case None => Some(n)
      case Some(b) => if costs[n] < costs[b] then Some(n) else Some(b)
  }
}
