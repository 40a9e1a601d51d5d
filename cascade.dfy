/** The priority cascade behind every "try pattern 1, else pattern 2, ..., else default" of the
    parsing engine: the first candidate that the acceptance test lets through wins. */
module Cascade {
  import opened Text

  /** The index of the first candidate `ok` accepts. */
  function FirstIndex<T>(cs: seq<T>, ok: T -> bool): (r: Option<nat>)
    ensures r.Some? ==> r.value < |cs| && ok(cs[r.value])
    ensures r.Some? ==> forall j :: 0 <= j < r.value ==> !ok(cs[j])
    ensures r.None? ==> forall j :: 0 <= j < |cs| ==> !ok(cs[j])
    decreases |cs|
  {
    if cs == [] then None
    else if ok(cs[0]) then Some(0)
    else match FirstIndex(cs[1..], ok)
      case None => None
      case Some(k) => Some(k + 1)
  }

  /** The first candidate `ok` accepts: a `for` loop over the candidates that returns early. */
  function FirstAccepted<T>(cs: seq<T>, ok: T -> bool): (r: Option<T>)
    ensures r.None? <==> forall j :: 0 <= j < |cs| ==> !ok(cs[j])
    ensures r.Some? ==> ok(r.value)
    ensures r.Some? ==> exists k :: 0 <= k < |cs| && r.value == cs[k] && ok(cs[k]) && forall j :: 0 <= j < k ==> !ok(cs[j])
  {
    match FirstIndex(cs, ok)
    case None => None
    case Some(k) => Some(cs[k])
  }

  lemma FirstAcceptedTail<T>(cs: seq<T>, ok: T -> bool)
    requires cs != [] && !ok(cs[0])
    ensures FirstAccepted(cs, ok) == FirstAccepted(cs[1..], ok)
  {
    match FirstIndex(cs[1..], ok)
    case None =>
    case Some(k) => assert cs[k + 1] == cs[1..][k];
  }

  /** Candidates after an accepted one are never consulted. */
  lemma {:induction false} FirstAcceptedPrefix<T>(cs: seq<T>, more: seq<T>, ok: T -> bool)
    requires FirstAccepted(cs, ok).Some?
    ensures FirstAccepted(cs + more, ok) == FirstAccepted(cs, ok)
    decreases |cs|
  {
    if !ok(cs[0]) {
      assert (cs + more)[1..] == cs[1..] + more;
      FirstAcceptedTail(cs, ok);
      FirstAcceptedTail(cs + more, ok);
      FirstAcceptedPrefix(cs[1..], more, ok);
    }
  }

  /** Candidates that are all refused can be dropped from the front. */
  lemma {:induction false} FirstAcceptedSkipsRefused<T>(skipped: seq<T>, rest: seq<T>, ok: T -> bool)
    requires forall j :: 0 <= j < |skipped| ==> !ok(skipped[j])
    ensures FirstAccepted(skipped + rest, ok) == FirstAccepted(rest, ok)
    decreases |skipped|
  {
    if skipped != [] {
      assert (skipped + rest)[1..] == skipped[1..] + rest;
      assert (skipped + rest)[0] == skipped[0];
      FirstAcceptedTail(skipped + rest, ok);
      assert forall j :: 0 <= j < |skipped[1..]| ==> skipped[1..][j] == skipped[j + 1];
      FirstAcceptedSkipsRefused(skipped[1..], rest, ok);
    } else {
      assert skipped + rest == rest;
    }
  }

  /** The least position in [from, n] that `ok` accepts: the attempts of a leftmost search. */
  function FirstPosition(n: nat, ok: nat -> bool, from: nat): (r: Option<nat>)
    ensures r.Some? ==> from <= r.value <= n && ok(r.value)
    ensures r.Some? ==> forall m :: from <= m < r.value ==> !ok(m)
    ensures r.None? ==> forall q :: from <= q <= n ==> !ok(q)
    decreases n + 1 - from
  {
    if from > n then None
    else if ok(from) then Some(from)
    else FirstPosition(n, ok, from + 1)
  }
}
