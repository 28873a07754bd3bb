/*
 * The request counter `http_requests_total` of app.py: a Prometheus counter
 * with the labels method, endpoint (the request's URL path) and status. The
 * middleware bumps the child for a request's labels by one after the handler
 * has answered; a child that does not exist yet starts at zero.
 */
module Metrics {

  /** One label set of the counter. */
  datatype Labels = Labels(httpMethod: string, endpoint: string, status: int)

  /** The value of the child for `l`; a label set never used reads as 0. */
  function Count(counts: map<Labels, nat>, l: Labels): nat
  {
    if l in counts then counts[l] else 0
  }

  /** `REQUEST_COUNT.labels(...).inc()`: the child for `l` grows by one, no other changes. */
  function Increment(counts: map<Labels, nat>, l: Labels): (r: map<Labels, nat>)
    ensures r.Keys == counts.Keys + {l}
    ensures Count(r, l) == Count(counts, l) + 1
    ensures forall o :: o != l ==> Count(r, o) == Count(counts, o)
  {
    counts[l := Count(counts, l) + 1]
  }

  /** The counter after one increment per entry of `ls`, in order. */
  function Tally(counts: map<Labels, nat>, ls: seq<Labels>): map<Labels, nat>
    decreases |ls|
  {
    if ls == [] then counts else Tally(Increment(counts, ls[0]), ls[1..])
  }

  /** How many entries of `ls` are `l`. */
  function Occurrences(ls: seq<Labels>, l: Labels): nat
  {
    if ls == [] then 0 else (if ls[0] == l then 1 else 0) + Occurrences(ls[1..], l)
  }

  /** Each child counts exactly the requests that carried its labels. */
  lemma {:induction false} TallyCount(counts: map<Labels, nat>, ls: seq<Labels>, l: Labels)
    ensures Count(Tally(counts, ls), l) == Count(counts, l) + Occurrences(ls, l)
    decreases |ls|
  {
    if ls != [] {
      TallyCount(Increment(counts, ls[0]), ls[1..], l);
    }
  }

  /** The counter has a child for every label set that was used, and for no other. */
  lemma {:induction false} TallyKeys(counts: map<Labels, nat>, ls: seq<Labels>)
    ensures forall l :: l in Tally(counts, ls) <==> l in counts || l in ls
    decreases |ls|
  {
    if ls != [] {
      TallyKeys(Increment(counts, ls[0]), ls[1..]);
      assert forall l :: l in ls <==> l == ls[0] || l in ls[1..];
    }
  }

  /** `REQUEST_COUNT`: the children of the counter and their values. */
  class RequestCounter {
    var counts: map<Labels, nat>

    /** At process start the counter has no children. */
    constructor ()
      ensures counts == map[]
    {
      counts := map[];
    }

    /** `labels(method, endpoint, status).inc()`. */
    method Inc(l: Labels)
      modifies this
      ensures counts == Increment(old(counts), l)
      ensures Count(counts, l) == Count(old(counts), l) + 1
      ensures forall o :: o != l ==> Count(counts, o) == Count(old(counts), o)
    {
      var n := if l in counts then counts[l] else 0;
      counts := counts[l := n + 1];
    }
  }
}
