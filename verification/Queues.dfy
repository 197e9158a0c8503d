/** Queues of threads, as the kernel's TAILQs keep them. */
module Queues {
  predicate NoDup(s: seq<nat>) { forall i, j :: 0 <= i < j < |s| ==> s[i] != s[j] }

  /** TAILQ_REMOVE. */
  function Remove(s: seq<nat>, t: nat): seq<nat> {
    if s == [] then [] else if s[0] == t then s[1..] else [s[0]] + Remove(s[1..], t)
  }

  lemma {:induction false} RemoveIn(s: seq<nat>, t: nat, u: nat)
    requires NoDup(s)
    ensures u in Remove(s, t) <==> u in s && u != t
  {
    if s != [] && s[0] != t { RemoveIn(s[1..], t, u); }
  }

  lemma {:induction false} RemoveNoDup(s: seq<nat>, t: nat)
    requires NoDup(s)
    ensures NoDup(Remove(s, t))
  {
    if s != [] && s[0] != t {
      RemoveNoDup(s[1..], t);
      RemoveIn(s[1..], t, s[0]);
    }
  }

  /** `r` is `q` with its only `t` taken out and the others in their order. */
  ghost predicate TakenOut(q: seq<nat>, t: nat, r: seq<nat>) {
    exists i :: 0 <= i < |q| && q[i] == t && r == q[..i] + q[i + 1..] && t !in r
  }

  lemma {:induction false} RemoveAt(q: seq<nat>, i: nat)
    requires NoDup(q) && i < |q|
    ensures Remove(q, q[i]) == q[..i] + q[i + 1..]
  {
    if i == 0 {
      assert q[..0] + q[1..] == q[1..];
    } else {
      var tail := q[1..];
      RemoveAt(tail, i - 1);
      assert [q[0]] + (tail[..i - 1] + tail[i..]) == q[..i] + q[i + 1..];
    }
  }

  lemma RemoveTakesOut(q: seq<nat>, t: nat)
    requires NoDup(q) && t in q
    ensures TakenOut(q, t, Remove(q, t))
  {
    RemoveIn(q, t, t);
    var i :| 0 <= i < |q| && q[i] == t;
    RemoveAt(q, i);
  }
}
