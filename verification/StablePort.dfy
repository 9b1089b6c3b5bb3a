/**
 Waiting for a stable EDL port after a reset (crates/ltbox-device/src/edl.rs). The
 port finder and the deadline are arbitrary streams: `find(k)` is what probe `k` sees
 and `deadline(k)` whether the deadline has tripped when it is asked the `k`th time.
 Sleeping only separates probes and is not modelled.
 */
module StablePort {

  datatype Probe = Found(port: string) | Missing | Failed(error: string)

  datatype Outcome = Stable(port: string) | Failure(error: string) | Timeout

  /** Probes after the first in phase 1: EDL_DISCONNECT_OBSERVE in steps of EDL_STABILITY_INTERVAL. */
  const OBSERVE: nat := 5

  /** The first `n` probes all see the same port as the first. */
  predicate Steady(find: nat -> Probe, n: nat) {
    forall k: nat :: k < n ==> find(k).Found? && find(k) == find(0)
  }

  /** Probe `c` is the first to see no port, or another one. */
  predicate Changed(find: nat -> Probe, c: nat) {
    c <= OBSERVE && Steady(find, c) && !find(c).Failed? && (find(c).Missing? || find(c) != find(0))
  }

  /** No two consecutive probes from `s` up to `n` see the same port. */
  predicate NoPair(find: nat -> Probe, s: nat, n: nat) {
    forall k: nat :: s < k < n ==> !(find(k).Found? && find(k) == find(k - 1))
  }

  predicate NoFailure(find: nat -> Probe, n: nat) {
    forall k: nat :: k < n ==> !find(k).Failed?
  }

  /** No probe but the first is made without asking the deadline, which had not tripped. */
  predicate InTime(deadline: nat -> bool, n: nat) {
    forall k: nat :: k + 1 < n ==> !deadline(k)
  }

  /** The wait is still going after `n` probes: watching the first port, or waiting for a pair after a change. */
  predicate Waiting(find: nat -> Probe, n: nat) {
    && NoFailure(find, n)
    && ((n <= OBSERVE && Steady(find, n)) || exists c: nat :: c < n && Changed(find, c) && NoPair(find, c + 1, n))
  }

  /** What an outcome after `n` probes means. */
  ghost predicate Justified(find: nat -> Probe, deadline: nat -> bool, r: Outcome, n: nat) {
    && n > 0 && InTime(deadline, n)
    && match r
       case Stable(p) =>
         && find(n - 1) == Found(p)
         && ((Steady(find, n) && (n == OBSERVE + 1 || (n <= OBSERVE && deadline(n - 1)))) || Paired(find, n))
       case Failure(e) => Waiting(find, n - 1) && find(n - 1) == Failed(e)
       case Timeout => NoFailure(find, n) && deadline(n - 1) && exists c: nat :: c < n && Changed(find, c) && NoPair(find, c + 1, n)
  }

  /** The last two probes saw the same port, the first two to do so after the change. */
  predicate Paired(find: nat -> Probe, n: nat)
    requires n > 0
  {
    && NoFailure(find, n) && find(n - 1).Found?
    && exists c: nat :: c + 2 < n && Changed(find, c) && NoPair(find, c + 1, n - 1) && find(n - 1) == find(n - 2)
  }

  /** `wait_for_stable_port_with`; it ends because the deadline trips at some time. */
  method WaitForStablePort(find: nat -> Probe, deadline: nat -> bool, ghost trip: nat) returns (r: Outcome, probes: nat)
    requires deadline(trip)
    ensures Justified(find, deadline, r, probes)
  {
    var initial := find(0);
    probes := 1;
    if initial.Failed? {
      return Failure(initial.error), 1;
    }
    if initial.Found? {
      var observed := 0;
      var sawDisconnect := false;
      while observed < OBSERVE && !deadline(probes - 1) && !sawDisconnect
        invariant probes == observed + 1 <= OBSERVE + 1
        invariant InTime(deadline, probes) && NoFailure(find, probes)
        invariant if sawDisconnect then Changed(find, probes - 1) else Steady(find, probes)
        decreases OBSERVE - observed
      {
        observed := observed + 1;
        var current := find(probes);
        probes := probes + 1;
        if current == initial {
        } else if current.Failed? {
          return Failure(current.error), probes;
        } else {
          sawDisconnect := true;
        }
      }
      if !sawDisconnect {
        return Stable(initial.port), probes;
      }
    }
    hide *;
    r, probes := WaitForPair(find, deadline, probes, trip);
  }

  /** Phase 2: wait for the port to appear and to be seen twice in a row. */
  method WaitForPair(find: nat -> Probe, deadline: nat -> bool, start: nat, ghost trip: nat) returns (r: Outcome, probes: nat)
    requires deadline(trip)
    requires start > 0 && Changed(find, start - 1) && NoFailure(find, start) && InTime(deadline, start)
    ensures Justified(find, deadline, r, probes)
  {
    probes := start;
    var last: Probe := Missing;
    hide Changed;
    while !deadline(probes - 1)
      invariant start <= probes && NoPair(find, start, probes) && NoFailure(find, probes)
      invariant InTime(deadline, probes)
      invariant last == if probes == start then Missing else find(probes - 1)
      invariant probes <= trip + 1
      decreases trip + 1 - probes
    {
      var current := find(probes);
      probes := probes + 1;
      if current.Failed? {
        return Failure(current.error), probes;
      }
      if current.Found? && last == current {
        return Stable(current.port), probes;
      }
      last := current;
    }
    return Timeout, probes;
  }

  /** The contract leaves no choice: the streams determine the outcome and the number of probes. */
  lemma OutcomeIsDetermined(find: nat -> Probe, deadline: nat -> bool, r: Outcome, n: nat, s: Outcome, m: nat)
    requires Justified(find, deadline, r, n) && Justified(find, deadline, s, m)
    ensures r == s && n == m
  {
  }

  /**
   What the outcomes promise: a port is returned because every probe saw it, at most six,
   or because the last two did, both after a change seen within the first six; an error
   is the last probe's and nothing before it failed; and no probe follows a deadline that
   has tripped.
   */
  lemma OutcomePromises(find: nat -> Probe, deadline: nat -> bool, r: Outcome, n: nat)
    requires Justified(find, deadline, r, n)
    ensures r.Stable? ==>
      || (n <= 6 && forall k: nat :: k < n ==> find(k) == Found(r.port))
      || (n >= 3 && find(n - 1) == find(n - 2) == Found(r.port) &&
            exists c: nat :: c < n - 2 && c <= 5 && (find(c).Missing? || find(c) != find(0)))
    ensures r.Stable? && n < 6 && !deadline(n - 1) ==> exists c: nat :: c < n && (find(c).Missing? || find(c) != find(0))
    ensures r.Failure? ==> find(n - 1) == Failed(r.error)
    ensures forall k: nat :: k < n - 1 ==> !find(k).Failed?
    ensures forall t: nat :: deadline(t) ==> n <= t + 1
  {
  }
}
