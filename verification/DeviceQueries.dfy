/**
 Ownership of device polls and lookups (crates/ltbox-gui/src/device_queries.rs):
 every request takes a fresh identifier, a reply is accepted only by the request
 that still owns its slot, and a changed device disowns every lookup but never the
 poll that holds the USB handle.
 */
module DeviceQueries {
  import opened Arithmetic
  import opened Wrappers

  datatype LookupKind = Info | Ota | Qfil

  datatype LookupToken = LookupToken(kind: LookupKind, sequence: nat)

  datatype Queries = Queries(sequence: nat, pending: map<LookupKind, LookupToken>, poll: Option<nat>, region: Option<nat>)

  datatype Event =
    | StartLookup(kind: LookupKind)
    | FinishLookup(token: LookupToken)
    | CancelLookup(kind: LookupKind)
    | StartPoll
    | FinishPoll(id: nat)
    | StartRegion
    | FinishRegion(id: nat)
    | ClearRegion
    | InvalidateContext

  /** A request that may own its slot. */
  datatype Request = Lookup(token: LookupToken) | Poll(pollId: nat) | Region(regionId: nat)

  /** A reply with this token would be accepted. */
  predicate Owed(q: Queries, token: LookupToken) {
    token.kind in q.pending && q.pending[token.kind] == token
  }

  function Step(q: Queries, e: Event): Queries {
    match e
    case StartLookup(kind) =>
      q.(sequence := q.sequence + 1, pending := q.pending[kind := LookupToken(kind, q.sequence + 1)])
    case FinishLookup(token) => if Owed(q, token) then q.(pending := q.pending - {token.kind}) else q
    case CancelLookup(kind) => q.(pending := q.pending - {kind})
    case StartPoll => q.(sequence := q.sequence + 1, poll := Some(q.sequence + 1))
    case FinishPoll(id) => if q.poll == Some(id) then q.(poll := None) else q
    case StartRegion => q.(sequence := q.sequence + 1, region := Some(q.sequence + 1))
    case FinishRegion(id) => if q.region == Some(id) then q.(region := None) else q
    case ClearRegion => q.(region := None)
    case InvalidateContext => q.(pending := map[], region := None)
  }

  predicate Starts(e: Event) {
    e.StartLookup? || e.StartPoll? || e.StartRegion?
  }

  /** The source's assertions: identifiers last, and one poll at a time. */
  predicate Enabled(q: Queries, e: Event) {
    (Starts(e) ==> q.sequence < U64_MAX) && (e.StartPoll? ==> q.poll.None?)
  }

  /** The queries after the first `i` events. */
  function After(events: seq<Event>, i: nat): Queries
    requires i <= |events|
  {
    if i == 0 then Queries(0, map[], None, None) else Step(After(events, i - 1), events[i - 1])
  }

  lemma AfterNext(events: seq<Event>, i: nat)
    requires i < |events|
    ensures After(events, i + 1) == Step(After(events, i), events[i])
  {
  }

  /** No assertion fails in the first `n` events. */
  predicate Legal(events: seq<Event>, n: nat)
    requires n <= |events|
  {
    n == 0 || (Legal(events, n - 1) && Enabled(After(events, n - 1), events[n - 1]))
  }

  lemma {:induction false} LegalPrefix(events: seq<Event>, i: nat, j: nat)
    requires i <= j <= |events| && Legal(events, j)
    ensures Legal(events, i)
    decreases j - i
  {
    if i < j {
      LegalPrefix(events, i, j - 1);
    }
  }

  // ---- Identifiers ---------------------------------------------------------------------

  lemma {:induction false} SequenceGrows(events: seq<Event>, i: nat, j: nat)
    requires i <= j <= |events|
    ensures After(events, i).sequence <= After(events, j).sequence
    decreases j - i
  {
    if i < j {
      SequenceGrows(events, i, j - 1);
    }
  }

  /** No two requests of any sort ever share an identifier. */
  lemma IdentifiersAreUnique(events: seq<Event>, i: nat, j: nat)
    requires i < j < |events| && Starts(events[i]) && Starts(events[j])
    ensures After(events, i + 1).sequence == After(events, i).sequence + 1
    ensures After(events, i + 1).sequence < After(events, j + 1).sequence == After(events, j).sequence + 1
  {
    SequenceGrows(events, i + 1, j);
  }

  // ---- Who owns what -------------------------------------------------------------------

  /** A reply to the request would be accepted. */
  predicate Owns(q: Queries, r: Request) {
    match r
    case Lookup(token) => Owed(q, token)
    case Poll(id) => q.poll == Some(id)
    case Region(id) => q.region == Some(id)
  }

  /** The event starts the request, taking the identifier the counter is at. */
  predicate Begins(q: Queries, e: Event, r: Request) {
    match r
    case Lookup(token) => e == StartLookup(token.kind) && token.sequence == q.sequence + 1
    case Poll(id) => e.StartPoll? && id == q.sequence + 1
    case Region(id) => e.StartRegion? && id == q.sequence + 1
  }

  /**
   The event answers the request, replaces it, cancels it, or loses its device. Only
   its own finish ends a poll: whatever happens to the device, its worker holds the
   USB handle until it returns.
   */
  predicate Ends(e: Event, r: Request) {
    match r
    case Lookup(token) =>
      e == StartLookup(token.kind) || e == FinishLookup(token) || e == CancelLookup(token.kind) || e == InvalidateContext
    case Poll(id) => e == FinishPoll(id)
    case Region(id) => e == StartRegion || e == FinishRegion(id) || e == ClearRegion || e == InvalidateContext
  }

  lemma OwnsStep(q: Queries, e: Event, r: Request)
    requires Enabled(q, e)
    ensures Owns(Step(q, e), r) <==> Begins(q, e, r) || (Owns(q, r) && !Ends(e, r))
  {
  }

  /** The request began at some event and nothing has ended it since. */
  ghost predicate OpenSince(events: seq<Event>, n: nat, r: Request)
    requires n <= |events|
  {
    exists i: nat :: i < n && BeganAt(events, i, r) && forall k :: i < k < n ==> !Ends(events[k], r)
  }

  predicate BeganAt(events: seq<Event>, i: nat, r: Request)
    requires i < |events|
  {
    Begins(After(events, i), events[i], r)
  }

  lemma OpenSinceStep(events: seq<Event>, n: nat, r: Request)
    requires n < |events|
    ensures OpenSince(events, n + 1, r) <==> BeganAt(events, n, r) || (OpenSince(events, n, r) && !Ends(events[n], r))
  {
    hide BeganAt, Ends;
    if OpenSince(events, n, r) && !Ends(events[n], r) {
      var i: nat :| i < n && BeganAt(events, i, r) && forall k :: i < k < n ==> !Ends(events[k], r);
      assert forall k :: i < k < n + 1 ==> !Ends(events[k], r);
    }
  }

  /**
   A reply is accepted exactly when its request is the newest of its kind and has not
   been answered, cancelled or disowned since; the poll lease is held exactly from its
   start to the finish that carries its own identifier.
   */
  lemma {:induction false} OwnedExactly(events: seq<Event>, n: nat, r: Request)
    requires n <= |events| && Legal(events, n)
    ensures Owns(After(events, n), r) <==> OpenSince(events, n, r)
  {
    if n > 0 {
      hide Owns, OpenSince, Step, Begins, Ends, Enabled;
      OwnedExactly(events, n - 1, r);
      OwnsStep(After(events, n - 1), events[n - 1], r);
      OpenSinceStep(events, n - 1, r);
    }
  }

  function IdOf(r: Request): nat {
    match r
    case Lookup(token) => token.sequence
    case Poll(id) => id
    case Region(id) => id
  }

  lemma {:induction false} StaysDisowned(events: seq<Event>, i: nat, j: nat, r: Request)
    requires i <= j <= |events| && Legal(events, j)
    requires After(events, i).sequence >= IdOf(r) && !Owns(After(events, i), r)
    ensures After(events, j).sequence >= IdOf(r) && !Owns(After(events, j), r)
    decreases j - i
  {
    if i < j {
      assert Step(After(events, j - 1), events[j - 1]).sequence >= After(events, j - 1).sequence;
      hide Owns, Step, Ends, Enabled;
      StaysDisowned(events, i, j - 1, r);
      OwnsStep(After(events, j - 1), events[j - 1], r);
    }
  }

  /** An owned request was started, so its identifier is behind the counter. */
  lemma OwnedIsIssued(events: seq<Event>, n: nat, r: Request)
    requires n <= |events| && Legal(events, n) && Owns(After(events, n), r)
    ensures IdOf(r) <= After(events, n).sequence
  {
    OwnedExactly(events, n, r);
    hide Legal, Owns, Ends;
    var i: nat :| i < n && BeganAt(events, i, r);
    SequenceGrows(events, i + 1, n);
  }

  function FinishOf(r: Request): Event {
    match r
    case Lookup(token) => FinishLookup(token)
    case Poll(id) => FinishPoll(id)
    case Region(id) => FinishRegion(id)
  }

  lemma FinishDisowns(q: Queries, r: Request)
    ensures !Owns(Step(q, FinishOf(r)), r) && Step(q, FinishOf(r)).sequence == q.sequence
  {
  }

  /** Each request's reply is accepted at most once, however often it arrives. */
  lemma AcceptedAtMostOnce(events: seq<Event>, i: nat, j: nat, r: Request)
    requires i < j <= |events| && Legal(events, j)
    requires Owns(After(events, i), r) && events[i] == FinishOf(r)
    ensures !Owns(After(events, j), r)
  {
    hide *;
    AfterNext(events, i);
    LegalPrefix(events, i, j);
    OwnedIsIssued(events, i, r);
    FinishDisowns(After(events, i), r);
    StaysDisowned(events, i + 1, j, r);
  }

  // ---- In place ----------------------------------------------------------------------------------

  class DeviceQueries {
    var sequence: nat
    var pending: map<LookupKind, LookupToken>
    var pollInFlight: Option<nat>
    var regionPending: Option<nat>

    constructor ()
      ensures View() == After([], 0)
    {
      sequence, pending, pollInFlight, regionPending := 0, map[], None, None;
    }

    ghost function View(): Queries
      reads this
    {
      Queries(sequence, pending, pollInFlight, regionPending)
    }

    method NextSequence() returns (id: nat)
      requires sequence < U64_MAX
      modifies this`sequence
      ensures id == sequence == old(sequence) + 1
    {
      sequence := sequence + 1;
      id := sequence;
    }

    method StartPoll() returns (id: nat)
      requires Enabled(View(), Event.StartPoll)
      modifies this
      ensures View() == Step(old(View()), Event.StartPoll) && id == sequence
    {
      id := NextSequence();
      pollInFlight := Some(id);
    }

    method FinishPoll(id: nat) returns (released: bool)
      modifies this
      ensures released <==> old(pollInFlight) == Some(id)
      ensures View() == Step(old(View()), Event.FinishPoll(id))
    {
      if pollInFlight != Some(id) {
        return false;
      }
      pollInFlight := None;
      released := true;
    }

    method StartRegion() returns (id: nat)
      requires Enabled(View(), Event.StartRegion)
      modifies this
      ensures View() == Step(old(View()), Event.StartRegion) && id == sequence
    {
      id := NextSequence();
      regionPending := Some(id);
    }

    /** The reply check of the region probe (crates/ltbox-gui/src/update/flash.rs). */
    method FinishRegion(id: nat) returns (accepted: bool)
      modifies this
      ensures accepted <==> old(regionPending) == Some(id)
      ensures View() == Step(old(View()), Event.FinishRegion(id))
    {
      if regionPending != Some(id) {
        return false;
      }
      regionPending := None;
      accepted := true;
    }

    method StartLookup(kind: LookupKind) returns (token: LookupToken)
      requires Enabled(View(), Event.StartLookup(kind))
      modifies this
      ensures View() == Step(old(View()), Event.StartLookup(kind))
      ensures token == LookupToken(kind, sequence) && Owed(View(), token)
    {
      var id := NextSequence();
      token := LookupToken(kind, id);
      pending := pending[kind := token];
    }

    method FinishLookup(token: LookupToken) returns (accepted: bool)
      modifies this
      ensures accepted <==> Owed(old(View()), token)
      ensures View() == Step(old(View()), Event.FinishLookup(token))
    {
      if token.kind !in pending || pending[token.kind] != token {
        return false;
      }
      pending := pending - {token.kind};
      accepted := true;
    }

    method CancelLookup(kind: LookupKind)
      modifies this
      ensures View() == Step(old(View()), Event.CancelLookup(kind))
    {
      pending := pending - {kind};
    }

    method InvalidateContext()
      modifies this
      ensures View() == Step(old(View()), Event.InvalidateContext)
    {
      pending := map[];
      regionPending := None;
    }
  }
}
