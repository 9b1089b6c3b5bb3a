/**
 The device view merged from partial polls (crates/ltbox-gui/src/device_snapshot.rs).
 A poll that lacks a value keeps the last one, a disconnect or another serial starts
 over, and a fixed array records what the latest poll itself supplied.
 */
module DeviceSnapshot {
  import opened Wrappers

  datatype Connection =
    | NoDevice | Adb | AdbRecovery | AdbUnauthorized | AdbSideload | AdbServerBlocking | Fastboot | Edl

  datatype Floors = Floors(systemLocation: nat, systemIndex: nat, bootLocation: nat, bootIndex: nat)

  /** The nine text fields in order: model, slot, firmware, full firmware, ARB, RAM, storage, market name, serial. */
  const TEXTS: nat := 9
  const SERIAL: nat := 8

  /** Positions in the array of fresh flags; text field `f` is at `1 + f`. */
  const FRESH: nat := 13
  const FRESH_USERSPACE: nat := 10
  const FRESH_PLATFORM: nat := 11
  const FRESH_FLOORS: nat := 12

  datatype Poll = Poll(status: Connection, texts: seq<string>, userspace: bool, platform: Option<bool>, floors: Option<Floors>)
  {
    predicate Valid() { |texts| == TEXTS }

    /** What the poll says of a text field; a poll without a device says nothing. */
    function Text(f: nat): string
      requires Valid() && f < TEXTS
    {
      if status == NoDevice then "" else texts[f]
    }
  }

  datatype Snapshot = Snapshot(connection: Connection, texts: seq<string>, userspace: bool, platform: Option<bool>,
                               floors: Option<Floors>, flags: seq<bool>)

  datatype Change = Change(resetIdentity: bool, contextChanged: bool, leftFastboot: bool)

  function Empty(): Snapshot {
    Snapshot(NoDevice, seq(TEXTS, _ => ""), false, None, None, seq(FRESH, _ => false))
  }

  predicate Valid(s: Snapshot) {
    |s.texts| == TEXTS && |s.flags| == FRESH
  }

  // ---- One poll ---------------------------------------------------------------------------

  predicate SerialChanged(s: Snapshot, poll: Poll)
    requires Valid(s) && poll.Valid()
  {
    poll.texts[SERIAL] != "" && poll.texts[SERIAL] != s.texts[SERIAL]
  }

  predicate Resets(s: Snapshot, poll: Poll)
    requires Valid(s) && poll.Valid()
  {
    SerialChanged(s, poll) || poll.status == NoDevice
  }

  function ChangeOf(s: Snapshot, poll: Poll): Change
    requires Valid(s) && poll.Valid()
  {
    Change(Resets(s, poll),
           s.connection != poll.status
             || (if poll.status == NoDevice then s.texts[SERIAL] != "" else SerialChanged(s, poll)),
           s.connection == Fastboot && poll.status != Fastboot)
  }

  function Merged(texts: seq<string>, observed: seq<string>): seq<string>
    requires |texts| == TEXTS && |observed| == TEXTS
  {
    seq(TEXTS, f requires 0 <= f < TEXTS => if observed[f] != "" then observed[f] else texts[f])
  }

  function FreshAfter(poll: Poll): (flags: seq<bool>)
    requires poll.Valid()
  {
    if poll.status == NoDevice then [true] + seq(FRESH - 1, _ => false)
    else [true] + seq(TEXTS, f requires 0 <= f < TEXTS => poll.texts[f] != "") + [true, poll.platform.Some?, poll.floors.Some?]
  }

  function MergedPoll(base: Snapshot, poll: Poll): (t: Snapshot)
    requires Valid(base) && poll.Valid()
    ensures Valid(t)
  {
    if poll.status == NoDevice then base.(connection := NoDevice, flags := FreshAfter(poll))
    else
      Snapshot(poll.status, Merged(base.texts, poll.texts), poll.userspace, poll.platform,
               if poll.floors.Some? then poll.floors else if poll.status != Fastboot then None else base.floors,
               FreshAfter(poll))
  }

  function Applied(s: Snapshot, poll: Poll): (t: Snapshot)
    requires Valid(s) && poll.Valid()
    ensures Valid(t)
  {
    MergedPoll(if Resets(s, poll) then Empty() else s, poll)
  }

  /**
   The reported change is the change that happened: the identity was reset exactly
   when the device is gone or the serial shown is another, and the context changed
   exactly when the connection or the serial shown did.
   */
  lemma ChangeIsWhatChanged(s: Snapshot, poll: Poll)
    requires Valid(s) && poll.Valid()
    ensures var t, change := Applied(s, poll), ChangeOf(s, poll);
      && (change.resetIdentity <==> t.connection == NoDevice || t.texts[SERIAL] != s.texts[SERIAL])
      && (change.contextChanged <==> t.connection != s.connection || t.texts[SERIAL] != s.texts[SERIAL])
      && (change.leftFastboot <==> s.connection == Fastboot && t.connection != Fastboot)
  {
    var t := Applied(s, poll);
    if poll.status != NoDevice {
      var base := if Resets(s, poll) then Empty() else s;
      assert t.texts[SERIAL] == Merged(base.texts, poll.texts)[SERIAL];
    }
  }

  // ---- Every run of polls -------------------------------------------------------------------

  predicate ValidPolls(polls: seq<Poll>) {
    forall i :: 0 <= i < |polls| ==> polls[i].Valid()
  }

  /** The snapshot after the first `n` polls. */
  function After(polls: seq<Poll>, n: nat): (s: Snapshot)
    requires ValidPolls(polls) && n <= |polls|
    ensures Valid(s)
  {
    if n == 0 then Empty() else Applied(After(polls, n - 1), polls[n - 1])
  }

  /** The poll that last reset the identity; the run itself starts an identity. */
  function LastReset(polls: seq<Poll>, n: nat): (k: nat)
    requires ValidPolls(polls) && n <= |polls|
    ensures k <= n
  {
    if n == 0 then 0
    else if Resets(After(polls, n - 1), polls[n - 1]) then n - 1
    else LastReset(polls, n - 1)
  }

  /** The last nonempty observation of a text field by the polls from `from` up to `n`. */
  function LastSeen(polls: seq<Poll>, f: nat, from: nat, n: nat): string
    requires ValidPolls(polls) && from <= n <= |polls| && f < TEXTS
    decreases n
  {
    if from == n then ""
    else if polls[n - 1].Text(f) != "" then polls[n - 1].Text(f)
    else LastSeen(polls, f, from, n - 1)
  }

  lemma AppliedText(s: Snapshot, poll: Poll, f: nat)
    requires Valid(s) && poll.Valid() && f < TEXTS
    ensures Applied(s, poll).texts[f] ==
      if poll.Text(f) != "" then poll.Text(f) else if Resets(s, poll) then "" else s.texts[f]
  {
    var base := if Resets(s, poll) then Empty() else s;
    assert base.texts[f] == if Resets(s, poll) then "" else s.texts[f];
    assert poll.status != NoDevice ==>
      Merged(base.texts, poll.texts)[f] == if poll.texts[f] != "" then poll.texts[f] else base.texts[f];
  }

  /** Every text field shows its last nonempty observation since the last identity reset. */
  lemma {:induction false} TextsAreLastSeen(polls: seq<Poll>, n: nat, f: nat)
    requires ValidPolls(polls) && n <= |polls| && f < TEXTS
    ensures After(polls, n).texts[f] == LastSeen(polls, f, LastReset(polls, n), n)
  {
    if n > 0 {
      TextsAreLastSeen(polls, n - 1, f);
      AppliedText(After(polls, n - 1), polls[n - 1], f);
      hide Applied, Resets;
    }
  }

  /** All the serials observed since the last identity reset are the one shown. */
  lemma {:induction false} OneSerialPerIdentity(polls: seq<Poll>, n: nat, k: nat)
    requires ValidPolls(polls) && n <= |polls| && LastReset(polls, n) <= k < n
    requires polls[k].Text(SERIAL) != ""
    ensures polls[k].Text(SERIAL) == After(polls, n).texts[SERIAL]
  {
    AppliedText(After(polls, n - 1), polls[n - 1], SERIAL);
    assert !Resets(After(polls, n - 1), polls[n - 1]) ==>
      polls[n - 1].Text(SERIAL) in {"", After(polls, n - 1).texts[SERIAL]};
    hide Applied, Resets;
    if k < n - 1 {
      OneSerialPerIdentity(polls, n - 1, k);
    }
  }

  /** The flags mark exactly what the latest poll supplied. */
  lemma FreshIsLatestPoll(polls: seq<Poll>, n: nat)
    requires ValidPolls(polls) && 0 < n <= |polls|
    ensures var s, poll := After(polls, n), polls[n - 1];
      && s.flags[0]
      && (forall f :: 0 <= f < TEXTS ==> (s.flags[1 + f] <==> poll.Text(f) != ""))
      && (s.flags[FRESH_USERSPACE] <==> poll.status != NoDevice)
      && (s.flags[FRESH_PLATFORM] <==> poll.status != NoDevice && poll.platform.Some?)
      && (s.flags[FRESH_FLOORS] <==> poll.status != NoDevice && poll.floors.Some?)
  {
    var poll := polls[n - 1];
    assert After(polls, n).flags == FreshAfter(poll);
    hide Applied, After;
  }

  /** A fresh text field shows what the latest poll supplied. */
  lemma FreshTextIsObserved(polls: seq<Poll>, n: nat, f: nat)
    requires ValidPolls(polls) && 0 < n <= |polls| && f < TEXTS && After(polls, n).flags[1 + f]
    ensures After(polls, n).texts[f] == polls[n - 1].texts[f] != ""
  {
    FreshIsLatestPoll(polls, n);
    AppliedText(After(polls, n - 1), polls[n - 1], f);
    assert After(polls, n) == Applied(After(polls, n - 1), polls[n - 1]);
    hide Applied, Resets;
  }

  /** Connection, user-space mode and platform are the latest poll's own, and nothing is left without a device. */
  lemma LatestPollShown(polls: seq<Poll>, n: nat)
    requires ValidPolls(polls) && 0 < n <= |polls|
    ensures var s, poll := After(polls, n), polls[n - 1];
      && s.connection == poll.status
      && (poll.status != NoDevice ==> s.userspace == poll.userspace && s.platform == poll.platform)
      && (poll.status == NoDevice ==>
            && !s.userspace && s.platform.None? && s.floors.None?
            && forall f :: 0 <= f < TEXTS ==> s.texts[f] == "")
  {
    assert After(polls, n) == Applied(After(polls, n - 1), polls[n - 1]);
    hide After;
  }

  // ---- Rollback floors -----------------------------------------------------------------------------

  /** The poll is silent about floors in an unbroken Fastboot session. */
  predicate Silent(polls: seq<Poll>, k: nat)
    requires ValidPolls(polls) && k < |polls|
  {
    polls[k].status == Fastboot && polls[k].floors.None? && !Resets(After(polls, k), polls[k])
  }

  /** Poll `i` supplied these floors and the device stayed in Fastboot, silent about them, ever since. */
  ghost predicate FloorsFrom(polls: seq<Poll>, i: nat, n: nat, floors: Floors)
    requires ValidPolls(polls) && i < n <= |polls|
  {
    && polls[i].status != NoDevice && polls[i].floors == Some(floors)
    && forall k :: i < k < n ==> Silent(polls, k)
  }

  lemma AppliedFloors(s: Snapshot, poll: Poll)
    requires Valid(s) && poll.Valid()
    ensures Applied(s, poll).floors ==
      if poll.status != NoDevice && poll.floors.Some? then poll.floors
      else if poll.status == Fastboot && !Resets(s, poll) then s.floors
      else None
    ensures Applied(s, poll).connection == poll.status
  {
  }

  /** Some poll supplied these floors in the Fastboot session that has lasted since. */
  ghost predicate FloorsOfSession(polls: seq<Poll>, n: nat, floors: Floors)
    requires ValidPolls(polls) && n <= |polls|
  {
    exists i: nat :: i < n && FloorsFrom(polls, i, n, floors)
  }

  lemma FloorsOfSessionStep(polls: seq<Poll>, n: nat, floors: Floors)
    requires ValidPolls(polls) && n < |polls|
    ensures FloorsOfSession(polls, n + 1, floors) <==>
      (polls[n].status != NoDevice && polls[n].floors == Some(floors)) ||
      (Silent(polls, n) && FloorsOfSession(polls, n, floors))
  {
    assert Silent(polls, n) ==> polls[n].floors.None?;
    hide Silent;
    if polls[n].status != NoDevice && polls[n].floors == Some(floors) {
      assert FloorsFrom(polls, n, n + 1, floors);
    }
    if Silent(polls, n) && FloorsOfSession(polls, n, floors) {
      var i: nat :| i < n && FloorsFrom(polls, i, n, floors);
      assert FloorsFrom(polls, i, n + 1, floors);
    }
    if FloorsOfSession(polls, n + 1, floors) {
      var i: nat :| i < n + 1 && FloorsFrom(polls, i, n + 1, floors);
      assert i < n ==> FloorsFrom(polls, i, n, floors);
    }
  }

  /** Stored floors are exactly those some poll supplied in the Fastboot session that has lasted since. */
  lemma {:induction false} FloorsAreFromThisSession(polls: seq<Poll>, n: nat, floors: Floors)
    requires ValidPolls(polls) && n <= |polls|
    ensures After(polls, n).floors == Some(floors) <==> FloorsOfSession(polls, n, floors)
  {
    if n > 0 {
      hide Applied, Resets, FloorsOfSession;
      FloorsAreFromThisSession(polls, n - 1, floors);
      AppliedFloors(After(polls, n - 1), polls[n - 1]);
      FloorsOfSessionStep(polls, n - 1, floors);
    }
  }

  lemma StoredFloorsAfter(polls: seq<Poll>, n: nat)
    requires ValidPolls(polls) && n <= |polls|
    ensures After(polls, n).floors.Some? && After(polls, n).connection != Fastboot <==>
      n > 0 && polls[n - 1].floors.Some? && polls[n - 1].status !in {Fastboot, NoDevice}
  {
    hide Applied, Resets;
    if n > 0 {
      AppliedFloors(After(polls, n - 1), polls[n - 1]);
    }
  }

  /** No connected poll outside Fastboot carries floors. */
  predicate CarriedOnlyInFastboot(polls: seq<Poll>) {
    forall i: nat :: i < |polls| && polls[i].floors.Some? ==> polls[i].status in {Fastboot, NoDevice}
  }

  ghost predicate StoredOnlyInFastboot(polls: seq<Poll>)
    requires ValidPolls(polls)
  {
    forall n: nat :: n <= |polls| && After(polls, n).floors.Some? ==> After(polls, n).connection == Fastboot
  }

  /** Stored floors always mean Fastboot exactly when connected polls carry floors only in Fastboot. */
  lemma StoredFloorsMeanFastboot(polls: seq<Poll>)
    requires ValidPolls(polls)
    ensures StoredOnlyInFastboot(polls) <==> CarriedOnlyInFastboot(polls)
  {
    hide After;
    if StoredOnlyInFastboot(polls) {
      forall i: nat | i < |polls| && polls[i].floors.Some? ensures polls[i].status in {Fastboot, NoDevice} {
        StoredFloorsAfter(polls, i + 1);
      }
    }
    if CarriedOnlyInFastboot(polls) {
      forall n: nat | n <= |polls| && After(polls, n).floors.Some? ensures After(polls, n).connection == Fastboot {
        StoredFloorsAfter(polls, n);
      }
    }
  }

  // ---- In place ----------------------------------------------------------------------------------------

  class DeviceSnapshot {
    var connection: Connection
    var texts: array<string>
    var userspace: bool
    var platform: Option<bool>
    var floors: Option<Floors>
    var flags: array<bool>

    constructor ()
      ensures Valid() && View() == Empty() && fresh(texts) && fresh(flags)
    {
      connection, userspace, platform, floors := NoDevice, false, None, None;
      texts := new string[TEXTS](_ => "");
      flags := new bool[FRESH](_ => false);
      new;
      assert texts[..] == Empty().texts && flags[..] == Empty().flags;
    }

    ghost predicate Valid()
      reads this
    {
      texts.Length == TEXTS && flags.Length == FRESH
    }

    ghost function View(): Snapshot
      reads this, texts, flags
    {
      Snapshot(connection, texts[..], userspace, platform, floors, flags[..])
    }

    /** `*self = Self::default()`. */
    method Reset()
      requires Valid()
      modifies this`connection, this`userspace, this`platform, this`floors, texts, flags
      ensures View() == Empty()
    {
      connection, userspace, platform, floors := NoDevice, false, None, None;
      forall f | 0 <= f < TEXTS {
        texts[f] := "";
      }
      ClearFresh();
      assert texts[..] == Empty().texts;
    }

    method ClearFresh()
      requires Valid()
      modifies flags
      ensures flags[..] == Empty().flags
    {
      forall f | 0 <= f < FRESH {
        flags[f] := false;
      }
    }

    /** Overwrite the fields the poll observed, and flag them. */
    method MergeTexts(observed: seq<string>)
      requires Valid() && |observed| == TEXTS
      requires flags[..] == Empty().flags[0 := true]
      modifies texts, flags
      ensures texts[..] == Merged(old(texts[..]), observed)
      ensures flags[..] == [true] + seq(TEXTS, f requires 0 <= f < TEXTS => observed[f] != "") + [false, false, false]
    {
      for f := 0 to TEXTS
        invariant forall k :: 0 <= k < f ==> texts[k] == if observed[k] != "" then observed[k] else old(texts[k])
        invariant forall k :: f <= k < TEXTS ==> texts[k] == old(texts[k])
        invariant flags[0] && forall k :: 0 <= k < f ==> flags[1 + k] == (observed[k] != "")
        invariant forall k :: 1 + f <= k < FRESH ==> !flags[k]
      {
        if observed[f] != "" {
          texts[f] := observed[f];
          flags[1 + f] := true;
        }
      }
    }

    /** `apply`. */
    method Apply(poll: Poll) returns (change: Change)
      requires Valid() && poll.Valid()
      modifies this, texts, flags
      ensures Valid() && texts == old(texts) && flags == old(flags)
      ensures View() == Applied(old(View()), poll) && change == ChangeOf(old(View()), poll)
    {
      var previous := connection;
      var serialChanged := poll.texts[SERIAL] != "" && poll.texts[SERIAL] != texts[SERIAL];
      var disconnected := poll.status == NoDevice;
      var contextChanged := previous != poll.status || (if disconnected then texts[SERIAL] != "" else serialChanged);
      change := Change(serialChanged || disconnected, contextChanged, previous == Fastboot && poll.status != Fastboot);
      if change.resetIdentity {
        Reset();
      }
      MergePoll(poll);
    }

    /** The rest of `apply`, once a new identity has been reset. */
    method MergePoll(poll: Poll)
      requires Valid() && poll.Valid()
      modifies this`connection, this`userspace, this`platform, this`floors, texts, flags
      ensures View() == MergedPoll(old(View()), poll)
    {
      ClearFresh();
      connection := poll.status;
      flags[0] := true;
      if poll.status == NoDevice {
        assert flags[..] == FreshAfter(poll);
        return;
      }
      assert flags[..] == Empty().flags[0 := true];
      hide Merged;
      MergeTexts(poll.texts);
      userspace := poll.userspace;
      flags[FRESH_USERSPACE] := true;
      platform := poll.platform;
      flags[FRESH_PLATFORM] := poll.platform.Some?;
      if poll.floors.Some? {
        floors := poll.floors;
        flags[FRESH_FLOORS] := true;
      } else if connection != Fastboot {
        floors := None;
      }
      assert flags[..] == FreshAfter(poll);
    }
  }
}
