/**
 Reserving a backup directory that no other worker has (crates/ltbox-gui/src/backup.rs).
 Creating a directory is exclusive and atomic; between two attempts of one worker any
 others may create theirs.
 */
module BackupDir {
  import opened Arithmetic
  import opened Text
  import opened Wrappers

  // ---- Names ------------------------------------------------------------------------------

  predicate SafeChar(c: char) {
    Alphanumeric(c) || c == '-' || c == '_'
  }

  function Sanitized(value: string): string {
    seq(|value|, i requires 0 <= i < |value| => if SafeChar(value[i]) then value[i] else '_')
  }

  predicate AllUnderscores(s: string) {
    forall i :: 0 <= i < |s| ==> s[i] == '_'
  }

  /** `path_component`. */
  function PathComponent(value: string, fallback: string): string {
    var sanitized := Sanitized(Trim(value));
    if AllUnderscores(sanitized) then fallback else sanitized
  }

  lemma SafeCharsAreNotSpace(s: string)
    requires forall i :: 0 <= i < |s| ==> SafeChar(s[i])
    ensures Trim(s) == s && Sanitized(s) == s
  {
    TrimIsIdentity(s);
  }

  /**
   With a safe fallback a component is one path component of safe characters, and never
   only underscores; a value that already is one is kept, so sanitising twice changes nothing.
   */
  lemma PathComponentIsSafe(value: string, fallback: string)
    requires !AllUnderscores(fallback) && forall i :: 0 <= i < |fallback| ==> SafeChar(fallback[i])
    ensures var c := PathComponent(value, fallback);
      && c != [] && !AllUnderscores(c) && (forall i :: 0 <= i < |c| ==> SafeChar(c[i]))
      && PathComponent(c, fallback) == c
    ensures value != [] && !AllUnderscores(value) && (forall i :: 0 <= i < |value| ==> SafeChar(value[i])) ==>
      PathComponent(value, fallback) == value
  {
    var c := PathComponent(value, fallback);
    SafeCharsAreNotSpace(c);
    if forall i :: 0 <= i < |value| ==> SafeChar(value[i]) {
      SafeCharsAreNotSpace(value);
    }
  }

  /** The name of an attempt: the stem, then the stem numbered from 2. */
  function Candidate(stem: string, attempt: nat): string {
    if attempt == 0 then stem else stem + "_" + Decimal(attempt + 1)
  }

  /**
   A component is the trimmed value with every character but letters, digits, `-` and `_`
   replaced by `_`, or the fallback when nothing else is left.
   */
  lemma PathComponentIs(value: string, fallback: string)
    ensures var t, c := Trim(value), PathComponent(value, fallback);
      if forall i :: 0 <= i < |t| ==>
           t[i] == '_' || !('a' <= t[i] <= 'z' || 'A' <= t[i] <= 'Z' || '0' <= t[i] <= '9' || t[i] == '-')
      then c == fallback
      else |c| == |t| && forall i :: 0 <= i < |t| ==>
        c[i] == if 'a' <= t[i] <= 'z' || 'A' <= t[i] <= 'Z' || '0' <= t[i] <= '9' || t[i] == '-' then t[i] else '_'
  {
    var t := Trim(value);
    var s := Sanitized(t);
    assert forall i :: 0 <= i < |t| ==>
      (s[i] == '_' <==> t[i] == '_' || !('a' <= t[i] <= 'z' || 'A' <= t[i] <= 'Z' || '0' <= t[i] <= '9' || t[i] == '-'));
    hide Trim;
  }

  /** The first attempt takes the stem itself and attempt `k` after it the stem, `_` and the number `k + 1`. */
  lemma CandidateIs(stem: string, k: nat)
    ensures Candidate(stem, 0) == stem
    ensures k > 0 ==>
      var name, n := Candidate(stem, k), |stem| + 1;
      && |name| > n && name[..n] == stem + "_" && name[n] != '0'
      && (forall i :: n <= i < |name| ==> '0' <= name[i] <= '9')
      && DigitsValue(Utf8(name[n..]), 10) == Some(k + 1)
  {
    DigitsLook(k + 1, false);
    DigitsSpell(k + 1, false);
    hide Digits, DigitsValue, Utf8;
    if k > 0 {
      assert Candidate(stem, k)[|stem| + 1..] == Decimal(k + 1);
    }
  }

  /** Different attempts try different names. */
  lemma CandidatesAreDistinct(stem: string, i: nat, j: nat)
    requires Candidate(stem, i) == Candidate(stem, j)
    ensures i == j
  {
    assert forall k: nat :: k > 0 ==> |Candidate(stem, k)| > |stem|;
    if i > 0 && j > 0 {
      var n := |stem| + 1;
      assert Candidate(stem, i)[n..] == Decimal(i + 1) && Candidate(stem, j)[n..] == Decimal(j + 1);
      DecimalInjective(i + 1, j + 1);
    }
  }

  // ---- Workers in any order ----------------------------------------------------------------------

  /** A worker trying its next attempt, or done with the directory it created. */
  datatype Worker = Trying(stem: string, attempt: nat) | Reserved(name: string) | GaveUp

  /** The names in the parent directory, and the workers. */
  datatype State = State(dirs: set<string>, workers: seq<Worker>)

  /** Worker `w` calls `create_dir` once; it may also fail for a reason of its own. */
  function Step(s: State, w: nat, broken: bool): State
    requires w < |s.workers|
  {
    if !s.workers[w].Trying? then s
    else
      var Trying(stem, attempt) := s.workers[w];
      var name := Candidate(stem, attempt);
      if broken || attempt >= U32_MAX then s.(workers := s.workers[w := GaveUp])
      else if name in s.dirs then s.(workers := s.workers[w := Trying(stem, attempt + 1)])
      else State(s.dirs + {name}, s.workers[w := Reserved(name)])
  }

  /** Any number of workers about to start. */
  predicate Starting(s: State) {
    forall w :: 0 <= w < |s.workers| ==> s.workers[w].Trying? && s.workers[w].attempt == 0
  }

  /** The state after the first `n` calls of a schedule of workers and failures. */
  function After(s: State, schedule: seq<(nat, bool)>, n: nat): (t: State)
    requires n <= |schedule| && forall k :: 0 <= k < |schedule| ==> schedule[k].0 < |s.workers|
    ensures |t.workers| == |s.workers|
  {
    if n == 0 then s else Step(After(s, schedule, n - 1), schedule[n - 1].0, schedule[n - 1].1)
  }

  /** What every call keeps, seen from the directories there were at first. */
  ghost predicate Inv(first: set<string>, s: State) {
    && first <= s.dirs
    && (forall w :: 0 <= w < |s.workers| && s.workers[w].Reserved? ==>
          s.workers[w].name in s.dirs && s.workers[w].name !in first)
    && (forall v, w :: 0 <= v < w < |s.workers| && s.workers[v].Reserved? && s.workers[w].Reserved? ==>
          s.workers[v].name != s.workers[w].name)
    && (forall w, k: nat :: 0 <= w < |s.workers| && s.workers[w].Trying? && k < s.workers[w].attempt ==>
          Candidate(s.workers[w].stem, k) in s.dirs)
  }

  lemma StepKeepsInv(first: set<string>, s: State, w: nat, broken: bool)
    requires w < |s.workers| && Inv(first, s)
    ensures Inv(first, Step(s, w, broken))
  {
    hide Candidate;
  }

  lemma {:induction false} RunKeepsInv(s: State, schedule: seq<(nat, bool)>, n: nat)
    requires n <= |schedule| && forall k :: 0 <= k < |schedule| ==> schedule[k].0 < |s.workers|
    requires Starting(s)
    ensures Inv(s.dirs, After(s, schedule, n))
  {
    if n > 0 {
      RunKeepsInv(s, schedule, n - 1);
      hide Inv, Step;
      StepKeepsInv(s.dirs, After(s, schedule, n - 1), schedule[n - 1].0, schedule[n - 1].1);
    }
  }

  /**
   Under every interleaving the directories returned are pairwise distinct and new, and
   every earlier directory is still there.
   */
  lemma ReservationsAreExclusive(s: State, schedule: seq<(nat, bool)>, n: nat, v: nat, w: nat)
    requires n <= |schedule| && forall k :: 0 <= k < |schedule| ==> schedule[k].0 < |s.workers|
    requires Starting(s) && v < |s.workers| && w < |s.workers|
    requires After(s, schedule, n).workers[v].Reserved?
    ensures s.dirs <= After(s, schedule, n).dirs
    ensures var t := After(s, schedule, n);
      && t.workers[v].name in t.dirs - s.dirs
      && (v != w && t.workers[w].Reserved? ==> t.workers[v].name != t.workers[w].name)
  {
    RunKeepsInv(s, schedule, n);
  }

  // ---- How many attempts it takes -------------------------------------------------------------------

  function FirstCandidates(stem: string, n: nat): set<string> {
    if n == 0 then {} else FirstCandidates(stem, n - 1) + {Candidate(stem, n - 1)}
  }

  lemma {:induction false} LaterIsNew(stem: string, n: nat, m: nat)
    requires n <= m
    ensures Candidate(stem, m) !in FirstCandidates(stem, n)
  {
    hide Candidate;
    if n > 0 {
      LaterIsNew(stem, n - 1, m);
      if Candidate(stem, n - 1) == Candidate(stem, m) {
        CandidatesAreDistinct(stem, n - 1, m);
      }
    }
  }

  lemma {:induction false} FirstCandidatesCount(stem: string, n: nat, taken: set<string>)
    requires forall k: nat :: k < n ==> Candidate(stem, k) in taken
    ensures |FirstCandidates(stem, n)| == n && FirstCandidates(stem, n) <= taken
  {
    hide Candidate;
    if n > 0 {
      FirstCandidatesCount(stem, n - 1, taken);
      LaterIsNew(stem, n - 1, n - 1);
    }
  }

  lemma SubsetCount(a: set<string>, b: set<string>)
    requires a <= b
    ensures |a| <= |b|
  {
    assert b == a + (b - a);
  }

  /** A worker has failed at most as often as there are directories at names it may try. */
  lemma AttemptsAreBounded(s: State, schedule: seq<(nat, bool)>, n: nat, w: nat, taken: set<string>)
    requires n <= |schedule| && forall k :: 0 <= k < |schedule| ==> schedule[k].0 < |s.workers|
    requires Starting(s) && w < |s.workers| && After(s, schedule, n).workers[w].Trying?
    requires forall k: nat :: Candidate(After(s, schedule, n).workers[w].stem, k) in After(s, schedule, n).dirs ==>
      Candidate(After(s, schedule, n).workers[w].stem, k) in taken
    ensures After(s, schedule, n).workers[w].attempt <= |taken|
  {
    RunKeepsInv(s, schedule, n);
    var worker := After(s, schedule, n).workers[w];
    hide Candidate, After;
    FirstCandidatesCount(worker.stem, worker.attempt, taken);
    SubsetCount(FirstCandidates(worker.stem, worker.attempt), taken);
  }

  /** How often a worker is scheduled in the first `n` calls. */
  function Turns(schedule: seq<(nat, bool)>, n: nat, w: nat): nat
    requires n <= |schedule|
  {
    if n == 0 then 0 else Turns(schedule, n - 1, w) + (if schedule[n - 1].0 == w then 1 else 0)
  }

  lemma {:induction false} TurnsAreAttempts(s: State, schedule: seq<(nat, bool)>, n: nat, w: nat)
    requires n <= |schedule| && forall k :: 0 <= k < |schedule| ==> schedule[k].0 < |s.workers| && !schedule[k].1
    requires Starting(s) && w < |s.workers|
    ensures var worker := After(s, schedule, n).workers[w];
      match worker
      case Trying(stem, attempt) => stem == s.workers[w].stem && attempt == Turns(schedule, n, w) && attempt <= U32_MAX
      case Reserved(_) => true
      case GaveUp => Turns(schedule, n, w) > U32_MAX
  {
    hide Candidate;
    if n > 0 {
      TurnsAreAttempts(s, schedule, n - 1, w);
    }
  }

  /**
   A worker that meets no other failure and is scheduled often enough succeeds: when at
   most `k` of its candidate names are ever taken and `k` is below the attempt bound,
   within `k + 1` attempts.
   */
  lemma ReservesWithinBound(s: State, schedule: seq<(nat, bool)>, n: nat, w: nat, taken: set<string>)
    requires n <= |schedule| && forall k :: 0 <= k < |schedule| ==> schedule[k].0 < |s.workers| && !schedule[k].1
    requires Starting(s) && w < |s.workers| && |taken| < U32_MAX
    requires forall k: nat :: Candidate(s.workers[w].stem, k) in After(s, schedule, n).dirs ==>
      Candidate(s.workers[w].stem, k) in taken
    requires Turns(schedule, n, w) == |taken| + 1
    ensures After(s, schedule, n).workers[w].Reserved?
  {
    TurnsAreAttempts(s, schedule, n, w);
    if After(s, schedule, n).workers[w].Trying? {
      AttemptsAreBounded(s, schedule, n, w, taken);
    }
  }

  // ---- One worker, in place ------------------------------------------------------------------------------

  /** The backup root, shared with other workers: each directory by its operation's parent and its name. */
  class BackupRoot {
    var dirs: set<(string, string)>

    constructor (dirs: set<(string, string)>)
      ensures this.dirs == dirs
    {
      this.dirs := dirs;
    }

    /** Other workers create directories; none is ever removed. */
    method Interfere()
      modifies this
      ensures old(dirs) <= dirs
    {
      var more: set<(string, string)> := *;
      dirs := dirs + more;
    }

    /** `create_dir`: exclusive, and free to fail otherwise. */
    method CreateDir(path: (string, string)) returns (r: Result<(), bool>)
      modifies this
      ensures r.Ok? ==> path !in old(dirs) && dirs == old(dirs) + {path}
      ensures r.Err? ==> dirs == old(dirs) && (r.error ==> path in old(dirs))
    {
      if path in dirs {
        return Err(true);
      }
      var broken: bool := *;
      if broken {
        return Err(false);
      }
      dirs := dirs + {path};
      return Ok(());
    }

    /**
     `reserve_backup_dir`: the directory returned is under the operation's parent, is the
     first candidate found free and did not exist before; every candidate before it was taken.
     */
    method Reserve(operation: string, model: string, timestamp: string) returns (r: Result<(string, string), bool>)
      modifies this
      ensures old(dirs) <= dirs
      ensures var parent, stem := PathComponent(operation, "backup"), PathComponent(model, "unknown_model") + "_" + timestamp;
        && (r.Ok? ==>
              && r.value in dirs && r.value !in old(dirs)
              && exists k: nat :: k < U32_MAX && r.value == (parent, Candidate(stem, k)) &&
                   forall i: nat :: i < k ==> (parent, Candidate(stem, i)) in dirs)
        && (r == Err(true) ==> forall i: nat :: i < U32_MAX ==> (parent, Candidate(stem, i)) in dirs)
    {
      var parent := PathComponent(operation, "backup");
      var made: bool := *;
      if !made {
        return Err(false);
      }
      var stem := PathComponent(model, "unknown_model") + "_" + timestamp;
      hide Candidate, PathComponent;
      var attempt := 0;
      while attempt < U32_MAX
        invariant 0 <= attempt <= U32_MAX
        invariant old(dirs) <= dirs
        invariant forall i: nat :: i < attempt ==> (parent, Candidate(stem, i)) in dirs
        decreases U32_MAX - attempt
      {
        Interfere();
        var path := (parent, Candidate(stem, attempt));
        var created := CreateDir(path);
        if created.Ok? {
          return Ok(path);
        }
        if !created.error {
          return Err(false);
        }
        attempt := attempt + 1;
      }
      return Err(true);
    }
  }
}
