/**
 Moving legacy data out of the executable directory (crates/ltbox-core/src/app_paths.rs).
 The legacy tree and the data tree are disjoint; each candidate of the one maps to at
 most one place in the other. Every rename, copy, cleanup and delete may fail, and a
 failed copy or delete may leave any part of a tree behind.
 */
module Migration {
  import opened Wrappers

  /** What a path names; a link is dangling when it has no target. */
  datatype Node = File(content: seq<int>) | Dir(children: map<string, Node>) | Link(target: Option<Node>) | Other

  /** Components relative to the legacy root or to the data root. */
  type Path = seq<string>

  /** `Path::exists` follows links. */
  predicate Exists(n: Option<Node>) {
    n.Some? && n != Some(Link(None))
  }

  /** The node, itself or behind a link. */
  predicate Reaches(at: Option<Node>, n: Node) {
    at == Some(n) || at == Some(Link(Some(n)))
  }

  function Get(tree: map<Path, Node>, p: Path): Option<Node> {
    if p in tree then Some(tree[p]) else None
  }

  function Put(tree: map<Path, Node>, p: Path, n: Option<Node>): map<Path, Node> {
    if n.Some? then tree[p := n.value] else tree - {p}
  }

  // ---- The layout -------------------------------------------------------------------------

  datatype MigrationDecision = Move | LeaveExisting | Nothing

  function Decide(legacyExists: bool, destinationExists: bool): MigrationDecision {
    if destinationExists then LeaveExisting else if legacyExists then Move else Nothing
  }

  /** The part of `name` behind a prefix. */
  function Stripped(name: string, prefix: string): Option<string> {
    if |name| >= |prefix| && name[..|prefix|] == prefix then Some(name[|prefix|..]) else None
  }

  /** `legacy_destination`, for a nonempty path below a legacy root of the given name. */
  function Destination(rootName: string, p: Path): Option<Path>
    requires p != []
  {
    var name, parent := p[|p| - 1], if |p| > 1 then p[|p| - 2] else rootName;
    if name == "adbkey" && parent == "adb" then Some(["adb", "adbkey"])
    else if Stripped(name, "work_").Some? && Stripped(name, "work_").value != "" then
      Some(["work", Stripped(name, "work_").value])
    else if Stripped(name, "output_").Some? && Stripped(name, "output_").value != "" then
      Some(["outputs", Stripped(name, "output_").value])
    else if Stripped(name, "backup_").Some? then Some(["backups", name])
    else None
  }

  /** The key file, and the directories listed in the legacy root. */
  function Candidates(listing: seq<string>): (c: seq<Path>)
    ensures forall p :: p in c ==> p != []
    ensures forall i :: 0 <= i < |c| ==> c[i] != []
  {
    [["adb", "adbkey"]] + seq(|listing|, i requires 0 <= i < |listing| => [listing[i]])
  }

  /** Where the entries of the legacy root go: work and output directories by their slug, backups by name. */
  lemma DestinationsAre(rootName: string, slug: string)
    ensures slug != "" ==> Destination(rootName, ["work_" + slug]) == Some(["work", slug])
    ensures slug != "" ==> Destination(rootName, ["output_" + slug]) == Some(["outputs", slug])
    ensures Destination(rootName, ["backup_" + slug]) == Some(["backups", "backup_" + slug])
    ensures Destination(rootName, ["adb", "adbkey"]) == Some(["adb", "adbkey"])
  {
    var work, output, backup := "work_" + slug, "output_" + slug, "backup_" + slug;
    assert work[0] == 'w' && output[0] == 'o' && backup[0] == 'b' && "adbkey"[0] == 'a';
    assert work[..5] == "work_" && work[5..] == slug;
    assert output[..7] == "output_" && output[7..] == slug;
    assert backup[..7] == "backup_" && backup[7..] == slug;
    assert output[..5][0] == 'o' && "work_"[0] == 'w' && "output_"[0] == 'o';
    assert backup[..7][0] == 'b' && backup[..5][0] == 'b';
  }

  /** No other entry of the legacy root is moved. */
  lemma MovesNothingElse(rootName: string, name: string)
    ensures Destination(rootName, [name]).Some? <==>
      "work_" < name || "output_" < name || "backup_" <= name || (rootName == "adb" && name == "adbkey")
  {
  }

  /** The key file is considered first and then each listed entry in turn. */
  lemma CandidatesAre(listing: seq<string>, i: nat)
    requires i < |listing|
    ensures |Candidates(listing)| == |listing| + 1
    ensures Candidates(listing)[0] == ["adb", "adbkey"] && Candidates(listing)[1 + i] == [listing[i]]
  {
  }

  lemma CandidatesSubset(again: seq<string>, listing: seq<string>)
    requires forall n :: n in again ==> n in listing
    ensures forall p :: p in Candidates(again) ==> p in Candidates(listing)
  {
    forall n | n in listing ensures [n] in Candidates(listing) {
      var i :| 0 <= i < |listing| && listing[i] == n;
      assert Candidates(listing)[1 + i] == [n];
    }
    assert Candidates(listing)[0] == ["adb", "adbkey"];
  }

  lemma StrippedIsInjective(m: string, n: string, prefix: string)
    requires Stripped(m, prefix).Some? && Stripped(m, prefix) == Stripped(n, prefix)
    ensures m == n
  {
    assert m == m[..|prefix|] + m[|prefix|..];
    assert n == n[..|prefix|] + n[|prefix|..];
  }

  /** Two entries of the legacy root never share a destination. */
  lemma DestinationsAreDistinct(rootName: string, m: string, n: string)
    requires Destination(rootName, [m]).Some? && Destination(rootName, [m]) == Destination(rootName, [n])
    ensures m == n
  {
    var d := Destination(rootName, [m]).value;
    assert ["adb", "adbkey"][0] == "adb" && d[0] in {"adb", "work", "outputs", "backups"};
    assert "work" != "adb" && "outputs" != "adb" && "backups" != "adb" && "work" != "outputs" && "outputs" != "backups";
    if d[0] == "work" {
      assert Stripped(m, "work_") == Some(d[1]) == Stripped(n, "work_");
      StrippedIsInjective(m, n, "work_");
    } else if d[0] == "outputs" {
      assert Stripped(m, "output_") == Some(d[1]) == Stripped(n, "output_");
      StrippedIsInjective(m, n, "output_");
    }
  }

  /**
   The key file shares its destination with a listed entry exactly when the legacy root
   is itself called `adb` and the entry `adbkey`.
   */
  lemma KeyFileSharesExactly(rootName: string, n: string)
    ensures Destination(rootName, ["adb", "adbkey"]) == Some(["adb", "adbkey"])
    ensures Destination(rootName, [n]) == Some(["adb", "adbkey"]) <==> rootName == "adb" && n == "adbkey"
  {
    assert "work" != "adb" && "outputs" != "adb" && "backups" != "adb";
    if !(rootName == "adb" && n == "adbkey") && Destination(rootName, [n]).Some? {
      var d := Destination(rootName, [n]).value;
      assert d[0] in {"work", "outputs", "backups"};
      assert ["adb", "adbkey"][0] == "adb";
    }
  }

  // ---- Trees of files -----------------------------------------------------------------------

  /**
   `copy_entry`: a recursive copy that stops at the first failure or at anything but a
   file or directory. A file copied onto a dangling link is written behind the link.
   */
  method CopyEntry(source: Node, at: Option<Node>) returns (ok: bool, made: Option<Node>)
    requires !Exists(at)
    ensures ok ==> Reaches(made, source) && (at.None? ==> made == Some(source))
    decreases source
  {
    var failed: bool := *;
    if failed || source.Link? || source.Other? {
      return false, at;
    }
    if source.File? {
      var short: bool, part: seq<int> := *, *;
      var written := File(if short then part else source.content);
      return !short, Some(if at.None? then written else Link(Some(written)));
    }
    if at.Some? {
      return false, at;
    }
    var done: map<string, Node> := map[];
    var names := source.children.Keys;
    while names != {}
      invariant names <= source.children.Keys
      invariant done.Keys == source.children.Keys - names
      invariant forall n :: n in done ==> done[n] == source.children[n]
      decreases |names|
    {
      var n :| n in names;
      var copied, child := CopyEntry(source.children[n], None);
      if !copied {
        return false, Some(Dir(if child.Some? then done[n := child.value] else done));
      }
      done := done[n := child.value];
      names := names - {n};
    }
    assert done == source.children;
    return true, Some(Dir(done));
  }

  /** Delete what is there; a failure may leave any part of a directory. */
  method RemoveEntry(at: Option<Node>) returns (ok: bool, left: Option<Node>)
    ensures ok ==> left.None?
    ensures at.None? ==> left.None?
  {
    ok := *;
    if ok || at.None? {
      return ok, None;
    }
    var part: map<string, Node> := *;
    return false, Some(if at.value.Dir? then Dir(part) else at.value);
  }

  // ---- One candidate, on the trees it may change -------------------------------------------------

  datatype Disk = Disk(legacy: map<Path, Node>, data: map<Path, Node>)

  /** The whole of `n` is still at its legacy path, or is at its destination. */
  predicate Kept(rootName: string, disk: Disk, p: Path, n: Node)
    requires p != []
  {
    || Get(disk.legacy, p) == Some(n)
    || (Destination(rootName, p).Some? && Reaches(Get(disk.data, Destination(rootName, p).value), n))
  }

  /** Every original is kept. */
  ghost predicate Conserves(rootName: string, disk: Disk, originals: map<Path, Node>) {
    forall p :: p in originals ==> p != [] && Exists(Some(originals[p])) && Kept(rootName, disk, p, originals[p])
  }

  /** There is nothing to move for the candidate. */
  predicate Done(rootName: string, disk: Disk, p: Path)
    requires p != []
  {
    Destination(rootName, p).Some? ==>
      !Exists(Get(disk.legacy, p)) || Exists(Get(disk.data, Destination(rootName, p).value))
  }

  predicate Settled(rootName: string, disk: Disk, candidates: seq<Path>)
    requires forall p :: p in candidates ==> p != []
  {
    forall p :: p in candidates ==> Done(rootName, disk, p)
  }

  /** Nothing that existed in the data tree changed, and nothing appeared in the legacy tree. */
  ghost predicate OnlyMoves(before: Disk, after: Disk) {
    && (forall d :: Exists(Get(before.data, d)) ==> Get(after.data, d) == Get(before.data, d))
    && (forall p :: Get(before.legacy, p).None? ==> Get(after.legacy, p).None?)
  }

  /** At most this candidate's two places differ, and its node is whole at one of them. */
  ghost predicate Moves(before: Disk, after: Disk, p: Path, d: Path) {
    && OnlyMoves(before, after)
    && (forall q :: q != p ==> Get(after.legacy, q) == Get(before.legacy, q))
    && (forall q :: q != d ==> Get(after.data, q) == Get(before.data, q))
    && (p in before.legacy ==>
          Get(after.legacy, p) == Some(before.legacy[p]) || Reaches(Get(after.data, d), before.legacy[p]))
  }

  lemma MovesConserves(rootName: string, before: Disk, after: Disk, p: Path, d: Path, originals: map<Path, Node>)
    requires p != [] && Destination(rootName, p) == Some(d) && Moves(before, after, p, d)
    requires Conserves(rootName, before, originals)
    ensures Conserves(rootName, after, originals)
  {
    hide Destination;
    forall q | q in originals ensures Kept(rootName, after, q, originals[q]) {
      assert Kept(rootName, before, q, originals[q]);
      if Destination(rootName, q).Some? && Reaches(Get(before.data, Destination(rootName, q).value), originals[q]) {
        assert Exists(Get(before.data, Destination(rootName, q).value));
      }
    }
  }

  /** The candidate's node is gone from the legacy tree and whole at its destination. */
  predicate Moved(before: Disk, after: Disk, p: Path, d: Path) {
    p in before.legacy && p !in after.legacy && Reaches(Get(after.data, d), before.legacy[p])
  }

  // ---- A pass over the candidates --------------------------------------------------------------------

  /** What the file system answers when a candidate's parent is made and when it is renamed. */
  datatype Answers = Answers(prepared: Path -> bool, renamed: Path -> bool)

  predicate Nonempty(candidates: seq<Path>) {
    forall i :: 0 <= i < |candidates| ==> candidates[i] != []
  }

  /** No candidate that comes earlier and is to be moved shares the destination. */
  predicate FirstFor(rootName: string, first: Disk, candidates: seq<Path>, i: nat)
    requires i < |candidates| && Nonempty(candidates)
  {
    forall j :: 0 <= j < i && Destination(rootName, candidates[j]) == Destination(rootName, candidates[i]) ==>
      Done(rootName, first, candidates[j])
  }

  /** The candidate's two places are as they were at first. */
  predicate SamePlaces(rootName: string, first: Disk, now: Disk, p: Path)
    requires p != []
  {
    Destination(rootName, p).Some? ==>
      && Get(now.legacy, p) == Get(first.legacy, p)
      && Get(now.data, Destination(rootName, p).value) == Get(first.data, Destination(rootName, p).value)
  }

  /** Every one of the first `i` candidates that was to be moved, and is the first for its place, has been. */
  ghost predicate MovedUpTo(rootName: string, first: Disk, now: Disk, candidates: seq<Path>, i: nat)
    requires Nonempty(candidates)
  {
    i <= |candidates| && forall j :: 0 <= j < i && !Done(rootName, first, candidates[j]) && FirstFor(rootName, first, candidates, j) ==>
      Moved(first, now, candidates[j], Destination(rootName, candidates[j]).value)
  }

  /** The candidates from `i` on that are the first for their place are untouched. */
  ghost predicate UntouchedFrom(rootName: string, first: Disk, now: Disk, candidates: seq<Path>, i: nat)
    requires Nonempty(candidates)
  {
    forall j :: i <= j < |candidates| && FirstFor(rootName, first, candidates, j) ==>
      SamePlaces(rootName, first, now, candidates[j])
  }

  /** One turn of the pass: the candidate is done with, or reported as failed. */
  ghost predicate Turn(rootName: string, before: Disk, after: Disk, p: Path, ok: bool)
    requires p != []
  {
    var d := Destination(rootName, p);
    && OnlyMoves(before, after)
    && (forall q :: q != p ==> Get(after.legacy, q) == Get(before.legacy, q))
    && (Done(rootName, before, p) ==> ok && after == before)
    && (d.Some? ==> Moves(before, after, p, d.value))
    && (ok && !Done(rootName, before, p) ==> Moved(before, after, p, d.value))
    && (ok ==> Done(rootName, after, p))
  }

  lemma StepLeavesUntouched(rootName: string, first: Disk, before: Disk, after: Disk, candidates: seq<Path>, i: nat, ok: bool)
    requires i < |candidates| && Nonempty(candidates)
    requires UntouchedFrom(rootName, first, before, candidates, i) && Turn(rootName, before, after, candidates[i], ok)
    ensures UntouchedFrom(rootName, first, after, candidates, i + 1)
  {
    hide Destination;
    var p := candidates[i];
    forall j: nat | i + 1 <= j < |candidates| && FirstFor(rootName, first, candidates, j)
      ensures SamePlaces(rootName, first, after, candidates[j])
    {
      assert SamePlaces(rootName, first, before, candidates[j]);
      if Destination(rootName, p) == Destination(rootName, candidates[j]) {
        assert FirstFor(rootName, first, candidates, i);
        assert SamePlaces(rootName, first, before, p);
      }
    }
  }

  lemma StaysMoved(first: Disk, before: Disk, after: Disk, p: Path, d: Path)
    requires Moved(first, before, p, d) && Exists(Get(first.legacy, p)) && OnlyMoves(before, after)
    ensures Moved(first, after, p, d)
  {
    assert Get(before.legacy, p).None? && Exists(Get(before.data, d));
    assert Get(after.legacy, p).None?;
  }

  lemma StepMoves(rootName: string, first: Disk, before: Disk, after: Disk, candidates: seq<Path>, i: nat)
    requires i < |candidates| && Nonempty(candidates)
    requires UntouchedFrom(rootName, first, before, candidates, i) && MovedUpTo(rootName, first, before, candidates, i)
    requires Turn(rootName, before, after, candidates[i], true)
    ensures MovedUpTo(rootName, first, after, candidates, i + 1)
  {
    hide Destination;
    var p := candidates[i];
    forall j: nat | j < i + 1 && !Done(rootName, first, candidates[j]) && FirstFor(rootName, first, candidates, j)
      ensures Moved(first, after, candidates[j], Destination(rootName, candidates[j]).value)
    {
      if j < i {
        StaysMoved(first, before, after, candidates[j], Destination(rootName, candidates[j]).value);
      } else {
        assert SamePlaces(rootName, first, before, p);
        assert Get(before.legacy, p) == Get(first.legacy, p);
      }
    }
  }

  lemma PassStarts(rootName: string, first: Disk, candidates: seq<Path>)
    requires Nonempty(candidates)
    ensures UntouchedFrom(rootName, first, first, candidates, 0) && MovedUpTo(rootName, first, first, candidates, 0)
    ensures OnlyMoves(first, first)
  {
  }

  lemma TurnAgain(rootName: string, first: Disk, before: Disk, after: Disk, p: Path, ok: bool)
    requires p != [] && Turn(rootName, before, after, p, ok) && OnlyMoves(first, before)
    ensures OnlyMoves(first, after)
    ensures forall q :: q != p ==> Get(after.legacy, q) == Get(before.legacy, q)
    ensures Done(rootName, before, p) ==> ok && after == before
    ensures ok ==> Done(rootName, after, p)
  {
  }

  lemma TurnStaysDone(rootName: string, before: Disk, after: Disk, p: Path, ok: bool, q: Path)
    requires p != [] && q != [] && Turn(rootName, before, after, p, ok) && Done(rootName, before, q)
    ensures Done(rootName, after, q)
  {
    hide Destination;
  }

  /** A dangling link does not exist for the decision, so a rename replaces it: only what exists is protected. */
  lemma DanglingLinkIsNotProtected(n: Node)
    requires Exists(Some(n))
    ensures var p, d := ["backup_a"], ["backups", "backup_a"];
      var before, after := Disk(map[p := n], map[d := Link(None)]), Disk(map[], map[d := n]);
      && Destination("", p) == Some(d)
      && Decide(Exists(Get(before.legacy, p)), Exists(Get(before.data, d))) == Move
      && Moves(before, after, p, d) && after.data[d] != before.data[d]
  {
    assert "backup_a"[..7] == "backup_";
    assert "backup_a"[0] == 'b';
    assert Stripped("backup_a", "backup_") == Some("a");
    assert Stripped("backup_a", "work_").None? by { assert "backup_a"[..5][0] != "work_"[0]; }
    assert Stripped("backup_a", "output_").None? by { assert "backup_a"[..7][0] != "output_"[0]; }
    assert "backup_a" != "adbkey" by { assert "adbkey"[0] == 'a'; }
  }

  // ---- The migration --------------------------------------------------------------------------

  class FileSystem {
    /** The name of the legacy root itself. */
    const rootName: string
    var legacy: map<Path, Node>
    var data: map<Path, Node>

    constructor (rootName: string, legacy: map<Path, Node>, data: map<Path, Node>)
      ensures this.rootName == rootName && View() == Disk(legacy, data)
    {
      this.rootName := rootName;
      this.legacy := legacy;
      this.data := data;
    }

    ghost function View(): Disk
      reads this
    {
      Disk(legacy, data)
    }

    /** `copy_fallback`: copy, then delete the source; a failed copy is cleaned up. */
    method CopyFallback(p: Path, d: Path) returns (ok: bool)
      requires p in legacy && !Exists(Get(data, d))
      modifies this
      ensures Moves(old(View()), View(), p, d)
      ensures ok ==> p !in legacy
    {
      var copied, made := CopyEntry(legacy[p], Get(data, d));
      data := Put(data, d, made);
      if !copied {
        var _, left := RemoveEntry(made);
        data := Put(data, d, left);
        return false;
      }
      var removed, left := RemoveEntry(Some(legacy[p]));
      legacy := Put(legacy, p, left);
      ok := removed;
    }

    /**
     One candidate: false when it is reported as failed. When it is not, its destination
     changed exactly if it was to be moved, and then it has been; it cannot fail when its
     parent is made and it is renamed.
     */
    method MigrateOne(p: Path, d: Path, answers: Answers) returns (ok: bool)
      requires p != [] && Destination(rootName, p) == Some(d)
      modifies this
      ensures Moves(old(View()), View(), p, d)
      ensures Done(rootName, old(View()), p) ==> ok && View() == old(View())
      ensures ok && !Done(rootName, old(View()), p) ==> Moved(old(View()), View(), p, d)
      ensures ok ==> (Get(data, d) == Get(old(data), d) <==> Done(rootName, old(View()), p))
      ensures ok ==> Done(rootName, View(), p)
      ensures answers.prepared(p) && answers.renamed(p) ==> ok
    {
      if Decide(Exists(Get(legacy, p)), Exists(Get(data, d))) != Move {
        return true;
      }
      if !answers.prepared(p) {
        return false;
      }
      if answers.renamed(p) {
        data := data[d := legacy[p]];
        legacy := legacy - {p};
        return true;
      }
      ok := CopyFallback(p, d);
    }

    /**
     `migrate_legacy_data`: with any steps failing, every original is kept whole at its
     source or its destination, nothing that existed in the data tree is changed, and
     when no candidate failed every one that was to be moved is whole at its destination
     and gone from its source, unless an earlier one took the destination; then another
     pass changes nothing.
     */
    method Migrate(listing: seq<string>, answers: Answers, ghost originals: map<Path, Node>) returns (failures: seq<Path>)
      requires Conserves(rootName, View(), originals)
      modifies this
      ensures Conserves(rootName, View(), originals)
      ensures OnlyMoves(old(View()), View())
      ensures forall p :: p !in Candidates(listing) ==> Get(legacy, p) == Get(old(legacy), p)
      ensures failures == [] ==> MovedUpTo(rootName, old(View()), View(), Candidates(listing), |Candidates(listing)|)
      ensures failures == [] ==> Settled(rootName, View(), Candidates(listing))
      ensures Settled(rootName, old(View()), Candidates(listing)) ==> failures == [] && View() == old(View())
      ensures (forall p :: p in Candidates(listing) ==> answers.prepared(p) && answers.renamed(p)) ==> failures == []
    {
      failures := [];
      var candidates := Candidates(listing);
      ghost var first := View();
      assert forall j :: 0 <= j < |candidates| ==> candidates[j] in candidates && candidates[j] != [];
      hide Conserves, Done, Candidates, Destination, MovedUpTo, UntouchedFrom, Moved, OnlyMoves, Turn;
      PassStarts(rootName, first, candidates);
      for i := 0 to |candidates|
        invariant Conserves(rootName, View(), originals)
        invariant OnlyMoves(first, View())
        invariant forall p :: p !in candidates ==> Get(legacy, p) == Get(first.legacy, p)
        invariant UntouchedFrom(rootName, first, View(), candidates, i)
        invariant failures == [] ==> MovedUpTo(rootName, first, View(), candidates, i)
        invariant failures == [] ==> forall j :: 0 <= j < i ==> Done(rootName, View(), candidates[j])
        invariant Settled(rootName, first, candidates) ==> failures == [] && View() == first
        invariant (forall p :: p in candidates ==> answers.prepared(p) && answers.renamed(p)) ==> failures == []
      {
        ghost var before := View();
        var ok := MigrateCandidate(candidates[i], answers, originals);
        TurnAgain(rootName, first, before, View(), candidates[i], ok);
        StepLeavesUntouched(rootName, first, before, View(), candidates, i, ok);
        if !ok {
          failures := failures + [candidates[i]];
        } else if failures == [] {
          StepMoves(rootName, first, before, View(), candidates, i);
          forall j | 0 <= j < i ensures Done(rootName, View(), candidates[j]) {
            TurnStaysDone(rootName, before, View(), candidates[i], ok, candidates[j]);
          }
        }
      }
    }

    /** One turn of the loop: a name that maps nowhere is passed over. */
    method MigrateCandidate(p: Path, answers: Answers, ghost originals: map<Path, Node>) returns (ok: bool)
      requires p != [] && Conserves(rootName, View(), originals)
      modifies this
      ensures Conserves(rootName, View(), originals)
      ensures Turn(rootName, old(View()), View(), p, ok)
      ensures answers.prepared(p) && answers.renamed(p) ==> ok
    {
      var d := Destination(rootName, p);
      if d.None? {
        return true;
      }
      ghost var before := View();
      ok := MigrateOne(p, d.value, answers);
      MovesConserves(rootName, before, View(), p, d.value, originals);
    }

    /** A pass, and another over no more entries: when the first did not fail the second changes nothing. */
    method MigrateTwice(listing: seq<string>, again: seq<string>, answers: Answers, ghost originals: map<Path, Node>)
      returns (first: seq<Path>, second: seq<Path>, ghost between: Disk)
      requires Conserves(rootName, View(), originals) && forall n :: n in again ==> n in listing
      modifies this
      ensures Conserves(rootName, View(), originals)
      ensures first == [] ==> second == [] && View() == between
    {
      first := Migrate(listing, answers, originals);
      between := View();
      CandidatesSubset(again, listing);
      hide Candidates, MovedUpTo;
      second := Migrate(again, answers, originals);
    }
  }

  /** The mover replaces a dangling link: the item ends whole where the link was. */
  method DanglingLinkIsReplaced(n: Node) returns (fs: FileSystem)
    requires Exists(Some(n))
    ensures Reaches(Get(fs.data, ["backups", "backup_a"]), n) && ["backup_a"] !in fs.legacy
  {
    var p, d := ["backup_a"], ["backups", "backup_a"];
    DanglingLinkIsNotProtected(n);
    fs := new FileSystem("", map[p := n], map[d := Link(None)]);
    var ok := fs.MigrateOne(p, d, Answers(_ => true, _ => true));
  }
}
