/**
 The bounded most-recently-used lists of the settings (crates/ltbox-gui/src/settings_store.rs):
 a list that keeps three entries behaves like one that keeps them all.
 */
module RecentPaths {

  const RECENT_MAX: nat := 3
  const LEGACY_FILES_KEY: string := "legacy.files"
  const LEGACY_FOLDERS_KEY: string := "legacy.folders"

  function Without(list: seq<string>, path: string): seq<string> {
    if list == [] then []
    else Without(list[..|list| - 1], path) + (if list[|list| - 1] == path then [] else [list[|list| - 1]])
  }

  function Take(list: seq<string>): seq<string> {
    if |list| > RECENT_MAX then list[..RECENT_MAX] else list
  }

  /** One push onto the unbounded list. */
  function Pushed(list: seq<string>, path: string): seq<string> {
    if path == "" then list else [path] + Without(list, path)
  }

  /** `push_front_dedup`, on the list as it is stored. */
  method PushFrontDedup(list: seq<string>, path: string) returns (after: seq<string>, changed: bool)
    ensures after == if path == "" then list else Take(Pushed(list, path))
    ensures path != "" ==> 0 < |after| <= 3 && after[0] == path && forall p :: p in after ==> p == path || p in list
    ensures changed <==> after != list
  {
    if path == "" {
      return list, false;
    }
    var kept: seq<string> := [];
    for i := 0 to |list|
      invariant kept == Without(list[..i], path)
    {
      assert list[..i + 1][..i] == list[..i];
      if list[i] != path {
        kept := kept + [list[i]];
      }
    }
    assert list[..|list|] == list;
    WithoutMembers(list, path);
    after := [path] + kept;
    if |after| > RECENT_MAX {
      after := after[..RECENT_MAX];
    }
    changed := after != list;
  }

  // ---- The list that keeps everything -------------------------------------------------------

  /** The distinct nonempty paths pushed, newest first. */
  function NewestFirst(pushes: seq<string>): seq<string> {
    if pushes == [] then [] else Pushed(NewestFirst(pushes[..|pushes| - 1]), pushes[|pushes| - 1])
  }

  predicate Distinct(list: seq<string>) {
    forall i, j :: 0 <= i < j < |list| ==> list[i] != list[j]
  }

  /** How many pushes ago a path was last pushed. */
  function Age(pushes: seq<string>, path: string): nat {
    if pushes == [] || pushes[|pushes| - 1] == path then 0 else 1 + Age(pushes[..|pushes| - 1], path)
  }

  lemma {:induction false} WithoutMembers(list: seq<string>, path: string)
    ensures forall p :: p in Without(list, path) <==> p in list && p != path
    ensures Distinct(list) ==> Distinct(Without(list, path))
    ensures path !in list ==> Without(list, path) == list
    ensures |Without(list, path)| <= |list|
  {
    if list != [] {
      var front, last := list[..|list| - 1], list[|list| - 1];
      WithoutMembers(front, path);
      assert list == front + [last];
      var kept := Without(front, path);
      assert Without(list, path) == if last == path then kept else kept + [last];
      hide Without;
      if Distinct(list) {
        DistinctFront(list);
        assert forall i :: 0 <= i < |kept| ==> kept[i] in front;
      }
    }
  }

  lemma DistinctFront(list: seq<string>)
    requires list != [] && Distinct(list)
    ensures Distinct(list[..|list| - 1]) && list[|list| - 1] !in list[..|list| - 1]
  {
    var front := list[..|list| - 1];
    assert forall i :: 0 <= i < |front| ==> front[i] == list[i];
  }

  predicate ByAge(list: seq<string>, pushes: seq<string>) {
    forall i, j :: 0 <= i < j < |list| ==> Age(pushes, list[i]) < Age(pushes, list[j])
  }

  lemma {:induction false} WithoutKeepsOrder(list: seq<string>, path: string, pushes: seq<string>)
    requires ByAge(list, pushes)
    ensures ByAge(Without(list, path), pushes)
  {
    if list != [] {
      var front := list[..|list| - 1];
      WithoutKeepsOrder(front, path, pushes);
      WithoutMembers(front, path);
      var kept := Without(front, path);
      forall i | 0 <= i < |kept| ensures Age(pushes, kept[i]) < Age(pushes, list[|list| - 1]) {
        assert kept[i] in front;
      }
    }
  }

  lemma AgeOfOthers(front: seq<string>, path: string)
    ensures Age(front + [path], path) == 0
    ensures forall p :: p != path ==> Age(front + [path], p) == 1 + Age(front, p)
  {
    assert (front + [path])[..|front|] == front;
  }

  /** A list without the path ages by one push; the path in front of it is the youngest. */
  lemma PushedInFront(kept: seq<string>, path: string, front: seq<string>)
    requires Distinct(kept) && ByAge(kept, front) && path !in kept
    ensures Distinct([path] + kept) && ByAge([path] + kept, front + [path])
    ensures ByAge(kept, front + [path])
  {
    AgeOfOthers(front, path);
    hide Age;
    forall i | 0 <= i < |kept| ensures Age(front + [path], kept[i]) == 1 + Age(front, kept[i]) && kept[i] != path {
      assert kept[i] in kept;
    }
    var after := [path] + kept;
    forall i, j | 0 <= i < j < |after|
      ensures after[i] != after[j] && Age(front + [path], after[i]) < Age(front + [path], after[j])
    {
      assert after[j] == kept[j - 1];
      if i > 0 {
        assert after[i] == kept[i - 1];
      }
    }
  }

  /** Pushing keeps a list distinct and ordered by age. */
  lemma PushedByAge(list: seq<string>, path: string, front: seq<string>)
    requires Distinct(list) && ByAge(list, front) && "" !in list
    ensures Distinct(Pushed(list, path)) && ByAge(Pushed(list, path), front + [path])
  {
    WithoutMembers(list, path);
    WithoutKeepsOrder(list, path, front);
    hide Without, Age, Distinct, ByAge;
    PushedInFront(if path == "" then list else Without(list, path), path, front);
  }

  /** The unbounded list holds exactly the nonempty paths pushed, each once, the more recently pushed in front. */
  lemma {:induction false} NewestFirstMeans(pushes: seq<string>)
    ensures forall p :: p in NewestFirst(pushes) <==> p in pushes && p != ""
    ensures Distinct(NewestFirst(pushes)) && ByAge(NewestFirst(pushes), pushes)
  {
    if pushes != [] {
      var front, path := pushes[..|pushes| - 1], pushes[|pushes| - 1];
      NewestFirstMeans(front);
      PushedByAge(NewestFirst(front), path, front);
      WithoutMembers(NewestFirst(front), path);
      hide Without, Age, Distinct, ByAge;
      assert pushes == front + [path];
    }
  }

  // ---- The bounded list ----------------------------------------------------------------------------

  lemma {:induction false} WithoutSplits(a: seq<string>, b: seq<string>, path: string)
    ensures Without(a + b, path) == Without(a, path) + Without(b, path)
  {
    if b == [] {
      assert a + b == a;
    } else {
      assert (a + b)[..|a + b| - 1] == a + b[..|b| - 1];
      WithoutSplits(a, b[..|b| - 1], path);
    }
  }

  lemma {:induction false} WithoutDropsOne(list: seq<string>, path: string)
    requires Distinct(list)
    ensures |Without(list, path)| >= |list| - 1
  {
    if list != [] {
      var front := list[..|list| - 1];
      WithoutDropsOne(front, path);
      WithoutMembers(front, path);
      assert forall i :: 0 <= i < |front| ==> list[i] != list[|list| - 1];
    }
  }

  /** Pushing onto the first three entries gives the first three entries of the pushed list. */
  lemma PushRefines(list: seq<string>, path: string)
    requires Distinct(list)
    ensures Take(Pushed(Take(list), path)) == Take(Pushed(list, path))
  {
    if |list| > RECENT_MAX {
      var a, b := list[..RECENT_MAX], list[RECENT_MAX..];
      assert list == a + b;
      WithoutSplits(a, b, path);
      WithoutDropsOne(a, path);
      WithoutMembers(a, path);
    }
  }

  /** The bounded list after a run of pushes. */
  function Recent(pushes: seq<string>): seq<string> {
    if pushes == [] then []
    else if pushes[|pushes| - 1] == "" then Recent(pushes[..|pushes| - 1])
    else Take(Pushed(Recent(pushes[..|pushes| - 1]), pushes[|pushes| - 1]))
  }

  /** After any run of pushes the bounded list is the first three of the distinct nonempty paths pushed, newest first. */
  lemma {:induction false} RecentIsNewestThree(pushes: seq<string>)
    ensures Recent(pushes) == Take(NewestFirst(pushes))
    ensures Recent(pushes) <= NewestFirst(pushes)
    ensures |Recent(pushes)| == if |NewestFirst(pushes)| >= 3 then 3 else |NewestFirst(pushes)|
  {
    if pushes != [] {
      var front := pushes[..|pushes| - 1];
      RecentIsNewestThree(front);
      NewestFirstMeans(front);
      PushRefines(NewestFirst(front), pushes[|pushes| - 1]);
    }
  }

  // ---- The settings -----------------------------------------------------------------------------------

  /** The paths of the pushes to one kind. */
  function PushesTo(pushes: seq<(string, string)>, kind: string): seq<string> {
    if pushes == [] then []
    else PushesTo(pushes[..|pushes| - 1], kind) + (if pushes[|pushes| - 1].0 == kind then [pushes[|pushes| - 1].1] else [])
  }

  lemma PushesToSnoc(pushes: seq<(string, string)>, kind: string, path: string)
    ensures forall k :: k != kind ==> PushesTo(pushes + [(kind, path)], k) == PushesTo(pushes, k)
    ensures PushesTo(pushes + [(kind, path)], kind) == PushesTo(pushes, kind) + [path]
  {
    var after := pushes + [(kind, path)];
    assert after[..|after| - 1] == pushes;
    assert forall k :: PushesTo(pushes, k) + [] == PushesTo(pushes, k);
  }

  lemma RecentSnoc(to: seq<string>, path: string)
    ensures Recent(to + [path]) == if path == "" then Recent(to) else Take(Pushed(Recent(to), path))
  {
    hide Take, Pushed;
    var after := to + [path];
    assert after[..|after| - 1] == to;
  }

  class RecentPaths {
    var byKind: map<string, seq<string>>
    var files: seq<string>
    var folders: seq<string>
    /** Every push since the lists were empty. */
    ghost var pushes: seq<(string, string)>

    constructor ()
      ensures Valid() && byKind == map[] && files == [] && folders == [] && pushes == []
    {
      byKind, files, folders, pushes := map[], [], [], [];
    }

    /** Every list is the bounded list of the pushes to its kind; the empty kind has none. */
    ghost predicate Valid()
      reads this
    {
      && "" !in byKind
      && forall kind :: kind != "" ==> Listed(kind) == Recent(PushesTo(pushes, kind))
    }

    ghost function Listed(kind: string): seq<string>
      reads this
    {
      if kind in byKind then byKind[kind] else []
    }

    method Recents(kind: string) returns (list: seq<string>)
      requires Valid()
      ensures list == if kind == "" then [] else Take(NewestFirst(PushesTo(pushes, kind)))
      ensures kind != "" ==>
        var all := NewestFirst(PushesTo(pushes, kind)); list <= all && |list| == if |all| >= 3 then 3 else |all|
    {
      RecentIsNewestThree(PushesTo(pushes, kind));
      list := if kind in byKind then byKind[kind] else [];
    }

    /** `push`: true exactly when the list changed. */
    method Push(kind: string, path: string) returns (changed: bool)
      requires Valid()
      modifies this`byKind, this`pushes
      ensures Valid() && pushes == old(pushes) + [(kind, path)]
      ensures changed <==> Listed(kind) != old(Listed(kind))
      ensures forall k :: k != kind ==> Listed(k) == old(Listed(k))
    {
      PushesToSnoc(pushes, kind, path);
      RecentSnoc(PushesTo(pushes, kind), path);
      hide PushesTo, Recent, Pushed, Take;
      pushes := pushes + [(kind, path)];
      if kind == "" {
        return false;
      }
      var list := if kind in byKind then byKind[kind] else [];
      var after;
      after, changed := PushFrontDedup(list, path);
      byKind := byKind[kind := after];
    }

    /** `migrate_legacy`: the old arrays are pushed once, oldest first, and are empty from then on. */
    method MigrateLegacy()
      requires Valid()
      modifies this
      ensures Valid() && files == [] && folders == []
      ensures pushes == old(pushes) + Tagged(LEGACY_FILES_KEY, old(files)) + Tagged(LEGACY_FOLDERS_KEY, old(folders))
      ensures old(files) == [] && old(folders) == [] ==> byKind == old(byKind)
    {
      var oldFiles, oldFolders := files, folders;
      files := [];
      PushAll(LEGACY_FILES_KEY, oldFiles);
      folders := [];
      PushAll(LEGACY_FOLDERS_KEY, oldFolders);
    }

    method PushAll(kind: string, paths: seq<string>)
      requires Valid()
      modifies this`byKind, this`pushes
      ensures Valid() && pushes == old(pushes) + Tagged(kind, paths)
      ensures paths == [] ==> byKind == old(byKind)
    {
      for i := 0 to |paths|
        invariant Valid() && pushes == old(pushes) + Tagged(kind, paths[..i])
        invariant i == 0 ==> byKind == old(byKind)
      {
        var _ := Push(kind, paths[i]);
        assert Tagged(kind, paths[..i + 1]) == Tagged(kind, paths[..i]) + [(kind, paths[i])];
      }
      assert paths[..|paths|] == paths;
    }
  }

  function Tagged(kind: string, paths: seq<string>): seq<(string, string)> {
    seq(|paths|, i requires 0 <= i < |paths| => (kind, paths[i]))
  }
}
