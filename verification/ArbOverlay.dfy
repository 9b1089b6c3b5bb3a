/**
 The anti-rollback overlay builder (crates/ltbox-gui/src/arb_overlay.rs): the
 chained images of a firmware package are re-signed under one key at indices the
 device accepts, and the root vbmeta is rebuilt to delegate to that key. An image
 is its key, its rollback index and its payload; signing keeps all
 but the key and a requested index (crates/ltbox-patch/src/avb.rs).
 */
module ArbOverlay {
  import opened Text
  import opened Wrappers

  type Key = string

  const TESTKEY: Key := "testkey_rsa4096"

  datatype Image = Image(key: Key, rollback: nat, payload: seq<int>)

  /** A chain partition descriptor: the partition it delegates to and the key it trusts. */
  datatype Chain = Chain(name: string, noAb: bool, key: Key)

  /** A root vbmeta: signing key, own index, chain descriptors, and every other descriptor. */
  datatype Vbmeta = Vbmeta(key: Key, rollback: nat, chains: seq<Chain>, others: seq<string>)

  datatype File = Plain(image: Image) | Root(vbmeta: Vbmeta)

  function SignedBy(f: File): Key {
    if f.Plain? then f.image.key else f.vbmeta.key
  }

  datatype Error =
    | MissingVbmeta
    | MissingManualChain
    | NonAbLayout
    | MissingImage(name: string)
    | BelowFloor(partition: string, requested: nat, floor: nat)
    | UnsafeName(name: string)
    | UnknownLun(name: string)
    | ChainMismatch
    | Tool

  // ---- Rollback targets -----------------------------------------------------------------

  datatype Indices = Indices(boot: nat, vbmetaSystem: nat)

  predicate AtLeast(a: Indices, floors: Indices) {
    a.boot >= floors.boot && a.vbmetaSystem >= floors.vbmetaSystem
  }

  /** `select_arb_rollback_targets`, with `plan_manual_rollback` for requested targets. */
  function SelectTargets(firmware: Indices, floors: Indices, manual: Option<Indices>): Result<(Indices, bool), Error> {
    if manual.Some? then
      var q := manual.value;
      if q.boot < floors.boot then Err(BelowFloor("boot", q.boot, floors.boot))
      else if q.vbmetaSystem < floors.vbmetaSystem then
        Err(BelowFloor("vbmeta_system", q.vbmetaSystem, floors.vbmetaSystem))
      else Ok((q, firmware.boot != q.boot || firmware.vbmetaSystem != q.vbmetaSystem))
    else
      Ok((Indices(if firmware.boot >= floors.boot then firmware.boot else floors.boot,
                  if firmware.vbmetaSystem >= floors.vbmetaSystem then firmware.vbmetaSystem else floors.vbmetaSystem),
          firmware.boot < floors.boot || firmware.vbmetaSystem < floors.vbmetaSystem))
  }

  /**
   Selected targets meet the floors, are the request exactly or else the least
   raise of the firmware that meets them, and differ from the firmware exactly when
   an overlay is needed. Selection fails exactly for a request below a floor.
   */
  lemma TargetsMeetFloors(firmware: Indices, floors: Indices, manual: Option<Indices>)
    ensures var r := SelectTargets(firmware, floors, manual);
      && (r.Err? <==> manual.Some? && !AtLeast(manual.value, floors))
      && (r.Err? && manual.value.boot < floors.boot ==> r.error == BelowFloor("boot", manual.value.boot, floors.boot))
      && (r.Err? && manual.value.boot >= floors.boot ==>
            r.error == BelowFloor("vbmeta_system", manual.value.vbmetaSystem, floors.vbmetaSystem))
      && (r.Ok? ==>
            && AtLeast(r.value.0, floors)
            && (r.value.1 <==> r.value.0 != firmware)
            && (manual.Some? ==> r.value.0 == manual.value)
            && (manual.None? ==> AtLeast(r.value.0, firmware))
            && (manual.None? ==> forall t :: AtLeast(t, floors) && AtLeast(t, firmware) ==> AtLeast(t, r.value.0)))
  {
  }

  // ---- Partition labels -----------------------------------------------------------------------

  function StripSlot(partition: string): string {
    if |partition| >= 2 && Lower(partition[|partition| - 2..]) in {"_a", "_b"} then partition[..|partition| - 2]
    else partition
  }

  /** The static LUN table, keyed by lower-case base name. */
  type LunTable = string -> Option<nat>

  function LunFor(table: LunTable, partition: string): Option<nat> {
    table(Lower(StripSlot(partition)))
  }

  predicate Slotted(partition: string) {
    |partition| >= 2 && partition[|partition| - 2..] in {"_a", "_b", "_A", "_B"}
  }

  /** The table's entry for a partition: under its lower-case name without a slot suffix. */
  function EntryOf(table: LunTable, partition: string): Option<nat> {
    table(Lower(if Slotted(partition) then partition[..|partition| - 2] else partition))
  }

  /** A lookup strips one slot suffix, in any case, and nothing else; both slots of a partition share its entry. */
  lemma LunForExactly(table: LunTable, partition: string)
    ensures LunFor(table, partition) == EntryOf(table, partition)
    ensures LunFor(table, partition + "_a") == LunFor(table, partition + "_b") == table(Lower(partition))
  {
    if |partition| >= 2 {
      SlotSuffixes(partition[|partition| - 2..]);
    }
    SlotSuffixes("_a");
    SlotSuffixes("_b");
    var a, b := partition + "_a", partition + "_b";
    assert a[|a| - 2..] == "_a" && a[..|a| - 2] == partition;
    assert b[|b| - 2..] == "_b" && b[..|b| - 2] == partition;
  }

  lemma SlotSuffixes(tail: string)
    requires |tail| == 2
    ensures Lower(tail) in {"_a", "_b"} <==> tail in {"_a", "_b", "_A", "_B"}
  {
    var t := Lower(tail);
    assert t == "_a" <==> t[0] == '_' && t[1] == 'a';
    assert t == "_b" <==> t[0] == '_' && t[1] == 'b';
    assert tail == "_a" <==> tail[0] == '_' && tail[1] == 'a';
    assert tail == "_b" <==> tail[0] == '_' && tail[1] == 'b';
    assert tail == "_A" <==> tail[0] == '_' && tail[1] == 'A';
    assert tail == "_B" <==> tail[0] == '_' && tail[1] == 'B';
  }

  /** The GPT label a chain is verified from. */
  function Label(c: Chain): string {
    if c.noAb then c.name else c.name + "_a"
  }

  predicate HasLun(table: LunTable, c: Chain) {
    LunFor(table, Label(c)).Some?
  }

  predicate SafeName(name: string) {
    name != [] && forall i :: 0 <= i < |name| ==>
      Alphanumeric(name[i]) || name[i] == '_'
  }

  predicate Protected(name: string) {
    name == "boot" || name == "vbmeta_system"
  }

  predicate Has(chains: seq<Chain>, name: string) {
    exists i :: 0 <= i < |chains| && chains[i].name == name
  }

  lemma HasIs(chains: seq<Chain>, name: string)
    ensures Has(chains, name) <==> exists c :: c in chains && c.name == name
  {
  }

  // ---- Selection and order ------------------------------------------------------------------------

  function Selected(table: LunTable, chains: seq<Chain>): seq<Chain> {
    if chains == [] then []
    else
      var c := chains[|chains| - 1];
      Selected(table, chains[..|chains| - 1]) + (if HasLun(table, c) then [c] else [])
  }

  function Named(chains: seq<Chain>, boot: bool): seq<Chain> {
    if chains == [] then []
    else (if (chains[0].name == "boot") == boot then [chains[0]] else []) + Named(chains[1..], boot)
  }

  /** The stable sort that puts `boot` after every other chain. */
  function BootLast(chains: seq<Chain>): seq<Chain> {
    Named(chains, false) + Named(chains, true)
  }

  lemma {:induction false} NamedSplits(chains: seq<Chain>, boot: bool)
    ensures forall c :: c in Named(chains, boot) <==> c in chains && (c.name == "boot") == boot
    ensures multiset(Named(chains, false)) + multiset(Named(chains, true)) == multiset(chains)
  {
    if chains != [] {
      NamedSplits(chains[1..], boot);
      assert chains == [chains[0]] + chains[1..];
    }
  }

  /** The order flashed is a permutation of the chains in which nothing but `boot` follows `boot`. */
  lemma BootLastOrders(chains: seq<Chain>)
    ensures multiset(BootLast(chains)) == multiset(chains)
    ensures forall c :: c in BootLast(chains) <==> c in chains
    ensures forall i, j :: 0 <= i < j < |BootLast(chains)| && BootLast(chains)[i].name == "boot" ==>
      BootLast(chains)[j].name == "boot"
  {
    NamedSplits(chains, false);
    NamedSplits(chains, true);
    var a, b := Named(chains, false), Named(chains, true);
    assert forall k :: 0 <= k < |a| ==> a[k].name != "boot";
    assert forall k :: 0 <= k < |b| ==> b[k].name == "boot";
  }

  /** Selection keeps the chains with a LUN where they are: it goes through a package part by part. */
  lemma {:induction false} SelectedInOrder(table: LunTable, first: seq<Chain>, rest: seq<Chain>, c: Chain)
    ensures Selected(table, []) == [] && Selected(table, [c]) == if HasLun(table, c) then [c] else []
    ensures Selected(table, first + rest) == Selected(table, first) + Selected(table, rest)
  {
    hide HasLun;
    assert [c][..0] == [];
    if rest == [] {
      assert first + rest == first;
    } else {
      SelectedInOrder(table, first, rest[..|rest| - 1], c);
      assert (first + rest)[..|first + rest| - 1] == first + rest[..|rest| - 1];
    }
  }

  lemma NamedFront(c: Chain, rest: seq<Chain>, boot: bool)
    ensures Named([], boot) == []
    ensures Named([c] + rest, boot) == (if (c.name == "boot") == boot then [c] else []) + Named(rest, boot)
  {
    assert ([c] + rest)[1..] == rest;
  }

  lemma {:induction false} NamedConcat(first: seq<Chain>, rest: seq<Chain>, boot: bool)
    ensures Named(first + rest, boot) == Named(first, boot) + Named(rest, boot)
  {
    hide Named;
    if first == [] {
      assert first + rest == rest;
      NamedFront(Chain("", false, ""), [], boot);
    } else {
      var c, others := first[0], first[1..];
      assert first == [c] + others && first + rest == [c] + (others + rest);
      NamedFront(c, others, boot);
      NamedFront(c, others + rest, boot);
      NamedConcat(others, rest, boot);
    }
  }

  lemma {:induction false} NamedOnly(chains: seq<Chain>, boot: bool)
    requires forall i :: 0 <= i < |chains| ==> (chains[i].name == "boot") == boot
    ensures Named(chains, boot) == chains && Named(chains, !boot) == []
  {
    if chains != [] {
      NamedOnly(chains[1..], boot);
    }
  }

  /** The sort is stable: the chains of either kind stay in the order of the package. */
  lemma BootLastIsStable(chains: seq<Chain>, boot: bool)
    ensures Named(BootLast(chains), boot) == Named(chains, boot)
  {
    NamedSplits(chains, false);
    NamedSplits(chains, true);
    var others, boots := Named(chains, false), Named(chains, true);
    NamedConcat(others, boots, boot);
    assert forall i :: 0 <= i < |others| ==> others[i] in others;
    assert forall i :: 0 <= i < |boots| ==> boots[i] in boots;
    NamedOnly(others, false);
    NamedOnly(boots, true);
  }

  lemma {:induction false} SelectedMembers(table: LunTable, chains: seq<Chain>)
    ensures forall c :: c in Selected(table, chains) <==> c in chains && HasLun(table, c)
  {
    hide HasLun;
    if chains != [] {
      SelectedMembers(table, chains[..|chains| - 1]);
      assert chains == chains[..|chains| - 1] + [chains[|chains| - 1]];
    }
  }

  // ---- Signing and rebuilding ------------------------------------------------------------------------

  function TargetFor(name: string, targets: Indices): Option<nat> {
    if name == "boot" then Some(targets.boot)
    else if name == "vbmeta_system" then Some(targets.vbmetaSystem)
    else None
  }

  /** `resign_image`: a new key, and the requested index when there is one. */
  function Resign(image: Image, key: Key, index: Option<nat>): Image {
    image.(key := key, rollback := if index.Some? then index.value else image.rollback)
  }

  predicate Overridden(names: seq<string>, c: Chain) {
    exists i :: 0 <= i < |names| && Lower(names[i]) == Lower(c.name)
  }

  function OverriddenCount(names: seq<string>, chains: seq<Chain>): nat {
    if chains == [] then 0
    else
      OverriddenCount(names, chains[..|chains| - 1]) + (if Overridden(names, chains[|chains| - 1]) then 1 else 0)
  }

  /** `rebuild_vbmeta_with_chain_key_overrides`: refused unless every name overrides exactly one descriptor. */
  function Rebuild(base: Vbmeta, names: seq<string>): (r: Result<Vbmeta, Error>)
    ensures r.Err? ==> r.error == ChainMismatch
  {
    if OverriddenCount(names, base.chains) != |names| then Err(ChainMismatch)
    else
      Ok(base.(key := TESTKEY,
               chains := seq(|base.chains|, i requires 0 <= i < |base.chains| =>
                   if Overridden(names, base.chains[i]) then base.chains[i].(key := TESTKEY) else base.chains[i])))
  }

  function NamesOf(chains: seq<Chain>): seq<string> {
    seq(|chains|, i requires 0 <= i < |chains| => chains[i].name)
  }

  /** With as many overrides as re-signed chains, the overridden descriptors are the re-signed ones. */
  lemma {:induction false} OverridesAreSelected(table: LunTable, names: seq<string>, chains: seq<Chain>)
    requires forall c :: c in chains && HasLun(table, c) ==> Overridden(names, c)
    ensures OverriddenCount(names, chains) >= |Selected(table, chains)|
    ensures OverriddenCount(names, chains) == |Selected(table, chains)| <==>
      forall c :: c in chains ==> (Overridden(names, c) <==> HasLun(table, c))
  {
    hide HasLun, Overridden;
    if chains != [] {
      var front := chains[..|chains| - 1];
      assert chains == front + [chains[|chains| - 1]];
      OverridesAreSelected(table, names, front);
    }
  }

  lemma SelectedAreOverridden(table: LunTable, chains: seq<Chain>)
    ensures var names := NamesOf(Selected(table, chains));
      forall c :: c in chains && HasLun(table, c) ==> Overridden(names, c)
  {
    var s := Selected(table, chains);
    SelectedMembers(table, chains);
    forall c | c in chains && HasLun(table, c) ensures Overridden(NamesOf(s), c) {
      var i :| 0 <= i < |s| && s[i] == c;
      assert NamesOf(s)[i] == c.name;
    }
  }

  ghost predicate SharesName(table: LunTable, chains: seq<Chain>, d: Chain) {
    exists c :: c in chains && HasLun(table, c) && Lower(c.name) == Lower(d.name)
  }

  lemma OverriddenExactly(table: LunTable, chains: seq<Chain>, d: Chain)
    ensures Overridden(NamesOf(Selected(table, chains)), d) <==> SharesName(table, chains, d)
  {
    var s := Selected(table, chains);
    SelectedMembers(table, chains);
    hide HasLun, Selected, Lower;
    if Overridden(NamesOf(s), d) {
      var i :| 0 <= i < |s| && Lower(NamesOf(s)[i]) == Lower(d.name);
      assert s[i] in s;
    }
    if SharesName(table, chains, d) {
      var c :| c in chains && HasLun(table, c) && Lower(c.name) == Lower(d.name);
      var i :| 0 <= i < |s| && s[i] == c;
      assert Lower(NamesOf(s)[i]) == Lower(d.name);
    }
  }

  /** A rebuild is refused exactly when a chain without a LUN has the name of one with a LUN, in any case. */
  lemma RebuildAcceptsExactly(table: LunTable, base: Vbmeta)
    ensures Rebuild(base, NamesOf(Selected(table, base.chains))).Ok? <==>
      forall d :: d in base.chains && SharesName(table, base.chains, d) ==> HasLun(table, d)
  {
    var chains := base.chains;
    SelectedAreOverridden(table, chains);
    OverridesAreSelected(table, NamesOf(Selected(table, chains)), chains);
    forall d | d in chains
      ensures Overridden(NamesOf(Selected(table, chains)), d) <==> SharesName(table, chains, d)
    {
      OverriddenExactly(table, chains, d);
    }
    hide HasLun, Selected, Overridden, SharesName;
  }

  /** A rebuild that succeeds re-keys exactly the chains with a LUN and keeps everything else. */
  lemma RebuildReKeysSelected(table: LunTable, base: Vbmeta)
    requires Rebuild(base, NamesOf(Selected(table, base.chains))).Ok?
    ensures var v := Rebuild(base, NamesOf(Selected(table, base.chains))).value;
      && v.key == TESTKEY && v.rollback == base.rollback && v.others == base.others
      && |v.chains| == |base.chains|
      && forall i :: 0 <= i < |v.chains| ==>
        v.chains[i] == if HasLun(table, base.chains[i]) then base.chains[i].(key := TESTKEY) else base.chains[i]
  {
    var names := NamesOf(Selected(table, base.chains));
    SelectedAreOverridden(table, base.chains);
    OverridesAreSelected(table, names, base.chains);
    hide HasLun, Overridden;
    forall i | 0 <= i < |base.chains| ensures Overridden(names, base.chains[i]) <==> HasLun(table, base.chains[i]) {
      assert base.chains[i] in base.chains;
    }
  }

  // ---- Overlays --------------------------------------------------------------------------------------------

  /** A staged overlay: GPT label, LUN and the work file that holds its image. */
  datatype Overlay = Overlay(partition: string, lun: nat, path: string)

  function PathOf(name: string): string {
    name + ".arb.img"
  }

  function OverlayOf(table: LunTable, c: Chain): Overlay
    requires HasLun(table, c)
  {
    Overlay(Label(c), LunFor(table, Label(c)).value, PathOf(c.name))
  }

  const ROOT_LABEL := "vbmeta_a"

  /** Every image of the package the overlays are built from. */
  ghost predicate Buildable(table: LunTable, fw: map<string, Image>, chains: seq<Chain>) {
    forall i :: 0 <= i < |chains| ==> BuildableChain(table, fw, chains[i])
  }

  predicate BuildableChain(table: LunTable, fw: map<string, Image>, c: Chain) {
    ChainProblem(table, fw, c).None?
  }

  /** Why a chain cannot be handled: an unsafe name, a missing image, or a protected partition with no LUN. */
  function ChainProblem(table: LunTable, fw: map<string, Image>, c: Chain): Option<Error> {
    if !SafeName(c.name) then Some(UnsafeName(c.name))
    else if c.name !in fw then Some(MissingImage(c.name))
    else if !HasLun(table, c) && Protected(c.name) then Some(UnknownLun(c.name))
    else None
  }

  predicate PlainName(name: string) {
    name != "" && forall i :: 0 <= i < |name| ==>
      'a' <= name[i] <= 'z' || 'A' <= name[i] <= 'Z' || '0' <= name[i] <= '9' || name[i] == '_'
  }

  /**
   A chain can be handled exactly when its name is plain, the package has its image and,
   for a protected partition, the table has its LUN; the first of these it lacks is the error.
   */
  lemma ChainProblemExactly(table: LunTable, fw: map<string, Image>, c: Chain)
    ensures var partition := if c.noAb then c.name else c.name + "_a";
      var unplaced := (c.name == "boot" || c.name == "vbmeta_system") && EntryOf(table, partition).None?;
      && (BuildableChain(table, fw, c) <==> PlainName(c.name) && c.name in fw && !unplaced)
      && (!PlainName(c.name) ==> ChainProblem(table, fw, c) == Some(UnsafeName(c.name)))
      && (PlainName(c.name) && c.name !in fw ==> ChainProblem(table, fw, c) == Some(MissingImage(c.name)))
      && (PlainName(c.name) && c.name in fw && unplaced ==> ChainProblem(table, fw, c) == Some(UnknownLun(c.name)))
  {
    LunForExactly(table, Label(c));
    hide LunFor, EntryOf;
  }

  /** The chains to re-sign, or the problem of the first chain that cannot be handled. */
  function Validated(table: LunTable, fw: map<string, Image>, chains: seq<Chain>): Result<seq<Chain>, Error> {
    if chains == [] then Ok([])
    else
      var c := chains[|chains| - 1];
      var front := Validated(table, fw, chains[..|chains| - 1]);
      if front.Err? then front
      else if ChainProblem(table, fw, c).Some? then Err(ChainProblem(table, fw, c).value)
      else Ok(if HasLun(table, c) then front.value + [c] else front.value)
  }

  lemma ValidatedNone(table: LunTable, fw: map<string, Image>, chains: seq<Chain>)
    ensures Validated(table, fw, chains[..0]) == Ok([])
  {
  }

  lemma ValidatedSnoc(table: LunTable, fw: map<string, Image>, chains: seq<Chain>, i: nat)
    requires i < |chains| && Validated(table, fw, chains[..i]).Ok?
    ensures Validated(table, fw, chains[..i + 1]) ==
            var problem := ChainProblem(table, fw, chains[i]);
            var front := Validated(table, fw, chains[..i]).value;
            if problem.Some? then Err(problem.value)
            else Ok(if HasLun(table, chains[i]) then front + [chains[i]] else front)
  {
    hide ChainProblem, HasLun;
    assert chains[..i + 1][..i] == chains[..i];
  }

  lemma {:induction false} ValidatedStops(table: LunTable, fw: map<string, Image>, chains: seq<Chain>, i: nat)
    requires i <= |chains| && Validated(table, fw, chains[..i]).Err?
    ensures Validated(table, fw, chains) == Validated(table, fw, chains[..i])
  {
    hide ChainProblem, HasLun;
    if i == |chains| {
      assert chains[..i] == chains;
    } else {
      var front := chains[..|chains| - 1];
      assert front[..i] == chains[..i];
      ValidatedStops(table, fw, front, i);
    }
  }

  /** Validation accepts exactly the buildable packages and then selects the chains with a LUN. */
  lemma {:induction false} ValidatedExactly(table: LunTable, fw: map<string, Image>, chains: seq<Chain>)
    ensures Validated(table, fw, chains).Ok? <==> Buildable(table, fw, chains)
    ensures Validated(table, fw, chains).Ok? ==> Validated(table, fw, chains).value == Selected(table, chains)
  {
    hide ChainProblem, HasLun;
    if chains != [] {
      var front := chains[..|chains| - 1];
      ValidatedExactly(table, fw, front);
      assert chains == front + [chains[|chains| - 1]];
      assert Buildable(table, fw, chains) <==> Buildable(table, fw, front) && BuildableChain(table, fw, chains[|chains| - 1]) by {
        assert forall k :: 0 <= k < |front| ==> front[k] == chains[k];
      }
    }
  }

  /** One overlay for each chain in order, and the root's behind them. */
  ghost predicate OverlaysOf(table: LunTable, ordered: seq<Chain>, overlays: seq<Overlay>) {
    && |overlays| == |ordered| + 1
    && (forall i :: 0 <= i < |ordered| ==> HasLun(table, ordered[i]) && overlays[i] == OverlayOf(table, ordered[i]))
    && LunFor(table, ROOT_LABEL).Some?
    && overlays[|ordered|] == Overlay(ROOT_LABEL, LunFor(table, ROOT_LABEL).value, PathOf("vbmeta"))
  }

  /** The overlays and work files of a successful build. */
  ghost predicate Staged(table: LunTable, fw: map<string, Image>, base: Vbmeta, targets: Indices,
                         overlays: seq<Overlay>, files: map<string, File>) {
    var ordered := BootLast(Selected(table, base.chains));
    && Buildable(table, fw, base.chains)
    && Rebuild(base, NamesOf(Selected(table, base.chains))).Ok?
    && OverlaysOf(table, ordered, overlays)
    && (forall i :: 0 <= i < |ordered| ==> ImageStaged(fw, ordered[i], targets, files))
    && PathOf("vbmeta") in files
    && files[PathOf("vbmeta")] == Root(Rebuild(base, NamesOf(Selected(table, base.chains))).value)
  }

  /** The work file of a chain holds its re-signed image; the root's own file is written last. */
  ghost predicate ImageStaged(fw: map<string, Image>, c: Chain, targets: Indices, files: map<string, File>) {
    c.name != "vbmeta" ==>
      && c.name in fw && PathOf(c.name) in files
      && files[PathOf(c.name)] == Plain(Resign(fw[c.name], TESTKEY, TargetFor(c.name, targets)))
  }

  /** A chain's overlay: its partition, the LUN the table gives that partition, its work file. */
  ghost predicate OverlayFor(table: LunTable, c: Chain, o: Overlay) {
    && o.partition == (if c.noAb then c.name else c.name + "_a")
    && EntryOf(table, o.partition) == Some(o.lun) && (!c.noAb ==> table(Lower(c.name)) == Some(o.lun))
    && o.path == c.name + ".arb.img"
  }

  /** The image of the package under the test key, its payload untouched, at its target or its own index. */
  ghost predicate ImageWrittenFor(fw: map<string, Image>, c: Chain, targets: Indices, path: string, files: map<string, File>) {
    && c.name in fw && path in files && files[path].Plain?
    && var image, own := files[path].image, fw[c.name];
      && image.payload == own.payload && image.key == "testkey_rsa4096"
      && image.rollback == if c.name == "boot" then targets.boot
                           else if c.name == "vbmeta_system" then targets.vbmetaSystem else own.rollback
  }

  ghost predicate OverlaysWritten(table: LunTable, fw: map<string, Image>, ordered: seq<Chain>, targets: Indices,
                                  overlays: seq<Overlay>, files: map<string, File>) {
    && |ordered| <= |overlays|
    && forall i :: 0 <= i < |ordered| ==>
         && OverlayFor(table, ordered[i], overlays[i])
         && (ordered[i].name != "vbmeta" ==> ImageWrittenFor(fw, ordered[i], targets, overlays[i].path, files))
  }

  /** The last overlay is the root's, rebuilt with the key of every descriptor whose partition has a LUN replaced. */
  ghost predicate RootWritten(table: LunTable, base: Vbmeta, overlays: seq<Overlay>, files: map<string, File>) {
    && |overlays| > 0
    && var o := overlays[|overlays| - 1];
      && o.partition == "vbmeta_a" && table("vbmeta") == Some(o.lun) && o.path == "vbmeta.arb.img"
      && o.path in files && files[o.path].Root?
      && var v := files[o.path].vbmeta;
        && v.key == "testkey_rsa4096" && v.rollback == base.rollback && v.others == base.others
        && |v.chains| == |base.chains|
        && forall i :: 0 <= i < |v.chains| ==> DescriptorFor(table, base.chains[i], v.chains[i])
  }

  ghost predicate DescriptorFor(table: LunTable, c: Chain, d: Chain) {
    && d.name == c.name && d.noAb == c.noAb
    && var partition := if c.noAb then c.name else c.name + "_a";
      d.key == if EntryOf(table, partition).Some? then "testkey_rsa4096" else c.key
  }

  lemma OverlayOfExactly(table: LunTable, c: Chain)
    ensures HasLun(table, c) <==> EntryOf(table, if c.noAb then c.name else c.name + "_a").Some?
    ensures HasLun(table, c) ==> OverlayFor(table, c, OverlayOf(table, c))
  {
    LunForExactly(table, c.name);
    LunForExactly(table, Label(c));
    hide LunFor, EntryOf;
  }

  /** Staged images are the overlays and work files written out above. */
  lemma ImagesAreWritten(table: LunTable, fw: map<string, Image>, ordered: seq<Chain>, targets: Indices,
                         overlays: seq<Overlay>, files: map<string, File>)
    requires |ordered| <= |overlays|
    requires forall i :: 0 <= i < |ordered| ==> HasLun(table, ordered[i]) && overlays[i] == OverlayOf(table, ordered[i])
    requires forall i :: 0 <= i < |ordered| ==> ImageStaged(fw, ordered[i], targets, files)
    ensures OverlaysWritten(table, fw, ordered, targets, overlays, files)
  {
    forall i | 0 <= i < |ordered|
      ensures OverlayFor(table, ordered[i], overlays[i])
      ensures ordered[i].name != "vbmeta" ==> ImageWrittenFor(fw, ordered[i], targets, overlays[i].path, files)
    {
      OverlayOfExactly(table, ordered[i]);
      ImageStagedWrites(fw, ordered[i], targets, files);
    }
    hide HasLun, OverlayFor, ImageStaged, ImageWrittenFor, LunFor;
  }

  lemma ImageStagedWrites(fw: map<string, Image>, c: Chain, targets: Indices, files: map<string, File>)
    requires ImageStaged(fw, c, targets, files)
    ensures c.name != "vbmeta" ==> ImageWrittenFor(fw, c, targets, c.name + ".arb.img", files)
  {
  }

  /**
   A successful build, spelled out: an overlay for each chain with a LUN, in the flashing
   order, at the partition and LUN of that chain, and the root's behind them.
   */
  lemma StagedIsWritten(table: LunTable, fw: map<string, Image>, base: Vbmeta, targets: Indices,
                        overlays: seq<Overlay>, files: map<string, File>)
    requires Staged(table, fw, base, targets, overlays, files)
    ensures var ordered := BootLast(Selected(table, base.chains));
      |overlays| == |ordered| + 1 && OverlaysWritten(table, fw, ordered, targets, overlays, files)
    ensures RootWritten(table, base, overlays, files)
  {
    var ordered := BootLast(Selected(table, base.chains));
    hide BootLast, Selected, HasLun, Buildable, LunFor, ImageStaged, OverlaysWritten, RootWritten, Rebuild, NamesOf, OverlayOf;
    ImagesAreWritten(table, fw, ordered, targets, overlays, files);
    RootIsWritten(table, base, overlays, files);
  }

  lemma RootIsWritten(table: LunTable, base: Vbmeta, overlays: seq<Overlay>, files: map<string, File>)
    requires Rebuild(base, NamesOf(Selected(table, base.chains))).Ok? && LunFor(table, ROOT_LABEL).Some? && |overlays| > 0
    requires overlays[|overlays| - 1] == Overlay(ROOT_LABEL, LunFor(table, ROOT_LABEL).value, PathOf("vbmeta"))
    requires PathOf("vbmeta") in files
    requires files[PathOf("vbmeta")] == Root(Rebuild(base, NamesOf(Selected(table, base.chains))).value)
    ensures RootWritten(table, base, overlays, files)
  {
    RebuildReKeysSelected(table, base);
    RootEntry(table);
    var names := NamesOf(Selected(table, base.chains));
    var v := Rebuild(base, names).value;
    hide Selected, HasLun, Rebuild, LunFor, NamesOf, Lower, DescriptorFor, EntryOf, SharesName, Overridden;
    forall i | 0 <= i < |v.chains| ensures DescriptorFor(table, base.chains[i], v.chains[i]) {
      DescriptorIs(table, base.chains[i], v.chains[i]);
    }
    RootIs(table, base, overlays, files, v);
  }

  lemma DescriptorIs(table: LunTable, c: Chain, d: Chain)
    requires d == if HasLun(table, c) then c.(key := TESTKEY) else c
    ensures DescriptorFor(table, c, d)
  {
    OverlayOfExactly(table, c);
    hide HasLun, EntryOf;
  }

  lemma RootIs(table: LunTable, base: Vbmeta, overlays: seq<Overlay>, files: map<string, File>, v: Vbmeta)
    requires |overlays| > 0 && table("vbmeta").Some? && PathOf("vbmeta") in files
    requires overlays[|overlays| - 1] == Overlay(ROOT_LABEL, table("vbmeta").value, PathOf("vbmeta"))
    requires files[PathOf("vbmeta")] == Root(v)
    requires v.key == TESTKEY && v.rollback == base.rollback && v.others == base.others && |v.chains| == |base.chains|
    requires forall i :: 0 <= i < |v.chains| ==> DescriptorFor(table, base.chains[i], v.chains[i])
    ensures RootWritten(table, base, overlays, files)
  {
    hide DescriptorFor;
    assert PathOf("vbmeta") == "vbmeta.arb.img";
  }

  lemma RootEntry(table: LunTable)
    ensures LunFor(table, ROOT_LABEL) == table("vbmeta")
  {
    LunForExactly(table, "vbmeta");
    assert Lower("vbmeta") == "vbmeta" && "vbmeta" + "_a" == ROOT_LABEL;
  }

  lemma PathsDiffer(m: string, n: string)
    requires PathOf(m) == PathOf(n)
    ensures m == n
  {
    assert PathOf(m)[..|m|] == m && PathOf(n)[..|n|] == n;
  }

  /** The images of the ordered chains, staged in files, before the root joins them. */
  ghost predicate ImagesStaged(table: LunTable, fw: map<string, Image>, ordered: seq<Chain>, targets: Indices,
                               overlays: seq<Overlay>, files: map<string, File>) {
    && |overlays| == |ordered|
    && (forall i :: 0 <= i < |ordered| ==> HasLun(table, ordered[i]) && overlays[i] == OverlayOf(table, ordered[i]))
    && (forall i :: 0 <= i < |ordered| ==> ImageStaged(fw, ordered[i], targets, files))
  }

  /** Writing the root behind the images touches none of them. */
  lemma RootJoins(table: LunTable, fw: map<string, Image>, base: Vbmeta, targets: Indices,
                  overlays: seq<Overlay>, files: map<string, File>)
    requires Buildable(table, fw, base.chains)
    requires Rebuild(base, NamesOf(Selected(table, base.chains))).Ok?
    requires ImagesStaged(table, fw, BootLast(Selected(table, base.chains)), targets, overlays, files)
    requires LunFor(table, ROOT_LABEL).Some?
    ensures Staged(table, fw, base, targets,
                   overlays + [Overlay(ROOT_LABEL, LunFor(table, ROOT_LABEL).value, PathOf("vbmeta"))],
                   files[PathOf("vbmeta") := Root(Rebuild(base, NamesOf(Selected(table, base.chains))).value)])
  {
    hide BootLast, Selected, HasLun, Buildable, PathOf, Rebuild, LunFor, OverlayOf, NamesOf, ImageStaged;
    ImagesStay(fw, BootLast(Selected(table, base.chains)), targets, files,
               Root(Rebuild(base, NamesOf(Selected(table, base.chains))).value));
  }

  lemma ImagesStay(fw: map<string, Image>, ordered: seq<Chain>, targets: Indices, files: map<string, File>, root: File)
    requires forall i :: 0 <= i < |ordered| ==> ImageStaged(fw, ordered[i], targets, files)
    ensures forall i :: 0 <= i < |ordered| ==> ImageStaged(fw, ordered[i], targets, files[PathOf("vbmeta") := root])
  {
    hide Resign, TargetFor, PathOf;
    forall i | 0 <= i < |ordered| ensures ImageStaged(fw, ordered[i], targets, files[PathOf("vbmeta") := root]) {
      assert ImageStaged(fw, ordered[i], targets, files);
      if PathOf(ordered[i].name) == PathOf("vbmeta") {
        PathsDiffer(ordered[i].name, "vbmeta");
      }
    }
  }

  lemma OrderedHaveImages(table: LunTable, fw: map<string, Image>, chains: seq<Chain>)
    requires Buildable(table, fw, chains)
    ensures forall c :: c in BootLast(Selected(table, chains)) ==> c.name in fw && HasLun(table, c)
  {
    SelectedMembers(table, chains);
    BootLastOrders(Selected(table, chains));
    hide BootLast, Selected, HasLun, SafeName;
    forall c | c in BootLast(Selected(table, chains)) ensures c.name in fw && HasLun(table, c) {
      var i :| 0 <= i < |chains| && chains[i] == c;
      assert BuildableChain(table, fw, chains[i]);
    }
  }

  /** The scratch directory the overlays are staged in. */
  class WorkDir {
    var files: map<string, File>

    constructor ()
      ensures files == map[]
    {
      files := map[];
    }

    /** Copy an install image and re-sign the copy in place; either step may fail. */
    method CopyAndResign(name: string, image: Image, index: Option<nat>) returns (ok: bool)
      modifies this
      ensures ok ==> files == old(files)[PathOf(name) := Plain(Resign(image, TESTKEY, index))]
    {
      var copied: bool := *;
      if !copied {
        return false;
      }
      files := files[PathOf(name) := Plain(image)];
      ok := *;
      if ok {
        files := files[PathOf(name) := Plain(Resign(image, TESTKEY, index))];
      }
    }

    /** The chains to re-sign; every chain must be safe to name and have its image. */
    static method SelectToResign(table: LunTable, fw: map<string, Image>, chains: seq<Chain>)
      returns (r: Result<seq<Chain>, Error>)
      ensures r == Validated(table, fw, chains)
    {
      var toResign: seq<Chain> := [];
      hide *;
      ValidatedNone(table, fw, chains);
      for i := 0 to |chains|
        invariant Validated(table, fw, chains[..i]) == Ok(toResign)
      {
        ValidatedSnoc(table, fw, chains, i);
        var c := chains[i];
        var problem := ChainProblem(table, fw, c);
        if problem.Some? {
          ValidatedStops(table, fw, chains, i + 1);
          return Err(problem.value);
        }
        if HasLun(table, c) {
          toResign := toResign + [c];
        }
      }
      assert chains[..|chains|] == chains;
      return Ok(toResign);
    }

    /** Re-sign the ordered chains one by one. */
    method StageImages(table: LunTable, fw: map<string, Image>, ordered: seq<Chain>, targets: Indices)
      returns (r: Result<seq<Overlay>, Error>)
      requires forall c :: c in ordered ==> c.name in fw && HasLun(table, c)
      modifies this
      ensures r.Ok? ==> ImagesStaged(table, fw, ordered, targets, r.value, files)
      ensures r.Ok? ==> |r.value| == |ordered| && OverlaysWritten(table, fw, ordered, targets, r.value, files)
      ensures r.Err? ==> r.error == Tool
    {
      hide HasLun, Resign, TargetFor, PathOf, OverlayOf;
      var overlays: seq<Overlay> := [];
      for i := 0 to |ordered|
        invariant |overlays| == i
        invariant forall j :: 0 <= j < i ==> HasLun(table, ordered[j]) && overlays[j] == OverlayOf(table, ordered[j])
        invariant forall j :: 0 <= j < i ==> ImageStaged(fw, ordered[j], targets, files)
      {
        var c := ordered[i];
        assert c in ordered;
        ghost var before := files;
        var signed := CopyAndResign(c.name, fw[c.name], TargetFor(c.name, targets));
        if !signed {
          return Err(Tool);
        }
        forall j | 0 <= j < i ensures ImageStaged(fw, ordered[j], targets, files) {
          assert ImageStaged(fw, ordered[j], targets, before);
          if PathOf(ordered[j].name) == PathOf(c.name) {
            PathsDiffer(ordered[j].name, c.name);
          }
        }
        overlays := overlays + [OverlayOf(table, c)];
      }
      ImagesAreWritten(table, fw, ordered, targets, overlays, files);
      return Ok(overlays);
    }

    /** `build_testkey_arb_overlays_from_images`. */
    method BuildFromImages(table: LunTable, fw: map<string, Image>, base: Vbmeta, targets: Indices)
      returns (r: Result<seq<Overlay>, Error>)
      modifies this
      ensures r.Ok? ==> Staged(table, fw, base, targets, r.value, files)
      ensures r.Ok? ==>
        var ordered := BootLast(Selected(table, base.chains));
        && |r.value| == |ordered| + 1 && OverlaysWritten(table, fw, ordered, targets, r.value, files)
        && RootWritten(table, base, r.value, files)
      ensures !Buildable(table, fw, base.chains) ==>
        Validated(table, fw, base.chains).Err? && r == Err(Validated(table, fw, base.chains).error) && files == old(files)
      ensures r.Err? && Buildable(table, fw, base.chains) ==>
        || r.error == Tool
        || (r.error == ChainMismatch && Rebuild(base, NamesOf(Selected(table, base.chains))).Err?)
        || (r.error == UnknownLun(ROOT_LABEL) && LunFor(table, ROOT_LABEL).None?)
    {
      hide Buildable, Validated, BootLast, Selected, Rebuild, LunFor, Staged, ImagesStaged, HasLun;
      var selected := SelectToResign(table, fw, base.chains);
      ValidatedExactly(table, fw, base.chains);
      if selected.Err? {
        return Err(selected.error);
      }
      var ordered := BootLast(selected.value);
      OrderedHaveImages(table, fw, base.chains);
      var staged := StageImages(table, fw, ordered, targets);
      if staged.Err? {
        return Err(staged.error);
      }
      var rebuilt := Rebuild(base, NamesOf(selected.value));
      var built: bool := *;
      if rebuilt.Err? || !built {
        return Err(if rebuilt.Err? then rebuilt.error else Tool);
      }
      var lun := LunFor(table, ROOT_LABEL);
      if lun.Some? {
        RootJoins(table, fw, base, targets, staged.value, files);
      }
      files := files[PathOf("vbmeta") := Root(rebuilt.value)];
      if lun.None? {
        return Err(UnknownLun(ROOT_LABEL));
      }
      r := Ok(staged.value + [Overlay(ROOT_LABEL, lun.value, PathOf("vbmeta"))]);
      StagedIsWritten(table, fw, base, targets, r.value, files);
    }

    /** `build_testkey_arb_overlays_for_floors`. */
    method BuildForFloors(table: LunTable, fw: map<string, Image>, vbmeta: Option<Vbmeta>, deviceFloors: Indices,
                          manual: Option<Indices>, forceResign: bool)
      returns (r: Result<(seq<Overlay>, bool), Error>)
      modifies this
      ensures Refusal(fw, vbmeta, deviceFloors, manual).Some? ==>
        r == Err(Refusal(fw, vbmeta, deviceFloors, manual).value) && files == old(files)
      ensures r.Ok? ==>
        && Refusal(fw, vbmeta, deviceFloors, manual).None? && vbmeta.Some?
        && var plan := PlanFor(fw, vbmeta.value.chains, deviceFloors, manual);
          && plan.Ok? && r.value.1 == plan.value.1
          && (r.value.1 || forceResign ==>
                && Staged(table, fw, vbmeta.value, plan.value.0, r.value.0, files)
                && OverlaysWritten(table, fw, BootLast(Selected(table, vbmeta.value.chains)), plan.value.0, r.value.0, files)
                && RootWritten(table, vbmeta.value, r.value.0, files))
          && (!r.value.1 && !forceResign ==> r.value.0 == [] && files == old(files))
          && (manual.None? ==> (r.value.1 <==>
                ShipsBelow(fw, vbmeta.value.chains, "boot", deviceFloors.boot)
                || ShipsBelow(fw, vbmeta.value.chains, "vbmeta_system", deviceFloors.vbmetaSystem)))
          && (manual.Some? ==> (r.value.1 <==>
                ShipsOther(fw, "boot", manual.value.boot) || ShipsOther(fw, "vbmeta_system", manual.value.vbmetaSystem)))
      ensures r.Err? && Refusal(fw, vbmeta, deviceFloors, manual).None? ==>
        vbmeta.Some? && PlanFor(fw, vbmeta.value.chains, deviceFloors, manual).Ok?
        && (PlanFor(fw, vbmeta.value.chains, deviceFloors, manual).value.1 || forceResign)
    {
      hide OverlaysWritten, RootWritten, ShipsBelow, ShipsOther, Staged, BootLast, Selected, Rebuild;
      if vbmeta.None? {
        return Err(MissingVbmeta);
      }
      var chains := vbmeta.value.chains;
      if manual.Some? && (!Has(chains, "boot") || !Has(chains, "vbmeta_system")) {
        return Err(MissingManualChain);
      }
      if exists i :: 0 <= i < |chains| && Protected(chains[i].name) && chains[i].noAb {
        return Err(NonAbLayout);
      }
      if Has(chains, "boot") && "boot" !in fw {
        return Err(MissingImage("boot"));
      }
      if Has(chains, "vbmeta_system") && "vbmeta_system" !in fw {
        return Err(MissingImage("vbmeta_system"));
      }
      var plan := PlanFor(fw, chains, deviceFloors, manual);
      if plan.Err? {
        return Err(plan.error);
      }
      PlanExactly(fw, chains, deviceFloors, manual);
      var (targets, need) := plan.value;
      if !need && !forceResign {
        return Ok(([], false));
      }
      var overlays := BuildFromImages(table, fw, vbmeta.value, targets);
      return if overlays.Err? then Err(overlays.error) else Ok((overlays.value, need));
    }
  }

  /** The first objection the builder has to a package and a request, before it stages anything. */
  function Refusal(fw: map<string, Image>, vbmeta: Option<Vbmeta>, floors: Indices, manual: Option<Indices>): Option<Error> {
    if vbmeta.None? then Some(MissingVbmeta)
    else
      var chains := vbmeta.value.chains;
      if manual.Some? && (!Has(chains, "boot") || !Has(chains, "vbmeta_system")) then Some(MissingManualChain)
      else if exists i :: 0 <= i < |chains| && Protected(chains[i].name) && chains[i].noAb then Some(NonAbLayout)
      else if Has(chains, "boot") && "boot" !in fw then Some(MissingImage("boot"))
      else if Has(chains, "vbmeta_system") && "vbmeta_system" !in fw then Some(MissingImage("vbmeta_system"))
      else
        var plan := PlanFor(fw, chains, floors, manual);
        if plan.Err? then Some(plan.error) else None
  }

  /**
   The builder objects exactly to a package without vbmeta, a layout or package it cannot
   handle, and a manual request below a floor of a chained partition.
   */
  lemma RefusesExactly(fw: map<string, Image>, vbmeta: Option<Vbmeta>, floors: Indices, manual: Option<Indices>)
    ensures Refusal(fw, vbmeta, floors, manual).None? <==>
      && vbmeta.Some? && Prepared(fw, vbmeta.value.chains, manual)
      && (manual.Some? ==> AtLeast(manual.value, ChainedFloors(vbmeta.value.chains, floors)))
    ensures Refusal(fw, vbmeta, floors, manual).Some? ==>
      var error := Refusal(fw, vbmeta, floors, manual).value;
      && (error == MissingVbmeta <==> vbmeta.None?)
      && (error == MissingManualChain <==>
            vbmeta.Some? && manual.Some? && !(Has(vbmeta.value.chains, "boot") && Has(vbmeta.value.chains, "vbmeta_system")))
      && (error.BelowFloor? <==> vbmeta.Some? && Prepared(fw, vbmeta.value.chains, manual))
  {
    hide Has;
    if vbmeta.Some? {
      TargetsMeetFloors(FirmwareIndices(fw, vbmeta.value.chains), ChainedFloors(vbmeta.value.chains, floors), manual);
    }
  }

  /** The layouts and packages the builder accepts. */
  ghost predicate Prepared(fw: map<string, Image>, chains: seq<Chain>, manual: Option<Indices>) {
    && (manual.Some? ==> Has(chains, "boot") && Has(chains, "vbmeta_system"))
    && (forall i :: 0 <= i < |chains| && Protected(chains[i].name) ==> !chains[i].noAb)
    && (Has(chains, "boot") ==> "boot" in fw)
    && (Has(chains, "vbmeta_system") ==> "vbmeta_system" in fw)
  }

  /** Firmware indices of the chained protected partitions; zero for an absent chain. */
  function FirmwareIndices(fw: map<string, Image>, chains: seq<Chain>): Indices {
    Indices(if Has(chains, "boot") && "boot" in fw then fw["boot"].rollback else 0,
            if Has(chains, "vbmeta_system") && "vbmeta_system" in fw then fw["vbmeta_system"].rollback else 0)
  }

  /** Device floors of the chained protected partitions; zero for an absent chain. */
  function ChainedFloors(chains: seq<Chain>, floors: Indices): Indices {
    Indices(if Has(chains, "boot") then floors.boot else 0,
            if Has(chains, "vbmeta_system") then floors.vbmetaSystem else 0)
  }

  function PlanFor(fw: map<string, Image>, chains: seq<Chain>, floors: Indices, manual: Option<Indices>)
    : Result<(Indices, bool), Error>
  {
    SelectTargets(FirmwareIndices(fw, chains), ChainedFloors(chains, floors), manual)
  }

  /** The package chains the partition with an image below the floor. */
  predicate ShipsBelow(fw: map<string, Image>, chains: seq<Chain>, name: string, floor: nat) {
    Has(chains, name) && name in fw && fw[name].rollback < floor
  }

  predicate ShipsOther(fw: map<string, Image>, name: string, index: nat) {
    name in fw && fw[name].rollback != index
  }

  /**
   What an accepted package is planned at. Without a request overlays are needed exactly when
   it chains a protected partition with an image below its floor, and each chained one is
   planned at the greater of image and floor; a request is planned as it is when it meets both
   floors, and needs overlays exactly when it differs from an image.
   */
  lemma PlanExactly(fw: map<string, Image>, chains: seq<Chain>, floors: Indices, manual: Option<Indices>)
    requires Prepared(fw, chains, manual)
    ensures var plan := PlanFor(fw, chains, floors, manual);
      && (manual.None? ==>
            && plan.Ok? && (plan.value.1 <==>
              ShipsBelow(fw, chains, "boot", floors.boot) || ShipsBelow(fw, chains, "vbmeta_system", floors.vbmetaSystem))
            && (Has(chains, "boot") ==>
                  plan.value.0.boot == if fw["boot"].rollback < floors.boot then floors.boot else fw["boot"].rollback)
            && (Has(chains, "vbmeta_system") ==>
                  plan.value.0.vbmetaSystem ==
                  if fw["vbmeta_system"].rollback < floors.vbmetaSystem then floors.vbmetaSystem
                  else fw["vbmeta_system"].rollback))
      && (manual.Some? ==>
            && (plan.Ok? <==> manual.value.boot >= floors.boot && manual.value.vbmetaSystem >= floors.vbmetaSystem)
            && (plan.Ok? ==>
                  && plan.value.0 == manual.value
                  && (plan.value.1 <==>
                        ShipsOther(fw, "boot", manual.value.boot)
                        || ShipsOther(fw, "vbmeta_system", manual.value.vbmetaSystem))))
  {
    hide Has;
  }

  // ---- The flashed device ---------------------------------------------------------------------------------

  /** The image in each labelled partition. */
  type Device = map<string, File>

  function At(dev: Device, partition: string): Option<File> {
    if partition in dev then Some(dev[partition]) else None
  }

  /** The LUN whose partition table lists a label. */
  type Layout = string -> Option<nat>

  /** Where the static table knows a partition, the device has it on that LUN. */
  ghost predicate Agrees(table: LunTable, home: Layout) {
    forall partition :: LunFor(table, partition).Some? ==> home(partition) == LunFor(table, partition)
  }

  /**
   The overlays written by name in order. A write finds its label on the LUN it names or
   changes nothing; a later one at the same label replaces an earlier one.
   */
  function FlashAll(home: Layout, dev: Device, overlays: seq<Overlay>, files: map<string, File>): Device
    requires forall i :: 0 <= i < |overlays| ==> overlays[i].path in files
  {
    if overlays == [] then dev
    else
      var last := overlays[|overlays| - 1];
      var before := FlashAll(home, dev, overlays[..|overlays| - 1], files);
      if home(last.partition) == Some(last.lun) then before[last.partition := files[last.path]] else before
  }

  /** The last chain flashed to a label. */
  function LastAt(ordered: seq<Chain>, partition: string): Option<Chain> {
    if ordered == [] then None
    else if Label(ordered[|ordered| - 1]) == partition then Some(ordered[|ordered| - 1])
    else LastAt(ordered[..|ordered| - 1], partition)
  }

  lemma {:induction false} LastAtIsLast(ordered: seq<Chain>, partition: string) returns (j: int)
    ensures -1 <= j < |ordered| && (LastAt(ordered, partition).Some? <==> 0 <= j)
    ensures LastAt(ordered, partition).Some? ==> LastAt(ordered, partition) == Some(ordered[j]) && Label(ordered[j]) == partition
    ensures forall k :: 0 <= k < |ordered| && Label(ordered[k]) == partition ==> k <= j
  {
    if ordered == [] {
      j := -1;
    } else if Label(ordered[|ordered| - 1]) == partition {
      j := |ordered| - 1;
    } else {
      var front := ordered[..|ordered| - 1];
      j := LastAtIsLast(front, partition);
      assert forall k :: 0 <= k < |front| ==> front[k] == ordered[k];
    }
  }

  lemma IsAtHome(table: LunTable, home: Layout, c: Chain)
    requires Agrees(table, home) && HasLun(table, c)
    ensures var o := OverlayOf(table, c);
      home(o.partition) == Some(o.lun) && o.partition == Label(c) && o.path == PathOf(c.name)
  {
  }

  lemma {:induction false} ImagesFlashedAt(table: LunTable, home: Layout, dev: Device, ordered: seq<Chain>, overlays: seq<Overlay>,
                                           files: map<string, File>, partition: string)
    requires Agrees(table, home)
    requires |overlays| == |ordered|
    requires forall i :: 0 <= i < |ordered| ==> HasLun(table, ordered[i]) && overlays[i] == OverlayOf(table, ordered[i])
    requires forall i :: 0 <= i < |ordered| ==> PathOf(ordered[i].name) in files
    ensures forall i :: 0 <= i < |overlays| ==> overlays[i].path in files
    ensures At(FlashAll(home, dev, overlays, files), partition) ==
            var last := LastAt(ordered, partition);
            if last.Some? && PathOf(last.value.name) in files then Some(files[PathOf(last.value.name)]) else At(dev, partition)
  {
    hide HasLun, PathOf, LunFor, Label;
    if ordered != [] {
      var n := |ordered| - 1;
      ImagesFlashedAt(table, home, dev, ordered[..n], overlays[..n], files, partition);
      IsAtHome(table, home, ordered[n]);
      assert overlays[n] == OverlayOf(table, ordered[n]);
    }
  }

  /** Verified boot from the root down: every delegated partition is there and signed by the key delegated to. */
  ghost predicate Verifies(dev: Device) {
    && ROOT_LABEL in dev && dev[ROOT_LABEL].Root?
    && forall i :: 0 <= i < |dev[ROOT_LABEL].vbmeta.chains| ==>
         var c := dev[ROOT_LABEL].vbmeta.chains[i];
         Label(c) in dev && SignedBy(dev[Label(c)]) == c.key
  }

  lemma OverlaysAreSigned(table: LunTable, fw: map<string, Image>, ordered: seq<Chain>, targets: Indices,
                          overlays: seq<Overlay>, files: map<string, File>)
    requires OverlaysOf(table, ordered, overlays)
    requires forall i :: 0 <= i < |ordered| ==> ImageStaged(fw, ordered[i], targets, files)
    requires PathOf("vbmeta") in files && SignedBy(files[PathOf("vbmeta")]) == TESTKEY
    ensures forall i :: 0 <= i < |ordered| ==>
      PathOf(ordered[i].name) in files && SignedBy(files[PathOf(ordered[i].name)]) == TESTKEY
    ensures forall i :: 0 <= i < |overlays| ==> overlays[i].path in files && SignedBy(files[overlays[i].path]) == TESTKEY
  {
    hide HasLun, PathOf, LunFor;
    forall i | 0 <= i < |ordered|
      ensures PathOf(ordered[i].name) in files && SignedBy(files[PathOf(ordered[i].name)]) == TESTKEY
    {
      assert ImageStaged(fw, ordered[i], targets, files);
    }
  }

  /** Every overlay has its work file, signed under the test key. */
  lemma StagedAreSigned(table: LunTable, fw: map<string, Image>, base: Vbmeta, targets: Indices,
                        overlays: seq<Overlay>, files: map<string, File>)
    requires Staged(table, fw, base, targets, overlays, files)
    ensures forall i :: 0 <= i < |overlays| ==> overlays[i].path in files && SignedBy(files[overlays[i].path]) == TESTKEY
    ensures var ordered := BootLast(Selected(table, base.chains));
      forall i :: 0 <= i < |ordered| ==>
        PathOf(ordered[i].name) in files && SignedBy(files[PathOf(ordered[i].name)]) == TESTKEY
  {
    RebuildReKeysSelected(table, base);
    hide BootLast, Selected, HasLun, Buildable, PathOf, Rebuild, NamesOf, LunFor, ImageStaged, OverlaysOf;
    OverlaysAreSigned(table, fw, BootLast(Selected(table, base.chains)), targets, overlays, files);
  }

  /** What each partition holds after the overlays: the root, the last image flashed there, or what it held before. */
  lemma FlashedAt(table: LunTable, home: Layout, fw: map<string, Image>, base: Vbmeta, targets: Indices,
                  overlays: seq<Overlay>, files: map<string, File>, dev: Device, partition: string)
    requires Agrees(table, home)
    requires Staged(table, fw, base, targets, overlays, files)
    ensures forall i :: 0 <= i < |overlays| ==> overlays[i].path in files
    ensures
      var last := LastAt(BootLast(Selected(table, base.chains)), partition);
      At(FlashAll(home, dev, overlays, files), partition) ==
        if partition == ROOT_LABEL then Some(Root(Rebuild(base, NamesOf(Selected(table, base.chains))).value))
        else if last.Some? && PathOf(last.value.name) in files then Some(files[PathOf(last.value.name)])
        else At(dev, partition)
  {
    StagedAreSigned(table, fw, base, targets, overlays, files);
    var ordered := BootLast(Selected(table, base.chains));
    RootIsAtHome(table, home);
    hide BootLast, Selected, HasLun, Buildable, PathOf, Rebuild, NamesOf, LunFor, Label, LastAt, ImageStaged, FlashAll, Agrees, OverlayOf;
    var n := |ordered|;
    var front := overlays[..n];
    assert forall i :: 0 <= i < n ==> front[i] == overlays[i];
    ImagesFlashedAt(table, home, dev, ordered, front, files, partition);
    FlashedLast(home, dev, overlays, files, partition);
  }

  lemma RootIsAtHome(table: LunTable, home: Layout)
    requires Agrees(table, home)
    ensures LunFor(table, ROOT_LABEL).Some? ==> home(ROOT_LABEL) == LunFor(table, ROOT_LABEL)
  {
    hide LunFor;
  }

  /** The last overlay is at its label if it was written to the LUN of the label. */
  lemma FlashedLast(home: Layout, dev: Device, overlays: seq<Overlay>, files: map<string, File>, partition: string)
    requires overlays != [] && forall i :: 0 <= i < |overlays| ==> overlays[i].path in files
    ensures
      var last, front := overlays[|overlays| - 1], overlays[..|overlays| - 1];
      && (forall i :: 0 <= i < |front| ==> front[i].path in files)
      && At(FlashAll(home, dev, overlays, files), partition) ==
         if partition == last.partition && home(last.partition) == Some(last.lun) then Some(files[last.path])
         else At(FlashAll(home, dev, front, files), partition)
  {
  }

  /**
   Flashing the overlays makes the device verify under the test key: when the chains
   that keep their stock descriptor (those with no LUN) hold a stock image signed by
   the key it names, every chain of the flashed root names the key of the flashed image.
   */
  lemma FlashedKeysVerify(table: LunTable, home: Layout, fw: map<string, Image>, base: Vbmeta, targets: Indices,
                          overlays: seq<Overlay>, files: map<string, File>, dev: Device)
    requires Agrees(table, home)
    requires Staged(table, fw, base, targets, overlays, files)
    requires forall i :: 0 <= i < |base.chains| && !HasLun(table, base.chains[i]) ==>
      Label(base.chains[i]) in dev && SignedBy(dev[Label(base.chains[i])]) == base.chains[i].key
    ensures forall i :: 0 <= i < |overlays| ==> overlays[i].path in files
    ensures var after := FlashAll(home, dev, overlays, files);
      Verifies(after) && SignedBy(after[ROOT_LABEL]) == TESTKEY
  {
    hide HasLun, Staged, FlashAll, Agrees, Label;
    var v := RootFlashed(table, home, fw, base, targets, overlays, files, dev);
    var after := FlashAll(home, dev, overlays, files);
    forall i | 0 <= i < |v.chains|
      ensures Label(v.chains[i]) in after && SignedBy(after[Label(v.chains[i])]) == v.chains[i].key
    {
      SameLabel(base.chains[i], v.chains[i]);
      KeyFlashed(table, home, fw, base, targets, overlays, files, dev, base.chains[i]);
    }
  }

  /** After the flash the root is the rebuilt one. */
  lemma RootFlashed(table: LunTable, home: Layout, fw: map<string, Image>, base: Vbmeta, targets: Indices,
                    overlays: seq<Overlay>, files: map<string, File>, dev: Device) returns (v: Vbmeta)
    requires Agrees(table, home)
    requires Staged(table, fw, base, targets, overlays, files)
    ensures forall i :: 0 <= i < |overlays| ==> overlays[i].path in files
    ensures At(FlashAll(home, dev, overlays, files), ROOT_LABEL) == Some(Root(v))
    ensures v.key == TESTKEY && |v.chains| == |base.chains|
    ensures forall i :: 0 <= i < |v.chains| ==>
      v.chains[i] == if HasLun(table, base.chains[i]) then base.chains[i].(key := TESTKEY) else base.chains[i]
  {
    RebuildReKeysSelected(table, base);
    v := Rebuild(base, NamesOf(Selected(table, base.chains))).value;
    hide HasLun, BootLast, Selected, Rebuild, NamesOf, LunFor, FlashAll, Staged, PathOf, LastAt, Label, Agrees, SharesName;
    FlashedAt(table, home, fw, base, targets, overlays, files, dev, ROOT_LABEL);
  }

  /** After the flash a chain's label holds an image under the test key, or the old one when the chain has no LUN. */
  lemma KeyFlashed(table: LunTable, home: Layout, fw: map<string, Image>, base: Vbmeta, targets: Indices,
                   overlays: seq<Overlay>, files: map<string, File>, dev: Device, c: Chain)
    requires Agrees(table, home)
    requires Staged(table, fw, base, targets, overlays, files) && c in base.chains
    requires !HasLun(table, c) ==> Label(c) in dev && SignedBy(dev[Label(c)]) == c.key
    ensures forall i :: 0 <= i < |overlays| ==> overlays[i].path in files
    ensures var after := FlashAll(home, dev, overlays, files);
      Label(c) in after && SignedBy(after[Label(c)]) == if HasLun(table, c) then TESTKEY else c.key
  {
    StagedAreSigned(table, fw, base, targets, overlays, files);
    RebuildReKeysSelected(table, base);
    var ordered := BootLast(Selected(table, base.chains));
    hide HasLun, BootLast, Selected, Rebuild, NamesOf, LunFor, FlashAll, Staged, PathOf, LastAt, Label, Agrees, SharesName;
    FlashedAt(table, home, fw, base, targets, overlays, files, dev, Label(c));
    SelectedAt(table, base.chains, c);
    RootHasLun(table, fw, base, targets, overlays, files, c);
    var j := LastAtIsLast(ordered, Label(c));
  }

  lemma SameLabel(c: Chain, d: Chain)
    requires c.name == d.name && c.noAb == d.noAb
    ensures Label(c) == Label(d)
  {
  }

  lemma RootHasLun(table: LunTable, fw: map<string, Image>, base: Vbmeta, targets: Indices,
                   overlays: seq<Overlay>, files: map<string, File>, c: Chain)
    requires Staged(table, fw, base, targets, overlays, files)
    ensures Label(c) == ROOT_LABEL ==> HasLun(table, c)
  {
    hide BootLast, Selected, Buildable, PathOf, Rebuild, NamesOf, LunFor, ImageStaged;
  }

  /** Some image is flashed to a chain's label exactly when the chain has a LUN. */
  lemma SelectedAt(table: LunTable, chains: seq<Chain>, c: Chain)
    requires c in chains
    ensures LastAt(BootLast(Selected(table, chains)), Label(c)).Some? <==> HasLun(table, c)
  {
    var ordered := BootLast(Selected(table, chains));
    SelectedMembers(table, chains);
    BootLastOrders(Selected(table, chains));
    hide BootLast, Selected, LunFor, LastAt, Label;
    var j := LastAtIsLast(ordered, Label(c));
    assert 0 <= j ==> ordered[j] in ordered;
    if HasLun(table, c) {
      assert c in ordered;
    }
  }

  /** `boot` comes after every other chain and the root after them all. */
  lemma BootThenRoot(table: LunTable, fw: map<string, Image>, base: Vbmeta, targets: Indices,
                     overlays: seq<Overlay>, files: map<string, File>)
    requires Staged(table, fw, base, targets, overlays, files)
    ensures |overlays| > 0 && overlays[|overlays| - 1].partition == ROOT_LABEL
    ensures forall i, j :: 0 <= i < j < |overlays| - 1 && overlays[i].path == PathOf("boot") ==>
      overlays[j].path == PathOf("boot")
    ensures forall c :: c in base.chains && HasLun(table, c) ==> OverlayOf(table, c) in overlays[..|overlays| - 1]
  {
    var ordered := BootLast(Selected(table, base.chains));
    SelectedMembers(table, base.chains);
    BootLastOrders(Selected(table, base.chains));
    hide BootLast, Selected, HasLun, Buildable, PathOf, Rebuild, NamesOf, LunFor, ImageStaged, Label;
    forall i, j | 0 <= i < j < |overlays| - 1 && overlays[i].path == PathOf("boot")
      ensures overlays[j].path == PathOf("boot")
    {
      PathsDiffer(ordered[i].name, "boot");
    }
    forall c | c in base.chains && HasLun(table, c) ensures OverlayOf(table, c) in overlays[..|overlays| - 1] {
      var i :| 0 <= i < |ordered| && ordered[i] == c;
      assert overlays[..|overlays| - 1][i] == OverlayOf(table, c);
    }
  }

  /** The flashed image at a chain's label: the last chain flashed there, re-signed at its target. */
  lemma ImageFlashedAt(table: LunTable, home: Layout, fw: map<string, Image>, base: Vbmeta, targets: Indices,
                       overlays: seq<Overlay>, files: map<string, File>, dev: Device, c: Chain)
    requires Agrees(table, home)
    requires Staged(table, fw, base, targets, overlays, files)
    requires c in base.chains && HasLun(table, c) && Label(c) != ROOT_LABEL
    ensures forall i :: 0 <= i < |overlays| ==> overlays[i].path in files
    ensures
      var last := LastAt(BootLast(Selected(table, base.chains)), Label(c));
      && last.Some? && Label(last.value) == Label(c) && last.value in base.chains
      && (last.value.name != "vbmeta" ==>
            && last.value.name in fw
            && At(FlashAll(home, dev, overlays, files), Label(c)) ==
               Some(Plain(Resign(fw[last.value.name], TESTKEY, TargetFor(last.value.name, targets)))))
  {
    var ordered := BootLast(Selected(table, base.chains));
    SelectedAt(table, base.chains, c);
    FlashedAt(table, home, fw, base, targets, overlays, files, dev, Label(c));
    SelectedMembers(table, base.chains);
    BootLastOrders(Selected(table, base.chains));
    hide BootLast, Selected, HasLun, Buildable, PathOf, Rebuild, NamesOf, LunFor, Label, LastAt, Resign, TargetFor, FlashAll;
    var j := LastAtIsLast(ordered, Label(c));
    assert ordered[j] in ordered;
    assert ImageStaged(fw, ordered[j], targets, files);
  }

  const BOOT_LABEL := "boot_a"
  const SYSTEM_LABEL := "vbmeta_system_a"

  predicate PlainAt(dev: Device, partition: string, index: nat) {
    partition in dev && dev[partition].Plain? && dev[partition].image.rollback == index
  }

  lemma ProtectedChain(table: LunTable, fw: map<string, Image>, chains: seq<Chain>, name: string) returns (c: Chain)
    requires Buildable(table, fw, chains) && Protected(name) && Has(chains, name)
    requires forall c :: c in chains && Protected(c.name) ==> !c.noAb
    ensures c in chains && c.name == name && Label(c) == name + "_a" && HasLun(table, c)
  {
    var i :| 0 <= i < |chains| && chains[i].name == name;
    c := chains[i];
    assert c in chains;
    assert BuildableChain(table, fw, chains[i]);
  }

  lemma BootIsLastAtItsLabel(table: LunTable, chains: seq<Chain>, c: Chain)
    requires c in chains && HasLun(table, c) && c.name == "boot"
    ensures var last := LastAt(BootLast(Selected(table, chains)), Label(c)); last.Some? && last.value.name == "boot"
  {
    var ordered := BootLast(Selected(table, chains));
    SelectedMembers(table, chains);
    BootLastOrders(Selected(table, chains));
    hide BootLast, Selected, HasLun, LunFor, Label, LastAt;
    var j := LastAtIsLast(ordered, Label(c));
    assert c in ordered;
    var k :| 0 <= k < |ordered| && ordered[k] == c;
  }

  /** The flashed `boot` carries its target index, whatever else the package chains. */
  lemma BootMeetsTarget(table: LunTable, home: Layout, fw: map<string, Image>, base: Vbmeta, targets: Indices,
                        overlays: seq<Overlay>, files: map<string, File>, dev: Device)
    requires Agrees(table, home)
    requires Staged(table, fw, base, targets, overlays, files)
    requires forall c :: c in base.chains && Protected(c.name) ==> !c.noAb
    requires Has(base.chains, "boot")
    ensures forall i :: 0 <= i < |overlays| ==> overlays[i].path in files
    ensures PlainAt(FlashAll(home, dev, overlays, files), BOOT_LABEL, targets.boot)
  {
    hide BootLast, Selected, HasLun, Buildable, PathOf, Rebuild, LunFor, Label, LastAt, FlashAll, OverlaysOf, ImageStaged;
    var c := ProtectedChain(table, fw, base.chains, "boot");
    assert Label(c) == BOOT_LABEL != ROOT_LABEL;
    hide Staged;
    ImageFlashedAt(table, home, fw, base, targets, overlays, files, dev, c);
    BootIsLastAtItsLabel(table, base.chains, c);
  }

  /** The last chain flashed to the label of `vbmeta_system`; a no-A/B chain spelled `vbmeta_system_a` shares it. */
  function LastSystem(table: LunTable, chains: seq<Chain>): Option<Chain> {
    LastAt(BootLast(Selected(table, chains)), SYSTEM_LABEL)
  }

  /** The last chain there is not `vbmeta_system` and brings an image of its own. */
  predicate SystemOverwritten(table: LunTable, fw: map<string, Image>, chains: seq<Chain>) {
    var last := LastSystem(table, chains);
    last.Some? && last.value.name != "vbmeta_system" && last.value.name in fw
  }

  /** The index the label ends at when the target of `vbmeta_system` is the given one. */
  function SystemIndex(table: LunTable, fw: map<string, Image>, chains: seq<Chain>, target: nat): nat {
    if SystemOverwritten(table, fw, chains) then fw[LastSystem(table, chains).value.name].rollback else target
  }

  /** The flashed `vbmeta_system` carries its target, or the own index of a chain flashed over it. */
  lemma SystemIndexFlashed(table: LunTable, home: Layout, fw: map<string, Image>, base: Vbmeta, targets: Indices,
                           overlays: seq<Overlay>, files: map<string, File>, dev: Device)
    requires Agrees(table, home)
    requires Staged(table, fw, base, targets, overlays, files)
    requires forall c :: c in base.chains && Protected(c.name) ==> !c.noAb
    requires Has(base.chains, "vbmeta_system")
    ensures forall i :: 0 <= i < |overlays| ==> overlays[i].path in files
    ensures PlainAt(FlashAll(home, dev, overlays, files), SYSTEM_LABEL, SystemIndex(table, fw, base.chains, targets.vbmetaSystem))
    ensures SystemOverwritten(table, fw, base.chains) ==>
      LastSystem(table, base.chains).value.name == SYSTEM_LABEL && LastSystem(table, base.chains).value in base.chains
  {
    hide BootLast, Selected, HasLun, Buildable, PathOf, Rebuild, LunFor, Label, LastAt, FlashAll, OverlaysOf, ImageStaged;
    var c := ProtectedChain(table, fw, base.chains, "vbmeta_system");
    assert Label(c) == SYSTEM_LABEL != ROOT_LABEL;
    hide Staged;
    ImageFlashedAt(table, home, fw, base, targets, overlays, files, dev, c);
    NamedSystem(LastSystem(table, base.chains).value);
  }

  /**
   The flashed `vbmeta_system` carries its target index exactly when no other chain is
   flashed over it or that chain's image is already at that index.
   */
  lemma SystemMeetsTargetExactly(table: LunTable, home: Layout, fw: map<string, Image>, base: Vbmeta, targets: Indices,
                                 overlays: seq<Overlay>, files: map<string, File>, dev: Device)
    requires Agrees(table, home)
    requires Staged(table, fw, base, targets, overlays, files)
    requires forall c :: c in base.chains && Protected(c.name) ==> !c.noAb
    requires Has(base.chains, "vbmeta_system")
    ensures forall i :: 0 <= i < |overlays| ==> overlays[i].path in files
    ensures PlainAt(FlashAll(home, dev, overlays, files), SYSTEM_LABEL, targets.vbmetaSystem) <==>
      (SystemOverwritten(table, fw, base.chains) ==>
         fw[LastSystem(table, base.chains).value.name].rollback == targets.vbmetaSystem)
  {
    SystemIndexFlashed(table, home, fw, base, targets, overlays, files, dev);
    hide Staged, FlashAll, LastSystem, Has;
  }

  lemma NamedSystem(c: Chain)
    requires Label(c) == SYSTEM_LABEL
    ensures if c.noAb then c.name == SYSTEM_LABEL else c.name == "vbmeta_system"
  {
    if !c.noAb {
      assert SYSTEM_LABEL[..|c.name|] == c.name;
      assert |c.name| == 13;
      assert SYSTEM_LABEL[..13] == "vbmeta_system";
    }
  }

  // ---- Runs of flashes ----------------------------------------------------------------------------------

  /** One install: the package, the request, and the overlays staged for it. */
  datatype Install = Install(fw: map<string, Image>, base: Vbmeta, manual: Option<Indices>, forceResign: bool,
                             overlays: seq<Overlay>, files: map<string, File>)

  /** The index a partition holds; zero when nothing readable is there. */
  function IndexAt(dev: Device, partition: string): nat {
    if partition in dev && dev[partition].Plain? then dev[partition].image.rollback else 0
  }

  function FloorsOf(dev: Device): Indices {
    Indices(IndexAt(dev, BOOT_LABEL), IndexAt(dev, SYSTEM_LABEL))
  }

  /** The package flashed as it ships: chained images in place, each signed by the key its descriptor names. */
  ghost predicate StockFlashed(dev: Device, fw: map<string, Image>, base: Vbmeta) {
    && ROOT_LABEL in dev && dev[ROOT_LABEL] == Root(base)
    && Verifies(dev)
    && forall i :: 0 <= i < |base.chains| && Label(base.chains[i]) != ROOT_LABEL ==>
         base.chains[i].name in fw && dev[Label(base.chains[i])] == Plain(fw[base.chains[i].name])
  }

  /** The builder's plan for the floors of the device as it was. */
  function InstallPlan(before: Device, install: Install): Result<(Indices, bool), Error> {
    PlanFor(install.fw, install.base.chains, FloorsOf(before), install.manual)
  }

  /** Stock images, then whatever overlays the builder staged. */
  ghost predicate Installed(table: LunTable, home: Layout, before: Device, install: Install, after: Device) {
    && Prepared(install.fw, install.base.chains, install.manual)
    && InstallPlan(before, install).Ok?
    && exists stock: Device :: InstalledOver(table, home, before, install, stock, after)
  }

  ghost predicate InstalledOver(table: LunTable, home: Layout, before: Device, install: Install, stock: Device, after: Device)
    requires InstallPlan(before, install).Ok?
  {
    var plan := InstallPlan(before, install).value;
    && StockFlashed(stock, install.fw, install.base)
    && if plan.1 || install.forceResign then
         && Staged(table, install.fw, install.base, plan.0, install.overlays, install.files)
         && Flashes(home, stock, install.overlays, install.files, after)
       else after == stock
  }

  ghost predicate Flashes(home: Layout, dev: Device, overlays: seq<Overlay>, files: map<string, File>, after: Device) {
    && (forall i :: 0 <= i < |overlays| ==> overlays[i].path in files)
    && after == FlashAll(home, dev, overlays, files)
  }

  lemma StockIndex(fw: map<string, Image>, base: Vbmeta, dev: Device, name: string)
    requires StockFlashed(dev, fw, base) && Has(base.chains, name) && name in {"boot", "vbmeta_system"}
    requires forall i :: 0 <= i < |base.chains| && Protected(base.chains[i].name) ==> !base.chains[i].noAb
    ensures name in fw && PlainAt(dev, name + "_a", fw[name].rollback)
  {
    var i :| 0 <= i < |base.chains| && base.chains[i].name == name;
    assert Label(base.chains[i]) == name + "_a";
    hide Verifies, Has, Label;
    assert name + "_a" == (if name == "boot" then BOOT_LABEL else SYSTEM_LABEL);
  }

  /** A chain that shares the label of `vbmeta_system` on a stock device has an image at the same index. */
  lemma SharedStockIndex(table: LunTable, fw: map<string, Image>, base: Vbmeta, dev: Device, target: nat)
    requires StockFlashed(dev, fw, base)
    requires PlainAt(dev, SYSTEM_LABEL, target)
    ensures SystemIndex(table, fw, base.chains, target) == target
  {
    if SystemOverwritten(table, fw, base.chains) {
      var ordered := BootLast(Selected(table, base.chains));
      SelectedMembers(table, base.chains);
      BootLastOrders(Selected(table, base.chains));
      hide Verifies, BootLast, Selected, HasLun, Label, LastAt;
      var j := LastAtIsLast(ordered, SYSTEM_LABEL);
      assert ordered[j] in ordered;
      var i :| 0 <= i < |base.chains| && base.chains[i] == ordered[j];
    }
  }

  /** The stock install: it verifies, at the package's own indices. */
  lemma StockVerifiesAtFirmware(table: LunTable, fw: map<string, Image>, base: Vbmeta, stock: Device)
    requires StockFlashed(stock, fw, base)
    requires forall i :: 0 <= i < |base.chains| && Protected(base.chains[i].name) ==> !base.chains[i].noAb
    ensures Verifies(stock)
    ensures Has(base.chains, "boot") ==> FloorsOf(stock).boot == FirmwareIndices(fw, base.chains).boot
    ensures var target := FirmwareIndices(fw, base.chains).vbmetaSystem;
      Has(base.chains, "vbmeta_system") ==>
        FloorsOf(stock).vbmetaSystem == target == SystemIndex(table, fw, base.chains, target)
  {
    assert BOOT_LABEL == "boot" + "_a" && SYSTEM_LABEL == "vbmeta_system" + "_a";
    if Has(base.chains, "boot") {
      StockIndex(fw, base, stock, "boot");
    }
    if Has(base.chains, "vbmeta_system") {
      StockIndex(fw, base, stock, "vbmeta_system");
      SharedStockIndex(table, fw, base, stock, fw["vbmeta_system"].rollback);
    }
    hide Verifies, Has, Label, SystemIndex;
  }

  /** The overlaid install: it verifies, at the targets. */
  lemma OverlaysVerifyAtTargets(table: LunTable, home: Layout, fw: map<string, Image>, base: Vbmeta, targets: Indices,
                                overlays: seq<Overlay>, files: map<string, File>, stock: Device)
    requires Agrees(table, home)
    requires StockFlashed(stock, fw, base)
    requires Staged(table, fw, base, targets, overlays, files)
    requires forall i :: 0 <= i < |base.chains| && Protected(base.chains[i].name) ==> !base.chains[i].noAb
    ensures forall i :: 0 <= i < |overlays| ==> overlays[i].path in files
    ensures var after := FlashAll(home, stock, overlays, files);
      && Verifies(after)
      && (Has(base.chains, "boot") ==> FloorsOf(after).boot == targets.boot)
      && (Has(base.chains, "vbmeta_system") ==>
            FloorsOf(after).vbmetaSystem == SystemIndex(table, fw, base.chains, targets.vbmetaSystem))
  {
    hide Staged, FlashAll, Has, Label, Protected, LastAt, SystemIndex, SystemOverwritten;
    FlashedKeysVerify(table, home, fw, base, targets, overlays, files, stock);
    if Has(base.chains, "boot") {
      BootMeetsTarget(table, home, fw, base, targets, overlays, files, stock);
    }
    if Has(base.chains, "vbmeta_system") {
      SystemIndexFlashed(table, home, fw, base, targets, overlays, files, stock);
    }
  }

  /** Any install, with overlays or without, verifies and leaves the chained partitions at the planned indices. */
  lemma InstallReachesPlan(table: LunTable, home: Layout, before: Device, install: Install, after: Device)
    requires Agrees(table, home)
    requires Installed(table, home, before, install, after)
    ensures Verifies(after)
    ensures var chains, targets := install.base.chains, InstallPlan(before, install).value.0;
      && (Has(chains, "boot") ==> FloorsOf(after).boot == targets.boot)
      && (Has(chains, "vbmeta_system") ==>
            FloorsOf(after).vbmetaSystem == SystemIndex(table, install.fw, chains, targets.vbmetaSystem))
  {
    var fw, base := install.fw, install.base;
    var plan := InstallPlan(before, install).value;
    var stock: Device :| InstalledOver(table, home, before, install, stock, after);
    hide FlashAll, Staged, StockFlashed, Verifies, Has, Label, FirmwareIndices, SelectTargets, FloorsOf, SystemIndex;
    TargetsMeetFloors(FirmwareIndices(fw, base.chains), ChainedFloors(base.chains, FloorsOf(before)), install.manual);
    if plan.1 || install.forceResign {
      OverlaysVerifyAtTargets(table, home, fw, base, plan.0, install.overlays, install.files, stock);
    } else {
      StockVerifiesAtFirmware(table, fw, base, stock);
    }
  }

  /**
   An install keeps the device bootable: the flashed root delegates every chained
   partition to the key its image is signed with. A chained boot ends at the requested
   index or at least the package's, and never below its floor. A chained vbmeta_system
   does so too unless another chain is flashed over it; it stays at its floor or above
   exactly when that chain's own image does.
   */
  lemma InstallVerifiesAndMeetsFloors(table: LunTable, home: Layout, before: Device, install: Install, after: Device)
    requires Agrees(table, home)
    requires Installed(table, home, before, install, after)
    ensures Verifies(after)
    ensures var chains, now, floors := install.base.chains, FloorsOf(after), FloorsOf(before);
      && (Has(chains, "boot") ==>
            && now.boot >= floors.boot
            && (install.manual.Some? ==> now.boot == install.manual.value.boot)
            && (install.manual.None? ==> now.boot >= FirmwareIndices(install.fw, chains).boot))
      && (Has(chains, "vbmeta_system") ==>
            && (now.vbmetaSystem >= floors.vbmetaSystem <==> SystemKept(table, install.fw, chains, floors.vbmetaSystem))
            && (!SystemOverwritten(table, install.fw, chains) ==>
                  && (install.manual.Some? ==> now.vbmetaSystem == install.manual.value.vbmetaSystem)
                  && (install.manual.None? ==> now.vbmetaSystem >= FirmwareIndices(install.fw, chains).vbmetaSystem)))
  {
    InstallReachesPlan(table, home, before, install, after);
    var chains := install.base.chains;
    TargetsMeetFloors(FirmwareIndices(install.fw, chains), ChainedFloors(chains, FloorsOf(before)), install.manual);
    hide Verifies, Has, FirmwareIndices, SelectTargets, FloorsOf, SystemOverwritten, LastSystem;
  }

  /** No chain is flashed over `vbmeta_system`, or its image is at the floor or above. */
  predicate SystemKept(table: LunTable, fw: map<string, Image>, chains: seq<Chain>, floor: nat) {
    SystemOverwritten(table, fw, chains) ==> fw[LastSystem(table, chains).value.name].rollback >= floor
  }

  ghost predicate Run(table: LunTable, home: Layout, devices: seq<Device>, installs: seq<Install>) {
    && |devices| == |installs| + 1
    && forall i :: 0 <= i < |installs| ==> Installed(table, home, devices[i], installs[i], devices[i + 1])
  }

  /** Install `k` of a run chains the partition, and for `vbmeta_system` keeps it. */
  predicate KeepsBoot(installs: seq<Install>, k: nat)
    requires k < |installs|
  {
    Has(installs[k].base.chains, "boot")
  }

  predicate KeepsSystem(table: LunTable, devices: seq<Device>, installs: seq<Install>, k: nat)
    requires k < |installs| && k < |devices|
  {
    var install := installs[k];
    Has(install.base.chains, "vbmeta_system")
    && SystemKept(table, install.fw, install.base.chains, FloorsOf(devices[k]).vbmetaSystem)
  }

  /**
   Over any run of installs the device verifies after each, and the index of a protected
   partition never falls as long as every install chains it and, for `vbmeta_system`,
   flashes nothing older over it. An install that does not chain it may lower it.
   */
  lemma {:induction false} FloorsNeverFall(table: LunTable, home: Layout, devices: seq<Device>, installs: seq<Install>, i: nat, j: nat)
    requires Agrees(table, home)
    requires Run(table, home, devices, installs) && i <= j < |devices|
    ensures i < j ==> Verifies(devices[j])
    ensures (forall k :: i <= k < j ==> KeepsBoot(installs, k)) ==> FloorsOf(devices[j]).boot >= FloorsOf(devices[i]).boot
    ensures (forall k :: i <= k < j ==> KeepsSystem(table, devices, installs, k)) ==>
      FloorsOf(devices[j]).vbmetaSystem >= FloorsOf(devices[i]).vbmetaSystem
    decreases j - i
  {
    hide Installed, FloorsOf, Verifies, Has, SystemKept;
    if i < j {
      FloorsNeverFall(table, home, devices, installs, i, j - 1);
      InstallVerifiesAndMeetsFloors(table, home, devices[j - 1], installs[j - 1], devices[j]);
      assert KeepsBoot(installs, j - 1) <==> Has(installs[j - 1].base.chains, "boot");
      assert KeepsSystem(table, devices, installs, j - 1) ==> Has(installs[j - 1].base.chains, "vbmeta_system");
    }
  }

  // ---- The inputs that fail ------------------------------------------------------------------------------

  /** An install that chains neither protected partition puts whatever the package brings there. */
  lemma UnchainedMayFall(table: LunTable, home: Layout, key: Key)
    ensures
      var base := Vbmeta(key, 0, [], []);
      var before := map[BOOT_LABEL := Plain(Image(key, 5, []))];
      var after := map[ROOT_LABEL := Root(base), BOOT_LABEL := Plain(Image(key, 4, []))];
      var install := Install(map[], base, None, false, [], map[]);
      Installed(table, home, before, install, after) && FloorsOf(after).boot < FloorsOf(before).boot
  {
    var base := Vbmeta(key, 0, [], []);
    var before := map[BOOT_LABEL := Plain(Image(key, 5, []))];
    var after := map[ROOT_LABEL := Root(base), BOOT_LABEL := Plain(Image(key, 4, []))];
    var install := Install(map[], base, None, false, [], map[]);
    assert ROOT_LABEL != BOOT_LABEL;
    assert InstallPlan(before, install) == Ok((Indices(0, 0), false));
    assert InstalledOver(table, home, before, install, after, after);
  }

  /** A package that chains `vbmeta_system` and, without A/B slots, `vbmeta_system_a`. */
  function SharedChains(key: Key): seq<Chain> {
    [Chain("vbmeta_system", false, key), Chain(SYSTEM_LABEL, true, key)]
  }

  /** Every partition has a LUN. */
  function AllLuns(): LunTable {
    _ => Some(0)
  }

  lemma SharedSelected(key: Key)
    ensures Selected(AllLuns(), SharedChains(key)) == SharedChains(key) == BootLast(SharedChains(key))
    ensures Label(SharedChains(key)[0]) == SYSTEM_LABEL == Label(SharedChains(key)[1])
    ensures LastSystem(AllLuns(), SharedChains(key)) == Some(SharedChains(key)[1])
  {
    var chains := SharedChains(key);
    assert chains[..1] == [chains[0]] && chains[..1][..0] == [];
    assert chains[1..] == [chains[1]] && chains[1..][1..] == [];
    assert "vbmeta_system" + "_a" == SYSTEM_LABEL;
    assert "vbmeta_system"[0] != "boot"[0] && SYSTEM_LABEL[0] != "boot"[0];
    assert Selected(AllLuns(), chains[..1]) == [chains[0]] by {
      assert Selected(AllLuns(), []) == [] && [] + [chains[0]] == [chains[0]];
    }
    assert Selected(AllLuns(), chains) == [chains[0]] + [chains[1]] == chains;
    assert Named(chains[1..], false) == [chains[1]] && Named(chains[1..], true) == [];
    assert Named(chains, false) == chains && Named(chains, true) == [];
    assert BootLast(chains) == chains + [] == chains;
    assert LastAt(chains, SYSTEM_LABEL) == Some(chains[1]);
  }

  function SharedImages(image: Image): map<string, Image> {
    map["vbmeta_system" := image, SYSTEM_LABEL := image]
  }

  lemma SharedBuildable(image: Image)
    ensures Buildable(AllLuns(), SharedImages(image), SharedChains(image.key))
  {
    assert SafeName("vbmeta_system") && SafeName(SYSTEM_LABEL);
  }

  lemma SharedRebuilds(base: Vbmeta)
    requires base.chains == SharedChains(base.key)
    ensures Rebuild(base, NamesOf(base.chains)).Ok?
  {
    var chains, names := base.chains, NamesOf(base.chains);
    assert names[0] == chains[0].name && names[1] == chains[1].name;
    assert Overridden(names, chains[0]) && Overridden(names, chains[1]);
    assert chains[..1] == [chains[0]] && chains[..1][..0] == [];
    hide Overridden, NamesOf;
    assert OverriddenCount(names, chains[..1]) == 1;
  }

  function SharedOverlays(key: Key): seq<Overlay> {
    var chains := SharedChains(key);
    [OverlayOf(AllLuns(), chains[0]), OverlayOf(AllLuns(), chains[1]), Overlay(ROOT_LABEL, 0, PathOf("vbmeta"))]
  }

  lemma SharedStaged(base: Vbmeta, image: Image, targets: Indices) returns (files: map<string, File>)
    requires base.key == image.key && base.chains == SharedChains(base.key)
    ensures Staged(AllLuns(), SharedImages(image), base, targets, SharedOverlays(base.key), files)
  {
    var chains := base.chains;
    SharedSelected(base.key);
    SharedBuildable(image);
    SharedRebuilds(base);
    var root := Rebuild(base, NamesOf(chains)).value;
    files := map[PathOf("vbmeta_system") := Plain(Resign(image, TESTKEY, Some(targets.vbmetaSystem))),
                 PathOf(SYSTEM_LABEL) := Plain(Resign(image, TESTKEY, None)),
                 PathOf("vbmeta") := Root(root)];
    SharedPaths();
    hide Buildable, Rebuild, PathOf, Selected, BootLast, SharedImages, Label;
    assert SharedImages(image) == map["vbmeta_system" := image, SYSTEM_LABEL := image] by { SharedImagesAre(image); }
    assert ImageStaged(SharedImages(image), chains[0], targets, files);
    assert ImageStaged(SharedImages(image), chains[1], targets, files);
    assert OverlaysOf(AllLuns(), chains, SharedOverlays(base.key));
  }

  lemma SharedImagesAre(image: Image)
    ensures SharedImages(image) == map["vbmeta_system" := image, SYSTEM_LABEL := image]
  {
  }

  lemma AllLunsAgree()
    ensures Agrees(AllLuns(), AllLuns())
  {
  }

  lemma SharedPaths()
    ensures PathOf("vbmeta_system") != PathOf(SYSTEM_LABEL)
    ensures PathOf("vbmeta") != PathOf("vbmeta_system") && PathOf("vbmeta") != PathOf(SYSTEM_LABEL)
  {
    assert |PathOf("vbmeta_system")| == 13 + |".arb.img"| && |PathOf("vbmeta")| == 6 + |".arb.img"|;
    assert |PathOf(SYSTEM_LABEL)| == 15 + |".arb.img"|;
  }

  /**
   An automatic install of such a package, its index 1 below the floor 5: the overlay for
   `vbmeta_system` is staged at 5, the chain that shares its label is flashed over it, and
   the device is left at 1.
   */
  lemma SharedLabelFalls(key: Key) returns (before: Device, install: Install, after: Device)
    ensures install.base.chains == SharedChains(key) && install.fw == SharedImages(Image(key, 1, [])) && install.manual.None?
    ensures InstallPlan(before, install) == Ok((Indices(0, 5), true))
    ensures Staged(AllLuns(), install.fw, install.base, Indices(0, 5), install.overlays, install.files)
    ensures Installed(AllLuns(), AllLuns(), before, install, after)
    ensures FloorsOf(before).vbmetaSystem == 5 && FloorsOf(after).vbmetaSystem == 1
  {
    hide *;
    var stock;
    before, install, stock := SharedInstall(key);
    AllLunsAgree();
    SharedIndex(key);
    StagedAreSigned(AllLuns(), install.fw, install.base, Indices(0, 5), install.overlays, install.files);
    after := FlashAll(AllLuns(), stock, install.overlays, install.files);
    IsInstalled(AllLuns(), AllLuns(), before, install, stock, after, Indices(0, 5));
    InstallReachesPlan(AllLuns(), AllLuns(), before, install, after);
  }

  lemma SharedInstall(key: Key) returns (before: Device, install: Install, stock: Device)
    ensures install.base.chains == SharedChains(key) && install.fw == SharedImages(Image(key, 1, [])) && install.manual.None?
    ensures InstallPlan(before, install) == Ok((Indices(0, 5), true)) && FloorsOf(before).vbmetaSystem == 5
    ensures Staged(AllLuns(), install.fw, install.base, Indices(0, 5), install.overlays, install.files)
    ensures StockFlashed(stock, install.fw, install.base)
    ensures Prepared(install.fw, install.base.chains, install.manual) && Has(install.base.chains, "vbmeta_system")
  {
    var image, base := Image(key, 1, []), Vbmeta(key, 0, SharedChains(key), []);
    var files := SharedStaged(base, image, Indices(0, 5));
    before := map[SYSTEM_LABEL := Plain(Image(key, 5, []))];
    install := Install(SharedImages(image), base, None, false, SharedOverlays(key), files);
    stock := map[ROOT_LABEL := Root(base), SYSTEM_LABEL := Plain(image)];
    SharedStock(key, image, stock);
    SharedPlan(key, before, install);
  }

  /** An install whose plan needs overlays and whose overlays are flashed over stock. */
  lemma IsInstalled(table: LunTable, home: Layout, before: Device, install: Install, stock: Device, after: Device, targets: Indices)
    requires Prepared(install.fw, install.base.chains, install.manual)
    requires InstallPlan(before, install) == Ok((targets, true)) && StockFlashed(stock, install.fw, install.base)
    requires Staged(table, install.fw, install.base, targets, install.overlays, install.files)
    requires forall i :: 0 <= i < |install.overlays| ==> install.overlays[i].path in install.files
    requires after == FlashAll(home, stock, install.overlays, install.files)
    ensures Installed(table, home, before, install, after)
  {
    hide Prepared, InstallPlan, StockFlashed, Staged, FlashAll;
    assert InstalledOver(table, home, before, install, stock, after);
  }

  lemma SharedIndex(key: Key)
    ensures SystemIndex(AllLuns(), SharedImages(Image(key, 1, [])), SharedChains(key), 5) == 1
  {
    SharedSelected(key);
    assert |SYSTEM_LABEL| == 15 && |"vbmeta_system"| == 13;
    hide LastSystem;
  }

  lemma SharedStock(key: Key, image: Image, stock: Device)
    requires image.key == key && stock == map[ROOT_LABEL := Root(Vbmeta(key, 0, SharedChains(key), [])), SYSTEM_LABEL := Plain(image)]
    ensures StockFlashed(stock, SharedImages(image), Vbmeta(key, 0, SharedChains(key), []))
  {
    SharedSelected(key);
    assert ROOT_LABEL != SYSTEM_LABEL by { assert |ROOT_LABEL| == 8 && |SYSTEM_LABEL| == 15; }
    hide Label;
  }

  lemma SharedPlan(key: Key, before: Device, install: Install)
    requires install.base.chains == SharedChains(key) && install.fw == SharedImages(Image(key, 1, []))
    requires install.manual.None? && before.Keys == {SYSTEM_LABEL}
    requires before[SYSTEM_LABEL].Plain? && before[SYSTEM_LABEL].image.rollback == 5
    ensures InstallPlan(before, install) == Ok((Indices(0, 5), true))
    ensures Prepared(install.fw, install.base.chains, install.manual) && Has(install.base.chains, "vbmeta_system")
    ensures FloorsOf(before).vbmetaSystem == 5
  {
    var chains := install.base.chains;
    assert chains[0].name == "vbmeta_system" && chains[1].name == SYSTEM_LABEL && |chains| == 2;
    assert "vbmeta_system"[0] == 'v' && SYSTEM_LABEL[0] == 'v' && "boot"[0] == 'b';
    assert !Has(chains, "boot");
    assert |SYSTEM_LABEL| == 15 && |"vbmeta_system"| == 13;
  }
}
