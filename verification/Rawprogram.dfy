/**
 The rawprogram flash pipeline of an EDL session
 (crates/ltbox-device/src/edl.rs): the split-super preflight, the pre-erase of
 wiped partitions, the program and erase nodes, and the patches, over parsed XML
 nodes. Every Firehose command is recorded when it is issued.
 */
module Rawprogram {
  import opened Arithmetic
  import opened Text
  import opened Wrappers

  // ---- Parsed input -----------------------------------------------------------------

  datatype Component = Normal(name: string) | CurDir | ParentDir | Rooted

  /** An attribute: missing, present but unparseable, or parsed. */
  datatype Attr<T> = Absent | Malformed | Given(value: T)

  datatype Tag = ProgramTag | EraseTag | PatchTag | OtherTag

  /** One node, with label and file name trimmed and the file name split into components. */
  datatype Node = Node(
    tag: Tag, partition: string, filename: seq<Component>, disk: bool,
    numSectors: Attr<nat>, lun: Attr<nat>, slot: Attr<nat>, startSector: Option<string>,
    fileSectorOffset: Attr<nat>, byteOffset: Attr<nat>, size: Attr<nat>, value: string)

  datatype Xml = Unreadable | Document(dir: string, nodes: seq<Node>)

  datatype ImagePath = ImagePath(dir: string, names: seq<string>)

  datatype ImageFile = Missing | Unopenable | Bytes(len: nat)

  /** The image files beside the XMLs. */
  type Files = ImagePath -> ImageFile

  datatype Command =
    | EraseSectors(sectors: nat, lun: nat, start: string)
    | ProgramImage(partition: string, sectors: nat, slot: nat, lun: nat, start: string, image: ImagePath, offset: nat)
    | PatchDisk(byteOffset: nat, slot: nat, lun: nat, size: nat, start: string, value: string)

  // ---- Label and file-name rules --------------------------------------------------------

  predicate LabelMatches(partition: string, bases: seq<string>) {
    var l := Lower(partition);
    exists i :: 0 <= i < |bases| && (l == bases[i] || StartsWith(l, bases[i] + "_"))
  }

  const WIPE_ERASE_BASES := ["userdata", "metadata", "frp"]
  const KEEP_DATA_SKIP_BASES := ["userdata", "metadata"]

  predicate WipeLabel(partition: string) {
    LabelMatches(partition, WIPE_ERASE_BASES)
  }

  predicate KeepDataSkipLabel(partition: string) {
    LabelMatches(partition, KEEP_DATA_SKIP_BASES)
  }

  predicate IsSplitSuper(filename: seq<Component>) {
    filename != [] && filename[|filename| - 1].Normal?
    && var name := Lower(filename[|filename| - 1].name);
      StartsWith(name, "super_") && EndsWith(name, ".img")
  }

  /** `safe_join`: the names under the base directory, or None for an escaping reference. */
  function SafeNames(filename: seq<Component>): Option<seq<string>> {
    if filename == [] then Some([])
    else
      var rest := SafeNames(filename[1..]);
      if rest.None? || filename[0].ParentDir? || filename[0].Rooted? then None
      else if filename[0].CurDir? then rest
      else Some([filename[0].name] + rest.value)
  }

  function SafeJoin(dir: string, filename: seq<Component>): Option<ImagePath> {
    var names := SafeNames(filename);
    if names.None? || names.value == [] then None else Some(ImagePath(dir, names.value))
  }

  // ---- Plans ------------------------------------------------------------------------------

  /** The commands issued when the transport accepts them all, and whether the data is sound to the end. */
  datatype Plan = Plan(commands: seq<Command>, complete: bool)

  const NOTHING := Plan([], true)
  const UNSOUND := Plan([], false)

  function Then(p: Plan, q: Plan): Plan {
    if p.complete then Plan(p.commands + q.commands, q.complete) else p
  }

  function Sequence(plans: seq<Plan>): Plan {
    if plans == [] then NOTHING
    else Then(Sequence(plans[..|plans| - 1]), plans[|plans| - 1])
  }

  /** An attribute that may be left out. */
  function Default(a: Attr<nat>): Attr<nat> {
    if a.Absent? then Given(0) else a
  }

  function ProgramPlan(files: Files, dir: string, n: Node): Plan {
    var sectors := Default(n.numSectors);
    if sectors.Malformed? then UNSOUND
    else if n.filename == [] || sectors.value == 0 then NOTHING
    else if n.lun.Absent? || n.startSector.None? then UNSOUND
    else if n.lun.Malformed? || n.slot.Malformed? || n.fileSectorOffset.Malformed? then UNSOUND
    else
      var path := SafeJoin(dir, n.filename);
      var slot, offset := Default(n.slot).value, Default(n.fileSectorOffset).value;
      if path.None? then UNSOUND
      else if files(path.value).Missing? then NOTHING
      else if files(path.value).Unopenable? then UNSOUND
      else if offset > 0 && (4096 * offset > U64_MAX || 4096 * offset >= files(path.value).len) then UNSOUND
      else
        Plan([ProgramImage(n.partition, sectors.value, slot, n.lun.value, n.startSector.value, path.value, offset)], true)
  }

  function ErasePlan(n: Node): Plan {
    var sectors := Default(n.numSectors);
    if sectors.Malformed? then UNSOUND
    else if sectors.value == 0 then NOTHING
    else if !n.lun.Given? || n.startSector.None? then UNSOUND
    else Plan([EraseSectors(sectors.value, n.lun.value, n.startSector.value)], true)
  }

  function PatchPlan(n: Node): Plan {
    if !n.tag.PatchTag? || !n.disk then NOTHING
    else if !n.lun.Given? || n.startSector.None? then UNSOUND
    else if n.byteOffset.Malformed? || n.slot.Malformed? || n.size.Malformed? then UNSOUND
    else
      Plan([PatchDisk(Default(n.byteOffset).value, Default(n.slot).value, n.lun.value, Default(n.size).value,
                      n.startSector.value, n.value)], true)
  }

  /** One node of a rawprogram; without `wipe`, user-data programs are skipped. */
  function FlashNodePlan(files: Files, dir: string, wipe: bool, n: Node): Plan {
    if n.tag.ProgramTag? then
      (if !wipe && KeepDataSkipLabel(n.partition) then NOTHING else ProgramPlan(files, dir, n))
    else if n.tag.EraseTag? then ErasePlan(n)
    else NOTHING
  }

  function FlashXmlPlan(files: Files, wipe: bool, xml: Xml): Plan {
    if xml.Unreadable? then UNSOUND
    else Sequence(seq(|xml.nodes|, i requires 0 <= i < |xml.nodes| => FlashNodePlan(files, xml.dir, wipe, xml.nodes[i])))
  }

  function PatchXmlPlan(xml: Xml): Plan {
    if xml.Unreadable? then UNSOUND
    else Sequence(seq(|xml.nodes|, i requires 0 <= i < |xml.nodes| => PatchPlan(xml.nodes[i])))
  }

  function FlashXmlsPlan(files: Files, wipe: bool, xmls: seq<Xml>): Plan {
    Sequence(seq(|xmls|, i requires 0 <= i < |xmls| => FlashXmlPlan(files, wipe, xmls[i])))
  }

  function PatchXmlsPlan(xmls: seq<Xml>): Plan {
    Sequence(seq(|xmls|, i requires 0 <= i < |xmls| => PatchXmlPlan(xmls[i])))
  }

  // ---- Checks made before the first command -------------------------------------------------

  predicate SuperNodeSound(files: Files, dir: string, n: Node) {
    n.tag.ProgramTag? && IsSplitSuper(n.filename) ==>
      && !n.numSectors.Malformed?
      && (Default(n.numSectors).value != 0 ==>
            SafeJoin(dir, n.filename).Some? && !files(SafeJoin(dir, n.filename).value).Missing?)
  }

  predicate XmlPreflight(files: Files, xml: Xml) {
    xml.Document? && forall i :: 0 <= i < |xml.nodes| ==> SuperNodeSound(files, xml.dir, xml.nodes[i])
  }

  /** `preflight_rawprogram_super_images` accepts. */
  predicate Preflight(files: Files, xmls: seq<Xml>) {
    forall i :: 0 <= i < |xmls| ==> XmlPreflight(files, xmls[i])
  }

  /** The erase a wiped program node contributes. */
  function WipeNodePlan(n: Node): Plan {
    if n.tag.ProgramTag? && WipeLabel(n.partition) then ErasePlan(n) else NOTHING
  }

  function WipeNodesPlan(nodes: seq<Node>): Plan {
    Sequence(seq(|nodes|, i requires 0 <= i < |nodes| => WipeNodePlan(nodes[i])))
  }

  function WipeXmlPlan(xml: Xml): Plan {
    if xml.Unreadable? then UNSOUND else WipeNodesPlan(xml.nodes)
  }

  /** `collect_wipe_erase_plan`. */
  function WipeErasePlan(xmls: seq<Xml>): Plan {
    Sequence(seq(|xmls|, i requires 0 <= i < |xmls| => WipeXmlPlan(xmls[i])))
  }

  // ---- The three modes ------------------------------------------------------------------------

  datatype Mode = Wipe | KeepData | Verbatim

  function PreErasePlan(mode: Mode, xmls: seq<Xml>): Plan {
    if mode.Wipe? then (if WipeErasePlan(xmls).complete then WipeErasePlan(xmls) else UNSOUND) else NOTHING
  }

  function ModePlan(mode: Mode, files: Files, programs: seq<Xml>, patches: seq<Xml>): Plan {
    if !Preflight(files, programs) then UNSOUND
    else
      Then(PreErasePlan(mode, programs),
           Then(FlashXmlsPlan(files, !mode.KeepData?, programs), PatchXmlsPlan(patches)))
  }

  // ---- Sequences of plans --------------------------------------------------------------------------

  lemma {:induction false} SequenceStops(plans: seq<Plan>, k: nat)
    requires k <= |plans|
    ensures !Sequence(plans[..k]).complete ==> Sequence(plans) == Sequence(plans[..k])
    ensures Sequence(plans[..k]).commands <= Sequence(plans).commands
    decreases |plans| - k
  {
    if k == |plans| {
      assert plans[..k] == plans;
    } else {
      assert plans[..k + 1][..k] == plans[..k];
      SequenceStops(plans, k + 1);
    }
  }

  lemma SequenceNext(plans: seq<Plan>, i: nat)
    requires i < |plans|
    ensures Sequence(plans[..i + 1]) == Then(Sequence(plans[..i]), plans[i])
  {
    assert plans[..i + 1][..i] == plans[..i];
  }

  // ---- What is kept -----------------------------------------------------------------------------------

  /** A command that data-keeping mode also issues. */
  predicate Keeps(c: Command) {
    !(c.ProgramImage? && KeepDataSkipLabel(c.partition))
  }

  function Kept(commands: seq<Command>): seq<Command> {
    if commands == [] then []
    else
      var last := commands[|commands| - 1];
      Kept(commands[..|commands| - 1]) + (if Keeps(last) then [last] else [])
  }

  lemma {:induction false} KeptConcat(a: seq<Command>, b: seq<Command>)
    ensures Kept(a + b) == Kept(a) + Kept(b)
  {
    if b == [] {
      assert a + b == a;
    } else {
      KeptConcat(a, b[..|b| - 1]);
      assert (a + b)[..|a + b| - 1] == a + b[..|b| - 1];
    }
  }

  /** `q` is `p` without the user-data programs, and is sound wherever `p` is. */
  predicate KeepOf(p: Plan, q: Plan) {
    p.complete ==> q.complete && q.commands == Kept(p.commands)
  }

  lemma KeepOfThen(p: Plan, q: Plan, p': Plan, q': Plan)
    requires KeepOf(p, p') && KeepOf(q, q')
    ensures KeepOf(Then(p, q), Then(p', q'))
  {
    KeptConcat(p.commands, q.commands);
  }

  lemma {:induction false} KeepOfSequence(ps: seq<Plan>, qs: seq<Plan>)
    requires |ps| == |qs| && forall i :: 0 <= i < |ps| ==> KeepOf(ps[i], qs[i])
    ensures KeepOf(Sequence(ps), Sequence(qs))
  {
    if ps != [] {
      var k := |ps| - 1;
      KeepOfSequence(ps[..k], qs[..k]);
      KeepOfThen(Sequence(ps[..k]), ps[k], Sequence(qs[..k]), qs[k]);
    }
  }

  lemma KeepOfNode(files: Files, dir: string, n: Node)
    ensures KeepOf(FlashNodePlan(files, dir, true, n), FlashNodePlan(files, dir, false, n))
  {
    var p := FlashNodePlan(files, dir, true, n);
    assert |p.commands| <= 1;
    if |p.commands| == 1 {
      assert p.commands[..0] == [];
    }
  }

  lemma KeepOfXml(files: Files, xml: Xml)
    ensures KeepOf(FlashXmlPlan(files, true, xml), FlashXmlPlan(files, false, xml))
  {
    if xml.Document? {
      var ps := seq(|xml.nodes|, i requires 0 <= i < |xml.nodes| => FlashNodePlan(files, xml.dir, true, xml.nodes[i]));
      var qs := seq(|xml.nodes|, i requires 0 <= i < |xml.nodes| => FlashNodePlan(files, xml.dir, false, xml.nodes[i]));
      forall i | 0 <= i < |ps| ensures KeepOf(ps[i], qs[i]) {
        KeepOfNode(files, xml.dir, xml.nodes[i]);
      }
      KeepOfSequence(ps, qs);
    }
  }

  lemma KeepOfXmls(files: Files, xmls: seq<Xml>)
    ensures KeepOf(FlashXmlsPlan(files, true, xmls), FlashXmlsPlan(files, false, xmls))
  {
    var ps := seq(|xmls|, i requires 0 <= i < |xmls| => FlashXmlPlan(files, true, xmls[i]));
    var qs := seq(|xmls|, i requires 0 <= i < |xmls| => FlashXmlPlan(files, false, xmls[i]));
    forall i | 0 <= i < |ps| ensures KeepOf(ps[i], qs[i]) {
      KeepOfXml(files, xmls[i]);
    }
    KeepOfSequence(ps, qs);
  }

  predicate OnlyPatches(commands: seq<Command>) {
    forall c :: c in commands ==> c.PatchDisk?
  }

  lemma {:induction false} SequenceOfPatches(ps: seq<Plan>)
    requires forall i :: 0 <= i < |ps| ==> OnlyPatches(ps[i].commands)
    ensures OnlyPatches(Sequence(ps).commands)
  {
    if ps != [] {
      SequenceOfPatches(ps[..|ps| - 1]);
    }
  }

  lemma PatchesOnlyPatch(xmls: seq<Xml>)
    ensures OnlyPatches(PatchXmlsPlan(xmls).commands)
  {
    var ps := seq(|xmls|, i requires 0 <= i < |xmls| => PatchXmlPlan(xmls[i]));
    forall i | 0 <= i < |ps| ensures OnlyPatches(ps[i].commands) {
      if xmls[i].Document? {
        var ns := xmls[i].nodes;
        SequenceOfPatches(seq(|ns|, j requires 0 <= j < |ns| => PatchPlan(ns[j])));
      }
    }
    SequenceOfPatches(ps);
  }

  lemma {:induction false} PatchesAreKept(commands: seq<Command>)
    requires OnlyPatches(commands)
    ensures Kept(commands) == commands
  {
    if commands != [] {
      var last := commands[|commands| - 1];
      assert last in commands;
      PatchesAreKept(commands[..|commands| - 1]);
      assert commands == commands[..|commands| - 1] + [last];
    }
  }

  /**
   On the same XMLs: when the erase plan and the verbatim run are sound, wiping
   issues the erases and then exactly the verbatim commands; and whenever the
   verbatim run is sound, keeping data issues exactly the verbatim commands
   without the user-data programs.
   */
  lemma ModeTraces(files: Files, programs: seq<Xml>, patches: seq<Xml>)
    ensures var wipe, keep, verbatim := ModePlan(Wipe, files, programs, patches),
        ModePlan(KeepData, files, programs, patches), ModePlan(Verbatim, files, programs, patches);
      && (wipe.complete <==> verbatim.complete && WipeErasePlan(programs).complete)
      && (wipe.complete ==> wipe.commands == WipeErasePlan(programs).commands + verbatim.commands)
      && (verbatim.complete ==> keep.complete && keep.commands == Kept(verbatim.commands))
  {
    KeepOfXmls(files, programs);
    var patch := PatchXmlsPlan(patches);
    PatchesOnlyPatch(patches);
    PatchesAreKept(patch.commands);
    KeepOfThen(FlashXmlsPlan(files, true, programs), patch, FlashXmlsPlan(files, false, programs), patch);
    hide FlashXmlsPlan, PatchXmlsPlan, WipeErasePlan, Preflight, Kept;
    assert forall p :: Then(NOTHING, p) == p by {
      forall p: Plan ensures Then(NOTHING, p) == p {
        assert [] + p.commands == p.commands;
      }
    }
  }

  // ---- Where commands come from -----------------------------------------------------------------------------

  /** The node states the target itself; no coordinate is a default. */
  predicate Backs(files: Files, dir: string, n: Node, c: Command) {
    match c
    case EraseSectors(sectors, lun, start) =>
      && (n.tag.EraseTag? || (n.tag.ProgramTag? && WipeLabel(n.partition)))
      && n.lun == Given(lun) && n.startSector == Some(start) && n.numSectors == Given(sectors) && sectors > 0
    case ProgramImage(partition, sectors, slot, lun, start, image, offset) =>
      && n.tag.ProgramTag? && n.partition == partition
      && n.lun == Given(lun) && n.startSector == Some(start) && n.numSectors == Given(sectors) && sectors > 0
      && (n.slot == Given(slot) || (n.slot.Absent? && slot == 0))
      && SafeJoin(dir, n.filename) == Some(image) && files(image).Bytes?
      && (offset > 0 ==> n.fileSectorOffset == Given(offset) && offset * 4096 < files(image).len)
    case PatchDisk(byteOffset, slot, lun, size, start, value) =>
      n.tag.PatchTag? && n.disk && n.lun == Given(lun) && n.startSector == Some(start) && n.value == value
  }

  ghost predicate FromNodes(files: Files, xmls: seq<Xml>, c: Command) {
    exists x, i :: 0 <= x < |xmls| && xmls[x].Document? && 0 <= i < |xmls[x].nodes|
      && Backs(files, xmls[x].dir, xmls[x].nodes[i], c)
  }

  lemma {:induction false} SequenceMember(plans: seq<Plan>, c: Command) returns (i: nat)
    requires c in Sequence(plans).commands
    ensures i < |plans| && c in plans[i].commands
  {
    var k := |plans| - 1;
    if c in plans[k].commands {
      i := k;
    } else {
      i := SequenceMember(plans[..k], c);
    }
  }

  lemma NodeBacksItsCommands(files: Files, dir: string, n: Node, wipe: bool, c: Command)
    ensures c in FlashNodePlan(files, dir, wipe, n).commands ==> Backs(files, dir, n, c)
    ensures c in PatchPlan(n).commands ==> Backs(files, dir, n, c)
    ensures c in WipeNodePlan(n).commands ==> Backs(files, dir, n, c)
  {
    hide LabelMatches, SafeJoin;
  }

  lemma FlashFromNodes(files: Files, xmls: seq<Xml>, wipe: bool, c: Command)
    requires c in FlashXmlsPlan(files, wipe, xmls).commands
    ensures FromNodes(files, xmls, c)
  {
    hide Sequence, FlashNodePlan, Backs;
    var x := SequenceMember(seq(|xmls|, i requires 0 <= i < |xmls| => FlashXmlPlan(files, wipe, xmls[i])), c);
    var ns := xmls[x].nodes;
    var i := SequenceMember(seq(|ns|, j requires 0 <= j < |ns| => FlashNodePlan(files, xmls[x].dir, wipe, ns[j])), c);
    NodeBacksItsCommands(files, xmls[x].dir, ns[i], wipe, c);
  }

  lemma PatchFromNodes(files: Files, xmls: seq<Xml>, c: Command)
    requires c in PatchXmlsPlan(xmls).commands
    ensures FromNodes(files, xmls, c)
  {
    hide Sequence, PatchPlan, Backs;
    var x := SequenceMember(seq(|xmls|, i requires 0 <= i < |xmls| => PatchXmlPlan(xmls[i])), c);
    var ns := xmls[x].nodes;
    var i := SequenceMember(seq(|ns|, j requires 0 <= j < |ns| => PatchPlan(ns[j])), c);
    NodeBacksItsCommands(files, xmls[x].dir, ns[i], true, c);
  }

  lemma WipeFromNodes(files: Files, xmls: seq<Xml>, c: Command)
    requires c in WipeErasePlan(xmls).commands
    ensures FromNodes(files, xmls, c)
  {
    hide Sequence, WipeNodePlan, Backs;
    var x := SequenceMember(seq(|xmls|, i requires 0 <= i < |xmls| => WipeXmlPlan(xmls[i])), c);
    var ns := xmls[x].nodes;
    var i := SequenceMember(seq(|ns|, j requires 0 <= j < |ns| => WipeNodePlan(ns[j])), c);
    NodeBacksItsCommands(files, xmls[x].dir, ns[i], true, c);
  }

  /** Each plan of a whole pass takes its commands from the nodes of its own XMLs. */
  lemma PassFromNodes(files: Files, xmls: seq<Xml>, wipe: bool, c: Command)
    ensures c in FlashXmlsPlan(files, wipe, xmls).commands ==> FromNodes(files, xmls, c)
    ensures c in PatchXmlsPlan(xmls).commands ==> FromNodes(files, xmls, c)
    ensures c in WipeErasePlan(xmls).commands ==> FromNodes(files, xmls, c)
  {
    hide *;
    if c in FlashXmlsPlan(files, wipe, xmls).commands {
      FlashFromNodes(files, xmls, wipe, c);
    }
    if c in PatchXmlsPlan(xmls).commands {
      PatchFromNodes(files, xmls, c);
    }
    if c in WipeErasePlan(xmls).commands {
      WipeFromNodes(files, xmls, c);
    }
  }

  /** In every mode, every command has its target from a node that states it. */
  lemma CommandsAreBacked(mode: Mode, files: Files, programs: seq<Xml>, patches: seq<Xml>, c: Command)
    requires c in ModePlan(mode, files, programs, patches).commands
    ensures FromNodes(files, programs, c) || FromNodes(files, patches, c)
  {
    PassFromNodes(files, programs, !mode.KeepData?, c);
    PassFromNodes(files, patches, true, c);
  }

  // ---- Erases in data-keeping mode ------------------------------------------------------------

  lemma {:induction false} CompleteSequenceContains(plans: seq<Plan>, i: nat, c: Command)
    requires i < |plans| && Sequence(plans).complete && c in plans[i].commands
    ensures plans[i].complete && c in Sequence(plans).commands
  {
    var front := plans[..|plans| - 1];
    assert Sequence(front).complete && Sequence(plans).commands == Sequence(front).commands + plans[|plans| - 1].commands;
    if i < |plans| - 1 {
      CompleteSequenceContains(front, i, c);
    }
  }

  lemma {:induction false} CompleteParts(plans: seq<Plan>, i: nat)
    requires i < |plans| && Sequence(plans).complete
    ensures plans[i].complete
  {
    if i < |plans| - 1 {
      CompleteParts(plans[..|plans| - 1], i);
    }
  }

  predicate ErasesSomething(commands: seq<Command>) {
    exists c :: c in commands && c.EraseSectors?
  }

  /** An erase node that names any sectors. */
  predicate ErasesSectors(n: Node) {
    n.tag.EraseTag? && NamesSectors(n)
  }

  predicate HasEraseNode(xmls: seq<Xml>) {
    exists x, i :: 0 <= x < |xmls| && xmls[x].Document? && 0 <= i < |xmls[x].nodes| && ErasesSectors(xmls[x].nodes[i])
  }

  lemma PassErasesFromNodes(files: Files, xmls: seq<Xml>)
    ensures ErasesSomething(FlashXmlsPlan(files, false, xmls).commands) ==> HasEraseNode(xmls)
  {
    hide Sequence, ProgramPlan;
    if ErasesSomething(FlashXmlsPlan(files, false, xmls).commands) {
      var c :| c in FlashXmlsPlan(files, false, xmls).commands && c.EraseSectors?;
      var x := SequenceMember(seq(|xmls|, i requires 0 <= i < |xmls| => FlashXmlPlan(files, false, xmls[i])), c);
      var ns := xmls[x].nodes;
      var i := SequenceMember(seq(|ns|, j requires 0 <= j < |ns| => FlashNodePlan(files, xmls[x].dir, false, ns[j])), c);
      ProgramsDoNotErase(files, xmls[x].dir, ns[i]);
      assert ErasesSectors(xmls[x].nodes[i]);
    }
  }

  lemma ProgramsDoNotErase(files: Files, dir: string, n: Node)
    ensures forall c :: c in ProgramPlan(files, dir, n).commands ==> c.ProgramImage?
  {
    hide SafeJoin;
  }

  lemma NodesEraseInPass(files: Files, xmls: seq<Xml>)
    requires FlashXmlsPlan(files, false, xmls).complete
    ensures HasEraseNode(xmls) ==> ErasesSomething(FlashXmlsPlan(files, false, xmls).commands)
  {
    hide Sequence, ProgramPlan;
    if HasEraseNode(xmls) {
      var x, i :| 0 <= x < |xmls| && xmls[x].Document? && 0 <= i < |xmls[x].nodes| && ErasesSectors(xmls[x].nodes[i]);
      var ns := xmls[x].nodes;
      var plans := seq(|xmls|, j requires 0 <= j < |xmls| => FlashXmlPlan(files, false, xmls[j]));
      CompleteParts(plans, x);
      var nodePlans := seq(|ns|, j requires 0 <= j < |ns| => FlashNodePlan(files, xmls[x].dir, false, ns[j]));
      CompleteParts(nodePlans, i);
      assert nodePlans[i] == ErasePlan(ns[i]);
      var c := ErasePlan(ns[i]).commands[0];
      CompleteSequenceContains(nodePlans, i, c);
      CompleteSequenceContains(plans, x, c);
      assert c in FlashXmlsPlan(files, false, xmls).commands && c.EraseSectors?;
    }
  }

  /**
   Keeping data skips user-data programs but follows erase nodes whatever their label: a
   plan that runs to its end erases something exactly when some XML has an erase node
   that names sectors, and no plan erases anything without one.
   */
  lemma KeepDataErasesExactly(files: Files, programs: seq<Xml>, patches: seq<Xml>)
    ensures var keep := ModePlan(KeepData, files, programs, patches);
      && (ErasesSomething(keep.commands) ==> HasEraseNode(programs))
      && (keep.complete && HasEraseNode(programs) ==> ErasesSomething(keep.commands))
  {
    PassErasesFromNodes(files, programs);
    PatchesOnlyPatch(patches);
    var flash, patch := FlashXmlsPlan(files, false, programs), PatchXmlsPlan(patches);
    if flash.complete {
      NodesEraseInPass(files, programs);
    }
    hide FlashXmlsPlan, PatchXmlsPlan, HasEraseNode, Preflight;
    assert Then(NOTHING, Then(flash, patch)) == Then(flash, patch) by {
      assert [] + Then(flash, patch).commands == Then(flash, patch).commands;
    }
  }

  /** An erase node labelled with user data is followed while data is kept. */
  lemma KeepDataFollowsEraseNode(files: Files, n: Node)
    requires n.tag.EraseTag? && n.partition == "userdata"
    requires n.numSectors == Given(8) && n.lun == Given(0) && n.startSector == Some("1024")
    ensures KeepDataSkipLabel(n.partition)
    ensures ModePlan(KeepData, files, [Document("", [n])], []) == Plan([EraseSectors(8, 0, "1024")], true)
  {
    assert Lower("userdata") == "userdata";
    assert KEEP_DATA_SKIP_BASES[0] == "userdata";
    var xmls := [Document("", [n])];
    var erase := Plan([EraseSectors(8, 0, "1024")], true);
    OnePlan(seq(1, i requires 0 <= i < 1 => FlashNodePlan(files, "", false, [n][i])), erase);
    OnePlan(seq(1, i requires 0 <= i < 1 => FlashXmlPlan(files, false, xmls[i])), erase);
    assert PatchXmlsPlan([]) == NOTHING;
    assert Preflight(files, xmls);
    hide FlashXmlsPlan, PatchXmlsPlan;
    assert erase.commands + [] == erase.commands;
  }

  lemma OnePlan(plans: seq<Plan>, p: Plan)
    requires plans == [p]
    ensures Sequence(plans) == p
  {
    assert plans[..0] == [];
    assert [] + p.commands == p.commands;
  }

  // ---- What the XMLs ask for, stated without the plans ------------------------------------------

  /** The erases before a wiping flash, the program pass, the patch pass. */
  datatype Pass = Erasing | Flashing(keep: bool) | Patching

  /** What a pass meets in its XMLs, in document order. */
  datatype Step = BadXml | Visit(pass: Pass, dir: string, node: Node)

  function StepsOf(pass: Pass, xml: Xml): seq<Step> {
    if xml.Unreadable? then [BadXml]
    else seq(|xml.nodes|, i requires 0 <= i < |xml.nodes| => Visit(pass, xml.dir, xml.nodes[i]))
  }

  function Steps(pass: Pass, xmls: seq<Xml>): seq<Step> {
    if xmls == [] then []
    else Steps(pass, xmls[..|xmls| - 1]) + StepsOf(pass, xmls[|xmls| - 1])
  }

  /** Everything a run meets once its checks have passed. */
  function RunSteps(mode: Mode, programs: seq<Xml>, patches: seq<Xml>): seq<Step> {
    (if mode.Wipe? then Steps(Erasing, programs) else [])
    + Steps(Flashing(mode.KeepData?), programs) + Steps(Patching, patches)
  }

  predicate UserDataLabel(partition: string) {
    var l := Lower(partition);
    l == "userdata" || l == "metadata" || "userdata_" <= l || "metadata_" <= l
  }

  predicate ErasedLabel(partition: string) {
    UserDataLabel(partition) || Lower(partition) == "frp" || "frp_" <= Lower(partition)
  }

  predicate SuperImage(filename: seq<Component>) {
    filename != [] && filename[|filename| - 1].Normal?
    && var l := Lower(filename[|filename| - 1].name);
      "super_" <= l && |l| >= 4 && l[|l| - 4..] == ".img"
  }

  function PlainNames(filename: seq<Component>): seq<string> {
    if filename == [] then []
    else
      var last := filename[|filename| - 1];
      PlainNames(filename[..|filename| - 1]) + (if last.Normal? then [last.name] else [])
  }

  /** The file a node refers to: its plain path components under the directory of the XML. */
  function ImageOf(dir: string, filename: seq<Component>): ImagePath {
    ImagePath(dir, PlainNames(filename))
  }

  /** No component leaves the directory and one names something in it. */
  predicate StaysInside(filename: seq<Component>) {
    && (forall i :: 0 <= i < |filename| ==> filename[i].Normal? || filename[i].CurDir?)
    && (exists i :: 0 <= i < |filename| && filename[i].Normal?)
  }

  predicate NamesSectors(n: Node) {
    n.numSectors.Given? && n.numSectors.value > 0
  }

  /** A node that writes states where: nothing is a default. */
  predicate Placed(n: Node) {
    n.lun.Given? && n.startSector.Some?
  }

  predicate EraseSound(n: Node) {
    !n.numSectors.Malformed? && (NamesSectors(n) ==> Placed(n))
  }

  /** An image that is there can be opened, and the offset into it is a byte of it. */
  predicate ImageSound(file: ImageFile, offset: Attr<nat>) {
    match file
    case Missing => true
    case Unopenable => false
    case Bytes(len) =>
      offset.Given? && offset.value > 0 ==> offset.value * 4096 <= 0xFFFF_FFFF_FFFF_FFFF && offset.value * 4096 < len
  }

  predicate ProgramSound(files: Files, dir: string, n: Node) {
    && !n.numSectors.Malformed?
    && (n.filename != [] && NamesSectors(n) ==>
          && Placed(n) && !n.slot.Malformed? && !n.fileSectorOffset.Malformed?
          && StaysInside(n.filename) && ImageSound(files(ImageOf(dir, n.filename)), n.fileSectorOffset))
  }

  predicate PatchSound(n: Node) {
    Placed(n) && !n.byteOffset.Malformed? && !n.slot.Malformed? && !n.size.Malformed?
  }

  /** Nothing at the step makes the run fail. */
  predicate Sound(files: Files, s: Step) {
    match s
    case BadXml => false
    case Visit(pass, dir, n) =>
      match pass
      case Erasing => n.tag.ProgramTag? && ErasedLabel(n.partition) ==> EraseSound(n)
      case Patching => n.tag.PatchTag? && n.disk ==> PatchSound(n)
      case Flashing(keep) =>
        && (n.tag.EraseTag? ==> EraseSound(n))
        && (n.tag.ProgramTag? && !(keep && UserDataLabel(n.partition)) ==> ProgramSound(files, dir, n))
  }

  /** The step sends a command. */
  predicate Acts(files: Files, s: Step) {
    && s.Visit?
    && var n := s.node;
      match s.pass
      case Erasing => n.tag.ProgramTag? && ErasedLabel(n.partition) && NamesSectors(n)
      case Patching => n.tag.PatchTag? && n.disk
      case Flashing(keep) =>
        || (n.tag.EraseTag? && NamesSectors(n))
        || (n.tag.ProgramTag? && !(keep && UserDataLabel(n.partition)) && NamesSectors(n)
            && n.filename != [] && !files(ImageOf(s.dir, n.filename)).Missing?)
  }

  predicate IsOrZero(a: Attr<nat>, v: nat) {
    a == Given(v) || (a == Absent && v == 0)
  }

  /** The command is the one the node of the step writes down. */
  predicate Carries(s: Step, c: Command) {
    s.Visit?
    && var n := s.node;
      match c
      case EraseSectors(sectors, lun, start) =>
        && (if s.pass.Erasing? then n.tag.ProgramTag? else s.pass.Flashing? && n.tag.EraseTag?)
        && n.numSectors == Given(sectors) && n.lun == Given(lun) && n.startSector == Some(start)
      case ProgramImage(partition, sectors, slot, lun, start, image, offset) =>
        && s.pass.Flashing? && n.tag.ProgramTag? && n.partition == partition
        && n.numSectors == Given(sectors) && n.lun == Given(lun) && n.startSector == Some(start)
        && IsOrZero(n.slot, slot) && IsOrZero(n.fileSectorOffset, offset) && image == ImageOf(s.dir, n.filename)
      case PatchDisk(byteOffset, slot, lun, size, start, value) =>
        && s.pass.Patching? && n.tag.PatchTag? && n.disk
        && n.lun == Given(lun) && n.startSector == Some(start) && n.value == value
        && IsOrZero(n.byteOffset, byteOffset) && IsOrZero(n.slot, slot) && IsOrZero(n.size, size)
  }

  /** The steps that send a command, in order. */
  function Acting(files: Files, steps: seq<Step>): seq<Step> {
    if steps == [] then []
    else
      var last := steps[|steps| - 1];
      Acting(files, steps[..|steps| - 1]) + (if Acts(files, last) then [last] else [])
  }

  ghost predicate AllSound(files: Files, steps: seq<Step>) {
    forall i :: 0 <= i < |steps| ==> Sound(files, steps[i])
  }

  /** One command for each step, in order, and each the one its node writes down. */
  ghost predicate Carried(steps: seq<Step>, commands: seq<Command>) {
    |commands| == |steps| && forall i :: 0 <= i < |steps| ==> Carries(steps[i], commands[i])
  }

  /** The steps before `k` are sound and, unless the steps end there, the one at `k` is not. */
  ghost predicate SoundTo(files: Files, steps: seq<Step>, k: int) {
    0 <= k <= |steps| && AllSound(files, steps[..k]) && (k < |steps| ==> !Sound(files, steps[k]))
  }

  /** Every XML can be read and every split-super image in use is there. */
  ghost predicate SuperImagesThere(files: Files, xmls: seq<Xml>) {
    forall x :: 0 <= x < |xmls| ==>
      && xmls[x].Document?
      && forall i :: 0 <= i < |xmls[x].nodes| ==> SuperImageThere(files, xmls[x].dir, xmls[x].nodes[i])
  }

  predicate SuperImageThere(files: Files, dir: string, n: Node) {
    n.tag.ProgramTag? && SuperImage(n.filename) ==>
      && !n.numSectors.Malformed?
      && (NamesSectors(n) ==> StaysInside(n.filename) && !files(ImageOf(dir, n.filename)).Missing?)
  }

  /** What is checked before the first command. */
  ghost predicate Ready(mode: Mode, files: Files, programs: seq<Xml>) {
    SuperImagesThere(files, programs) && (mode.Wipe? ==> AllSound(files, Steps(Erasing, programs)))
  }

  /**
   A run over the steps sent exactly the commands of the acting steps up to the first
   unsound one, and succeeded if there is none; when the device refused a command, that
   one was the last.
   */
  ghost predicate Obeyed(files: Files, steps: seq<Step>, before: seq<Command>, after: seq<Command>, refused: bool, ok: bool) {
    exists k :: SoundTo(files, steps, k) && ObeyedTo(files, steps, before, after, refused, ok, k)
  }

  ghost predicate ObeyedTo(files: Files, steps: seq<Step>, before: seq<Command>, after: seq<Command>,
                           refused: bool, ok: bool, k: int)
    requires 0 <= k <= |steps|
  {
    var due := Acting(files, steps[..k]);
    && before <= after && |after| - |before| <= |due|
    && Carried(due[..|after| - |before|], after[|before|..])
    && (refused ==> !ok && |after| > |before|)
    && (!refused ==> |after| - |before| == |due| && (ok <==> k == |steps|))
  }

  // ---- The plans are what the XMLs ask for ---------------------------------------------------------

  lemma LabelsAre(partition: string)
    ensures WipeLabel(partition) <==> ErasedLabel(partition)
    ensures KeepDataSkipLabel(partition) <==> UserDataLabel(partition)
  {
    assert WIPE_ERASE_BASES[0] == "userdata" && WIPE_ERASE_BASES[1] == "metadata" && WIPE_ERASE_BASES[2] == "frp";
    assert KEEP_DATA_SKIP_BASES[0] == "userdata" && KEEP_DATA_SKIP_BASES[1] == "metadata";
  }

  lemma SplitSuperIs(filename: seq<Component>)
    ensures IsSplitSuper(filename) <==> SuperImage(filename)
  {
  }

  lemma {:induction false} PlainNamesFront(first: Component, rest: seq<Component>)
    ensures PlainNames([first] + rest) == (if first.Normal? then [first.name] else []) + PlainNames(rest)
  {
    var f := [first] + rest;
    if rest == [] {
      assert f[..0] == [] && PlainNames(f[..0]) == [];
    } else {
      PlainNamesFront(first, rest[..|rest| - 1]);
      assert f[..|f| - 1] == [first] + rest[..|rest| - 1];
    }
  }

  /** A joined path is inside the directory: it is refused exactly for a path that could leave it or names nothing. */
  lemma SafeJoinExactly(dir: string, filename: seq<Component>)
    ensures SafeJoin(dir, filename) == if StaysInside(filename) then Some(ImageOf(dir, filename)) else None
  {
    SafeNamesExactly(filename);
  }

  lemma {:induction false} SafeNamesExactly(filename: seq<Component>)
    ensures SafeNames(filename).Some? <==> forall i :: 0 <= i < |filename| ==> filename[i].Normal? || filename[i].CurDir?
    ensures SafeNames(filename).Some? ==> SafeNames(filename).value == PlainNames(filename)
    ensures PlainNames(filename) != [] <==> exists i :: 0 <= i < |filename| && filename[i].Normal?
  {
    if filename != [] {
      var rest := filename[1..];
      SafeNamesExactly(rest);
      PlainNamesFront(filename[0], rest);
      assert filename == [filename[0]] + rest;
    }
  }

  function StepPlan(files: Files, s: Step): Plan {
    match s
    case BadXml => UNSOUND
    case Visit(pass, dir, n) =>
      match pass
      case Erasing => WipeNodePlan(n)
      case Flashing(keep) => FlashNodePlan(files, dir, !keep, n)
      case Patching => PatchPlan(n)
  }

  lemma ProgramPlanExactly(files: Files, dir: string, n: Node, s: Step)
    requires s.Visit? && s.pass.Flashing? && s.dir == dir && s.node == n && n.tag.ProgramTag?
    ensures var p := ProgramPlan(files, dir, n);
      && (p.complete <==> ProgramSound(files, dir, n)) && (!p.complete ==> p.commands == [])
      && (p.complete ==>
            if NamesSectors(n) && n.filename != [] && !files(ImageOf(dir, n.filename)).Missing?
            then |p.commands| == 1 && Carries(s, p.commands[0]) else p.commands == [])
  {
    SafeJoinExactly(dir, n.filename);
    hide SafeJoin, StaysInside, PlainNames;
  }

  lemma StepExactly(files: Files, s: Step)
    ensures var p := StepPlan(files, s);
      && (p.complete <==> Sound(files, s)) && (!p.complete ==> p.commands == [])
      && (p.complete ==> if Acts(files, s) then |p.commands| == 1 && Carries(s, p.commands[0]) else p.commands == [])
  {
    if s.Visit? {
      LabelsAre(s.node.partition);
      if s.pass.Flashing? && s.node.tag.ProgramTag? {
        ProgramPlanExactly(files, s.dir, s.node, s);
      }
    }
    hide LabelMatches, UserDataLabel, ProgramPlan, SafeJoin, StaysInside, PlainNames;
  }

  function StepPlans(files: Files, steps: seq<Step>): seq<Plan> {
    seq(|steps|, i requires 0 <= i < |steps| => StepPlan(files, steps[i]))
  }

  lemma {:induction false} SoundStepsCarried(files: Files, steps: seq<Step>)
    requires AllSound(files, steps)
    ensures var p := Sequence(StepPlans(files, steps));
      p.complete && Carried(Acting(files, steps), p.commands)
  {
    hide Sound, Acts, Carries, StepPlan;
    if steps != [] {
      var k := |steps| - 1;
      SoundStepsCarried(files, steps[..k]);
      StepExactly(files, steps[k]);
      assert StepPlans(files, steps)[..k] == StepPlans(files, steps[..k]);
    }
  }

  lemma StepsCarried(files: Files, steps: seq<Step>, k: nat)
    requires SoundTo(files, steps, k)
    ensures var p := Sequence(StepPlans(files, steps));
      (p.complete <==> k == |steps|) && Carried(Acting(files, steps[..k]), p.commands)
  {
    hide Sound, Acts, Carries, StepPlan, Carried;
    SoundStepsCarried(files, steps[..k]);
    var plans := StepPlans(files, steps);
    assert StepPlans(files, steps[..k]) == plans[..k];
    if k < |steps| {
      StepExactly(files, steps[k]);
      assert plans[..k + 1][..k] == plans[..k];
      SequenceStops(plans, k + 1);
      assert plans[k] == StepPlan(files, steps[k]);
      assert Sequence(plans[..k]).commands + [] == Sequence(plans[..k]).commands;
    } else {
      assert plans[..k] == plans;
      assert steps[..k] == steps;
    }
  }

  lemma {:induction false} FirstUnsound(files: Files, steps: seq<Step>) returns (k: nat)
    ensures SoundTo(files, steps, k)
  {
    if i :| 0 <= i < |steps| && !Sound(files, steps[i]) {
      k := FirstUnsound(files, steps[..i]);
      assert steps[..i][..k] == steps[..k];
    } else {
      k := |steps|;
    }
  }

  lemma ThenAssociates(p: Plan, q: Plan, r: Plan)
    ensures Then(Then(p, q), r) == Then(p, Then(q, r))
  {
  }

  lemma ThenUnit(p: Plan)
    ensures Then(NOTHING, p) == p && Then(p, NOTHING) == p
  {
  }

  lemma {:induction false} SequenceConcat(a: seq<Plan>, b: seq<Plan>)
    ensures Sequence(a + b) == Then(Sequence(a), Sequence(b))
  {
    hide Then;
    if b == [] {
      assert a + b == a;
      ThenUnit(Sequence(a));
    } else {
      var k := |b| - 1;
      SequenceConcat(a, b[..k]);
      assert (a + b)[..|a + b| - 1] == a + b[..k];
      ThenAssociates(Sequence(a), Sequence(b[..k]), b[k]);
    }
  }

  lemma StepPlansConcat(files: Files, a: seq<Step>, b: seq<Step>)
    ensures Sequence(StepPlans(files, a + b)) == Then(Sequence(StepPlans(files, a)), Sequence(StepPlans(files, b)))
  {
    hide Sequence, Then, StepPlan;
    assert StepPlans(files, a + b) == StepPlans(files, a) + StepPlans(files, b);
    SequenceConcat(StepPlans(files, a), StepPlans(files, b));
  }

  function XmlPlan(pass: Pass, files: Files, xml: Xml): Plan {
    match pass
    case Erasing => WipeXmlPlan(xml)
    case Flashing(keep) => FlashXmlPlan(files, !keep, xml)
    case Patching => PatchXmlPlan(xml)
  }

  function PassPlan(pass: Pass, files: Files, xmls: seq<Xml>): Plan {
    Sequence(seq(|xmls|, i requires 0 <= i < |xmls| => XmlPlan(pass, files, xmls[i])))
  }

  lemma XmlPlanIsSteps(pass: Pass, files: Files, xml: Xml)
    ensures XmlPlan(pass, files, xml) == Sequence(StepPlans(files, StepsOf(pass, xml)))
  {
    hide Sequence, WipeNodePlan, FlashNodePlan, PatchPlan;
    var plans := StepPlans(files, StepsOf(pass, xml));
    if xml.Unreadable? {
      assert plans == [UNSOUND];
      OnePlan(plans, UNSOUND);
    } else {
      var ns := xml.nodes;
      match pass
      case Erasing => assert plans == seq(|ns|, i requires 0 <= i < |ns| => WipeNodePlan(ns[i]));
      case Flashing(keep) =>
        assert plans == seq(|ns|, i requires 0 <= i < |ns| => FlashNodePlan(files, xml.dir, !keep, ns[i]));
      case Patching => assert plans == seq(|ns|, i requires 0 <= i < |ns| => PatchPlan(ns[i]));
    }
  }

  lemma {:induction false} PassPlanIsSteps(pass: Pass, files: Files, xmls: seq<Xml>)
    ensures PassPlan(pass, files, xmls) == Sequence(StepPlans(files, Steps(pass, xmls)))
  {
    hide XmlPlan, StepPlan, Then, StepsOf;
    if xmls != [] {
      var k := |xmls| - 1;
      var plans := seq(|xmls|, i requires 0 <= i < |xmls| => XmlPlan(pass, files, xmls[i]));
      PassPlanIsSteps(pass, files, xmls[..k]);
      assert plans[..k] == seq(k, i requires 0 <= i < k => XmlPlan(pass, files, xmls[..k][i]));
      XmlPlanIsSteps(pass, files, xmls[k]);
      StepPlansConcat(files, Steps(pass, xmls[..k]), StepsOf(pass, xmls[k]));
    }
  }

  lemma PassPlans(files: Files, xmls: seq<Xml>, wipe: bool)
    ensures WipeErasePlan(xmls) == Sequence(StepPlans(files, Steps(Erasing, xmls)))
    ensures FlashXmlsPlan(files, wipe, xmls) == Sequence(StepPlans(files, Steps(Flashing(!wipe), xmls)))
    ensures PatchXmlsPlan(xmls) == Sequence(StepPlans(files, Steps(Patching, xmls)))
  {
    hide Sequence, StepPlans, Steps, WipeXmlPlan, FlashXmlPlan, PatchXmlPlan;
    PassPlanIsSteps(Erasing, files, xmls);
    PassPlanIsSteps(Flashing(!wipe), files, xmls);
    PassPlanIsSteps(Patching, files, xmls);
    var n := |xmls|;
    assert seq(n, i requires 0 <= i < n => WipeXmlPlan(xmls[i])) == seq(n, i requires 0 <= i < n => XmlPlan(Erasing, files, xmls[i]));
    assert seq(n, i requires 0 <= i < n => FlashXmlPlan(files, wipe, xmls[i]))
      == seq(n, i requires 0 <= i < n => XmlPlan(Flashing(!wipe), files, xmls[i]));
    assert seq(n, i requires 0 <= i < n => PatchXmlPlan(xmls[i])) == seq(n, i requires 0 <= i < n => XmlPlan(Patching, files, xmls[i]));
  }

  lemma PreflightExactly(files: Files, xmls: seq<Xml>)
    ensures Preflight(files, xmls) <==> SuperImagesThere(files, xmls)
  {
    forall x, i | 0 <= x < |xmls| && xmls[x].Document? && 0 <= i < |xmls[x].nodes|
      ensures SuperNodeSound(files, xmls[x].dir, xmls[x].nodes[i]) <==> SuperImageThere(files, xmls[x].dir, xmls[x].nodes[i])
    {
      SuperNodeExactly(files, xmls[x].dir, xmls[x].nodes[i]);
    }
    hide SuperNodeSound, SuperImageThere;
  }

  lemma SuperNodeExactly(files: Files, dir: string, n: Node)
    ensures SuperNodeSound(files, dir, n) <==> SuperImageThere(files, dir, n)
  {
    SplitSuperIs(n.filename);
    SafeJoinExactly(dir, n.filename);
    hide IsSplitSuper, SuperImage, SafeJoin, StaysInside, PlainNames;
  }

  lemma SequenceComplete(files: Files, steps: seq<Step>)
    ensures Sequence(StepPlans(files, steps)).complete <==> AllSound(files, steps)
  {
    hide Sound, StepPlans, Sequence, Carried, Acting;
    var k := FirstUnsound(files, steps);
    StepsCarried(files, steps, k);
    assert steps[..|steps|] == steps;
  }

  /**
   The plan of a mode is what its XMLs ask for. No command is planned when a check before
   the first command fails; otherwise the commands are, in document order, those of the
   acting steps up to the first unsound one, and the plan is complete if there is none.
   */
  lemma ModePlanExactly(mode: Mode, files: Files, programs: seq<Xml>, patches: seq<Xml>)
    ensures var plan, steps := ModePlan(mode, files, programs, patches), RunSteps(mode, programs, patches);
      && (!Ready(mode, files, programs) ==> plan == Plan([], false))
      && (plan.complete <==> Ready(mode, files, programs) && AllSound(files, steps))
      && (Ready(mode, files, programs) ==>
            forall k :: SoundTo(files, steps, k) ==> Carried(Acting(files, steps[..k]), plan.commands))
  {
    PreflightExactly(files, programs);
    PassPlans(files, programs, !mode.KeepData?);
    PassPlans(files, patches, true);
    var erases, flashes, patching := Steps(Erasing, programs), Steps(Flashing(mode.KeepData?), programs), Steps(Patching, patches);
    SequenceComplete(files, erases);
    hide Preflight, SuperImagesThere, WipeErasePlan, FlashXmlsPlan, PatchXmlsPlan, AllSound, Carried, Acting;
    if Ready(mode, files, programs) {
      var first := if mode.Wipe? then erases else [];
      var steps := RunSteps(mode, programs, patches);
      assert Sequence(StepPlans(files, [])) == NOTHING;
      StepPlansConcat(files, first + flashes, patching);
      StepPlansConcat(files, first, flashes);
      assert ModePlan(mode, files, programs, patches) == Sequence(StepPlans(files, steps)) by {
        hide Sequence, StepPlans, Then, Steps;
        ThenAssociates(Sequence(StepPlans(files, first)), Sequence(StepPlans(files, flashes)), Sequence(StepPlans(files, patching)));
      }
      SequenceComplete(files, steps);
      forall k | SoundTo(files, steps, k)
        ensures Carried(Acting(files, steps[..k]), ModePlan(mode, files, programs, patches).commands)
      {
        StepsCarried(files, steps, k);
      }
    }
  }

  /** A run that followed the plan of one XML obeyed its steps. */
  lemma XmlObeyed(files: Files, pass: Pass, xml: Xml, before: seq<Command>, after: seq<Command>, refused: bool, ok: bool)
    requires Followed(before, after, refused, ok, XmlPlan(pass, files, xml))
    ensures Obeyed(files, StepsOf(pass, xml), before, after, refused, ok)
  {
    XmlPlanIsSteps(pass, files, xml);
    StepsObeyed(files, StepsOf(pass, xml), before, after, refused, ok, XmlPlan(pass, files, xml));
  }

  lemma StepsObeyed(files: Files, steps: seq<Step>, before: seq<Command>, after: seq<Command>,
                    refused: bool, ok: bool, plan: Plan)
    requires Followed(before, after, refused, ok, plan) && plan == Sequence(StepPlans(files, steps))
    ensures Obeyed(files, steps, before, after, refused, ok)
  {
    hide *;
    SequenceComplete(files, steps);
    forall k | SoundTo(files, steps, k) ensures 0 <= k <= |steps| && Carried(Acting(files, steps[..k]), plan.commands) {
      InRange(files, steps, k);
      StepsCarried(files, steps, k);
    }
    FollowedIsObeyed(files, steps, before, after, refused, ok, plan);
  }

  lemma InRange(files: Files, steps: seq<Step>, k: int)
    requires SoundTo(files, steps, k)
    ensures 0 <= k <= |steps|
  {
  }

  lemma WipePlanExactly(files: Files, xmls: seq<Xml>)
    ensures WipeErasePlan(xmls).complete <==> AllSound(files, Steps(Erasing, xmls))
    ensures WipeErasePlan(xmls).complete ==> Carried(Acting(files, Steps(Erasing, xmls)), WipeErasePlan(xmls).commands)
  {
    PassPlans(files, xmls, true);
    var steps := Steps(Erasing, xmls);
    SequenceComplete(files, steps);
    hide WipeErasePlan, Steps, StepPlans, Sequence, Carried, Acting;
    if AllSound(files, steps) {
      SoundStepsCarried(files, steps);
    }
  }

  /** The erases before a wiping flash: none of them unless every wiped node is sound. */
  lemma PreEraseObeyed(files: Files, xmls: seq<Xml>, before: seq<Command>, after: seq<Command>, refused: bool, ok: bool)
    requires Followed(before, after, refused, ok, PreErasePlan(Wipe, xmls))
    ensures var steps := Steps(Erasing, xmls);
      if AllSound(files, steps) then Obeyed(files, steps, before, after, refused, ok) else !ok && after == before
  {
    PassPlans(files, xmls, true);
    var steps := Steps(Erasing, xmls);
    SequenceComplete(files, steps);
    hide WipeErasePlan, Obeyed, AllSound, Steps, StepPlans, Sequence;
    if AllSound(files, steps) {
      StepsObeyed(files, steps, before, after, refused, ok, WipeErasePlan(xmls));
    }
  }

  /** A run that followed the plan of its mode obeyed the steps of the run, or sent nothing when a check failed. */
  lemma ModeObeyed(files: Files, mode: Mode, programs: seq<Xml>, patches: seq<Xml>,
                   before: seq<Command>, after: seq<Command>, refused: bool, ok: bool)
    requires Followed(before, after, refused, ok, ModePlan(mode, files, programs, patches))
    ensures if Ready(mode, files, programs) then Obeyed(files, RunSteps(mode, programs, patches), before, after, refused, ok)
            else !ok && after == before
  {
    ModePlanExactly(mode, files, programs, patches);
    hide ModePlan, Ready, Obeyed, AllSound, RunSteps, SoundTo, Acting;
    if Ready(mode, files, programs) {
      FollowedIsObeyed(files, RunSteps(mode, programs, patches), before, after, refused, ok,
                       ModePlan(mode, files, programs, patches));
    }
  }

  /** Following the plan of some steps is obeying the steps. */
  lemma FollowedIsObeyed(files: Files, steps: seq<Step>, before: seq<Command>, after: seq<Command>,
                         refused: bool, ok: bool, plan: Plan)
    requires Followed(before, after, refused, ok, plan)
    requires plan.complete <==> AllSound(files, steps)
    requires forall k :: SoundTo(files, steps, k) ==> Carried(Acting(files, steps[..k]), plan.commands)
    ensures Obeyed(files, steps, before, after, refused, ok)
    ensures ok ==> AllSound(files, steps)
  {
    hide Sound, Acting, Carries;
    var k := FirstUnsound(files, steps);
    assert k == |steps| ==> steps[..k] == steps;
    var j :| 0 <= j <= |plan.commands| && FollowedTo(before, after, refused, ok, plan, j);
    assert after[|before|..] == plan.commands[..j];
    assert ObeyedTo(files, steps, before, after, refused, ok, k);
  }

  // ---- The session ------------------------------------------------------------------------------------------

  /**
   What a run over a plan may have issued: everything when it succeeds, everything
   up to the unsound datum when the data fails, and otherwise the plan up to and
   including the command the device refused.
   */
  ghost predicate Followed(before: seq<Command>, after: seq<Command>, refused: bool, ok: bool, plan: Plan) {
    exists k :: 0 <= k <= |plan.commands| && FollowedTo(before, after, refused, ok, plan, k)
  }

  ghost predicate FollowedTo(before: seq<Command>, after: seq<Command>, refused: bool, ok: bool, plan: Plan, k: nat)
    requires k <= |plan.commands|
  {
    && after == before + plan.commands[..k]
    && (ok ==> !refused && plan.complete && k == |plan.commands|)
    && (!ok && !refused ==> !plan.complete && k == |plan.commands|)
    && (refused ==> !ok && k > 0)
  }

  lemma FollowedAll(before: seq<Command>, plan: Plan, ok: bool)
    requires ok == plan.complete
    ensures Followed(before, before + plan.commands, false, ok, plan)
  {
    assert plan.commands[..|plan.commands|] == plan.commands;
    assert FollowedTo(before, before + plan.commands, false, ok, plan, |plan.commands|);
  }

  /** A node issues at most one command, and none when it is unsound. */
  lemma NodeIssuesOne(files: Files, dir: string, n: Node, wipe: bool)
    ensures var plan := FlashNodePlan(files, dir, wipe, n);
      |plan.commands| <= 1 && (plan.complete || plan.commands == [])
  {
    hide LabelMatches, SafeJoin;
  }

  lemma FollowedWhole(before: seq<Command>, after: seq<Command>, ok: bool, plan: Plan)
    requires Followed(before, after, false, ok, plan)
    ensures after == before + plan.commands && plan.complete == ok
  {
    var k :| 0 <= k <= |plan.commands| && FollowedTo(before, after, false, ok, plan, k);
    assert plan.commands[..|plan.commands|] == plan.commands;
  }

  /** Following a plan after a completed one is following their composition. */
  lemma FollowedThen(start: seq<Command>, middle: seq<Command>, after: seq<Command>, refused: bool, ok: bool,
                     first: Plan, second: Plan)
    requires first.complete && middle == start + first.commands
    requires Followed(middle, after, refused, ok, second)
    ensures Followed(start, after, refused, ok, Then(first, second))
  {
    var k :| 0 <= k <= |second.commands| && FollowedTo(middle, after, refused, ok, second, k);
    var whole := Then(first, second);
    assert whole.commands[..|first.commands| + k] == first.commands + second.commands[..k];
    assert FollowedTo(start, after, refused, ok, whole, |first.commands| + k);
  }

  /** A run that ends at a step of a sequence followed the sequence. */
  lemma FollowedUpTo(before: seq<Command>, after: seq<Command>, refused: bool, plans: seq<Plan>, k: nat)
    requires k <= |plans| && Followed(before, after, refused, false, Sequence(plans[..k]))
    ensures Followed(before, after, refused, false, Sequence(plans))
  {
    SequenceStops(plans, k);
    var part, whole := Sequence(plans[..k]), Sequence(plans);
    var j :| 0 <= j <= |part.commands| && FollowedTo(before, after, refused, false, part, j);
    assert whole.commands[..j] == part.commands[..j];
    assert FollowedTo(before, after, refused, false, whole, j);
  }

  /** A run that stops in the first of two plans followed their composition. */
  lemma FollowedFirst(before: seq<Command>, after: seq<Command>, refused: bool, first: Plan, second: Plan)
    requires Followed(before, after, refused, false, first)
    ensures Followed(before, after, refused, false, Then(first, second))
  {
    var k :| 0 <= k <= |first.commands| && FollowedTo(before, after, refused, false, first, k);
    var whole := Then(first, second);
    assert whole.commands[..k] == first.commands[..k];
    assert FollowedTo(before, after, refused, false, whole, k);
  }

  class EdlSession {
    const files: Files
    /** Every command sent to the device, in order. */
    var issued: seq<Command>
    /** Whether the device refused the last of them. */
    var refused: bool

    constructor (files: Files)
      ensures this.files == files && issued == [] && !refused
    {
      this.files := files;
      issued := [];
      refused := false;
    }

    /** Send one command; the device acknowledges it or not. */
    method Issue(c: Command) returns (ok: bool)
      requires !refused
      modifies this
      ensures issued == old(issued) + [c] && refused == !ok
    {
      issued := issued + [c];
      ok := *;
      refused := !ok;
    }

    /** Run a plan of at most one command. */
    method FollowOne(plan: Plan) returns (ok: bool)
      requires !refused && |plan.commands| <= 1 && (plan.complete || plan.commands == [])
      modifies this
      ensures Followed(old(issued), issued, refused, ok, plan)
    {
      FollowedAll(issued, plan, plan.complete);
      if plan.commands == [] {
        assert issued + [] == issued;
        return plan.complete;
      }
      assert plan.commands[..1] == [plan.commands[0]] == plan.commands;
      ok := Issue(plan.commands[0]);
      assert FollowedTo(old(issued), issued, refused, ok, plan, 1);
    }

    /** `collect_wipe_erase_plan`: every erase, or None when any wiped node is unsound. */
    method CollectWipeErasePlan(xmls: seq<Xml>) returns (plan: Option<seq<Command>>)
      ensures plan.Some? <==> WipeErasePlan(xmls).complete
      ensures plan.Some? ==> plan.value == WipeErasePlan(xmls).commands
      ensures plan.Some? <==> AllSound(files, Steps(Erasing, xmls))
      ensures plan.Some? ==> Carried(Acting(files, Steps(Erasing, xmls)), plan.value)
    {
      WipePlanExactly(files, xmls);
      hide AllSound, Steps, Carried, Acting;
      var commands: seq<Command> := [];
      ghost var plans := seq(|xmls|, i requires 0 <= i < |xmls| => WipeXmlPlan(xmls[i]));
      assert Sequence(plans[..0]) == NOTHING;
      hide Sequence, WipeNodesPlan;
      for i := 0 to |xmls|
        invariant Sequence(plans[..i]) == Plan(commands, true)
      {
        SequenceNext(plans, i);
        SequenceStops(plans, i + 1);
        if xmls[i].Unreadable? {
          return None;
        }
        var nodes := xmls[i].nodes;
        var inXml := CollectWipeNodes(nodes);
        if inXml.None? {
          return None;
        }
        commands := commands + inXml.value;
      }
      assert plans[..|xmls|] == plans;
      return Some(commands);
    }

    method CollectWipeNodes(nodes: seq<Node>) returns (plan: Option<seq<Command>>)
      ensures plan.Some? <==> WipeNodesPlan(nodes).complete
      ensures plan.Some? ==> plan.value == WipeNodesPlan(nodes).commands
    {
      var commands: seq<Command> := [];
      ghost var plans := seq(|nodes|, j requires 0 <= j < |nodes| => WipeNodePlan(nodes[j]));
      for j := 0 to |nodes|
        invariant Sequence(plans[..j]) == Plan(commands, true)
      {
        assert plans[..j + 1][..j] == plans[..j];
        SequenceStops(plans, j + 1);
        var step := WipeNodePlan(nodes[j]);
        if !step.complete {
          return None;
        }
        commands := commands + step.commands;
      }
      assert plans[..|nodes|] == plans;
      return Some(commands);
    }

    /** `pre_erase_wipe_labels`: nothing is erased unless every wiped node is sound. */
    method PreEraseWipeLabels(xmls: seq<Xml>) returns (ok: bool)
      requires !refused
      modifies this
      ensures Followed(old(issued), issued, refused, ok, PreErasePlan(Wipe, xmls))
      ensures var steps := Steps(Erasing, xmls);
        if AllSound(files, steps) then Obeyed(files, steps, old(issued), issued, refused, ok)
        else !ok && issued == old(issued)
    {
      hide Steps, AllSound, Obeyed, Carried, Acting;
      var plan := CollectWipeErasePlan(xmls);
      if plan.None? {
        FollowedAll(issued, UNSOUND, false);
        assert issued + [] == issued;
        PreEraseObeyed(files, xmls, old(issued), issued, refused, false);
        return false;
      }
      var commands := plan.value;
      for i := 0 to |commands|
        invariant !refused && issued == old(issued) + commands[..i]
      {
        ok := Issue(commands[i]);
        assert commands[..i + 1] == commands[..i] + [commands[i]];
        if !ok {
          assert FollowedTo(old(issued), issued, refused, ok, PreErasePlan(Wipe, xmls), i + 1);
          PreEraseObeyed(files, xmls, old(issued), issued, refused, ok);
          return;
        }
      }
      assert commands[..|commands|] == commands;
      FollowedAll(old(issued), PreErasePlan(Wipe, xmls), true);
      PreEraseObeyed(files, xmls, old(issued), issued, refused, true);
      return true;
    }

    /** `flash_one_rawprogram`. */
    method FlashOneRawprogram(xml: Xml, wipe: bool) returns (ok: bool)
      requires !refused
      modifies this
      ensures Followed(old(issued), issued, refused, ok, FlashXmlPlan(files, wipe, xml))
      ensures Obeyed(files, StepsOf(Flashing(!wipe), xml), old(issued), issued, refused, ok)
    {
      hide Obeyed, StepsOf;
      if xml.Unreadable? {
        FollowedAll(issued, UNSOUND, false);
        assert issued + [] == issued;
        XmlObeyed(files, Flashing(!wipe), xml, old(issued), issued, refused, false);
        return false;
      }
      var nodes := xml.nodes;
      ghost var plans := seq(|nodes|, i requires 0 <= i < |nodes| => FlashNodePlan(files, xml.dir, wipe, nodes[i]));
      assert issued + [] == issued;
      hide FlashNodePlan, Followed;
      for i := 0 to |nodes|
        invariant !refused && Sequence(plans[..i]).complete
        invariant issued == old(issued) + Sequence(plans[..i]).commands
      {
        ghost var before := issued;
        NodeIssuesOne(files, xml.dir, nodes[i], wipe);
        ok := FollowOne(FlashNodePlan(files, xml.dir, wipe, nodes[i]));
        assert plans[..i + 1][..i] == plans[..i];
        FollowedThen(old(issued), before, issued, refused, ok, Sequence(plans[..i]), plans[i]);
        if !ok {
          FollowedUpTo(old(issued), issued, refused, plans, i + 1);
          XmlObeyed(files, Flashing(!wipe), xml, old(issued), issued, refused, ok);
          return;
        }
        FollowedWhole(old(issued), issued, ok, Sequence(plans[..i + 1]));
      }
      assert plans[..|nodes|] == plans;
      FollowedAll(old(issued), Sequence(plans), true);
      XmlObeyed(files, Flashing(!wipe), xml, old(issued), issued, refused, true);
      return true;
    }

    /** `apply_patch_xml`. */
    method ApplyPatchXml(xml: Xml) returns (ok: bool)
      requires !refused
      modifies this
      ensures Followed(old(issued), issued, refused, ok, PatchXmlPlan(xml))
      ensures Obeyed(files, StepsOf(Patching, xml), old(issued), issued, refused, ok)
    {
      hide Obeyed, StepsOf;
      if xml.Unreadable? {
        FollowedAll(issued, UNSOUND, false);
        assert issued + [] == issued;
        XmlObeyed(files, Patching, xml, old(issued), issued, refused, false);
        return false;
      }
      var nodes := xml.nodes;
      ghost var plans := seq(|nodes|, i requires 0 <= i < |nodes| => PatchPlan(nodes[i]));
      assert issued + [] == issued;
      for i := 0 to |nodes|
        invariant !refused && Sequence(plans[..i]).complete
        invariant issued == old(issued) + Sequence(plans[..i]).commands
      {
        ghost var before := issued;
        ok := FollowOne(PatchPlan(nodes[i]));
        assert plans[..i + 1][..i] == plans[..i];
        FollowedThen(old(issued), before, issued, refused, ok, Sequence(plans[..i]), plans[i]);
        if !ok {
          FollowedUpTo(old(issued), issued, refused, plans, i + 1);
          XmlObeyed(files, Patching, xml, old(issued), issued, refused, ok);
          return;
        }
        FollowedWhole(old(issued), issued, ok, Sequence(plans[..i + 1]));
      }
      assert plans[..|nodes|] == plans;
      FollowedAll(old(issued), Sequence(plans), true);
      XmlObeyed(files, Patching, xml, old(issued), issued, refused, true);
      return true;
    }

    /** The program pass and the patch pass, in order. */
    method FlashAndPatch(programs: seq<Xml>, patches: seq<Xml>, wipe: bool) returns (ok: bool)
      requires !refused
      modifies this
      ensures Followed(old(issued), issued, refused, ok, Then(FlashXmlsPlan(files, wipe, programs), PatchXmlsPlan(patches)))
    {
      ghost var start := issued;
      ghost var flash, patch := FlashXmlsPlan(files, wipe, programs), PatchXmlsPlan(patches);
      hide FlashXmlsPlan, PatchXmlsPlan;
      ok := FlashPrograms(programs, wipe);
      if !ok {
        FollowedFirst(start, issued, refused, flash, patch);
        return;
      }
      assert !refused;
      FollowedWhole(start, issued, ok, flash);
      ghost var flashed := issued;
      ok := ApplyPatches(patches);
      FollowedThen(start, flashed, issued, refused, ok, flash, patch);
    }

    method FlashPrograms(programs: seq<Xml>, wipe: bool) returns (ok: bool)
      requires !refused
      modifies this
      ensures Followed(old(issued), issued, refused, ok, FlashXmlsPlan(files, wipe, programs))
    {
      ghost var plans := seq(|programs|, i requires 0 <= i < |programs| => FlashXmlPlan(files, wipe, programs[i]));
      assert issued + [] == issued;
      hide FlashXmlPlan, Followed;
      for i := 0 to |programs|
        invariant !refused && Sequence(plans[..i]).complete
        invariant issued == old(issued) + Sequence(plans[..i]).commands
      {
        ghost var before := issued;
        ok := FlashOneRawprogram(programs[i], wipe);
        assert plans[..i + 1][..i] == plans[..i];
        FollowedThen(old(issued), before, issued, refused, ok, Sequence(plans[..i]), plans[i]);
        if !ok {
          FollowedUpTo(old(issued), issued, refused, plans, i + 1);
          return;
        }
        FollowedWhole(old(issued), issued, ok, Sequence(plans[..i + 1]));
      }
      assert plans[..|programs|] == plans;
      FollowedAll(old(issued), Sequence(plans), true);
      return true;
    }

    method ApplyPatches(patches: seq<Xml>) returns (ok: bool)
      requires !refused
      modifies this
      ensures Followed(old(issued), issued, refused, ok, PatchXmlsPlan(patches))
    {
      ghost var plans := seq(|patches|, i requires 0 <= i < |patches| => PatchXmlPlan(patches[i]));
      assert issued + [] == issued;
      hide PatchXmlPlan, Followed;
      for i := 0 to |patches|
        invariant !refused && Sequence(plans[..i]).complete
        invariant issued == old(issued) + Sequence(plans[..i]).commands
      {
        ghost var before := issued;
        ok := ApplyPatchXml(patches[i]);
        assert plans[..i + 1][..i] == plans[..i];
        FollowedThen(old(issued), before, issued, refused, ok, Sequence(plans[..i]), plans[i]);
        if !ok {
          FollowedUpTo(old(issued), issued, refused, plans, i + 1);
          return;
        }
        FollowedWhole(old(issued), issued, ok, Sequence(plans[..i + 1]));
      }
      assert plans[..|patches|] == plans;
      FollowedAll(old(issued), Sequence(plans), true);
      return true;
    }

    /**
     `flash_rawprogram_with_wipe`: the erases, the programs and the patches the XMLs ask
     for are sent in order, to the end or to the first unsound node; a missing split-super
     image, or a wiped node without sound coordinates in any XML, means that no command
     was sent at all.
     */
    method FlashRawprogramWithWipe(programs: seq<Xml>, patches: seq<Xml>, wipe: bool) returns (ok: bool)
      requires !refused
      modifies this
      ensures Followed(old(issued), issued, refused, ok, ModePlan(if wipe then Wipe else KeepData, files, programs, patches))
      ensures var mode := if wipe then Wipe else KeepData;
        if Ready(mode, files, programs) then
          Obeyed(files, RunSteps(mode, programs, patches), old(issued), issued, refused, ok)
        else !ok && issued == old(issued)
    {
      hide Obeyed, RunSteps, Ready;
      ghost var mode := if wipe then Wipe else KeepData;
      ghost var rest := Then(FlashXmlsPlan(files, wipe, programs), PatchXmlsPlan(patches));
      assert issued + [] == issued;
      if !Preflight(files, programs) {
        FollowedAll(issued, UNSOUND, false);
        ModeObeyed(files, mode, programs, patches, old(issued), issued, refused, false);
        return false;
      }
      if wipe {
        ok := PreEraseWipeLabels(programs);
        if !ok {
          FollowedFirst(old(issued), issued, refused, PreErasePlan(mode, programs), rest);
          ModeObeyed(files, mode, programs, patches, old(issued), issued, refused, ok);
          return;
        }
        FollowedWhole(old(issued), issued, ok, PreErasePlan(mode, programs));
      }
      ghost var erased := issued;
      ok := FlashAndPatch(programs, patches, wipe);
      FollowedThen(old(issued), erased, issued, refused, ok, PreErasePlan(mode, programs), rest);
      ModeObeyed(files, mode, programs, patches, old(issued), issued, refused, ok);
    }

    /** `flash_rawprogram_verbatim`. */
    method FlashRawprogramVerbatim(programs: seq<Xml>, patches: seq<Xml>) returns (ok: bool)
      requires !refused
      modifies this
      ensures Followed(old(issued), issued, refused, ok, ModePlan(Verbatim, files, programs, patches))
      ensures if Ready(Verbatim, files, programs) then
          Obeyed(files, RunSteps(Verbatim, programs, patches), old(issued), issued, refused, ok)
        else !ok && issued == old(issued)
    {
      hide Obeyed, RunSteps, Ready;
      ghost var rest := Then(FlashXmlsPlan(files, true, programs), PatchXmlsPlan(patches));
      assert issued + [] == issued;
      if !Preflight(files, programs) {
        FollowedAll(issued, UNSOUND, false);
        ModeObeyed(files, Verbatim, programs, patches, old(issued), issued, refused, false);
        return false;
      }
      ok := FlashAndPatch(programs, patches, true);
      FollowedThen(old(issued), old(issued), issued, refused, ok, NOTHING, rest);
      ModeObeyed(files, Verbatim, programs, patches, old(issued), issued, refused, ok);
    }
  }
}
