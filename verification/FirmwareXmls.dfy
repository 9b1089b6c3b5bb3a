/**
 Choosing the rawprogram and patch XMLs of a firmware directory
 (crates/ltbox-device/src/edl.rs). The directory listing comes in any order; the
 choice must not depend on it. Paths of one directory are their file names, in ASCII.
 */
module FirmwareXmls {
  import opened Text
  import opened Wrappers

  predicate Contains(s: string, part: string) {
    exists i :: 0 <= i <= |s| && StartsWith(s[i..], part)
  }

  // ---- Sorting out one name ---------------------------------------------------------------

  datatype Kind = Skipped | PlainRawprogram0 | Other | Persist | Devinfo | Patch

  function RawprogramFamily(lower: string): Kind {
    if lower in {"rawprogram_unsparse0.xml", "rawprogram_unsparse0-half.xml", "rawprogram_write_persist_unsparse0.xml",
                 "rawprogram_save_persist_unsparse0.xml", "rawprogram_save_persist_ota_unsparse0.xml"} then Persist
    else if lower in {"rawprogram4.xml", "rawprogram4_write_devinfo.xml", "rawprogram_unsparse4.xml"} then Devinfo
    else Other
  }

  function KindOf(name: string): Kind {
    var lower := Lower(name);
    if !EndsWith(lower, ".xml") then Skipped
    else if StartsWith(lower, "rawprogram") then
      if Contains(name, "WIPE_PARTITIONS") || Contains(name, "BLANK_GPT") then Skipped
      else if name == "rawprogram0.xml" then PlainRawprogram0
      else RawprogramFamily(lower)
    else if StartsWith(lower, "patch") then Patch
    else Skipped
  }

  // ---- Orders ---------------------------------------------------------------------------------

  predicate NameLeq(a: string, b: string) {
    a == [] || (b != [] && (a[0] < b[0] || (a[0] == b[0] && NameLeq(a[1..], b[1..]))))
  }

  /** `filename_rank`: the place among the preferred names, or behind them all. */
  function Rank(name: string, preferred: seq<string>): nat {
    if preferred == [] then 0
    else if Lower(name) == preferred[0] then 0
    else 1 + Rank(name, preferred[1..])
  }

  /** By rank, then by name; with nothing preferred, by name alone. */
  predicate Leq(a: string, b: string, preferred: seq<string>) {
    Rank(a, preferred) < Rank(b, preferred) || (Rank(a, preferred) == Rank(b, preferred) && NameLeq(a, b))
  }

  lemma {:induction false} NameLeqIsOrder(a: string, b: string, c: string)
    ensures NameLeq(a, a)
    ensures NameLeq(a, b) || NameLeq(b, a)
    ensures NameLeq(a, b) && NameLeq(b, a) ==> a == b
    ensures NameLeq(a, b) && NameLeq(b, c) ==> NameLeq(a, c)
  {
    if a != [] {
      NameLeqIsOrder(a[1..], if b != [] then b[1..] else [], if c != [] then c[1..] else []);
      assert a == [a[0]] + a[1..];
      assert b != [] ==> b == [b[0]] + b[1..];
    }
  }

  lemma SamePrefixSameHead(a: string, b: string, k: nat)
    requires 0 < k <= |a| && k <= |b| && a[..k] == b[..k]
    ensures a[0] == b[0]
  {
    assert a[..k][0] == a[0] && b[..k][0] == b[0];
  }

  /** Names are ordered as dictionaries are: a prefix first, otherwise by the first character that differs. */
  lemma {:induction false} NameLeqExactly(a: string, b: string)
    ensures NameLeq(a, b) <==> a <= b || exists k :: DifferAt(a, b, k) && a[k] < b[k]
  {
    if a != [] && b != [] && a[0] == b[0] {
      var x, y := a[1..], b[1..];
      NameLeqExactly(x, y);
      assert a == [a[0]] + x && b == [b[0]] + y;
      forall k | DifferAt(x, y, k) ensures DifferAt(a, b, k + 1) {
        assert a[..k + 1] == [a[0]] + x[..k] && b[..k + 1] == [b[0]] + y[..k];
      }
      forall k | DifferAt(a, b, k) ensures k > 0 && DifferAt(x, y, k - 1) {
        assert x[..k - 1] == a[..k][1..] && y[..k - 1] == b[..k][1..];
      }
    } else if a != [] && b != [] {
      assert DifferAt(a, b, 0);
      forall k | DifferAt(a, b, k) ensures k == 0 {
        if k > 0 {
          SamePrefixSameHead(a, b, k);
        }
      }
    }
  }

  /** The strings agree up to `k` and differ there. */
  predicate DifferAt(a: string, b: string, k: int) {
    0 <= k < |a| && k < |b| && a[..k] == b[..k] && a[k] != b[k]
  }

  predicate Sorted(names: seq<string>, preferred: seq<string>) {
    forall i, j :: 0 <= i < j < |names| ==> Leq(names[i], names[j], preferred)
  }

  function Insert(name: string, names: seq<string>, preferred: seq<string>): seq<string> {
    if names == [] || Leq(name, names[0], preferred) then [name] + names
    else [names[0]] + Insert(name, names[1..], preferred)
  }

  function Sort(names: seq<string>, preferred: seq<string>): seq<string> {
    if names == [] then [] else Insert(names[0], Sort(names[1..], preferred), preferred)
  }

  lemma LeqIsOrder(a: string, b: string, c: string, preferred: seq<string>)
    ensures Leq(a, a, preferred) && (Leq(a, b, preferred) || Leq(b, a, preferred))
    ensures Leq(a, b, preferred) && Leq(b, a, preferred) ==> a == b
    ensures Leq(a, b, preferred) && Leq(b, c, preferred) ==> Leq(a, c, preferred)
  {
    NameLeqIsOrder(a, b, c);
    hide NameLeq, Rank;
  }

  lemma {:induction false} InsertMembers(name: string, names: seq<string>, preferred: seq<string>)
    ensures multiset(Insert(name, names, preferred)) == multiset(names) + multiset{name}
  {
    hide Leq;
    if names != [] {
      InsertMembers(name, names[1..], preferred);
      assert names == [names[0]] + names[1..];
    }
  }

  lemma {:induction false} InsertSorts(name: string, names: seq<string>, preferred: seq<string>)
    requires Sorted(names, preferred)
    ensures Sorted(Insert(name, names, preferred), preferred)
  {
    hide Leq;
    if names == [] {
    } else if Leq(name, names[0], preferred) {
      forall j | 0 <= j < |names| ensures Leq(name, names[j], preferred) {
        LeqIsOrder(name, names[0], names[j], preferred);
      }
    } else {
      var rest := Insert(name, names[1..], preferred);
      InsertSorts(name, names[1..], preferred);
      LeqIsOrder(name, names[0], names[0], preferred);
      forall j | 0 <= j < |rest| ensures Leq(names[0], rest[j], preferred) {
        InsertedFrom(name, names[1..], preferred, j);
      }
    }
  }

  lemma InsertedFrom(name: string, names: seq<string>, preferred: seq<string>, j: nat)
    requires j < |Insert(name, names, preferred)|
    ensures Insert(name, names, preferred)[j] == name || exists i :: 0 <= i < |names| && names[i] == Insert(name, names, preferred)[j]
  {
    InsertMembers(name, names, preferred);
    hide Insert;
    assert Insert(name, names, preferred)[j] in multiset(Insert(name, names, preferred));
  }

  /** Sorting gives a sorted permutation. */
  lemma {:induction false} SortSorts(names: seq<string>, preferred: seq<string>)
    ensures Sorted(Sort(names, preferred), preferred)
    ensures multiset(Sort(names, preferred)) == multiset(names)
  {
    if names != [] {
      SortSorts(names[1..], preferred);
      InsertSorts(names[0], Sort(names[1..], preferred), preferred);
      InsertMembers(names[0], Sort(names[1..], preferred), preferred);
      assert names == [names[0]] + names[1..];
    }
  }

  lemma HeadIsLeast(names: seq<string>, n: string, preferred: seq<string>)
    requires Sorted(names, preferred) && n in multiset(names)
    ensures Leq(names[0], n, preferred)
  {
    LeqIsOrder(n, n, n, preferred);
    hide Leq;
    var i :| 0 <= i < |names| && names[i] == n;
  }

  lemma TailSorted(names: seq<string>, preferred: seq<string>)
    requires names != [] && Sorted(names, preferred)
    ensures Sorted(names[1..], preferred)
  {
    hide Leq;
  }

  lemma TailMultiset(names: seq<string>)
    requires names != []
    ensures multiset(names[1..]) == multiset(names) - multiset{names[0]}
  {
    assert names == [names[0]] + names[1..];
  }

  /** There is only one sorted permutation. */
  lemma {:induction false} SortedIsUnique(a: seq<string>, b: seq<string>, preferred: seq<string>)
    requires Sorted(a, preferred) && Sorted(b, preferred) && multiset(a) == multiset(b)
    ensures a == b
  {
    assert |a| == |multiset(a)| == |multiset(b)| == |b|;
    if a != [] {
      assert a[0] in multiset(a) && b[0] in multiset(b);
      hide Leq, Sorted;
      HeadIsLeast(a, b[0], preferred);
      HeadIsLeast(b, a[0], preferred);
      LeqIsOrder(a[0], b[0], a[0], preferred);
      TailSorted(a, preferred);
      TailSorted(b, preferred);
      TailMultiset(a);
      TailMultiset(b);
      SortedIsUnique(a[1..], b[1..], preferred);
      assert a == [a[0]] + a[1..] && b == [b[0]] + b[1..];
    }
  }

  lemma SortIgnoresOrder(a: seq<string>, b: seq<string>, preferred: seq<string>)
    requires multiset(a) == multiset(b)
    ensures Sort(a, preferred) == Sort(b, preferred)
  {
    SortSorts(a, preferred);
    SortSorts(b, preferred);
    SortedIsUnique(Sort(a, preferred), Sort(b, preferred), preferred);
  }

  /** `select_one_by_name_priority`. */
  function SelectOne(names: seq<string>, preferred: seq<string>): Option<string> {
    var sorted := Sort(names, preferred);
    if sorted == [] then None else Some(sorted[0])
  }

  /** The selected name is the only minimal one; there is none only among no names. */
  lemma SelectOneIsMinimal(names: seq<string>, preferred: seq<string>)
    ensures SelectOne(names, preferred).None? <==> names == []
    ensures SelectOne(names, preferred).Some? ==>
      var best := SelectOne(names, preferred).value;
      best in names && forall n :: n in names ==> Leq(best, n, preferred) && (Leq(n, best, preferred) ==> n == best)
  {
    var sorted := Sort(names, preferred);
    SortSorts(names, preferred);
    assert |sorted| == |multiset(sorted)| == |multiset(names)| == |names|;
    hide Leq, Sort;
    if sorted != [] {
      assert sorted[0] in multiset(names);
      forall n | n in names ensures Leq(sorted[0], n, preferred) && (Leq(n, sorted[0], preferred) ==> n == sorted[0]) {
        assert n in multiset(sorted);
        var i :| 0 <= i < |sorted| && sorted[i] == n;
        LeqIsOrder(n, sorted[0], n, preferred);
      }
    }
  }

  // ---- The choice ------------------------------------------------------------------------------------

  function PersistPriority(allowDp: bool): seq<string> {
    if allowDp then
      ["rawprogram_write_persist_unsparse0.xml", "rawprogram_unsparse0.xml", "rawprogram_save_persist_ota_unsparse0.xml",
       "rawprogram_save_persist_unsparse0.xml", "rawprogram_unsparse0-half.xml"]
    else
      ["rawprogram_save_persist_ota_unsparse0.xml", "rawprogram_save_persist_unsparse0.xml",
       "rawprogram_unsparse0-half.xml", "rawprogram_unsparse0.xml", "rawprogram_write_persist_unsparse0.xml"]
  }

  function DevinfoPriority(allowDp: bool): seq<string> {
    if allowDp then ["rawprogram4_write_devinfo.xml", "rawprogram4.xml", "rawprogram_unsparse4.xml"]
    else ["rawprogram4.xml", "rawprogram_unsparse4.xml", "rawprogram4_write_devinfo.xml"]
  }

  /** The listed names of a kind, in the order listed. */
  function OfKind(listing: seq<string>, kind: Kind): seq<string> {
    if listing == [] then []
    else
      var last := listing[|listing| - 1];
      OfKind(listing[..|listing| - 1], kind) + (if KindOf(last) == kind then [last] else [])
  }

  lemma {:induction false} OfKindMembers(listing: seq<string>, kind: Kind)
    ensures forall n :: multiset(OfKind(listing, kind))[n] == if KindOf(n) == kind then multiset(listing)[n] else 0
  {
    hide KindOf;
    if listing != [] {
      OfKindMembers(listing[..|listing| - 1], kind);
      assert listing == listing[..|listing| - 1] + [listing[|listing| - 1]];
    }
  }

  function OptionSeq(o: Option<string>): seq<string> {
    if o.Some? then [o.value] else []
  }

  /** The last of the listed names of a kind. */
  function LastOf(names: seq<string>): Option<string> {
    if names == [] then None else Some(names[|names| - 1])
  }

  /** The rawprogram list before it is sorted. */
  function RawXmls(listing: seq<string>, allowDp: bool): seq<string> {
    var persist := SelectOne(OfKind(listing, Persist), PersistPriority(allowDp));
    OfKind(listing, Other)
    + OptionSeq(if persist.Some? then persist else LastOf(OfKind(listing, PlainRawprogram0)))
    + OptionSeq(SelectOne(OfKind(listing, Devinfo), DevinfoPriority(allowDp)))
  }

  datatype Error = ReferencesDisabled(xml: string, image: string) | ImageMissing(xml: string, image: string) | Unreadable(xml: string)

  /** The `filename` attributes of an XML's program nodes in document order, if it can be read and parsed. */
  type Documents = string -> Option<seq<string>>

  predicate IsDpImage(filename: string) {
    Lower(filename) == "persist.img" || Lower(filename) == "devinfo.img"
  }

  /** The first objection to an XML's references. */
  function Objection(xml: string, files: seq<string>, present: string -> bool, allowDp: bool): Option<Error> {
    if files == [] then None
    else if IsDpImage(files[0]) && !allowDp then Some(ReferencesDisabled(xml, files[0]))
    else if IsDpImage(files[0]) && !present(files[0]) then Some(ImageMissing(xml, files[0]))
    else Objection(xml, files[1..], present, allowDp)
  }

  function Validate(xmls: seq<string>, docs: Documents, present: string -> bool, allowDp: bool): Option<Error> {
    if xmls == [] then None
    else
      var files := docs(xmls[0]);
      if files.None? then Some(Unreadable(xmls[0]))
      else
        var e := Objection(xmls[0], files.value, present, allowDp);
        if e.Some? then e else Validate(xmls[1..], docs, present, allowDp)
  }

  /** An XML whose references can be flashed. */
  predicate Usable(xml: string, docs: Documents, present: string -> bool, allowDp: bool) {
    docs(xml).Some? && forall i :: 0 <= i < |docs(xml).value| && IsDpImage(docs(xml).value[i]) ==>
                         allowDp && present(docs(xml).value[i])
  }

  /** The error names a reference or document that may not be flashed, and why. */
  ghost predicate Justified(e: Error, docs: Documents, present: string -> bool, allowDp: bool) {
    match e
    case Unreadable(xml) => docs(xml).None?
    case ReferencesDisabled(xml, image) =>
      docs(xml).Some? && image in docs(xml).value && Lower(image) in {"persist.img", "devinfo.img"} && !allowDp
    case ImageMissing(xml, image) =>
      && docs(xml).Some? && image in docs(xml).value && Lower(image) in {"persist.img", "devinfo.img"}
      && allowDp && !present(image)
  }

  lemma {:induction false} ObjectionJustified(xml: string, files: seq<string>, present: string -> bool, allowDp: bool, docs: Documents)
    requires docs(xml).Some? && forall f :: f in files ==> f in docs(xml).value
    requires Objection(xml, files, present, allowDp).Some?
    ensures var e := Objection(xml, files, present, allowDp).value; e.xml == xml && Justified(e, docs, present, allowDp)
  {
    assert files[0] in files;
    if !IsDpImage(files[0]) || (allowDp && present(files[0])) {
      ObjectionJustified(xml, files[1..], present, allowDp, docs);
    }
  }

  lemma {:induction false} ErrorJustified(xmls: seq<string>, docs: Documents, present: string -> bool, allowDp: bool)
    requires Validate(xmls, docs, present, allowDp).Some?
    ensures var e := Validate(xmls, docs, present, allowDp).value; e.xml in xmls && Justified(e, docs, present, allowDp)
  {
    var files := docs(xmls[0]);
    if files.Some? && Objection(xmls[0], files.value, present, allowDp).Some? {
      ObjectionJustified(xmls[0], files.value, present, allowDp, docs);
    } else if files.Some? {
      ErrorJustified(xmls[1..], docs, present, allowDp);
    }
  }

  lemma {:induction false} ObjectionExactly(xml: string, files: seq<string>, present: string -> bool, allowDp: bool)
    ensures Objection(xml, files, present, allowDp).None? <==>
      forall i :: 0 <= i < |files| && IsDpImage(files[i]) ==> allowDp && present(files[i])
  {
    hide IsDpImage;
    if files != [] {
      ObjectionExactly(xml, files[1..], present, allowDp);
      assert forall i :: 0 < i < |files| ==> files[i] == files[1..][i - 1];
    }
  }

  lemma {:induction false} ValidateExactly(xmls: seq<string>, docs: Documents, present: string -> bool, allowDp: bool)
    ensures Validate(xmls, docs, present, allowDp).None? <==> forall x :: x in xmls ==> Usable(x, docs, present, allowDp)
  {
    if xmls != [] {
      var files := docs(xmls[0]);
      if files.Some? {
        ObjectionExactly(xmls[0], files.value, present, allowDp);
      }
      hide Objection;
      ValidateExactly(xmls[1..], docs, present, allowDp);
      assert xmls == [xmls[0]] + xmls[1..];
      assert Usable(xmls[0], docs, present, allowDp) <==>
        files.Some? && Objection(xmls[0], files.value, present, allowDp).None?;
      hide Usable;
    }
  }

  function Collected(listing: seq<string>, allowDp: bool, docs: Documents, present: string -> bool)
    : Result<(seq<string>, seq<string>), Error>
  {
    var raw := Sort(RawXmls(listing, allowDp), []);
    var e := Validate(raw, docs, present, allowDp);
    if e.Some? then Err(e.value) else Ok((raw, Sort(OfKind(listing, Patch), [])))
  }

  lemma OfKindSnoc(listing: seq<string>, i: nat, kind: Kind)
    requires i < |listing|
    ensures OfKind(listing[..i + 1], kind) ==
      OfKind(listing[..i], kind) + (if KindOf(listing[i]) == kind then [listing[i]] else [])
  {
    hide KindOf;
    assert listing[..i + 1][..i] == listing[..i];
  }

  /** Sort the listing out by kind. */
  method SortOut(listing: seq<string>)
    returns (raw: seq<string>, patch: seq<string>, persist: seq<string>, devinfo: seq<string>, zero: Option<string>)
    ensures raw == OfKind(listing, Other) && patch == OfKind(listing, Patch)
    ensures persist == OfKind(listing, Persist) && devinfo == OfKind(listing, Devinfo)
    ensures zero == LastOf(OfKind(listing, PlainRawprogram0))
  {
    raw, patch, persist, devinfo, zero := [], [], [], [], None;
    hide KindOf;
    assert forall kind :: OfKind(listing[..0], kind) == [];
    hide OfKind;
    for i := 0 to |listing|
      invariant raw == OfKind(listing[..i], Other) && patch == OfKind(listing[..i], Patch)
      invariant persist == OfKind(listing[..i], Persist) && devinfo == OfKind(listing[..i], Devinfo)
      invariant zero == LastOf(OfKind(listing[..i], PlainRawprogram0))
    {
      forall kind: Kind {
        OfKindSnoc(listing, i, kind);
      }
      var name := listing[i];
      match KindOf(name)
      case Skipped =>
      case PlainRawprogram0 => zero := Some(name);
      case Other => raw := raw + [name];
      case Persist => persist := persist + [name];
      case Devinfo => devinfo := devinfo + [name];
      case Patch => patch := patch + [name];
    }
    assert listing[..|listing|] == listing;
  }

  /** `collect_firmware_xmls_for_flash`, on a directory that lists. */
  method CollectFirmwareXmls(listing: seq<string>, allowDp: bool, docs: Documents, present: string -> bool)
    returns (r: Result<(seq<string>, seq<string>), Error>)
    ensures r == Collected(listing, allowDp, docs, present)
    ensures r.Ok? ==> CollectedByName(listing, allowDp, docs, present, r.value.0, r.value.1)
    ensures r.Ok? ==> InOrder(r.value.0) && InOrder(r.value.1)
    ensures r.Err? ==> r.error.xml in listing && Flashable(r.error.xml) && Justified(r.error, docs, present, allowDp)
  {
    var raw, patch, persist, devinfo, zero := SortOut(listing);
    hide OfKind, SelectOne, Sort, Validate, PersistPriority, DevinfoPriority;
    var selected := SelectOne(persist, PersistPriority(allowDp));
    if selected.Some? {
      raw := raw + [selected.value];
    } else if zero.Some? {
      raw := raw + [zero.value];
    }
    var info := SelectOne(devinfo, DevinfoPriority(allowDp));
    if info.Some? {
      raw := raw + [info.value];
    }
    assert raw == RawXmls(listing, allowDp);
    raw := Sort(raw, []);
    patch := Sort(patch, []);
    var e := Validate(raw, docs, present, allowDp);
    r := if e.Some? then Err(e.value) else Ok((raw, patch));
    OutcomeByName(listing, allowDp, docs, present);
  }

  // ---- What is chosen ---------------------------------------------------------------------------------------

  /** The file of a family that is used: listed, and first in rank and then in name among those listed. */
  predicate Best(listing: seq<string>, kind: Kind, preferred: seq<string>, name: string) {
    && name in listing && KindOf(name) == kind
    && forall n :: n in listing && KindOf(n) == kind ==> Leq(name, n, preferred)
  }

  lemma SelectedIsBest(listing: seq<string>, kind: Kind, preferred: seq<string>)
    ensures forall n :: SelectOne(OfKind(listing, kind), preferred) == Some(n) <==> Best(listing, kind, preferred, n)
    ensures SelectOne(OfKind(listing, kind), preferred).None? <==> !exists n :: n in listing && KindOf(n) == kind
  {
    var names := OfKind(listing, kind);
    MembersOfKind(listing, kind);
    SelectOneIsMinimal(names, preferred);
    hide KindOf, Leq, SelectOne, OfKind;
    if names != [] {
      assert names[0] in names;
    }
  }

  lemma MembersOfKind(listing: seq<string>, kind: Kind)
    ensures forall n :: n in OfKind(listing, kind) <==> n in listing && KindOf(n) == kind
  {
    OfKindMembers(listing, kind);
    hide KindOf, OfKind;
    forall n ensures n in OfKind(listing, kind) <==> n in listing && KindOf(n) == kind {
      assert n in OfKind(listing, kind) <==> n in multiset(OfKind(listing, kind));
      assert n in listing <==> n in multiset(listing);
    }
  }

  /**
   What a collection that succeeds holds: every listed rawprogram of no family, the best
   of each family, and `rawprogram0.xml` exactly when it is listed and no persist-family
   file is; every listed patch; each list sorted by name, and every XML usable.
   */
  lemma CollectedExactly(listing: seq<string>, allowDp: bool, docs: Documents, present: string -> bool)
    requires Collected(listing, allowDp, docs, present).Ok?
    ensures var (raw, patches) := Collected(listing, allowDp, docs, present).value;
      && (forall n :: n in raw <==>
            || (n in listing && KindOf(n) == Other)
            || Best(listing, Persist, PersistPriority(allowDp), n)
            || Best(listing, Devinfo, DevinfoPriority(allowDp), n)
            || (n in listing && n == "rawprogram0.xml" && !exists m :: m in listing && KindOf(m) == Persist))
      && (forall n :: n in patches <==> n in listing && KindOf(n) == Patch)
      && Sorted(raw, []) && Sorted(patches, [])
      && forall n :: n in raw ==> Usable(n, docs, present, allowDp)
  {
    var unsorted := RawXmls(listing, allowDp);
    SortSorts(unsorted, []);
    SortSorts(OfKind(listing, Patch), []);
    SameMembers(Sort(unsorted, []), unsorted);
    SameMembers(Sort(OfKind(listing, Patch), []), OfKind(listing, Patch));
    ValidateExactly(Sort(unsorted, []), docs, present, allowDp);
    MembersOfKind(listing, Patch);
    RawMembers(listing, allowDp);
    hide *;
    CollectedParts(listing, allowDp, docs, present);
  }

  lemma CollectedParts(listing: seq<string>, allowDp: bool, docs: Documents, present: string -> bool)
    requires Collected(listing, allowDp, docs, present).Ok?
    ensures var raw := Sort(RawXmls(listing, allowDp), []);
      && Collected(listing, allowDp, docs, present).value == (raw, Sort(OfKind(listing, Patch), []))
      && Validate(raw, docs, present, allowDp).None?
  {
    hide RawXmls, Sort, Validate, OfKind;
  }

  lemma SameMembers(a: seq<string>, b: seq<string>)
    requires multiset(a) == multiset(b)
    ensures forall n :: n in a <==> n in b
  {
    forall n ensures n in a <==> n in b {
      assert n in a <==> n in multiset(a);
      assert n in b <==> n in multiset(b);
    }
  }

  lemma RawMembers(listing: seq<string>, allowDp: bool)
    ensures forall n :: n in RawXmls(listing, allowDp) <==>
      || (n in listing && KindOf(n) == Other)
      || Best(listing, Persist, PersistPriority(allowDp), n)
      || Best(listing, Devinfo, DevinfoPriority(allowDp), n)
      || (n in listing && n == "rawprogram0.xml" && !exists m :: m in listing && KindOf(m) == Persist)
  {
    hide KindOf, Best, SelectOne, OfKind, PersistPriority, DevinfoPriority;
    MembersOfKind(listing, Other);
    SelectedIsBest(listing, Persist, PersistPriority(allowDp));
    SelectedIsBest(listing, Devinfo, DevinfoPriority(allowDp));
    LastPlain(listing);
  }

  lemma LastPlain(listing: seq<string>)
    ensures LastOf(OfKind(listing, PlainRawprogram0)) == if "rawprogram0.xml" in listing then Some("rawprogram0.xml") else None
  {
    MembersOfKind(listing, PlainRawprogram0);
    PlainKind();
    hide KindOf, OfKind;
    var zero := OfKind(listing, PlainRawprogram0);
    assert zero != [] ==> zero[|zero| - 1] in zero;
  }

  lemma PlainKind()
    ensures forall n :: KindOf(n) == PlainRawprogram0 <==> n == "rawprogram0.xml"
  {
    var n := "rawprogram0.xml";
    assert Lower(n) == n;
    assert n[11..] == ".xml" && n[..10] == "rawprogram";
    NoCapitals(n, "WIPE_PARTITIONS");
    NoCapitals(n, "BLANK_GPT");
    hide RawprogramFamily, Contains;
  }

  lemma NoCapitals(n: string, part: string)
    requires part != [] && 'A' <= part[0] <= 'Z' && forall i :: 0 <= i < |n| ==> !('A' <= n[i] <= 'Z')
    ensures !Contains(n, part)
  {
    forall i | 0 <= i <= |n| ensures !StartsWith(n[i..], part) {
      assert |n[i..]| > 0 ==> n[i..][0] == n[i];
      assert |part| <= |n[i..]| ==> n[i..][..|part|][0] == n[i..][0];
    }
  }

  // ---- The choice, by the names themselves --------------------------------------------------------------

  predicate XmlNamed(name: string, start: string) {
    var lower := Lower(name);
    start <= lower && |lower| >= 4 && lower[|lower| - 4..] == ".xml"
  }

  ghost predicate Includes(name: string, part: string) {
    exists before, after :: name == before + part + after
  }

  /** A rawprogram XML that is not one of the wiping variants. */
  ghost predicate Flashable(name: string) {
    XmlNamed(name, "rawprogram") && !Includes(name, "WIPE_PARTITIONS") && !Includes(name, "BLANK_GPT")
  }

  predicate PersistName(name: string) {
    Lower(name) in {"rawprogram_unsparse0.xml", "rawprogram_unsparse0-half.xml", "rawprogram_write_persist_unsparse0.xml",
                    "rawprogram_save_persist_unsparse0.xml", "rawprogram_save_persist_ota_unsparse0.xml"}
  }

  predicate DevinfoName(name: string) {
    Lower(name) in {"rawprogram4.xml", "rawprogram4_write_devinfo.xml", "rawprogram_unsparse4.xml"}
  }

  /** Of the variants in the order given, the first that is listed is the only one used. */
  ghost predicate FirstIsUsed(listing: seq<string>, raw: seq<string>, variants: seq<string>) {
    forall i, n, m ::
      && 0 <= i < |variants| && n in raw && Lower(n) in variants
      && m in listing && Flashable(m) && Lower(m) == variants[i] ==>
        exists j :: 0 <= j <= i && Lower(n) == variants[j]
  }

  ghost predicate UsableXml(xml: string, docs: Documents, present: string -> bool, allowDp: bool) {
    docs(xml).Some?
    && forall i :: 0 <= i < |docs(xml).value| && Lower(docs(xml).value[i]) in {"persist.img", "devinfo.img"} ==>
         allowDp && present(docs(xml).value[i])
  }

  lemma IncludesIsContains(name: string, part: string)
    ensures Includes(name, part) <==> Contains(name, part)
  {
    if Includes(name, part) {
      var before, after :| name == before + part + after;
      assert name[|before|..] == part + after;
      assert StartsWith(name[|before|..], part);
    }
    if Contains(name, part) {
      var i :| 0 <= i <= |name| && StartsWith(name[i..], part);
      assert name == name[..i] + part + name[i + |part|..];
    }
  }

  lemma KindExactly(name: string)
    ensures KindOf(name) == Patch <==> XmlNamed(name, "patch")
    ensures KindOf(name) == Persist <==> Flashable(name) && PersistName(name)
    ensures KindOf(name) == Devinfo <==> Flashable(name) && DevinfoName(name)
    ensures KindOf(name) == Other <==>
      Flashable(name) && !PersistName(name) && !DevinfoName(name) && name != "rawprogram0.xml"
    ensures KindOf(name) == PlainRawprogram0 <==> name == "rawprogram0.xml"
  {
    PlainKind();
    IncludesIsContains(name, "WIPE_PARTITIONS");
    IncludesIsContains(name, "BLANK_GPT");
    FamiliesExactly(name);
    hide Contains, Includes, RawprogramFamily, PersistName, DevinfoName;
    var lower := Lower(name);
    assert StartsWith(lower, "rawprogram") ==> lower[0] == 'r';
    assert StartsWith(lower, "patch") ==> lower[0] == 'p';
  }

  lemma FamiliesExactly(name: string)
    ensures RawprogramFamily(Lower(name)) == Persist <==> PersistName(name)
    ensures RawprogramFamily(Lower(name)) == Devinfo <==> DevinfoName(name)
    ensures RawprogramFamily(Lower(name)) == Other <==> !PersistName(name) && !DevinfoName(name)
    ensures name == "rawprogram0.xml" ==> !PersistName(name) && !DevinfoName(name)
  {
    var lower := Lower(name);
    assert "rawprogram_unsparse0.xml"[10] == '_' == "rawprogram_unsparse4.xml"[10] && "rawprogram4.xml"[10] == '4';
    assert "rawprogram_unsparse4.xml"[19] == '4' && "rawprogram_unsparse0.xml"[19] == '0' == "rawprogram_unsparse0-half.xml"[19];
    assert "rawprogram_write_persist_unsparse0.xml"[11] == 'w' && "rawprogram_save_persist_unsparse0.xml"[11] == 's';
    assert "rawprogram_save_persist_ota_unsparse0.xml"[11] == 's' && "rawprogram_unsparse4.xml"[11] == 'u';
    assert "rawprogram4_write_devinfo.xml"[10] == '4' && "rawprogram0.xml"[10] == '0' && Lower("rawprogram0.xml") == "rawprogram0.xml";
  }

  lemma {:induction false} RankExactly(name: string, preferred: seq<string>)
    ensures Rank(name, preferred) <= |preferred|
    ensures Rank(name, preferred) < |preferred| ==> Lower(name) == preferred[Rank(name, preferred)]
    ensures forall i :: 0 <= i < |preferred| && Lower(name) == preferred[i] ==> Rank(name, preferred) <= i
  {
    if preferred != [] && Lower(name) != preferred[0] {
      RankExactly(name, preferred[1..]);
      assert forall i :: 0 < i < |preferred| ==> preferred[i] == preferred[1..][i - 1];
    }
  }

  lemma BestIsFirst(listing: seq<string>, kind: Kind, preferred: seq<string>, n: string, m: string, i: nat)
    requires Best(listing, kind, preferred, n) && m in listing && KindOf(m) == kind
    requires i < |preferred| && Lower(m) == preferred[i]
    ensures exists j :: 0 <= j <= i && Lower(n) == preferred[j]
  {
    hide KindOf;
    RankExactly(n, preferred);
    RankExactly(m, preferred);
    assert Lower(n) == preferred[Rank(n, preferred)];
  }

  /**
   What a collection that succeeds holds, by name. The rawprograms are listed XMLs whose
   names start with `rawprogram` and include neither wiping word, and every such file of
   no family is among them; of each family there is one if any is listed, by the order of
   its variants; `rawprogram0.xml` stands in for a missing persist family; the patches are
   all there; and no XML refers to a persist or devinfo image that may not be flashed.
   */
  ghost predicate CollectedByName(listing: seq<string>, allowDp: bool, docs: Documents, present: string -> bool,
                                  raw: seq<string>, patches: seq<string>) {
    && (forall n :: n in raw ==> n in listing && Flashable(n) && UsableXml(n, docs, present, allowDp))
    && (forall n :: n in listing && Flashable(n) && !PersistName(n) && !DevinfoName(n) && n != "rawprogram0.xml" ==> n in raw)
    && (HasPersist(listing) <==> HasPersist(raw)) && (HasDevinfo(listing) <==> HasDevinfo(raw))
    && ("rawprogram0.xml" in raw <==> "rawprogram0.xml" in listing && !HasPersist(listing))
    && (forall n :: n in patches <==> n in listing && XmlNamed(n, "patch"))
    && VariantsByName(listing, allowDp, raw)
  }

  ghost predicate HasPersist(names: seq<string>) {
    exists n :: n in names && Flashable(n) && PersistName(n)
  }

  ghost predicate HasDevinfo(names: seq<string>) {
    exists n :: n in names && Flashable(n) && DevinfoName(n)
  }

  ghost predicate VariantsByName(listing: seq<string>, allowDp: bool, raw: seq<string>) {
    && FirstIsUsed(listing, raw,
                   if allowDp then
                     ["rawprogram_write_persist_unsparse0.xml", "rawprogram_unsparse0.xml",
                      "rawprogram_save_persist_ota_unsparse0.xml", "rawprogram_save_persist_unsparse0.xml",
                      "rawprogram_unsparse0-half.xml"]
                   else
                     ["rawprogram_save_persist_ota_unsparse0.xml", "rawprogram_save_persist_unsparse0.xml",
                      "rawprogram_unsparse0-half.xml", "rawprogram_unsparse0.xml",
                      "rawprogram_write_persist_unsparse0.xml"])
    && FirstIsUsed(listing, raw,
                   if allowDp then ["rawprogram4_write_devinfo.xml", "rawprogram4.xml", "rawprogram_unsparse4.xml"]
                   else ["rawprogram4.xml", "rawprogram_unsparse4.xml", "rawprogram4_write_devinfo.xml"])
  }

  lemma BestExists(listing: seq<string>, kind: Kind, preferred: seq<string>)
    ensures (exists n :: n in listing && KindOf(n) == kind) ==> exists n :: Best(listing, kind, preferred, n)
  {
    SelectedIsBest(listing, kind, preferred);
    hide KindOf, Best, SelectOne, OfKind;
    var r := SelectOne(OfKind(listing, kind), preferred);
    if r.Some? {
      assert Best(listing, kind, preferred, r.value);
    }
  }

  lemma UsableExactly(xml: string, docs: Documents, present: string -> bool, allowDp: bool)
    ensures Usable(xml, docs, present, allowDp) <==> UsableXml(xml, docs, present, allowDp)
  {
  }

  lemma PrioritiesAre(allowDp: bool)
    ensures forall n :: PersistName(n) <==> Lower(n) in PersistPriority(allowDp)
    ensures forall n :: DevinfoName(n) <==> Lower(n) in DevinfoPriority(allowDp)
  {
  }

  lemma VariantsByOrder(listing: seq<string>, kind: Kind, preferred: seq<string>, raw: seq<string>)
    requires forall n :: n in raw && Lower(n) in preferred ==> Best(listing, kind, preferred, n)
    requires forall m :: m in listing && Flashable(m) && Lower(m) in preferred ==> KindOf(m) == kind
    ensures FirstIsUsed(listing, raw, preferred)
  {
    hide Best, Flashable, KindOf, Lower;
    forall i, n, m | 0 <= i < |preferred| && n in raw && Lower(n) in preferred
                     && m in listing && Flashable(m) && Lower(m) == preferred[i]
      ensures exists j :: 0 <= j <= i && Lower(n) == preferred[j]
    {
      BestIsFirst(listing, kind, preferred, n, m, i);
    }
  }

  /** The files of each kind, by name. */
  lemma KindsByName()
    ensures forall n :: KindOf(n) == Patch <==> XmlNamed(n, "patch")
    ensures forall n :: KindOf(n) == Persist <==> Flashable(n) && PersistName(n)
    ensures forall n :: KindOf(n) == Devinfo <==> Flashable(n) && DevinfoName(n)
    ensures forall n :: KindOf(n) == Other <==>
      Flashable(n) && !PersistName(n) && !DevinfoName(n) && n != "rawprogram0.xml"
    ensures Flashable("rawprogram0.xml") && !PersistName("rawprogram0.xml") && !DevinfoName("rawprogram0.xml")
  {
    PlainIsFlashable();
    FamiliesExactly("rawprogram0.xml");
    hide KindOf, Flashable, PersistName, DevinfoName, XmlNamed;
    forall n
      ensures KindOf(n) == Patch <==> XmlNamed(n, "patch")
      ensures KindOf(n) == Persist <==> Flashable(n) && PersistName(n)
      ensures KindOf(n) == Devinfo <==> Flashable(n) && DevinfoName(n)
      ensures KindOf(n) == Other <==> Flashable(n) && !PersistName(n) && !DevinfoName(n) && n != "rawprogram0.xml"
    {
      KindExactly(n);
    }
  }

  lemma PlainIsFlashable()
    ensures Flashable("rawprogram0.xml")
  {
    var n := "rawprogram0.xml";
    assert Lower(n) == n && n[|n| - 4..] == ".xml" && n[..10] == "rawprogram";
    NoCapitals(n, "WIPE_PARTITIONS");
    NoCapitals(n, "BLANK_GPT");
    IncludesIsContains(n, "WIPE_PARTITIONS");
    IncludesIsContains(n, "BLANK_GPT");
    hide Includes, Contains;
  }

  ghost predicate HasKind(names: seq<string>, kind: Kind) {
    exists n :: n in names && KindOf(n) == kind
  }

  lemma FamiliesByName(names: seq<string>)
    ensures HasPersist(names) <==> HasKind(names, Persist)
    ensures HasDevinfo(names) <==> HasKind(names, Devinfo)
  {
    KindsByName();
    hide KindOf, Flashable, PersistName, DevinfoName, XmlNamed;
  }

  /** What `CollectedExactly` says of the rawprograms, with the families named. */
  ghost predicate RawExactly(listing: seq<string>, allowDp: bool, raw: seq<string>) {
    forall n :: n in raw <==>
      || (n in listing && KindOf(n) == Other)
      || Best(listing, Persist, PersistPriority(allowDp), n)
      || Best(listing, Devinfo, DevinfoPriority(allowDp), n)
      || (n in listing && n == "rawprogram0.xml" && !HasKind(listing, Persist))
  }

  lemma CollectedRaw(listing: seq<string>, allowDp: bool, docs: Documents, present: string -> bool)
    requires Collected(listing, allowDp, docs, present).Ok?
    ensures var (raw, patches) := Collected(listing, allowDp, docs, present).value;
      && RawExactly(listing, allowDp, raw)
      && (forall n :: n in patches <==> n in listing && KindOf(n) == Patch)
      && forall n :: n in raw ==> Usable(n, docs, present, allowDp)
  {
    CollectedExactly(listing, allowDp, docs, present);
    hide Collected, Usable, KindOf, PersistPriority, DevinfoPriority, Best;
  }

  lemma BestIsListed(listing: seq<string>)
    ensures forall kind, preferred, n :: Best(listing, kind, preferred, n) ==> n in listing && KindOf(n) == kind
  {
  }

  lemma RawKinds(listing: seq<string>, allowDp: bool, raw: seq<string>)
    requires RawExactly(listing, allowDp, raw)
    ensures forall n :: n in raw ==>
      n in listing && (KindOf(n) == Other || KindOf(n) == Persist || KindOf(n) == Devinfo || n == "rawprogram0.xml")
    ensures forall n :: n in listing && KindOf(n) == Other ==> n in raw
    ensures forall n :: n in raw && KindOf(n) == Persist ==> Best(listing, Persist, PersistPriority(allowDp), n)
    ensures forall n :: n in raw && KindOf(n) == Devinfo ==> Best(listing, Devinfo, DevinfoPriority(allowDp), n)
    ensures "rawprogram0.xml" in raw <==> "rawprogram0.xml" in listing && !HasKind(listing, Persist)
  {
    PlainKind();
    BestIsListed(listing);
    hide KindOf, PersistPriority, DevinfoPriority, Best, HasKind;
  }

  lemma FamiliesKept(listing: seq<string>, allowDp: bool, raw: seq<string>)
    requires RawExactly(listing, allowDp, raw)
    ensures HasKind(listing, Persist) <==> HasKind(raw, Persist)
    ensures HasKind(listing, Devinfo) <==> HasKind(raw, Devinfo)
  {
    RawKinds(listing, allowDp, raw);
    BestIsListed(listing);
    BestExists(listing, Persist, PersistPriority(allowDp));
    BestExists(listing, Devinfo, DevinfoPriority(allowDp));
    hide KindOf, PersistPriority, DevinfoPriority, Best;
  }

  lemma CollectedIsByName(listing: seq<string>, allowDp: bool, docs: Documents, present: string -> bool)
    requires Collected(listing, allowDp, docs, present).Ok?
    ensures var (raw, patches) := Collected(listing, allowDp, docs, present).value;
      CollectedByName(listing, allowDp, docs, present, raw, patches)
  {
    hide Collected, Usable, UsableXml, KindOf, Flashable, PersistName, DevinfoName, XmlNamed, Best, RawExactly,
      HasPersist, HasDevinfo, HasKind, VariantsByName;
    var (raw, patches) := Collected(listing, allowDp, docs, present).value;
    CollectedRaw(listing, allowDp, docs, present);
    RawKinds(listing, allowDp, raw);
    KindsByName();
    FamiliesKept(listing, allowDp, raw);
    FamiliesByName(listing);
    FamiliesByName(raw);
    forall n | n in raw ensures UsableXml(n, docs, present, allowDp) {
      UsableExactly(n, docs, present, allowDp);
    }
    VariantsUsed(listing, allowDp, raw);
  }

  lemma VariantsUsed(listing: seq<string>, allowDp: bool, raw: seq<string>)
    requires forall n :: n in raw ==> Flashable(n)
    requires forall n :: n in raw && KindOf(n) == Persist ==> Best(listing, Persist, PersistPriority(allowDp), n)
    requires forall n :: n in raw && KindOf(n) == Devinfo ==> Best(listing, Devinfo, DevinfoPriority(allowDp), n)
    ensures VariantsByName(listing, allowDp, raw)
  {
    PrioritiesAre(allowDp);
    KindsByName();
    hide KindOf, Flashable, PersistName, DevinfoName, XmlNamed, Best, FirstIsUsed, Lower;
    assert FirstIsUsed(listing, raw, PersistPriority(allowDp)) && FirstIsUsed(listing, raw, DevinfoPriority(allowDp)) by {
      hide PersistPriority, DevinfoPriority;
      VariantsByOrder(listing, Persist, PersistPriority(allowDp), raw);
      VariantsByOrder(listing, Devinfo, DevinfoPriority(allowDp), raw);
    }
  }

  /** A collection that fails names a listed rawprogram and what is wrong with it. */
  lemma OutcomeByName(listing: seq<string>, allowDp: bool, docs: Documents, present: string -> bool)
    ensures var r := Collected(listing, allowDp, docs, present);
      && (r.Ok? ==>
            CollectedByName(listing, allowDp, docs, present, r.value.0, r.value.1)
            && InOrder(r.value.0) && InOrder(r.value.1))
      && (r.Err? ==> r.error.xml in listing && Flashable(r.error.xml) && Justified(r.error, docs, present, allowDp))
  {
    var r := Collected(listing, allowDp, docs, present);
    if r.Ok? {
      CollectedIsByName(listing, allowDp, docs, present);
      CollectedExactly(listing, allowDp, docs, present);
      SortedIsInOrder(r.value.0);
      SortedIsInOrder(r.value.1);
      hide *;
    } else {
      RejectedIsListed(listing, allowDp, docs, present);
    }
  }

  predicate InOrder(names: seq<string>) {
    forall i, j :: 0 <= i < j < |names| ==> NameLeq(names[i], names[j])
  }

  lemma SortedIsInOrder(names: seq<string>)
    ensures Sorted(names, []) ==> InOrder(names)
  {
    hide NameLeq;
    assert Sorted(names, []) ==> forall i, j :: 0 <= i < j < |names| ==> Leq(names[i], names[j], []);
  }

  lemma RejectedIsListed(listing: seq<string>, allowDp: bool, docs: Documents, present: string -> bool)
    requires Collected(listing, allowDp, docs, present).Err?
    ensures var e := Collected(listing, allowDp, docs, present).error;
      e.xml in listing && Flashable(e.xml) && Justified(e, docs, present, allowDp)
  {
    var unsorted := RawXmls(listing, allowDp);
    var raw := Sort(unsorted, []);
    hide RawXmls, Sort, Validate, Justified, Flashable, KindOf;
    ErrorJustified(raw, docs, present, allowDp);
    SortSorts(unsorted, []);
    SameMembers(raw, unsorted);
    RawMembers(listing, allowDp);
    BestIsListed(listing);
    KindsByName();
    hide Best, Sorted, XmlNamed, PersistName, DevinfoName;
  }

  lemma OneKindIgnoresOrder(a: seq<string>, b: seq<string>, kind: Kind)
    requires multiset(a) == multiset(b)
    ensures multiset(OfKind(a, kind)) == multiset(OfKind(b, kind))
  {
    OfKindMembers(a, kind);
    OfKindMembers(b, kind);
    hide KindOf, OfKind;
  }

  /**
   Of distinct files each is collected at most once, and at most one persist-family and
   one devinfo-family file is.
   */
  lemma AtMostOnePerFamily(listing: seq<string>, allowDp: bool, docs: Documents, present: string -> bool)
    requires Collected(listing, allowDp, docs, present).Ok?
    requires forall n :: multiset(listing)[n] <= 1
    ensures var raw := Collected(listing, allowDp, docs, present).value.0;
      && (forall n :: multiset(raw)[n] <= 1)
      && forall m, n :: m in raw && n in raw && KindOf(m) == KindOf(n) && KindOf(n) in {Persist, Devinfo} ==> m == n
  {
    SortSorts(RawXmls(listing, allowDp), []);
    CollectedExactly(listing, allowDp, docs, present);
    RawCounts(listing, allowDp);
    PlainKind();
    forall m, n | Best(listing, KindOf(n), PersistPriority(allowDp), m) && Best(listing, KindOf(n), PersistPriority(allowDp), n)
      ensures m == n
    {
      LeqIsOrder(m, n, m, PersistPriority(allowDp));
    }
    forall m, n | Best(listing, KindOf(n), DevinfoPriority(allowDp), m) && Best(listing, KindOf(n), DevinfoPriority(allowDp), n)
      ensures m == n
    {
      LeqIsOrder(m, n, m, DevinfoPriority(allowDp));
    }
    CollectedParts(listing, allowDp, docs, present);
    hide Collected, RawXmls, Leq, Sort, Validate, PersistPriority, DevinfoPriority;
    BestIsListed(listing);
    hide Best, KindOf;
  }

  lemma RawCounts(listing: seq<string>, allowDp: bool)
    requires forall n :: multiset(listing)[n] <= 1
    ensures forall n :: multiset(RawXmls(listing, allowDp))[n] <= 1
  {
    OfKindMembers(listing, Other);
    SelectedIsBest(listing, Persist, PersistPriority(allowDp));
    SelectedIsBest(listing, Devinfo, DevinfoPriority(allowDp));
    BestIsListed(listing);
    LastPlain(listing);
    PlainKind();
    hide KindOf, Best, SelectOne, OfKind, PersistPriority, DevinfoPriority;
  }

  lemma SelectionIgnoresOrder(a: seq<string>, b: seq<string>, kind: Kind, preferred: seq<string>)
    requires multiset(a) == multiset(b)
    ensures SelectOne(OfKind(a, kind), preferred) == SelectOne(OfKind(b, kind), preferred)
  {
    OneKindIgnoresOrder(a, b, kind);
    SortIgnoresOrder(OfKind(a, kind), OfKind(b, kind), preferred);
    hide OfKind, Sort;
  }

  lemma RawXmlsIgnoreOrder(a: seq<string>, b: seq<string>, allowDp: bool)
    requires multiset(a) == multiset(b)
    ensures multiset(RawXmls(a, allowDp)) == multiset(RawXmls(b, allowDp))
  {
    hide KindOf, SelectOne, OfKind, PersistPriority, DevinfoPriority, LastOf, OptionSeq;
    SelectionIgnoresOrder(a, b, Persist, PersistPriority(allowDp));
    SelectionIgnoresOrder(a, b, Devinfo, DevinfoPriority(allowDp));
    LastPlain(a);
    LastPlain(b);
    SameMembers(a, b);
    OneKindIgnoresOrder(a, b, Other);
  }

  /** The same files listed in another order are collected alike, errors included. */
  lemma CollectionIgnoresOrder(a: seq<string>, b: seq<string>, allowDp: bool, docs: Documents, present: string -> bool)
    requires multiset(a) == multiset(b)
    ensures Collected(a, allowDp, docs, present) == Collected(b, allowDp, docs, present)
  {
    hide KindOf, Sort, OfKind, Validate, RawXmls;
    OneKindIgnoresOrder(a, b, Patch);
    SortIgnoresOrder(OfKind(a, Patch), OfKind(b, Patch), []);
    RawXmlsIgnoreOrder(a, b, allowDp);
    SortIgnoresOrder(RawXmls(a, allowDp), RawXmls(b, allowDp), []);
  }
}
