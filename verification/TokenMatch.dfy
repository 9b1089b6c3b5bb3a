/** Boundary-aware model tokens in fingerprints (crates/ltbox-core/src/model.rs). */
module TokenMatch {
  import opened Text
  import opened Wrappers

  const TB320FC: string := "TB320FC"
  const LAVIE_TAB_9QHD1: string := "LAVIETab9QHD1"
  const TB376FC: string := "TB376FC"
  const TB390FU: string := "TB390FU"

  predicate OccursAt(haystack: string, model: string, i: nat) {
    i + |model| <= |haystack| && haystack[i..i + |model|] == model
  }

  /** Neither neighbour of the occurrence is alphanumeric. */
  predicate Bounded(haystack: string, model: string, i: nat)
    requires i + |model| <= |haystack|
  {
    && (i == 0 || !Alphanumeric(haystack[i - 1]))
    && (i + |model| == |haystack| || !Alphanumeric(haystack[i + |model|]))
  }

  /** The model occurs as a token of its own. */
  predicate IsToken(haystack: string, model: string) {
    model != [] && exists i :: 0 <= i <= |haystack| && OccursAt(haystack, model, i) && Bounded(haystack, model, i)
  }

  /** `str::find` from an offset: the first occurrence there or behind it. */
  method Find(haystack: string, model: string, start: nat) returns (at: Option<nat>)
    requires start <= |haystack|
    ensures at.Some? ==> start <= at.value && OccursAt(haystack, model, at.value)
    ensures forall i :: start <= i < (if at.Some? then at.value else |haystack| + 1) ==> !OccursAt(haystack, model, i)
  {
    var i := start;
    while i + |model| <= |haystack|
      invariant start <= i
      invariant forall k :: start <= k < i ==> !OccursAt(haystack, model, k)
    {
      if haystack[i..i + |model|] == model {
        return Some(i);
      }
      i := i + 1;
    }
    return None;
  }

  /** `token_match`: restarting one character behind each rejected occurrence misses no overlapping one. */
  method TokenMatch(haystack: string, model: string) returns (found: bool)
    ensures found <==> IsToken(haystack, model)
  {
    if model == [] {
      return false;
    }
    var start := 0;
    while true
      invariant start <= |haystack|
      invariant forall i :: 0 <= i < start ==> !(OccursAt(haystack, model, i) && Bounded(haystack, model, i))
      decreases |haystack| - start
    {
      var at := Find(haystack, model, start);
      if at.None? {
        return false;
      }
      var end := at.value + |model|;
      var beforeOk := at.value == 0 || !Alphanumeric(haystack[at.value - 1]);
      var afterOk := end == |haystack| || !Alphanumeric(haystack[end]);
      if beforeOk && afterOk {
        assert OccursAt(haystack, model, at.value) && Bounded(haystack, model, at.value);
        return true;
      }
      start := at.value + 1;
    }
  }

  /** The other hardware model a fingerprint may carry. */
  function Equivalent(model: string): Option<string> {
    if model == TB320FC then Some(LAVIE_TAB_9QHD1)
    else if model == LAVIE_TAB_9QHD1 then Some(TB320FC)
    else if model == TB376FC then Some(TB390FU)
    else if model == TB390FU then Some(TB376FC)
    else None
  }

  predicate Matches(haystack: string, model: string) {
    IsToken(haystack, model) || (Equivalent(model).Some? && IsToken(haystack, Equivalent(model).value))
  }

  method FingerprintModelMatch(haystack: string, model: string) returns (matches: bool)
    ensures matches == Matches(haystack, model)
  {
    matches := TokenMatch(haystack, model);
    if matches {
      return;
    }
    if model == TB320FC {
      matches := TokenMatch(haystack, LAVIE_TAB_9QHD1);
    } else if model == LAVIE_TAB_9QHD1 {
      matches := TokenMatch(haystack, TB320FC);
    } else if model == TB376FC {
      matches := TokenMatch(haystack, TB390FU);
    } else if model == TB390FU {
      matches := TokenMatch(haystack, TB376FC);
    }
  }

  /** The equivalence pairs four distinct models off, and both of a pair match the same fingerprints. */
  lemma EquivalentModelsMatchAlike(haystack: string, a: string, b: string)
    requires Equivalent(a) == Some(b)
    ensures a != b && Equivalent(b) == Some(a)
    ensures Matches(haystack, a) == Matches(haystack, b)
  {
    assert TB320FC[2] == '3' && TB376FC[2] == '3' && TB390FU[2] == '3' && LAVIE_TAB_9QHD1[2] == 'V';
    assert TB320FC[3] == '2' && TB376FC[3] == '7' && TB390FU[3] == '9';
    hide IsToken;
  }

  /** The four models that have an equivalent match by either name; every other model matches by its own alone. */
  lemma ModelsMatchAs(haystack: string, model: string)
    ensures model in {"TB320FC", "LAVIETab9QHD1"} ==>
      (Matches(haystack, model) <==> IsToken(haystack, "TB320FC") || IsToken(haystack, "LAVIETab9QHD1"))
    ensures model in {"TB376FC", "TB390FU"} ==>
      (Matches(haystack, model) <==> IsToken(haystack, "TB376FC") || IsToken(haystack, "TB390FU"))
    ensures model !in {"TB320FC", "LAVIETab9QHD1", "TB376FC", "TB390FU"} ==>
      (Matches(haystack, model) <==> IsToken(haystack, model))
  {
    assert TB320FC[2] == '3' && TB376FC[2] == '3' && TB390FU[2] == '3' && LAVIE_TAB_9QHD1[2] == 'V';
    assert TB320FC[3] == '2' && TB376FC[3] == '7' && TB390FU[3] == '9';
    hide IsToken;
  }

  /** A token stands between ends of the text or characters that are not alphanumeric. */
  lemma TokenStands(before: string, model: string, after: string)
    requires model != ""
    requires before == "" || !Alphanumeric(before[|before| - 1])
    requires after == "" || !Alphanumeric(after[0])
    ensures IsToken(before + model + after, model)
  {
    var i, text := |before|, before + model + after;
    assert text[i..i + |model|] == model;
    assert OccursAt(text, model, i) && Bounded(text, model, i);
  }

  /** A model followed by alphanumerics is not found in its own longer form, however it overlaps itself. */
  lemma SuffixedModelIsNoToken(model: string, suffix: string)
    requires forall i :: 0 <= i < |model| ==> Alphanumeric(model[i])
    requires suffix != [] && forall i :: 0 <= i < |suffix| ==> Alphanumeric(suffix[i])
    ensures !IsToken(model + suffix, model)
  {
    assert forall i :: 0 <= i < |model + suffix| ==> Alphanumeric((model + suffix)[i]);
  }
}
