/** Which row a genre, person or keyword is linked to (catalog_ingest.py, `_get_or_create_*`). */
module RefLookups {
  import opened Basics
  import opened CatalogIngest

  ghost predicate HasExternal(refs: seq<RefRow>, ref: Ref) {
    exists i :: 0 <= i < |refs| && refs[i].kind == ref.kind && refs[i].external == Some(ref.external)
  }

  ghost predicate HasName(refs: seq<RefRow>, ref: Ref) {
    exists i :: 0 <= i < |refs| && refs[i].kind == ref.kind && refs[i].name == ref.name
  }

  /** A row with the TMDb id is used whenever there is one; a row with the name only without it, and never for a person;
      with neither, none. */
  lemma SelectMeaning(refs: seq<RefRow>, ref: Ref)
    ensures HasExternal(refs, ref) ==>
              Select(refs, ref).Some? && refs[Select(refs, ref).value].external == Some(ref.external)
    ensures !HasExternal(refs, ref) && ref.kind != Person && HasName(refs, ref) ==>
              Select(refs, ref).Some? && refs[Select(refs, ref).value].name == ref.name
    ensures !HasExternal(refs, ref) && (ref.kind == Person || !HasName(refs, ref)) ==> Select(refs, ref).None?
  {}

  /** A lookup that finds nothing adds the row, complete, behind the others; one that finds a genre without a TMDb id
      gives it this one; any other changes nothing. */
  lemma LookupMeaning(refs: seq<RefRow>, ref: Ref)
    ensures Select(refs, ref).None? ==> RefsAfter(refs, ref) == refs + [RefRow(ref.kind, ref.name, Some(ref.external))]
    ensures Select(refs, ref).Some? ==>
              var i := Select(refs, ref).value;
              && (forall j | 0 <= j < |refs| && j != i :: RefsAfter(refs, ref)[j] == refs[j])
              && |RefsAfter(refs, ref)| == |refs|
              && (ref.kind == Genre ==> RefsAfter(refs, ref)[i].external.Some?)
              && (ref.kind != Genre || refs[i].external.Some? ==> RefsAfter(refs, ref)[i] == refs[i])
              && (ref.kind == Genre && refs[i].external.None? ==>
                    RefsAfter(refs, ref)[i].external == Some(ref.external))
  {}

  /** Looking the same reference up again finds the row the first lookup used or made, and changes nothing more. */
  lemma LookupAgain(refs: seq<RefRow>, ref: Ref)
    ensures var after := RefsAfter(refs, ref);
            && Select(after, ref) == Some(match Select(refs, ref) case None => |refs| case Some(i) => i)
            && RefsAfter(after, ref) == after
  {
    var after := RefsAfter(refs, ref);
    match Select(refs, ref)
    case None =>
      var row := RefRow(ref.kind, ref.name, Some(ref.external));
      assert after[..|after| - 1] == refs;
    case Some(i) =>
      if after != refs {
        NoEarlierExternal(refs, after, ref, i);
      }
  }

  /** The adopted id is found at the row that adopted it. */
  lemma NoEarlierExternal(refs: seq<RefRow>, after: seq<RefRow>, ref: Ref, i: nat)
    requires i < |refs| && after == refs[i := refs[i].(external := Some(ref.external))] && refs[i].kind == ref.kind
    requires FindExternal(refs, ref.kind, ref.external).None?
    ensures FindExternal(after, ref.kind, ref.external) == Some(i)
  {}
}
