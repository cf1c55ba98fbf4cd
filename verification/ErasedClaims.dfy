/** Everything a claim says, apart from the handle it cites, survives erasing the `evidence_chunk_id` keys. */
module ErasedClaims {
  import opened Options
  import opened Json
  import opened Text
  import opened TraceGuard
  import opened ParentPaths

  function EraseFields(m: Fields): Fields {
    Erase(Obj(m)).fields
  }

  lemma GetErased(m: Fields, key: string)
    requires key != HANDLE_KEY
    ensures Get(EraseFields(m), key) == Erase(Get(m, key))
    ensures NonEmptyString(EraseFields(m), key) == NonEmptyString(m, key)
  {
  }

  lemma {:induction false} StringsErased(items: seq<Value>)
    ensures NonEmptyStrings(Erase(Arr(items)).items) == NonEmptyStrings(items)
  {
    if items != [] {
      StringsErased(items[1..]);
      assert Erase(Arr(items)).items[1..] == Erase(Arr(items[1..])).items;
    }
  }

  lemma {:induction false} StringsUnderErased(m: Fields, keys: seq<string>)
    requires HANDLE_KEY !in keys
    ensures StringsUnder(EraseFields(m), keys) == StringsUnder(m, keys)
    ensures StringsListedUnder(EraseFields(m), keys) == StringsListedUnder(m, keys)
  {
    if keys != [] {
      var last := keys[|keys| - 1];
      StringsUnderErased(m, keys[..|keys| - 1]);
      GetErased(m, last);
      if Get(m, last).Arr? {
        StringsErased(Get(m, last).items);
      }
    }
  }

  lemma ClaimPartsErased(m: Fields)
    ensures SupportedFactIds(EraseFields(m)) == SupportedFactIds(m)
    ensures ClaimText(EraseFields(m)) == ClaimText(m)
  {
    StringsUnderErased(m, CLAIM_FACT_KEYS);
    StringsUnderErased(m, CLAIM_FACT_LIST_KEYS);
    StringsUnderErased(m, CLAIM_TEXT_KEYS);
  }

  // ---------- Candidates ----------

  function EraseCandidates(cs: seq<Candidate>): seq<Candidate> {
    seq(|cs|, i requires 0 <= i < |cs| => cs[i].(mapping := EraseFields(cs[i].mapping)))
  }

  lemma {:induction false} ItemCandidatesErased(items: seq<Value>, surface: string, prefix: RefPath, key: string)
    ensures ItemCandidates(Erase(Arr(items)).items, surface, prefix, key)
         == EraseCandidates(ItemCandidates(items, surface, prefix, key))
  {
    if items != [] {
      var n := |items| - 1;
      ItemCandidatesErased(items[..n], surface, prefix, key);
      assert Erase(Arr(items)).items[..n] == Erase(Arr(items[..n])).items;
    }
  }

  lemma SurfaceCandidatesErased(v: Value, surface: string, prefix: RefPath, key: string)
    ensures SurfaceCandidates(Erase(v), surface, prefix, key) == EraseCandidates(SurfaceCandidates(v, surface, prefix, key))
  {
    if v.Arr? {
      ItemCandidatesErased(v.items, surface, prefix, key);
    }
  }

  lemma {:induction false} KeyCandidatesErased(result: Fields, keys: seq<string>)
    requires HANDLE_KEY !in keys
    ensures KeyCandidates(EraseFields(result), keys) == EraseCandidates(KeyCandidates(result, keys))
  {
    if keys != [] {
      var last := keys[|keys| - 1];
      KeyCandidatesErased(result, keys[..|keys| - 1]);
      GetErased(result, last);
      SurfaceCandidatesErased(Get(result, last), "result." + last, RESULT, last);
    }
  }

  lemma ResultCandidatesErased(v: Value)
    ensures ResultCandidates(Erase(v)) == EraseCandidates(ResultCandidates(v))
  {
    if v.Obj? {
      SurfaceKeysDistinct();
      KeyCandidatesErased(v.fields, SURFACE_KEYS);
      GetErased(v.fields, "fact_id");
    }
  }

  lemma CandidatesErased(parent: Fields)
    ensures Candidates(EraseFields(parent)) == EraseCandidates(Candidates(parent))
  {
    GetErased(parent, "result");
    GetErased(parent, "evidence_references");
    ResultCandidatesErased(Get(parent, "result"));
    SurfaceCandidatesErased(Get(parent, "evidence_references"), "evidence_references", [], "evidence_references");
  }

  // ---------- Parents that agree once erased ----------

  /** The mappings differ at most in their handle, and if they do, the first cited no chunk but named a fact. */
  ghost predicate OnlyHandleFilled(m: Fields, m': Fields) {
    && EraseFields(m) == EraseFields(m')
    && (ChunkId(m') == ChunkId(m) || (ChunkId(m).None? && SupportedFactIds(m) != []))
  }

  ghost predicate SamePlaces(cs: seq<Candidate>, cs': seq<Candidate>) {
    && |cs| == |cs'|
    && forall i :: 0 <= i < |cs| ==>
         && cs'[i].surface == cs[i].surface
         && cs'[i].loc == cs[i].loc
         && EraseFields(cs[i].mapping) == EraseFields(cs'[i].mapping)
  }

  lemma SameErasureSamePlaces(parent: Fields, other: Fields)
    requires EraseFields(parent) == EraseFields(other)
    ensures SamePlaces(Candidates(parent), Candidates(other))
  {
    CandidatesErased(parent);
    CandidatesErased(other);
    var cs, cs' := Candidates(parent), Candidates(other);
    assert |cs| == |EraseCandidates(cs)| == |EraseCandidates(cs')| == |cs'|;
    forall i | 0 <= i < |cs|
      ensures cs'[i].surface == cs[i].surface && cs'[i].loc == cs[i].loc
      ensures EraseFields(cs[i].mapping) == EraseFields(cs'[i].mapping)
    {
      assert EraseCandidates(cs)[i] == EraseCandidates(cs')[i];
    }
  }

  /** Same claims in the same order; a chunk handle differs only where there was none before. */
  ghost predicate SameClaimsButFilled(claims: seq<Claim>, claims': seq<Claim>) {
    && |claims| == |claims'|
    && forall i :: 0 <= i < |claims| ==>
         && claims'[i].surface == claims[i].surface
         && claims'[i].factId == claims[i].factId
         && claims'[i].text == claims[i].text
         && (claims'[i].chunkId == claims[i].chunkId || claims[i].chunkId.None?)
  }

  lemma MappingClaimsFilled(m: Fields, m': Fields, surface: string)
    requires OnlyHandleFilled(m, m')
    ensures SameClaimsButFilled(ClaimsFromMapping(m, surface), ClaimsFromMapping(m', surface))
  {
    ClaimPartsErased(m);
    ClaimPartsErased(m');
  }

  lemma FilledConcat(a: seq<Claim>, a': seq<Claim>, b: seq<Claim>, b': seq<Claim>)
    requires SameClaimsButFilled(a, a') && SameClaimsButFilled(b, b')
    ensures SameClaimsButFilled(a + b, a' + b')
  {
  }

  lemma {:induction false} AllClaimsFilled(cs: seq<Candidate>, cs': seq<Candidate>)
    requires SamePlaces(cs, cs')
    requires forall i :: 0 <= i < |cs| ==> OnlyHandleFilled(cs[i].mapping, cs'[i].mapping)
    ensures SameClaimsButFilled(AllClaims(cs), AllClaims(cs'))
  {
    if cs != [] {
      var n := |cs| - 1;
      AllClaimsFilled(cs[..n], cs'[..n]);
      MappingClaimsFilled(cs[n].mapping, cs'[n].mapping, cs[n].surface);
      FilledConcat(AllClaims(cs[..n]), AllClaims(cs'[..n]), ClaimsOf(cs[n]), ClaimsOf(cs'[n]));
    }
  }

  /** Filling handles never drops an accepted claim and never adds a rejected one. */
  lemma {:induction false} FillingKeepsSupport(claims: seq<Claim>, claims': seq<Claim>, allowed: map<string, Evidence>)
    requires SameClaimsButFilled(claims, claims')
    ensures forall i :: 0 <= i < |claims| && Supported(claims[i], allowed) ==> Supported(claims'[i], allowed)
    ensures |RejectedOf(claims', allowed)| <= |RejectedOf(claims, allowed)|
  {
    if claims != [] {
      var n := |claims| - 1;
      FillingKeepsSupport(claims[..n], claims'[..n], allowed);
    }
  }
}
