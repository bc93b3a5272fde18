/** `generateUniquePropertyId` (js/admin.js): the id a saved listing gets. */
module PropertyIds {
  import opened Text
  import opened Slug

  /** The fallback base when the title slugs to nothing. */
  const DefaultBase: string := "propiedad"

  /** `createSlug(title) || 'propiedad'`. */
  function BaseSlug(title: string): (base: string)
    ensures base != []
    ensures CreateSlug(title) != [] ==> base == CreateSlug(title)
  {
    var slug := CreateSlug(title);
    if slug == [] then DefaultBase else slug
  }

  /** The `k`-th candidate the loop tries: the base itself, then `base-1`, `base-2`, ... */
  function Candidate(base: string, k: nat): string {
    if k == 0 then base else base + "-" + NatToString(k)
  }

  /** Distinct attempts are distinct ids. */
  lemma CandidateInjective(base: string, j: nat, k: nat)
    requires Candidate(base, j) == Candidate(base, k)
    ensures j == k
  {
    if j != 0 && k != 0 {
      var prefix := base + "-";
      assert Candidate(base, j) == prefix + NatToString(j);
      assert NatToString(j) == Candidate(base, j)[|prefix|..];
      assert NatToString(k) == Candidate(base, k)[|prefix|..];
      NatToStringInjective(j, k);
    }
  }

  /** The candidates tried before the `n`-th. */
  ghost function Tried(base: string, n: nat): set<string> {
    if n == 0 then {} else Tried(base, n - 1) + {Candidate(base, n - 1)}
  }

  lemma {:induction false} NotYetTried(base: string, n: nat, k: nat)
    requires k >= n
    ensures Candidate(base, k) !in Tried(base, n)
  {
    if n > 0 {
      NotYetTried(base, n - 1, k);
      if Candidate(base, k) == Candidate(base, n - 1) {
        CandidateInjective(base, k, n - 1);
      }
    }
  }

  /** The trimmed preferred id when it is non-empty and unused; otherwise the first
      candidate, in the order base, base-1, base-2, ..., that is unused. */
  method GenerateUniquePropertyId(title: string, usedIds: set<string>, preferredId: string)
    returns (id: string)
    ensures id !in usedIds
    ensures Trim(preferredId) != [] && Trim(preferredId) !in usedIds ==> id == Trim(preferredId)
    ensures !(Trim(preferredId) != [] && Trim(preferredId) !in usedIds) ==>
      exists k: nat :: id == Candidate(BaseSlug(title), k)
        && forall j: nat :: j < k ==> Candidate(BaseSlug(title), j) in usedIds
  {
    var normalizedPreferredId := Trim(preferredId);
    if normalizedPreferredId != [] && normalizedPreferredId !in usedIds {
      return normalizedPreferredId;
    }

    var baseSlug := BaseSlug(title);
    id := FirstUnusedCandidate(baseSlug, usedIds);
  }

  /** The `while (usedIds.has(candidate))` loop: the first of base, base-1, base-2, ...
      that is unused. It ends because `usedIds` is finite and every attempt is a new
      string. */
  method FirstUnusedCandidate(baseSlug: string, usedIds: set<string>) returns (id: string)
    ensures id !in usedIds
    ensures exists k: nat :: id == Candidate(baseSlug, k)
                             && forall j: nat :: j < k ==> Candidate(baseSlug, j) in usedIds
  {
    var suffix := 1;
    var candidate := baseSlug;

    while candidate in usedIds
      invariant suffix >= 1
      invariant candidate == Candidate(baseSlug, suffix - 1)
      invariant forall j: nat :: j < suffix - 1 ==> Candidate(baseSlug, j) in usedIds
      invariant Tried(baseSlug, suffix - 1) <= usedIds
      decreases |usedIds - Tried(baseSlug, suffix - 1)|
    {
      NotYetTried(baseSlug, suffix - 1, suffix - 1);
      ghost var before := usedIds - Tried(baseSlug, suffix - 1);
      assert usedIds - Tried(baseSlug, suffix) == before - {candidate};
      candidate := baseSlug + "-" + NatToString(suffix);
      suffix := suffix + 1;
    }

    id := candidate;
  }
}
