/** `categorize_merchant` of backend/parser.py: the merchant category
    database maps keywords to categories; the first keyword, in the
    database's order, that occurs in the normalised merchant gives the
    category, and "Others" is the default. */
module KeywordRules {
  import opened Wrappers
  import opened Text
  import opened Normalization

  /** The default category, shared by both category resolvers. */
  const Others: string := "Others"

  /** The merchant category database as the items of the loaded dict,
      keyword -> category, in insertion order. A JSON object loaded into a
      dict has each keyword once, so the keys are distinct; nothing here
      depends on it. */
  type KeywordMap = seq<(string, string)>

  /** Rule `i` is the first whose keyword occurs in `cleaned`. */
  predicate IsFirstHit(rules: KeywordMap, cleaned: string, i: int)
  {
    && 0 <= i < |rules|
    && Contains(cleaned, rules[i].0)
    && forall j :: 0 <= j < i ==> !Contains(cleaned, rules[j].0)
  }

  predicate NoHit(rules: KeywordMap, cleaned: string)
  {
    forall j :: 0 <= j < |rules| ==> !Contains(cleaned, rules[j].0)
  }

  function FirstHitFrom(rules: KeywordMap, cleaned: string, from: nat): (r: Option<nat>)
    requires from <= |rules|
    requires forall j :: 0 <= j < from ==> !Contains(cleaned, rules[j].0)
    ensures r.Some? ==> IsFirstHit(rules, cleaned, r.value)
    ensures r.None? ==> NoHit(rules, cleaned)
    decreases |rules| - from
  {
    if from == |rules| then None
    else if Contains(cleaned, rules[from].0) then Some(from)
    else FirstHitFrom(rules, cleaned, from + 1)
  }

  /** There is at most one first hit. */
  lemma FirstHitUnique(rules: KeywordMap, cleaned: string, i: int, j: int)
    requires IsFirstHit(rules, cleaned, i) && IsFirstHit(rules, cleaned, j)
    ensures i == j
  {
  }

  function Categorize(rules: KeywordMap, merchant: string): (category: string)
    ensures NoHit(rules, Normalize(merchant)) ==> category == Others
    ensures forall i :: IsFirstHit(rules, Normalize(merchant), i) ==> category == rules[i].1
  {
    var cleaned := Normalize(merchant);
    match FirstHitFrom(rules, cleaned, 0)
    case Some(i) =>
      assert forall j :: IsFirstHit(rules, cleaned, j) ==> j == i;
      rules[i].1
    case None => Others
  }

  /** When no rule names "Others" as its category, "Others" is returned
      exactly when no keyword occurs in the normalised merchant. */
  lemma OthersIffNoHit(rules: KeywordMap, merchant: string)
    requires forall i :: 0 <= i < |rules| ==> rules[i].1 != Others
    ensures Categorize(rules, merchant) == Others <==> NoHit(rules, Normalize(merchant))
  {
    var cleaned := Normalize(merchant);
    if !NoHit(rules, cleaned) {
      var i := FirstHitFrom(rules, cleaned, 0).value;
      assert IsFirstHit(rules, cleaned, i);
    }
  }

  /** The category depends on the merchant only through its normal form. */
  lemma CategorizeNormalized(rules: KeywordMap, merchant: string)
    ensures Categorize(rules, Normalize(merchant)) == Categorize(rules, merchant)
  {
    NormalizeIdempotent(merchant);
  }
}
