/** `categorize_merchant` of backend/app.py: keyword rules shaped
    category -> [words], tried in order; then, if a classifier is supplied,
    its most probable class when that probability is at least 0.7; then
    "Others". Any failure of the classifier is swallowed. */
module Resolver {
  import opened Wrappers
  import opened Text
  import opened KeywordRules

  /** The keyword configuration as the items of its dict, category ->
      words, in insertion order; each category occurs once, as in any dict.
      Nothing here depends on it. */
  type CategoryWords = seq<(string, seq<string>)>

  /** The trained classifier as the resolver sees it: its class labels and
      `predict_proba` on one merchant, which either fails (None) or yields
      one probability per class. */
  datatype Classifier = Classifier(classes: seq<string>, predictProba: string -> Option<seq<real>>)

  const Threshold: real := 0.7

  /** Word `w` of category `c` occurs, lower-cased, in the lowered merchant. */
  predicate WordHits(rules: CategoryWords, lowered: string, c: int, w: int)
    requires 0 <= c < |rules| && 0 <= w < |rules[c].1|
  {
    Contains(lowered, LowerStr(rules[c].1[w]))
  }

  predicate CategoryMisses(rules: CategoryWords, lowered: string, c: int)
    requires 0 <= c < |rules|
  {
    forall w :: 0 <= w < |rules[c].1| ==> !WordHits(rules, lowered, c, w)
  }

  /** No word of any category occurs. */
  predicate NoWordHit(rules: CategoryWords, lowered: string)
  {
    forall c :: 0 <= c < |rules| ==> CategoryMisses(rules, lowered, c)
  }

  /** Word `w` of category `c` is the first hit of the nested loops: every
      earlier category misses entirely, and earlier words of `c` miss. */
  predicate IsFirstWordHit(rules: CategoryWords, lowered: string, c: int, w: int)
  {
    && 0 <= c < |rules| && 0 <= w < |rules[c].1|
    && WordHits(rules, lowered, c, w)
    && (forall c' :: 0 <= c' < c ==> CategoryMisses(rules, lowered, c'))
    && (forall w' :: 0 <= w' < w ==> !WordHits(rules, lowered, c, w'))
  }

  datatype Hit = Hit(category: nat, word: nat)

  /** The inner loop over the words of category `c`, from word `w`. */
  function WordFrom(rules: CategoryWords, lowered: string, c: nat, w: nat): (r: Option<nat>)
    requires c < |rules| && w <= |rules[c].1|
    requires forall w' :: 0 <= w' < w ==> !WordHits(rules, lowered, c, w')
    ensures r.Some? ==> r.value < |rules[c].1| && WordHits(rules, lowered, c, r.value)
    ensures r.Some? ==> forall w' :: 0 <= w' < r.value ==> !WordHits(rules, lowered, c, w')
    ensures r.None? ==> CategoryMisses(rules, lowered, c)
    decreases |rules[c].1| - w
  {
    if w == |rules[c].1| then None
    else if WordHits(rules, lowered, c, w) then Some(w)
    else WordFrom(rules, lowered, c, w + 1)
  }

  /** The outer loop over the categories, from category `c`. */
  function CategoryFrom(rules: CategoryWords, lowered: string, c: nat): (r: Option<Hit>)
    requires c <= |rules|
    requires forall c' :: 0 <= c' < c ==> CategoryMisses(rules, lowered, c')
    ensures r.Some? ==> IsFirstWordHit(rules, lowered, r.value.category, r.value.word)
    ensures r.None? ==> NoWordHit(rules, lowered)
    decreases |rules| - c
  {
    if c == |rules| then None
    else match WordFrom(rules, lowered, c, 0)
      case Some(w) => Some(Hit(c, w))
      case None => CategoryFrom(rules, lowered, c + 1)
  }

  /** There is at most one first hit. */
  lemma FirstWordHitUnique(rules: CategoryWords, lowered: string, c: int, w: int, c': int, w': int)
    requires IsFirstWordHit(rules, lowered, c, w) && IsFirstWordHit(rules, lowered, c', w')
    ensures c == c' && w == w'
  {
    assert c < c' ==> CategoryMisses(rules, lowered, c);
    assert c' < c ==> CategoryMisses(rules, lowered, c');
    assert c == c';
  }

  /** `numpy.argmax`: the first index of a largest element. */
  function ArgMaxFrom(p: seq<real>, k: nat, best: nat): (i: nat)
    requires best < k <= |p| || (best == 0 && k == 0 < |p|)
    requires forall j :: 0 <= j < k ==> p[j] <= p[best]
    requires forall j :: 0 <= j < best ==> p[j] < p[best]
    ensures i < |p|
    ensures forall j :: 0 <= j < |p| ==> p[j] <= p[i]
    ensures forall j :: 0 <= j < i ==> p[j] < p[i]
    decreases |p| - k
  {
    if k == |p| then best
    else if p[k] > p[best] then ArgMaxFrom(p, k + 1, k)
    else ArgMaxFrom(p, k + 1, best)
  }

  function ArgMax(p: seq<real>): (i: nat)
    requires |p| > 0
    ensures i < |p|
    ensures forall j :: 0 <= j < |p| ==> p[j] <= p[i]
    ensures forall j :: 0 <= j < i ==> p[j] < p[i]
  {
    ArgMaxFrom(p, 0, 0)
  }

  /** The guarded classifier call: the most probable class when its
      probability reaches the threshold; None when it does not, when
      `predict_proba` fails, or when looking up the answer would raise
      (`argmax` of no probabilities, an index past `classes_`). */
  function Predict(model: Classifier, merchant: string): (r: Option<string>)
    ensures r.Some? ==> r.value in model.classes
    ensures r.Some? ==> model.predictProba(merchant).Some?
    ensures r.Some? ==> var p := model.predictProba(merchant).value;
                        && |p| > 0 && ArgMax(p) < |model.classes|
                        && (forall j :: 0 <= j < |p| ==> p[j] <= p[ArgMax(p)])
                        && p[ArgMax(p)] >= Threshold
                        && r.value == model.classes[ArgMax(p)]
  {
    match model.predictProba(merchant)
    case None => None
    case Some(p) =>
      if |p| == 0 then None
      else
        var i := ArgMax(p);
        if p[i] >= Threshold && i < |model.classes| then Some(model.classes[i]) else None
  }

  function RuleCategories(rules: CategoryWords): (cs: set<string>)
    ensures forall c :: 0 <= c < |rules| ==> rules[c].0 in cs
    ensures forall x :: x in cs ==> exists c :: 0 <= c < |rules| && rules[c].0 == x
  {
    set c | 0 <= c < |rules| :: rules[c].0
  }

  /** The category of a merchant. A keyword hit decides (the first hit of
      the nested loops); otherwise the classifier, when there is one and it
      is confident; otherwise "Others". The result is always a rule
      category, a class of the classifier, or "Others". */
  function Resolve(rules: CategoryWords, merchant: string, model: Option<Classifier>): (r: string)
    ensures forall c, w :: IsFirstWordHit(rules, LowerStr(merchant), c, w) ==> r == rules[c].0
    ensures NoWordHit(rules, LowerStr(merchant)) && model.None? ==> r == Others
    ensures NoWordHit(rules, LowerStr(merchant)) && model.Some? ==>
              r == Predict(model.value, merchant).GetOr(Others)
    ensures r == Others || r in RuleCategories(rules) || (model.Some? && r in model.value.classes)
  {
    var lowered := LowerStr(merchant);
    match CategoryFrom(rules, lowered, 0)
    case Some(h) =>
      assert !CategoryMisses(rules, lowered, h.category);
      assert forall c, w :: IsFirstWordHit(rules, lowered, c, w) ==> c == h.category by {
        forall c, w | IsFirstWordHit(rules, lowered, c, w) ensures c == h.category {
          FirstWordHitUnique(rules, lowered, c, w, h.category, h.word);
        }
      }
      rules[h.category].0
    case None =>
      assert forall c, w :: IsFirstWordHit(rules, lowered, c, w) ==> !CategoryMisses(rules, lowered, c);
      match model
      case Some(m) => Predict(m, merchant).GetOr(Others)
      case None => Others
  }

  /** When a keyword hits, the classifier is never consulted: the result
      does not depend on it. */
  lemma KeywordHitIgnoresModel(rules: CategoryWords, merchant: string, m1: Option<Classifier>, m2: Option<Classifier>)
    requires !NoWordHit(rules, LowerStr(merchant))
    ensures Resolve(rules, merchant, m1) == Resolve(rules, merchant, m2)
  {
    var lowered := LowerStr(merchant);
    var h := CategoryFrom(rules, lowered, 0).value;
    assert IsFirstWordHit(rules, lowered, h.category, h.word);
  }

  /** A prediction whose top probability is below 0.7 is discarded. */
  lemma LowConfidenceIsOthers(rules: CategoryWords, merchant: string, m: Classifier, p: seq<real>)
    requires NoWordHit(rules, LowerStr(merchant))
    requires m.predictProba(merchant) == Some(p)
    requires forall j :: 0 <= j < |p| ==> p[j] < Threshold
    ensures Resolve(rules, merchant, Some(m)) == Others
  {
  }

  /** A failing classifier yields "Others" instead of an error. */
  lemma FailureIsOthers(rules: CategoryWords, merchant: string, m: Classifier)
    requires NoWordHit(rules, LowerStr(merchant))
    requires m.predictProba(merchant).None?
    ensures Resolve(rules, merchant, Some(m)) == Others
  {
  }

  /** A confident prediction is taken: with no keyword hit, a top
      probability of at least 0.7 for a class that exists gives that class. */
  lemma ConfidentPredictionTaken(rules: CategoryWords, merchant: string, m: Classifier, p: seq<real>)
    requires NoWordHit(rules, LowerStr(merchant))
    requires m.predictProba(merchant) == Some(p) && |p| > 0
    requires p[ArgMax(p)] >= Threshold && ArgMax(p) < |m.classes|
    ensures Resolve(rules, merchant, Some(m)) == m.classes[ArgMax(p)]
  {
  }

  /** Without a classifier, matching ignores the merchant's case. */
  lemma ResolveIgnoresCase(rules: CategoryWords, merchant: string)
    ensures Resolve(rules, LowerStr(merchant), None) == Resolve(rules, merchant, None)
  {
    LowerStrIdempotent(merchant);
  }
}
