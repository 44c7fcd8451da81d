/** The manual-label store behind `POST /label-merchant` (backend/app.py):
    the request body must be a JSON object; it is merged into the stored
    object with `dict.update` (the store is an empty object when no file
    exists yet) and the result is written back. */
module Labels {
  import opened Wrappers
  import opened OrderedMap

  /** JSON values as `json.load` yields them; numbers are kept as integers. */
  datatype Json =
    | JNull
    | JBool(b: bool)
    | JNumber(n: int)
    | JString(s: string)
    | JArray(items: seq<Json>)
    | JObject(members: seq<(string, Json)>)

  type Object = seq<(string, Json)>

  datatype LabelError =
    | InvalidFormat     // the body is not an object: answered with status 400
    | StoredNotObject   // the stored value has no `update`: the request fails

  /** A JSON object as a Python dict: its keys are distinct. */
  predicate IsDict(j: Json)
  {
    j.JObject? && DistinctKeys(j.members)
  }

  /** The merge: `stored` is the parsed store file, None when the file does
      not exist. */
  function MergeLabels(stored: Option<Json>, payload: Json): (r: Result<Object, LabelError>)
    ensures r.Failure? && r.error == InvalidFormat <==> !payload.JObject?
    ensures r.Failure? && r.error == StoredNotObject <==>
              payload.JObject? && stored.Some? && !stored.value.JObject?
    ensures r.Success? ==> forall k :: k in Keys(r.value) <==>
              k in Keys(payload.members) || (stored.Some? && k in Keys(stored.value.members))
  {
    if !payload.JObject? then Failure(InvalidFormat)
    else
      match stored
      case None =>
        MergedKeys([], payload.members);
        Success(Update([], payload.members))
      case Some(j) =>
        if !j.JObject? then Failure(StoredNotObject)
        else
          MergedKeys(j.members, payload.members);
          Success(Update(j.members, payload.members))
  }

  lemma MergedKeys(m: Object, p: Object)
    ensures forall k :: k in Keys(Update(m, p)) <==> k in Keys(m) || k in Keys(p)
  {
    forall k ensures k in Keys(Update(m, p)) <==> k in Keys(m) || k in Keys(p) {
      UpdateKeys(m, p, k);
    }
  }

  /** The store after a request: the merged object when the merge succeeds;
      on a failure nothing is written and the store is as it was. */
  function StoreAfter(stored: Option<Json>, payload: Json): (s: Option<Json>)
    ensures MergeLabels(stored, payload).Failure? ==> s == stored
    ensures MergeLabels(stored, payload).Success? ==> s.Some? && s.value.JObject?
  {
    match MergeLabels(stored, payload)
    case Failure(_) => stored
    case Success(o) => Some(JObject(o))
  }

  /** Every label of the request is stored as sent; every other stored
      label keeps its value. */
  lemma MergeGet(stored: Option<Json>, payload: Json, k: string)
    requires IsDict(payload)
    requires stored.Some? ==> stored.value.JObject?
    ensures MergeLabels(stored, payload).Success?
    ensures Get(MergeLabels(stored, payload).value, k) ==
              if k in Keys(payload.members) then Get(payload.members, k)
              else if stored.Some? then Get(stored.value.members, k)
              else None
  {
    var base: Object := if stored.Some? then stored.value.members else [];
    UpdateGet(base, payload.members, k);
  }

  /** Labels already in the store keep their position; new ones follow. */
  lemma MergeKeepsOrder(stored: Json, payload: Json)
    requires stored.JObject? && payload.JObject?
    ensures var r := MergeLabels(Some(stored), payload);
            && r.Success?
            && |stored.members| <= |r.value|
            && Keys(r.value)[..|stored.members|] == Keys(stored.members)
  {
    UpdateKeepsOrder(stored.members, payload.members);
  }

  /** The merged store is again a dict. */
  lemma MergeIsDict(stored: Option<Json>, payload: Json)
    requires payload.JObject?
    requires stored.Some? ==> IsDict(stored.value)
    ensures StoreAfter(stored, payload).Some? ==> IsDict(StoreAfter(stored, payload).value)
  {
    if stored.Some? && stored.value.JObject? {
      UpdateDistinct(stored.value.members, payload.members);
    } else {
      UpdateDistinct([], payload.members);
    }
  }

  /** With no store yet, the store becomes exactly the request body. */
  lemma {:induction false} FirstLabelsStored(payload: Json)
    requires IsDict(payload)
    ensures StoreAfter(None, payload) == Some(payload)
  {
    UpdateFromEmpty(payload.members);
  }

  lemma UpdateFromEmpty(p: Object)
    requires DistinctKeys(p)
    ensures Update([], p) == p
  {
    UpdateDisjoint([], p);
    assert [] + p == p;
  }

  /** Updating with pairs whose keys are all new appends them in order. */
  lemma {:induction false} UpdateDisjoint(m: Object, p: Object)
    requires DistinctKeys(m + p)
    ensures Update(m, p) == m + p
    decreases |p|
  {
    if |p| > 0 {
      var m' := m + [p[0]];
      assert (m + p)[|m|] == p[0];
      forall i | 0 <= i < |m| ensures Keys(m)[i] != p[0].0 {
        assert (m + p)[i] == m[i];
      }
      PutFresh(m, p[0].0, p[0].1);
      assert m' + p[1..] == m + p;
      UpdateDisjoint(m', p[1..]);
    } else {
      assert m + p == m;
    }
  }

  lemma {:induction false} PutFresh(m: Object, k: string, v: Json)
    requires k !in Keys(m)
    ensures Put(m, k, v) == m + [(k, v)]
    decreases |m|
  {
    if |m| > 0 {
      assert Keys(m) == [m[0].0] + Keys(m[1..]);
      PutFresh(m[1..], k, v);
      assert m == [m[0]] + m[1..];
    }
  }

  /** Sending the same labels twice leaves the store as sending them once. */
  lemma ResendIsNoOp(stored: Option<Json>, payload: Json)
    requires IsDict(payload)
    ensures StoreAfter(StoreAfter(stored, payload), payload) == StoreAfter(stored, payload)
  {
    match MergeLabels(stored, payload)
    case Failure(_) =>
    case Success(o) =>
      UpdateIdempotent(if stored.Some? then stored.value.members else [], payload.members);
  }
}
