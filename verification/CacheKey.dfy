/** The response cache's key: what it distinguishes, and where it is coarser than the upstream request. */
module CacheKey {
  import opened Shared
  import opened CanonicalJson
  import opened JsonPrinting

  /** The request fields the key or the output limit reads; absent fields are `None`. */
  datatype Request = Request(
    model: Json,
    messages: Json,
    topP: Option<Json>,
    maxTokens: Option<Json>,
    maxCompletionTokens: Option<Json>,
    seed: Option<Json>,
    stop: Option<Json>,
    n: Option<Json>,
    presencePenalty: Option<Json>,
    frequencyPenalty: Option<Json>,
    logitBias: Option<Json>,
    responseFormat: Option<Json>)

  /** `canonicalStringify` */
  function Canonical(leq: (string, string) -> bool, v: Json): string {
    Print(Sort(leq, v))
  }

  const KEYS: seq<string> := [
    "model", "messages", "top_p", "max_tokens", "seed", "stop", "n",
    "presence_penalty", "frequency_penalty", "logit_bias", "response_format"]

  /** The projected fields' values, in the order of `KEYS`. */
  function KeyValues(r: Request): (vs: seq<Json>)
    ensures |vs| == |KEYS|
  {
    [r.model, r.messages, r.topP.GetOr(JNull), r.maxTokens.GetOr(r.maxCompletionTokens.GetOr(JNull)),
     r.seed.GetOr(JNull), r.stop.GetOr(JNull), r.n.GetOr(JNull), r.presencePenalty.GetOr(JNull),
     r.frequencyPenalty.GetOr(JNull), r.logitBias.GetOr(JNull), r.responseFormat.GetOr(JNull)]
  }

  function Zip(keys: seq<string>, values: seq<Json>): (fields: seq<Field>)
    requires |keys| == |values|
    ensures |fields| == |keys|
    ensures forall k :: 0 <= k < |keys| ==> fields[k] == Field(keys[k], values[k])
  {
    seq(|keys|, k requires 0 <= k < |keys| => Field(keys[k], values[k]))
  }

  /** `computeKey`, before hashing: SHA-256 is taken as injective. */
  function ComputeKey(leq: (string, string) -> bool, r: Request): string {
    Canonical(leq, JObj(Zip(KEYS, KeyValues(r))))
  }

  /** `??` with null, on JSON values. */
  function OrNull(v: Option<Json>): Json {
    v.GetOr(JNull)
  }

  /** The limit the key holds: `max_tokens`, else `max_completion_tokens`. */
  function KeyLimit(r: Request): Json {
    if r.maxTokens.Some? then r.maxTokens.value else OrNull(r.maxCompletionTokens)
  }

  /** The fields the key holds are JSON values. */
  ghost predicate ValidRequest(r: Request) {
    && Valid(r.model) && Valid(r.messages) && Valid(OrNull(r.topP)) && Valid(KeyLimit(r)) && Valid(OrNull(r.seed))
    && Valid(OrNull(r.stop)) && Valid(OrNull(r.n)) && Valid(OrNull(r.presencePenalty))
    && Valid(OrNull(r.frequencyPenalty)) && Valid(OrNull(r.logitBias)) && Valid(OrNull(r.responseFormat))
  }

  /** The two values differ at most in the order of object keys. */
  ghost predicate Same(v: Json, w: Json) {
    Meaning(v) == Meaning(w)
  }

  /** The requests agree in every field the key is about; an absent field is as good as null. */
  ghost predicate SameFields(r: Request, q: Request) {
    && Same(r.model, q.model) && Same(r.messages, q.messages) && Same(OrNull(r.topP), OrNull(q.topP))
    && Same(KeyLimit(r), KeyLimit(q)) && Same(OrNull(r.seed), OrNull(q.seed)) && Same(OrNull(r.stop), OrNull(q.stop))
    && Same(OrNull(r.n), OrNull(q.n)) && Same(OrNull(r.presencePenalty), OrNull(q.presencePenalty))
    && Same(OrNull(r.frequencyPenalty), OrNull(q.frequencyPenalty)) && Same(OrNull(r.logitBias), OrNull(q.logitBias))
    && Same(OrNull(r.responseFormat), OrNull(q.responseFormat))
  }

  lemma ValidValues(r: Request)
    requires ValidRequest(r)
    ensures forall k :: 0 <= k < |KEYS| ==> Valid(KeyValues(r)[k])
  {
    hide Valid;
  }

  /** Where each field stands. */
  lemma Places(r: Request)
    ensures var vs := KeyValues(r);
      && vs[0] == r.model && vs[1] == r.messages && vs[2] == OrNull(r.topP) && vs[3] == KeyLimit(r)
      && vs[4] == OrNull(r.seed) && vs[5] == OrNull(r.stop) && vs[6] == OrNull(r.n)
      && vs[7] == OrNull(r.presencePenalty) && vs[8] == OrNull(r.frequencyPenalty) && vs[9] == OrNull(r.logitBias)
      && vs[10] == OrNull(r.responseFormat)
  {
  }

  lemma FieldByField(r: Request, q: Request)
    ensures SameFields(r, q) <==> forall k :: 0 <= k < |KEYS| ==> Meaning(KeyValues(r)[k]) == Meaning(KeyValues(q)[k])
  {
    hide KeyValues, Meaning, OrNull, KeyLimit, Same;
    Places(r);
    Places(q);
    var a, b := KeyValues(r), KeyValues(q);
    EveryPlace(a, b);
  }

  lemma EveryPlace(a: seq<Json>, b: seq<Json>)
    requires |a| == |b| == |KEYS|
    ensures (forall k :: 0 <= k < |KEYS| ==> Meaning(a[k]) == Meaning(b[k])) <==>
      && Same(a[0], b[0]) && Same(a[1], b[1]) && Same(a[2], b[2]) && Same(a[3], b[3]) && Same(a[4], b[4])
      && Same(a[5], b[5]) && Same(a[6], b[6]) && Same(a[7], b[7]) && Same(a[8], b[8]) && Same(a[9], b[9])
      && Same(a[10], b[10])
  {
    hide Meaning;
  }

  // ----- exactness -----

  /** Two valid values serialise the same iff they are equal up to object key order at every depth. */
  lemma {:induction false} CanonicalIsExact(leq: (string, string) -> bool, v: Json, w: Json)
    requires TotalOrder(leq) && Valid(v) && Valid(w)
    ensures Canonical(leq, v) == Canonical(leq, w) <==> Meaning(v) == Meaning(w)
  {
    hide Print, Sort, Meaning, Valid, SortedDeep;
    SortKeepsMeaning(leq, v);
    SortKeepsMeaning(leq, w);
    SortKeepsValid(leq, v);
    SortKeepsValid(leq, w);
    if Meaning(v) == Meaning(w) {
      SortedIsUnique(leq, Sort(leq, v), Sort(leq, w));
    }
    if Canonical(leq, v) == Canonical(leq, w) {
      PrintIsInjective(Sort(leq, v), Sort(leq, w));
    }
  }

  ghost predicate DistinctKeys(keys: seq<string>) {
    keys == [] || (keys[0] !in keys[1..] && DistinctKeys(keys[1..]))
  }

  lemma {:induction false} ZipMeaning(keys: seq<string>, a: seq<Json>, b: seq<Json>)
    requires |keys| == |a| == |b| && DistinctKeys(keys)
    requires forall k :: 0 <= k < |keys| ==> Valid(a[k]) && Valid(b[k])
    ensures ValidFields(Zip(keys, a))
    ensures FieldMeanings(Zip(keys, a)) == FieldMeanings(Zip(keys, b)) <==>
      forall k :: 0 <= k < |keys| ==> Meaning(a[k]) == Meaning(b[k])
    decreases |keys|
  {
    if keys != [] {
      hide Meaning, Valid, DistinctKeys, HasKey;
      DistinctTail(keys);
      var fs, gs := Zip(keys, a), Zip(keys, b);
      assert fs[1..] == Zip(keys[1..], a[1..]) && gs[1..] == Zip(keys[1..], b[1..]);
      ZipMeaning(keys[1..], a[1..], b[1..]);
      KeyNotLater(keys, a);
      KeyNotLater(keys, b);
      KeysOfMeaning(fs[1..], keys[0]);
      KeysOfMeaning(gs[1..], keys[0]);
      UpdatedApart(FieldMeanings(fs[1..]), FieldMeanings(gs[1..]), keys[0], Meaning(a[0]), Meaning(b[0]));
      assert (forall k :: 0 <= k < |keys| ==> Meaning(a[k]) == Meaning(b[k])) <==>
        Meaning(a[0]) == Meaning(b[0]) && forall k :: 0 <= k < |keys| - 1 ==> Meaning(a[1..][k]) == Meaning(b[1..][k]) by {
        assert forall k :: 1 <= k < |keys| ==> a[k] == a[1..][k - 1] && b[k] == b[1..][k - 1];
      }
    }
  }

  lemma DistinctTail(keys: seq<string>)
    requires DistinctKeys(keys) && keys != []
    ensures keys[0] !in keys[1..] && DistinctKeys(keys[1..])
  {
  }

  lemma KeyNotLater(keys: seq<string>, a: seq<Json>)
    requires |keys| == |a| && keys != [] && keys[0] !in keys[1..]
    ensures !HasKey(Zip(keys, a)[1..], keys[0])
  {
    assert forall k :: 0 <= k < |keys| - 1 ==> Zip(keys, a)[1..][k].key == keys[1..][k];
  }

  lemma UpdatedApart(m: map<string, Value>, n: map<string, Value>, key: string, x: Value, y: Value)
    requires key !in m && key !in n
    ensures m[key := x] == n[key := y] <==> m == n && x == y
  {
    if m[key := x] == n[key := y] {
      assert m[key := x][key] == n[key := y][key];
      assert m == m[key := x] - {key} && n == n[key := y] - {key};
    }
  }

  lemma KeysAreDistinct()
    ensures DistinctKeys(KEYS)
  {
    assert "model"[0] != "top_p"[0] && "max_tokens"[0] != "logit_bias"[0] && "seed"[1] != "stop"[1];
    SuffixesDistinct(KEYS);
  }

  lemma {:induction false} SuffixesDistinct(keys: seq<string>)
    requires forall j, k :: 0 <= j < k < |keys| ==> keys[j] != keys[k]
    ensures DistinctKeys(keys)
    decreases |keys|
  {
    if keys != [] {
      SuffixesDistinct(keys[1..]);
    }
  }

  /**
   * Two requests share a key iff model, messages, top_p, the limit, seed, stop, n, both penalties,
   * logit_bias and response_format all agree, up to the order of object keys.
   */
  lemma {:induction false} SameKeyExactly(leq: (string, string) -> bool, r: Request, q: Request)
    requires TotalOrder(leq) && ValidRequest(r) && ValidRequest(q)
    ensures ComputeKey(leq, r) == ComputeKey(leq, q) <==> SameFields(r, q)
  {
    hide KeyValues, Canonical, DistinctKeys, Zip, Meaning, Valid, ValidRequest, SameFields;
    KeysAreDistinct();
    ValidValues(r);
    ValidValues(q);
    ObjectsMatch(leq, KEYS, KeyValues(r), KeyValues(q));
    FieldByField(r, q);
  }

  lemma {:induction false} ObjectsMatch(leq: (string, string) -> bool, keys: seq<string>, a: seq<Json>, b: seq<Json>)
    requires TotalOrder(leq) && |keys| == |a| == |b| && DistinctKeys(keys)
    requires forall k :: 0 <= k < |keys| ==> Valid(a[k])
    requires forall k :: 0 <= k < |keys| ==> Valid(b[k])
    ensures Canonical(leq, JObj(Zip(keys, a))) == Canonical(leq, JObj(Zip(keys, b))) <==>
      forall k :: 0 <= k < |keys| ==> Meaning(a[k]) == Meaning(b[k])
  {
    ZipMeaning(keys, a, b);
    ZipMeaning(keys, b, a);
    CanonicalIsExact(leq, JObj(Zip(keys, a)), JObj(Zip(keys, b)));
  }

  // ----- the output limit -----

  /** The limit the Anthropic adapter sends: it reads the two fields in the opposite order. */
  function OutputLimit(r: Request, modelDefault: Json): Json {
    r.maxCompletionTokens.GetOr(r.maxTokens.GetOr(modelDefault))
  }

  ghost predicate NumericLimits(r: Request) {
    (r.maxTokens.Some? ==> r.maxTokens.value.JNum?) && (r.maxCompletionTokens.Some? ==> r.maxCompletionTokens.value.JNum?)
  }

  /** The request does not give the two limits different values. */
  predicate OneLimit(r: Request) {
    r.maxTokens.Some? && r.maxCompletionTokens.Some? ==> r.maxTokens == r.maxCompletionTokens
  }

  ghost predicate Alike(leq: (string, string) -> bool, r: Request, q: Request) {
    ValidRequest(q) && NumericLimits(q) && ComputeKey(leq, q) == ComputeKey(leq, r)
  }

  /** Of two requests with one key, each has one limit or both set the same completion limit beside the same `max_tokens`. */
  predicate LimitsMatch(r: Request, q: Request) {
    (OneLimit(r) && OneLimit(q)) || (!OneLimit(r) && !OneLimit(q) && r.maxCompletionTokens == q.maxCompletionTokens)
  }

  /** The key tells a request's `max_tokens`, else its `max_completion_tokens`, and nothing else about its limits. */
  lemma {:induction false} KeyTellsProjectedLimit(leq: (string, string) -> bool, r: Request, q: Request)
    requires TotalOrder(leq) && ValidRequest(r) && NumericLimits(r) && Alike(leq, r, q)
    ensures KeyLimit(r) == KeyLimit(q)
  {
    SameKeyExactly(leq, r, q);
    assert Same(KeyLimit(r), KeyLimit(q));
  }

  /** A request that gives no limit asks for the model's default, whatever that is; one that gives a limit does not. */
  lemma DefaultDecidesLast(r: Request)
    requires NumericLimits(r)
    ensures (forall d :: OutputLimit(r, d) == d) <==> r.maxTokens.None? && r.maxCompletionTokens.None?
    ensures r.maxCompletionTokens.Some? ==> forall d :: OutputLimit(r, d) == r.maxCompletionTokens.value
    ensures r.maxCompletionTokens.None? && r.maxTokens.Some? ==> forall d :: OutputLimit(r, d) == r.maxTokens.value
  {
    assert OutputLimit(r, JNull) == JNull ==> r.maxTokens.None? && r.maxCompletionTokens.None?;
  }

  /** Two requests with one key ask for the same output limit exactly when their limits match. */
  lemma {:induction false} SameKeySameLimitExactly(leq: (string, string) -> bool, r: Request, q: Request, modelDefault: Json)
    requires TotalOrder(leq) && ValidRequest(r) && NumericLimits(r) && Alike(leq, r, q)
    ensures OutputLimit(r, modelDefault) == OutputLimit(q, modelDefault) <==> LimitsMatch(r, q)
  {
    KeyTellsProjectedLimit(leq, r, q);
  }

  /**
   * A request that gives a limit, in either field or both, shares its key with one that asks for
   * another limit: it sends the projected value as `max_tokens` and any other number beside it.
   */
  lemma {:induction false} LimitCollision(leq: (string, string) -> bool, r: Request, modelDefault: Json) returns (q: Request)
    requires ValidRequest(r) && NumericLimits(r) && (r.maxTokens.Some? || r.maxCompletionTokens.Some?)
    ensures Alike(leq, r, q) && OutputLimit(q, modelDefault) != OutputLimit(r, modelDefault)
  {
    var other := if OutputLimit(r, modelDefault) == JNum("1") then JNum("2") else JNum("1");
    q := r.(maxTokens := Some(KeyLimit(r)), maxCompletionTokens := Some(other));
    assert KeyValues(q) == KeyValues(r);
  }

  /** The key fixes a request's output limit exactly when the request gives no limit at all. */
  lemma {:induction false} KeyFixesLimitExactly(leq: (string, string) -> bool, r: Request, modelDefault: Json)
    requires TotalOrder(leq) && ValidRequest(r) && NumericLimits(r)
    ensures (forall q :: Alike(leq, r, q) ==> OutputLimit(q, modelDefault) == OutputLimit(r, modelDefault)) <==>
      r.maxTokens.None? && r.maxCompletionTokens.None?
  {
    if r.maxTokens.None? && r.maxCompletionTokens.None? {
      forall q | Alike(leq, r, q)
        ensures OutputLimit(q, modelDefault) == OutputLimit(r, modelDefault)
      {
        KeyTellsProjectedLimit(leq, r, q);
      }
    } else {
      var q := LimitCollision(leq, r, modelDefault);
    }
  }
}
