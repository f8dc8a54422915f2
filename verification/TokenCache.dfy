/** The least-recently-used cache of prompt token counts. */
module TokenCache {
  import opened PyText
  import opened PyCollections
  import opened RecentlyUsed

  const CACHE_MAX := 128

  /** What a count depends on: the model, the tokenizer and the serialized messages. */
  datatype Request = Request(category: string, model: string, tokenizer: string, digest: string)

  /** `f'{category}:{model}:{id(tokenizer)}:{digest}'`. */
  function KeyOf(r: Request): string { r.category + ":" + r.model + ":" + r.tokenizer + ":" + r.digest }

  predicate NoColon(s: string) { ':' !in s }

  /** Categories are fixed words, tokenizer ids digits and digests hexadecimal: only a model name may hold a colon. */
  predicate WellFormed(r: Request) { NoColon(r.category) && NoColon(r.tokenizer) && NoColon(r.digest) }

  lemma FirstColon(a: string, x: string, b: string, y: string)
    requires NoColon(a) && NoColon(b) && a + ":" + x == b + ":" + y
    ensures a == b && x == y
  {
    var s, t := a + ":" + x, b + ":" + y;
    assert s[|a|] == ':' && t[|b|] == ':';
    assert forall i :: 0 <= i < |a| ==> s[i] == a[i] && s[i] != ':';
    assert forall i :: 0 <= i < |b| ==> t[i] == b[i] && t[i] != ':';
    assert s[..|a|] == a && t[..|b|] == b;
    assert s[|a| + 1..] == x && t[|b| + 1..] == y;
  }

  lemma LastColon(x: string, a: string, y: string, b: string)
    requires NoColon(a) && NoColon(b) && x + ":" + a == y + ":" + b
    ensures a == b && x == y
  {
    var s, t := x + ":" + a, y + ":" + b;
    assert s[|x|] == ':' && t[|y|] == ':';
    assert forall i :: |x| < i < |s| ==> s[i] == a[i - |x| - 1] && s[i] != ':';
    assert forall i :: |y| < i < |t| ==> t[i] == b[i - |y| - 1] && t[i] != ':';
    assert s[..|x|] == x && t[..|y|] == y;
    assert s[|x| + 1..] == a && t[|y| + 1..] == b;
  }

  /** Two requests share a key only if they are the same request, even when model names hold colons. */
  lemma KeysAreInjective(r: Request, q: Request)
    requires WellFormed(r) && WellFormed(q) && KeyOf(r) == KeyOf(q)
    ensures r == q
  {
    var rRest := r.model + ":" + r.tokenizer + ":" + r.digest;
    var qRest := q.model + ":" + q.tokenizer + ":" + q.digest;
    assert KeyOf(r) == r.category + ":" + rRest && KeyOf(q) == q.category + ":" + qRest;
    FirstColon(r.category, rRest, q.category, qRest);
    LastColon(r.model + ":" + r.tokenizer, r.digest, q.model + ":" + q.tokenizer, q.digest);
    LastColon(r.model, r.tokenizer, q.model, q.tokenizer);
  }

  // ----- the cache ---------------------------------------------------------------------

  /** Direct counting: no messages, no tokens; else the counter decides from model, tokenizer and payload. */
  function Direct(count: (string, string, string) -> nat, request: Option<Request>): nat {
    match request case None => 0 case Some(r) => count(r.model, r.tokenizer, r.digest)
  }

  class Planner {
    const count: (string, string, string) -> nat
    var promptTokenCountCache: Dict<string, nat>

    ghost predicate Valid() reads this {
      && promptTokenCountCache.Valid()
      && |promptTokenCountCache.order| <= CACHE_MAX
      && forall r :: WellFormed(r) && KeyOf(r) in promptTokenCountCache.data ==>
           promptTokenCountCache.data[KeyOf(r)] == Direct(count, Some(r))
    }

    constructor (count: (string, string, string) -> nat)
      ensures Valid() && this.count == count && promptTokenCountCache.order == []
    {
      this.count := count;
      promptTokenCountCache := EmptyDict();
    }

    /** Returns what direct counting would, and keeps the keys used last. */
    method CountMessagesCached(request: Option<Request>) returns (tokens: nat)
      requires Valid() && (request.Some? ==> WellFormed(request.value))
      modifies this`promptTokenCountCache
      ensures Valid()
      ensures tokens == Direct(count, request)
      ensures promptTokenCountCache.order
           == match request case None => old(promptTokenCountCache.order)
                            case Some(r) => Newest(CACHE_MAX, Touch(old(promptTokenCountCache.order), KeyOf(r)))
    {
      if request == None { return 0; }
      var r := request.value;
      var key := KeyOf(r);
      var cache := promptTokenCountCache;
      if key in cache.data {
        TouchPresent(cache.order, key);
        promptTokenCountCache := Dict(Touch(cache.order, key), cache.data);
        return cache.data[key];
      }
      tokens := Direct(count, request);
      WithoutAbsent(cache.order, key);
      var added := cache.Set(key, tokens);
      AddedIsRight(count, cache, added, r);
      promptTokenCountCache := Evict(added);
    }
  }

  ghost predicate Counts(count: (string, string, string) -> nat, data: map<string, nat>) {
    forall r :: WellFormed(r) && KeyOf(r) in data ==> data[KeyOf(r)] == Direct(count, Some(r))
  }

  /** Storing the count of `r` under its key is right for every request with that key. */
  lemma AddedIsRight(count: (string, string, string) -> nat, cache: Dict<string, nat>, added: Dict<string, nat>,
                     r: Request)
    requires Counts(count, cache.data) && WellFormed(r) && added == cache.Set(KeyOf(r), Direct(count, Some(r)))
    ensures Counts(count, added.data)
  {
    forall q | WellFormed(q) && KeyOf(q) in added.data ensures added.data[KeyOf(q)] == Direct(count, Some(q)) {
      if KeyOf(q) == KeyOf(r) { KeysAreInjective(q, r); }
    }
  }

  /** `popitem(last=False)` while there are too many entries. */
  method Evict(full: Dict<string, nat>) returns (d: Dict<string, nat>)
    requires full.Valid()
    ensures d.Valid() && |d.order| <= CACHE_MAX
    ensures d.order == Newest(CACHE_MAX, full.order)
    ensures forall k :: k in d.data ==> k in full.data && d.data[k] == full.data[k]
  {
    d := full;
    while |d.order| > CACHE_MAX
      invariant d.Valid() && |d.order| <= |full.order|
      invariant d.order == full.order[|full.order| - |d.order|..]
      invariant |full.order| <= CACHE_MAX ==> d == full
      invariant |full.order| > CACHE_MAX ==> |d.order| >= CACHE_MAX
      invariant forall k :: k in d.data ==> k in full.data && d.data[k] == full.data[k]
      decreases |d.order|
    {
      var rest := d.order[1..];
      assert d.order == [d.order[0]] + rest;
      d := Dict(rest, d.data - {d.order[0]});
    }
  }

  /** The order of the cache after a run of requests, by the contract of the method. */
  function OrderAfter(history: seq<Option<Request>>): seq<string> {
    if history == [] then []
    else
      var before := OrderAfter(history[..|history| - 1]);
      match history[|history| - 1] case None => before case Some(r) => Newest(CACHE_MAX, Touch(before, KeyOf(r)))
  }

  /** The keys of the requests that had messages. */
  function KeysUsed(history: seq<Option<Request>>): seq<string> {
    if history == [] then []
    else
      var before := KeysUsed(history[..|history| - 1]);
      match history[|history| - 1] case None => before case Some(r) => before + [KeyOf(r)]
  }

  /** After any run the cache holds exactly the keys used most recently, at most
      CACHE_MAX of them, in order of last use. */
  lemma {:induction false} CacheHoldsMostRecentlyUsed(history: seq<Option<Request>>)
    ensures OrderAfter(history) == Newest(128, Recency(KeysUsed(history)))
    ensures |OrderAfter(history)| <= 128
    ensures UsedInOrder(KeysUsed(history), Recency(KeysUsed(history)))
  {
    RecencyIsByLastUse(KeysUsed(history));
    if history != [] {
      var n := |history| - 1;
      CacheHoldsMostRecentlyUsed(history[..n]);
      if history[n].Some? {
        RecencySnoc(KeysUsed(history[..n]), KeyOf(history[n].value));
        TouchNewest(CACHE_MAX, Recency(KeysUsed(history[..n])), KeyOf(history[n].value));
      }
    }
  }
}
