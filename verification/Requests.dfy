/** The two POST endpoints and what each handler does with the query cache (src/main.go:207-249, 88-97). */
module Requests {
  import opened Common
  import opened GraphqlText
  import opened CacheDirective

  datatype Endpoint = ReadWrite | ReadOnly

  datatype Route = BadRequest | Forbidden | MutationHandler | QueryHandler

  /** ParseGraphQLRequest refuses a body it cannot parse (None) or one with an empty query. */
  function Dispatch(endpoint: Endpoint, query: Option<string>): Route {
    if query.None? || query.value == "" then BadRequest
    else match endpoint
      case ReadWrite =>
        if IsSubscription(query.value) then Forbidden
        else if IsMutation(query.value) then MutationHandler
        else QueryHandler
      case ReadOnly =>
        if IsMutation(query.value) then Forbidden
        else if IsSubscription(query.value) then Forbidden
        else QueryHandler
  }

  /** The query handler looks in the cache (src/fiber_graphql_handler.go:48). */
  predicate ReadsCache(endpoint: Endpoint, q: string, maxTtl: int, redis: bool) {
    Dispatch(endpoint, Some(q)).QueryHandler? && CachedTtl(q, maxTtl) != 0 && redis
  }

  /** processProxyResponse saves the response (src/main.go:92). */
  predicate Saves(ttl: int, cacheKey: uint64, status: int, redis: bool) {
    ttl != 0 && cacheKey > 0 && status == 200 && redis
  }

  /**
   * The handler's call of processProxyResponse: the mutation handler passes no client and
   * zeros, the query handler passes the keys only when it computed them.
   */
  predicate StoresResponse(endpoint: Endpoint, q: string, maxTtl: int, redis: bool, computed: uint64, status: int) {
    match Dispatch(endpoint, Some(q))
    case MutationHandler => Saves(0, 0, status, false)
    case QueryHandler =>
      var ttl := CachedTtl(q, maxTtl);
      Saves(ttl, if ttl != 0 && redis then computed else 0, status, redis)
    case _ => false
  }

  lemma ZeroTtlSkipsCache(endpoint: Endpoint, q: string, maxTtl: int, redis: bool, key: uint64, status: int)
    requires CachedTtl(q, maxTtl) == 0
    ensures !ReadsCache(endpoint, q, maxTtl, redis) && !StoresResponse(endpoint, q, maxTtl, redis, key, status)
  {
  }

  lemma MutationsHaveNoTtl(q: string, maxTtl: int)
    requires IsMutation(q) || IsSubscription(q)
    ensures CachedTtl(q, maxTtl) == 0
  {
    PatternsAreDisjoint(q);
  }

  /** A mutation or subscription text never reads or fills the cache, on either endpoint. */
  lemma OnlyQueriesTouchTheCache(endpoint: Endpoint, q: string, maxTtl: int, redis: bool, key: uint64, status: int)
    requires IsMutation(q) || IsSubscription(q)
    ensures !ReadsCache(endpoint, q, maxTtl, redis)
    ensures !StoresResponse(endpoint, q, maxTtl, redis, key, status)
    ensures CachedTtl(q, maxTtl) == 0
  {
    MutationsHaveNoTtl(q, maxTtl);
    ZeroTtlSkipsCache(endpoint, q, maxTtl, redis, key, status);
  }

  /**
   * A cached query reaches the query handler on both endpoints, whatever its text: neither
   * refusal can hit it.  It reads the cache exactly when its TTL is not zero and Redis is
   * configured, and only a request that read the cache can fill it.
   */
  lemma CachedQueriesReachTheCache(endpoint: Endpoint, q: string, maxTtl: int, redis: bool, key: uint64, status: int)
    requires IsCachedQuery(q) && q != ""
    ensures Dispatch(endpoint, Some(q)) == QueryHandler
    ensures ReadsCache(endpoint, q, maxTtl, redis) <==> CachedTtl(q, maxTtl) != 0 && redis
    ensures StoresResponse(endpoint, q, maxTtl, redis, key, status) <==>
            ReadsCache(endpoint, q, maxTtl, redis) && key > 0 && status == 200
  {
    PatternsAreDisjoint(q);
  }

  // ----- the endpoints -----

  /** The text is an operation of this kind: the keyword, in any case, after spaces, and then no word character. */
  predicate Is(kind: string, query: Option<string>) {
    query.Some? && IsOperation(query.value, kind)
  }

  lemma KindsAreDisjoint(q: string)
    ensures !(IsOperation(q, "mutation") && IsOperation(q, "subscription"))
  {
    PatternsDescribed(q);
    PatternsAreDisjoint(q);
  }

  lemma EmptyIsNoOperation(kind: string)
    ensures !IsOperation("", kind)
  {
  }

  /**
   * Where a request goes.  No query, or an empty one, is a bad request on both endpoints, and
   * subscriptions are forbidden on both.  The read-only endpoint also refuses mutations, and
   * nothing else, and never reaches the mutation handler; the read-write endpoint sends
   * mutations, and nothing else, there.  All other texts, cached or not, are queries.
   */
  lemma EndpointsDispatch(endpoint: Endpoint, query: Option<string>)
    ensures var route := Dispatch(endpoint, query);
            && (route == BadRequest <==> query.None? || query == Some(""))
            && (route == Forbidden <==>
                  Is("subscription", query) || (endpoint == ReadOnly && Is("mutation", query)))
            && (route == MutationHandler <==> endpoint == ReadWrite && Is("mutation", query))
            && (route == QueryHandler <==>
                  query.Some? && query.value != "" && !Is("subscription", query) && !Is("mutation", query))
  {
    if query.Some? {
      PatternsDescribed(query.value);
      KindsAreDisjoint(query.value);
      EmptyIsNoOperation("mutation");
      EmptyIsNoOperation("subscription");
    }
  }
}
