/**
 Per-request state of the proxy (gateway/src/proxy.rs, gateway/src/context.rs,
 gateway/src/response_cache_integration.rs): body inspection, response-cache
 capture, and the flags that tie the callbacks together.
 */
module Proxy {
  import opened Basics
  import opened Text

  const BODY_PREVIEW_LIMIT: nat := 64 * 1024
  const RESPONSE_CACHE_BODY_LIMIT: nat := 2 * 1024 * 1024

  type Bytes = seq<bv8>

  datatype CachePolicy = NoCache | Caching(policy: string)

  datatype Request = Request(
    cacheKey: string, method_: string, policy: CachePolicy, headers: set<string>, cookies: map<string, string>)

  /** Header values that are not text read as `None`. */
  datatype Head = Head(status: nat, headers: map<string, Option<string>>)

  predicate EqIgnoreCase(a: string, b: string) {
    Lower(a) == Lower(b)
  }

  /** Absent, unreadable, empty or `identity`. */
  predicate IdentityEncoded(h: Head) {
    var v := if "content-encoding" in h.headers then h.headers["content-encoding"] else None;
    v.None? || Trim(v.value) == "" || EqIgnoreCase(Trim(v.value), "identity")
  }

  /** What must hold of a response for it to be captured. */
  predicate Capturable(h: Head) {
    IdentityEncoded(h) && 200 <= h.status < 300 && "vary" !in h.headers
  }

  /** What must hold of a request for its response to be captured. */
  predicate CacheableRequest(r: Request) {
    EqIgnoreCase(r.method_, "GET") && r.policy != NoCache && "authorization" !in r.headers && r.cookies == map[]
  }

  /** `ResponseCachePending`; `head` is meaningful once `started`. */
  datatype Pending = Pending(
    key: string, policy: CachePolicy, hasAuthorization: bool, hasCookie: bool, head: Head, body: Bytes, started: bool)

  /** A store into the response cache, with the mask flag at that moment. */
  datatype Put = Put(entry: Pending, masked: bool)

  /** `GatewayCtx`; `answered` and `aborted` say that the request was answered
      locally or that a callback failed; `inspections` and `puts` are history. */
  datatype Ctx = Ctx(
    request: Option<Request>, bypass: bool,
    bodyBuf: Bytes, bodyInspected: bool,
    maskEnabled: bool, store: Option<Pending>,
    answered: bool, aborted: bool,
    inspections: seq<Bytes>, puts: seq<Put>)

  const FRESH := Ctx(None, false, [], false, false, None, false, false, [], [])

  datatype Gate = Continue | Bypass | Block

  /** Everything `request_filter` learns from outside. */
  datatype Arrival = Arrival(
    request: Option<Request>, health: bool, gate: Gate, allowed: bool, cacheOn: bool, cacheHit: bool)

  // ---------------------------------------------------------------------------
  // The callbacks
  // ---------------------------------------------------------------------------

  function OnRequest(a: Arrival): Ctx {
    var c := FRESH.(request := a.request);
    if a.request.None? || a.health || a.gate == Block then c.(answered := true)
    else if a.gate == Bypass then c.(bypass := true)
    else if !a.allowed then c.(answered := true)
    else if a.cacheOn && CacheableRequest(a.request.value) then
      if a.cacheHit then c.(answered := true)
      else
        var q := a.request.value;
        c.(store := Some(Pending(q.cacheKey, q.policy, false, false, Head(0, map[]), [], false)))
    else c
  }

  /** The bytes of `chunk` that fit below `limit`. */
  function Append(buf: Bytes, chunk: Option<Bytes>, limit: nat): Bytes {
    if chunk.None? || |buf| >= limit then buf
    else buf + chunk.value[..Min(|chunk.value|, limit - |buf|)]
  }

  /** `request_body_filter`; `verdict` is the engine's answer to a preview. */
  function OnBody(c: Ctx, chunk: Option<Bytes>, eos: bool, verdict: Bytes -> bool): Ctx {
    if c.bodyInspected || c.bypass then c
    else
      var buf := Append(c.bodyBuf, chunk, BODY_PREVIEW_LIMIT);
      if |buf| >= BODY_PREVIEW_LIMIT || (eos && buf != []) then
        var d := c.(bodyBuf := buf, bodyInspected := true);
        if c.request.None? then d
        else d.(inspections := c.inspections + [buf], aborted := !verdict(buf))
      else c.(bodyBuf := buf)
  }

  /** `begin_upstream_cache_capture`: `None` when the response is refused. */
  function BeginCapture(p: Pending, h: Head, masked: bool): Option<Pending> {
    if masked || !Capturable(h) then None else Some(p.(head := h, started := true))
  }

  /** `response_filter`; `head` is the header after the response chain ran. */
  function OnResponse(c: Ctx, chainOk: bool, head: Head, maskNoop: bool): Ctx {
    if c.request.Some? && !chainOk then c.(aborted := true)
    else
      var masked := c.maskEnabled || (c.request.Some? && IdentityEncoded(head) && !maskNoop);
      c.(maskEnabled := masked, store := if c.store.Some? then BeginCapture(c.store.value, head, masked) else None)
  }

  /** `cache_store_on_body_chunk` */
  function OnCacheChunk(c: Ctx, chunk: Option<Bytes>, eos: bool): Ctx {
    if c.store.None? || !c.store.value.started then c
    else
      var p := c.store.value;
      var q := p.(body := Append(p.body, chunk, RESPONSE_CACHE_BODY_LIMIT));
      if eos then c.(store := None, puts := c.puts + [Put(q, c.maskEnabled)]) else c.(store := Some(q))
  }

  /** `response_body_filter` */
  function OnResponseBody(c: Ctx, cacheOn: bool, chunk: Option<Bytes>, eos: bool): Ctx {
    if c.maskEnabled || !cacheOn then c else OnCacheChunk(c, chunk, eos)
  }

  /** The callbacks of the session context object, proved against the functions
      above. */
  class GatewayCtx {
    var request: Option<Request>
    var bypass: bool
    var bodyBuf: Bytes
    var bodyInspected: bool
    var maskEnabled: bool
    var store: Option<Pending>
    var answered: bool
    var aborted: bool
    ghost var inspections: seq<Bytes>
    ghost var puts: seq<Put>

    ghost function State(): Ctx
      reads this
    {
      Ctx(request, bypass, bodyBuf, bodyInspected, maskEnabled, store, answered, aborted, inspections, puts)
    }

    constructor ()
      ensures State() == FRESH
    {
      request, bypass, bodyBuf, bodyInspected, maskEnabled := None, false, [], false, false;
      store, answered, aborted, inspections, puts := None, false, false, [], [];
    }

    method RequestFilter(a: Arrival)
      requires State() == FRESH
      modifies this
      ensures State() == OnRequest(a)
    {
      request := a.request;
      if request.None? {
        answered := true;
        return;
      }
      if a.health {
        answered := true;
        return;
      }
      match a.gate {
        case Continue =>
        case Bypass => bypass := true;
        case Block =>
          answered := true;
          return;
      }
      if bypass { return; }
      if !a.allowed {
        answered := true;
        return;
      }
      if a.cacheOn && CacheableRequest(request.value) {
        if a.cacheHit {
          answered := true;
          return;
        }
        store := Some(Pending(request.value.cacheKey, request.value.policy, false, false, Head(0, map[]), [], false));
      }
    }

    method RequestBodyFilter(chunk: Option<Bytes>, eos: bool, verdict: Bytes -> bool)
      requires !aborted
      modifies this
      ensures State() == OnBody(old(State()), chunk, eos, verdict)
    {
      if bodyInspected || bypass { return; }
      if chunk.Some? {
        if |bodyBuf| < BODY_PREVIEW_LIMIT {
          var take := Min(|chunk.value|, BODY_PREVIEW_LIMIT - |bodyBuf|);
          bodyBuf := bodyBuf + chunk.value[..take];
        }
      }
      if !(|bodyBuf| >= BODY_PREVIEW_LIMIT || (eos && bodyBuf != [])) { return; }
      bodyInspected := true;
      if request.None? { return; }
      inspections := inspections + [bodyBuf];
      if !verdict(bodyBuf) {
        aborted := true;
      }
    }

    method ResponseFilter(chainOk: bool, head: Head, maskNoop: bool)
      modifies this
      ensures State() == OnResponse(old(State()), chainOk, head, maskNoop)
    {
      if request.Some? {
        if !chainOk {
          aborted := true;
          return;
        }
        if IdentityEncoded(head) && !maskNoop {
          maskEnabled := true;
        }
      }
      if store.Some? {
        if maskEnabled || !IdentityEncoded(head) || !(200 <= head.status < 300) || "vary" in head.headers {
          store := None;
        } else {
          store := Some(store.value.(head := head, started := true));
        }
      }
    }

    method ResponseBodyFilter(cacheOn: bool, chunk: Option<Bytes>, eos: bool)
      modifies this
      ensures State() == OnResponseBody(old(State()), cacheOn, chunk, eos)
    {
      if maskEnabled { return; }
      if !cacheOn || store.None? || !store.value.started { return; }
      var p := store.value;
      if chunk.Some? {
        if |p.body| < RESPONSE_CACHE_BODY_LIMIT {
          var take := Min(|chunk.value|, RESPONSE_CACHE_BODY_LIMIT - |p.body|);
          p := p.(body := p.body + chunk.value[..take]);
        }
      }
      store := Some(p);
      if eos {
        puts := puts + [Put(p, maskEnabled)];
        store := None;
      }
    }
  }

  // ---------------------------------------------------------------------------
  // Cache-store safety over whole requests
  // ---------------------------------------------------------------------------

  datatype Callback =
    | Body(chunk: Option<Bytes>, eos: bool, verdict: Bytes -> bool)
    | Response(chainOk: bool, head: Head, maskNoop: bool)
    | ResponseBody(chunk: Option<Bytes>, eos: bool)

  function OnCallback(c: Ctx, cacheOn: bool, cb: Callback): Ctx {
    match cb
    case Body(chunk, eos, verdict) => OnBody(c, chunk, eos, verdict)
    case Response(chainOk, head, maskNoop) => OnResponse(c, chainOk, head, maskNoop)
    case ResponseBody(chunk, eos) => OnResponseBody(c, cacheOn, chunk, eos)
  }

  /** The callbacks in any order; none follow an answer or a failed callback. */
  function Lifecycle(a: Arrival, cbs: seq<Callback>): Ctx {
    if cbs == [] then OnRequest(a)
    else
      var c := Lifecycle(a, cbs[..|cbs| - 1]);
      if c.answered || c.aborted then c else OnCallback(c, a.cacheOn, cbs[|cbs| - 1])
  }

  /** What has to hold of a request, and of the header of its response, for the response
      to be stored. */
  predicate StorableRequest(a: Arrival) {
    && a.request.Some? && !a.health && a.gate == Continue && a.allowed && a.cacheOn && !a.cacheHit
    && Lower(a.request.value.method_) == "get" && a.request.value.policy.Caching?
    && "authorization" !in a.request.value.headers && |a.request.value.cookies| == 0
  }

  predicate StorableHead(h: Head) {
    200 <= h.status <= 299 && "vary" !in h.headers && IdentityEncoded(h)
  }

  ghost predicate GoodEntry(a: Arrival, p: Pending) {
    && StorableRequest(a) && p.key == a.request.value.cacheKey && p.policy == a.request.value.policy
    && !p.hasAuthorization && !p.hasCookie && |p.body| <= 2_097_152
  }

  ghost predicate GoodPut(a: Arrival, p: Put) {
    GoodEntry(a, p.entry) && p.entry.started && StorableHead(p.entry.head) && !p.masked
  }

  ghost predicate CacheInv(a: Arrival, c: Ctx) {
    && c.request == a.request
    && |c.puts| <= 1 && (forall p <- c.puts :: GoodPut(a, p))
    && (c.store.Some? ==> c.puts == [] && GoodEntry(a, c.store.value))
    && (c.store.Some? && c.store.value.started ==> StorableHead(c.store.value.head) && !c.maskEnabled)
  }

  lemma AppendBounded(buf: Bytes, chunk: Option<Bytes>, limit: nat)
    requires |buf| <= limit
    ensures |Append(buf, chunk, limit)| <= limit
  {
  }

  lemma CallbackKeepsCacheInv(a: Arrival, c: Ctx, cb: Callback)
    requires CacheInv(a, c)
    ensures CacheInv(a, OnCallback(c, a.cacheOn, cb))
  {
    if cb.ResponseBody? && c.store.Some? {
      AppendBounded(c.store.value.body, cb.chunk, RESPONSE_CACHE_BODY_LIMIT);
    }
  }

  lemma GetInAnyCase(m: string)
    ensures EqIgnoreCase(m, "GET") <==> Lower(m) == "get"
  {
    assert Lower("GET") == "get";
  }

  lemma {:induction false} LifecycleKeepsCacheInv(a: Arrival, cbs: seq<Callback>)
    ensures CacheInv(a, Lifecycle(a, cbs))
    decreases |cbs|
  {
    if cbs == [] {
      if a.request.Some? { GetInAnyCase(a.request.value.method_); }
    } else {
      LifecycleKeepsCacheInv(a, cbs[..|cbs| - 1]);
      CallbackKeepsCacheInv(a, Lifecycle(a, cbs[..|cbs| - 1]), cbs[|cbs| - 1]);
    }
  }

  /**
   In every callback sequence at most one store is issued, and only for a
   non-bypassed, WAF-allowed GET without authorization or cookies, under a
   caching tier policy, with a 2xx, Vary-free, identity-encoded, unmasked
   response.
   */
  lemma CacheStoreSafety(a: Arrival, cbs: seq<Callback>)
    ensures var puts := Lifecycle(a, cbs).puts;
      |puts| <= 1 && forall p <- puts :: GoodPut(a, p)
  {
    LifecycleKeepsCacheInv(a, cbs);
  }

  // ---------------------------------------------------------------------------
  // Chunking
  // ---------------------------------------------------------------------------

  function BytesOf(chunk: Option<Bytes>): Bytes {
    if chunk.Some? then chunk.value else []
  }

  /** The body that a sequence of chunks carries. */
  function Joined(chunks: seq<Option<Bytes>>): Bytes {
    if chunks == [] then [] else Joined(chunks[..|chunks| - 1]) + BytesOf(chunks[|chunks| - 1])
  }

  function Take(b: Bytes, n: nat): Bytes {
    b[..Min(|b|, n)]
  }

  lemma AppendTakes(body: Bytes, chunk: Option<Bytes>, limit: nat)
    ensures Append(Take(body, limit), chunk, limit) == Take(body + BytesOf(chunk), limit)
  {
  }

  /** All chunks but the last, without end-of-stream. */
  function FeedOpen(c: Ctx, chunks: seq<Option<Bytes>>, verdict: Bytes -> bool): Ctx {
    if chunks == [] then c
    else
      var d := FeedOpen(c, chunks[..|chunks| - 1], verdict);
      if d.aborted then d else OnBody(d, chunks[|chunks| - 1], false, verdict)
  }

  /** A whole body: the last chunk comes with end-of-stream. */
  function FeedBody(c: Ctx, chunks: seq<Option<Bytes>>, verdict: Bytes -> bool): Ctx
    requires chunks != []
  {
    var d := FeedOpen(c, chunks[..|chunks| - 1], verdict);
    if d.aborted then d else OnBody(d, chunks[|chunks| - 1], true, verdict)
  }

  /** The two agree on everything the response side looks at. */
  predicate SameResponse(c: Ctx, d: Ctx) {
    && d.request == c.request && d.bypass == c.bypass && d.answered == c.answered
    && d.maskEnabled == c.maskEnabled && d.store == c.store && d.puts == c.puts
  }

  /** After an open prefix the buffer is its first bytes, and it has been
      inspected exactly if it is full. */
  lemma {:induction false} OpenPrefix(c: Ctx, chunks: seq<Option<Bytes>>, verdict: Bytes -> bool)
    requires c.request.Some? && !c.bypass && !c.bodyInspected && !c.aborted && c.bodyBuf == []
    ensures var d := FeedOpen(c, chunks, verdict); var body := Joined(chunks);
      && d.request == c.request && !d.bypass
      && d.bodyBuf == Take(body, BODY_PREVIEW_LIMIT)
      && (d.bodyInspected <==> |body| >= BODY_PREVIEW_LIMIT)
      && d.inspections == (if d.bodyInspected then c.inspections + [Take(body, BODY_PREVIEW_LIMIT)] else c.inspections)
      && (d.aborted <==> d.bodyInspected && !verdict(Take(body, BODY_PREVIEW_LIMIT)))
      && SameResponse(c, d)
    decreases |chunks|
  {
    if chunks != [] {
      var before := chunks[..|chunks| - 1];
      OpenPrefix(c, before, verdict);
      AppendTakes(Joined(before), chunks[|chunks| - 1], BODY_PREVIEW_LIMIT);
    }
  }

  /**
   However a request body is split, the engine inspects it exactly once, on its
   first min(n, 64 KiB) bytes, and not at all when it is empty.
   */
  lemma InspectionIgnoresChunking(c: Ctx, chunks: seq<Option<Bytes>>, verdict: Bytes -> bool)
    requires c.request.Some? && !c.bypass && !c.bodyInspected && !c.aborted && c.bodyBuf == []
    requires chunks != []
    ensures FeedBody(c, chunks, verdict).inspections ==
      if Joined(chunks) == [] then c.inspections else c.inspections + [Take(Joined(chunks), 65_536)]
    ensures FeedBody(c, chunks, verdict).aborted <==>
      Joined(chunks) != [] && !verdict(Take(Joined(chunks), 65_536))
    ensures SameResponse(c, FeedBody(c, chunks, verdict))
  {
    var before := chunks[..|chunks| - 1];
    OpenPrefix(c, before, verdict);
    AppendTakes(Joined(before), chunks[|chunks| - 1], BODY_PREVIEW_LIMIT);
    assert |Joined(before)| >= BODY_PREVIEW_LIMIT ==>
      Take(Joined(chunks), BODY_PREVIEW_LIMIT) == Take(Joined(before), BODY_PREVIEW_LIMIT);
  }

  function CaptureOpen(c: Ctx, chunks: seq<Option<Bytes>>): Ctx {
    if chunks == [] then c
    else OnResponseBody(CaptureOpen(c, chunks[..|chunks| - 1]), true, chunks[|chunks| - 1], false)
  }

  function CaptureBody(c: Ctx, chunks: seq<Option<Bytes>>): Ctx
    requires chunks != []
  {
    OnResponseBody(CaptureOpen(c, chunks[..|chunks| - 1]), true, chunks[|chunks| - 1], true)
  }

  lemma {:induction false} CapturedPrefix(c: Ctx, chunks: seq<Option<Bytes>>)
    requires !c.maskEnabled && c.store.Some? && c.store.value.started && c.store.value.body == []
    ensures CaptureOpen(c, chunks) ==
      c.(store := Some(c.store.value.(body := Take(Joined(chunks), RESPONSE_CACHE_BODY_LIMIT))))
    decreases |chunks|
  {
    if chunks != [] {
      var before := chunks[..|chunks| - 1];
      CapturedPrefix(c, before);
      AppendTakes(Joined(before), chunks[|chunks| - 1], RESPONSE_CACHE_BODY_LIMIT);
    }
  }

  /**
   However an upstream body is split, exactly one entry is stored and its body
   is the first min(n, 2 MiB) bytes: the whole body if and only if it fits.
   */
  lemma CaptureIgnoresChunking(c: Ctx, chunks: seq<Option<Bytes>>)
    requires !c.maskEnabled && c.store.Some? && c.store.value.started && c.store.value.body == []
    requires chunks != []
    ensures var body := Joined(chunks); var stored := Take(body, 2_097_152);
      && CaptureBody(c, chunks).puts == c.puts + [Put(c.store.value.(body := stored), false)]
      && (stored == body <==> |body| <= 2_097_152)
  {
    var before := chunks[..|chunks| - 1];
    CapturedPrefix(c, before);
    AppendTakes(Joined(before), chunks[|chunks| - 1], RESPONSE_CACHE_BODY_LIMIT);
  }

  lemma {:induction false} NothingCaptured(c: Ctx, chunks: seq<Option<Bytes>>)
    requires c.maskEnabled || c.store.None?
    ensures CaptureOpen(c, chunks) == c
    decreases |chunks|
  {
    if chunks != [] {
      NothingCaptured(c, chunks[..|chunks| - 1]);
    }
  }

  /** A bypassed body is not looked at. */
  lemma {:induction false} BypassedBody(c: Ctx, chunks: seq<Option<Bytes>>, verdict: Bytes -> bool)
    requires c.bypass
    ensures FeedOpen(c, chunks, verdict) == c
    decreases |chunks|
  {
    if chunks != [] {
      BypassedBody(c, chunks[..|chunks| - 1], verdict);
    }
  }

  /** A whole exchange: the request, its body if it has one, one response header,
      and the response body. */
  function Exchange(a: Arrival, body: seq<Option<Bytes>>, verdict: Bytes -> bool,
                    chainOk: bool, head: Head, maskNoop: bool, chunks: seq<Option<Bytes>>): Ctx
    requires chunks != []
  {
    var c := OnRequest(a);
    if c.answered then c
    else
      var b := if body == [] then c else FeedBody(c, body, verdict);
      if b.aborted then b
      else
        var d := OnResponse(b, chainOk, head, maskNoop);
        if d.aborted || !a.cacheOn then d else CaptureBody(d, chunks)
  }

  /** The engine let the request body pass. */
  predicate BodyPasses(body: seq<Option<Bytes>>, verdict: Bytes -> bool) {
    Joined(body) == [] || verdict(Take(Joined(body), 65_536))
  }

  lemma AfterBody(a: Arrival, body: seq<Option<Bytes>>, verdict: Bytes -> bool)
    requires !OnRequest(a).answered && body != []
    ensures var c, b := OnRequest(a), FeedBody(OnRequest(a), body, verdict);
      SameResponse(c, b) && (b.aborted <==> !c.bypass && !BodyPasses(body, verdict))
  {
    var c := OnRequest(a);
    if c.bypass {
      BypassedBody(c, body[..|body| - 1], verdict);
    } else {
      InspectionIgnoresChunking(c, body, verdict);
    }
  }

  lemma CaptureNothing(d: Ctx, chunks: seq<Option<Bytes>>)
    requires chunks != [] && (d.maskEnabled || d.store.None?)
    ensures CaptureBody(d, chunks).puts == d.puts
  {
    NothingCaptured(d, chunks[..|chunks| - 1]);
  }

  /** From the response header on. */
  lemma StoredFrom(a: Arrival, b: Ctx, chainOk: bool, head: Head, maskNoop: bool, chunks: seq<Option<Bytes>>)
    requires chunks != [] && !OnRequest(a).answered && SameResponse(OnRequest(a), b) && !b.aborted
    ensures var d := OnResponse(b, chainOk, head, maskNoop);
      (if d.aborted || !a.cacheOn then d else CaptureBody(d, chunks)).puts ==
        if StorableRequest(a) && chainOk && maskNoop && StorableHead(head)
        then [Put(StoredEntry(a.request.value, head, chunks), false)] else []
  {
    var d := OnResponse(b, chainOk, head, maskNoop);
    GetInAnyCase(a.request.value.method_);
    if !d.aborted && a.cacheOn {
      if d.maskEnabled || d.store.None? {
        CaptureNothing(d, chunks);
      } else {
        CaptureIgnoresChunking(d, chunks);
      }
    }
  }

  function StoredEntry(r: Request, head: Head, chunks: seq<Option<Bytes>>): Pending {
    Pending(r.cacheKey, r.policy, false, false, head, Take(Joined(chunks), 2_097_152), true)
  }

  /**
   Exactly which exchanges are stored, and as what: a cacheable request that
   reached the upstream with a body the engine let pass, answered with a
   capturable header that is not masked, is stored once, under its own key, with
   that header and the first 2 MiB of the body, however both bodies were split.
   Nothing else is stored.
   */
  lemma StoredExactly(a: Arrival, body: seq<Option<Bytes>>, verdict: Bytes -> bool,
                      chainOk: bool, head: Head, maskNoop: bool, chunks: seq<Option<Bytes>>)
    requires chunks != []
    ensures Exchange(a, body, verdict, chainOk, head, maskNoop, chunks).puts ==
      if StorableRequest(a) && BodyPasses(body, verdict) && chainOk && maskNoop && StorableHead(head)
      then [Put(StoredEntry(a.request.value, head, chunks), false)] else []
  {
    var c := OnRequest(a);
    if !c.answered {
      if body != [] {
        AfterBody(a, body, verdict);
      }
      var b := if body == [] then c else FeedBody(c, body, verdict);
      if !b.aborted {
        StoredFrom(a, b, chainOk, head, maskNoop, chunks);
      }
    }
  }

  function WithoutBody(cbs: seq<Callback>): seq<Callback> {
    if cbs == [] then []
    else if cbs[|cbs| - 1].Body? then WithoutBody(cbs[..|cbs| - 1])
    else WithoutBody(cbs[..|cbs| - 1]) + [cbs[|cbs| - 1]]
  }

  /** Wherever the chunks of the request body fall between the other callbacks,
      as long as none of them fails the exchange, the response side is the same
      as without them. */
  lemma {:induction false} BodyCommutes(a: Arrival, cbs: seq<Callback>)
    requires !Lifecycle(a, cbs).aborted
    ensures SameResponse(Lifecycle(a, cbs), Lifecycle(a, WithoutBody(cbs))) && !Lifecycle(a, WithoutBody(cbs)).aborted
    decreases |cbs|
  {
    if cbs != [] {
      var before, cb := cbs[..|cbs| - 1], cbs[|cbs| - 1];
      BodyCommutes(a, before);
      var c, d := Lifecycle(a, before), Lifecycle(a, WithoutBody(before));
      CallbackCommutes(c, d, a.cacheOn, cb);
      if !cb.Body? {
        LifecycleSnoc(a, WithoutBody(before), cb);
      }
    }
  }

  lemma LifecycleSnoc(a: Arrival, cbs: seq<Callback>, cb: Callback)
    ensures var c := Lifecycle(a, cbs);
      Lifecycle(a, cbs + [cb]) == if c.answered || c.aborted then c else OnCallback(c, a.cacheOn, cb)
  {
    assert (cbs + [cb])[..|cbs|] == cbs;
  }

  lemma CallbackCommutes(c: Ctx, d: Ctx, cacheOn: bool, cb: Callback)
    requires SameResponse(c, d) && !c.aborted && !d.aborted
    ensures cb.Body? ==> SameResponse(OnCallback(c, cacheOn, cb), d)
    ensures !cb.Body? ==>
      var c', d' := OnCallback(c, cacheOn, cb), OnCallback(d, cacheOn, cb);
      SameResponse(c', d') && (c'.aborted <==> d'.aborted)
  {
    match cb {
      case Body(chunk, eos, verdict) =>
      case Response(chainOk, head, maskNoop) => ResponseCommutes(c, d, chainOk, head, maskNoop);
      case ResponseBody(chunk, eos) =>
    }
  }

  lemma ResponseCommutes(c: Ctx, d: Ctx, chainOk: bool, head: Head, maskNoop: bool)
    requires SameResponse(c, d) && !c.aborted && !d.aborted
    ensures var c', d' := OnResponse(c, chainOk, head, maskNoop), OnResponse(d, chainOk, head, maskNoop);
      SameResponse(c', d') && (c'.aborted <==> d'.aborted)
  {
  }

  // ---------------------------------------------------------------------------
  // Which requests get through
  // ---------------------------------------------------------------------------

  /** Answered without the upstream: no known host, the health route, a refusal by the
      access lists, or one by the engine. */
  predicate AnsweredLocally(a: Arrival) {
    a.request.None? || a.health || a.gate == Block || (a.gate == Continue && !a.allowed)
  }

  /** Answered from the response cache. */
  predicate AnsweredFromCache(a: Arrival) {
    && a.request.Some? && !a.health && a.gate == Continue && a.allowed && a.cacheOn && a.cacheHit
    && Lower(a.request.value.method_) == "get" && a.request.value.policy.Caching?
    && "authorization" !in a.request.value.headers && |a.request.value.cookies| == 0
  }

  /**
   Over every sequence of callbacks: a request is answered without the upstream if and
   only if it is refused, has no host, is for the health route or hits the cache; then
   no callback changes anything, and nothing is inspected or stored.  It is exempt from
   the inspection of its body if and only if the access lists say so.
   */
  lemma {:induction false} AnsweredIff(a: Arrival, cbs: seq<Callback>)
    ensures var c := Lifecycle(a, cbs);
      && (c.answered <==> AnsweredLocally(a) || AnsweredFromCache(a))
      && (c.answered ==> c == Lifecycle(a, []) && c.inspections == [] && c.puts == [] && c.store.None?)
      && (c.bypass <==> a.request.Some? && !a.health && a.gate == Bypass)
      && (c.bypass ==> c.inspections == [])
    decreases |cbs|
  {
    if cbs == [] {
      if a.request.Some? { GetInAnyCase(a.request.value.method_); }
    } else {
      AnsweredIff(a, cbs[..|cbs| - 1]);
    }
  }

  /** The body of a request that is forwarded is inspected once, on its first 64 KiB,
      unless it is exempt or empty; and the exchange fails if and only if the engine then
      refuses it. */
  lemma ForwardedBody(a: Arrival, body: seq<Option<Bytes>>, verdict: Bytes -> bool)
    requires !AnsweredLocally(a) && !AnsweredFromCache(a) && body != []
    ensures var b := FeedBody(OnRequest(a), body, verdict);
      var looked := a.gate != Bypass && Joined(body) != [];
      && b.inspections == (if looked then [Take(Joined(body), 65_536)] else [])
      && (b.aborted <==> looked && !verdict(Take(Joined(body), 65_536)))
  {
    AnsweredIff(a, []);
    var c := OnRequest(a);
    if c.bypass {
      BypassedBody(c, body[..|body| - 1], verdict);
    } else {
      InspectionIgnoresChunking(c, body, verdict);
    }
  }

  /** The response body is masked if and only if a response header was identity-encoded
      and the mask of the host does something. */
  predicate TurnsMaskOn(cb: Callback) {
    cb.Response? && IdentityEncoded(cb.head) && !cb.maskNoop
  }

  lemma {:induction false} MaskedIff(a: Arrival, cbs: seq<Callback>)
    requires var c := Lifecycle(a, cbs); !c.answered && !c.aborted
    ensures Lifecycle(a, cbs).maskEnabled <==> exists k :: 0 <= k < |cbs| && TurnsMaskOn(cbs[k])
    decreases |cbs|
  {
    if cbs != [] {
      var before := cbs[..|cbs| - 1];
      AnsweredIff(a, before);
      AnsweredIff(a, cbs);
      LifecycleKeepsCacheInv(a, before);
      MaskedIff(a, before);
      assert forall k :: 0 <= k < |before| ==> before[k] == cbs[k];
      if Lifecycle(a, cbs).maskEnabled && !Lifecycle(a, before).maskEnabled {
        assert TurnsMaskOn(cbs[|cbs| - 1]);
      }
    }
  }

  /** `v` reads "identity" in any case, with white space around it from `i` on and up to
      there. */
  ghost predicate ReadsIdentity(v: string, i: nat) {
    && i + 8 <= |v| && (forall k :: 0 <= k < i || i + 8 <= k < |v| ==> IsSpace(v[k]))
    && forall k :: 0 <= k < 8 ==> v[i + k] == "identity"[k] || v[i + k] == "IDENTITY"[k]
  }

  ghost predicate ReadsAsIdentity(v: string) {
    exists i: nat :: ReadsIdentity(v, i)
  }

  lemma LowerIsIdentity(s: string)
    ensures Lower(s) == "identity" <==>
      |s| == 8 && forall k :: 0 <= k < 8 ==> s[k] == "identity"[k] || s[k] == "IDENTITY"[k]
  {
  }

  lemma TrimIsSlice(v: string) returns (i: nat, j: nat)
    ensures i <= j <= |v| && Trim(v) == v[i..j] && (forall k :: 0 <= k < i || j <= k < |v| ==> IsSpace(v[k]))
    ensures i < j ==> !IsSpace(v[i]) && !IsSpace(v[j - 1])
  {
    i := SkipSpace(v, 0);
    var s := TrimStart(v);
    j := i + SkipSpaceBack(s, |s|);
    assert forall k :: 0 <= k < |s| ==> s[k] == v[i + k];
    forall k | j <= k < |v| ensures IsSpace(v[k]) {
      assert IsSpace(s[k - i]);
    }
  }

  /** What counts as identity-encoded: no such header, one that is no text or blank, or
      one that reads "identity". */
  lemma IdentityMeans(h: Head)
    ensures IdentityEncoded(h) <==>
      || "content-encoding" !in h.headers || h.headers["content-encoding"].None?
      || (forall c <- h.headers["content-encoding"].value :: IsSpace(c))
      || ReadsAsIdentity(h.headers["content-encoding"].value)
  {
    if "content-encoding" in h.headers && h.headers["content-encoding"].Some? {
      IdentityText(h.headers["content-encoding"].value);
    }
  }

  lemma IdentityText(v: string)
    ensures (Trim(v) == "" <==> forall c <- v :: IsSpace(c))
    ensures EqIgnoreCase(Trim(v), "identity") <==> ReadsAsIdentity(v)
  {
    var i, j := TrimIsSlice(v);
    assert Lower("identity") == "identity";
    LowerIsIdentity(Trim(v));
    if EqIgnoreCase(Trim(v), "identity") {
      assert forall k :: 0 <= k < 8 ==> v[i + k] == Trim(v)[k];
      assert ReadsIdentity(v, i);
    }
    if at: nat :| ReadsIdentity(v, at) {
      SameSlice(v, i, j, at);
    }
    assert i < j ==> v[i] in v;
  }

  lemma SameSlice(v: string, i: nat, j: nat, at: nat)
    requires i <= j <= |v| && (forall k :: 0 <= k < i || j <= k < |v| ==> IsSpace(v[k])) && ReadsIdentity(v, at)
    requires i < j ==> !IsSpace(v[i]) && !IsSpace(v[j - 1])
    ensures i == at && j == at + 8
  {
    var first, last := v[at + 0], v[at + 7];
    assert first == "identity"[0] || first == "IDENTITY"[0];
    assert last == "identity"[7] || last == "IDENTITY"[7];
    assert first in ['i', 'I'] && last in ['y', 'Y'];
  }
}
