// The middleware's answer caches (middleware.ts): host to salon, widget token
// to frame header, address to salon state. The three share one shape, so the
// cache is generic and the three ways to read an API reply are given after it.
//
// A lookup runs up to its fetch in one piece and after it in another; any
// number of lookups may interleave between the two.
module LookupCache {
  import opened Common

  const MAX_ENTRIES := 2000

  // What an API reply says: an answer to keep for ttl milliseconds, or trouble.
  datatype Answer<V> = Definite(value: V, ttl: nat) | Trouble

  datatype Entry<V> = Entry(value: V, expires: int)

  type Cache<V> = map<string, Entry<V>>

  function Find<V>(cache: Cache<V>, key: string): (r: Option<Entry<V>>) {
    if key in cache then Some(cache[key]) else None
  }

  predicate Fresh<V>(cached: Option<Entry<V>>, now: nat) { cached.Some? && cached.value.expires > now }

  function Put<V>(cache: Cache<V>, key: string, entry: Entry<V>): (r: Cache<V>) {
    (if |cache| >= MAX_ENTRIES then map[] else cache)[key := entry]
  }

  lemma PutStaysSmall<V>(cache: Cache<V>, key: string, entry: Entry<V>)
    ensures |Put(cache, key, entry)| <= MAX_ENTRIES
  {
    var kept := if |cache| >= MAX_ENTRIES then map[] else cache;
    assert kept[key := entry].Keys == kept.Keys + {key};
  }

  // ---------------------------------------------------------------- machine

  // How one cache reads replies, and what it says when it knows nothing.
  datatype Api<!V, !R> = Api(interpret: R -> Answer<V>, fallback: V)

  datatype Source = FromCache | FromApi | FromExpired | FromNothing

  datatype Served<V> = Served(value: V, source: Source)

  // cached is what the lookup read before its fetch.
  datatype Lookup<V> = Lookup(key: string, asked: nat, cached: Option<Entry<V>>, served: Option<Served<V>>)

  datatype Told<R> = Told(key: string, asked: nat, reply: R)

  // told lists the API's replies in the order they arrived.
  datatype State<V, R> = State(cache: Cache<V>, lookups: seq<Lookup<V>>, told: seq<Told<R>>)

  datatype Step<R> = Begin(key: string, now: nat) | Finish(i: nat, reply: R)

  function Empty<V, R>(): (r: State<V, R>) { State(map[], [], []) }

  predicate Pending<V, R>(s: State<V, R>, i: nat) { i < |s.lookups| && s.lookups[i].served.None? }

  predicate Enabled<V, R>(s: State<V, R>, step: Step<R>) {
    match step
    case Begin(_, _) => true
    case Finish(i, _) => Pending(s, i)
  }

  function Serve<V, R>(api: Api<V, R>, l: Lookup<V>, answer: Answer<V>): (r: Lookup<V>) {
    match answer
    case Definite(value, _) => l.(served := Some(Served(value, FromApi)))
    case Trouble => match l.cached
      case Some(e) => l.(served := Some(Served(e.value, FromExpired)))
      case None => l.(served := Some(Served(api.fallback, FromNothing)))
  }

  function Do<V, R>(api: Api<V, R>, s: State<V, R>, step: Step<R>): (r: State<V, R>)
    requires Enabled(s, step)
  {
    match step
    case Begin(key, now) =>
      var cached := Find(s.cache, key);
      var served := if Fresh(cached, now) then Some(Served(cached.value.value, FromCache)) else None;
      s.(lookups := s.lookups + [Lookup(key, now, cached, served)])
    case Finish(i, reply) =>
      var l := s.lookups[i];
      var answer := api.interpret(reply);
      State(
        match answer
        case Definite(value, ttl) => Put(s.cache, l.key, Entry(value, l.asked + ttl))
        case Trouble => s.cache,
        s.lookups[i := Serve(api, l, answer)],
        s.told + [Told(l.key, l.asked, reply)])
  }

  // -------------------------------------------------------------- invariant

  // The definite answer t gave for key, as an entry.
  function EntryOf<V, R>(api: Api<V, R>, t: Told<R>, key: string): (r: Option<Entry<V>>) {
    if t.key != key then None
    else match api.interpret(t.reply)
      case Definite(value, ttl) => Some(Entry(value, t.asked + ttl))
      case Trouble => None
  }

  // The last definite answer for key to arrive.
  function Latest<V, R>(api: Api<V, R>, told: seq<Told<R>>, key: string): (r: Option<Entry<V>>) {
    if told == [] then None
    else
      var n := |told| - 1;
      match EntryOf(api, told[n], key)
      case Some(e) => Some(e)
      case None => Latest(api, told[..n], key)
  }

  lemma LatestGrows<V, R>(api: Api<V, R>, told: seq<Told<R>>, t: Told<R>, key: string)
    ensures Latest(api, told + [t], key) ==
      if EntryOf(api, t, key).Some? then EntryOf(api, t, key) else Latest(api, told, key)
  {
    assert (told + [t])[..|told|] == told;
  }

  ghost predicate WasTold<V, R>(api: Api<V, R>, told: seq<Told<R>>, key: string, e: Entry<V>) {
    exists i :: 0 <= i < |told| && EntryOf(api, told[i], key) == Some(e)
  }

  lemma {:induction false} LatestWasTold<V, R>(api: Api<V, R>, told: seq<Told<R>>, key: string)
    ensures Latest(api, told, key).Some? ==> WasTold(api, told, key, Latest(api, told, key).value)
  {
    if told != [] {
      var n := |told| - 1;
      LatestWasTold(api, told[..n], key);
      if EntryOf(api, told[n], key).None? && Latest(api, told, key).Some? {
        var i :| 0 <= i < n && EntryOf(api, told[..n][i], key) == Latest(api, told, key);
        assert EntryOf(api, told[i], key) == Latest(api, told, key);
      }
    }
  }

  lemma ToldGrows<V, R>(api: Api<V, R>, told: seq<Told<R>>, t: Told<R>, key: string, e: Entry<V>)
    requires WasTold(api, told, key, e)
    ensures WasTold(api, told + [t], key, e)
  {
    var i :| 0 <= i < |told| && EntryOf(api, told[i], key) == Some(e);
    assert (told + [t])[i] == told[i];
  }

  // t is the reply to this lookup's own question, and says value.
  predicate Answers<V(==), R>(api: Api<V, R>, t: Told<R>, l: Lookup<V>, value: V) {
    && t.key == l.key && t.asked == l.asked
    && api.interpret(t.reply).Definite? && api.interpret(t.reply).value == value
  }

  // Where each kind of answer comes from.
  ghost predicate Justified<V, R>(api: Api<V, R>, told: seq<Told<R>>, l: Lookup<V>) {
    && (l.cached.Some? ==> WasTold(api, told, l.key, l.cached.value))
    && match l.served
      case None => !Fresh(l.cached, l.asked)
      case Some(Served(v, FromCache)) => Fresh(l.cached, l.asked) && v == l.cached.value.value
      case Some(Served(v, FromApi)) => exists i :: 0 <= i < |told| && Answers(api, told[i], l, v)
      case Some(Served(v, FromExpired)) => l.cached.Some? && !Fresh(l.cached, l.asked) && v == l.cached.value.value
      case Some(Served(v, FromNothing)) => l.cached.None? && v == api.fallback
  }

  ghost predicate CacheTrue<V, R>(api: Api<V, R>, s: State<V, R>) {
    |s.cache| <= MAX_ENTRIES && forall key :: key in s.cache ==> Latest(api, s.told, key) == Some(s.cache[key])
  }

  ghost predicate Valid<V, R>(api: Api<V, R>, s: State<V, R>) {
    CacheTrue(api, s) && forall i :: 0 <= i < |s.lookups| ==> Justified(api, s.told, s.lookups[i])
  }

  lemma StillJustified<V, R>(api: Api<V, R>, told: seq<Told<R>>, t: Told<R>, l: Lookup<V>)
    requires Justified(api, told, l)
    ensures Justified(api, told + [t], l)
  {
    if l.cached.Some? {
      ToldGrows(api, told, t, l.key, l.cached.value);
    }
    match l.served {
      case Some(Served(v, FromApi)) =>
        var i :| 0 <= i < |told| && Answers(api, told[i], l, v);
        assert Answers(api, (told + [t])[i], l, v);
      case _ =>
    }
  }

  lemma FinishKeepsCache<V, R>(api: Api<V, R>, s: State<V, R>, i: nat, reply: R)
    requires CacheTrue(api, s) && Pending(s, i)
    ensures CacheTrue(api, Do(api, s, Finish(i, reply)))
  {
    var l := s.lookups[i];
    var t := Told(l.key, l.asked, reply);
    var after := Do(api, s, Finish(i, reply));
    match api.interpret(reply) {
      case Definite(value, ttl) => PutStaysSmall(s.cache, l.key, Entry(value, l.asked + ttl));
      case Trouble =>
    }
    forall key | key in after.cache ensures Latest(api, after.told, key) == Some(after.cache[key]) {
      LatestGrows(api, s.told, t, key);
    }
  }

  lemma FinishJustified<V, R>(api: Api<V, R>, s: State<V, R>, i: nat, reply: R)
    requires Pending(s, i) && Justified(api, s.told, s.lookups[i])
    ensures var after := Do(api, s, Finish(i, reply)); Justified(api, after.told, after.lookups[i])
  {
    var l := s.lookups[i];
    var t := Told(l.key, l.asked, reply);
    StillJustified(api, s.told, t, l);
    match api.interpret(reply) {
      case Definite(value, ttl) =>
        assert Answers(api, (s.told + [t])[|s.told|], l, value);
      case Trouble =>
    }
  }

  lemma StepKeepsValid<V, R>(api: Api<V, R>, s: State<V, R>, step: Step<R>)
    requires Valid(api, s) && Enabled(s, step)
    ensures Valid(api, Do(api, s, step))
  {
    var after := Do(api, s, step);
    match step {
      case Begin(key, now) => LatestWasTold(api, s.told, key);
      case Finish(i, reply) =>
        FinishKeepsCache(api, s, i, reply);
        FinishJustified(api, s, i, reply);
        forall j | 0 <= j < |after.lookups| && j != i ensures Justified(api, after.told, after.lookups[j]) {
          StillJustified(api, s.told, Told(s.lookups[i].key, s.lookups[i].asked, reply), s.lookups[j]);
        }
    }
  }

  // ------------------------------------------------------------ what is kept

  // A definite answer is kept, for as long as it says, and pushes nothing else
  // out unless the cache was full, when it pushes out all the rest.
  lemma AnswersAreKept<V, R>(api: Api<V, R>, s: State<V, R>, i: nat, reply: R)
    requires Pending(s, i) && api.interpret(reply).Definite?
    ensures var l := s.lookups[i]; var answer := api.interpret(reply);
      var entry := Entry(answer.value, l.asked + answer.ttl); var after := Do(api, s, Finish(i, reply)).cache;
      && l.key in after && after[l.key] == entry
      && (|s.cache| < 2000 ==> after.Keys == s.cache.Keys + {l.key})
      && (|s.cache| < 2000 ==> forall key :: key in s.cache && key != l.key ==> after[key] == s.cache[key])
      && (|s.cache| >= 2000 ==> after == map[l.key := entry])
  {
  }

  // A lookup that finds an entry not yet expired is served it at once; any
  // other asks.
  lemma ServedWhileFresh<V, R>(api: Api<V, R>, s: State<V, R>, key: string, now: nat)
    ensures var l := Do(api, s, Begin(key, now)).lookups[|s.lookups|];
      && Do(api, s, Begin(key, now)).cache == s.cache
      && (key in s.cache && now < s.cache[key].expires ==> l.served == Some(Served(s.cache[key].value, FromCache)))
      && (key !in s.cache || s.cache[key].expires <= now ==> l.served.None?)
  {
  }

  // ------------------------------------------------------------------- runs

  ghost predicate IsRun<V, R>(api: Api<V, R>, s: State<V, R>, steps: seq<Step<R>>)
    decreases |steps|
  {
    steps == [] || (Enabled(s, steps[0]) && IsRun(api, Do(api, s, steps[0]), steps[1..]))
  }

  function After<V, R>(api: Api<V, R>, s: State<V, R>, steps: seq<Step<R>>): (r: State<V, R>)
    requires IsRun(api, s, steps)
    decreases |steps|
  {
    if steps == [] then s else After(api, Do(api, s, steps[0]), steps[1..])
  }

  // Main result: whatever the interleaving, the clock and the replies, the
  // cache holds at most 2000 entries, an entry is the last definite answer
  // for its own key, and every lookup's answer is justified.
  lemma {:induction false} RunKeepsValid<V, R>(api: Api<V, R>, s: State<V, R>, steps: seq<Step<R>>)
    requires Valid(api, s) && IsRun(api, s, steps)
    ensures Valid(api, After(api, s, steps))
    decreases |steps|
  {
    if steps != [] {
      StepKeepsValid(api, s, steps[0]);
      RunKeepsValid(api, Do(api, s, steps[0]), steps[1..]);
    }
  }

  // ------------------------------------------------------------ the three APIs

  datatype Body = Unreadable | JsonNull | Json(slug: string)

  // Json's slug is empty when the body holds no text under that name.
  datatype HttpReply = NetworkError | Http(status: nat, body: Body)

  predicate IsOk(status: nat) { 200 <= status < 300 }

  const HIT_TTL_MS := 5 * 60000
  const MISS_TTL_MS := 60000
  const EMBED_TTL_MS := 60000
  const GONE_TTL_MS := 5 * 60000

  function TextOf(slug: string): (r: Option<string>) { if slug == "" then None else Some(slug) }

  // slugForHost
  function HostAnswer(reply: HttpReply): (r: Answer<Option<string>>) {
    match reply
    case NetworkError => Trouble
    case Http(status, body) =>
      if IsOk(status) then
        match body
        case Json(slug) => if slug != "" then Definite(Some(slug), HIT_TTL_MS) else Definite(None, MISS_TTL_MS)
        case _ => Trouble
      else if status != 404 then Trouble
      else Definite(None, MISS_TTL_MS)
  }

  const HOST_API: Api<Option<string>, HttpReply> := Api(HostAnswer, None)

  datatype SalonState = SalonState(gone: bool, slug: Option<string>)

  // salonState
  function StateAnswer(reply: HttpReply): (r: Answer<SalonState>) {
    match reply
    case NetworkError => Trouble
    case Http(status, body) =>
      if status != 410 && !IsOk(status) && status != 404 then Trouble
      else
        var current := if IsOk(status) && body.Json? then TextOf(body.slug) else None;
        Definite(SalonState(status == 410, current), GONE_TTL_MS)
  }

  const STATE_API: Api<SalonState, HttpReply> := Api(StateAnswer, SalonState(false, None))

  // embedFrameHeader; frame is what frameAncestorsHeader makes of a body.
  function EmbedAnswer(frame: Body -> Option<string>, reply: HttpReply): (r: Answer<Option<string>>) {
    match reply
    case NetworkError => Trouble
    case Http(status, body) =>
      if !IsOk(status) || body.Unreadable? then Trouble else Definite(frame(body), EMBED_TTL_MS)
  }

  function EmbedApi(frame: Body -> Option<string>): (r: Api<Option<string>, HttpReply>) {
    Api(reply => EmbedAnswer(frame, reply), None)
  }

  // For how long each answer is kept, in milliseconds.
  lemma TimesToLive(reply: HttpReply, frame: Body -> Option<string>)
    ensures HostAnswer(reply).Definite? ==>
      HostAnswer(reply).ttl == if HostAnswer(reply).value.Some? then 300000 else 60000
    ensures StateAnswer(reply).Definite? ==> StateAnswer(reply).ttl == 300000
    ensures EmbedAnswer(frame, reply).Definite? ==> EmbedAnswer(frame, reply).ttl == 60000
  {
  }

  // So a host whose salon the API named is asked for again after five minutes
  // and not before: until then any lookup of it is served that salon.
  lemma HostIsAskedOnce(s: State<Option<string>, HttpReply>, i: nat, status: nat, slug: string, now: nat)
    requires Pending(s, i) && IsOk(status) && slug != ""
    ensures var t := Do(HOST_API, s, Finish(i, Http(status, Json(slug))));
      var u := Do(HOST_API, t, Begin(s.lookups[i].key, now));
      && t.lookups[i].served == Some(Served(Some(slug), FromApi))
      && |u.lookups| == |s.lookups| + 1
      && u.lookups[|s.lookups|].served ==
        if now < s.lookups[i].asked + 300000 then Some(Served(Some(slug), FromCache)) else None
  {
    var reply := Http(status, Json(slug));
    AnswersAreKept(HOST_API, s, i, reply);
    ServedWhileFresh(HOST_API, Do(HOST_API, s, Finish(i, reply)), s.lookups[i].key, now);
  }

  // What the API says is what the lookup that asked is told: the salon of a
  // host or that it has none; that a salon is gone, has moved, or neither; the
  // frame header of a widget. Nothing is heard in any other reply.
  lemma RepliesAreHeard(status: nat, body: Body, frame: Body -> Option<string>)
    ensures var said := HostAnswer(Http(status, body));
      && (IsOk(status) && body.Json? && body.slug != "" ==> said.Definite? && said.value == Some(body.slug))
      && (status == 404 || (IsOk(status) && body == Json("")) ==> said.Definite? && said.value == None)
      && (said.Definite? ==> status == 404 || (IsOk(status) && body.Json?))
    ensures var said := StateAnswer(Http(status, body));
      && (status == 410 ==> said.Definite? && said.value == SalonState(true, None))
      && (IsOk(status) && body.Json? && body.slug != "" ==> said.Definite? && said.value == SalonState(false, Some(body.slug)))
      && (status == 404 || (IsOk(status) && (!body.Json? || body.slug == "")) ==>
            said.Definite? && said.value == SalonState(false, None))
      && (said.Definite? ==> status == 410 || status == 404 || IsOk(status))
    ensures var said := EmbedAnswer(frame, Http(status, body));
      && (IsOk(status) && !body.Unreadable? ==> said.Definite? && said.value == frame(body))
      && (said.Definite? ==> IsOk(status) && !body.Unreadable?)
  {
  }

  // The API said, less than the time to live before, that slug is host's salon
  // (or, for None, that host has none).
  ghost predicate RecentlySaid(told: seq<Told<HttpReply>>, l: Lookup<Option<string>>, slug: Option<string>) {
    exists i :: 0 <= i < |told| && told[i].key == l.key && SaysSlug(told[i].reply, slug)
      && l.asked - told[i].asked < (if slug.Some? then 300000 else 60000)
  }

  predicate SaysSlug(reply: HttpReply, slug: Option<string>) {
    && reply.Http?
    && (match slug
        case Some(s) => IsOk(reply.status) && reply.body == Json(s) && s != ""
        case None => reply.status == 404 || (IsOk(reply.status) && reply.body == Json("")))
  }

  // Main result for hosts: an answer served from the cache was asked for, for
  // that very host, less than five minutes ago (a salon) or one minute ago (no
  // salon), in every run.
  lemma HostAnswersAreRecent(steps: seq<Step<HttpReply>>, k: nat)
    requires IsRun(HOST_API, Empty(), steps)
    requires var s := After(HOST_API, Empty(), steps); k < |s.lookups| && s.lookups[k].served.Some?
    ensures var s := After(HOST_API, Empty(), steps); var l := s.lookups[k];
      && |s.cache| <= 2000
      && (l.served.value.source == FromCache ==> RecentlySaid(s.told, l, l.served.value.value))
      && (l.served.value.source == FromNothing ==> l.served.value.value == None)
  {
    RunKeepsValid(HOST_API, Empty(), steps);
    var s := After(HOST_API, Empty(), steps);
    var l := s.lookups[k];
    assert Justified(HOST_API, s.told, l);
    if l.served.value.source == FromCache {
      var i :| 0 <= i < |s.told| && EntryOf(HOST_API, s.told[i], l.key) == Some(l.cached.value);
      assert SaysSlug(s.told[i].reply, l.served.value.value);
    }
  }

  // What a reply says of a salon's address: gone, or where it is now.
  predicate SaysState(reply: HttpReply, state: SalonState) {
    && reply.Http?
    && (state.gone <==> reply.status == 410)
    && (match state.slug
        case Some(s) => IsOk(reply.status) && reply.body == Json(s) && s != ""
        case None => reply.status == 410 || reply.status == 404 || (IsOk(reply.status) && (reply.body.Json? ==> reply.body.slug == "")))
  }

  // A salon is shown as gone, or moved, only if the API said so of its own
  // address: now, or less than five minutes ago when the answer is from the
  // cache; when nothing is known it is neither.
  lemma StateAnswersAreSaid(steps: seq<Step<HttpReply>>, k: nat)
    requires IsRun(STATE_API, Empty(), steps)
    requires var s := After(STATE_API, Empty(), steps); k < |s.lookups| && s.lookups[k].served.Some?
    ensures var s := After(STATE_API, Empty(), steps); var l := s.lookups[k]; var said := l.served.value;
      && |s.cache| <= 2000
      && (said.source == FromNothing ==> said.value == SalonState(false, None))
      && (said.source != FromNothing ==>
            exists i :: 0 <= i < |s.told| && s.told[i].key == l.key && SaysState(s.told[i].reply, said.value)
              && (said.source == FromApi ==> s.told[i].asked == l.asked)
              && (said.source == FromCache ==> l.asked - s.told[i].asked < 300000))
  {
    RunKeepsValid(STATE_API, Empty(), steps);
    var s := After(STATE_API, Empty(), steps);
    var l := s.lookups[k];
    assert Justified(STATE_API, s.told, l);
    match l.served.value.source {
      case FromApi =>
        var i :| 0 <= i < |s.told| && Answers(STATE_API, s.told[i], l, l.served.value.value);
        assert SaysState(s.told[i].reply, l.served.value.value);
      case FromNothing =>
      case _ =>
        var i :| 0 <= i < |s.told| && EntryOf(STATE_API, s.told[i], l.key) == Some(l.cached.value);
        assert SaysState(s.told[i].reply, l.served.value.value);
    }
  }

  // A widget's frame header from the cache is what the API's list said less
  // than a minute ago for that token.
  lemma EmbedHeadersAreRecent(frame: Body -> Option<string>, steps: seq<Step<HttpReply>>, k: nat)
    requires IsRun(EmbedApi(frame), Empty(), steps)
    requires var s := After(EmbedApi(frame), Empty(), steps);
      k < |s.lookups| && s.lookups[k].served.Some? && s.lookups[k].served.value.source == FromCache
    ensures var s := After(EmbedApi(frame), Empty(), steps); var l := s.lookups[k];
      exists i :: 0 <= i < |s.told| && s.told[i].key == l.key && l.asked - s.told[i].asked < 60000
        && s.told[i].reply.Http? && IsOk(s.told[i].reply.status) && !s.told[i].reply.body.Unreadable?
        && l.served.value.value == frame(s.told[i].reply.body)
  {
    var api := EmbedApi(frame);
    RunKeepsValid(api, Empty(), steps);
    var s := After(api, Empty(), steps);
    var l := s.lookups[k];
    assert Justified(api, s.told, l);
    var i :| 0 <= i < |s.told| && EntryOf(api, s.told[i], l.key) == Some(l.cached.value);
    assert EmbedAnswer(frame, s.told[i].reply).Definite?;
  }

  // The replies that are answers. Every other one is trouble, and changes no
  // cache.
  lemma WhatIsRemembered<V>(
    reply: HttpReply, frame: Body -> Option<string>, api: Api<V, HttpReply>, s: State<V, HttpReply>, i: nat)
    requires Pending(s, i)
    ensures HostAnswer(reply).Definite? <==>
      reply.Http? && (reply.status == 404 || (IsOk(reply.status) && reply.body.Json?))
    ensures StateAnswer(reply).Definite? <==>
      reply.Http? && (reply.status == 404 || reply.status == 410 || IsOk(reply.status))
    ensures EmbedAnswer(frame, reply).Definite? <==> reply.Http? && IsOk(reply.status) && !reply.body.Unreadable?
    ensures api.interpret(reply).Trouble? ==> Do(api, s, Finish(i, reply)).cache == s.cache
  {
  }

  // -------------------------------------------------------- order of answers

  // The entry kept is the last to arrive, which need not be the last asked
  // for: whenever two lookups of one key are pending at once, the later one's
  // answer can arrive first and be replaced by the earlier one's.
  lemma OverlapGoesBack<V, R>(api: Api<V, R>, s: State<V, R>, i: nat, j: nat, first: R, second: R)
    requires i != j && Pending(s, i) && Pending(s, j) && s.lookups[i].key == s.lookups[j].key
    requires s.lookups[i].asked < s.lookups[j].asked
    requires api.interpret(first).Definite? && api.interpret(second).Definite?
    ensures var key := s.lookups[i].key; var t := Do(api, Do(api, s, Finish(j, second)), Finish(i, first));
      && key in t.cache
      && Some(t.cache[key]) == EntryOf(api, Told(key, s.lookups[i].asked, first), key)
      && t.told == s.told + [Told(key, s.lookups[j].asked, second), Told(key, s.lookups[i].asked, first)]
  {
    var u := Do(api, s, Finish(j, second));
    assert u.lookups[i] == s.lookups[i];
  }

  // That is reached from an empty cache: two lookups of one key begin before
  // either ends, and the earlier answer stays, with the time it was asked at.
  lemma OverlapIsReached<V, R>(api: Api<V, R>, key: string, first: R, second: R)
    requires api.interpret(first).Definite? && api.interpret(second).Definite?
    ensures var steps := [Begin(key, 0), Begin(key, 1), Finish(1, second), Finish(0, first)];
      && IsRun(api, Empty(), steps)
      && var s := After(api, Empty(), steps);
      && s.told == [Told(key, 1, second), Told(key, 0, first)]
      && key in s.cache && Some(s.cache[key]) == EntryOf(api, s.told[1], key)
  {
    var steps: seq<Step<R>> := [Begin(key, 0), Begin(key, 1), Finish(1, second), Finish(0, first)];
    var s0: State<V, R> := Empty();
    var s1 := Do(api, s0, steps[0]);
    var s2 := Do(api, s1, steps[1]);
    assert Pending(s2, 0) && Pending(s2, 1);
    OverlapGoesBack(api, s2, 0, 1, first, second);
    var s3 := Do(api, s2, steps[2]);
    var s4 := Do(api, s3, steps[3]);
    RunOfFour(api, steps, s0, s1, s2, s3, s4);
  }

  lemma RunOfFour<V, R>(
    api: Api<V, R>, steps: seq<Step<R>>,
    s0: State<V, R>, s1: State<V, R>, s2: State<V, R>, s3: State<V, R>, s4: State<V, R>)
    requires |steps| == 4
    requires Enabled(s0, steps[0]) && s1 == Do(api, s0, steps[0]) && Enabled(s1, steps[1]) && s2 == Do(api, s1, steps[1])
    requires Enabled(s2, steps[2]) && s3 == Do(api, s2, steps[2]) && Enabled(s3, steps[3]) && s4 == Do(api, s3, steps[3])
    ensures IsRun(api, s0, steps) && After(api, s0, steps) == s4
  {
    hide Do, Enabled;
    var a, b, c := steps[1..], steps[2..], steps[3..];
    assert a[1..] == b && b[1..] == c && c[1..] == [];
    assert IsRun(api, s3, c) && After(api, s3, c) == s4;
    assert IsRun(api, s2, b) && After(api, s2, b) == s4;
    assert IsRun(api, s1, a) && After(api, s1, a) == s4;
  }

  // No other lookup of the key is pending, and the clock is not behind it.
  predicate Alone<V, R>(s: State<V, R>, step: Step<R>) {
    step.Begin? ==> forall i :: 0 <= i < |s.lookups| && s.lookups[i].key == step.key ==>
      s.lookups[i].served.Some? && s.lookups[i].asked <= step.now
  }

  ghost predicate AloneRun<V, R>(api: Api<V, R>, s: State<V, R>, steps: seq<Step<R>>)
    requires IsRun(api, s, steps)
    decreases |steps|
  {
    steps == [] || (Alone(s, steps[0]) && AloneRun(api, Do(api, s, steps[0]), steps[1..]))
  }

  // Replies to one key arrived in the order they were asked for, and a pending
  // lookup is its key's newest.
  ghost predicate InOrder<V, R>(s: State<V, R>) {
    && (forall a, b :: 0 <= a < b < |s.told| && s.told[a].key == s.told[b].key ==> s.told[a].asked <= s.told[b].asked)
    && (forall a :: 0 <= a < |s.told| ==> IsAsked(s, s.told[a]))
    && (forall i: nat, j: nat :: Pending(s, i) && j < |s.lookups| && s.lookups[i].key == s.lookups[j].key ==>
          s.lookups[j].asked <= s.lookups[i].asked)
  }

  ghost predicate IsAsked<V, R>(s: State<V, R>, t: Told<R>) {
    exists i :: 0 <= i < |s.lookups| && s.lookups[i].key == t.key && s.lookups[i].asked == t.asked
  }

  lemma StaysAsked<V, R>(api: Api<V, R>, s: State<V, R>, step: Step<R>, t: Told<R>)
    requires Enabled(s, step) && IsAsked(s, t)
    ensures IsAsked(Do(api, s, step), t)
  {
    var i :| 0 <= i < |s.lookups| && s.lookups[i].key == t.key && s.lookups[i].asked == t.asked;
    assert Do(api, s, step).lookups[i].key == t.key && Do(api, s, step).lookups[i].asked == t.asked;
  }

  lemma StepKeepsOrder<V, R>(api: Api<V, R>, s: State<V, R>, step: Step<R>)
    requires Enabled(s, step) && Alone(s, step) && InOrder(s)
    ensures InOrder(Do(api, s, step))
  {
    var after := Do(api, s, step);
    forall a | 0 <= a < |s.told| ensures IsAsked(after, s.told[a]) {
      StaysAsked(api, s, step, s.told[a]);
    }
    if step.Finish? {
      var l := s.lookups[step.i];
      assert after.lookups[step.i].key == l.key && after.lookups[step.i].asked == l.asked;
      assert forall a :: 0 <= a < |s.told| && s.told[a].key == l.key ==> s.told[a].asked <= l.asked;
    }
  }

  lemma {:induction false} RunKeepsOrder<V, R>(api: Api<V, R>, s: State<V, R>, steps: seq<Step<R>>)
    requires IsRun(api, s, steps) && AloneRun(api, s, steps) && InOrder(s)
    ensures InOrder(After(api, s, steps))
    decreases |steps|
  {
    if steps != [] {
      StepKeepsOrder(api, s, steps[0]);
      RunKeepsOrder(api, Do(api, s, steps[0]), steps[1..]);
    }
  }

  lemma {:induction false} LatestIsNewest<V, R>(api: Api<V, R>, told: seq<Told<R>>, key: string, b: nat)
    requires forall a, c :: 0 <= a < c < |told| && told[a].key == told[c].key ==> told[a].asked <= told[c].asked
    requires b < |told| && EntryOf(api, told[b], key).Some?
    ensures exists a :: (b <= a < |told| && EntryOf(api, told[a], key) == Latest(api, told, key)
      && told[b].asked <= told[a].asked)
  {
    var n := |told| - 1;
    if EntryOf(api, told[n], key).None? {
      LatestIsNewest(api, told[..n], key, b);
      var a :| b <= a < n && EntryOf(api, told[..n][a], key) == Latest(api, told[..n], key)
        && told[b].asked <= told[..n][a].asked;
      assert EntryOf(api, told[a], key) == Latest(api, told, key);
    }
  }

  // Main result: while lookups of one key never overlap, and the clock does
  // not go back, an entry is the definite answer asked for last.
  lemma WithoutOverlapNewestIsKept<V, R>(api: Api<V, R>, steps: seq<Step<R>>, key: string, b: nat)
    requires IsRun(api, Empty(), steps) && AloneRun(api, Empty(), steps)
    requires var s := After(api, Empty(), steps);
      key in s.cache && b < |s.told| && EntryOf(api, s.told[b], key).Some?
    ensures var s := After(api, Empty(), steps);
      exists a :: b <= a < |s.told| && EntryOf(api, s.told[a], key) == Some(s.cache[key])
        && s.told[b].asked <= s.told[a].asked
  {
    RunKeepsValid(api, Empty(), steps);
    RunKeepsOrder(api, Empty(), steps);
    LatestIsNewest(api, After(api, Empty(), steps).told, key, b);
  }

  // ------------------------------------------------------------------ the map

  // One of the module's Maps, with the two pieces of its lookup function.
  class TtlCache<V> {
    var entries: map<string, Entry<V>>

    constructor ()
      ensures entries == map[]
    {
      entries := map[];
    }

    // Up to the fetch: what the map holds, and whether it answers already.
    method Look(key: string, now: nat) returns (cached: Option<Entry<V>>, hit: bool)
      ensures cached == Find(entries, key) && hit == Fresh(cached, now)
    {
      if key in entries {
        cached := Some(entries[key]);
        hit := cached.value.expires > now;
      } else {
        cached, hit := None, false;
      }
    }

    // After the fetch.
    method Settle<R>(api: Api<V, R>, ghost s: State<V, R>, ghost i: nat, l: Lookup<V>, reply: R) returns (value: V)
      requires Valid(api, s) && Pending(s, i) && s.lookups[i] == l && s.cache == entries
      modifies this
      ensures var after := Do(api, s, Finish(i, reply));
        && entries == after.cache && Valid(api, after)
        && after.lookups[i].served.Some? && value == after.lookups[i].served.value.value
      ensures |entries| <= MAX_ENTRIES
    {
      StepKeepsValid(api, s, Finish(i, reply));
      match api.interpret(reply) {
        case Trouble => value := if l.cached.Some? then l.cached.value.value else api.fallback;
        case Definite(v, ttl) =>
          if |entries| >= MAX_ENTRIES {
            entries := map[];
          }
          entries := entries[l.key := Entry(v, l.asked + ttl)];
          value := v;
      }
    }
  }
}
