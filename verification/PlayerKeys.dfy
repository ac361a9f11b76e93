/** The player-key cache and the asynchronous key validation
    (`insert_player_key_cache_locked`, `sweep_player_key_cache`, `validate_player_key`,
    `start_player_key_validation`, `process_player_key_response`,
    sls/src/core/SLSListenerAuth.cpp).  Times are milliseconds. */
module PlayerKeys {
  import opened Bytes
  import opened MapSizes
  import RateLimit

  const MAX_PLAYER_KEY_CACHE_ENTRIES := 50000
  const PLAYER_KEY_CACHE_SWEEP_INTERVAL := 5000
  const MAX_PENDING_PLAYER_KEY_VALIDATIONS := 1024
  const URL_MAX_LEN := 2048

  datatype Entry = Entry(streamId: string, valid: bool, expiry: int, maxPlayers: Option<int>)

  /** What the JSON body of a webhook reply holds. */
  datatype Body = Malformed | NoStreamId | StreamId(id: string, maxPlayers: Option<int>)
  datatype Reply = Reply(success: bool, status: int, body: Body)

  /** A reply, when it was processed, and the verdict it carries. */
  datatype Response = Response(time: int, reply: Reply) {
    /** The stream the key resolves to; None for every kind of refusal. */
    function Verdict(): Option<string> {
      if reply.success && reply.status == 200 && reply.body.StreamId? && 0 < |reply.body.id| < URL_MAX_LEN
      then Some(reply.body.id) else None
    }

    /** The player limit it sets for the stream: -1 is none, what is lower is ignored. */
    function Limit(): Option<int> {
      if Verdict().Some? && reply.body.maxPlayers.Some? && reply.body.maxPlayers.value >= -1
      then reply.body.maxPlayers else None
    }

    /** How long the verdict is believed. */
    function BelievedUntil(duration: nat): int {
      time + if Verdict().Some? then duration else duration / 4
    }
  }

  /** A cache entry says what a response said. */
  predicate Agrees(e: Entry, r: Response, duration: nat) {
    && e.valid == r.Verdict().Some?
    && e.streamId == (if r.Verdict().Some? then r.Verdict().value else "")
    && e.maxPlayers == r.Limit() && e.expiry == r.BelievedUntil(duration)
  }

  function Live(m: map<string, Entry>, now: int): map<string, Entry> {
    map k | k in m && m[k].expiry > now :: m[k]
  }

  /** `k` expires no later than any other entry. */
  predicate Earliest(m: map<string, Entry>, k: string) {
    k in m && forall o :: o in m ==> m[k].expiry <= m[o].expiry
  }

  lemma LiveSize(m: map<string, Entry>, now: int)
    ensures Live(m, now).Keys <= m.Keys && |Live(m, now)| <= |m|
    ensures |Live(m, now)| == |m| ==> Live(m, now) == m
  {
    var w := Live(m, now);
    assert w.Keys <= m.Keys;
    SubsetSize(w.Keys, m.Keys);
    assert |w| == |w.Keys| && |m| == |m.Keys|;
  }

  /** What an insertion may do to a live entry: drop it only if all entries are live and
      none expires earlier. */
  predicate LastResort(before: map<string, Entry>, after: map<string, Entry>, now: int) {
    forall k :: k in before && before[k].expiry > now && k !in after ==>
      && Earliest(before, k) && |before| == MAX_PLAYER_KEY_CACHE_ENTRIES
      && forall o :: o in before ==> before[o].expiry > now
  }

  /** Dropping what has expired drops nothing live. */
  lemma PurgeIsHarmless(before: map<string, Entry>, key: string, entry: Entry, now: int)
    ensures LastResort(before, Live(before, now)[key := entry], now)
  {
  }

  lemma EvictionIsLastResort(before: map<string, Entry>, victim: string, key: string, entry: Entry, now: int)
    requires |before| == MAX_PLAYER_KEY_CACHE_ENTRIES && Live(before, now) == before && Earliest(before, victim)
    ensures LastResort(before, (before - {victim})[key := entry], now)
  {
    assert forall o :: o in before ==> o in Live(before, now);
  }

  /** Entries that were kept still agree, and so does the new one. */
  lemma AgreementKept(before: map<string, Entry>, after: map<string, Entry>, latest: map<string, Response>,
                      key: string, response: Response, duration: nat)
    requires forall k :: k in before ==> k in latest && Agrees(before[k], latest[k], duration)
    requires key in after && Agrees(after[key], response, duration)
    requires forall k :: k in after && k != key ==> k in before && after[k] == before[k]
    ensures forall k :: k in after ==>
      k in latest[key := response] && Agrees(after[k], latest[key := response][k], duration)
  {
    hide Agrees;
  }

  /** `Done` is not an answer to anybody: a finished webhook has been processed. */
  datatype Answer = Accept(streamId: string) | Reject | Pending | Done

  class Validator {
    const duration: nat
    const limiter: RateLimit.Limiter
    var cache: map<string, Entry>
    var lastSweep: int
    var pending: set<string>
    /** The last response processed for each key. */
    ghost var latest: map<string, Response>

    constructor (duration: nat, limits: RateLimit.Limits, start: int)
      ensures Valid() && cache == map[] && pending == {} && latest == map[] && fresh(limiter)
      ensures this.duration == duration && limiter.limits == limits && limiter.View() == RateLimit.State(map[], start)
    {
      this.duration := duration;
      limiter := new RateLimit.Limiter(limits, start);
      cache, lastSweep, pending, latest := map[], start, {}, map[];
    }

    /** Every cached entry is the latest response for its key, still as it was; the
        cache and the set of webhooks in flight are bounded. */
    ghost predicate CacheAgrees()
      reads this
    {
      && |cache| <= MAX_PLAYER_KEY_CACHE_ENTRIES
      && forall k :: k in cache ==> k in latest && Agrees(cache[k], latest[k], duration)
    }

    ghost predicate Valid()
      reads this
    {
      CacheAgrees() && |pending| <= MAX_PENDING_PLAYER_KEY_VALIDATIONS
    }

    /** The iterator loop that erases expired entries in place. */
    method EraseExpired(now: int)
      modifies this`cache
      ensures cache == Live(old(cache), now)
    {
      ghost var was := cache;
      var todo := cache.Keys;
      while todo != {}
        invariant todo <= was.Keys
        invariant forall k :: k in cache ==> k in was && cache[k] == was[k]
        invariant forall k :: k in todo ==> k in cache
        invariant forall k :: k in was && k !in todo ==> (k in cache <==> was[k].expiry > now)
        decreases |todo|
      {
        var k :| k in todo;
        todo := todo - {k};
        if cache[k].expiry <= now {
          cache := cache - {k};
        }
      }
    }

    /** The loop that looks for the entry closest to expiring. */
    method FindVictim() returns (victim: string)
      requires cache != map[]
      ensures Earliest(cache, victim)
    {
      var todo := cache.Keys;
      victim :| victim in todo;
      todo := todo - {victim};
      while todo != {}
        invariant victim in cache && todo <= cache.Keys
        invariant forall o :: o in cache && o !in todo ==> cache[victim].expiry <= cache[o].expiry
        decreases |todo|
      {
        var k :| k in todo;
        todo := todo - {k};
        if cache[k].expiry < cache[victim].expiry {
          victim := k;
        }
      }
    }

    /** `insert_player_key_cache_locked`: refreshes in place; makes room only at the cap,
        by dropping what has expired, and only if every entry is live by evicting the
        one with the earliest expiry. */
    method InsertLocked(key: string, entry: Entry, now: int)
      requires |cache| <= MAX_PLAYER_KEY_CACHE_ENTRIES
      modifies this`cache
      ensures |cache| <= MAX_PLAYER_KEY_CACHE_ENTRIES
      ensures key in cache && cache[key] == entry
      ensures key in old(cache) || |old(cache)| < MAX_PLAYER_KEY_CACHE_ENTRIES ==> cache == old(cache)[key := entry]
      ensures key !in old(cache) && |old(cache)| == MAX_PLAYER_KEY_CACHE_ENTRIES && Live(old(cache), now) != old(cache) ==>
        cache == Live(old(cache), now)[key := entry]
      ensures key !in old(cache) && |old(cache)| == MAX_PLAYER_KEY_CACHE_ENTRIES && Live(old(cache), now) == old(cache) ==>
        exists victim :: Earliest(old(cache), victim) && cache == (old(cache) - {victim})[key := entry]
      ensures forall k :: k in cache && k != key ==> k in old(cache) && cache[k] == old(cache)[k]
      ensures LastResort(old(cache), cache, now)
    {
      ghost var was := cache;
      if key in cache {
        SizeAfterPut(cache, key, entry);
        cache := cache[key := entry];
        return;
      }
      if |cache| >= MAX_PLAYER_KEY_CACHE_ENTRIES {
        LiveSize(cache, now);
        EraseExpired(now);
        PurgeIsHarmless(was, key, entry, now);
        if |cache| >= MAX_PLAYER_KEY_CACHE_ENTRIES {
          var victim := FindVictim();
          SizeAfterErase(cache, victim);
          cache := cache - {victim};
          EvictionIsLastResort(was, victim, key, entry, now);
        }
      }
      SizeAfterPut(cache, key, entry);
      cache := cache[key := entry];
    }

    /** `sweep_player_key_cache`, time-gated. */
    method Sweep(now: int)
      requires Valid()
      modifies this`cache, this`lastSweep
      ensures Valid()
      ensures var due := now - old(lastSweep) >= PLAYER_KEY_CACHE_SWEEP_INTERVAL;
        && cache == (if due then Live(old(cache), now) else old(cache))
        && lastSweep == (if due then now else old(lastSweep))
    {
      if now - lastSweep < PLAYER_KEY_CACHE_SWEEP_INTERVAL {
        return;
      }
      lastSweep := now;
      LiveSize(cache, now);
      EraseExpired(now);
    }

    /** The verdict half of `process_player_key_response`. */
    method EntryFor(reply: Reply, now: int) returns (entry: Entry)
      ensures Agrees(entry, Response(now, reply), duration)
    {
      entry := Entry("", false, now + duration / 4, None);
      if !reply.success {
        return;
      }
      if reply.status != 200 {
        return;
      }
      if !reply.body.StreamId? {
        return;
      }
      var id := reply.body.id;
      if |id| == 0 || |id| >= URL_MAX_LEN {
        return;
      }
      var limit := if reply.body.maxPlayers.Some? && reply.body.maxPlayers.value < -1 then None
                   else reply.body.maxPlayers;
      entry := Entry(id, true, now + duration, limit);
    }

    /** `process_player_key_response`. */
    method ProcessResponse(key: string, reply: Reply, now: int)
      requires Valid()
      modifies this`cache, this`latest
      ensures Valid()
      ensures latest == old(latest)[key := Response(now, reply)]
      ensures key in cache && Agrees(cache[key], latest[key], duration)
      ensures forall k :: k in cache && k != key ==> k in old(cache) && cache[k] == old(cache)[k]
      ensures LastResort(old(cache), cache, now)
    {
      hide Agrees, LastResort, Live, Earliest;
      ghost var was := cache;
      var entry := EntryFor(reply, now);
      InsertLocked(key, entry, now);
      AgreementKept(was, cache, latest, key, Response(now, reply), duration);
      latest := latest[key := Response(now, reply)];
    }

    /** The cache lookup of `validate_player_key`: an expired entry is erased. */
    method Lookup(key: string, now: int) returns (r: Option<Entry>)
      requires Valid()
      modifies this`cache
      ensures Valid()
      ensures r == (if key in old(cache) && now < old(cache)[key].expiry then Some(old(cache)[key]) else None)
      ensures cache == if key in old(cache) && now >= old(cache)[key].expiry then old(cache) - {key} else old(cache)
    {
      if key in cache {
        if now < cache[key].expiry {
          return Some(cache[key]);
        }
        SizeAfterErase(cache, key);
        cache := cache - {key};
      }
      r := None;
    }

    /** `start_player_key_validation`: one webhook per key, at most 1024 in flight, and
        every dispatch counted against its source before it is sent. */
    method StartValidation(key: string, ip: string, urlFits: bool, now: int) returns (dispatched: bool)
      requires Valid()
      modifies this`pending, limiter`entries
      ensures Valid()
      ensures dispatched == (key !in old(pending) && |old(pending)| < MAX_PENDING_PLAYER_KEY_VALIDATIONS && urlFits)
      ensures pending == if dispatched then old(pending) + {key} else old(pending)
      ensures limiter.View() ==
        if key !in old(pending) && |old(pending)| < MAX_PENDING_PLAYER_KEY_VALIDATIONS
        then RateLimit.Updated(limiter.limits, old(limiter.View()), ip, now) else old(limiter.View())
    {
      if key in pending {
        return false;
      }
      if |pending| >= MAX_PENDING_PLAYER_KEY_VALIDATIONS {
        return false;
      }
      limiter.UpdateRateLimit(ip, now);
      if !urlFits {
        return false;
      }
      pending := pending + {key};
      dispatched := true;
    }

    /** `validate_player_key` with its clock readings: the rate check, the cache, the
        dispatch.  An answer from the cache is the verdict of the latest response for
        the key, and young enough; a source over its limit learns nothing and changes
        nothing but its own deque. */
    method Validate(key: string, ip: string, enabled: bool, formatOk: bool, urlFits: bool,
                    checkTime: int, now: int, later: int)
      returns (r: Answer)
      requires Valid()
      modifies this`cache, this`pending, limiter`entries, limiter`lastCleanup
      ensures Valid() && latest == old(latest)
      ensures r.Accept? ==>
        && key in latest && latest[key].Verdict() == Some(r.streamId) && now < latest[key].time + duration
        && pending == old(pending)
      ensures var limited := RateLimit.Checked(limiter.limits, old(limiter.View()), ip, checkTime).1;
        var checked := RateLimit.Checked(limiter.limits, old(limiter.View()), ip, checkTime).0;
        if !enabled || !formatOk then
          r == Reject && cache == old(cache) && pending == old(pending) && limiter.View() == old(limiter.View())
        else if limited then
          r == Reject && cache == old(cache) && pending == old(pending) && limiter.View() == checked
        else if key in old(cache) && now < old(cache)[key].expiry then
          && limiter.View() == checked && cache == old(cache) && pending == old(pending)
          && (r == Reject ==>
                key in latest && latest[key].Verdict() == None && now < latest[key].time + duration / 4)
          && !r.Pending? && !r.Done?
        else
          && r == Pending && cache == old(cache) - {key}
          && var room := key !in old(pending) && |old(pending)| < MAX_PENDING_PLAYER_KEY_VALIDATIONS;
          && pending == (if room && urlFits then old(pending) + {key} else old(pending))
          && limiter.View() == if room then RateLimit.Updated(limiter.limits, checked, ip, later) else checked
    {
      if !enabled {
        return Reject;
      }
      if !formatOk {
        return Reject;
      }
      var limited := limiter.IsRateLimited(ip, checkTime);
      if limited {
        return Reject;
      }
      var hit := Lookup(key, now);
      if hit.Some? {
        return if hit.value.valid then Accept(hit.value.streamId) else Reject;
      }
      assert cache == old(cache) - {key};
      var dispatched := StartValidation(key, ip, urlFits, later);
      return Pending;
    }

    /** One finished webhook in `drain_player_key_validations`. */
    method Complete(key: string, reply: Reply, now: int)
      requires Valid() && key in pending
      modifies this`cache, this`latest, this`pending
      ensures Valid() && pending == old(pending) - {key}
      ensures latest == old(latest)[key := Response(now, reply)]
      ensures key in cache && Agrees(cache[key], latest[key], duration)
      ensures forall k :: k in cache && k != key ==> k in old(cache) && cache[k] == old(cache)[k]
      ensures LastResort(old(cache), cache, now)
    {
      hide Agrees, LastResort;
      ProcessResponse(key, reply, now);
      pending := pending - {key};
    }
  }

  // ------------------------------------------------------------- whole runs

  datatype Event =
    | Visit(key: string, ip: string, formatOk: bool, urlFits: bool, checkTime: int, now: int, later: int)
    | Finish(key: string, reply: Reply, now: int)
    | Tick(now: int)

  /** The answer the response history alone would give at a time. */
  function Believed(latest: map<string, Response>, key: string, now: int, duration: nat): Option<Answer> {
    if key in latest && now < latest[key].BelievedUntil(duration) then
      Some(if latest[key].Verdict().Some? then Accept(latest[key].Verdict().value) else Reject)
    else None
  }

  /** What a run can be judged by at one moment: the cache, the latest response per key,
      the rate limiter, and the webhooks in flight. */
  datatype Moment = Moment(cache: map<string, Entry>, latest: map<string, Response>, limiter: RateLimit.State,
                           pending: set<string>)

  ghost function Now(v: Validator): Moment
    reads v, v.limiter
  {
    Moment(v.cache, v.latest, v.limiter.View(), v.pending)
  }

  /** A live entry answers. */
  predicate Hits(a: Moment, key: string, now: int) { key in a.cache && now < a.cache[key].expiry }

  /** A visit as the rate limiter sees it: it asks for a webhook unless the cache answers,
      one is in flight for the key, or 1024 are in flight. */
  function LimiterVisit(a: Moment, key: string, ip: string, checkTime: int, now: int, later: int): RateLimit.Visit {
    RateLimit.Visit(ip, checkTime,
                    !Hits(a, key, now) && key !in a.pending && |a.pending| < MAX_PENDING_PLAYER_KEY_VALIDATIONS,
                    later)
  }

  /** A well-formed visit took the validator from `a` to `b` and was answered `r`. */
  predicate VisitExplained(limits: RateLimit.Limits, duration: nat, key: string, ip: string, urlFits: bool,
                           checkTime: int, now: int, later: int, a: Moment, b: Moment, r: Answer) {
    var v := LimiterVisit(a, key, ip, checkTime, now, later);
    && b.latest == a.latest && b.limiter == RateLimit.Step(limits, a.limiter, v)
    && if RateLimit.Checked(limits, a.limiter, ip, checkTime).1 then
         r == Reject && b.cache == a.cache && b.pending == a.pending
       else if Hits(a, key, now) then
         Believed(a.latest, key, now, duration) == Some(r) && b.cache == a.cache && b.pending == a.pending
       else
         && r == Pending && b.cache == a.cache - {key}
         && b.pending == if RateLimit.Dispatches(limits, a.limiter, v) && urlFits then a.pending + {key} else a.pending
  }

  /** Event `e` took the validator from `a` to `b` and was answered `r`. */
  predicate Explained(limits: RateLimit.Limits, duration: nat, e: Event, a: Moment, b: Moment, r: Answer) {
    match e
    case Visit(key, ip, formatOk, urlFits, checkTime, now, later) =>
      if !formatOk then r == Reject && b == a
      else VisitExplained(limits, duration, key, ip, urlFits, checkTime, now, later, a, b, r)
    case Finish(key, reply, now) =>
      if key !in a.pending then r == Pending && b == a
      else
        && r == Done && b.limiter == a.limiter && b.pending == a.pending - {key}
        && b.latest == a.latest[key := Response(now, reply)]
        && key in b.cache && Agrees(b.cache[key], Response(now, reply), duration)
        && (forall k :: k in b.cache && k != key ==> k in a.cache && b.cache[k] == a.cache[k])
        && LastResort(a.cache, b.cache, now)
    case Tick(now) =>
      r == Pending && (b == a || b == a.(cache := Live(a.cache, now)))
  }

  predicate ExplainedAt(limits: RateLimit.Limits, duration: nat, events: seq<Event>, log: seq<Moment>,
                        answers: seq<Answer>, i: nat)
    requires i < |events| && i + 1 < |log| && i < |answers|
  {
    Explained(limits, duration, events[i], log[i], log[i + 1], answers[i])
  }

  /** The log explains every answer of the run. */
  predicate Explains(limits: RateLimit.Limits, duration: nat, events: seq<Event>, log: seq<Moment>,
                     answers: seq<Answer>) {
    && |answers| == |events| && |log| == |events| + 1
    && forall i :: 0 <= i < |events| ==> ExplainedAt(limits, duration, events, log, answers, i)
  }

  /** Over any run of visits, finished webhooks and sweeps: every answer is explained by
      the moment it was given in, every change of the cache, the limiter and the webhooks
      in flight is accounted for, and the cache agrees with the latest responses. */
  method Run(v: Validator, events: seq<Event>) returns (answers: seq<Answer>, ghost log: seq<Moment>)
    requires v.Valid()
    modifies v`cache, v`pending, v`latest, v`lastSweep, v.limiter
    ensures v.Valid()
    ensures Explains(v.limiter.limits, v.duration, events, log, answers)
    ensures log[0] == old(Now(v)) && log[|events|] == Now(v)
    ensures forall k :: k in v.cache ==> k in v.latest && Agrees(v.cache[k], v.latest[k], v.duration)
  {
    hide Explained, Agrees;
    answers, log := [], [Now(v)];
    for i := 0 to |events|
      invariant v.Valid() && |answers| == i && |log| == i + 1
      invariant log[0] == old(Now(v)) && log[i] == Now(v)
      invariant forall j :: 0 <= j < i ==> ExplainedAt(v.limiter.limits, v.duration, events, log, answers, j)
    {
      ghost var given, was := answers, log;
      var r := OneEvent(v, events[i]);
      answers, log := answers + [r], log + [Now(v)];
      forall j | 0 <= j <= i
        ensures ExplainedAt(v.limiter.limits, v.duration, events, log, answers, j)
      {
        if j < i {
          assert ExplainedAt(v.limiter.limits, v.duration, events, was, given, j);
        }
      }
    }
  }

  method OneEvent(v: Validator, e: Event) returns (r: Answer)
    requires v.Valid()
    modifies v`cache, v`pending, v`latest, v`lastSweep, v.limiter
    ensures v.Valid()
    ensures Explained(v.limiter.limits, v.duration, e, old(Now(v)), Now(v), r)
  {
    hide Agrees, LastResort, VisitExplained;
    match e {
    case Visit(key, ip, formatOk, urlFits, checkTime, now, later) =>
      if formatOk {
        r := VisitKey(v, key, ip, urlFits, checkTime, now, later);
      } else {
        r := v.Validate(key, ip, true, false, urlFits, checkTime, now, later);
      }
    case Finish(key, reply, now) =>
      r := FinishKey(v, key, reply, now);
    case Tick(now) =>
      v.Sweep(now);
      r := Pending;
    }
  }

  method FinishKey(v: Validator, key: string, reply: Reply, now: int) returns (r: Answer)
    requires v.Valid()
    modifies v`cache, v`pending, v`latest
    ensures v.Valid()
    ensures Explained(v.limiter.limits, v.duration, Finish(key, reply, now), old(Now(v)), Now(v), r)
  {
    hide Agrees, LastResort;
    if key in v.pending {
      v.Complete(key, reply, now);
      return Done;
    }
    return Pending;
  }

  method VisitKey(v: Validator, key: string, ip: string, urlFits: bool, checkTime: int, now: int, later: int)
    returns (r: Answer)
    requires v.Valid()
    modifies v`cache, v`pending, v.limiter`entries, v.limiter`lastCleanup
    ensures v.Valid()
    ensures VisitExplained(v.limiter.limits, v.duration, key, ip, urlFits, checkTime, now, later,
                           old(Now(v)), Now(v), r)
  {
    hide RateLimit.Checked, RateLimit.Updated;
    r := v.Validate(key, ip, true, true, urlFits, checkTime, now, later);
  }

  // ---------------------------------------------------- what a reply is worth

  /** A reply that names a stream: a success with status 200 and an id of 1 to 2047 bytes. */
  predicate Admits(reply: Reply) {
    reply.success && reply.status == 200 && reply.body.StreamId? && 1 <= |reply.body.id| <= 2047
  }

  /** A reply is good for the whole duration, or a quarter of it if it names no stream. */
  function GoodUntil(reply: Reply, at: int, duration: nat): int {
    if Admits(reply) then at + duration else at + duration / 4
  }

  /** The entry a reply leaves in the cache, field by field. */
  predicate Recorded(e: Entry, reply: Reply, at: int, duration: nat) {
    && e.expiry == GoodUntil(reply, at, duration) && (e.valid <==> Admits(reply))
    && (Admits(reply) ==>
          && e.streamId == reply.body.id
          && e.maxPlayers == if reply.body.maxPlayers == None || reply.body.maxPlayers.value <= -2 then None
                             else reply.body.maxPlayers)
    && (!Admits(reply) ==> e.streamId == "" && e.maxPlayers == None)
  }

  /** Event `j` processes a webhook of the key. */
  predicate Finishes(events: seq<Event>, log: seq<Moment>, j: nat, key: string)
    requires j < |events| && j < |log|
  {
    events[j].Finish? && events[j].key == key && key in log[j].pending
  }

  /** It is the last one before event `i` to do so. */
  predicate LastFinish(events: seq<Event>, log: seq<Moment>, j: nat, i: nat, key: string)
    requires j < i <= |events| && |log| == |events| + 1
  {
    Finishes(events, log, j, key) && forall m :: j < m < i ==> !Finishes(events, log, m, key)
  }

  /** The cache is full and every entry in it is live: a new key evicts one. */
  predicate FullOfLive(a: Moment, now: int) {
    |a.cache| == MAX_PLAYER_KEY_CACHE_ENTRIES && forall o :: o in a.cache ==> a.cache[o].expiry > now
  }

  lemma FreshEntry(limits: RateLimit.Limits, duration: nat, e: Event, a: Moment, b: Moment, r: Answer)
    requires Explained(limits, duration, e, a, b, r) && e.Finish? && e.key in a.pending
    ensures e.key in b.cache && Recorded(b.cache[e.key], e.reply, e.now, duration)
  {
    hide LastResort;
  }

  /** Any other event leaves the entry as it is or drops it, and a live one is dropped only
      from a cache that is full of live entries. */
  lemma OldEntry(limits: RateLimit.Limits, duration: nat, e: Event, a: Moment, b: Moment, r: Answer, key: string)
    requires Explained(limits, duration, e, a, b, r) && !(e.Finish? && e.key == key && key in a.pending)
    ensures key in b.cache ==> key in a.cache && b.cache[key] == a.cache[key]
    ensures key in a.cache && e.now < a.cache[key].expiry && !FullOfLive(a, e.now) ==> key in b.cache
  {
    hide Agrees, Believed, RateLimit.Step, RateLimit.Checked, RateLimit.Dispatches;
  }

  /** As long as it is there, the entry says what the last reply said. */
  lemma {:induction false} EntryIsLastReply(limits: RateLimit.Limits, duration: nat, events: seq<Event>,
                                            log: seq<Moment>, answers: seq<Answer>, j: nat, i: nat, key: string)
    requires Explains(limits, duration, events, log, answers) && j < i <= |events|
    requires LastFinish(events, log, j, i, key) && key in log[i].cache
    ensures Recorded(log[i].cache[key], events[j].reply, events[j].now, duration)
  {
    hide Explained, Recorded, Explains;
    ExplainedHere(limits, duration, events, log, answers, i - 1);
    if i == j + 1 {
      FreshEntry(limits, duration, events[j], log[j], log[i], answers[j]);
    } else {
      assert !Finishes(events, log, i - 1, key);
      OldEntry(limits, duration, events[i - 1], log[i - 1], log[i], answers[i - 1], key);
      EntryIsLastReply(limits, duration, events, log, answers, j, i - 1, key);
    }
  }

  /** Between the two events nothing comes at or after this time, and no event finds the
      cache full of live entries. */
  predicate Undisturbed(events: seq<Event>, log: seq<Moment>, j: nat, i: nat, until: int)
    requires j < i <= |events| && |log| == |events| + 1
  {
    forall m :: j < m < i ==> events[m].now < until && !FullOfLive(log[m], events[m].now)
  }

  /** And it is there until it expires, unless the cache is full of live entries. */
  lemma {:induction false} EntryStays(limits: RateLimit.Limits, duration: nat, events: seq<Event>, log: seq<Moment>,
                                      answers: seq<Answer>, j: nat, i: nat, key: string)
    requires Explains(limits, duration, events, log, answers) && j < i <= |events|
    requires LastFinish(events, log, j, i, key)
    requires Undisturbed(events, log, j, i, GoodUntil(events[j].reply, events[j].now, duration))
    ensures key in log[i].cache
  {
    hide Explained, Explains, FullOfLive, Admits;
    ExplainedHere(limits, duration, events, log, answers, i - 1);
    if i == j + 1 {
      FreshEntry(limits, duration, events[j], log[j], log[i], answers[j]);
    } else {
      assert !Finishes(events, log, i - 1, key);
      EntryStays(limits, duration, events, log, answers, j, i - 1, key);
      EntryIsLastReply(limits, duration, events, log, answers, j, i - 1, key);
      OldEntry(limits, duration, events[i - 1], log[i - 1], log[i], answers[i - 1], key);
    }
  }

  /** How a cached entry answers a visit that is not refused for its rate. */
  lemma AnsweredByEntry(limits: RateLimit.Limits, duration: nat, e: Event, a: Moment, b: Moment, r: Answer)
    requires Explained(limits, duration, e, a, b, r) && e.Visit? && e.formatOk
    requires !RateLimit.Checked(limits, a.limiter, e.ip, e.checkTime).1
    requires forall k :: k in a.cache ==> k in a.latest && Agrees(a.cache[k], a.latest[k], duration)
    ensures if e.key in a.cache && e.now < a.cache[e.key].expiry then
        b.pending == a.pending && b.cache == a.cache
        && r == if a.cache[e.key].valid then Accept(a.cache[e.key].streamId) else Reject
      else r == Pending && e.key !in b.cache
  {
    hide RateLimit.Step, RateLimit.Checked, RateLimit.Dispatches;
  }

  /** Every cached entry is that of the latest response, at every moment of a run that
      begins so. */
  lemma {:induction false} CacheAgreesThroughout(limits: RateLimit.Limits, duration: nat, events: seq<Event>,
                                                 log: seq<Moment>, answers: seq<Answer>, i: nat)
    requires Explains(limits, duration, events, log, answers) && i <= |events|
    requires forall k :: k in log[0].cache ==> k in log[0].latest && Agrees(log[0].cache[k], log[0].latest[k], duration)
    ensures forall k :: k in log[i].cache ==> k in log[i].latest && Agrees(log[i].cache[k], log[i].latest[k], duration)
  {
    hide Explained, Agrees, Explains;
    if i > 0 {
      CacheAgreesThroughout(limits, duration, events, log, answers, i - 1);
      ExplainedHere(limits, duration, events, log, answers, i - 1);
      AgreementAfter(limits, duration, events[i - 1], log[i - 1], log[i], answers[i - 1]);
    } else {
      ExplainedLengths(limits, duration, events, log, answers);
    }
  }

  lemma AgreementAfter(limits: RateLimit.Limits, duration: nat, e: Event, a: Moment, b: Moment, r: Answer)
    requires Explained(limits, duration, e, a, b, r)
    requires forall k :: k in a.cache ==> k in a.latest && Agrees(a.cache[k], a.latest[k], duration)
    ensures forall k :: k in b.cache ==> k in b.latest && Agrees(b.cache[k], b.latest[k], duration)
  {
    hide Agrees, LastResort, Believed, RateLimit.Step, RateLimit.Checked, RateLimit.Dispatches;
  }

  /** The last reply processed for a key decides every visit that its source's rate lets
      through: Accept with the id it named, without another webhook, at every time before
      the full duration is over; Reject before a quarter of it is over, if it named none;
      Pending from then on.  The entry is lost earlier only from a cache full of live
      entries. */
  lemma ReplyIsGoodFor(limits: RateLimit.Limits, duration: nat, events: seq<Event>, log: seq<Moment>,
                       answers: seq<Answer>, j: nat, i: nat)
    requires Explains(limits, duration, events, log, answers) && j < i < |events|
    requires forall k :: k in log[0].cache ==> k in log[0].latest && Agrees(log[0].cache[k], log[0].latest[k], duration)
    requires events[i].Visit? && events[i].formatOk
    requires !RateLimit.Checked(limits, log[i].limiter, events[i].ip, events[i].checkTime).1
    requires LastFinish(events, log, j, i, events[i].key)
    ensures var reply, t, now := events[j].reply, events[j].now, events[i].now;
      && (Admits(reply) && now < t + duration && Undisturbed(events, log, j, i, now + 1) ==>
            answers[i] == Accept(reply.body.id) && log[i + 1].pending == log[i].pending)
      && (!Admits(reply) && now < t + duration / 4 && Undisturbed(events, log, j, i, now + 1) ==>
            answers[i] == Reject && log[i + 1].pending == log[i].pending)
      && (now >= t + (if Admits(reply) then duration else duration / 4) ==> answers[i] == Pending)
  {
    hide Explains, Explained, Agrees, Admits, RateLimit.Checked, FullOfLive;
    var key := events[i].key;
    CacheAgreesThroughout(limits, duration, events, log, answers, i);
    ExplainedHere(limits, duration, events, log, answers, i);
    AnsweredByEntry(limits, duration, events[i], log[i], log[i + 1], answers[i]);
    if key in log[i].cache {
      EntryIsLastReply(limits, duration, events, log, answers, j, i, key);
    } else if events[i].now < GoodUntil(events[j].reply, events[j].now, duration)
              && Undisturbed(events, log, j, i, events[i].now + 1) {
      EntryStays(limits, duration, events, log, answers, j, i, key);
      assert false;
    }
  }

  // ------------------------------------------------------- webhooks of a run

  /** The first `n` events as the rate limiter sees them. */
  function VisitsOf(events: seq<Event>, log: seq<Moment>, n: nat): seq<RateLimit.Visit>
    requires n <= |events| && n <= |log|
  {
    if n == 0 then []
    else
      VisitsOf(events, log, n - 1)
      + match events[n - 1]
        case Visit(key, ip, formatOk, _, checkTime, now, later) =>
          if formatOk then [LimiterVisit(log[n - 1], key, ip, checkTime, now, later)] else []
        case _ => []
  }

  /** Times at which the first `n` events put a webhook for `ip` in flight. */
  function WebhookTimes(events: seq<Event>, log: seq<Moment>, ip: string, n: nat): seq<int>
    requires n <= |events| && n < |log|
  {
    if n == 0 then []
    else
      WebhookTimes(events, log, ip, n - 1)
      + if events[n - 1].Visit? && events[n - 1].ip == ip && log[n].pending != log[n - 1].pending
        then [events[n - 1].later] else []
  }

  /** What an explained event does to the limiter and to the webhooks in flight. */
  lemma ExplainedLimiter(limits: RateLimit.Limits, duration: nat, e: Event, a: Moment, b: Moment, r: Answer)
    requires Explained(limits, duration, e, a, b, r)
    ensures if e.Visit? && e.formatOk then
        var v := LimiterVisit(a, e.key, e.ip, e.checkTime, e.now, e.later);
        && b.limiter == RateLimit.Step(limits, a.limiter, v)
        && (b.pending != a.pending ==> RateLimit.Dispatches(limits, a.limiter, v))
      else b.limiter == a.limiter && (e.Visit? ==> b.pending == a.pending)
  {
    hide RateLimit.Step, RateLimit.Checked, Agrees, LastResort, Live;
  }

  lemma VisitsPush(events: seq<Event>, log: seq<Moment>, n: nat)
    requires 0 < n <= |events| && n <= |log|
    ensures var before, now, e := VisitsOf(events, log, n - 1), VisitsOf(events, log, n), events[n - 1];
      now == before + if e.Visit? && e.formatOk
        then [LimiterVisit(log[n - 1], e.key, e.ip, e.checkTime, e.now, e.later)] else []
  {
  }

  /** The limiter of a run is that of its visits. */
  lemma {:induction false} LimiterFollows(limits: RateLimit.Limits, duration: nat, events: seq<Event>, log: seq<Moment>,
                                          answers: seq<Answer>, start: int, n: nat)
    requires Explains(limits, duration, events, log, answers) && n <= |events|
    requires log[0].limiter == RateLimit.State(map[], start)
    ensures log[n].limiter == RateLimit.After(limits, start, VisitsOf(events, log, n))
  {
    hide RateLimit.Step, RateLimit.After, RateLimit.Dispatches, Explains, Explained, VisitsOf, LimiterVisit;
    ExplainedLengths(limits, duration, events, log, answers);
    if n == 0 {
      NoVisits(limits, start, events, log);
    } else {
      LimiterFollows(limits, duration, events, log, answers, start, n - 1);
      ExplainedHere(limits, duration, events, log, answers, n - 1);
      ExplainedLimiter(limits, duration, events[n - 1], log[n - 1], log[n], answers[n - 1]);
      LimiterPush(limits, start, events, log, n);
    }
  }

  lemma ExplainedLengths(limits: RateLimit.Limits, duration: nat, events: seq<Event>, log: seq<Moment>,
                         answers: seq<Answer>)
    requires Explains(limits, duration, events, log, answers)
    ensures |answers| == |events| && |log| == |events| + 1
  {
  }

  lemma ExplainedHere(limits: RateLimit.Limits, duration: nat, events: seq<Event>, log: seq<Moment>,
                      answers: seq<Answer>, i: nat)
    requires Explains(limits, duration, events, log, answers) && i < |events|
    ensures |answers| == |events| && |log| == |events| + 1
    ensures Explained(limits, duration, events[i], log[i], log[i + 1], answers[i])
  {
    hide Explained;
    assert ExplainedAt(limits, duration, events, log, answers, i);
  }

  lemma NoVisits(limits: RateLimit.Limits, start: int, events: seq<Event>, log: seq<Moment>)
    requires |log| > 0
    ensures RateLimit.After(limits, start, VisitsOf(events, log, 0)) == RateLimit.State(map[], start)
  {
  }

  lemma LimiterPush(limits: RateLimit.Limits, start: int, events: seq<Event>, log: seq<Moment>, n: nat)
    requires 0 < n <= |events| && n <= |log|
    ensures var e, before := events[n - 1], VisitsOf(events, log, n - 1);
      RateLimit.After(limits, start, VisitsOf(events, log, n))
      == if e.Visit? && e.formatOk
         then RateLimit.Step(limits, RateLimit.After(limits, start, before),
                             LimiterVisit(log[n - 1], e.key, e.ip, e.checkTime, e.now, e.later))
         else RateLimit.After(limits, start, before)
  {
    hide RateLimit.After, RateLimit.Step, VisitsOf, LimiterVisit;
    VisitsPush(events, log, n);
    var e, before := events[n - 1], VisitsOf(events, log, n - 1);
    assert before + [] == before;
    if e.Visit? && e.formatOk {
      RateLimit.AfterPush(limits, start, before, LimiterVisit(log[n - 1], e.key, e.ip, e.checkTime, e.now, e.later), "");
    }
  }

  lemma CountPush(times: seq<int>, x: int, t: int, window: int)
    ensures RateLimit.CountIn(times + [x], t, window)
      == RateLimit.CountIn(times, t, window) + if t <= x <= t + window then 1 else 0
  {
    assert (times + [x])[..|times|] == times;
  }

  /** In every interval a source has at most as many webhooks as counted dispatches. */
  lemma {:induction false} WebhooksAreCounted(limits: RateLimit.Limits, duration: nat, events: seq<Event>,
                                              log: seq<Moment>, answers: seq<Answer>, start: int, ip: string, t: int,
                                              n: nat)
    requires Explains(limits, duration, events, log, answers) && n <= |events|
    requires log[0].limiter == RateLimit.State(map[], start)
    ensures RateLimit.CountIn(WebhookTimes(events, log, ip, n), t, limits.window)
      <= RateLimit.CountIn(RateLimit.DispatchTimes(limits, start, VisitsOf(events, log, n), ip), t, limits.window)
  {
    hide RateLimit.Step, RateLimit.Dispatches, RateLimit.CountIn, RateLimit.After, RateLimit.DispatchTimes, Explains,
      Explained, VisitsOf, WebhookTimes, LimiterVisit;
    ExplainedLengths(limits, duration, events, log, answers);
    if n == 0 {
      NoWebhooks(limits, start, events, log, ip, t);
    } else {
      WebhooksAreCounted(limits, duration, events, log, answers, start, ip, t, n - 1);
      LimiterFollows(limits, duration, events, log, answers, start, n - 1);
      ExplainedHere(limits, duration, events, log, answers, n - 1);
      ExplainedLimiter(limits, duration, events[n - 1], log[n - 1], log[n], answers[n - 1]);
      OneMoreVisit(limits, duration, events, log, answers, start, ip, t, n);
    }
  }

  lemma NoWebhooks(limits: RateLimit.Limits, start: int, events: seq<Event>, log: seq<Moment>, ip: string, t: int)
    requires |log| > 0
    ensures RateLimit.CountIn(WebhookTimes(events, log, ip, 0), t, limits.window) == 0
    ensures RateLimit.CountIn(RateLimit.DispatchTimes(limits, start, VisitsOf(events, log, 0), ip), t, limits.window) == 0
  {
  }

  /** One more event adds at most as many webhooks as counted dispatches. */
  lemma OneMoreVisit(limits: RateLimit.Limits, duration: nat, events: seq<Event>, log: seq<Moment>,
                     answers: seq<Answer>, start: int, ip: string, t: int, n: nat)
    requires 0 < n <= |events| && |log| == |events| + 1
    requires var e, a, b := events[n - 1], log[n - 1], log[n];
      && a.limiter == RateLimit.After(limits, start, VisitsOf(events, log, n - 1))
      && (e.Visit? && b.pending != a.pending ==>
            e.formatOk
            && RateLimit.Dispatches(limits, a.limiter, LimiterVisit(a, e.key, e.ip, e.checkTime, e.now, e.later)))
    requires RateLimit.CountIn(WebhookTimes(events, log, ip, n - 1), t, limits.window)
      <= RateLimit.CountIn(RateLimit.DispatchTimes(limits, start, VisitsOf(events, log, n - 1), ip), t, limits.window)
    ensures RateLimit.CountIn(WebhookTimes(events, log, ip, n), t, limits.window)
      <= RateLimit.CountIn(RateLimit.DispatchTimes(limits, start, VisitsOf(events, log, n), ip), t, limits.window)
  {
    hide RateLimit.Dispatches, RateLimit.CountIn, RateLimit.After, RateLimit.DispatchTimes, VisitsOf, LimiterVisit;
    VisitsPush(events, log, n);
    var e, a := events[n - 1], log[n - 1];
    var before := VisitsOf(events, log, n - 1);
    var times, hooks := RateLimit.DispatchTimes(limits, start, before, ip), WebhookTimes(events, log, ip, n - 1);
    assert times + [] == times && hooks + [] == hooks && before + [] == before;
    if e.Visit? {
      VisitLooks(a, e);
      RateLimit.AfterPush(limits, start, before, LimiterVisit(a, e.key, e.ip, e.checkTime, e.now, e.later), ip);
      CountPush(hooks, e.later, t, limits.window);
      CountPush(times, e.later, t, limits.window);
    }
  }

  lemma VisitLooks(a: Moment, e: Event)
    requires e.Visit?
    ensures var v := LimiterVisit(a, e.key, e.ip, e.checkTime, e.now, e.later); v.ip == e.ip && v.later == e.later
  {
  }

  /** The rate bound of the validator: in any run of a fresh validator in which each
      dispatch of a source finds room in the rate-limit map, no interval of the window's
      length sees more than R webhooks sent for that source. */
  lemma WebhooksPerWindow(limits: RateLimit.Limits, duration: nat, events: seq<Event>, log: seq<Moment>,
                          answers: seq<Answer>, start: int, ip: string, t: int)
    requires Explains(limits, duration, events, log, answers) && log[0].limiter == RateLimit.State(map[], start)
    requires limits.requests >= 1 && ip != ""
    requires RateLimit.Clocked(start, VisitsOf(events, log, |events|))
    requires RateLimit.AlwaysTracked(limits, start, VisitsOf(events, log, |events|), ip)
    ensures RateLimit.CountIn(WebhookTimes(events, log, ip, |events|), t, limits.window) <= limits.requests
  {
    hide ExplainedAt, VisitsOf, WebhookTimes, RateLimit.CountIn, RateLimit.DispatchTimes, RateLimit.AlwaysTracked;
    WebhooksAreCounted(limits, duration, events, log, answers, start, ip, t, |events|);
    RateLimit.AtMostRequestsInAnyWindow(limits, start, VisitsOf(events, log, |events|), ip, t);
  }

  /** The rate refusal of the validator: in a run of a fresh validator a visit is refused for
      its rate if and only if at least R of the dispatches counted for its source before lie
      not before its window; a refused visit learns nothing and changes nothing else. */
  lemma VisitRefusedExactlyWhen(limits: RateLimit.Limits, duration: nat, events: seq<Event>, log: seq<Moment>,
                                answers: seq<Answer>, start: int, i: nat)
    requires Explains(limits, duration, events, log, answers) && log[0].limiter == RateLimit.State(map[], start)
    requires i < |events| && events[i].Visit? && events[i].formatOk && events[i].ip != "" && limits.requests >= 1
    requires RateLimit.Clocked(start, VisitsOf(events, log, i + 1))
    requires RateLimit.AlwaysTracked(limits, start, VisitsOf(events, log, i), events[i].ip)
    ensures var e := events[i];
      var refused := RateLimit.Checked(limits, log[i].limiter, e.ip, e.checkTime).1;
      && (refused <==>
            RateLimit.CountSince(RateLimit.DispatchTimes(limits, start, VisitsOf(events, log, i), e.ip),
                                 e.checkTime - limits.window) >= limits.requests)
      && (refused ==> answers[i] == Reject && log[i + 1].cache == log[i].cache && log[i + 1].pending == log[i].pending)
  {
    hide Explains, ExplainedAt, RateLimit.CountSince, RateLimit.DispatchTimes, RateLimit.AlwaysTracked,
      RateLimit.Clocked, RateLimit.Checked, RateLimit.Step, RateLimit.Dispatches, Believed, Agrees;
    var e := events[i];
    ExplainedHere(limits, duration, events, log, answers, i);
    LimiterFollows(limits, duration, events, log, answers, start, i);
    VisitsPush(events, log, i + 1);
    VisitLooks(log[i], e);
    RateLimit.RefusedExactlyWhen(limits, start, VisitsOf(events, log, i),
                                 LimiterVisit(log[i], e.key, e.ip, e.checkTime, e.now, e.later));
  }

  // --------------------------------------------------------- behind a crowd

  const CROWD := RateLimit.MAX_RATE_LIMIT_ENTRIES

  /** The k-th visitor of a crowd, and behind the crowd one IP again and again. */
  function Visitor(k: nat): string { if k < CROWD then RateLimit.Name(k) else "y" }

  /** `m` visits at one instant, each with a key of its own and each answered by its webhook
      before the next one comes. */
  function CrowdEvents(start: int, m: nat): (e: seq<Event>)
    ensures |e| == 2 * m
  {
    if m == 0 then []
    else
      CrowdEvents(start, m - 1)
      + [Visit(RateLimit.Name(m - 1), Visitor(m - 1), true, true, start, start, start),
         Finish(RateLimit.Name(m - 1), Reply(false, 0, Malformed), start)]
  }

  lemma {:induction false} CrowdEventsAt(start: int, m: nat, k: nat)
    requires k < m
    ensures CrowdEvents(start, m)[2 * k] == Visit(RateLimit.Name(k), Visitor(k), true, true, start, start, start)
    ensures CrowdEvents(start, m)[2 * k + 1] == Finish(RateLimit.Name(k), Reply(false, 0, Malformed), start)
  {
    if k < m - 1 {
      CrowdEventsAt(start, m - 1, k);
    }
  }

  /** The crowd, then the burst, as the limiter sees the first `m` visits. */
  function CrowdVisits(start: int, m: nat): seq<RateLimit.Visit> {
    if m <= CROWD then RateLimit.Crowd(start, m)
    else RateLimit.Crowd(start, CROWD) + RateLimit.Burst("y", start, m - CROWD)
  }

  /** No webhook is in flight, and every cached key is one of the first `m`. */
  predicate CrowdMoment(limits: RateLimit.Limits, start: int, m: nat, a: Moment) {
    && a.pending == {} && a.limiter == RateLimit.After(limits, start, CrowdVisits(start, m))
    && forall k :: k in a.cache ==> |k| <= m
  }

  /** A visit with a new key from a source that is not limited, and its reply. */
  lemma VisitAndFinish(limits: RateLimit.Limits, duration: nat, key: string, ip: string, t: int, reply: Reply,
                       a: Moment, mid: Moment, b: Moment, r1: Answer, r2: Answer)
    requires Explained(limits, duration, Visit(key, ip, true, true, t, t, t), a, mid, r1)
    requires Explained(limits, duration, Finish(key, reply, t), mid, b, r2)
    requires a.pending == {} && key !in a.cache && !RateLimit.Checked(limits, a.limiter, ip, t).1
    ensures mid.pending == {key} && b.pending == {}
    ensures b.limiter == RateLimit.Step(limits, a.limiter, RateLimit.Visit(ip, t, true, t))
    ensures forall k :: k in b.cache ==> k in a.cache || k == key
  {
    hide RateLimit.Step, RateLimit.Checked, Agrees, LastResort;
  }

  lemma CrowdStep(limits: RateLimit.Limits, start: int, m: nat)
    requires limits.requests >= 1
    ensures var s := RateLimit.After(limits, start, CrowdVisits(start, m));
      && !RateLimit.Checked(limits, s, Visitor(m), start).1
      && RateLimit.After(limits, start, CrowdVisits(start, m + 1))
         == RateLimit.Step(limits, s, RateLimit.Visit(Visitor(m), start, true, start))
  {
    hide RateLimit.Step, RateLimit.Checked, RateLimit.HasRoom, RateLimit.Dispatches;
    if m < CROWD {
      RateLimit.CrowdIsTracked(limits, start, start, m);
      var s := RateLimit.After(limits, start, CrowdVisits(start, m));
      assert Visitor(m) !in s.entries;
      RateLimit.UntrackedIsNeverLimited(limits, s, Visitor(m), start);
      var next := RateLimit.Crowd(start, m + 1);
      assert next[..m] == RateLimit.Crowd(start, m);
    } else {
      BurstStep(limits, start, m - CROWD);
    }
  }

  lemma BurstStep(limits: RateLimit.Limits, start: int, n: nat)
    requires limits.requests >= 1
    ensures var past := RateLimit.Crowd(start, CROWD);
      var s := RateLimit.After(limits, start, past + RateLimit.Burst("y", start, n));
      && !RateLimit.Checked(limits, s, "y", start).1
      && RateLimit.After(limits, start, past + RateLimit.Burst("y", start, n + 1))
         == RateLimit.Step(limits, s, RateLimit.Visit("y", start, true, start))
      && CrowdVisits(start, CROWD + n) == past + RateLimit.Burst("y", start, n)
  {
    hide RateLimit.Step, RateLimit.Checked, RateLimit.HasRoom, RateLimit.Dispatches, RateLimit.After;
    var past := RateLimit.Crowd(start, CROWD);
    RateLimit.CrowdFillsTheMap(limits, start);
    RateLimit.BurstIsUnbounded(limits, start, past, "y", start, n);
    RateLimit.BurstPush(limits, start, past, "y", start, n);
    var s := RateLimit.After(limits, start, past + RateLimit.Burst("y", start, n));
    RateLimit.UntrackedIsNeverLimited(limits, s, "y", start);
    assert past + RateLimit.Burst("y", start, 0) == past;
  }

  lemma {:induction false} CrowdGoesOn(limits: RateLimit.Limits, duration: nat, start: int, total: nat,
                                       log: seq<Moment>, answers: seq<Answer>, m: nat)
    requires limits.requests >= 1 && m <= total
    requires Explains(limits, duration, CrowdEvents(start, total), log, answers)
    requires log[0] == Moment(map[], map[], RateLimit.State(map[], start), {})
    ensures CrowdMoment(limits, start, m, log[2 * m])
    ensures WebhookTimes(CrowdEvents(start, total), log, "y", 2 * m)
      == RateLimit.Repeated(start, if m <= CROWD then 0 else m - CROWD)
  {
    hide RateLimit.After, ExplainedAt, CrowdEvents, CrowdVisits, WebhookTimes;
    if m == 0 {
      NobodyYet(limits, start);
      NoWebhookYet(CrowdEvents(start, total), log);
    } else {
      CrowdGoesOn(limits, duration, start, total, log, answers, m - 1);
      CrowdPair(limits, duration, start, total, log, answers, m - 1);
      assert m > CROWD ==> RateLimit.Repeated(start, m - 1 - CROWD) + [start] == RateLimit.Repeated(start, m - CROWD);
      assert RateLimit.Repeated(start, 0) + [] == RateLimit.Repeated(start, 0);
    }
  }

  lemma NoWebhookYet(events: seq<Event>, log: seq<Moment>)
    requires |log| > 0
    ensures WebhookTimes(events, log, "y", 0) == RateLimit.Repeated(0, 0) == []
    ensures forall start :: RateLimit.Repeated(start, 0) == []
  {
  }

  /** One more visitor and its reply. */
  lemma CrowdPair(limits: RateLimit.Limits, duration: nat, start: int, total: nat,
                  log: seq<Moment>, answers: seq<Answer>, k: nat)
    requires limits.requests >= 1 && k < total
    requires Explains(limits, duration, CrowdEvents(start, total), log, answers)
    requires CrowdMoment(limits, start, k, log[2 * k])
    ensures CrowdMoment(limits, start, k + 1, log[2 * k + 2])
    ensures WebhookTimes(CrowdEvents(start, total), log, "y", 2 * k + 2)
      == WebhookTimes(CrowdEvents(start, total), log, "y", 2 * k) + if k >= CROWD then [start] else []
  {
    hide RateLimit.After, Explained, CrowdEvents, CrowdVisits, WebhookTimes, RateLimit.Checked, RateLimit.Step;
    var events := CrowdEvents(start, total);
    CrowdEventsAt(start, total, k);
    ExplainedHere(limits, duration, events, log, answers, 2 * k);
    ExplainedHere(limits, duration, events, log, answers, 2 * k + 1);
    CrowdStep(limits, start, k);
    VisitorIsNamed(k);
    VisitAndFinish(limits, duration, RateLimit.Name(k), Visitor(k), start, Reply(false, 0, Malformed),
                   log[2 * k], log[2 * k + 1], log[2 * k + 2], answers[2 * k], answers[2 * k + 1]);
    OnePairOfWebhooks(events, log, 2 * k);
  }

  lemma VisitorIsNamed(k: nat)
    ensures Visitor(k) == "y" <==> k >= CROWD
  {
    assert RateLimit.Name(k)[0] == 'x';
  }

  lemma OnePairOfWebhooks(events: seq<Event>, log: seq<Moment>, n: nat)
    requires n + 2 <= |events| && n + 2 < |log| && events[n].Visit? && events[n + 1].Finish?
    ensures WebhookTimes(events, log, "y", n + 2) == WebhookTimes(events, log, "y", n)
      + if events[n].ip == "y" && log[n + 1].pending != log[n].pending then [events[n].later] else []
  {
    var times := WebhookTimes(events, log, "y", n + 1);
    assert times + [] == times;
  }

  lemma NobodyYet(limits: RateLimit.Limits, start: int)
    ensures RateLimit.After(limits, start, CrowdVisits(start, 0)) == RateLimit.State(map[], start)
  {
  }

  /** The rate bound fails in a run of the validator itself, with never more than one webhook
      in flight: behind a crowd of 100000 IPs one more IP has `n` webhooks sent at one
      instant, whatever `n` and the limit. */
  method CrowdedRun(limits: RateLimit.Limits, duration: nat, start: int, n: nat)
    returns (events: seq<Event>, answers: seq<Answer>, ghost log: seq<Moment>)
    requires limits.requests >= 1
    ensures Explains(limits, duration, events, log, answers)
    ensures log[0] == Moment(map[], map[], RateLimit.State(map[], start), {})
    ensures WebhookTimes(events, log, "y", |events|) == RateLimit.Repeated(start, n)
  {
    hide ExplainedAt, CrowdEvents, WebhookTimes, RateLimit.After;
    var v := new Validator(duration, limits, start);
    events := CrowdEvents(start, CROWD + n);
    answers, log := Run(v, events);
    CrowdGoesOn(limits, duration, start, CROWD + n, log, answers, CROWD + n);
  }
}
