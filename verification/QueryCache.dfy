// The dashboard's query cache: values with a time to live, and one fetch at a time for each key.
module QueryCache {
  import opened Collections

  type Key = string
  datatype Data = Null | Json(text: string)
  datatype Entry = Entry(data: Data, timestamp: int)

  datatype Outcome = Resolved(data: Data) | Rejected
  // A promise made for a key; every caller holding it sees its one outcome.
  datatype Fetch = Fetch(key: Key, outcome: Option<Outcome>)

  datatype State = State(cache: map<Key, Entry>, inFlight: map<Key, nat>, fetches: seq<Fetch>)

  const EMPTY := State(map[], map[], [])

  // What a caller gets at once: a cached value, the promise of a fetch under way, the promise of a new fetch,
  // or the exception of a fetcher that failed to start.
  datatype Reply = Cached(data: Data) | Joined(fetch: nat) | Started(fetch: nat) | Threw

  // Everything that can touch the cache. A fetch settles when its callback runs; `launches` says whether the
  // fetcher returns a promise at all; `matched` are the keys a pattern matches.
  datatype Event =
    | Call(key: Key, ttl: Option<int>, now: int, launches: bool)
    | Settle(fetch: nat, outcome: Outcome, now: int)
    | Set(key: Key, data: Data, now: int)
    | Invalidate(key: Key)
    | InvalidateMatching(matched: set<Key>)
    | Clear

  function Fresh(cache: map<Key, Entry>, key: Key, ttl: int, now: int): bool {
    key in cache && now - cache[key].timestamp < ttl
  }

  function ReplyTo(s: State, key: Key, ttl: int, now: int, launches: bool): Reply {
    if Fresh(s.cache, key, ttl, now) && s.cache[key].data != Null then Cached(s.cache[key].data)
    else if key in s.inFlight then Joined(s.inFlight[key])
    else if launches then Started(|s.fetches|)
    else Threw
  }

  predicate Outstanding(s: State, f: int) {
    0 <= f < |s.fetches| && s.fetches[f].outcome == None
  }

  function Ttl(ttl: Option<int>, default: int): int {
    if ttl.Some? then ttl.value else default
  }

  function Apply(s: State, e: Event, default: int): State {
    match e
    case Call(key, ttl, now, launches) =>
      if ReplyTo(s, key, Ttl(ttl, default), now, launches).Started?
      then s.(inFlight := s.inFlight[key := |s.fetches|], fetches := s.fetches + [Fetch(key, None)])
      else s
    case Settle(f, outcome, now) =>
      if !Outstanding(s, f) then s
      else
        var key := s.fetches[f].key;
        State(if outcome.Resolved? then s.cache[key := Entry(outcome.data, now)] else s.cache,
              s.inFlight - {key}, s.fetches[f := Fetch(key, Some(outcome))])
    case Set(key, data, now) => s.(cache := s.cache[key := Entry(data, now)])
    case Invalidate(key) => s.(cache := s.cache - {key})
    case InvalidateMatching(matched) => s.(cache := s.cache - matched)
    case Clear => s.(cache := map[], inFlight := map[])
  }

  function Run(events: seq<Event>, default: int): State {
    if events == [] then EMPTY else Apply(Run(events[..|events| - 1], default), events[|events| - 1], default)
  }

  /// The cache as the dashboard holds it

  class QueryCache {
    var cache: map<Key, Entry>
    var inFlight: map<Key, nat>
    // The promises made so far, by number.
    var fetches: seq<Fetch>
    const defaultTtl: int

    constructor (defaultTtl: int)
      ensures S() == EMPTY && this.defaultTtl == defaultTtl
    {
      cache, inFlight, fetches := map[], map[], [];
      this.defaultTtl := defaultTtl;
    }

    ghost function S(): State
      reads this
    {
      State(cache, inFlight, fetches)
    }

    method Get(key: Key) returns (data: Data)
      ensures data == if key in cache then cache[key].data else Null
    {
      if key !in cache {
        return Null;
      }
      return cache[key].data;
    }

    method IsFresh(key: Key, ttl: Option<int>, now: int) returns (isFresh: bool)
      ensures isFresh <==> Fresh(cache, key, Ttl(ttl, defaultTtl), now)
    {
      if key !in cache {
        return false;
      }
      var limit := if ttl.Some? then ttl.value else defaultTtl;
      return now - cache[key].timestamp < limit;
    }

    method Put(key: Key, data: Data, now: int)
      modifies this`cache
      ensures S() == Apply(old(S()), Set(key, data, now), defaultTtl)
    {
      cache := cache[key := Entry(data, now)];
    }

    method Drop(key: Key)
      modifies this`cache
      ensures S() == Apply(old(S()), Invalidate(key), defaultTtl)
    {
      cache := cache - {key};
    }

    method DropPattern(matches: Key -> bool)
      modifies this`cache
      ensures var matched := set k | k in old(cache) && matches(k);
              S() == Apply(old(S()), InvalidateMatching(matched), defaultTtl)
    {
      ghost var matched := set k | k in cache && matches(k);
      var left := cache.Keys;
      while left != {}
        invariant left <= old(cache).Keys
        invariant cache == old(cache) - (matched - left)
      {
        var key :| key in left;
        left := left - {key};
        if matches(key) {
          cache := cache - {key};
        }
      }
      assert matched - left == matched;
    }

    method Reset()
      modifies this`cache, this`inFlight
      ensures S() == Apply(old(S()), Clear, defaultTtl)
    {
      cache := map[];
      inFlight := map[];
    }

    method FetchWithDedupe(key: Key, ttl: Option<int>, now: int, launches: bool) returns (reply: Reply)
      modifies this`inFlight, this`fetches
      ensures reply == ReplyTo(old(S()), key, Ttl(ttl, defaultTtl), now, launches)
      ensures S() == Apply(old(S()), Call(key, ttl, now, launches), defaultTtl)
    {
      var isFresh := IsFresh(key, ttl, now);
      if isFresh {
        var cached := Get(key);
        if cached != Null {
          return Cached(cached);
        }
      }
      if key in inFlight {
        return Joined(inFlight[key]);
      }
      if !launches {
        return Threw;
      }
      var f := |fetches|;
      fetches := fetches + [Fetch(key, None)];
      inFlight := inFlight[key := f];
      return Started(f);
    }

    // The callbacks chained to a fetch: store a result, and in any case forget the fetch under its key.
    method OnSettled(f: nat, outcome: Outcome, now: int)
      requires Outstanding(S(), f)
      modifies this
      ensures S() == Apply(old(S()), Settle(f, outcome, now), defaultTtl)
    {
      var key := fetches[f].key;
      fetches := fetches[f := Fetch(key, Some(outcome))];
      if outcome.Resolved? {
        Put(key, outcome.data, now);
      }
      inFlight := inFlight - {key};
    }
  }

  /// One fetch at a time

  // No key has two outstanding fetches.
  ghost predicate OneFetchEach(s: State) {
    forall f, g | Outstanding(s, f) && Outstanding(s, g) && f != g :: s.fetches[f].key != s.fetches[g].key
  }

  // The in-flight map holds exactly the outstanding fetches, each under its key.
  ghost predicate SingleFlight(s: State) {
    && (forall k | k in s.inFlight :: Outstanding(s, s.inFlight[k]) && s.fetches[s.inFlight[k]].key == k)
    && (forall f | Outstanding(s, f) :: s.fetches[f].key in s.inFlight && s.inFlight[s.fetches[f].key] == f)
  }

  // The cache is only cleared while nothing is being fetched.
  ghost predicate ClearsAreQuiet(events: seq<Event>, default: int) {
    forall i | 0 <= i < |events| && events[i].Clear? :: forall f :: !Outstanding(Run(events[..i], default), f)
  }

  lemma ApplyKeepsSingleFlight(s: State, e: Event, default: int)
    requires SingleFlight(s) && !e.Clear?
    ensures SingleFlight(Apply(s, e, default))
  {
    var s' := Apply(s, e, default);
    forall f: nat | f < |s.fetches| ensures f < |s'.fetches| && s'.fetches[f].key == s.fetches[f].key {}
    forall f | Outstanding(s', f)
      ensures s'.fetches[f].key in s'.inFlight && s'.inFlight[s'.fetches[f].key] == f
    {
      assert f < |s.fetches| ==> Outstanding(s, f);
    }
    forall k | k in s'.inFlight
      ensures Outstanding(s', s'.inFlight[k]) && s'.fetches[s'.inFlight[k]].key == k
    {
      if k in s.inFlight {
        assert Outstanding(s, s.inFlight[k]);
      }
    }
  }

  /** Clearing keeps the in-flight map exact if and only if nothing is being fetched. */
  lemma ClearKeepsSingleFlightIff(s: State, default: int)
    requires SingleFlight(s)
    ensures SingleFlight(Apply(s, Clear, default)) <==> forall f :: !Outstanding(s, f)
  {
    assert forall f :: Outstanding(s, f) <==> Outstanding(Apply(s, Clear, default), f);
  }

  lemma {:induction false} RunKeepsSingleFlight(events: seq<Event>, default: int)
    requires ClearsAreQuiet(events, default)
    ensures SingleFlight(Run(events, default))
    decreases |events|
  {
    if events != [] {
      var n := |events| - 1;
      var front, s := events[..n], Run(events[..n], default);
      assert forall i | 0 <= i < n :: front[i] == events[i] && front[..i] == events[..i];
      RunKeepsSingleFlight(front, default);
      if events[n].Clear? {
        ClearKeepsSingleFlightIff(s, default);
      } else {
        ApplyKeepsSingleFlight(s, events[n], default);
      }
    }
  }

  /** The in-flight map is exact all along a run if and only if every clear of the run happens while nothing is
      being fetched. */
  lemma {:induction false} SingleFlightRunIff(events: seq<Event>, default: int)
    ensures (forall i | 0 <= i <= |events| :: SingleFlight(Run(events[..i], default)))
            <==> ClearsAreQuiet(events, default)
  {
    hide Run, SingleFlight;
    if ClearsAreQuiet(events, default) {
      forall i | 0 <= i <= |events| ensures SingleFlight(Run(events[..i], default)) {
        assert forall j | 0 <= j < i :: events[..i][j] == events[j] && events[..i][..j] == events[..j];
        RunKeepsSingleFlight(events[..i], default);
      }
    } else {
      var i :| 0 <= i < |events| && events[i].Clear? && !(forall f :: !Outstanding(Run(events[..i], default), f));
      if SingleFlight(Run(events[..i], default)) {
        ClearKeepsSingleFlightIff(Run(events[..i], default), default);
        RunSnoc(events[..i], Clear, default);
        assert events[..i + 1] == events[..i] + [Clear];
      }
    }
  }

  lemma RunSnoc(events: seq<Event>, e: Event, default: int)
    ensures Run(events + [e], default) == Apply(Run(events, default), e, default)
  {
    assert (events + [e])[..|events|] == events;
  }

  /** At every point of such a run each key has at most one outstanding fetch, and the in-flight keys are the
      keys with one. */
  lemma OneFetchPerKey(events: seq<Event>, default: int)
    requires ClearsAreQuiet(events, default)
    ensures var s := Run(events, default);
            && OneFetchEach(s)
            && s.inFlight.Keys == set f | 0 <= f < |s.fetches| && Outstanding(s, f) :: s.fetches[f].key
  {
    RunKeepsSingleFlight(events, default);
    var s := Run(events, default);
    assert forall k | k in s.inFlight :: Outstanding(s, s.inFlight[k]) && s.fetches[s.inFlight[k]].key == k;
  }

  predicate NeverClears(events: seq<Event>) {
    forall e | e in events :: !e.Clear?
  }

  lemma {:induction false} SingleFlightLasts(events: seq<Event>, more: seq<Event>, default: int)
    requires SingleFlight(Run(events, default)) && NeverClears(more)
    ensures SingleFlight(Run(events + more, default))
    decreases |more|
  {
    if more == [] {
      assert events + more == events;
    } else {
      var front, e := more[..|more| - 1], more[|more| - 1];
      assert events + more == events + front + [e] && e in more && forall d | d in front :: d in more;
      SingleFlightLasts(events, front, default);
      RunSnoc(events + front, e, default);
      hide Run, SingleFlight;
      ApplyKeepsSingleFlight(Run(events + front, default), e, default);
    }
  }

  // A fetch under way at a clear gets a rival as soon as its key is asked for again.
  lemma RivalAfterClear(events: seq<Event>, default: int, f: nat)
    requires Outstanding(Run(events, default), f)
    ensures var key := Run(events, default).fetches[f].key;
            !OneFetchEach(Run(events + [Clear] + [Call(key, None, 0, true)], default))
  {
    var s := Run(events, default);
    var call := Call(s.fetches[f].key, None, 0, true);
    RunSnoc(events, Clear, default);
    RunSnoc(events + [Clear], call, default);
    hide Run;
    var end := Run(events + [Clear] + [call], default);
    assert end.fetches == s.fetches + [Fetch(call.key, None)];
    assert Outstanding(end, f) && Outstanding(end, |s.fetches|);
  }

  /** A clear leaves at most one outstanding fetch for each key, in every continuation up to the next clear, if and only
      if nothing is being fetched when it happens. */
  lemma ClearHoldsIff(events: seq<Event>, default: int)
    requires SingleFlight(Run(events, default))
    ensures (forall more | NeverClears(more) :: OneFetchEach(Run(events + [Clear] + more, default)))
            <==> forall f :: !Outstanding(Run(events, default), f)
  {
    var s := Run(events, default);
    RunSnoc(events, Clear, default);
    ClearKeepsSingleFlightIff(s, default);
    hide Run, Apply;
    if forall f :: !Outstanding(s, f) {
      forall more | NeverClears(more) ensures OneFetchEach(Run(events + [Clear] + more, default)) {
        SingleFlightLasts(events + [Clear], more, default);
      }
    } else {
      var f :| Outstanding(s, f);
      RivalAfterClear(events, default, f);
      assert NeverClears([Call(s.fetches[f].key, None, 0, true)]);
    }
  }

  /// What callers get

  // A fetch keeps its key, and once settled its outcome.
  lemma {:induction false} FetchesAreFinal(events: seq<Event>, more: seq<Event>, default: int, f: nat)
    requires f < |Run(events, default).fetches|
    ensures var was, now := Run(events, default), Run(events + more, default);
            f < |now.fetches| && now.fetches[f].key == was.fetches[f].key
            && (was.fetches[f].outcome != None ==> now.fetches[f] == was.fetches[f])
            && ((forall e | e in more && e.Settle? :: e.fetch != f) ==> now.fetches[f] == was.fetches[f])
    decreases |more|
  {
    if more == [] {
      assert events + more == events;
    } else {
      var n := |more| - 1;
      FetchesAreFinal(events, more[..n], default, f);
      assert (events + more)[..|events| + n] == events + more[..n] && (events + more)[|events| + n] == more[n];
      assert forall e | e in more[..n] :: e in more;
      assert more[n] in more;
    }
  }

  /** Whoever asks while a fetch for the key is under way gets the cached value or joins that very fetch: none
      starts another. With `FetchesAreFinal`, all who hold it get the one outcome it settles with. */
  lemma LateCallersJoin(events: seq<Event>, more: seq<Event>, default: int, f: nat, ttl: int, now: int, launches: bool)
    requires ClearsAreQuiet(events + more, default)
    requires Outstanding(Run(events, default), f)
    requires forall e | e in more && e.Settle? :: e.fetch != f
    ensures var key := Run(events, default).fetches[f].key;
            var reply := ReplyTo(Run(events + more, default), key, ttl, now, launches);
            reply.Cached? || reply == Joined(f)
  {
    FetchesAreFinal(events, more, default, f);
    RunKeepsSingleFlight(events + more, default);
    assert Outstanding(Run(events + more, default), f);
  }

  // The value an event stores under the key.
  function StoredBy(events: seq<Event>, i: nat, default: int): Option<(Key, Entry)>
    requires i < |events|
  {
    match events[i]
    case Set(key, data, now) => Some((key, Entry(data, now)))
    case Settle(f, Resolved(data), now) =>
      var s := Run(events[..i], default);
      if Outstanding(s, f) then Some((s.fetches[f].key, Entry(data, now))) else None
    case _ => None
  }

  predicate Forgets(e: Event, key: Key) {
    e.Clear? || e == Invalidate(key) || (e.InvalidateMatching? && key in e.matched)
  }

  // The entry was stored by event i and nothing has replaced or invalidated it since.
  ghost predicate LiveSince(events: seq<Event>, default: int, key: Key, entry: Entry, i: nat) {
    && i < |events| && StoredBy(events, i, default) == Some((key, entry))
    && (forall j | i < j < |events| :: !Forgets(events[j], key))
    && (forall j | i < j < |events| :: var st := StoredBy(events, j, default); st.Some? ==> st.value.0 != key)
  }

  // One event stores an entry, forgets it, or leaves it.
  lemma OneEvent(events: seq<Event>, default: int, key: Key)
    requires events != []
    ensures var n := |events| - 1;
            var was, now := Run(events[..n], default).cache, Run(events, default).cache;
            var st := StoredBy(events, n, default);
            if st.Some? && st.value.0 == key then key in now && now[key] == st.value.1
            else key in now ==> key in was && now[key] == was[key] && !Forgets(events[n], key)
  {
  }

  lemma StoredByFront(events: seq<Event>, n: nat, j: nat, default: int)
    requires j < n <= |events|
    ensures StoredBy(events[..n], j, default) == StoredBy(events, j, default)
  {
    assert events[..n][..j] == events[..j];
  }

  lemma {:induction false} EntriesAreLive(events: seq<Event>, default: int, key: Key) returns (i: nat)
    requires key in Run(events, default).cache
    ensures LiveSince(events, default, key, Run(events, default).cache[key], i)
    decreases |events|
  {
    var n := |events| - 1;
    var last := StoredBy(events, n, default);
    OneEvent(events, default, key);
    hide Run, StoredBy, Forgets;
    if last.Some? && last.value.0 == key {
      i := n;
    } else {
      i := EntriesAreLive(events[..n], default, key);
      forall j | 0 <= j < n
        ensures events[..n][j] == events[j] && StoredBy(events[..n], j, default) == StoredBy(events, j, default)
      {
        StoredByFront(events, n, j, default);
      }
    }
  }

  /** A value given without fetching is never null, and was stored for the key less than the time to live ago,
      neither replaced nor invalidated since. This holds of every run, clears included. */
  lemma CachedValuesAreFresh(events: seq<Event>, default: int, key: Key, ttl: int, now: int, launches: bool)
      returns (i: nat)
    requires ReplyTo(Run(events, default), key, ttl, now, launches).Cached?
    ensures var data := ReplyTo(Run(events, default), key, ttl, now, launches).data;
            && data != Null && i < |events| && StoredBy(events, i, default).Some?
            && var entry := StoredBy(events, i, default).value.1;
            LiveSince(events, default, key, entry, i) && entry.data == data && now - entry.timestamp < ttl
  {
    i := EntriesAreLive(events, default, key);
  }

  /// Where the guarantees end

  /** A fetch outstanding across a clear later forgets the newer fetch of its key, and a third one starts while
      the second is still under way. */
  lemma ClearBreaksSingleFlight(key: Key, default: int)
    ensures var call := Call(key, None, 0, true);
            var s := Run([call, Clear, call, Settle(0, Rejected, 0), call], default);
            Outstanding(s, 1) && Outstanding(s, 2) && s.fetches[1].key == s.fetches[2].key == key
  {
    var call := Call(key, None, 0, true);
    var a, b, c, d := [call], [call, Clear], [call, Clear, call], [call, Clear, call, Settle(0, Rejected, 0)];
    assert [] + [call] == a && a + [Clear] == b && b + [call] == c && c + [Settle(0, Rejected, 0)] == d;
    assert d + [call] == [call, Clear, call, Settle(0, Rejected, 0), call];
    RunSnoc([], call, default);
    RunSnoc(a, Clear, default);
    RunSnoc(b, call, default);
    RunSnoc(c, Settle(0, Rejected, 0), default);
    RunSnoc(d, call, default);
    assert Run([], default) == EMPTY;
    TwoCalls(key, default);
    ThirdCall(key, default);
    hide Run, Apply;
  }

  lemma TwoCalls(key: Key, default: int)
    ensures var call := Call(key, None, 0, true);
            Apply(Apply(Apply(EMPTY, call, default), Clear, default), call, default)
            == State(map[], map[key := 1], [Fetch(key, None), Fetch(key, None)])
  {
    var call := Call(key, None, 0, true);
    assert Apply(EMPTY, call, default) == State(map[], map[key := 0], [Fetch(key, None)]);
  }

  lemma ThirdCall(key: Key, default: int)
    ensures var s := State(map[], map[key := 1], [Fetch(key, None), Fetch(key, None)]);
            Apply(Apply(s, Settle(0, Rejected, 0), default), Call(key, None, 0, true), default)
            == State(map[], map[key := 2], [Fetch(key, Some(Rejected)), Fetch(key, None), Fetch(key, None)])
  {
    var s := State(map[], map[key := 1], [Fetch(key, None), Fetch(key, None)]);
    assert Apply(s, Settle(0, Rejected, 0), default)
        == State(map[], map[], [Fetch(key, Some(Rejected)), Fetch(key, None)]);
  }

  /// What an invalidation reaches

  // No event stores a value of the caller's own under the key.
  predicate NeverSets(events: seq<Event>, key: Key) {
    forall e | e in events && e.Set? :: e.key != key
  }

  // The entry of the key, if any, is what a fetch with number n or later resolved with.
  ghost predicate FetchedSince(events: seq<Event>, default: int, key: Key, n: nat) {
    key in Run(events, default).cache ==>
      exists i: nat :: LiveSince(events, default, key, Run(events, default).cache[key], i)
                       && events[i].Settle? && events[i].fetch >= n
  }

  lemma OldFetchWasOutstanding(events: seq<Event>, more: seq<Event>, default: int, f: nat)
    requires Outstanding(Run(events + more, default), f) && f < |Run(events, default).fetches|
    ensures Outstanding(Run(events, default), f)
    ensures Run(events, default).fetches[f].key == Run(events + more, default).fetches[f].key
  {
    FetchesAreFinal(events, more, default, f);
  }

  lemma ForgettingStoresNothing(events: seq<Event>, e: Event, default: int, key: Key)
    requires Forgets(e, key)
    ensures StoredBy(events + [e], |events|, default) == None
    ensures Run(events + [e], default).fetches == Run(events, default).fetches
  {
    assert (events + [e])[..|events|] == events;
  }

  // A live entry was stored after the event that forgot its key.
  lemma StoredAfter(events: seq<Event>, e: Event, more: seq<Event>, default: int, key: Key, i: nat)
    requires Forgets(e, key) && key in Run(events + [e] + more, default).cache
    requires LiveSince(events + [e] + more, default, key, Run(events + [e] + more, default).cache[key], i)
    ensures |events| < i < |events + [e] + more|
    ensures StoredBy(events + [e] + more, i, default).Some? && StoredBy(events + [e] + more, i, default).value.0 == key
  {
    var all := events + [e] + more;
    ForgettingStoresNothing(events, e, default, key);
    StoredByFront(all, |events| + 1, |events|, default);
    assert all[..|events| + 1] == events + [e] && all[|events|] == e;
    hide Run, StoredBy, Forgets;
  }

  lemma StoredLater(events: seq<Event>, e: Event, more: seq<Event>, default: int, key: Key, i: nat)
    requires Forgets(e, key) && NeverSets(more, key)
    requires forall f | Outstanding(Run(events, default), f) :: Run(events, default).fetches[f].key != key
    requires |events| < i < |events + [e] + more|
    requires StoredBy(events + [e] + more, i, default).Some? && StoredBy(events + [e] + more, i, default).value.0 == key
    ensures (events + [e] + more)[i].Settle? && (events + [e] + more)[i].fetch >= |Run(events, default).fetches|
  {
    var all := events + [e] + more;
    assert all[i] == more[i - |events| - 1];
    var mid := [e] + more[..i - |events| - 1];
    assert all[..i] == events + mid;
    hide Run;
    if all[i].Settle? && all[i].fetch < |Run(events, default).fetches| {
      OldFetchWasOutstanding(events, mid, default, all[i].fetch);
    }
  }

  lemma ForgottenForGood(events: seq<Event>, e: Event, more: seq<Event>, default: int, key: Key)
    requires Forgets(e, key) && NeverSets(more, key)
    requires forall f | Outstanding(Run(events, default), f) :: Run(events, default).fetches[f].key != key
    ensures FetchedSince(events + [e] + more, default, key, |Run(events, default).fetches|)
  {
    var all := events + [e] + more;
    hide Run, StoredBy, Forgets, LiveSince;
    if key in Run(all, default).cache {
      var i := EntriesAreLive(all, default, key);
      StoredAfter(events, e, more, default, key, i);
      StoredLater(events, e, more, default, key, i);
    }
  }

  // A fetch under way when the key is forgotten brings an old value back.
  lemma InvalidationMissesOutstandingFetch(events: seq<Event>, e: Event, default: int, f: nat, data: Data, now: int)
    requires Outstanding(Run(events, default), f) && Forgets(e, Run(events, default).fetches[f].key)
    ensures var key, all := Run(events, default).fetches[f].key, events + [e] + [Settle(f, Resolved(data), now)];
            && key in Run(all, default).cache && Run(all, default).cache[key] == Entry(data, now)
            && !FetchedSince(all, default, key, |Run(events, default).fetches|)
  {
    var last := Settle(f, Resolved(data), now);
    var key, all := Run(events, default).fetches[f].key, events + [e] + [last];
    ForgettingStoresNothing(events, e, default, key);
    RunSnoc(events, e, default);
    RunSnoc(events + [e], last, default);
    hide Run, StoredBy;
    forall i: nat | i < |all| && LiveSince(all, default, key, Run(all, default).cache[key], i)
      ensures all[i] == last
    {
      StoredAfter(events, e, [last], default, key, i);
    }
  }

  /** An event that forgets a key (its invalidation, a matching pattern, a clear) forgets it for good, in every run: in
      every continuation in which no caller sets the key, its entry comes from a fetch started afterwards, if and
      only if no fetch of the key is under way at that moment. While the in-flight map is exact, that is to say the
      key is not in it. */
  lemma InvalidationHoldsIff(events: seq<Event>, e: Event, default: int, key: Key)
    requires Forgets(e, key)
    ensures var s := Run(events, default);
            && ((forall more | NeverSets(more, key) :: FetchedSince(events + [e] + more, default, key, |s.fetches|))
                <==> forall f | Outstanding(s, f) :: s.fetches[f].key != key)
            && (SingleFlight(s) ==>
                  ((forall f | Outstanding(s, f) :: s.fetches[f].key != key) <==> key !in s.inFlight))
  {
    var s := Run(events, default);
    hide Run, FetchedSince, Forgets;
    if forall f | Outstanding(s, f) :: s.fetches[f].key != key {
      forall more | NeverSets(more, key) ensures FetchedSince(events + [e] + more, default, key, |s.fetches|) {
        ForgottenForGood(events, e, more, default, key);
      }
    } else {
      var f :| Outstanding(s, f) && s.fetches[f].key == key;
      InvalidationMissesOutstandingFetch(events, e, default, f, Null, 0);
      assert NeverSets([Settle(f, Resolved(Null), 0)], key);
    }
  }
}
