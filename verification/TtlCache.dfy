/** What the document caches have in common: a cache of outcomes with a lifetime, against the
    log of every load that was made. */
module TtlCache {
  import opened Wrappers

  /** One uncached resolution. A forced load is one the caller asked for past the cache. */
  datatype Load<K, R> = Load(key: K, started: real, finished: real, forced: bool, outcome: R)

  datatype Entry<R> = Entry(expiresAt: real, outcome: R)

  /** Load i is the last one of its key whose outcome is cached at all. */
  ghost predicate Latest<K, R>(loads: seq<Load<K, R>>, life: R -> Option<real>, i: int) {
    && 0 <= i < |loads| && life(loads[i].outcome).Some?
    && forall k :: i < k < |loads| && loads[k].key == loads[i].key ==> life(loads[k].outcome).None?
  }

  /** Every entry holds the outcome of the latest cached load of its key, and expires when the
      lifetime of that outcome has passed since the load finished. */
  ghost predicate Sound<K, R>(cache: map<K, Entry<R>>, loads: seq<Load<K, R>>, life: R -> Option<real>) {
    && (forall key :: key in cache ==> exists i :: Latest(loads, life, i) && loads[i].key == key)
    && (forall i :: Latest(loads, life, i) ==>
          && loads[i].key in cache
          && cache[loads[i].key] == Entry(loads[i].finished + life(loads[i].outcome).value, loads[i].outcome))
  }

  ghost predicate Timely<K, R>(loads: seq<Load<K, R>>, now: real) {
    forall i :: 0 <= i < |loads| ==> loads[i].started <= loads[i].finished <= now
  }

  /** A load that nobody forced did not start before the lifetime of the last cached outcome
      was over. */
  ghost predicate Needed<K, R>(loads: seq<Load<K, R>>, life: R -> Option<real>) {
    forall i, j :: 0 <= i < j < |loads| && Latest(loads[..j], life, i)
                   && loads[i].key == loads[j].key && !loads[j].forced ==>
      loads[j].started >= loads[i].finished + life(loads[i].outcome).value
  }

  /** `r` is the outcome of a load of `key` that finished less than its lifetime ago. */
  ghost predicate Fresh<K, R>(loads: seq<Load<K, R>>, life: R -> Option<real>, key: K, r: R, now: real) {
    exists i :: 0 <= i < |loads| && loads[i].key == key && loads[i].outcome == r && life(r).Some?
                && loads[i].finished <= now < loads[i].finished + life(r).value
  }

  lemma Served<K, R>(cache: map<K, Entry<R>>, loads: seq<Load<K, R>>, life: R -> Option<real>, key: K, now: real)
    requires Sound(cache, loads, life) && Timely(loads, now)
    requires key in cache && now < cache[key].expiresAt
    ensures Fresh(loads, life, key, cache[key].outcome, now)
  {
    var i :| Latest(loads, life, i) && loads[i].key == key;
  }

  lemma LatestAfter<K, R>(loads: seq<Load<K, R>>, life: R -> Option<real>, l: Load<K, R>, i: int)
    ensures Latest(loads + [l], life, i) <==>
            if i == |loads| then life(l.outcome).Some?
            else Latest(loads, life, i) && (l.key == loads[i].key ==> life(l.outcome).None?)
  {
    var next := loads + [l];
    assert next[|loads|] == l && forall k :: 0 <= k < |loads| ==> next[k] == loads[k];
  }

  /** Logging a load, and caching its outcome when it has a lifetime, keeps the cache sound. */
  lemma Stored<K, R>(cache: map<K, Entry<R>>, loads: seq<Load<K, R>>, life: R -> Option<real>,
                     l: Load<K, R>, next: map<K, Entry<R>>)
    requires Sound(cache, loads, life)
    requires next == (if life(l.outcome).Some?
                      then cache[l.key := Entry(l.finished + life(l.outcome).value, l.outcome)] else cache)
    ensures Sound(next, loads + [l], life)
  {
    var after := loads + [l];
    assert after[|loads|] == l && forall k :: 0 <= k < |loads| ==> after[k] == loads[k];
    forall i | Latest(after, life, i)
      ensures after[i].key in next
      ensures next[after[i].key] == Entry(after[i].finished + life(after[i].outcome).value, after[i].outcome)
    {
      LatestAfter(loads, life, l, i);
    }
    forall key | key in next
      ensures exists i :: Latest(after, life, i) && after[i].key == key
    {
      if key == l.key && life(l.outcome).Some? {
        LatestAfter(loads, life, l, |loads|);
      } else {
        var i :| Latest(loads, life, i) && loads[i].key == key;
        LatestAfter(loads, life, l, i);
      }
    }
  }

  lemma StillNeeded<K, R>(cache: map<K, Entry<R>>, loads: seq<Load<K, R>>, life: R -> Option<real>, l: Load<K, R>)
    requires Sound(cache, loads, life) && Needed(loads, life)
    requires !l.forced && l.key in cache ==> cache[l.key].expiresAt <= l.started
    ensures Needed(loads + [l], life)
  {
    var after := loads + [l];
    assert after[|loads|] == l && forall k :: 0 <= k < |loads| ==> after[k] == loads[k];
    forall i, j | 0 <= i < j < |after| && Latest(after[..j], life, i)
                  && after[i].key == after[j].key && !after[j].forced
      ensures after[j].started >= after[i].finished + life(after[i].outcome).value
    {
      assert after[..j] == loads[..j];
      if j == |loads| {
        assert loads[..j] == loads;
      }
    }
  }

  /** Everything a cache keeps, for one more load. */
  lemma Logged<K, R>(cache: map<K, Entry<R>>, loads: seq<Load<K, R>>, life: R -> Option<real>,
                     l: Load<K, R>, next: map<K, Entry<R>>, before: real, now: real)
    requires Sound(cache, loads, life) && Timely(loads, before) && Needed(loads, life)
    requires before <= l.started <= l.finished <= now
    requires !l.forced && l.key in cache ==> cache[l.key].expiresAt <= l.started
    requires next == (if life(l.outcome).Some?
                      then cache[l.key := Entry(l.finished + life(l.outcome).value, l.outcome)] else cache)
    ensures Sound(next, loads + [l], life) && Timely(loads + [l], now) && Needed(loads + [l], life)
    ensures (loads + [l])[..|loads|] == loads && (loads + [l])[|loads|] == l
  {
    Stored(cache, loads, life, l, next);
    StillNeeded(cache, loads, life, l);
  }

  lemma LaterTimely<K, R>(loads: seq<Load<K, R>>, before: real, now: real)
    requires Timely(loads, before) && before <= now
    ensures Timely(loads, now)
  {}

  /** When loading a key always gives the same outcome, the cache gives that outcome. */
  lemma UnchangingAgrees<K(!new), R>(loads: seq<Load<K, R>>, life: R -> Option<real>, uncached: K -> R,
                                     key: K, r: R, now: real)
    requires forall i :: 0 <= i < |loads| ==> loads[i].outcome == uncached(loads[i].key)
    requires Fresh(loads, life, key, r, now)
    ensures r == uncached(key)
  {
    var i :| 0 <= i < |loads| && loads[i].key == key && loads[i].outcome == r;
  }
}
