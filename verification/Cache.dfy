/** The in-memory TTL cache: entries disappear lazily when they are read after their time, or in
    a sweep. Answers are compared with the history of operations, in which nothing disappears. */
module Cache {
  import opened Results

  type Key = string
  type Time = int   // clock ticks, of one nanosecond

  const SECOND: int := 1_000_000_000

  datatype Entry = Entry(value: string, expiresAt: Time, hasTtl: bool)

  predicate Expired(e: Entry, now: Time) { e.hasTtl && now >= e.expiresAt }

  /** What `set` stores: a zero time-to-live means the default one, and only a positive one
      limits the entry's life. */
  function NewEntry(value: string, ttl: int, defaultTtl: int, now: Time): Entry {
    var effective := if ttl == 0 && defaultTtl > 0 then defaultTtl else ttl;
    if effective > 0 then Entry(value, now + effective * SECOND, true) else Entry(value, 0, false)
  }

  /** The entries that a sweep keeps, judging by the given clock reading. */
  function Swept(entries: map<Key, Entry>, readAt: Time): map<Key, Entry> {
    map k | k in entries && !Expired(entries[k], readAt) :: entries[k]
  }

  // ---- The operations ----

  datatype Op =
    | Get(key: Key)
    | Set(key: Key, value: string, ttl: int)
    | Del(key: Key)
    | Exists(key: Key)
    | Flush
    | Sweep(readAt: Time)

  /** The entries after one operation. */
  function After(entries: map<Key, Entry>, defaultTtl: int, op: Op, now: Time): map<Key, Entry> {
    match op
    case Get(k) => if k in entries && Expired(entries[k], now) then entries - {k} else entries
    case Exists(k) => if k in entries && Expired(entries[k], now) then entries - {k} else entries
    case Set(k, v, ttl) => entries[k := NewEntry(v, ttl, defaultTtl, now)]
    case Del(k) => entries - {k}
    case Flush => map[]
    case Sweep(readAt) => Swept(entries, readAt)
  }

  /** What `get` answers; `exists` answers whether that is something. */
  function Answer(entries: map<Key, Entry>, key: Key, now: Time): Option<string> {
    if key in entries && !Expired(entries[key], now) then Some(entries[key].value) else None
  }

  // ---- The object ----

  class InMemoryCacheAdapter {
    const defaultTtl: int
    var entries: map<Key, Entry>

    constructor (defaultTtl: int)
      ensures this.defaultTtl == defaultTtl && entries == map[]
    {
      this.defaultTtl := defaultTtl;
      entries := map[];
    }

    method Get(key: Key, now: Time) returns (r: Option<string>)
      modifies this
      ensures entries == After(old(entries), defaultTtl, Op.Get(key), now)
      ensures r == Answer(old(entries), key, now)
    {
      if key !in entries {
        return None;
      }
      if Expired(entries[key], now) {
        entries := entries - {key};
        return None;
      }
      return Some(entries[key].value);
    }

    method Set(key: Key, value: string, ttl: int, now: Time)
      modifies this
      ensures entries == After(old(entries), defaultTtl, Op.Set(key, value, ttl), now)
      ensures key in entries && entries[key].value == value
    {
      var effective := ttl;
      if effective == 0 && defaultTtl > 0 {
        effective := defaultTtl;
      }
      var entry := Entry(value, 0, false);
      if effective > 0 {
        entry := entry.(expiresAt := now + effective * SECOND, hasTtl := true);
      }
      entries := entries[key := entry];
    }

    method Del(key: Key, now: Time)
      modifies this
      ensures entries == After(old(entries), defaultTtl, Op.Del(key), now)
    {
      entries := entries - {key};
    }

    method Exists(key: Key, now: Time) returns (r: bool)
      modifies this
      ensures entries == After(old(entries), defaultTtl, Op.Exists(key), now)
      ensures r == Answer(old(entries), key, now).Some?
    {
      if key !in entries {
        return false;
      }
      if Expired(entries[key], now) {
        entries := entries - {key};
        return false;
      }
      return true;
    }

    method Flush(now: Time)
      modifies this
      ensures entries == After(old(entries), defaultTtl, Op.Flush, now)
    {
      entries := map[];
    }

    /** The sweep, with a clock reading taken before the mutex. The iterator visits the entries in
        some order, erasing behind itself; what it has not visited is untouched. It removes only
        entries expired at the reading, keeps all others unchanged, and leaves none expired. */
    method EvictExpired(readAt: Time)
      modifies this
      ensures entries == Swept(old(entries), readAt)
      ensures forall k | k in old(entries) :: k in entries <==> !Expired(old(entries)[k], readAt)
      ensures forall k | k in entries :: k in old(entries) && entries[k] == old(entries)[k] && !Expired(entries[k], readAt)
    {
      var ahead := entries.Keys;
      while ahead != {}
        invariant ahead <= entries.Keys <= old(entries).Keys
        invariant forall k | k in entries :: entries[k] == old(entries)[k]
        invariant forall k | k in old(entries) && k !in ahead :: k in entries <==> !Expired(old(entries)[k], readAt)
        decreases |ahead|
      {
        var it :| it in ahead;
        ahead := ahead - {it};
        if Expired(entries[it], readAt) {
          entries := entries - {it};
        }
      }
    }
  }

  // ---- Runs ----

  /** An operation and the time at which it holds the mutex. */
  datatype Event = Event(op: Op, now: Time)

  function Entries(defaultTtl: int, events: seq<Event>): map<Key, Entry> {
    if events == [] then map[]
    else
      var last := events[|events| - 1];
      After(Entries(defaultTtl, events[..|events| - 1]), defaultTtl, last.op, last.now)
  }

  /** The specification: the last value set for the key since the last del of it or flush, with the
      life it was given, whatever was read or swept in between. */
  function LastSet(defaultTtl: int, events: seq<Event>, key: Key): Option<Entry> {
    if events == [] then None
    else
      var last := events[|events| - 1];
      match last.op
      case Set(k, v, ttl) =>
        if k == key then Some(NewEntry(v, ttl, defaultTtl, last.now))
        else LastSet(defaultTtl, events[..|events| - 1], key)
      case Del(k) => if k == key then None else LastSet(defaultTtl, events[..|events| - 1], key)
      case Flush => None
      case _ => LastSet(defaultTtl, events[..|events| - 1], key)
  }

  function Expected(defaultTtl: int, events: seq<Event>, key: Key, now: Time): Option<string> {
    match LastSet(defaultTtl, events, key)
    case None => None
    case Some(e) => if Expired(e, now) then None else Some(e.value)
  }

  /** A clock that never goes back; a sweep's reading is not later than its mutex. */
  ghost predicate Clocked(events: seq<Event>) {
    && (forall i, j | 0 <= i < j < |events| :: events[i].now <= events[j].now)
    && (forall i | 0 <= i < |events| && events[i].op.Sweep? :: events[i].op.readAt <= events[i].now)
  }

  /** An entry is the last one set; a missing one was never set, deleted, or is over by now. */
  ghost predicate Tracks(entries: map<Key, Entry>, spec: Option<Entry>, key: Key, now: Time) {
    if key in entries then spec == Some(entries[key]) else spec.None? || Expired(spec.value, now)
  }

  lemma {:induction false} EntriesTrackHistory(defaultTtl: int, events: seq<Event>, key: Key, now: Time)
    requires Clocked(events) && (events == [] || events[|events| - 1].now <= now)
    ensures Tracks(Entries(defaultTtl, events), LastSet(defaultTtl, events, key), key, now)
  {
    if events != [] {
      var before := events[..|events| - 1];
      var last := events[|events| - 1];
      EntriesTrackHistory(defaultTtl, before, key, last.now);
    }
  }

  /** How long a value is granted: for its time-to-live if that is positive, for the default one if it
      is zero and the default is positive, and otherwise for ever, also if it is negative. */
  lemma SetLifetime(defaultTtl: int, events: seq<Event>, key: Key, value: string, ttl: int, at: Time, now: Time)
    ensures Expected(defaultTtl, events + [Event(Set(key, value, ttl), at)], key, now) ==
      if ttl > 0 then (if now < at + ttl * 1_000_000_000 then Some(value) else None)
      else if ttl == 0 && defaultTtl > 0 then (if now < at + defaultTtl * 1_000_000_000 then Some(value) else None)
      else Some(value)
  {
    var all := events + [Event(Set(key, value, ttl), at)];
    assert all[|all| - 1] == Event(Set(key, value, ttl), at);
  }

  /** Refinement: in every run with a clock that does not go back, with reads that erase and sweeps
      with early readings wherever they happen, the cache answers exactly as its history says. */
  lemma {:induction false} CacheAnswersAsHistory(defaultTtl: int, events: seq<Event>, key: Key, now: Time)
    requires Clocked(events) && (events == [] || events[|events| - 1].now <= now)
    ensures Answer(Entries(defaultTtl, events), key, now) == Expected(defaultTtl, events, key, now)
  {
    EntriesTrackHistory(defaultTtl, events, key, now);
  }

  /** Reads and sweeps cannot be noticed: dropping one from anywhere in the run changes no answer. */
  lemma ReadsAreInvisible(defaultTtl: int, before: seq<Event>, e: Event, after: seq<Event>, key: Key, now: Time)
    requires e.op.Get? || e.op.Exists? || e.op.Sweep?
    requires Clocked(before + [e] + after)
    requires (before + [e] + after)[|before| + |after|].now <= now
    ensures Answer(Entries(defaultTtl, before + [e] + after), key, now)
         == Answer(Entries(defaultTtl, before + after), key, now)
  {
    var full, less := before + [e] + after, before + after;
    assert forall i | 0 <= i < |less| :: less[i] == full[if i < |before| then i else i + 1];
    if less != [] {
      assert less[|less| - 1].now <= full[|full| - 1].now;
    }
    CacheAnswersAsHistory(defaultTtl, full, key, now);
    CacheAnswersAsHistory(defaultTtl, less, key, now);
    SameHistory(defaultTtl, before, e, after, key);
  }

  lemma {:induction false} SameHistory(defaultTtl: int, before: seq<Event>, e: Event, after: seq<Event>, key: Key)
    requires e.op.Get? || e.op.Exists? || e.op.Sweep?
    ensures LastSet(defaultTtl, before + [e] + after, key) == LastSet(defaultTtl, before + after, key)
    decreases |after|
  {
    var full, less := before + [e] + after, before + after;
    if after == [] {
      assert full[..|full| - 1] == before == less;
    } else {
      var init := after[..|after| - 1];
      assert full[..|full| - 1] == before + [e] + init && less[..|less| - 1] == before + init;
      SameHistory(defaultTtl, before, e, init, key);
    }
  }

  /** The clock matters: if it goes back after a read has erased the entry, the cache has forgotten
      a value that its history still grants. */
  lemma BackwardClockForgets(key: Key, value: string)
    ensures var events := [Event(Set(key, value, 10), 0), Event(Get(key), 10 * SECOND)];
      Answer(Entries(0, events), key, 5 * SECOND) == None && Expected(0, events, key, 5 * SECOND) == Some(value)
  {
    var events := [Event(Set(key, value, 10), 0), Event(Get(key), 10 * SECOND)];
    assert events[..1] == [events[0]];
    assert events[..1][..0] == [];
    assert Entries(0, events[..1]) == map[key := Entry(value, 10 * SECOND, true)];
    assert LastSet(0, events[..1], key) == Some(Entry(value, 10 * SECOND, true));
  }
}
