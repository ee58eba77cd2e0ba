/** The key-value store that holds job statuses: string keys and values, an
    optional expiry instant per key, and a clock. It honours the three
    commands the application uses: SET (which clears any expiry), EXPIRE and
    GET. Time is counted in seconds. */
module StatusStore {
  import opened Wrappers

  /** A stored value and, when EXPIRE has been applied, the instant at which
      the key disappears. */
  datatype Entry = Entry(value: string, expiresAt: Option<int>)

  /** A key is visible until its expiry instant; a key without one never expires. */
  predicate Live(e: Entry, now: int) {
    e.expiresAt.None? || now < e.expiresAt.value
  }

  /** What GET returns for `key` at instant `now`. */
  function Visible(entries: map<string, Entry>, now: int, key: string): (r: Option<string>)
    ensures r.Some? <==> key in entries && Live(entries[key], now)
    ensures r.Some? ==> r.value == entries[key].value
  {
    if key in entries && Live(entries[key], now) then Some(entries[key].value) else None
  }

  /** A command sent to the store. */
  datatype Command = SetCommand(key: string, value: string) | ExpireCommand(key: string, seconds: int)

  /** The store, with the commands it has received, in order, in `log`. */
  class Store {
    var entries: map<string, Entry>
    var now: int
    ghost var log: seq<Command>

    constructor (start: int)
      ensures entries == map[] && now == start && log == []
    {
      entries := map[];
      now := start;
      log := [];
    }

    /** SET key value: store the value and drop any expiry. */
    method Set(key: string, value: string)
      modifies this
      ensures entries == old(entries)[key := Entry(value, None)]
      ensures now == old(now)
      ensures log == old(log) + [SetCommand(key, value)]
      ensures Visible(entries, now, key) == Some(value)
    {
      entries := entries[key := Entry(value, None)];
      log := log + [SetCommand(key, value)];
    }

    /** EXPIRE key seconds: when the key is visible, it disappears `seconds`
        from now (at once when `seconds <= 0`); reports whether it applied. */
    method Expire(key: string, seconds: int) returns (applied: bool)
      modifies this
      ensures applied <==> Visible(old(entries), old(now), key).Some?
      ensures applied ==> entries == old(entries)[key := Entry(old(entries)[key].value, Some(old(now) + seconds))]
      ensures !applied ==> entries == old(entries)
      ensures now == old(now)
      ensures log == old(log) + [ExpireCommand(key, seconds)]
    {
      log := log + [ExpireCommand(key, seconds)];
      applied := Visible(entries, now, key).Some?;
      if applied {
        entries := entries[key := Entry(entries[key].value, Some(now + seconds))];
      }
    }

    /** GET key. */
    method Get(key: string) returns (r: Option<string>)
      ensures r == Visible(entries, now, key)
      ensures r.Some? ==> key in entries && r.value == entries[key].value
    {
      if key in entries && Live(entries[key], now) {
        r := Some(entries[key].value);
      } else {
        r := None;
      }
    }

    /** The passage of `seconds` seconds. */
    method Advance(seconds: nat)
      modifies this
      ensures now == old(now) + seconds && entries == old(entries) && log == old(log)
    {
      now := now + seconds;
    }
  }

  /** A value just SET reads back at every later instant until it is
      overwritten or given an expiry; other keys read as before. */
  lemma SetThenGet(entries: map<string, Entry>, key: string, value: string, now: int, other: string)
    ensures Visible(entries[key := Entry(value, None)], now, key) == Some(value)
    ensures other != key ==> Visible(entries[key := Entry(value, None)], now, other) == Visible(entries, now, other)
  {
  }

  /** A second write to a key replaces the first entirely. */
  lemma Overwrite(entries: map<string, Entry>, key: string, first: Entry, second: Entry)
    ensures entries[key := first][key := second] == entries[key := second]
  {
  }

  /** After SET then EXPIRE `ttl` at `t0`, the value reads back before
      `t0 + ttl` and is gone from then on. */
  lemma ExpiryWindow(entries: map<string, Entry>, key: string, value: string, t0: int, ttl: int, t: int)
    ensures var e := entries[key := Entry(value, Some(t0 + ttl))];
      Visible(e, t, key) == if t < t0 + ttl then Some(value) else None
  {
  }
}
