/**
 The part of Redis the limiters use: keys with an optional expiry in whole seconds, present while
 the time is before it. Counters and strings live under different key prefixes, so each has its own map.
 */
module Redis {
  import opened Basics

  datatype Entry<+V> = Entry(value: V, expiry: Option<nat>)

  datatype Key =
    | PinAttempts(user: nat)
    | PinLocked(user: nat)
    | ReceiptCode(phone: string)
    | ReceiptFailures(phone: string)
    | ReceiptLock(phone: string)
    | ReceiptCooldown(phone: string)
    | Hits(prefix: string, ip: string)

  predicate Present<V>(e: Option<Entry<V>>, now: nat) {
    e.Some? && (e.value.expiry.None? || now < e.value.expiry.value)
  }

  function Lookup<V>(m: map<Key, Entry<V>>, k: Key): Option<Entry<V>> {
    if k in m then Some(m[k]) else None
  }

  /** A counter after INCR: a missing or expired one starts at one, without expiry. */
  function Incremented(e: Option<Entry<nat>>, now: nat): Entry<nat> {
    if Present(e, now) then Entry(e.value.value + 1, e.value.expiry) else Entry(1, None)
  }

  /** INCR, and EXPIRE when the counter is new. */
  function Counted(e: Option<Entry<nat>>, now: nat, ttl: nat): Entry<nat> {
    var c := Incremented(e, now);
    if c.value == 1 then Entry(1, Some(now + ttl)) else c
  }

  class Redis {
    var counters: map<Key, Entry<nat>>
    var strings: map<Key, Entry<string>>

    constructor ()
      ensures counters == map[] && strings == map[]
    {
      counters, strings := map[], map[];
    }

    function Counter(k: Key): Option<Entry<nat>>
      reads this
    {
      Lookup(counters, k)
    }

    function Text(k: Key): Option<Entry<string>>
      reads this
    {
      Lookup(strings, k)
    }

    method Incr(k: Key, now: nat) returns (n: nat)
      modifies this`counters
      ensures counters == old(counters)[k := Incremented(old(Counter(k)), now)]
      ensures n == counters[k].value
    {
      var c := Incremented(Counter(k), now);
      counters := counters[k := c];
      n := c.value;
    }

    method Expire(k: Key, now: nat, ttl: nat)
      modifies this`counters
      ensures counters == if k in old(counters) then old(counters)[k := Entry(old(counters)[k].value, Some(now + ttl))]
                          else old(counters)
    {
      if k in counters {
        counters := counters[k := Entry(counters[k].value, Some(now + ttl))];
      }
    }

    method Set(k: Key, value: string, now: nat, ttl: nat)
      modifies this`strings
      ensures strings == old(strings)[k := Entry(value, Some(now + ttl))]
    {
      strings := strings[k := Entry(value, Some(now + ttl))];
    }

    method SetNX(k: Key, value: string, now: nat, ttl: nat) returns (acquired: bool)
      modifies this`strings
      ensures acquired == !Present(old(Text(k)), now)
      ensures strings == if acquired then old(strings)[k := Entry(value, Some(now + ttl))] else old(strings)
    {
      acquired := !Present(Text(k), now);
      if acquired {
        Set(k, value, now, ttl);
      }
    }

    method Del(k: Key)
      modifies this`counters, this`strings
      ensures counters == old(counters) - {k} && strings == old(strings) - {k}
    {
      counters, strings := counters - {k}, strings - {k};
    }
  }
}
