/**
 * The in-memory TTL cache (`simple_cache.py`): a map from key to a value and the
 * moment it expires. The process-wide dictionary becomes an explicit `Store` that
 * each operation takes and returns, and the wall clock becomes the `now` argument.
 */
module Cache {
  import opened Options
  import opened Text

  datatype Entry<V> = Entry(value: V, expiresAt: int)

  type Store<V> = map<string, Entry<V>>

  /** What a lookup answers, together with the store it leaves behind. */
  datatype Lookup<V> = Lookup(result: Option<V>, store: Store<V>)

  /** `save_to_cache`: the key now holds the value until `now + ttl`; every other key is kept. */
  function Save<V>(store: Store<V>, key: string, value: V, ttl: int, now: int): (r: Store<V>)
    ensures key in r && r[key] == Entry(value, now + ttl)
    ensures r.Keys == store.Keys + {key}
    ensures forall k :: k in store && k != key ==> r[k] == store[k]
  {
    store[key := Entry(value, now + ttl)]
  }

  /** `get_from_cache`: a live entry is a hit; an expired one is deleted and is a miss. */
  function Get<V>(store: Store<V>, key: string, now: int): (r: Lookup<V>)
    ensures r.result.Some? <==> key in store && now < store[key].expiresAt
    ensures r.result.Some? ==> r.result.value == store[key].value
    ensures r.store.Keys == if key in store && now >= store[key].expiresAt then store.Keys - {key} else store.Keys
    ensures forall k :: k in r.store ==> r.store[k] == store[k]
  {
    if key in store then
      if now < store[key].expiresAt then Lookup(Some(store[key].value), store)
      else Lookup(None, store - {key})
    else Lookup(None, store)
  }

  // ---------------------------------------------------------------------------
  // Keys
  // ---------------------------------------------------------------------------

  /** `make_cache_key(*args)` over the already stringified arguments: spaces become
      underscores and the parts are joined with underscores. */
  function MakeKey(args: seq<string>): (key: string)
    ensures ' ' !in key
  {
    var parts := SpacesReplaced(args);
    JoinNoSpace(parts);
    Join("_", parts)
  }

  /** Each argument with its spaces turned into underscores. */
  function SpacesReplaced(args: seq<string>): (parts: seq<string>)
    ensures |parts| == |args|
    ensures forall i :: 0 <= i < |args| ==> parts[i] == ReplaceChar(args[i], ' ', '_')
    ensures forall i :: 0 <= i < |args| ==> ' ' !in parts[i]
  {
    seq(|args|, i requires 0 <= i < |args| => ReplaceChar(args[i], ' ', '_'))
  }

  lemma {:induction false} JoinNoSpace(parts: seq<string>)
    requires forall i :: 0 <= i < |parts| ==> ' ' !in parts[i]
    ensures ' ' !in Join("_", parts)
    decreases |parts|
  {
    if |parts| > 1 {
      JoinNoSpace(parts[1..]);
    }
  }

  /** The key forgets where one argument ends and the next begins. */
  lemma MakeKeyNotInjective()
    ensures ["a_b", "c"] != ["a", "b_c"]
    ensures MakeKey(["a_b", "c"]) == MakeKey(["a", "b_c"])
  {
    assert ["a_b", "c"][0] != ["a", "b_c"][0];
    MakeKeyOfSpaceFree(["a_b", "c"]);
    MakeKeyOfSpaceFree(["a", "b_c"]);
    assert ["a_b", "c"][1..] == ["c"];
    assert ["a", "b_c"][1..] == ["b_c"];
  }

  lemma MakeKeyOfSpaceFree(args: seq<string>)
    requires forall i :: 0 <= i < |args| ==> ' ' !in args[i]
    ensures MakeKey(args) == Join("_", args)
  {
    var parts := seq(|args|, i requires 0 <= i < |args| => ReplaceChar(args[i], ' ', '_'));
    forall i | 0 <= i < |args|
      ensures parts[i] == args[i]
    {
      SpaceFreeUnchanged(args[i]);
    }
    assert parts == args;
  }

  /** A space and an underscore in an argument give the same key. */
  lemma MakeKeyMergesSpace()
    ensures MakeKey(["top winners"]) == MakeKey(["top_winners"])
  {
    assert MakeKey(["top winners"]) == "top_winners";
    assert MakeKey(["top_winners"]) == "top_winners";
  }

  /** A word without separators: no space and no underscore. */
  predicate Plain(s: string) {
    ' ' !in s && '_' !in s
  }

  /** When no argument holds a space or an underscore, the key determines the arguments. */
  lemma MakeKeyInjective(a: seq<string>, b: seq<string>)
    requires |a| > 0 && |b| > 0
    requires forall i :: 0 <= i < |a| ==> Plain(a[i])
    requires forall i :: 0 <= i < |b| ==> Plain(b[i])
    requires MakeKey(a) == MakeKey(b)
    ensures a == b
  {
    MakeKeyOfSpaceFree(a);
    MakeKeyOfSpaceFree(b);
    JoinInjective(a, b);
  }

  lemma SpaceFreeUnchanged(s: string)
    requires ' ' !in s
    ensures ReplaceChar(s, ' ', '_') == s
  {
  }

  lemma {:induction false} JoinInjective(a: seq<string>, b: seq<string>)
    requires |a| > 0 && |b| > 0
    requires forall i :: 0 <= i < |a| ==> '_' !in a[i]
    requires forall i :: 0 <= i < |b| ==> '_' !in b[i]
    requires Join("_", a) == Join("_", b)
    ensures a == b
    decreases |a|
  {
    if |a| == 1 && |b| == 1 {
      assert a == [a[0]] && b == [b[0]];
    } else if |a| == 1 {
      JoinHasSep(b);
    } else if |b| == 1 {
      JoinHasSep(a);
    } else {
      SameHead(a[0], b[0], Join("_", a[1..]), Join("_", b[1..]));
      JoinInjective(a[1..], b[1..]);
      assert a == [a[0]] + a[1..] && b == [b[0]] + b[1..];
    }
  }

  lemma JoinHasSep(parts: seq<string>)
    requires |parts| > 1
    ensures '_' in Join("_", parts)
  {
    assert Join("_", parts)[|parts[0]|] == '_';
  }

  /** The text before the first underscore. */
  function UntilSep(s: string): string {
    if |s| == 0 || s[0] == '_' then "" else [s[0]] + UntilSep(s[1..])
  }

  lemma {:induction false} UntilSepOf(x: string, s: string)
    requires '_' !in x
    ensures UntilSep(x + "_" + s) == x
    decreases |x|
  {
    if |x| > 0 {
      assert (x + "_" + s)[1..] == x[1..] + "_" + s;
      UntilSepOf(x[1..], s);
    }
  }

  /** `x + "_" + s == y + "_" + t` with no underscore in `x` or `y` splits the same way. */
  lemma SameHead(x: string, y: string, s: string, t: string)
    requires '_' !in x && '_' !in y
    requires x + "_" + s == y + "_" + t
    ensures x == y && s == t
  {
    var k := x + "_" + s;
    UntilSepOf(x, s);
    UntilSepOf(y, t);
    assert s == k[|x| + 1..] == t;
  }

  /** A space-free first argument is followed by an underscore and the key of the rest. */
  lemma MakeKeyCons(name: string, args: seq<string>)
    requires ' ' !in name && |args| > 0
    ensures MakeKey([name] + args) == name + "_" + MakeKey(args)
  {
    var rest := SpacesReplaced(args);
    SpaceFreeUnchanged(name);
    assert SpacesReplaced([name] + args) == [name] + rest;
    JoinCons("_", name, rest);
  }

  lemma MakeKeyOne(name: string)
    requires ' ' !in name
    ensures MakeKey([name]) == name
  {
    SpaceFreeUnchanged(name);
  }

  // ---------------------------------------------------------------------------
  // Counting separators
  // ---------------------------------------------------------------------------

  function Underscores(s: string): nat {
    multiset(s)['_']
  }

  /** The characters of an argument that become underscores in a key. */
  function Seps(s: string): nat {
    multiset(s)['_'] + multiset(s)[' ']
  }

  function SepTotal(parts: seq<string>): nat {
    if |parts| == 0 then 0 else Seps(parts[0]) + SepTotal(parts[1..])
  }

  lemma {:induction false} SepTotalZero(parts: seq<string>)
    ensures SepTotal(parts) == 0 <==> forall i :: 0 <= i < |parts| ==> Plain(parts[i])
    decreases |parts|
  {
    if |parts| > 0 {
      SepTotalZero(parts[1..]);
      assert Plain(parts[0]) <==> Seps(parts[0]) == 0;
      assert forall i :: 1 <= i < |parts| ==> parts[i] == parts[1..][i - 1];
    }
  }

  lemma {:induction false} ReplacedUnderscores(s: string)
    ensures Underscores(ReplaceChar(s, ' ', '_')) == Seps(s)
    decreases |s|
  {
    if |s| > 0 {
      ReplacedUnderscores(s[1..]);
      var r := ReplaceChar(s, ' ', '_');
      assert r[1..] == ReplaceChar(s[1..], ' ', '_');
      HeadCounts(r, s);
    }
  }

  lemma HeadCounts(r: string, s: string)
    requires |r| == |s| > 0 && r[0] == (if s[0] == ' ' then '_' else s[0])
    requires multiset(r[1..])['_'] == multiset(s[1..])['_'] + multiset(s[1..])[' ']
    ensures multiset(r)['_'] == multiset(s)['_'] + multiset(s)[' ']
  {
    assert r == [r[0]] + r[1..] && s == [s[0]] + s[1..];
    assert multiset(r) == multiset{r[0]} + multiset(r[1..]);
    assert multiset(s) == multiset{s[0]} + multiset(s[1..]);
  }

  /** A key holds one underscore between each two arguments and one for each space or
      underscore inside an argument. */
  lemma {:induction false} MakeKeyUnderscores(args: seq<string>)
    requires |args| > 0
    ensures Underscores(MakeKey(args)) == |args| - 1 + SepTotal(args)
    decreases |args|
  {
    var parts := SpacesReplaced(args);
    ReplacedUnderscores(args[0]);
    if |args| > 1 {
      MakeKeyUnderscores(args[1..]);
      assert SpacesReplaced(args[1..]) == parts[1..];
      assert MakeKey(args) == parts[0] + "_" + MakeKey(args[1..]);
    }
  }

  // ---------------------------------------------------------------------------
  // Whole-store operations
  // ---------------------------------------------------------------------------

  ghost function LiveIn<V>(keys: set<string>, store: Store<V>, now: int): set<string>
  {
    set k | k in keys && k in store && now < store[k].expiresAt
  }

  ghost function ExpiredIn<V>(keys: set<string>, store: Store<V>, now: int): set<string>
  {
    set k | k in keys && k in store && now >= store[k].expiresAt
  }

  /** The entries a lookup at `now` would still return. */
  ghost function LiveKeys<V>(store: Store<V>, now: int): set<string> {
    LiveIn(store.Keys, store, now)
  }

  ghost function ExpiredKeys<V>(store: Store<V>, now: int): set<string> {
    ExpiredIn(store.Keys, store, now)
  }

  lemma LiveExpiredPartition<V>(store: Store<V>, now: int)
    ensures LiveKeys(store, now) !! ExpiredKeys(store, now)
    ensures LiveKeys(store, now) + ExpiredKeys(store, now) == store.Keys
    ensures |LiveKeys(store, now)| + |ExpiredKeys(store, now)| == |store|
  {
    assert LiveKeys(store, now) + ExpiredKeys(store, now) == store.Keys;
  }

  /** `clear_cache`: the number of entries there were, and an empty store. */
  function Clear<V>(store: Store<V>): (r: (nat, Store<V>))
    ensures r.0 == |store|
    ensures forall k, now :: Get(r.1, k, now).result.None?
  {
    (|store|, map[])
  }

  datatype CacheStats = CacheStats(total: nat, active: nat, expired: int)

  /** `get_cache_stats`: one pass over the entries counting those still live. */
  method Stats<V>(store: Store<V>, now: int) returns (s: CacheStats)
    ensures s.total == |store|
    ensures s.active == |LiveKeys(store, now)|
    ensures s.expired == |ExpiredKeys(store, now)|
    ensures s.active + s.expired == s.total
  {
    var active := 0;
    var todo := store.Keys;
    ghost var seen: set<string> := {};
    while todo != {}
      invariant todo !! seen && todo + seen == store.Keys
      invariant active == |LiveIn(seen, store, now)|
      decreases |todo|
    {
      var k :| k in todo;
      if now < store[k].expiresAt {
        assert LiveIn(seen + {k}, store, now) == LiveIn(seen, store, now) + {k};
        active := active + 1;
      } else {
        assert LiveIn(seen + {k}, store, now) == LiveIn(seen, store, now);
      }
      todo := todo - {k};
      seen := seen + {k};
    }
    LiveExpiredPartition(store, now);
    s := CacheStats(|store|, active, |store| - active);
  }

  /** The store with its expired entries dropped. */
  ghost function Unexpired<V>(store: Store<V>, now: int): Store<V> {
    map k | k in store && now < store[k].expiresAt :: store[k]
  }

  /** The first loop of `cleanup_expired`: the keys whose entries have expired. */
  method CollectExpired<V>(store: Store<V>, now: int) returns (expired: set<string>)
    ensures expired == ExpiredKeys(store, now)
  {
    expired := {};
    var todo := store.Keys;
    while todo != {}
      invariant todo <= store.Keys
      invariant expired == ExpiredIn(store.Keys - todo, store, now)
      decreases |todo|
    {
      var k :| k in todo;
      if now >= store[k].expiresAt {
        expired := expired + {k};
      }
      todo := todo - {k};
    }
  }

  /** The second loop of `cleanup_expired`: `del` every collected key. */
  method DeleteAll<V>(store: Store<V>, keys: set<string>) returns (r: Store<V>)
    ensures r.Keys == store.Keys - keys
    ensures forall k :: k in r ==> r[k] == store[k]
  {
    r := store;
    var rest := keys;
    while rest != {}
      invariant rest <= keys
      invariant r.Keys == store.Keys - (keys - rest)
      invariant forall k :: k in r ==> r[k] == store[k]
      decreases |rest|
    {
      var k :| k in rest;
      r := r - {k};
      rest := rest - {k};
    }
  }

  /** `cleanup_expired`: collect the expired keys, delete them, report how many. */
  method Cleanup<V>(store: Store<V>, now: int) returns (removed: nat, r: Store<V>)
    ensures r == Unexpired(store, now)
    ensures removed == |ExpiredKeys(store, now)|
    ensures removed + |r| == |store|
  {
    var expired := CollectExpired(store, now);
    r := DeleteAll(store, expired);
    removed := |expired|;
    LiveExpiredPartition(store, now);
    assert r.Keys == LiveKeys(store, now);
  }

  /** After a cleanup nothing in the store is expired and every live entry is still there. */
  lemma CleanupLeavesLive<V>(store: Store<V>, now: int)
    ensures ExpiredKeys(Unexpired(store, now), now) == {}
    ensures LiveKeys(Unexpired(store, now), now) == LiveKeys(store, now)
    ensures forall k :: Get(Unexpired(store, now), k, now) == Lookup(Get(store, k, now).result, Unexpired(store, now))
  {
  }

  // ---------------------------------------------------------------------------
  // Properties of save and lookup
  // ---------------------------------------------------------------------------

  /** A saved value is returned by any lookup before its expiry. */
  lemma SaveThenGet<V>(store: Store<V>, key: string, value: V, ttl: int, saved: int, now: int)
    requires now < saved + ttl
    ensures Get(Save(store, key, value, ttl, saved), key, now).result == Some(value)
  {
  }

  /** From its expiry on, the saved value is gone and the key is deleted. */
  lemma SaveThenExpire<V>(store: Store<V>, key: string, value: V, ttl: int, saved: int, now: int)
    requires now >= saved + ttl
    ensures Get(Save(store, key, value, ttl, saved), key, now).result.None?
    ensures key !in Get(Save(store, key, value, ttl, saved), key, now).store
  {
  }

  /** A second save of the same key replaces the first entirely. */
  lemma SaveOverwrites<V>(store: Store<V>, key: string, v1: V, v2: V, ttl1: int, ttl2: int, t1: int, t2: int)
    ensures Save(Save(store, key, v1, ttl1, t1), key, v2, ttl2, t2) == Save(store, key, v2, ttl2, t2)
  {
  }

  /** Saving one key does not change what another key looks up to. */
  lemma SaveKeepsOthers<V>(store: Store<V>, key: string, value: V, ttl: int, saved: int, other: string, now: int)
    requires other != key
    ensures Get(Save(store, key, value, ttl, saved), other, now).result == Get(store, other, now).result
  {
  }

  /** A lookup of an expired key deletes that key and nothing else. */
  lemma ExpiredGetDeletesOnlyKey<V>(store: Store<V>, key: string, now: int)
    requires key in store && now >= store[key].expiresAt
    ensures Get(store, key, now).store == store - {key}
    ensures forall k :: k != key ==> Get(Get(store, key, now).store, k, now).result == Get(store, k, now).result
  {
  }

  /** A lookup never changes what any lookup at the same moment answers. */
  lemma GetIsStable<V>(store: Store<V>, key: string, other: string, now: int)
    ensures Get(Get(store, key, now).store, other, now).result == Get(store, other, now).result
  {
  }
}
