/**
 How many frames a mapping call takes: one for every table on the way to its
 pages that does not exist yet, and one for every data page.
 */
module FrameCount {
  import opened PageTable

  /** The tables on the way to page number v, below the root and down to depth d. */
  function TableKeys(v: int, d: nat): set<int> {
    if d == 0 then {} else TableKeys(v, d - 1) + {PathKey(v, d)}
  }

  /** The tables on the way to n pages from page number start on. */
  function KeysOf(start: int, n: nat): set<int> {
    if n == 0 then {} else KeysOf(start, n - 1) + TableKeys((start + n - 1) % VPNS, 2)
  }

  /** From a to b, exactly the tables keys were added, as far as they were missing, and data frames were taken. */
  ghost predicate Charged(a: State, b: State, keys: set<int>, data: nat) {
    b.tables.Keys == a.tables.Keys + keys && |a.free| == |b.free| + |keys - a.tables.Keys| + data
  }

  /** There are not enough free frames for the tables keys and data frames. */
  ghost predicate Short(a: State, keys: set<int>, data: nat) {
    |keys - a.tables.Keys| + data > |a.free|
  }

  lemma NextTableKey(v: int, d: nat)
    requires d > 0
    ensures TableKeys(v, d - 1) + {PathKey(v, d)} == TableKeys(v, d)
  {
  }

  lemma {:induction false} FewerTableKeys(v: int, d: nat, d2: nat)
    requires d <= d2
    ensures TableKeys(v, d) <= TableKeys(v, d2)
    decreases d2
  {
    hide PathKey;
    if d < d2 {
      FewerTableKeys(v, d, d2 - 1);
    }
  }

  /** Without room for a table on the way there is none for the whole way. */
  lemma ShortOnTheWay(a: State, v: int, d: nat)
    requires d <= 2 && Short(a, TableKeys(v, d), 0)
    ensures Short(a, TableKeys(v, 2), 0)
  {
    hide TableKeys, PathKey, Short;
    FewerTableKeys(v, d, 2);
    ShortForMore(a, TableKeys(v, d), TableKeys(v, 2), 0, 0);
  }

  lemma ChargeNothing(a: State)
    ensures Charged(a, a, {}, 0)
  {
    assert {} - a.tables.Keys == {};
    assert a.tables.Keys + {} == a.tables.Keys;
  }

  lemma BothMissing(have: set<int>, first: set<int>, second: set<int>)
    ensures |(first + second) - have| == |first - have| + |second - (have + first)|
  {
    assert (first + second) - have == (first - have) + (second - (have + first));
    assert (first - have) !! (second - (have + first));
  }

  lemma ChargeBoth(a: State, b: State, c: State, first: set<int>, second: set<int>, d1: nat, d2: nat)
    requires Charged(a, b, first, d1) && Charged(b, c, second, d2)
    ensures Charged(a, c, first + second, d1 + d2)
  {
    BothMissing(a.tables.Keys, first, second);
  }

  lemma ShortAfter(a: State, b: State, first: set<int>, second: set<int>, d1: nat, d2: nat)
    requires Charged(a, b, first, d1) && Short(b, second, d2)
    ensures Short(a, first + second, d1 + d2)
  {
    BothMissing(a.tables.Keys, first, second);
  }

  lemma ChargedIsNotShort(a: State, b: State, keys: set<int>, data: nat)
    requires Charged(a, b, keys, data)
    ensures !Short(a, keys, data)
  {
  }

  lemma {:induction false} FewerElements(s: set<int>, t: set<int>)
    requires s <= t
    ensures |s| <= |t|
  {
    assert t == s + (t - s);
  }

  lemma ShortForMore(a: State, keys: set<int>, more: set<int>, data: nat, data2: nat)
    requires Short(a, keys, data) && keys <= more && data <= data2
    ensures Short(a, more, data2)
  {
    FewerElements(keys - a.tables.Keys, more - a.tables.Keys);
  }

  /** Having paid for some, being short of the next ones means being short of all. */
  lemma ShortInAll(a: State, b: State, paid: set<int>, next: set<int>, d1: nat, d2: nat, all: set<int>, data: nat)
    requires Charged(a, b, paid, d1) && Short(b, next, d2) && paid + next <= all && d1 + d2 <= data
    ensures Short(a, all, data)
  {
    hide Charged, Short;
    ShortAfter(a, b, paid, next, d1, d2);
    ShortForMore(a, paid + next, all, d1 + d2, data);
  }

  lemma {:induction false} FewerKeys(start: int, n: nat, n2: nat)
    requires n <= n2
    ensures KeysOf(start, n) <= KeysOf(start, n2)
    decreases n2
  {
    if n < n2 {
      FewerKeys(start, n, n2 - 1);
    }
  }

  lemma {:induction false} KeysJoin(start: int, n: nat, n2: nat)
    ensures KeysOf(start, n + n2) == KeysOf(start, n) + KeysOf(start + n, n2)
    decreases n2
  {
    if n2 > 0 {
      KeysJoin(start, n, n2 - 1);
    }
  }

  lemma NextKeys(start: int, n: nat)
    ensures KeysOf(start, n + 1) == KeysOf(start, n) + TableKeys((start + n) % VPNS, 2)
  {
  }

  /** A missing table takes a frame, one that is there nothing. */
  lemma ChargeTable(a: State, b: State, key: int, f: int)
    requires key !in a.tables && b.tables == a.tables[key := f] && f in a.free && b.free == a.free - {f}
    ensures Charged(a, b, {key}, 0)
  {
    OneLess(a.free, f);
    AllMissing({key}, a.tables.Keys);
  }

  lemma OneLess(s: set<int>, f: int)
    requires f in s
    ensures |s - {f}| == |s| - 1
  {
  }

  lemma AllMissing(keys: set<int>, have: set<int>)
    requires keys !! have
    ensures keys - have == keys
  {
  }

  lemma TableIsThere(a: State, key: int)
    requires key in a.tables
    ensures Charged(a, a, {key}, 0)
  {
    assert {key} - a.tables.Keys == {};
    assert a.tables.Keys + {key} == a.tables.Keys;
  }

  lemma ShortOfTable(a: State, key: int)
    requires key !in a.tables && a.free == {}
    ensures Short(a, {key}, 0)
  {
    assert {key} - a.tables.Keys == {key};
  }

  lemma ChargeFrame(a: State, b: State, f: int)
    requires b.tables == a.tables && f in a.free && b.free == a.free - {f}
    ensures Charged(a, b, {}, 1)
  {
    assert {} - a.tables.Keys == {};
  }

  lemma ChargeBesides(a: State, b: State, c: State, keys: set<int>, f: int)
    requires Charged(a, b, keys, 0) && c.tables == b.tables && f in b.free && c.free == b.free - {f}
    ensures Charged(a, c, keys, 1)
  {
    ChargeFrame(b, c, f);
    ChargeBoth(a, b, c, keys, {}, 0, 1);
    assert keys + {} == keys;
  }

  lemma ShortBesides(a: State, b: State, keys: set<int>)
    requires Charged(a, b, keys, 0) && b.free == {}
    ensures Short(a, keys, 1)
  {
    ShortOfFrame(b);
    ShortAfter(a, b, keys, {}, 0, 1);
    assert keys + {} == keys;
  }

  lemma ShortOfFrame(a: State)
    requires a.free == {}
    ensures Short(a, {}, 1)
  {
    assert {} - a.tables.Keys == {};
  }

  /** Contents of frames do not matter. */
  lemma ChargeKept(a: State, b: State, c: State, keys: set<int>, data: nat)
    requires Charged(a, b, keys, data) && c.free == b.free && c.tables == b.tables
    ensures Charged(a, c, keys, data)
  {
  }
}
