/**
 * The stateful parts of src/security/securityConfig.js: the sliding-window
 * `RateLimiter` and the pass of `initSecurity` that removes suspicious
 * entries from the browser's local key-value storage. The clock
 * (`Date.now()`) is the parameter `now`, in milliseconds.
 */
module SecurityConfig {

  /** Requests allowed per window by a limiter built without arguments. */
  const DEFAULT_MAX_REQUESTS: int := 30

  /** Window length, in milliseconds, of a limiter built without arguments. */
  const DEFAULT_TIME_WINDOW: int := 60000

  predicate Sorted(s: seq<int>)
  {
    forall i, j :: 0 <= i < j < |s| ==> s[i] <= s[j]
  }

  /** `a` is `b` with some elements left out, the rest in their original order. */
  ghost predicate IsSubsequence(a: seq<int>, b: seq<int>)
    decreases |b|
  {
    a == [] ||
    (b != [] &&
      ((a[0] == b[0] && IsSubsequence(a[1..], b[1..])) || IsSubsequence(a, b[1..])))
  }

  lemma {:induction false} SubsequenceMembers(a: seq<int>, b: seq<int>)
    requires IsSubsequence(a, b)
    ensures forall x :: x in a ==> x in b
    decreases |b|
  {
    if a != [] {
      if a[0] == b[0] && IsSubsequence(a[1..], b[1..]) {
        SubsequenceMembers(a[1..], b[1..]);
        assert a == [a[0]] + a[1..];
      } else {
        SubsequenceMembers(a, b[1..]);
      }
    }
  }

  /** Leaving elements out of a sorted sequence keeps it sorted. */
  lemma {:induction false} SubsequenceOfSorted(a: seq<int>, b: seq<int>)
    requires IsSubsequence(a, b) && Sorted(b)
    ensures Sorted(a)
    decreases |b|
  {
    if a != [] {
      assert Sorted(b[1..]);
      if a[0] == b[0] && IsSubsequence(a[1..], b[1..]) {
        SubsequenceOfSorted(a[1..], b[1..]);
        SubsequenceMembers(a[1..], b[1..]);
        forall i, j | 0 <= i < j < |a| ensures a[i] <= a[j] {
          assert a[j] == a[1..][j - 1];
          assert a[j] in b[1..];
          if i > 0 {
            assert a[i] == a[1..][i - 1];
          }
        }
      } else {
        SubsequenceOfSorted(a, b[1..]);
      }
    }
  }

  /**
   * The filter step of `canMakeRequest`: keep the request times that lie
   * less than `timeWindow` before `now`.
   */
  function Prune(times: seq<int>, now: int, timeWindow: int): (kept: seq<int>)
    ensures |kept| <= |times|
    ensures forall t :: t in kept ==> now - t < timeWindow
    ensures forall t :: multiset(kept)[t] == if now - t < timeWindow then multiset(times)[t] else 0
  {
    if times == [] then []
    else
      assert times == [times[0]] + times[1..];
      var rest := Prune(times[1..], now, timeWindow);
      if now - times[0] < timeWindow then [times[0]] + rest else rest
  }

  lemma PruneMembers(times: seq<int>, now: int, timeWindow: int)
    ensures forall t :: t in Prune(times, now, timeWindow) ==> t in times
  {
  }

  /** Pruning only drops entries: the kept ones stay in their original order. */
  lemma {:induction false} PruneKeepsOrder(times: seq<int>, now: int, timeWindow: int)
    ensures IsSubsequence(Prune(times, now, timeWindow), times)
  {
    if times != [] {
      PruneKeepsOrder(times[1..], now, timeWindow);
      var kept := Prune(times, now, timeWindow);
      if now - times[0] < timeWindow {
        assert kept[0] == times[0] && kept[1..] == Prune(times[1..], now, timeWindow);
      }
    }
  }

  /** Pruning a sorted list and appending a time no earlier than its entries keeps it sorted. */
  lemma PruneAppendSorted(times: seq<int>, now: int, timeWindow: int)
    requires Sorted(times)
    requires forall t :: t in times ==> t <= now
    ensures Sorted(Prune(times, now, timeWindow) + [now])
  {
    var kept := Prune(times, now, timeWindow);
    PruneKeepsOrder(times, now, timeWindow);
    SubsequenceOfSorted(kept, times);
    SubsequenceMembers(kept, times);
    var extended := kept + [now];
    forall i, j | 0 <= i < j < |extended| ensures extended[i] <= extended[j] {
      assert extended[i] == kept[i] && kept[i] in times;
      if j < |kept| {
        assert extended[j] == kept[j];
      }
    }
  }

  /** The client-side sliding-window limiter. */
  class RateLimiter {
    const maxRequests: int
    const timeWindow: int
    var requestTimes: seq<int>

    /** The recorded times never outnumber the allowance. */
    ghost predicate Valid()
      reads this
      ensures Valid() ==> |requestTimes| <= if maxRequests < 0 then 0 else maxRequests
    {
      requestTimes == [] || |requestTimes| <= maxRequests
    }

    constructor (maxRequests: int, timeWindow: int)
      ensures Valid()
      ensures this.maxRequests == maxRequests && this.timeWindow == timeWindow
      ensures requestTimes == []
    {
      this.maxRequests := maxRequests;
      this.timeWindow := timeWindow;
      requestTimes := [];
    }

    /** `new RateLimiter()`: the default arguments. */
    constructor Default()
      ensures Valid()
      ensures maxRequests == DEFAULT_MAX_REQUESTS && timeWindow == DEFAULT_TIME_WINDOW
      ensures requestTimes == []
    {
      maxRequests := DEFAULT_MAX_REQUESTS;
      timeWindow := DEFAULT_TIME_WINDOW;
      requestTimes := [];
    }

    /**
     * Drop the times that left the window, then admit the request exactly when
     * fewer than `maxRequests` remain, recording `now` when it is admitted.
     */
    method CanMakeRequest(now: int) returns (allowed: bool)
      requires Valid()
      modifies this
      ensures Valid()
      ensures allowed <==> |Prune(old(requestTimes), now, timeWindow)| < maxRequests
      ensures requestTimes ==
        if allowed then Prune(old(requestTimes), now, timeWindow) + [now]
        else Prune(old(requestTimes), now, timeWindow)
      ensures Sorted(old(requestTimes)) && (forall t :: t in old(requestTimes) ==> t <= now) ==>
        Sorted(requestTimes)
    {
      if Sorted(requestTimes) && (forall t :: t in requestTimes ==> t <= now) {
        PruneAppendSorted(requestTimes, now, timeWindow);
        SortedDropLast(Prune(requestTimes, now, timeWindow), now);
      }
      requestTimes := Prune(requestTimes, now, timeWindow);
      if |requestTimes| < maxRequests {
        requestTimes := requestTimes + [now];
        return true;
      }
      return false;
    }
  }

  /** Dropping the last element of a sorted sequence keeps it sorted. */
  lemma SortedDropLast(s: seq<int>, x: int)
    requires Sorted(s + [x])
    ensures Sorted(s)
  {
    assert forall i :: 0 <= i < |s| ==> s[i] == (s + [x])[i];
  }

  /**
   * Two requests within one window are admitted, a third in the same window is
   * refused, and a request made a full window after the first is admitted.
   */
  method WindowScenario(start: int, d1: int, d2: int, d3: int)
    returns (first: bool, second: bool, third: bool, fourth: bool)
    requires 0 <= d1 <= d2 < 1000 <= d3
    ensures first && second && !third && fourth
  {
    var limiter := new RateLimiter(2, 1000);
    assert Prune([], start, 1000) == [];
    first := limiter.CanMakeRequest(start);
    assert limiter.requestTimes == [start];
    assert Prune([start], start + d1, 1000) == [start];
    second := limiter.CanMakeRequest(start + d1);
    assert limiter.requestTimes == [start, start + d1];
    assert Prune([start, start + d1], start + d2, 1000) == [start, start + d1] by {
      assert [start, start + d1][1..] == [start + d1];
    }
    third := limiter.CanMakeRequest(start + d2);
    assert limiter.requestTimes == [start, start + d1];
    assert |Prune([start, start + d1], start + d3, 1000)| <= 1 by {
      assert [start, start + d1][1..] == [start + d1];
      assert Prune([start, start + d1], start + d3, 1000) == Prune([start + d1], start + d3, 1000);
    }
    fourth := limiter.CanMakeRequest(start + d3);
  }

  /**
   * Calls with non-decreasing clock readings, as `Date.now()` gives them, keep
   * the default limiter's recorded times sorted and within its allowance.
   */
  method MonotoneCallsStaySorted(times: seq<int>) returns (recorded: seq<int>)
    requires Sorted(times)
    ensures Sorted(recorded)
    ensures |recorded| <= DEFAULT_MAX_REQUESTS
    ensures forall t :: t in recorded ==> t in times
  {
    var limiter := new RateLimiter.Default();
    for i := 0 to |times|
      invariant limiter.Valid()
      invariant limiter.maxRequests == DEFAULT_MAX_REQUESTS
      invariant Sorted(limiter.requestTimes)
      invariant forall t :: t in limiter.requestTimes ==> t in times[..i]
    {
      var before := limiter.requestTimes;
      assert forall t :: t in before ==> t <= times[i] by {
        forall t | t in before ensures t <= times[i] {
          var k :| 0 <= k < i && times[k] == t;
        }
      }
      PruneMembers(before, times[i], limiter.timeWindow);
      var _ := limiter.CanMakeRequest(times[i]);
      assert times[..i + 1] == times[..i] + [times[i]];
    }
    recorded := limiter.requestTimes;
    assert times[..|times|] == times;
  }

  /** `pattern` occurs in `s` starting at position `i`. */
  ghost predicate OccursAt(s: string, pattern: string, i: int)
  {
    0 <= i && i + |pattern| <= |s| && s[i..i + |pattern|] == pattern
  }

  /** JavaScript's `s.includes(pattern)`. */
  function Contains(s: string, pattern: string): (b: bool)
    ensures |pattern| == 0 ==> b
    ensures b ==> |pattern| <= |s|
    decreases |s|
  {
    (|pattern| <= |s| && s[..|pattern|] == pattern) || (|s| > 0 && Contains(s[1..], pattern))
  }

  lemma {:induction false} ContainsImpliesOccurs(s: string, pattern: string)
    requires Contains(s, pattern)
    ensures exists i :: OccursAt(s, pattern, i)
    decreases |s|
  {
    if |pattern| <= |s| && s[..|pattern|] == pattern {
      assert OccursAt(s, pattern, 0);
    } else {
      ContainsImpliesOccurs(s[1..], pattern);
      var i :| OccursAt(s[1..], pattern, i);
      assert s[i + 1..i + 1 + |pattern|] == s[1..][i..i + |pattern|];
      assert OccursAt(s, pattern, i + 1);
    }
  }

  lemma {:induction false} OccursImpliesContains(s: string, pattern: string, i: int)
    requires OccursAt(s, pattern, i)
    ensures Contains(s, pattern)
    decreases i
  {
    if i > 0 {
      assert s[1..][i - 1..i - 1 + |pattern|] == s[i..i + |pattern|];
      OccursImpliesContains(s[1..], pattern, i - 1);
    }
  }

  /** `Contains` finds exactly the patterns that occur somewhere in `s`. */
  lemma ContainsIffOccurs(s: string, pattern: string)
    ensures Contains(s, pattern) <==> exists i :: OccursAt(s, pattern, i)
  {
    if Contains(s, pattern) {
      ContainsImpliesOccurs(s, pattern);
    }
    if exists i :: OccursAt(s, pattern, i) {
      var i :| OccursAt(s, pattern, i);
      OccursImpliesContains(s, pattern, i);
    }
  }

  /** The markup fragments the sanitising pass looks for. */
  const SUSPICIOUS_MARKERS: seq<string> := ["<script", "javascript:", "onerror=", "onload="]

  /** Some marker is found by `Contains` exactly when some marker occurs in `value`. */
  lemma {:induction false} MarkerFoundIffOccurs(value: string)
    ensures (|value| > 0 && exists m | m in SUSPICIOUS_MARKERS :: Contains(value, m)) <==>
      exists m, i :: m in SUSPICIOUS_MARKERS && OccursAt(value, m, i)
  {
    forall m | m in SUSPICIOUS_MARKERS {
      ContainsIffOccurs(value, m);
    }
    if exists m, i :: m in SUSPICIOUS_MARKERS && OccursAt(value, m, i) {
      var m, i :| m in SUSPICIOUS_MARKERS && OccursAt(value, m, i);
      assert |m| > 0;
    }
  }

  /**
   * The test applied to each stored value (the truthiness check and the four
   * `includes` calls): a value is flagged exactly when one of the markers
   * occurs in it.
   */
  predicate IsSuspicious(value: string): (b: bool)
    ensures b <==> exists m, i :: m in SUSPICIOUS_MARKERS && OccursAt(value, m, i)
  {
    MarkerFoundIffOccurs(value);
    |value| > 0 && exists m | m in SUSPICIOUS_MARKERS :: Contains(value, m)
  }

  /** The browser's `localStorage`, as a map from keys to stored strings. */
  class LocalStorage {
    var items: map<string, string>

    constructor (items: map<string, string>)
      ensures this.items == items
    {
      this.items := items;
    }

    method RemoveItem(key: string)
      modifies this
      ensures items == old(items) - {key}
    {
      items := items - {key};
    }
  }

  /**
   * The sanitising pass of `initSecurity`: visit every key present at the start
   * and remove it when its value is suspicious.
   */
  method SanitizeStorage(storage: LocalStorage)
    modifies storage
    ensures storage.items.Keys ==
      set k | k in old(storage.items) && !IsSuspicious(old(storage.items)[k])
    ensures forall k :: k in storage.items ==> storage.items[k] == old(storage.items)[k]
  {
    var keys := storage.items.Keys;
    while keys != {}
      invariant keys <= old(storage.items).Keys
      invariant storage.items.Keys ==
        keys + set k | k in old(storage.items) && k !in keys && !IsSuspicious(old(storage.items)[k])
      invariant forall k :: k in storage.items ==> storage.items[k] == old(storage.items)[k]
      decreases keys
    {
      var key :| key in keys;
      var value := storage.items[key];
      if IsSuspicious(value) {
        storage.RemoveItem(key);
      }
      keys := keys - {key};
    }
  }
}
