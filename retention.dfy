/** Data retention for the tracker's localStorage lists (script.js): per-key policies,
    `pruneArrayByRetention`, and the once-a-day records written by
    `saveHydrationToday` / `saveSupplementsToday` and read back by the `load...Today`
    functions. Times are milliseconds since the epoch; which local calendar day a
    time falls on is the parameter `dayOf`. */
module Retention {
  import opened Text

  datatype Policy = Policy(maxItems: nat, maxDays: nat)

  const PostsKeyPrefix := "femHealthPosts_"
  const HydrationKey := "femHealthHydration"
  const SupplementsKey := "femHealthSupplements"

  /** `getRetentionForKey(key)` */
  function PolicyFor(key: string): (r: Option<Policy>)
    ensures r.Some? ==> r.value.maxItems > 0 && r.value.maxDays > 0
  {
    if key == "femHealthTracking" || key == "femHealthMenopause" || key == HydrationKey
       || key == SupplementsKey then Some(Policy(1200, 730))
    else if key == "femHealthSymptomAnalyses" then Some(Policy(1500, 730))
    else if StartsWith(key, PostsKeyPrefix) then Some(Policy(500, 1825))
    else None
  }

  /** A user's posts are kept for five years, at most 500 of them. */
  lemma PostsKeysPolicy(user: string)
    ensures PolicyFor(PostsKeyPrefix + user) == Some(Policy(500, 1825))
  {
    var key := PostsKeyPrefix + user;
    assert key[..|PostsKeyPrefix|] == PostsKeyPrefix;
    assert key[9] == 'P';
  }

  /** An element of a stored list: something that is not an object, or an object
      whose `date` gives `time` (`None` when `new Date(date)` is invalid; a missing
      date reads as 0). */
  datatype Item<T> = Other | Object(time: Option<int>, content: T)

  /** `a` can be obtained from `b` by deleting elements. */
  predicate IsSubsequence<T(==,!new)>(a: seq<T>, b: seq<T>)
    decreases |b|
  {
    if a == [] then true
    else if b == [] then false
    else (a[0] == b[0] && IsSubsequence(a[1..], b[1..])) || IsSubsequence(a, b[1..])
  }

  lemma {:induction false} SubsequenceOfItself<T(!new)>(s: seq<T>)
    ensures IsSubsequence(s, s)
  {
    if s != [] {
      SubsequenceOfItself(s[1..]);
    }
  }

  lemma {:induction false} SubsequenceTransitive<T(!new)>(a: seq<T>, b: seq<T>, c: seq<T>)
    requires IsSubsequence(a, b) && IsSubsequence(b, c)
    ensures IsSubsequence(a, c)
    decreases |c|
  {
    if a != [] {
      if b[0] == c[0] && IsSubsequence(b[1..], c[1..]) {
        if a[0] == b[0] && IsSubsequence(a[1..], b[1..]) {
          SubsequenceTransitive(a[1..], b[1..], c[1..]);
        } else {
          SubsequenceTransitive(a, b[1..], c[1..]);
        }
      } else {
        SubsequenceTransitive(a, b, c[1..]);
      }
    }
  }

  lemma {:induction false} SuffixIsSubsequence<T(!new)>(s: seq<T>, k: nat)
    requires k <= |s|
    ensures IsSubsequence(s[k..], s)
  {
    if k == 0 {
      SubsequenceOfItself(s);
    } else {
      SuffixIsSubsequence(s[1..], k - 1);
      assert s[1..][k - 1..] == s[k..];
    }
  }

  /** `list.filter(p)` */
  function Filter<T(==,!new)>(s: seq<T>, p: T -> bool): (r: seq<T>)
    ensures |r| <= |s|
    ensures forall x :: x in r <==> x in s && p(x)
    ensures IsSubsequence(r, s)
  {
    if s == [] then []
    else if p(s[0]) then
      var rest := Filter(s[1..], p);
      assert ([s[0]] + rest)[1..] == rest;
      [s[0]] + rest
    else Filter(s[1..], p)
  }

  predicate IsObject<T>(item: Item<T>) {
    item.Object?
  }

  /** The age test: an object without a usable positive time is never dropped for age. */
  predicate WithinAge<T>(item: Item<T>, policy: Policy, now: int) {
    item.Object? && (item.time.None? || item.time.value <= 0 || now - item.time.value <= policy.maxDays * DayMs)
  }

  /** The objects of `list` that pass the age test, in their order. */
  function Aged<T(==,!new)>(list: seq<Item<T>>, policy: Policy, now: int): seq<Item<T>> {
    Filter(Filter(list, IsObject), item => WithinAge(item, policy, now))
  }

  /** `pruneArrayByRetention(key, list)` at time `now`: never longer than the list,
      and within the item cap of the key's policy. */
  function Prune<T(==,!new)>(key: string, list: seq<Item<T>>, now: int): (r: seq<Item<T>>)
    ensures |r| <= |list|
    ensures PolicyFor(key).Some? ==> |r| <= PolicyFor(key).value.maxItems
  {
    match PolicyFor(key)
    case None => list
    case Some(policy) =>
      var aged := Aged(list, policy, now);
      if |aged| > policy.maxItems then aged[|aged| - policy.maxItems..] else aged
  }

  /** Without a policy the list is kept as it is. With one, the result is a
      subsequence of the input holding only objects, at most `maxItems` of them: the
      last `maxItems` of those that pass the age test; an object whose time is
      unusable or not positive always passes it, and an object passes it exactly when
      it is not older than `maxDays`. */
  lemma PruneOutcome<T(!new)>(key: string, list: seq<Item<T>>, now: int)
    ensures var r := Prune(key, list, now);
            && (PolicyFor(key).None? ==> r == list)
            && IsSubsequence(r, list)
            && (PolicyFor(key).Some? ==>
                  var policy := PolicyFor(key).value;
                  var aged := Aged(list, policy, now);
                  && (forall k :: 0 <= k < |r| ==> r[k].Object?)
                  && |r| == Min(|aged|, policy.maxItems)
                  && r == aged[|aged| - |r|..]
                  && (forall x :: x in aged <==> x in list && WithinAge(x, policy, now))
                  && (forall x :: x in list && x.Object? && (x.time.None? || x.time.value <= 0) ==> x in aged))
  {
    var r := Prune(key, list, now);
    if PolicyFor(key).None? {
      SubsequenceOfItself(list);
    } else {
      var policy := PolicyFor(key).value;
      var objects := Filter(list, IsObject);
      var aged := Aged(list, policy, now);
      assert r == aged[|aged| - |r|..];
      SuffixIsSubsequence(aged, |aged| - |r|);
      SubsequenceTransitive(r, aged, objects);
      SubsequenceTransitive(r, objects, list);
      AgedMembers(list, policy, now);
      forall k | 0 <= k < |r| ensures r[k].Object? {
        assert r[k] in aged;
      }
    }
  }

  /** An item survives both filters exactly when it is in the list and passes the age test. */
  lemma AgedMembers<T(!new)>(list: seq<Item<T>>, policy: Policy, now: int)
    ensures forall x :: x in Aged(list, policy, now) <==> x in list && WithinAge(x, policy, now)
  {
    var objects := Filter(list, IsObject);
    var aged := Filter(objects, item => WithinAge(item, policy, now));
    forall x ensures x in aged <==> x in list && WithinAge(x, policy, now) {
      assert x in aged <==> x in objects && WithinAge(x, policy, now);
      assert x in objects <==> x in list && IsObject(x);
    }
  }

  // ---------------------------------------------------------------------------
  // One record per local day.

  /** `new Date(i.date)` falls on the day `todayKey()` names (a non-object has no date). */
  predicate OnDay<T>(item: Item<T>, today: int, dayOf: int -> int) {
    item.Object? && item.time.Some? && dayOf(item.time.value) == today
  }

  /** `list.findIndex(...)` for today's record. */
  function FindToday<T>(list: seq<Item<T>>, today: int, dayOf: int -> int): (r: Option<nat>)
    ensures r.Some? ==> r.value < |list| && OnDay(list[r.value], today, dayOf)
    ensures r.Some? ==> forall k :: 0 <= k < r.value ==> !OnDay(list[k], today, dayOf)
    ensures r.None? ==> forall k :: 0 <= k < |list| ==> !OnDay(list[k], today, dayOf)
  {
    if list == [] then None
    else if OnDay(list[0], today, dayOf) then Some(0)
    else match FindToday(list[1..], today, dayOf)
      case None => None
      case Some(i) => Some(i + 1)
  }

  /** Today's record replaces the first record of today, or is pushed at the end. */
  function Upsert<T>(list: seq<Item<T>>, record: Item<T>, today: int, dayOf: int -> int): (r: seq<Item<T>>)
    ensures |list| <= |r| <= |list| + 1
    ensures record in r
  {
    match FindToday(list, today, dayOf)
    case Some(i) => assert list[i := record][i] == record; list[i := record]
    case None => assert (list + [record])[|list|] == record; list + [record]
  }

  /** What `save...Today(value)` stores under `key` at time `now`. */
  function SaveToday<T(==,!new)>(key: string, list: seq<Item<T>>, value: T, now: int, dayOf: int -> int): (r: seq<Item<T>>)
    ensures |r| <= |list| + 1
    ensures PolicyFor(key).Some? ==> |r| <= PolicyFor(key).value.maxItems
  {
    Prune(key, Upsert(list, Object(Some(now), value), dayOf(now), dayOf), now)
  }

  /** What `load...Today()` returns: the content of the first record of today, or
      `none` (0 cups, no supplements). */
  function LoadToday<T>(list: seq<Item<T>>, today: int, dayOf: int -> int, none: T): (v: T)
    ensures (forall k :: 0 <= k < |list| ==> !OnDay(list[k], today, dayOf)) ==> v == none
    ensures (exists k :: 0 <= k < |list| && OnDay(list[k], today, dayOf)) ==>
              exists k :: 0 <= k < |list| && OnDay(list[k], today, dayOf) && list[k].content == v
                          && forall j :: 0 <= j < k ==> !OnDay(list[j], today, dayOf)
  {
    match FindToday(list, today, dayOf)
    case Some(i) => list[i].content
    case None => none
  }

  /** The upsert adds at most one element, makes the record the first of its day, and
      leaves every record of another day where it was. */
  lemma UpsertOutcome<T(!new)>(list: seq<Item<T>>, record: Item<T>, today: int, dayOf: int -> int)
    requires OnDay(record, today, dayOf)
    ensures var r := Upsert(list, record, today, dayOf);
            && |list| <= |r| <= |list| + 1
            && (|r| == |list| <==> FindToday(list, today, dayOf).Some?)
            && FindToday(r, today, dayOf).Some?
            && r[FindToday(r, today, dayOf).value] == record
            && (forall k :: 0 <= k < |list| && k != FindToday(r, today, dayOf).value ==> r[k] == list[k])
  {
    var r := Upsert(list, record, today, dayOf);
    match FindToday(list, today, dayOf)
    case Some(i) =>
      assert r[i] == record;
      assert FindToday(r, today, dayOf) == Some(i) by {
        assert forall k :: 0 <= k < i ==> r[k] == list[k];
      }
    case None =>
      assert r[|list|] == record;
      assert FindToday(r, today, dayOf) == Some(|list|) by {
        assert forall k :: 0 <= k < |list| ==> r[k] == list[k];
      }
  }

  /** Dropping a prefix that lies before today's first record keeps it first. */
  lemma FindTodayInSuffix<T(!new)>(list: seq<Item<T>>, m: nat, today: int, dayOf: int -> int)
    requires FindToday(list, today, dayOf).Some? && m <= FindToday(list, today, dayOf).value
    ensures FindToday(list[m..], today, dayOf) == Some(FindToday(list, today, dayOf).value - m)
  {
    var j := FindToday(list, today, dayOf).value;
    assert list[m..][j - m] == list[j];
  }

  /** Filtering keeps today's first record first, when it passes the filter. */
  lemma {:induction false} FindTodayInFilter<T(!new)>(list: seq<Item<T>>, p: Item<T> -> bool, today: int, dayOf: int -> int)
    requires FindToday(list, today, dayOf).Some? && p(list[FindToday(list, today, dayOf).value])
    ensures var f := Filter(list, p);
            FindToday(f, today, dayOf).Some? && f[FindToday(f, today, dayOf).value] == list[FindToday(list, today, dayOf).value]
  {
    var f := Filter(list, p);
    if OnDay(list[0], today, dayOf) {
      assert f == [list[0]] + Filter(list[1..], p);
      assert FindToday(f, today, dayOf) == Some(0);
    } else {
      var tail := list[1..];
      var j := FindToday(tail, today, dayOf).value;
      assert FindToday(list, today, dayOf) == Some(j + 1);
      FindTodayInFilter(tail, p, today, dayOf);
      var rest := Filter(tail, p);
      var i := FindToday(rest, today, dayOf).value;
      if p(list[0]) {
        assert f == [list[0]] + rest;
        assert f[1..] == rest;
        assert FindToday(f, today, dayOf) == Some(i + 1);
      } else {
        assert f == rest;
      }
    }
  }


  /** The first record of today in the pruned list, when no record of today is
      dropped in front of it. */
  lemma PruneKeepsTodayFirst<T(!new)>(policy: Policy, list: seq<Item<T>>, now: int, today: int, dayOf: int -> int)
    requires FindToday(list, today, dayOf).Some?
    requires WithinAge(list[FindToday(list, today, dayOf).value], policy, now)
    ensures var aged := Aged(list, policy, now);
            && FindToday(aged, today, dayOf).Some?
            && aged[FindToday(aged, today, dayOf).value] == list[FindToday(list, today, dayOf).value]
  {
    var objects := Filter(list, IsObject);
    FindTodayInFilter(list, IsObject, today, dayOf);
    FindTodayInFilter(objects, item => WithinAge(item, policy, now), today, dayOf);
  }

  /** Saving today's value and loading it the same day gives the value back, whenever
      the list held no record of today yet or does not exceed its item cap. */
  lemma SaveThenLoad<T(!new)>(key: string, list: seq<Item<T>>, value: T, now: int, dayOf: int -> int, none: T)
    requires PolicyFor(key).Some?
    requires FindToday(list, dayOf(now), dayOf).None? || |list| <= PolicyFor(key).value.maxItems
    ensures LoadToday(SaveToday(key, list, value, now, dayOf), dayOf(now), dayOf, none) == value
  {
    if FindToday(list, dayOf(now), dayOf).None? {
      SaveThenLoadPushed(key, list, value, now, dayOf, none);
    } else {
      SaveThenLoadReplaced(key, list, value, now, dayOf, none);
    }
  }

  lemma SaveThenLoadPushed<T(!new)>(key: string, list: seq<Item<T>>, value: T, now: int, dayOf: int -> int, none: T)
    requires PolicyFor(key).Some? && FindToday(list, dayOf(now), dayOf).None?
    ensures LoadToday(SaveToday(key, list, value, now, dayOf), dayOf(now), dayOf, none) == value
  {
    var today := dayOf(now);
    var policy := PolicyFor(key).value;
    var record: Item<T> := Object(Some(now), value);
    assert Upsert(list, record, today, dayOf) == list + [record];
    PushedStaysLast(list, record, policy, now, today, dayOf);
    var aged := Aged(list + [record], policy, now);
    OnlyLastIsFound(aged, today, dayOf);
    var saved := SaveToday(key, list, value, now, dayOf);
    if |aged| > policy.maxItems {
      var m := |aged| - policy.maxItems;
      assert saved == aged[m..];
      FindTodayInSuffix(aged, m, today, dayOf);
      assert saved[|aged| - 1 - m] == record;
    } else {
      assert saved == aged;
    }
  }

  /** Replacing today's record does not lengthen the list, so a list within its cap
      is not cut and the record stays the first of its day. */
  lemma SaveThenLoadReplaced<T(!new)>(key: string, list: seq<Item<T>>, value: T, now: int, dayOf: int -> int, none: T)
    requires PolicyFor(key).Some? && FindToday(list, dayOf(now), dayOf).Some?
    requires |list| <= PolicyFor(key).value.maxItems
    ensures LoadToday(SaveToday(key, list, value, now, dayOf), dayOf(now), dayOf, none) == value
  {
    var today := dayOf(now);
    var record: Item<T> := Object(Some(now), value);
    var up := Upsert(list, record, today, dayOf);
    UpsertReplaces(list, record, today, dayOf);
    PruneWithinCap(key, up, now);
    AgedLoadsRecord(PolicyFor(key).value, up, value, now, dayOf, none);
  }

  /** Replacing today's record keeps the length and makes it today's first record. */
  lemma UpsertReplaces<T(!new)>(list: seq<Item<T>>, record: Item<T>, today: int, dayOf: int -> int)
    requires OnDay(record, today, dayOf) && FindToday(list, today, dayOf).Some?
    ensures var up := Upsert(list, record, today, dayOf);
            |up| == |list| && FindToday(up, today, dayOf).Some? && up[FindToday(up, today, dayOf).value] == record
  {
    UpsertOutcome(list, record, today, dayOf);
  }

  /** When today's first record is the one just saved, it is what loads after the age filter. */
  lemma AgedLoadsRecord<T(!new)>(policy: Policy, list: seq<Item<T>>, value: T, now: int, dayOf: int -> int, none: T)
    requires FindToday(list, dayOf(now), dayOf).Some?
    requires list[FindToday(list, dayOf(now), dayOf).value] == Object(Some(now), value)
    ensures LoadToday(Aged(list, policy, now), dayOf(now), dayOf, none) == value
  {
    PruneKeepsTodayFirst(policy, list, now, dayOf(now), dayOf);
  }

  /** A list no longer than the item cap is only filtered, not cut. */
  lemma PruneWithinCap<T(!new)>(key: string, list: seq<Item<T>>, now: int)
    requires PolicyFor(key).Some? && |list| <= PolicyFor(key).value.maxItems
    ensures Prune(key, list, now) == Aged(list, PolicyFor(key).value, now)
  {
    var policy := PolicyFor(key).value;
    assert |Aged(list, policy, now)| <= |Filter(list, IsObject)| <= |list|;
  }

  /** Of `s`, only the last element is a record of today. */
  predicate OnlyLastToday<T>(s: seq<Item<T>>, today: int, dayOf: int -> int) {
    s != [] && OnDay(s[|s| - 1], today, dayOf) && forall k :: 0 <= k < |s| - 1 ==> !OnDay(s[k], today, dayOf)
  }

  lemma OnlyLastIsFound<T(!new)>(s: seq<Item<T>>, today: int, dayOf: int -> int)
    requires OnlyLastToday(s, today, dayOf)
    ensures FindToday(s, today, dayOf) == Some(|s| - 1)
  {
  }

  /** A record pushed at the end, on a list without one of its day, stays the only
      record of its day, and the last element, through both filters. */
  lemma PushedStaysLast<T(!new)>(list: seq<Item<T>>, record: Item<T>, policy: Policy, now: int, today: int, dayOf: int -> int)
    requires FindToday(list, today, dayOf).None? && OnDay(record, today, dayOf) && WithinAge(record, policy, now)
    ensures var aged := Aged(list + [record], policy, now);
            OnlyLastToday(aged, today, dayOf) && aged[|aged| - 1] == record
  {
    var s := list + [record];
    PushedOnlyLast(list, record, today, dayOf);
    OnlyLastInFilter(s, IsObject, today, dayOf);
    OnlyLastInFilter(Filter(s, IsObject), item => WithinAge(item, policy, now), today, dayOf);
  }

  /** Pushing a record of today on a list without one makes it the only record of today. */
  lemma PushedOnlyLast<T(!new)>(list: seq<Item<T>>, record: Item<T>, today: int, dayOf: int -> int)
    requires FindToday(list, today, dayOf).None? && OnDay(record, today, dayOf)
    ensures OnlyLastToday(list + [record], today, dayOf)
  {
    var s := list + [record];
    forall k | 0 <= k < |s| - 1 ensures !OnDay(s[k], today, dayOf) {
      assert s[k] == list[k];
    }
  }

  lemma {:induction false} OnlyLastInFilter<T(!new)>(s: seq<Item<T>>, p: Item<T> -> bool, today: int, dayOf: int -> int)
    requires OnlyLastToday(s, today, dayOf) && p(s[|s| - 1])
    ensures var f := Filter(s, p);
            OnlyLastToday(f, today, dayOf) && f[|f| - 1] == s[|s| - 1]
  {
    var rest := Filter(s[1..], p);
    if |s| > 1 {
      assert s[1..][|s| - 2] == s[|s| - 1];
      OnlyLastInFilter(s[1..], p, today, dayOf);
      if p(s[0]) {
        assert Filter(s, p) == [s[0]] + rest;
      }
    } else {
      assert rest == [];
    }
  }

  /** The tracker's two daily lists, as localStorage holds them. */
  class DailyStore {
    var hydration: seq<Item<int>>
    var supplements: seq<Item<seq<string>>>

    constructor ()
      ensures hydration == [] && supplements == []
    {
      hydration := [];
      supplements := [];
    }

    /** `saveHydrationToday(cups)` */
    method SaveHydrationToday(cups: int, now: int, dayOf: int -> int)
      modifies this
      ensures hydration == SaveToday(HydrationKey, old(hydration), cups, now, dayOf)
      ensures supplements == old(supplements)
    {
      var list := hydration;
      var existing := FindToday(list, dayOf(now), dayOf);
      var record := Object(Some(now), cups);
      if existing.Some? {
        list := list[existing.value := record];
      } else {
        list := list + [record];
      }
      hydration := Prune(HydrationKey, list, now);
    }

    /** `loadHydrationToday()` */
    function HydrationToday(now: int, dayOf: int -> int): int
      reads this
    {
      LoadToday(hydration, dayOf(now), dayOf, 0)
    }

    /** `saveSupplementsToday(items)` */
    method SaveSupplementsToday(items: seq<string>, now: int, dayOf: int -> int)
      modifies this
      ensures supplements == SaveToday(SupplementsKey, old(supplements), items, now, dayOf)
      ensures hydration == old(hydration)
    {
      var list := supplements;
      var existing := FindToday(list, dayOf(now), dayOf);
      var record := Object(Some(now), items);
      if existing.Some? {
        list := list[existing.value := record];
      } else {
        list := list + [record];
      }
      supplements := Prune(SupplementsKey, list, now);
    }

    /** `loadSupplementsToday()` */
    function SupplementsToday(now: int, dayOf: int -> int): seq<string>
      reads this
    {
      LoadToday(supplements, dayOf(now), dayOf, [])
    }
  }
}
