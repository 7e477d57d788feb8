/** The Slack activity report (generate_slack_report.py): messages counted per
    user and per calendar day, then ordered for display (users by falling message
    count, days by date). */
module SlackReport {
  import opened Wrappers
  import opened StrOrder

  /** The two fields of a Slack message the statistics read. */
  datatype Message = Message(user: Option<string>, ts: Option<string>)

  /** Python truthiness of an optional text field: present and non-empty. */
  predicate Truthy(v: Option<string>) {
    v.Some? && v.value != ""
  }

  /** A `Counter` or `defaultdict(int)`: its items in insertion order. */
  type Tally = seq<(string, nat)>

  /** `counts[k]`, 0 for a key never counted. */
  function Lookup(t: Tally, k: string): nat {
    if |t| == 0 then 0 else if t[0].0 == k then t[0].1 else Lookup(t[1..], k)
  }

  /** The sum of all counts. */
  function Total(t: Tally): nat {
    if |t| == 0 then 0 else t[0].1 + Total(t[1..])
  }

  predicate Positive(t: Tally) {
    forall i :: 0 <= i < |t| ==> t[i].1 > 0
  }

  /** `counts[k] += 1`: a new key is appended with count 1, an existing key keeps
      its place. */
  function Bump(t: Tally, k: string): Tally {
    if |t| == 0 then [(k, 1)]
    else if t[0].0 == k then [(k, t[0].1 + 1)] + t[1..]
    else [t[0]] + Bump(t[1..], k)
  }

  /** Bumping adds one to `k`'s count and to the total, and leaves every other
      count alone. */
  lemma {:induction false} BumpSpec(t: Tally, k: string)
    ensures var r := Bump(t, k);
      && Lookup(r, k) == Lookup(t, k) + 1
      && (forall o :: o != k ==> Lookup(r, o) == Lookup(t, o))
      && Total(r) == Total(t) + 1
      && (Positive(t) ==> Positive(r))
      && KeysOf(r) == (if k in KeysOf(t) then KeysOf(t) else KeysOf(t) + [k])
  {
    if |t| > 0 && t[0].0 != k {
      BumpSpec(t[1..], k);
      assert Bump(t, k) == [t[0]] + Bump(t[1..], k);
    }
    BumpKeys(t, k);
  }

  /** Bumping appends `k` to the keys only when it is new. */
  lemma {:induction false} BumpKeys(t: Tally, k: string)
    ensures KeysOf(Bump(t, k)) == if k in KeysOf(t) then KeysOf(t) else KeysOf(t) + [k]
  {
    if |t| > 0 {
      var rest := t[1..];
      assert t == [t[0]] + rest;
      KeysOfCons(t[0], rest);
      if t[0].0 != k {
        BumpKeys(rest, k);
        KeysOfCons(t[0], Bump(rest, k));
      } else {
        KeysOfCons((k, t[0].1 + 1), rest);
      }
    }
  }

  lemma BumpKeepsKeysDistinct(t: Tally, k: string)
    requires DistinctKeys(t)
    ensures DistinctKeys(Bump(t, k))
  {
    var r := Bump(t, k);
    BumpSpec(t, k);
    forall i, j | 0 <= i < j < |r|
      ensures r[i].0 != r[j].0
    {
      assert KeysOf(r)[i] == r[i].0 && KeysOf(r)[j] == r[j].0;
    }
  }

  /** With positive counts, a key has a non-zero count exactly when it is listed. */
  lemma {:induction false} LookupFindsKey(t: Tally, k: string)
    requires Positive(t)
    ensures Lookup(t, k) > 0 <==> k in KeysOf(t)
  {
    if |t| > 0 {
      LookupFindsKey(t[1..], k);
      assert KeysOf(t) == [t[0].0] + KeysOf(t[1..]);
    }
  }

  // ---------------------------------------------------------------------------
  // Reference counts
  // ---------------------------------------------------------------------------

  /** How many messages carry user `u` (an empty user is never counted). */
  function UserCount(ms: seq<Message>, u: string): nat {
    if |ms| == 0 then 0
    else UserCount(ms[..|ms| - 1], u) + (if Truthy(ms[|ms| - 1].user) && ms[|ms| - 1].user.value == u then 1 else 0)
  }

  /** How many messages carry a non-empty user. */
  function WithUser(ms: seq<Message>): nat {
    if |ms| == 0 then 0 else WithUser(ms[..|ms| - 1]) + (if Truthy(ms[|ms| - 1].user) then 1 else 0)
  }

  /** How many messages carry a timestamp falling on day `d`. */
  function DayCount(ms: seq<Message>, dayOf: string -> Option<string>, d: string): nat {
    if |ms| == 0 then 0
    else
      var m := ms[|ms| - 1];
      DayCount(ms[..|ms| - 1], dayOf, d) + (if Truthy(m.ts) && dayOf(m.ts.value) == Some(d) then 1 else 0)
  }

  /** How many messages carry a non-empty timestamp. */
  function WithTs(ms: seq<Message>): nat {
    if |ms| == 0 then 0 else WithTs(ms[..|ms| - 1]) + (if Truthy(ms[|ms| - 1].ts) then 1 else 0)
  }

  lemma UserCountsSnoc(ms: seq<Message>, m: Message)
    ensures forall u :: UserCount(ms + [m], u) == UserCount(ms, u) + (if Truthy(m.user) && m.user.value == u then 1 else 0)
    ensures WithUser(ms + [m]) == WithUser(ms) + (if Truthy(m.user) then 1 else 0)
  {
    assert (ms + [m])[..|ms|] == ms;
  }

  lemma DayCountsSnoc(ms: seq<Message>, m: Message, dayOf: string -> Option<string>)
    ensures forall d :: DayCount(ms + [m], dayOf, d) == DayCount(ms, dayOf, d) + (if Truthy(m.ts) && dayOf(m.ts.value) == Some(d) then 1 else 0)
    ensures WithTs(ms + [m]) == WithTs(ms) + (if Truthy(m.ts) then 1 else 0)
  {
    assert (ms + [m])[..|ms|] == ms;
  }

  /** Every non-empty timestamp converts to a day. */
  predicate DaysParse(ms: seq<Message>, dayOf: string -> Option<string>) {
    forall k :: 0 <= k < |ms| && Truthy(ms[k].ts) ==> dayOf(ms[k].ts.value).Some?
  }

  /** The user `Counter` after the messages, one bump per non-empty user. */
  function UserTally(ms: seq<Message>): Tally {
    if |ms| == 0 then []
    else
      var t := UserTally(ms[..|ms| - 1]);
      var m := ms[|ms| - 1];
      if Truthy(m.user) then Bump(t, m.user.value) else t
  }

  /** The day counts after the messages, one bump per timestamp that converts. */
  function DayTally(ms: seq<Message>, dayOf: string -> Option<string>): Tally {
    if |ms| == 0 then []
    else
      var t := DayTally(ms[..|ms| - 1], dayOf);
      var m := ms[|ms| - 1];
      if Truthy(m.ts) && dayOf(m.ts.value).Some? then Bump(t, dayOf(m.ts.value).value) else t
  }

  /** One more message of `ms` changes the counters by at most one bump each. */
  lemma TalliesStep(ms: seq<Message>, i: nat, dayOf: string -> Option<string>)
    requires i < |ms|
    ensures UserTally(ms[..i + 1]) ==
      if Truthy(ms[i].user) then Bump(UserTally(ms[..i]), ms[i].user.value) else UserTally(ms[..i])
    ensures DayTally(ms[..i + 1], dayOf) ==
      if Truthy(ms[i].ts) && dayOf(ms[i].ts.value).Some? then Bump(DayTally(ms[..i], dayOf), dayOf(ms[i].ts.value).value)
      else DayTally(ms[..i], dayOf)
    ensures DaysParse(ms[..i], dayOf) && (Truthy(ms[i].ts) ==> dayOf(ms[i].ts.value).Some?) ==> DaysParse(ms[..i + 1], dayOf)
  {
    assert ms[..i + 1][..i] == ms[..i];
  }

  /** The user counter holds each user once, with that user's message count. */
  lemma {:induction false} UserTallyCounts(ms: seq<Message>)
    ensures var t := UserTally(ms);
      DistinctKeys(t) && Positive(t) && Total(t) == WithUser(ms) &&
      forall u :: Lookup(t, u) == UserCount(ms, u)
  {
    if |ms| > 0 {
      var init := ms[..|ms| - 1];
      var m := ms[|ms| - 1];
      UserTallyCounts(init);
      assert ms == init + [m];
      UserCountsSnoc(init, m);
      if Truthy(m.user) {
        BumpSpec(UserTally(init), m.user.value);
        BumpKeepsKeysDistinct(UserTally(init), m.user.value);
      }
    }
  }

  /** When every timestamp converts, the day counter holds each day once, with
      the number of messages on it. */
  lemma {:induction false} DayTallyCounts(ms: seq<Message>, dayOf: string -> Option<string>)
    requires DaysParse(ms, dayOf)
    ensures var t := DayTally(ms, dayOf);
      DistinctKeys(t) && Positive(t) && Total(t) == WithTs(ms) &&
      forall d :: Lookup(t, d) == DayCount(ms, dayOf, d)
  {
    if |ms| > 0 {
      var init := ms[..|ms| - 1];
      var m := ms[|ms| - 1];
      assert DaysParse(init, dayOf) by {
        forall k | 0 <= k < |init| && Truthy(init[k].ts)
          ensures dayOf(init[k].ts.value).Some?
        {
          assert init[k] == ms[k];
        }
      }
      DayTallyCounts(init, dayOf);
      assert ms == init + [m];
      DayCountsSnoc(init, m, dayOf);
      if Truthy(m.ts) {
        BumpSpec(DayTally(init, dayOf), dayOf(m.ts.value).value);
        BumpKeepsKeysDistinct(DayTally(init, dayOf), dayOf(m.ts.value).value);
      }
    }
  }

  /** The error the timestamp conversion raises: `ValueError` from `float(ts)` on
      malformed text, or the error `datetime.fromtimestamp` raises on a value out
      of its range (`OverflowError` or `OSError`, depending on the platform). */
  datatype Error = ConversionError

  /** `compute_stats`. `dayOf` stands for `float` followed by the local-time
      `strftime("%Y-%m-%d")`; it yields `None` where either conversion raises. */
  method ComputeStats(messages: seq<Message>, dayOf: string -> Option<string>)
    returns (r: Result<(Tally, Tally), Error>)
    ensures r.Success? <==> DaysParse(messages, dayOf)
    ensures r.Success? ==> r.value == (UserTally(messages), DayTally(messages, dayOf))
  {
    var users: Tally := [];
    var days: Tally := [];
    var i := 0;
    while i < |messages|
      invariant 0 <= i <= |messages|
      invariant users == UserTally(messages[..i])
      invariant days == DayTally(messages[..i], dayOf)
      invariant DaysParse(messages[..i], dayOf)
    {
      var m := messages[i];
      TalliesStep(messages, i, dayOf);
      if Truthy(m.user) {
        users := Bump(users, m.user.value);
      }
      if Truthy(m.ts) {
        var day := dayOf(m.ts.value);
        if day.None? {
          return Failure(ConversionError);
        }
        days := Bump(days, day.value);
      }
      i := i + 1;
    }
    assert messages[..i] == messages;
    return Success((users, days));
  }

  /** What `compute_stats` returns: each user and each day once, with its
      message count; a key is listed exactly when it was counted; the user
      counts sum to the messages with a user and the day counts to the messages
      with a timestamp. */
  lemma StatsCount(messages: seq<Message>, dayOf: string -> Option<string>)
    requires DaysParse(messages, dayOf)
    ensures var users := UserTally(messages); var days := DayTally(messages, dayOf);
      && DistinctKeys(users) && DistinctKeys(days)
      && (forall u :: Lookup(users, u) == UserCount(messages, u))
      && (forall u :: u in KeysOf(users) <==> UserCount(messages, u) > 0)
      && (forall d :: Lookup(days, d) == DayCount(messages, dayOf, d))
      && (forall d :: d in KeysOf(days) <==> DayCount(messages, dayOf, d) > 0)
      && Total(users) == WithUser(messages) && Total(days) == WithTs(messages)
  {
    var users := UserTally(messages);
    var days := DayTally(messages, dayOf);
    UserTallyCounts(messages);
    DayTallyCounts(messages, dayOf);
    forall u
      ensures u in KeysOf(users) <==> UserCount(messages, u) > 0
    {
      LookupFindsKey(users, u);
    }
    forall d
      ensures d in KeysOf(days) <==> DayCount(messages, dayOf, d) > 0
    {
      LookupFindsKey(days, d);
    }
  }

  /** The messages with every timestamp removed. */
  function WithoutTs(ms: seq<Message>): (r: seq<Message>)
    ensures |r| == |ms|
    ensures forall k :: 0 <= k < |ms| ==> r[k] == Message(ms[k].user, None)
  {
    seq(|ms|, k requires 0 <= k < |ms| => Message(ms[k].user, None))
  }

  /** The messages with every user removed. */
  function WithoutUser(ms: seq<Message>): (r: seq<Message>)
    ensures |r| == |ms|
    ensures forall k :: 0 <= k < |ms| ==> r[k] == Message(None, ms[k].ts)
  {
    seq(|ms|, k requires 0 <= k < |ms| => Message(None, ms[k].ts))
  }

  /** User and day counting do not interfere: user counts ignore timestamps, and
      day counts ignore users, so a message with a timestamp but no user still
      counts toward its day. */
  lemma {:induction false} CountsAreIndependent(ms: seq<Message>, dayOf: string -> Option<string>, u: string, d: string)
    ensures UserCount(WithoutTs(ms), u) == UserCount(ms, u)
    ensures WithUser(WithoutTs(ms)) == WithUser(ms)
    ensures DayCount(WithoutUser(ms), dayOf, d) == DayCount(ms, dayOf, d)
    ensures WithTs(WithoutUser(ms)) == WithTs(ms)
  {
    if |ms| > 0 {
      var init := ms[..|ms| - 1];
      CountsAreIndependent(init, dayOf, u, d);
      assert WithoutTs(ms)[..|ms| - 1] == WithoutTs(init);
      assert WithoutUser(ms)[..|ms| - 1] == WithoutUser(init);
    }
  }

  // ---------------------------------------------------------------------------
  // Display order
  // ---------------------------------------------------------------------------

  predicate NonIncreasing(t: Tally) {
    forall i, j :: 0 <= i < j < |t| ==> t[i].1 >= t[j].1
  }

  /** The items whose count is `v`, in order. */
  function WithCount(t: Tally, v: nat): Tally {
    if |t| == 0 then [] else (if t[0].1 == v then [t[0]] else []) + WithCount(t[1..], v)
  }

  lemma {:induction false} WithCountSnoc(t: Tally, x: (string, nat), v: nat)
    ensures WithCount(t + [x], v) == WithCount(t, v) + (if x.1 == v then [x] else [])
  {
    if |t| > 0 {
      assert (t + [x])[1..] == t[1..] + [x];
      WithCountSnoc(t[1..], x, v);
    }
  }

  lemma {:induction false} WithCountAbsent(t: Tally, v: nat)
    requires forall i :: 0 <= i < |t| ==> t[i].1 < v
    ensures WithCount(t, v) == []
  {
    if |t| > 0 {
      WithCountAbsent(t[1..], v);
    }
  }

  /** Every count in `t` is at most `c`. */
  predicate AtMost(t: Tally, c: nat) {
    forall i :: 0 <= i < |t| ==> t[i].1 <= c
  }

  lemma HeadBounds(t: Tally)
    requires NonIncreasing(t) && |t| > 0
    ensures NonIncreasing(t[1..]) && AtMost(t, t[0].1) && AtMost(t[1..], t[0].1)
  {
  }

  lemma NonIncreasingCons(y: (string, nat), s: Tally)
    requires NonIncreasing(s) && AtMost(s, y.1)
    ensures NonIncreasing([y] + s)
  {
  }

  lemma AtMostOfPermutation(r: Tally, t: Tally, x: (string, nat), c: nat)
    requires multiset(r) == multiset(t) + multiset{x}
    requires AtMost(t, c) && x.1 <= c
    ensures AtMost(r, c)
  {
    forall j | 0 <= j < |r|
      ensures r[j].1 <= c
    {
      assert r[j] in multiset(r);
      if r[j] != x {
        assert r[j] in multiset(t);
      }
    }
  }

  /** Inserts `x` after every item whose count is at least `x`'s. */
  function InsertDesc(x: (string, nat), t: Tally): (r: Tally)
    requires NonIncreasing(t)
    ensures NonIncreasing(r)
    ensures multiset(r) == multiset(t) + multiset{x}
  {
    if |t| == 0 then [x]
    else
      HeadBounds(t);
      if t[0].1 >= x.1 then
        var rest := InsertDesc(x, t[1..]);
        AtMostOfPermutation(rest, t[1..], x, t[0].1);
        NonIncreasingCons(t[0], rest);
        assert t == [t[0]] + t[1..];
        [t[0]] + rest
      else
        NonIncreasingCons(x, t);
        [x] + t
  }

  /** The inserted item lands behind every item of the same count. */
  lemma WithCountCons(y: (string, nat), s: Tally, v: nat)
    ensures WithCount([y] + s, v) == (if y.1 == v then [y] else []) + WithCount(s, v)
  {
    assert ([y] + s)[1..] == s;
  }

  lemma {:induction false} InsertDescKeepsTies(x: (string, nat), t: Tally, v: nat)
    requires NonIncreasing(t)
    ensures WithCount(InsertDesc(x, t), v) == WithCount(t, v) + (if x.1 == v then [x] else [])
  {
    var tail: Tally := if x.1 == v then [x] else [];
    if |t| == 0 {
      assert InsertDesc(x, t) == [x];
      WithCountCons(x, [], v);
    } else if t[0].1 >= x.1 {
      var rest := InsertDesc(x, t[1..]);
      assert InsertDesc(x, t) == [t[0]] + rest;
      InsertDescKeepsTies(x, t[1..], v);
      TieBehindHead(t[0], rest, t[1..], tail, v);
      assert t == [t[0]] + t[1..];
    } else {
      assert InsertDesc(x, t) == [x] + t;
      TieInFront(x, t, v);
    }
  }

  lemma TieInFront(x: (string, nat), t: Tally, v: nat)
    requires NonIncreasing(t) && |t| > 0 && t[0].1 < x.1
    ensures WithCount([x] + t, v) == WithCount(t, v) + (if x.1 == v then [x] else [])
  {
    WithCountCons(x, t, v);
    if x.1 == v {
      WithCountAbsent(t, v);
    }
  }

  lemma TieBehindHead(y: (string, nat), r: Tally, t: Tally, tail: Tally, v: nat)
    requires WithCount(r, v) == WithCount(t, v) + tail
    ensures WithCount([y] + r, v) == WithCount([y] + t, v) + tail
  {
    WithCountCons(y, r, v);
    WithCountCons(y, t, v);
  }

  /** `sorted(items, key=count, reverse=True)`: counts non-increasing, the same
      items, and items of equal count in their original (first-seen) order, as
      Python's stable sort keeps them. */
  function SortDesc(t: Tally): (r: Tally)
    ensures NonIncreasing(r)
    ensures multiset(r) == multiset(t)
    ensures forall v :: WithCount(r, v) == WithCount(t, v)
  {
    if |t| == 0 then []
    else
      var init := t[..|t| - 1];
      var last := t[|t| - 1];
      assert t == init + [last];
      var r := InsertDesc(last, SortDesc(init));
      forall v
        ensures WithCount(r, v) == WithCount(t, v)
      {
        InsertDescKeepsTies(last, SortDesc(init), v);
        WithCountSnoc(init, last, v);
      }
      r
  }

  lemma TwoUserExample()
    ensures SortDesc([("U1", 1), ("U2", 2)]) == [("U2", 2), ("U1", 1)]
  {
    var t: Tally := [("U1", 1), ("U2", 2)];
    assert t[..1] == [("U1", 1)];
    assert [("U1", 1)][..0] == [];
    assert SortDesc([("U1", 1)]) == [("U1", 1)];
  }

  /** Two users with one message each keep their first-seen order behind a
      busier user. */
  lemma StableOrderExample()
    ensures SortDesc([("U1", 1), ("U2", 2), ("U3", 1)]) == [("U2", 2), ("U1", 1), ("U3", 1)]
  {
    var t: Tally := [("U1", 1), ("U2", 2), ("U3", 1)];
    assert t[..2] == [("U1", 1), ("U2", 2)];
    TwoUserExample();
    assert InsertDesc(("U3", 1), [("U1", 1)]) == [("U1", 1), ("U3", 1)];
  }

  /** `user_map.get(uid, uid)`: the known name, or the raw id. */
  function DisplayName(userMap: map<string, string>, uid: string): (name: string)
    ensures uid in userMap ==> name == userMap[uid]
    ensures uid !in userMap ==> name == uid
  {
    if uid in userMap then userMap[uid] else uid
  }

  /** The rows `render_html` shows. */
  datatype Report = Report(userRows: seq<(string, nat)>, dayRows: seq<(string, nat)>)

  /** Items with each user id replaced by its display name. */
  function Named(items: Tally, userMap: map<string, string>): (rows: seq<(string, nat)>)
    ensures |rows| == |items|
    ensures forall i :: 0 <= i < |items| ==> rows[i] == (DisplayName(userMap, items[i].0), items[i].1)
  {
    seq(|items|, i requires 0 <= i < |items| => (DisplayName(userMap, items[i].0), items[i].1))
  }

  /** The user table of `render_html`: counted users by falling count, under
      their display names. */
  function UserRows(userCounts: Tally, userMap: map<string, string>): (rows: seq<(string, nat)>)
    ensures |rows| == |userCounts|
    ensures forall i, j :: 0 <= i < j < |rows| ==> rows[i].1 >= rows[j].1
  {
    var sorted := SortDesc(userCounts);
    assert |multiset(sorted)| == |multiset(userCounts)|;
    Named(sorted, userMap)
  }

  /** The rows `render_html` shows: users by falling count with display names,
      days ascending by their "YYYY-MM-DD" key. */
  function RenderRows(userCounts: Tally, dailyCounts: Tally, userMap: map<string, string>): (r: Report)
    requires DistinctKeys(dailyCounts)
    ensures |r.userRows| == |userCounts|
    ensures forall i, j :: 0 <= i < j < |r.userRows| ==> r.userRows[i].1 >= r.userRows[j].1
    ensures multiset(r.dayRows) == multiset(dailyCounts)
    ensures forall i, j :: 0 <= i < j < |r.dayRows| ==> Less(r.dayRows[i].0, r.dayRows[j].0)
  {
    Report(UserRows(userCounts, userMap), SortByKey(dailyCounts))
  }

  /** Naming a permutation of `items` yields exactly the named items. */
  lemma NamedPermutation(items: Tally, perm: Tally, userMap: map<string, string>)
    requires multiset(perm) == multiset(items)
    ensures var rows := Named(perm, userMap);
      (forall k :: 0 <= k < |items| ==>
        exists i :: 0 <= i < |rows| && rows[i] == (DisplayName(userMap, items[k].0), items[k].1)) &&
      (forall i :: 0 <= i < |rows| ==>
        exists k :: 0 <= k < |items| && rows[i] == (DisplayName(userMap, items[k].0), items[k].1))
  {
    var rows := Named(perm, userMap);
    forall k | 0 <= k < |items|
      ensures exists i :: 0 <= i < |rows| && rows[i] == (DisplayName(userMap, items[k].0), items[k].1)
    {
      assert items[k] in multiset(perm);
      var i :| 0 <= i < |perm| && perm[i] == items[k];
      assert rows[i] == (DisplayName(userMap, perm[i].0), perm[i].1);
    }
    forall i | 0 <= i < |rows|
      ensures exists k :: 0 <= k < |items| && rows[i] == (DisplayName(userMap, items[k].0), items[k].1)
    {
      assert perm[i] in multiset(items);
      var k :| 0 <= k < |items| && items[k] == perm[i];
      assert rows[i] == (DisplayName(userMap, items[k].0), items[k].1);
    }
  }

  /** The displayed user rows are the counted users, each under its display
      name with its own count: every counted user has a row and every row comes
      from a counted user. */
  lemma UserRowsAreCountedUsers(userCounts: Tally, userMap: map<string, string>)
    ensures var rows := UserRows(userCounts, userMap);
      (forall k :: 0 <= k < |userCounts| ==>
        exists i :: 0 <= i < |rows| && rows[i] == (DisplayName(userMap, userCounts[k].0), userCounts[k].1)) &&
      (forall i :: 0 <= i < |rows| ==>
        exists k :: 0 <= k < |userCounts| && rows[i] == (DisplayName(userMap, userCounts[k].0), userCounts[k].1))
  {
    var sorted := SortDesc(userCounts);
    assert UserRows(userCounts, userMap) == Named(sorted, userMap);
    NamedPermutation(userCounts, sorted, userMap);
  }
}
