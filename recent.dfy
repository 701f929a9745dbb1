/** The query both logs answer: a device's records, newest first, at most
    `limit` of them (`filter_by(...).order_by(timestamp.desc()).limit(n)`).
    It is written once over any record type, given a record's device (`device`)
    and its timestamp (`stamp`). */
module Recent {

  /** Timestamps never increase along `s`. */
  predicate NewestFirst<T>(s: seq<T>, stamp: T -> int) {
    forall i, j | 0 <= i < j < |s| :: stamp(s[i]) >= stamp(s[j])
  }

  /** The records of `log` for device `id`, in log order. */
  function Select<T>(log: seq<T>, device: T -> string, id: string): (r: seq<T>)
    ensures forall x | x in r :: device(x) == id
    ensures forall x | x in log && device(x) == id :: x in r
    ensures forall x | x in log :: multiset(r)[x] == if device(x) == id then multiset(log)[x] else 0
    ensures multiset(r) <= multiset(log)
  {
    if log == [] then []
    else
      var init, last := log[..|log| - 1], log[|log| - 1];
      assert log == init + [last];
      assert multiset(log) == multiset(init) + multiset{last};
      Select(init, device, id) + (if device(last) == id then [last] else [])
  }

  /** A record at least as new as the head of a newest-first sequence can
      go in front of it. */
  lemma ConsNewest<T>(y: T, s: seq<T>, stamp: T -> int)
    requires NewestFirst(s, stamp)
    requires s != [] ==> stamp(s[0]) <= stamp(y)
    ensures NewestFirst([y] + s, stamp)
  {
    var r := [y] + s;
    forall i, j | 0 <= i < j < |r| ensures stamp(r[i]) >= stamp(r[j]) {
      assert r[j] == s[j - 1];
      if 0 < i {
        assert r[i] == s[i - 1];
      }
    }
  }

  /** Places `x` before the first record that is not newer than it, so that
      among equal timestamps the record inserted last comes first. */
  function Insert<T>(x: T, s: seq<T>, stamp: T -> int): (r: seq<T>)
    requires NewestFirst(s, stamp)
    ensures NewestFirst(r, stamp)
    ensures |r| == |s| + 1 && (r[0] == x || (s != [] && r[0] == s[0]))
  {
    if s == [] || stamp(s[0]) <= stamp(x) then
      ConsNewest(x, s, stamp);
      [x] + s
    else
      var tail := s[1..];
      assert NewestFirst(tail, stamp) by {
        forall i, j | 0 <= i < j < |tail| ensures stamp(tail[i]) >= stamp(tail[j]) {
          assert tail[i] == s[i + 1] && tail[j] == s[j + 1];
        }
      }
      var rest := Insert(x, tail, stamp);
      assert tail != [] ==> tail[0] == s[1];
      ConsNewest(s[0], rest, stamp);
      [s[0]] + rest
  }

  /** Insert adds exactly the one record. */
  lemma {:induction false} InsertPermutes<T>(x: T, s: seq<T>, stamp: T -> int)
    requires NewestFirst(s, stamp)
    ensures multiset(Insert(x, s, stamp)) == multiset(s) + multiset{x}
  {
    if s != [] && stamp(s[0]) > stamp(x) {
      var tail := s[1..];
      var rest := Insert(x, tail, stamp);
      assert Insert(x, s, stamp) == [s[0]] + rest;
      InsertPermutes(x, tail, stamp);
      assert s == [s[0]] + tail;
      calc {
        multiset(Insert(x, s, stamp));
        multiset([s[0]]) + multiset(rest);
        multiset([s[0]]) + multiset(tail) + multiset{x};
        multiset(s) + multiset{x};
      }
    }
  }

  /** `s` ordered newest first. SQL leaves records with equal timestamps in
      no particular order; here the later insertion comes first, as SQLite's
      reverse scan of the timestamp index returns them. */
  function Sort<T>(s: seq<T>, stamp: T -> int): (r: seq<T>)
    ensures NewestFirst(r, stamp)
    ensures multiset(r) == multiset(s)
  {
    if s == [] then []
    else
      var init, last := s[..|s| - 1], s[|s| - 1];
      assert s == init + [last];
      InsertPermutes(last, Sort(init, stamp), stamp);
      Insert(last, Sort(init, stamp), stamp)
  }

  /** SQL `LIMIT n`: the first `limit` records; a negative limit (SQLite's
      "no limit") and a limit past the end keep them all. */
  function Take<T>(s: seq<T>, limit: int): (r: seq<T>)
    ensures |r| == if 0 <= limit < |s| then limit else |s|
    ensures r == s[..|r|]
  {
    if 0 <= limit < |s| then s[..limit] else s
  }

  /** The first `k` records of a sequence ordered newest first are at least
      as new as every record after them. */
  lemma {:induction false} PrefixIsNewest<T>(s: seq<T>, k: nat, stamp: T -> int, x: T)
    requires NewestFirst(s, stamp) && 0 < k <= |s|
    requires x in s && x !in s[..k]
    ensures stamp(x) <= stamp(s[k - 1])
  {
    assert forall j | 0 <= j < k :: s[..k][j] == s[j];
    var i :| 0 <= i < |s| && s[i] == x;
    assert k <= i;
  }

  /** What Query promises, for the sorted records `all` cut at `limit`. */
  lemma {:induction false} TakeNewest<T>(selected: seq<T>, all: seq<T>, stamp: T -> int, limit: int)
    requires NewestFirst(all, stamp) && multiset(all) == multiset(selected)
    ensures NewestFirst(Take(all, limit), stamp)
    ensures multiset(Take(all, limit)) <= multiset(selected)
    ensures forall x | x in selected && x !in Take(all, limit) && Take(all, limit) != [] ::
              stamp(x) <= stamp(Take(all, limit)[|Take(all, limit)| - 1])
  {
    var r := Take(all, limit);
    assert all == r + all[|r|..];
    assert multiset(all) == multiset(r) + multiset(all[|r|..]);
    forall i, j | 0 <= i < j < |r| ensures stamp(r[i]) >= stamp(r[j]) {
      assert r[i] == all[i] && r[j] == all[j];
    }
    forall x | x in selected && x !in r && r != [] ensures stamp(x) <= stamp(r[|r| - 1]) {
      assert x in multiset(all);
      PrefixIsNewest(all, |r|, stamp, x);
    }
  }

  /** At most `limit` of the records of device `id`, newest first. */
  function Query<T>(log: seq<T>, device: T -> string, id: string, stamp: T -> int, limit: int): (r: seq<T>)
    ensures forall x | x in r :: device(x) == id
    ensures NewestFirst(r, stamp)
    ensures |r| == if 0 <= limit < |Select(log, device, id)| then limit else |Select(log, device, id)|
    ensures multiset(r) <= multiset(Select(log, device, id))
    ensures r != [] ==> forall x | x in log && device(x) == id && x !in r :: stamp(x) <= stamp(r[|r| - 1])
  {
    var selected := Select(log, device, id);
    var all := Sort(selected, stamp);
    TakeNewest(selected, all, stamp, limit);
    var r := Take(all, limit);
    assert forall x | x in r :: x in multiset(selected);
    r
  }

  /** `s` in the opposite order. */
  function Reversed<T>(s: seq<T>): (r: seq<T>)
    ensures |r| == |s|
    ensures forall i | 0 <= i < |s| :: r[i] == s[|s| - 1 - i]
  {
    if s == [] then [] else [s[|s| - 1]] + Reversed(s[..|s| - 1])
  }

  /** Records appended in time order: no record is older than one before it. */
  predicate OldestFirst<T>(s: seq<T>, stamp: T -> int) {
    forall i, j | 0 <= i < j < |s| :: stamp(s[i]) <= stamp(s[j])
  }

  /** When every record is the device's, the selection is the whole log. */
  lemma {:induction false} SelectAll<T>(log: seq<T>, device: T -> string, id: string)
    requires forall x | x in log :: device(x) == id
    ensures Select(log, device, id) == log
  {
    if log != [] {
      var init := log[..|log| - 1];
      assert log == init + [log[|log| - 1]];
      SelectAll(init, device, id);
    }
  }

  /** Sorting a log kept in time order reverses it, so among equal stamps
      the later insertion comes first. */
  lemma {:induction false} SortChronological<T>(s: seq<T>, stamp: T -> int)
    requires OldestFirst(s, stamp)
    ensures Sort(s, stamp) == Reversed(s)
  {
    if s != [] {
      var init, last := s[..|s| - 1], s[|s| - 1];
      assert OldestFirst(init, stamp);
      SortChronological(init, stamp);
      if init != [] {
        assert Reversed(init)[0] == s[|s| - 2];
      }
      assert Reversed(s) == [last] + Reversed(init);
    }
  }

  /** On a log kept in time order, the query answers the device's `limit`
      newest records, latest first. */
  lemma QueryChronological<T>(log: seq<T>, device: T -> string, id: string, stamp: T -> int, limit: int)
    requires OldestFirst(Select(log, device, id), stamp)
    ensures Query(log, device, id, stamp, limit) == Take(Reversed(Select(log, device, id)), limit)
  {
    SortChronological(Select(log, device, id), stamp);
  }
}
