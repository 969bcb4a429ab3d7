/** Shared vocabulary of the model: optional values and results, positions, time,
    and the few sequence operations (filter, find, split, sum) that several
    parts of the system apply to JavaScript arrays and strings. */
module Common {

  datatype Option<+T> = None | Some(value: T)

  datatype Result<+T, +E> = Ok(value: T) | Err(error: E)

  /** A latitude/longitude pair. The code only ever tests a component for
      truthiness, so a component that JavaScript treats as falsy (0, null,
      undefined) is represented by 0. */
  datatype Coord = Coord(lat: int, lng: int)

  /** `c && c.lat && c.lng` */
  predicate IsSet(c: Option<Coord>)
  {
    c.Some? && c.value.lat != 0 && c.value.lng != 0
  }

  /** The appointment status enumeration of the appointment schema. */
  datatype Status = Pending | InProgress | Completed | Canceled

  /** An HTTP error answer: the status code and the message sent. */
  datatype Reply = Reply(status: nat, message: string)

  // Time is measured in integer milliseconds, as JavaScript `Date` values are.
  const MsPerSecond: int := 1000
  const MsPerMinute: int := 60000
  const MsPerHour: int := 3600000
  const MsPerDay: int := 86400000

  /** Calendar day (an index) that a time falls on. */
  function DayOf(t: int): int
  {
    t / MsPerDay
  }

  /** Hour of the day, `Date.getHours()`. */
  function HourOf(t: int): (h: int)
    ensures 0 <= h < 24
  {
    (t % MsPerDay) / MsPerHour
  }

  /** `d.setHours(h, m, s, ms)` on any time of day `day`. */
  function TimeOfDay(day: int, h: int, m: int, s: int, ms: int): int
  {
    day * MsPerDay + h * MsPerHour + m * MsPerMinute + s * MsPerSecond + ms
  }

  lemma TimeOfDayIsOnThatDay(day: int, h: int, m: int, s: int, ms: int)
    requires 0 <= h < 24 && 0 <= m < 60 && 0 <= s < 60 && 0 <= ms < 1000
    ensures DayOf(TimeOfDay(day, h, m, s, ms)) == day
    ensures HourOf(TimeOfDay(day, h, m, s, ms)) == h
    ensures TimeOfDay(day, h, m, s, ms) % MsPerDay == h * MsPerHour + m * MsPerMinute + s * MsPerSecond + ms
  {
    var off := h * MsPerHour + m * MsPerMinute + s * MsPerSecond + ms;
    assert 0 <= off < MsPerDay;
    assert TimeOfDay(day, h, m, s, ms) == day * MsPerDay + off;
  }

  /** r is r' with some elements of s dropped, the rest kept in order. */
  ghost predicate IsSubsequence<T>(r: seq<T>, s: seq<T>)
    decreases |s|
  {
    if r == [] then true
    else if s == [] then false
    else (r[0] == s[0] && IsSubsequence(r[1..], s[1..])) || IsSubsequence(r, s[1..])
  }

  /** Each element of a subsequence occurs in the sequence. */
  lemma {:induction false} SubsequenceMember<T>(r: seq<T>, s: seq<T>, i: nat)
    requires IsSubsequence(r, s) && i < |r|
    ensures exists m :: 0 <= m < |s| && s[m] == r[i]
    decreases |s|
  {
    if r[0] == s[0] && IsSubsequence(r[1..], s[1..]) {
      if i > 0 {
        SubsequenceMember(r[1..], s[1..], i - 1);
        var m :| 0 <= m < |s[1..]| && s[1..][m] == r[1..][i - 1];
        assert s[m + 1] == r[i];
      } else {
        assert s[0] == r[0];
      }
    } else {
      SubsequenceMember(r, s[1..], i);
      var m :| 0 <= m < |s[1..]| && s[1..][m] == r[i];
      assert s[m + 1] == r[i];
    }
  }

  /** A subsequence keeps the order of the elements it keeps. */
  lemma {:induction false} SubsequenceOrder<T>(r: seq<T>, s: seq<T>, i: nat, j: nat)
    requires IsSubsequence(r, s) && i < j < |r|
    ensures exists m, n :: 0 <= m < n < |s| && s[m] == r[i] && s[n] == r[j]
    decreases |s|
  {
    if r[0] == s[0] && IsSubsequence(r[1..], s[1..]) {
      if i > 0 {
        SubsequenceOrder(r[1..], s[1..], i - 1, j - 1);
        var m, n :| 0 <= m < n < |s[1..]| && s[1..][m] == r[1..][i - 1] && s[1..][n] == r[1..][j - 1];
        assert s[m + 1] == r[i] && s[n + 1] == r[j];
      } else {
        SubsequenceMember(r[1..], s[1..], j - 1);
        var n :| 0 <= n < |s[1..]| && s[1..][n] == r[1..][j - 1];
        assert s[0] == r[0] && s[n + 1] == r[j];
      }
    } else {
      SubsequenceOrder(r, s[1..], i, j);
      var m, n :| 0 <= m < n < |s[1..]| && s[1..][m] == r[i] && s[1..][n] == r[j];
      assert s[m + 1] == r[i] && s[n + 1] == r[j];
    }
  }

  lemma AppendAssociates<T>(a: seq<T>, b: seq<T>, c: seq<T>)
    ensures a + (b + c) == (a + b) + c
  {
  }

  /** `Array.prototype.filter`. */
  function Filter<T>(s: seq<T>, p: T -> bool): (r: seq<T>)
    ensures |r| <= |s|
    ensures forall i :: 0 <= i < |r| ==> r[i] in s && p(r[i])
    ensures forall i :: 0 <= i < |s| && p(s[i]) ==> s[i] in r
  {
    if s == [] then []
    else if p(s[0]) then [s[0]] + Filter(s[1..], p)
    else Filter(s[1..], p)
  }

  /** Filtering keeps the kept elements in their order. */
  lemma {:induction false} FilterIsSubsequence<T>(s: seq<T>, p: T -> bool)
    ensures IsSubsequence(Filter(s, p), s)
  {
    if s != [] {
      FilterIsSubsequence(s[1..], p);
    }
  }

  /** Filtering drops an element the predicate rejects, so the result is shorter. */
  lemma {:induction false} FilterShrinks<T>(s: seq<T>, p: T -> bool, i: nat)
    requires i < |s| && !p(s[i])
    ensures |Filter(s, p)| < |s|
  {
    if i > 0 {
      FilterShrinks(s[1..], p, i - 1);
    }
  }

  lemma {:induction false} FilterAppend<T>(s: seq<T>, x: T, p: T -> bool)
    ensures Filter(s + [x], p) == Filter(s, p) + (if p(x) then [x] else [])
  {
    if s == [] {
      assert s + [x] == [x];
    } else {
      assert (s + [x])[1..] == s[1..] + [x];
      FilterAppend(s[1..], x, p);
    }
  }

  lemma {:induction false} FilterKeepsAll<T>(s: seq<T>, p: T -> bool)
    requires forall k :: 0 <= k < |s| ==> p(s[k])
    ensures Filter(s, p) == s
  {
    if s != [] {
      FilterKeepsAll(s[1..], p);
    }
  }

  /** `Array.prototype.find`: the first element satisfying p, if any. */
  function Find<T>(s: seq<T>, p: T -> bool): (r: Option<T>)
    ensures r.None? <==> forall i :: 0 <= i < |s| ==> !p(s[i])
    ensures r.Some? ==> exists i :: 0 <= i < |s| && s[i] == r.value && p(s[i]) &&
                          forall j :: 0 <= j < i ==> !p(s[j])
  {
    if s == [] then None
    else if p(s[0]) then Some(s[0])
    else
      var r := Find(s[1..], p);
      assert forall i :: 1 <= i < |s| ==> s[i] == s[1..][i - 1];
      r
  }

  /** The index version of Find, `Array.prototype.findIndex` (-1 when absent). */
  function FindIndex<T>(s: seq<T>, p: T -> bool): (i: int)
    ensures -1 <= i < |s|
    ensures i == -1 <==> forall j :: 0 <= j < |s| ==> !p(s[j])
    ensures i >= 0 ==> p(s[i]) && forall j :: 0 <= j < i ==> !p(s[j])
  {
    if s == [] then -1
    else if p(s[0]) then 0
    else
      var k := FindIndex(s[1..], p);
      assert forall j :: 1 <= j < |s| ==> s[j] == s[1..][j - 1];
      if k == -1 then -1 else k + 1
  }

  /** `String.prototype.split(sep)` with a one-character separator: every
      occurrence of sep ends a piece, so "a  b" gives three pieces. */
  function Split(s: string, sep: char): (parts: seq<string>)
    ensures |parts| > 0
    ensures forall i :: 0 <= i < |parts| ==> sep !in parts[i]
  {
    if s == [] then [""]
    else
      var rest := Split(s[1..], sep);
      if s[0] == sep then [""] + rest
      else [[s[0]] + rest[0]] + rest[1..]
  }

  /** There is one more piece than there are separators. */
  lemma {:induction false} SplitCount(s: string, sep: char)
    ensures |Split(s, sep)| == multiset(s)[sep] + 1
  {
    if s != [] {
      SplitCount(s[1..], sep);
      assert s == [s[0]] + s[1..];
      assert multiset(s) == multiset{s[0]} + multiset(s[1..]);
    }
  }

  /** `Array.prototype.join(sep)`, the inverse of Split. */
  function Join(parts: seq<string>, sep: char): string
    requires |parts| > 0
  {
    if |parts| == 1 then parts[0] else parts[0] + [sep] + Join(parts[1..], sep)
  }

  lemma {:induction false} JoinSplit(s: string, sep: char)
    ensures Join(Split(s, sep), sep) == s
  {
    if s != [] {
      JoinSplit(s[1..], sep);
      if s[0] == sep {
        JoinSplitAtSeparator(s, sep);
      } else {
        JoinSplitAtChar(s, sep);
      }
    }
  }

  lemma JoinSplitAtSeparator(s: string, sep: char)
    requires s != [] && s[0] == sep && Join(Split(s[1..], sep), sep) == s[1..]
    ensures Join(Split(s, sep), sep) == s
  {
    var rest := Split(s[1..], sep);
    var parts := [""] + rest;
    assert Split(s, sep) == parts;
    assert parts[1..] == rest;
    assert Join(parts, sep) == "" + [sep] + Join(rest, sep);
    assert [s[0]] + s[1..] == s;
  }

  lemma JoinSplitAtChar(s: string, sep: char)
    requires s != [] && s[0] != sep && Join(Split(s[1..], sep), sep) == s[1..]
    ensures Join(Split(s, sep), sep) == s
  {
    var rest := Split(s[1..], sep);
    assert Split(s, sep) == [[s[0]] + rest[0]] + rest[1..];
    JoinPrepend(s[0], rest, sep);
    assert [s[0]] + s[1..] == s;
  }

  /** Prepending a character to the first piece prepends it to the joined string. */
  lemma JoinPrepend(c: char, parts: seq<string>, sep: char)
    requires |parts| > 0
    ensures Join([[c] + parts[0]] + parts[1..], sep) == [c] + Join(parts, sep)
  {
    var q := [[c] + parts[0]] + parts[1..];
    assert q[0] == [c] + parts[0] && q[1..] == parts[1..];
  }

  lemma {:induction false} SplitJoin(parts: seq<string>, sep: char)
    requires |parts| > 0
    requires forall i :: 0 <= i < |parts| ==> sep !in parts[i]
    ensures Split(Join(parts, sep), sep) == parts
  {
    if |parts| == 1 {
      SplitNoSeparator(parts[0], sep);
    } else {
      SplitJoin(parts[1..], sep);
      SplitConcat(parts[0], Join(parts[1..], sep), sep);
      assert parts == [parts[0]] + parts[1..];
    }
  }

  lemma {:induction false} SplitNoSeparator(s: string, sep: char)
    requires sep !in s
    ensures Split(s, sep) == [s]
  {
    if s != [] {
      SplitNoSeparator(s[1..], sep);
      assert [s[0]] + s[1..] == s;
    }
  }

  lemma {:induction false} SplitConcat(a: string, b: string, sep: char)
    requires sep !in a
    ensures Split(a + [sep] + b, sep) == [a] + Split(b, sep)
  {
    if a == [] {
      assert a + [sep] + b == [sep] + b;
      assert ([sep] + b)[1..] == b;
    } else {
      var s := a + [sep] + b;
      assert s[0] == a[0] && s[1..] == a[1..] + [sep] + b;
      SplitConcat(a[1..], b, sep);
      assert [a[0]] + a[1..] == a;
    }
  }

  /** Sum of a sequence of naturals, by its last element. */
  function Sum(s: seq<nat>): nat
  {
    if s == [] then 0 else Sum(s[..|s| - 1]) + s[|s| - 1]
  }

  lemma SumAppend(s: seq<nat>, x: nat)
    ensures Sum(s + [x]) == Sum(s) + x
  {
    assert (s + [x])[..|s|] == s;
  }

  lemma {:induction false} SumCons(x: nat, s: seq<nat>)
    ensures Sum([x] + s) == x + Sum(s)
    decreases |s|
  {
    if s == [] {
      assert [x] + s == [x];
    } else {
      var init := s[..|s| - 1];
      SumCons(x, init);
      assert ([x] + s)[..|s|] == [x] + init;
    }
  }
}
