/** The string operations the programs take from .NET: `String.Split`,
    `String.Join` and the decimal rendering of an unsigned integer. */
module Text {

  /** `s.Split(sep)`: cut `s` at every occurrence of `sep`, scanning left to
      right and never letting two occurrences overlap. An empty separator
      leaves the string whole. There is always at least one piece. */
  function Split(s: string, sep: string): (r: seq<string>)
    ensures |r| >= 1
    decreases |s|
  {
    if |sep| == 0 || |s| < |sep| then [s]
    else if s[..|sep|] == sep then [""] + Split(s[|sep|..], sep)
    else
      var rest := Split(s[1..], sep);
      [[s[0]] + rest[0]] + rest[1..]
  }

  /** `String.Join(sep, parts)`: the parts with `sep` between neighbours. */
  function Join(sep: string, parts: seq<string>): string
    decreases |parts|
  {
    if |parts| == 0 then ""
    else if |parts| == 1 then parts[0]
    else parts[0] + sep + Join(sep, parts[1..])
  }

  /** Number of occurrences of `c` in `s`. */
  function Occurrences(s: string, c: char): nat
  {
    if |s| == 0 then 0
    else (if s[0] == c then 1 else 0) + Occurrences(s[1..], c)
  }

  /** Total number of characters in `parts`. */
  function TotalLength(parts: seq<string>): nat
  {
    if |parts| == 0 then 0 else |parts[0]| + TotalLength(parts[1..])
  }

  /** Extending the first part of a join extends the joined string. */
  lemma {:induction false} JoinExtendFirst(sep: string, a: string, b: string, rest: seq<string>)
    ensures Join(sep, [a + b] + rest) == a + Join(sep, [b] + rest)
  {
    assert ([a + b] + rest)[1..] == rest;
    assert ([b] + rest)[1..] == rest;
  }

  /** Joining the pieces of a split gives back the original string, whatever
      the separator. */
  lemma {:induction false} JoinSplit(s: string, sep: string)
    ensures Join(sep, Split(s, sep)) == s
    decreases |s|
  {
    if |sep| == 0 || |s| < |sep| {
    } else if s[..|sep|] == sep {
      var rest := Split(s[|sep|..], sep);
      JoinSplit(s[|sep|..], sep);
      assert ([""] + rest)[1..] == rest;
      assert s == s[..|sep|] + s[|sep|..];
    } else {
      var rest := Split(s[1..], sep);
      JoinSplit(s[1..], sep);
      assert [[s[0]] + rest[0]] + rest[1..] == Split(s, sep);
      JoinExtendFirst(sep, [s[0]], rest[0], rest[1..]);
      assert [rest[0]] + rest[1..] == rest;
      assert s == [s[0]] + s[1..];
    }
  }

  /** `sep` occurs in `s` starting at position `i`. */
  predicate OccursAt(s: string, sep: string, i: nat)
  {
    i + |sep| <= |s| && s[i..i + |sep|] == sep
  }

  /** No occurrence of `sep` lies inside `s`. */
  predicate Absent(s: string, sep: string)
  {
    forall i: nat :: i < |s| ==> !OccursAt(s, sep, i)
  }

  /** No occurrence of `sep` begins inside `a`, not even one that runs on
      into a `sep` written after `a`. */
  predicate SeparatorFree(a: string, sep: string)
  {
    forall i: nat :: i < |a| ==> !OccursAt(a + sep, sep, i)
  }

  /** Dropping the first character shifts every occurrence by one. */
  lemma OccursAtTail(s: string, sep: string, i: nat)
    requires |s| >= 1
    ensures OccursAt(s[1..], sep, i) == OccursAt(s, sep, i + 1)
  {
    if i + |sep| <= |s[1..]| {
      assert s[1..][i..i + |sep|] == s[i + 1..i + 1 + |sep|];
    }
  }

  /** A string without the separator is not cut. */
  lemma {:induction false} SplitAbsent(s: string, sep: string)
    requires |sep| > 0 && Absent(s, sep)
    ensures Split(s, sep) == [s]
    decreases |s|
  {
    if |s| >= |sep| {
      assert !OccursAt(s, sep, 0);
      assert s[..|sep|] == s[0..0 + |sep|];
      forall i: nat | i < |s[1..]|
        ensures !OccursAt(s[1..], sep, i)
      {
        OccursAtTail(s, sep, i);
      }
      SplitAbsent(s[1..], sep);
      assert [s[0]] + s[1..] == s;
    }
  }

  /** A field free of the separator, then the separator: the field is the
      first piece and the rest is split on its own. */
  lemma {:induction false} SplitSeparated(a: string, sep: string, b: string)
    requires |sep| > 0 && SeparatorFree(a, sep)
    ensures Split(a + sep + b, sep) == [a] + Split(b, sep)
    decreases |a|
  {
    var s := a + sep + b;
    if |a| == 0 {
      assert s == sep + b;
      assert s[..|sep|] == sep;
      assert s[|sep|..] == b;
    } else {
      assert !OccursAt(a + sep, sep, 0);
      assert s[..|sep|] == (a + sep)[0..0 + |sep|];
      forall i: nat | i < |a[1..]|
        ensures !OccursAt(a[1..] + sep, sep, i)
      {
        assert (a + sep)[1..] == a[1..] + sep;
        OccursAtTail(a + sep, sep, i);
      }
      SplitSeparated(a[1..], sep, b);
      assert s[1..] == a[1..] + sep + b;
      assert [s[0]] + a[1..] == a;
    }
  }

  /** Splitting on a one-character delimiter yields one more piece than the
      delimiter occurs, and no piece contains the delimiter. */
  lemma {:induction false} SplitOnChar(s: string, d: char)
    ensures |Split(s, [d])| == Occurrences(s, d) + 1
    ensures forall k :: 0 <= k < |Split(s, [d])| ==> d !in Split(s, [d])[k]
    decreases |s|
  {
    if |s| < 1 {
    } else if s[..1] == [d] {
      SplitOnChar(s[1..], d);
      assert s[0] == d;
    } else {
      assert s[0] != d;
      SplitOnChar(s[1..], d);
      var rest := Split(s[1..], [d]);
      var r := Split(s, [d]);
      assert r == [[s[0]] + rest[0]] + rest[1..];
      forall k | 0 <= k < |r|
        ensures d !in r[k]
      {
        if k == 0 {
          assert d !in rest[0];
        } else {
          assert r[k] == rest[k];
        }
      }
    }
  }

  /** The length of a join of `n >= 1` parts is the sum of the part lengths
      plus `n - 1` separators. */
  lemma {:induction false} JoinLength(sep: string, parts: seq<string>)
    requires |parts| >= 1
    ensures |Join(sep, parts)| == TotalLength(parts) + |sep| * (|parts| - 1)
    decreases |parts|
  {
    if |parts| == 1 {
      assert TotalLength(parts[1..]) == 0;
    } else {
      JoinLength(sep, parts[1..]);
    }
  }

  /** The character for a decimal digit. */
  function DigitChar(d: nat): (c: char)
    requires d < 10
    ensures '0' <= c <= '9'
  {
    "0123456789"[d]
  }

  /** The numeric value of a string of decimal digits. */
  function DecimalValue(s: string): nat
    requires forall k :: 0 <= k < |s| ==> '0' <= s[k] <= '9'
  {
    if |s| == 0 then 0
    else DecimalValue(s[..|s| - 1]) * 10 + ((s[|s| - 1] as int) - ('0' as int))
  }

  /** `ulong.ToString()`, the same in any culture: the shortest run of decimal
      digits denoting `n`. */
  function NatToString(n: nat): (r: string)
    ensures |r| >= 1
    ensures forall k :: 0 <= k < |r| ==> '0' <= r[k] <= '9'
    ensures |r| > 1 ==> r[0] != '0'
    ensures DecimalValue(r) == n
  {
    if n < 10 then [DigitChar(n)]
    else
      var r := NatToString(n / 10) + [DigitChar(n % 10)];
      assert r[..|r| - 1] == NatToString(n / 10);
      r
  }
}
