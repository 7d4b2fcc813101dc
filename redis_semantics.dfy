/** Value-level meaning of the two Redis list commands whose result is more than an append:
    LREM with a count of -1 and LRANGE with Redis's inclusive, possibly negative, indices. */
module RedisSemantics {

  /** The index of the last occurrence of `x`, or -1. */
  function LastIndexOf<T(==)>(s: seq<T>, x: T): (i: int)
    ensures -1 <= i < |s|
    ensures i == -1 <==> x !in s
    ensures 0 <= i ==> s[i] == x && x !in s[i + 1..]
  {
    if s == [] then -1
    else if s[|s| - 1] == x then |s| - 1
    else
      var i := LastIndexOf(s[..|s| - 1], x);
      assert i >= 0 ==> s[i + 1..] == s[..|s| - 1][i + 1..] + [s[|s| - 1]];
      i
  }

  /** `LREM key -1 x`: removes the occurrence of `x` nearest the tail, if there is one, and keeps
      every other element in place. */
  function LRemFromTail<T(==)>(s: seq<T>, x: T): (r: seq<T>)
    ensures x !in s ==> r == s
    ensures x in s ==> exists i :: 0 <= i < |s| && s[i] == x && x !in s[i + 1..] && r == s[..i] + s[i + 1..]
    ensures multiset(r) == multiset(s) - multiset{x}
    ensures |r| == if x in s then |s| - 1 else |s|
  {
    var i := LastIndexOf(s, x);
    if i == -1 then s
    else
      assert s == s[..i] + [s[i]] + s[i + 1..];
      s[..i] + s[i + 1..]
  }

  /** `LRANGE key start stop`: negative indices count from the tail, `stop` is inclusive, a start
      past the end or after `stop` gives the empty list, a stop past the end is clamped. */
  function LRange<T>(s: seq<T>, start: int, stop: int): (r: seq<T>)
    ensures |r| <= |s|
    ensures exists a, b :: 0 <= a <= b <= |s| && r == s[a..b]
    ensures 0 <= start <= stop < |s| ==> r == s[start..stop + 1]
    ensures start == 0 && stop == -1 ==> r == s
    ensures start >= |s| ==> r == []
    ensures 0 <= stop < start ==> r == []
    ensures 0 <= start <= |s| && (stop == -1 || stop >= |s|) ==> r == s[start..]
    ensures -|s| <= start < 0 && stop == -1 ==> r == s[|s| + start..]
    ensures 0 <= start && -|s| <= stop < 0 ==>
              r == if start <= |s| + stop then s[start..|s| + stop + 1] else []
    ensures -|s| <= start < 0 && -|s| <= stop < 0 ==>
              r == if start <= stop then s[|s| + start..|s| + stop + 1] else []
    ensures start < -|s| && 0 <= stop < |s| ==> r == s[..stop + 1]
    ensures start < -|s| && stop >= |s| ==> r == s
    ensures start < -|s| && -|s| <= stop < 0 ==> r == s[..|s| + stop + 1]
    ensures stop < -|s| ==> r == []
  {
    var n := |s|;
    var a := if start < 0 then start + n else start;
    var b := if stop < 0 then stop + n else stop;
    var a := if a < 0 then 0 else a;
    if a > b || a >= n then
      assert s[0..0] == [];
      []
    else
      var b := if b >= n then n - 1 else b;
      s[a..b + 1]
  }
}
