/** Small shared vocabulary: optional values, results, and sums over sequences. */
module Prelude {

  datatype Option<+T> = None | Some(value: T)

  datatype Result<+T, +E> = Ok(value: T) | Err(error: E)

  /** White space and line ends, as `String.prototype.trim` knows them. */
  predicate IsSpace(c: char) {
    var n := c as int;
    || 9 <= n <= 13 || n == 32 || n == 160 || n == 0x1680 || 0x2000 <= n <= 0x200A
    || n == 0x2028 || n == 0x2029 || n == 0x202F || n == 0x205F || n == 0x3000 || n == 0xFEFF
  }

  function TrimLeft(s: string): string {
    if s != "" && IsSpace(s[0]) then TrimLeft(s[1..]) else s
  }

  function TrimRight(s: string): string {
    if s != "" && IsSpace(s[|s| - 1]) then TrimRight(s[..|s| - 1]) else s
  }

  /** `String.prototype.trim`. */
  function Trim(s: string): string {
    TrimRight(TrimLeft(s))
  }

  predicate AllSpace(s: string) {
    forall i :: 0 <= i < |s| ==> IsSpace(s[i])
  }

  lemma {:induction false} TrimLeftDrops(s: string) returns (lead: string)
    ensures s == lead + TrimLeft(s) && AllSpace(lead)
    ensures TrimLeft(s) != "" ==> !IsSpace(TrimLeft(s)[0])
  {
    if s != "" && IsSpace(s[0]) {
      var rest := TrimLeftDrops(s[1..]);
      lead := [s[0]] + rest;
    } else {
      lead := "";
    }
  }

  lemma {:induction false} TrimRightDrops(s: string) returns (tail: string)
    ensures s == TrimRight(s) + tail && AllSpace(tail)
    ensures TrimRight(s) != "" ==> !IsSpace(TrimRight(s)[|TrimRight(s)| - 1])
  {
    if s != "" && IsSpace(s[|s| - 1]) {
      var rest := TrimRightDrops(s[..|s| - 1]);
      tail := rest + [s[|s| - 1]];
    } else {
      tail := "";
    }
  }

  /** Trimming drops white space at both ends, all of it, and nothing else. */
  lemma TrimDropsSpace(s: string) returns (lead: string, tail: string)
    ensures s == lead + Trim(s) + tail && AllSpace(lead) && AllSpace(tail)
    ensures Trim(s) != "" ==> !IsSpace(Trim(s)[0]) && !IsSpace(Trim(s)[|Trim(s)| - 1])
    ensures Trim(s) == "" <==> AllSpace(s)
  {
    lead := TrimLeftDrops(s);
    tail := TrimRightDrops(TrimLeft(s));
    var t := Trim(s);
    assert s == lead + t + tail;
    if t != "" {
      assert TrimLeft(s)[0] == t[0];
      assert s[|lead|] == t[0];
    }
  }

  /** Blank, tab, the line ends, the no-break space and the byte order mark are white space; no printable ASCII character is. */
  lemma WhatIsSpace(c: char)
    ensures c in {' ', '\t', '\n', '\r', 160 as char, 0xFEFF as char} ==> IsSpace(c)
    ensures '!' <= c <= '~' ==> !IsSpace(c)
  {
  }

  function Min(a: int, b: int): int {
    if a <= b then a else b
  }

  function Max(a: int, b: int): int {
    if a >= b then a else b
  }

  function RealMin(a: real, b: real): real {
    if a <= b then a else b
  }

  function IntSum(s: seq<int>): int {
    if s == [] then 0 else IntSum(s[..|s| - 1]) + s[|s| - 1]
  }

  function RealSum(s: seq<real>): real {
    if s == [] then 0.0 else RealSum(s[..|s| - 1]) + s[|s| - 1]
  }

  lemma {:induction false} IntSumUpdate(s: seq<int>, i: nat, v: int)
    requires i < |s|
    ensures IntSum(s[i := v]) == IntSum(s) - s[i] + v
  {
    var front, t := s[..|s| - 1], s[i := v];
    if i == |s| - 1 {
      assert t[..|t| - 1] == front;
    } else {
      assert t[..|t| - 1] == front[i := v];
      IntSumUpdate(front, i, v);
    }
  }

  /** A sequence bounded above pointwise has its sum bounded by length times bound. */
  lemma {:induction false} IntSumAtMost(s: seq<int>, bound: int)
    requires forall i :: 0 <= i < |s| ==> s[i] <= bound
    ensures IntSum(s) <= |s| * bound
  {
    if s != [] {
      IntSumAtMost(s[..|s| - 1], bound);
    }
  }

  lemma {:induction false} IntSumWithout(s: seq<int>, k: nat)
    requires k < |s|
    ensures IntSum(s[..k] + s[k + 1..]) == IntSum(s) - s[k]
  {
    var front, t := s[..|s| - 1], s[..k] + s[k + 1..];
    if k == |s| - 1 {
      assert t == front;
    } else {
      assert t[..|t| - 1] == front[..k] + front[k + 1..];
      IntSumWithout(front, k);
    }
  }

  lemma {:induction false} RealSumWithout(s: seq<real>, k: nat)
    requires k < |s|
    ensures RealSum(s[..k] + s[k + 1..]) == RealSum(s) - s[k]
  {
    var front, t := s[..|s| - 1], s[..k] + s[k + 1..];
    if k == |s| - 1 {
      assert t == front;
    } else {
      assert t[..|t| - 1] == front[..k] + front[k + 1..];
      RealSumWithout(front, k);
    }
  }
}
