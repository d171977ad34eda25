/**
 * The `std::string` searches and slicing that trace-path parsing uses, with
 * `size_t` positions: `npos` is 2^64 - 1 and arithmetic on positions wraps.
 */
module StdString {
  import opened Bytes

  const NPOS: u64 := 0xFFFF_FFFF_FFFF_FFFF

  /** `size_t` subtraction and addition. */
  function Sub(a: u64, b: u64): u64 { (a - b) % TWO_64 }
  function Add(a: u64, b: u64): u64 { (a + b) % TWO_64 }

  /** The largest position `<= i` holding `c`, or -1. */
  function LastAtOrBefore(s: string, c: char, i: int): (r: int)
    requires -1 <= i < |s|
    ensures -1 <= r <= i
    ensures r >= 0 ==> s[r] == c
    ensures forall j :: r < j <= i ==> s[j] != c
    decreases i + 1
  {
    if i < 0 then -1 else if s[i] == c then i else LastAtOrBefore(s, c, i - 1)
  }

  /** The smallest position `>= i` holding `c`, or `|s|`. */
  function FirstAtOrAfter(s: string, c: char, i: nat): (r: nat)
    requires i <= |s|
    ensures i <= r <= |s|
    ensures r < |s| ==> s[r] == c
    ensures forall j :: i <= j < r ==> s[j] != c
    decreases |s| - i
  {
    if i == |s| then |s| else if s[i] == c then i else FirstAtOrAfter(s, c, i + 1)
  }

  /** `s.rfind(c, pos)`: the last `c` at or before `pos`; `npos` if there is none. */
  function RFind(s: string, c: char, pos: u64): (r: u64)
    requires |s| < NPOS
    ensures r != NPOS ==> r < |s| && r <= pos && s[r] == c
    ensures r != NPOS ==> forall j :: r < j < |s| && j <= pos ==> s[j] != c
    ensures r == NPOS ==> forall j :: 0 <= j < |s| && j <= pos ==> s[j] != c
  {
    if |s| == 0 then NPOS
    else
      var last := LastAtOrBefore(s, c, if pos < |s| then pos else |s| - 1);
      if last < 0 then NPOS else last
  }

  /** `s.find(c, pos)`: the first `c` at or after `pos`; `npos` if there is none. */
  function Find(s: string, c: char, pos: u64): (r: u64)
    requires |s| < NPOS
    ensures r != NPOS ==> pos <= r < |s| && s[r] == c
    ensures r != NPOS ==> forall j :: pos <= j < r ==> s[j] != c
    ensures r == NPOS ==> forall j :: pos <= j < |s| ==> s[j] != c
  {
    if pos >= |s| then NPOS
    else
      var first := FirstAtOrAfter(s, c, pos);
      if first == |s| then NPOS else first
  }

  /** `s.find_last_of(c)`: the last `c` of the string; `npos` if there is none. */
  function FindLastOf(s: string, c: char): (r: u64)
    requires |s| < NPOS
    ensures r != NPOS ==> r < |s| && s[r] == c && forall j :: r < j < |s| ==> s[j] != c
    ensures r == NPOS ==> forall j :: 0 <= j < |s| ==> s[j] != c
  {
    RFind(s, c, NPOS)
  }

  /** `s.substr(pos, n)` for `pos <= |s|`: at most `n` characters from `pos`. */
  function Substr(s: string, pos: u64, n: u64): (r: string)
    requires pos <= |s|
    ensures |r| <= n && pos + |r| <= |s| && r == s[pos .. pos + |r|]
    ensures |r| == n || pos + |r| == |s|
  {
    if n < |s| - pos then s[pos .. pos + n] else s[pos..]
  }
}
