/** Bytes as small integers, and the two byte orders the wire formats use. */
module Bytes {

  type byte = x: int | 0 <= x < 256
  type word = x: int | 0 <= x < 65536

  datatype Option<+T> = None | Some(value: T)

  function Min(a: nat, b: nat): nat {
    if a < b then a else b
  }

  /** The low 16 bits of n, most significant byte first (`struct.pack('>H', n)`). */
  function Be16(n: nat): (s: seq<byte>)
    ensures |s| == 2
    ensures n < 65536 ==> U16(s[1], s[0]) == n
  {
    [n / 256 % 256, n % 256]
  }

  /** The low 16 bits of n, least significant byte first (`struct.pack('<H', n)`). */
  function Le16(n: nat): (s: seq<byte>)
    ensures |s| == 2
    ensures n < 65536 ==> U16(s[0], s[1]) == n
  {
    [n % 256, n / 256 % 256]
  }

  function U16(lo: byte, hi: byte): (n: nat)
    ensures n < 65536
    ensures n % 256 == lo && n / 256 == hi
  {
    hi * 256 + lo
  }

  /** `bytes.find`: the first position of b in s, or |s| when there is none. */
  function IndexOf(s: seq<byte>, b: byte): (i: nat)
    ensures i <= |s|
    ensures b !in s[..i]
    ensures i < |s| ==> s[i] == b
  {
    if s == [] || s[0] == b then 0
    else
      assert s[..1 + IndexOf(s[1..], b)] == [s[0]] + s[1..][..IndexOf(s[1..], b)];
      1 + IndexOf(s[1..], b)
  }

  lemma {:induction false} IndexOfAbsent(s: seq<byte>, b: byte)
    requires b !in s
    ensures IndexOf(s, b) == |s|
  {
    if s != [] {
      IndexOfAbsent(s[1..], b);
    }
  }

  /** What follows the mark does not move the first occurrence. */
  lemma {:induction false} IndexOfExtended(s: seq<byte>, more: seq<byte>, b: byte)
    ensures IndexOf(s, b) < |s| ==> IndexOf(s + more, b) == IndexOf(s, b)
    ensures IndexOf(s, b) == |s| ==> IndexOf(s + more, b) == |s| + IndexOf(more, b)
  {
    if s == [] {
      assert s + more == more;
    } else if s[0] != b {
      assert (s + more)[1..] == s[1..] + more;
      IndexOfExtended(s[1..], more, b);
    }
  }

  /** Concatenation of a list of chunks (`b''.join`). */
  function Join<T>(chunks: seq<seq<T>>): seq<T> {
    if chunks == [] then [] else chunks[0] + Join(chunks[1..])
  }

  lemma Regrouped<T>(a: seq<T>, b: seq<T>, c: seq<T>)
    ensures a + (b + c) == (a + b) + c
  {}

  lemma {:induction false} JoinAppend<T>(a: seq<seq<T>>, b: seq<seq<T>>)
    ensures Join(a + b) == Join(a) + Join(b)
  {
    if a == [] {
      assert a + b == b;
    } else {
      assert (a + b)[1..] == a[1..] + b;
      JoinAppend(a[1..], b);
    }
  }
}
