/** Octets, and the integers that Go packs into them. */
module Bytes {
  type Byte = x: int | 0 <= x < 256
  type Octets = seq<Byte>

  const TWO63 := 0x8000_0000_0000_0000
  const TWO64 := 0x1_0000_0000_0000_0000

  // value<<8 | octet in a 64-bit signed int: the upper bits are lost.
  function Append8(value: int, octet: Byte): int {
    (value * 256 + octet + TWO63) % TWO64 - TWO63
  }

  lemma Append8Small(value: int, octet: Byte)
    requires 0 <= value < 0x80_0000_0000_0000
    ensures Append8(value, octet) == value * 256 + octet
  {}

  function Fold(value: int, octets: Octets): int {
    if octets == [] then value else Append8(Fold(value, octets[..|octets| - 1]), octets[|octets| - 1])
  }

  // The unsigned big-endian value.
  function BigEndian(octets: Octets): nat {
    if octets == [] then 0 else BigEndian(octets[..|octets| - 1]) * 256 + octets[|octets| - 1]
  }

  function Pow256(n: nat): nat {
    if n == 0 then 1 else 256 * Pow256(n - 1)
  }

  lemma {:induction false} BigEndianBound(octets: Octets)
    ensures BigEndian(octets) < Pow256(|octets|)
  {
    if octets != [] { BigEndianBound(octets[..|octets| - 1]); }
  }

  lemma FoldAppend(value: int, octets: Octets, octet: Byte)
    ensures Fold(value, octets + [octet]) == Append8(Fold(value, octets), octet)
    ensures BigEndian(octets + [octet]) == BigEndian(octets) * 256 + octet
  {
    assert (octets + [octet])[..|octets|] == octets;
  }

  // Up to seven octets nothing is lost.
  lemma {:induction false} FoldIsBigEndian(octets: Octets)
    requires |octets| <= 7
    ensures Fold(0, octets) == BigEndian(octets) < Pow256(|octets|)
  {
    BigEndianBound(octets);
    if octets != [] {
      var front := octets[..|octets| - 1];
      FoldIsBigEndian(front);
      assert Pow256(|octets|) <= Pow256(7) by { PowGrows(|octets|, 7); }
      assert Pow256(7) == 0x100_0000_0000_0000;
    }
  }

  lemma {:induction false} PowGrows(m: nat, n: nat)
    requires m <= n
    ensures 1 <= Pow256(m) <= Pow256(n)
  {
    if n > 0 {
      if m < n { PowGrows(m, n - 1); } else { PowGrows(m - 1, n - 1); }
    }
  }

  function Flatten(parts: seq<Octets>): Octets {
    if parts == [] then [] else parts[0] + Flatten(parts[1..])
  }

  lemma {:induction false} FlattenAppends(front: seq<Octets>, back: seq<Octets>)
    ensures Flatten(front + back) == Flatten(front) + Flatten(back)
  {
    if front == [] {
      assert front + back == back;
    } else {
      assert (front + back)[1..] == front[1..] + back;
      FlattenAppends(front[1..], back);
    }
  }

  lemma Slices(data: Octets, from: nat, to: nat, a: nat, b: nat)
    requires from <= to <= |data| && a <= b <= to - from
    ensures data[from..to][a..b] == data[from + a..from + b]
  {
    var left, right := data[from..to][a..b], data[from + a..from + b];
    assert |left| == |right|;
    forall k | 0 <= k < |left| ensures left[k] == right[k] {
      assert data[from..to][a + k] == data[from + a + k];
    }
  }

  lemma Regroup(before: Octets, header: Octets, content: Octets, after: Octets)
    ensures before + (header + content) + after == (before + header) + content + after
    ensures (before + (header + content) + after)[|before|..|before| + |header|] == header
    ensures (before + (header + content) + after)[|before|..|before| + |header + content|] == header + content
  {}
}
