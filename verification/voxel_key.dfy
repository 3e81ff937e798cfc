/** The string key the builder's voxel tables use for a grid cell:
    the three coordinates in decimal, separated by `|`. The decoder below is
    not part of the program; it exists to show that distinct cells never
    share a key, so keying by the string and keying by the coordinate
    triple are the same thing. */
module VoxelKey {
  import opened Outcomes

  const SEP: char := '|'

  function DigitChar(d: nat): char
    requires d < 10
  {
    "0123456789"[d]
  }

  predicate IsDigit(c: char)
  {
    '0' <= c <= '9'
  }

  function DigitValue(c: char): nat
  {
    if IsDigit(c) then (c as int - '0' as int) as nat else 0
  }

  /** Decimal rendering of a natural number, most significant digit first. */
  function NatToString(n: nat): (s: string)
    ensures |s| >= 1
    ensures forall i :: 0 <= i < |s| ==> IsDigit(s[i])
    decreases n
  {
    if n < 10 then [DigitChar(n)] else NatToString(n / 10) + [DigitChar(n % 10)]
  }

  /** Decimal rendering of an integer, with a leading `-` when negative. */
  function IntToString(i: int): (s: string)
    ensures SEP !in s
  {
    if i < 0 then "-" + NatToString(-i) else NatToString(i)
  }

  /** `key(x, y, z)` of the builder: the key decodes back to the cell it
      was built from. */
  function Key(x: int, y: int, z: int): (k: string)
    ensures DecodeKey(k) == Some((x, y, z))
  {
    var xs, ys, zs := IntToString(x), IntToString(y), IntToString(z);
    var k := xs + [SEP] + ys + [SEP] + zs;
    assert k == xs + [SEP] + (ys + [SEP] + zs);
    SplitFindsFirstSep(xs, ys + [SEP] + zs);
    SplitFindsFirstSep(ys, zs);
    ParseIntInverts(x);
    ParseIntInverts(y);
    ParseIntInverts(z);
    k
  }

  function ParseNat(s: string): nat
    decreases |s|
  {
    if |s| == 0 then 0 else ParseNat(s[..|s| - 1]) * 10 + DigitValue(s[|s| - 1])
  }

  function ParseInt(s: string): int
  {
    if |s| > 0 && s[0] == '-' then -(ParseNat(s[1..]) as int) else ParseNat(s)
  }

  lemma {:induction false} ParseNatInverts(n: nat)
    ensures ParseNat(NatToString(n)) == n
    decreases n
  {
    if n >= 10 {
      var s := NatToString(n);
      assert s[..|s| - 1] == NatToString(n / 10);
      ParseNatInverts(n / 10);
    }
  }

  /** Parsing undoes the decimal rendering. */
  lemma ParseIntInverts(i: int)
    ensures ParseInt(IntToString(i)) == i
  {
    var s := IntToString(i);
    if i < 0 {
      var digits := NatToString(-i);
      assert s == "-" + digits;
      assert s[0] == '-' && s[1..] == digits;
      ParseNatInverts(-i);
    } else {
      assert s == NatToString(i);
      assert IsDigit(s[0]);
      ParseNatInverts(i);
    }
  }

  /** The text before the first separator and the text after it, if any. */
  function SplitAtSep(s: string): Option<(string, string)>
    decreases |s|
  {
    if |s| == 0 then None
    else if s[0] == SEP then Some(([], s[1..]))
    else match SplitAtSep(s[1..])
      case None => None
      case Some((head, tail)) => Some(([s[0]] + head, tail))
  }

  lemma {:induction false} SplitFindsFirstSep(head: string, tail: string)
    requires SEP !in head
    ensures SplitAtSep(head + [SEP] + tail) == Some((head, tail))
    decreases |head|
  {
    var s := head + [SEP] + tail;
    if |head| == 0 {
      assert s[1..] == tail;
    } else {
      assert s[1..] == head[1..] + [SEP] + tail;
      SplitFindsFirstSep(head[1..], tail);
      assert [s[0]] + head[1..] == head;
    }
  }

  /** Read a key back into its coordinates. */
  function DecodeKey(k: string): Option<(int, int, int)>
  {
    match SplitAtSep(k)
    case None => None
    case Some((xs, rest)) =>
      match SplitAtSep(rest)
      case None => None
      case Some((ys, zs)) => Some((ParseInt(xs), ParseInt(ys), ParseInt(zs)))
  }

  /** Two cells share a key only if they are the same cell, so a table
      keyed by `key(x, y, z)` holds at most one voxel per cell. */
  lemma KeyInjective(x: int, y: int, z: int, x': int, y': int, z': int)
    requires Key(x, y, z) == Key(x', y', z')
    ensures x == x' && y == y' && z == z'
  {
  }
}
