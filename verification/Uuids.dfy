/**
  UUIDs as PostgreSQL stores them: sixteen bytes, printed in the canonical 8-4-4-4-12 form
  (section 4 of RFC 9562) and ordered by their bytes, that is by their big-endian value.
*/
module Uuids {
  import opened Wrappers

  type Byte = b: nat | b < 256

  type Bytes16 = s: seq<Byte> | |s| == 16 witness seq(16, _ => 0)

  datatype Uuid = Uuid(bytes: Bytes16)

  const HEX_DIGITS := "0123456789abcdef"

  function Hex(b: seq<Byte>): (r: string)
    ensures |r| == 2 * |b|
  {
    if b == [] then "" else [HEX_DIGITS[b[0] / 16], HEX_DIGITS[b[0] % 16]] + Hex(b[1..])
  }

  /** The five groups of bytes that hyphens separate: 4, 2, 2, 2 and 6 of them. */
  function Group(u: Uuid, k: nat): seq<Byte>
    requires k < 5
  {
    u.bytes[GroupStart(k)..GroupStart(k + 1)]
  }

  function GroupStart(k: nat): nat {
    if k == 0 then 0 else if k <= 4 then 2 + 2 * k else 16
  }

  /** The canonical form up to group `k`. */
  function Printed(u: Uuid, k: nat): (r: string)
    requires k < 5
    ensures |r| == 2 * GroupStart(k + 1) + k
  {
    if k == 0 then Hex(Group(u, 0)) else Printed(u, k - 1) + "-" + Hex(Group(u, k))
  }

  function UuidString(u: Uuid): string {
    Printed(u, 4)
  }

  function BigEndian(b: seq<Byte>): nat {
    if b == [] then 0 else 256 * BigEndian(b[..|b| - 1]) + b[|b| - 1]
  }

  /** The position of `u` in `ORDER BY id`. */
  function Rank(u: Uuid): nat {
    BigEndian(u.bytes)
  }

  function Pow256(n: nat): nat {
    if n == 0 then 1 else 256 * Pow256(n - 1)
  }

  /** What is assumed of the driver's UUID scanner: it inverts canonical printing. Other spellings are up to it. */
  ghost predicate InvertsPrinting(parse: string -> Option<Uuid>) {
    forall u: Uuid :: parse(UuidString(u)) == Some(u)
  }

  lemma {:induction false} HexInjective(a: seq<Byte>, b: seq<Byte>)
    requires |a| == |b| && Hex(a) == Hex(b)
    ensures a == b
  {
    if a != [] {
      assert Hex(a)[2..] == Hex(a[1..]) && Hex(b)[2..] == Hex(b[1..]);
      HexInjective(a[1..], b[1..]);
      HexDigitInjective(a[0] / 16, b[0] / 16);
      HexDigitInjective(a[0] % 16, b[0] % 16);
      assert Hex(a)[0] == HEX_DIGITS[a[0] / 16] && Hex(a)[1] == HEX_DIGITS[a[0] % 16];
      assert Hex(b)[0] == HEX_DIGITS[b[0] / 16] && Hex(b)[1] == HEX_DIGITS[b[0] % 16];
      assert a[0] == b[0];
      assert a == [a[0]] + a[1..] && b == [b[0]] + b[1..];
    }
  }

  lemma HexDigitInjective(m: nat, n: nat)
    requires m < 16 && n < 16
    ensures HEX_DIGITS[m] == HEX_DIGITS[n] <==> m == n
  {
    assert forall i, j | 0 <= i < j < 16 :: HEX_DIGITS[i] != HEX_DIGITS[j];
  }

  lemma ConcatInjective<T>(a: seq<T>, b: seq<T>, c: seq<T>, d: seq<T>)
    requires a + b == c + d && |a| == |c|
    ensures a == c && b == d
  {
    assert a == (a + b)[..|a|] && c == (c + d)[..|c|];
    assert b == (a + b)[|a|..] && d == (c + d)[|c|..];
  }

  lemma LastGroupInjective(p: string, a: seq<Byte>, q: string, b: seq<Byte>)
    requires p + "-" + Hex(a) == q + "-" + Hex(b) && |p| == |q| && |a| == |b|
    ensures p == q && a == b
  {
    ConcatInjective(p + "-", Hex(a), q + "-", Hex(b));
    ConcatInjective(p, "-", q, "-");
    HexInjective(a, b);
  }

  lemma {:induction false} PrintedInjective(u: Uuid, v: Uuid, k: nat)
    requires k < 5 && Printed(u, k) == Printed(v, k)
    ensures u.bytes[..GroupStart(k + 1)] == v.bytes[..GroupStart(k + 1)]
  {
    GroupsAppend(u, k);
    GroupsAppend(v, k);
    if k == 0 {
      HexInjective(Group(u, 0), Group(v, 0));
    } else {
      LastGroupInjective(Printed(u, k - 1), Group(u, k), Printed(v, k - 1), Group(v, k));
      assert Group(u, k) == Group(v, k);
      PrintedInjective(u, v, k - 1);
    }
  }

  lemma GroupsAppend(u: Uuid, k: nat)
    requires k < 5
    ensures u.bytes[..GroupStart(k + 1)] == u.bytes[..GroupStart(k)] + Group(u, k)
  {
  }

  lemma {:induction false} UuidStringInjective(u: Uuid, v: Uuid)
    requires UuidString(u) == UuidString(v)
    ensures u == v
  {
    PrintedInjective(u, v, 4);
    assert u.bytes[..16] == u.bytes && v.bytes[..16] == v.bytes;
  }

  lemma {:induction false} BigEndianInjective(a: seq<Byte>, b: seq<Byte>)
    requires |a| == |b| && BigEndian(a) == BigEndian(b)
    ensures a == b
  {
    if a != [] {
      BigEndianInjective(a[..|a| - 1], b[..|b| - 1]);
      assert a == a[..|a| - 1] + [a[|a| - 1]] && b == b[..|b| - 1] + [b[|b| - 1]];
    }
  }

  lemma {:induction false} BigEndianBound(b: seq<Byte>)
    ensures BigEndian(b) < Pow256(|b|)
  {
    if b != [] {
      BigEndianBound(b[..|b| - 1]);
    }
  }

  lemma RankInjective(u: Uuid, v: Uuid)
    requires Rank(u) == Rank(v)
    ensures u == v
  {
    BigEndianInjective(u.bytes, v.bytes);
  }

  lemma RankBound(u: Uuid)
    ensures Rank(u) < Pow256(16)
  {
    BigEndianBound(u.bytes);
  }

  // ---------- The canonical form and the order ----------

  /** The value of a lower-case hexadecimal digit. */
  function DigitValue(c: char): Option<nat> {
    if '0' <= c <= '9' then Some(c as int - '0' as int)
    else if 'a' <= c <= 'f' then Some(c as int - 'a' as int + 10)
    else None
  }

  /** Where byte `i` is printed: two digits each, and four hyphens on the way. */
  function Position(i: nat): nat {
    2 * i + if i < 4 then 0 else if i < 6 then 1 else if i < 8 then 2 else if i < 10 then 3 else 4
  }

  lemma HexDigitValue(n: nat)
    requires n < 16
    ensures DigitValue(HEX_DIGITS[n]) == Some(n)
  {
    assert HEX_DIGITS[0..4] == "0123" && HEX_DIGITS[4..8] == "4567" && HEX_DIGITS[8..12] == "89ab";
  }

  lemma {:induction false} HexAt(b: seq<Byte>, i: nat)
    requires i < |b|
    ensures Hex(b)[2 * i] == HEX_DIGITS[b[i] / 16] && Hex(b)[2 * i + 1] == HEX_DIGITS[b[i] % 16]
    decreases |b|
  {
    var head := [HEX_DIGITS[b[0] / 16], HEX_DIGITS[b[0] % 16]];
    assert Hex(b) == head + Hex(b[1..]);
    if i > 0 {
      HexAt(b[1..], i - 1);
      assert Hex(b)[2 * i] == Hex(b[1..])[2 * (i - 1)] && Hex(b)[2 * i + 1] == Hex(b[1..])[2 * (i - 1) + 1];
    }
  }

  /** What is printed up to a group is a prefix of the whole, and a hyphen follows. */
  lemma {:induction false} PrintedPrefix(u: Uuid, k: nat)
    requires k < 5
    ensures Printed(u, k) <= UuidString(u)
    ensures k < 4 ==> UuidString(u)[|Printed(u, k)|] == '-'
    decreases 4 - k
  {
    if k < 4 {
      PrintedPrefix(u, k + 1);
      var p := Printed(u, k);
      assert Printed(u, k + 1) == p + "-" + Hex(Group(u, k + 1));
      assert p <= Printed(u, k + 1) && Printed(u, k + 1)[|p|] == '-';
    }
  }

  /** Byte `j` of group `k`, in the whole string. */
  lemma {:induction false} GroupByteAt(u: Uuid, k: nat, j: nat)
    requires k < 5 && j < |Group(u, k)|
    ensures var s, q, b := UuidString(u), 2 * (GroupStart(k) + j) + k, u.bytes[GroupStart(k) + j];
            q + 1 < |s| && s[q] == HEX_DIGITS[b / 16] && s[q + 1] == HEX_DIGITS[b % 16]
  {
    PrintedPrefix(u, k);
    PrintedByteAt(u, k, j);
  }

  lemma {:induction false} PrintedByteAt(u: Uuid, k: nat, j: nat)
    requires k < 5 && j < |Group(u, k)|
    ensures var p, q, b := Printed(u, k), 2 * (GroupStart(k) + j) + k, Group(u, k)[j];
            q + 1 < |p| && p[q] == HEX_DIGITS[b / 16] && p[q + 1] == HEX_DIGITS[b % 16]
  {
    var p, g, first := Printed(u, k), Hex(Group(u, k)), 2 * GroupStart(k) + k;
    HexAt(Group(u, k), j);
    GroupIsLast(u, k);
    assert |p| - |g| == first;
    assert p[first + 2 * j] == g[2 * j] && p[first + (2 * j + 1)] == g[2 * j + 1];
  }

  lemma GroupIsLast(u: Uuid, k: nat)
    requires k < 5
    ensures var p, g := Printed(u, k), Hex(Group(u, k));
            |p| >= |g| && forall j | 0 <= j < |g| :: p[|p| - |g| + j] == g[j]
  {
  }

  lemma HyphenAt(u: Uuid, k: nat)
    requires k < 4
    ensures |UuidString(u)| == 36 && UuidString(u)[2 * GroupStart(k + 1) + k] == '-'
  {
    PrintedPrefix(u, k);
  }

  /** Thirty-six characters, hyphens at 8, 13, 18 and 23, and every byte as two lower-case digits. */
  lemma {:induction false} PrintingIsCanonical(u: Uuid, i: nat)
    requires i < 16
    ensures var s := UuidString(u);
            && |s| == 36 && s[8] == s[13] == s[18] == s[23] == '-'
            && DigitValue(s[Position(i)]) == Some(u.bytes[i] / 16)
            && DigitValue(s[Position(i) + 1]) == Some(u.bytes[i] % 16)
  {
    HyphenAt(u, 0);
    HyphenAt(u, 1);
    HyphenAt(u, 2);
    HyphenAt(u, 3);
    var k := if i < 4 then 0 else if i < 6 then 1 else if i < 8 then 2 else if i < 10 then 3 else 4;
    GroupByteAt(u, k, i - GroupStart(k));
    HexDigitValue(u.bytes[i] / 16);
    HexDigitValue(u.bytes[i] % 16);
  }

  /** The position in the row order is that of the bytes compared one by one. */
  lemma {:induction false} RankIsLexicographic(u: Uuid, v: Uuid, k: nat)
    requires k < 16 && u.bytes[..k] == v.bytes[..k] && u.bytes[k] < v.bytes[k]
    ensures Rank(u) < Rank(v)
  {
    BigEndianLess(u.bytes, v.bytes, k);
  }

  lemma {:induction false} BigEndianLess(a: seq<Byte>, b: seq<Byte>, k: nat)
    requires |a| == |b| && k < |a| && a[..k] == b[..k] && a[k] < b[k]
    ensures BigEndian(a) < BigEndian(b)
    decreases |a|
  {
    var n := |a| - 1;
    if k < n {
      assert a[..n][..k] == a[..k] && b[..n][..k] == b[..k];
      BigEndianLess(a[..n], b[..n], k);
    } else {
      assert a[..n] == b[..n];
    }
  }
}
