/**
  Fixed-width integers and the byte orders both archive formats use:
  DAT1 stores its integers big-endian, DAT2 little-endian.
*/
module Bytes {

  type u8 = x: int | 0 <= x < 0x100
  type u16 = x: int | 0 <= x < 0x1_0000
  type u32 = x: int | 0 <= x < 0x1_0000_0000
  type u64 = x: int | 0 <= x < 0x1_0000_0000_0000_0000

  /** `n as u8`: the low eight bits. */
  function AsU8(n: nat): (r: u8)
    ensures n < 0x100 ==> r == n
  {
    n % 0x100
  }

  /** `n as u32`: the low 32 bits. */
  function AsU32(n: nat): (r: u32)
    ensures n < 0x1_0000_0000 ==> r == n
  {
    n % 0x1_0000_0000
  }

  /** `write_u32::<LittleEndian>` */
  function U32LE(x: u32): (r: seq<u8>)
    ensures |r| == 4
  {
    [x % 0x100, x / 0x100 % 0x100, x / 0x1_0000 % 0x100, x / 0x100_0000]
  }

  /** `read_u32::<LittleEndian>` at position `pos` */
  function ReadU32LE(s: seq<u8>, pos: nat): u32
    requires pos + 4 <= |s|
  {
    (s[pos] as int) + 0x100 * (s[pos + 1] as int) + 0x1_0000 * (s[pos + 2] as int)
      + 0x100_0000 * (s[pos + 3] as int)
  }

  /** The `n` low base-256 digits of `x`, the most significant first. */
  function BigEndianDigits(x: nat, n: nat): (r: seq<u8>)
    ensures |r| == n
    decreases n
  {
    if n == 0 then [] else BigEndianDigits(x / 0x100, n - 1) + [x % 0x100]
  }

  /** `write_u32::<BigEndian>` */
  function U32BE(x: u32): (r: seq<u8>)
    ensures |r| == 4
  {
    BigEndianDigits(x, 4)
  }

  /** The four bytes of `write_u32::<BigEndian>`, written out. */
  lemma U32BEBytes(x: u32)
    ensures U32BE(x) == [x / 0x100_0000, x / 0x1_0000 % 0x100, x / 0x100 % 0x100, x % 0x100]
  {
    var a := x / 0x100;
    var b := a / 0x100;
    assert b == x / 0x1_0000 && b / 0x100 == x / 0x100_0000;
    assert BigEndianDigits(x / 0x100_0000, 0) == [];
    assert BigEndianDigits(b, 2) == BigEndianDigits(x / 0x100_0000, 1) + [b % 0x100];
  }

  /** `read_u32::<BigEndian>` at position `pos` */
  function ReadU32BE(s: seq<u8>, pos: nat): u32
    requires pos + 4 <= |s|
  {
    0x100_0000 * (s[pos] as int) + 0x1_0000 * (s[pos + 1] as int) + 0x100 * (s[pos + 2] as int)
      + (s[pos + 3] as int)
  }

  /** Appending is associative; stated once so that proofs need not look inside the parts. */
  lemma AppendAssoc<T>(a: seq<T>, b: seq<T>, c: seq<T>)
    ensures (a + b) + c == a + (b + c)
  {
  }

  /** `read_i16::<BigEndian>`: two's complement, so the result lies in [-0x8000, 0x8000). */
  function ReadI16BE(s: seq<u8>, pos: nat): (n: int)
    requires pos + 2 <= |s|
    ensures -0x8000 <= n < 0x8000
  {
    var v := 0x100 * (s[pos] as int) + (s[pos + 1] as int);
    if v < 0x8000 then v else v - 0x1_0000
  }

  /** The two bytes a big-endian `i16` is stored as. */
  function I16BE(n: int): (r: seq<u8>)
    requires -0x8000 <= n < 0x8000
    ensures |r| == 2
  {
    var v := if n < 0 then n + 0x1_0000 else n;
    [v / 0x100, v % 0x100]
  }

  /** The four base-256 digits of a `u32` put it back together. */
  lemma Digits(x: u32)
    ensures x == x % 0x100 + 0x100 * (x / 0x100 % 0x100) + 0x1_0000 * (x / 0x1_0000 % 0x100)
                 + 0x100_0000 * (x / 0x100_0000)
  {
    var a := x / 0x100;
    var b := a / 0x100;
    var c := b / 0x100;
    assert x == x % 0x100 + 0x100 * a;
    assert a == a % 0x100 + 0x100 * b;
    assert b == b % 0x100 + 0x100 * c;
    assert b == x / 0x1_0000;
    assert c == x / 0x100_0000;
  }

  lemma ReadU32LEOfU32LE(s: seq<u8>, pos: nat, x: u32)
    requires pos + 4 <= |s| && s[pos..pos + 4] == U32LE(x)
    ensures ReadU32LE(s, pos) == x
  {
    assert s[pos] == U32LE(x)[0] && s[pos + 1] == U32LE(x)[1];
    assert s[pos + 2] == U32LE(x)[2] && s[pos + 3] == U32LE(x)[3];
    Digits(x);
  }

  lemma ReadU32BEOfU32BE(s: seq<u8>, pos: nat, x: u32)
    requires pos + 4 <= |s| && s[pos..pos + 4] == U32BE(x)
    ensures ReadU32BE(s, pos) == x
  {
    U32BEBytes(x);
    assert s[pos] == U32BE(x)[0] && s[pos + 1] == U32BE(x)[1];
    assert s[pos + 2] == U32BE(x)[2] && s[pos + 3] == U32BE(x)[3];
    Digits(x);
  }

  lemma ReadI16BEOfI16BE(s: seq<u8>, pos: nat, n: int)
    requires -0x8000 <= n < 0x8000
    requires pos + 2 <= |s| && s[pos..pos + 2] == I16BE(n)
    ensures ReadI16BE(s, pos) == n
  {
    assert s[pos] == I16BE(n)[0] && s[pos + 1] == I16BE(n)[1];
  }

  /** A window of `s` that holds `a + b` holds `a`, then `b`. */
  lemma SplitWindow<T>(s: seq<T>, pos: nat, a: seq<T>, b: seq<T>)
    requires pos + |a| + |b| <= |s| && s[pos..pos + |a| + |b|] == a + b
    ensures s[pos..pos + |a|] == a
    ensures s[pos + |a|..pos + |a| + |b|] == b
  {
    assert s[pos..pos + |a|] == (a + b)[..|a|];
    assert s[pos + |a|..pos + |a| + |b|] == (a + b)[|a|..];
  }

  /** Where each of six concatenated pieces lies in the whole. */
  lemma Windows<T>(a: seq<T>, b: seq<T>, c: seq<T>, d: seq<T>, e: seq<T>, f: seq<T>)
    ensures var r := a + b + c + d + e + f;
            var p1 := |a|;
            var p2 := p1 + |b|;
            var p3 := p2 + |c|;
            var p4 := p3 + |d|;
            var p5 := p4 + |e|;
            && r[..p1] == a && r[p1..p2] == b && r[p2..p3] == c
            && r[p3..p4] == d && r[p4..p5] == e && r[p5..] == f
  {
  }

  /** A window of `s` that holds `w` holds each slice of `w`. */
  lemma SliceInside<T>(s: seq<T>, at: nat, w: seq<T>, p: nat, q: nat)
    requires at + |w| <= |s| && s[at..at + |w|] == w && p <= q <= |w|
    ensures s[at + p..at + q] == w[p..q]
  {
    forall k | 0 <= k < q - p ensures s[at + p..at + q][k] == w[p..q][k] {
      assert s[at + p + k] == s[at..at + |w|][p + k];
    }
  }

  lemma ByteInside<T>(s: seq<T>, at: nat, w: seq<T>, p: nat)
    requires at + |w| <= |s| && s[at..at + |w|] == w && p < |w|
    ensures s[at + p] == w[p]
  {
    assert s[at + p] == s[at..at + |w|][p];
  }

  /** Byte strings laid end to end, as a writer appends them. */
  function Concat(parts: seq<seq<u8>>): seq<u8>
    decreases |parts|
  {
    if parts == [] then [] else parts[0] + Concat(parts[1..])
  }

  lemma {:induction false} ConcatAppend(a: seq<seq<u8>>, b: seq<seq<u8>>)
    ensures Concat(a + b) == Concat(a) + Concat(b)
    decreases |a|
  {
    if a == [] {
      assert a + b == b;
    } else {
      assert (a + b)[1..] == a[1..] + b;
      ConcatAppend(a[1..], b);
    }
  }

  /** Appending one more part appends its bytes. */
  lemma ConcatCons(first: seq<u8>, rest: seq<seq<u8>>)
    ensures Concat([first] + rest) == first + Concat(rest)
  {
    assert ([first] + rest)[1..] == rest;
  }

  lemma ConcatSnoc(parts: seq<seq<u8>>, last: seq<u8>)
    ensures Concat(parts + [last]) == Concat(parts) + last
  {
    ConcatAppend(parts, [last]);
    assert Concat([last]) == last + Concat([]);
  }

  /** Part `i` sits right after the parts before it. */
  lemma ConcatAt(parts: seq<seq<u8>>, i: nat)
    requires i < |parts|
    ensures |Concat(parts[..i])| + |parts[i]| <= |Concat(parts)|
    ensures Concat(parts)[|Concat(parts[..i])|..|Concat(parts[..i])| + |parts[i]|] == parts[i]
  {
    assert parts == parts[..i] + parts[i..];
    ConcatAppend(parts[..i], parts[i..]);
    assert Concat(parts[i..]) == parts[i] + Concat(parts[i + 1..]);
  }

  /** Where each of `parts` starts, and where the last ends, when they are laid end to end from `at`. */
  function Bounds(parts: seq<seq<u8>>, at: nat): (r: seq<nat>)
    ensures |r| == |parts| + 1 && r[0] == at
    decreases |parts|
  {
    if parts == [] then [at] else [at] + Bounds(parts[1..], at + |parts[0]|)
  }

  lemma {:induction false} BoundsAt(parts: seq<seq<u8>>, at: nat, j: nat)
    requires j <= |parts|
    ensures Bounds(parts, at)[j] == at + |Concat(parts[..j])|
    decreases j
  {
    if j > 0 {
      BoundsAt(parts[1..], at + |parts[0]|, j - 1);
      assert parts[..j] == [parts[0]] + parts[1..][..j - 1];
      assert Concat(parts[..j]) == parts[0] + Concat(parts[1..][..j - 1]);
    }
  }

  /** `s` holds each of `parts` from its bound `ps[j]` to the next. */
  predicate LaidOut(s: seq<u8>, ps: seq<nat>, parts: seq<seq<u8>>) {
    |ps| == |parts| + 1
    && forall j {:trigger parts[j]} :: 0 <= j < |parts| ==> ps[j] + |parts[j]| == ps[j + 1] <= |s| && s[ps[j]..ps[j + 1]] == parts[j]
  }

  lemma PieceLaid(s: seq<u8>, at: nat, parts: seq<seq<u8>>, j: nat)
    requires at + |Concat(parts)| <= |s| && s[at..at + |Concat(parts)|] == Concat(parts)
    requires j < |parts|
    ensures var ps := Bounds(parts, at);
            ps[j] + |parts[j]| == ps[j + 1] <= |s| && s[ps[j]..ps[j + 1]] == parts[j]
  {
    var p := |Concat(parts[..j])|;
    BoundsAt(parts, at, j);
    BoundsAt(parts, at, j + 1);
    assert parts[..j + 1] == parts[..j] + [parts[j]];
    ConcatSnoc(parts[..j], parts[j]);
    ConcatAt(parts, j);
    SliceInside(s, at, Concat(parts), p, p + |parts[j]|);
  }

  /** Parts laid end to end from `at` sit between their bounds, the last ending where the whole does. */
  lemma PiecesLaid(s: seq<u8>, at: nat, parts: seq<seq<u8>>)
    requires at + |Concat(parts)| <= |s| && s[at..at + |Concat(parts)|] == Concat(parts)
    ensures LaidOut(s, Bounds(parts, at), parts)
    ensures Bounds(parts, at)[|parts|] == at + |Concat(parts)|
  {
    var ps := Bounds(parts, at);
    forall j {:trigger parts[j]} | 0 <= j < |parts|
      ensures ps[j] + |parts[j]| == ps[j + 1] <= |s| && s[ps[j]..ps[j + 1]] == parts[j]
    {
      PieceLaid(s, at, parts, j);
    }
    BoundsAt(parts, at, |parts|);
    assert parts[..|parts|] == parts;
    assert LaidOut(s, ps, parts);
  }

  /** Two runs of parts laid one after the other from `at`, each between its own bounds. */
  lemma RunsLaid(s: seq<u8>, at: nat, xs: seq<seq<u8>>, ys: seq<seq<u8>>) returns (ps: seq<nat>, qs: seq<nat>)
    requires at + |Concat(xs)| + |Concat(ys)| <= |s|
    requires s[at..at + |Concat(xs)|] == Concat(xs)
    requires s[at + |Concat(xs)|..at + |Concat(xs)| + |Concat(ys)|] == Concat(ys)
    ensures LaidOut(s, ps, xs) && ps[0] == at && LaidOut(s, qs, ys) && qs[0] == ps[|xs|]
  {
    ps := Bounds(xs, at);
    qs := Bounds(ys, at + |Concat(xs)|);
    assert LaidOut(s, qs, ys) by {
      PiecesLaid(s, at + |Concat(xs)|, ys);
    }
    PiecesLaid(s, at, xs);
  }
}
