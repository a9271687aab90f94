/** The UTF-8 bytes of a string (section 3 of RFC 3629) and the byte offsets that
    the tokenizer slices at. */
module Utf8 {
  import opened Sequences
  import opened Text

  type Byte = b: int | 0 <= b < 256

  function Encode(c: char): (bs: seq<Byte>)
    ensures 1 <= |bs| <= 4
  {
    var u := c as int;
    if u < 0x80 then [u]
    else if u < 0x800 then [0xC0 + u / 0x40, 0x80 + u % 0x40]
    else if u < 0x10000 then [0xE0 + u / 0x1000, 0x80 + u / 0x40 % 0x40, 0x80 + u % 0x40]
    else [0xF0 + u / 0x40000, 0x80 + u / 0x1000 % 0x40, 0x80 + u / 0x40 % 0x40, 0x80 + u % 0x40]
  }

  /** `char::len_utf8`. */
  function Width(c: char): (n: nat)
    ensures n == |Encode(c)|
  {
    var u := c as int;
    if u < 0x80 then 1 else if u < 0x800 then 2 else if u < 0x10000 then 3 else 4
  }

  function Bytes(s: string): seq<Byte> {
    if s == "" then [] else Encode(s[0]) + Bytes(s[1..])
  }

  /** `str::len`: the number of bytes. */
  function Len(s: string): nat {
    |Bytes(s)|
  }

  /** A continuation byte: 10xxxxxx. */
  predicate IsContinuation(b: Byte) {
    0x80 <= b < 0xC0
  }

  lemma EncodeShape(c: char)
    ensures !IsContinuation(Encode(c)[0])
    ensures forall j :: 1 <= j < |Encode(c)| ==> IsContinuation(Encode(c)[j])
    ensures if c as int < 0x80 then Encode(c) == [c as int] else Encode(c)[0] >= 0xC0
  {
  }

  /** The byte offset of character `k`. */
  function Offset(s: string, k: nat): nat
    requires k <= |s|
  {
    Len(s[..k])
  }

  lemma {:induction false} BytesConcat(s: string, t: string)
    ensures Bytes(s + t) == Bytes(s) + Bytes(t)
  {
    if s == "" {
      assert s + t == t;
    } else {
      hide Encode;
      assert (s + t)[1..] == s[1..] + t;
      BytesConcat(s[1..], t);
      Associate(Encode(s[0]), Bytes(s[1..]), Bytes(t));
    }
  }

  lemma {:induction false} BytesOfSlice(s: string, j: nat, k: nat)
    requires j <= k <= |s|
    ensures Offset(s, j) <= Offset(s, k) <= Len(s)
    ensures Bytes(s[j..k]) == Bytes(s)[Offset(s, j)..Offset(s, k)]
  {
    hide Bytes;
    BytesConcat(s[..j], s[j..k]);
    BytesConcat(s[..k], s[k..]);
    assert s[..j] + s[j..k] == s[..k] && s[..k] + s[k..] == s;
    Middle(Bytes(s[..j]), Bytes(s[j..k]), Bytes(s[k..]));
  }

  /** The bytes of character `k` sit at its offset. */
  lemma CharAt(s: string, k: nat)
    requires k < |s|
    ensures Offset(s, k + 1) == Offset(s, k) + Width(s[k]) <= Len(s)
    ensures Bytes(s)[Offset(s, k)..Offset(s, k + 1)] == Encode(s[k])
    ensures Bytes(s)[Offset(s, k)] == Encode(s[k])[0]
  {
    BytesOfSlice(s, k, k + 1);
    var c := s[k..k + 1];
    assert c == [s[k]] && c[1..] == "";
    assert Bytes(c) == Encode(s[k]) + Bytes("");
    assert Bytes(c) == Encode(s[k]);
    assert Bytes(s)[Offset(s, k)] == Bytes(s)[Offset(s, k)..Offset(s, k + 1)][0];
  }

  lemma OffsetEnds(s: string)
    ensures Offset(s, 0) == 0 && Offset(s, |s|) == Len(s)
  {
    assert s[..|s|] == s && s[..0] == "";
  }

  lemma {:induction false} OffsetStrict(s: string, j: nat, k: nat)
    requires j < k <= |s|
    ensures Offset(s, j) < Offset(s, k)
  {
    CharAt(s, j);
    BytesOfSlice(s, j + 1, k);
  }

  lemma OffsetOrder(s: string, j: nat, k: nat)
    requires j <= |s| && k <= |s|
    ensures Offset(s, j) < Offset(s, k) <==> j < k
    ensures Offset(s, j) == Offset(s, k) <==> j == k
  {
    if j < k {
      OffsetStrict(s, j, k);
    } else if k < j {
      OffsetStrict(s, k, j);
    }
  }

  // ----- char boundaries

  /** `str::is_char_boundary`, which looks at one byte only. */
  predicate IsCharBoundary(bytes: seq<Byte>, i: nat) {
    i == 0 || i == |bytes| || (i < |bytes| && !IsContinuation(bytes[i]))
  }

  ghost predicate IsOffset(s: string, i: nat) {
    exists k :: 0 <= k <= |s| && i == Offset(s, k)
  }

  /** The byte test accepts exactly the offsets of characters. */
  lemma {:induction false} BoundaryIffOffset(s: string, i: nat)
    ensures IsCharBoundary(Bytes(s), i) <==> IsOffset(s, i)
  {
    hide Bytes, Encode, Offset, IsContinuation;
    OffsetEnds(s);
    if IsOffset(s, i) {
      var k :| 0 <= k <= |s| && i == Offset(s, k);
      if k < |s| {
        CharAt(s, k);
        EncodeShape(s[k]);
      }
    } else if i < Len(s) {
      var k := Covering(s, i, |s|);
      CharAt(s, k);
      EncodeShape(s[k]);
      var j := i - Offset(s, k);
      assert Bytes(s)[i] == Bytes(s)[Offset(s, k)..Offset(s, k + 1)][j];
    } else {
      assert i != Len(s);
    }
  }

  /** The character whose bytes cover byte `i`. */
  lemma {:induction false} Covering(s: string, i: nat, n: nat) returns (k: nat)
    requires n <= |s| && i < Offset(s, n)
    ensures k < |s| && Offset(s, k) <= i < Offset(s, k + 1)
    decreases n
  {
    OffsetEnds(s);
    if Offset(s, n - 1) <= i {
      k := n - 1;
    } else {
      k := Covering(s, i, n - 1);
    }
  }

  /** The character at or after byte `i`; at a boundary, the one that starts there. */
  function CharsBefore(s: string, i: nat): (k: nat)
    ensures k <= |s|
  {
    if s == "" || i == 0 then 0
    else 1 + CharsBefore(s[1..], if Width(s[0]) <= i then i - Width(s[0]) else 0)
  }

  lemma {:induction false} CharsBeforeOffset(s: string, k: nat)
    requires k <= |s|
    ensures CharsBefore(s, Offset(s, k)) == k
  {
    if k == 0 {
    } else {
      assert s[..k][1..] == s[1..][..k - 1];
      assert Offset(s, k) == Width(s[0]) + Offset(s[1..], k - 1);
      CharsBeforeOffset(s[1..], k - 1);
    }
  }

  /** `&s[i..j]`, which is defined at char boundaries only. */
  function Slice(s: string, i: nat, j: nat): (r: string)
    requires IsCharBoundary(Bytes(s), i) && IsCharBoundary(Bytes(s), j) && i <= j
  {
    var from, to := CharsBefore(s, i), CharsBefore(s, j);
    if from <= to then s[from..to] else ""
  }

  lemma SliceOfOffsets(s: string, j: nat, k: nat)
    requires j <= k <= |s|
    ensures IsCharBoundary(Bytes(s), Offset(s, j)) && IsCharBoundary(Bytes(s), Offset(s, k))
    ensures Offset(s, j) <= Offset(s, k)
    ensures Slice(s, Offset(s, j), Offset(s, k)) == s[j..k]
  {
    OffsetOrder(s, j, k);
    BoundaryIffOffset(s, Offset(s, j));
    BoundaryIffOffset(s, Offset(s, k));
    CharsBeforeOffset(s, j);
    CharsBeforeOffset(s, k);
  }

  // ----- order

  /** How Rust compares strings: byte by byte. */
  predicate BytesLe(a: seq<Byte>, b: seq<Byte>) {
    a == [] || (b != [] && (a[0] < b[0] || (a[0] == b[0] && BytesLe(a[1..], b[1..]))))
  }

  lemma InBase64(u: nat, v: nat)
    requires u <= v
    ensures u / 0x40 <= v / 0x40
    ensures u / 0x40 == v / 0x40 ==> u % 0x40 <= v % 0x40 && (u < v ==> u % 0x40 < v % 0x40)
    ensures u / 0x1000 == u / 0x40 / 0x40 && u / 0x40000 == u / 0x40 / 0x40 / 0x40
    ensures v / 0x1000 == v / 0x40 / 0x40 && v / 0x40000 == v / 0x40 / 0x40 / 0x40
  {
  }

  lemma {:induction false} TwoBytesDiffer(c: char, d: char) returns (i: nat)
    requires c < d && Width(c) == Width(d) == 2
    ensures i < 2 && Encode(c)[..i] == Encode(d)[..i] && Encode(c)[i] < Encode(d)[i]
  {
    InBase64(c as int, d as int);
    i := if Encode(c)[0] != Encode(d)[0] then 0 else 1;
  }

  lemma {:induction false} ThreeBytesDiffer(c: char, d: char) returns (i: nat)
    requires c < d && Width(c) == Width(d) == 3
    ensures i < 3 && Encode(c)[..i] == Encode(d)[..i] && Encode(c)[i] < Encode(d)[i]
  {
    var u, v := c as int, d as int;
    InBase64(u, v);
    InBase64(u / 0x40, v / 0x40);
    i := if u / 0x1000 != v / 0x1000 then 0 else if u / 0x40 != v / 0x40 then 1 else 2;
  }

  lemma {:induction false} FourBytesDiffer(c: char, d: char) returns (i: nat)
    requires c < d && Width(c) == Width(d) == 4
    ensures i < 4 && Encode(c)[..i] == Encode(d)[..i] && Encode(c)[i] < Encode(d)[i]
  {
    var u, v := c as int, d as int;
    InBase64(u, v);
    InBase64(u / 0x40, v / 0x40);
    InBase64(u / 0x40 / 0x40, v / 0x40 / 0x40);
    i := if u / 0x40000 != v / 0x40000 then 0
         else if u / 0x1000 != v / 0x1000 then 1
         else if u / 0x40 != v / 0x40 then 2
         else 3;
  }

  /** The leading byte tells the width. */
  lemma LeadingByteRange(c: char)
    ensures var b := Encode(c)[0];
            if Width(c) == 1 then b == c as int < 0x80
            else if Width(c) == 2 then 0xC0 <= b < 0xE0
            else if Width(c) == 3 then 0xE0 <= b < 0xF0
            else 0xF0 <= b
  {
  }

  lemma {:induction false} WidthsOrdered(c: char, d: char)
    requires c < d
    ensures Width(c) <= Width(d)
    ensures Width(c) < Width(d) || Width(d) == 1 ==> Encode(c)[0] < Encode(d)[0]
  {
    hide Encode;
    LeadingByteRange(c);
    LeadingByteRange(d);
  }

  /** The encodings of two characters differ first at a byte that is ordered as they are. */
  lemma {:induction false} EncodingsDiffer(c: char, d: char) returns (i: nat)
    requires c < d
    ensures i < |Encode(c)| && i < |Encode(d)| && Encode(c)[..i] == Encode(d)[..i] && Encode(c)[i] < Encode(d)[i]
  {
    hide Encode, Width;
    WidthsOrdered(c, d);
    if Width(c) < Width(d) || Width(d) == 1 {
      i := 0;
    } else if Width(c) == 2 {
      i := TwoBytesDiffer(c, d);
    } else if Width(c) == 3 {
      i := ThreeBytesDiffer(c, d);
    } else {
      i := FourBytesDiffer(c, d);
    }
  }

  lemma {:induction false} BytesLeSkips(p: seq<Byte>, a: seq<Byte>, b: seq<Byte>)
    ensures BytesLe(p + a, p + b) == BytesLe(a, b)
  {
    if p == [] {
      assert p + a == a && p + b == b;
    } else {
      assert (p + a)[1..] == p[1..] + a && (p + b)[1..] == p[1..] + b;
      BytesLeSkips(p[1..], a, b);
    }
  }

  /** Comparing scalar values is comparing bytes. */
  lemma {:induction false} OrderIsByteOrder(a: string, b: string)
    ensures StrLe(a, b) <==> BytesLe(Bytes(a), Bytes(b))
  {
    if a == "" || b == "" {
    } else {
      hide Encode;
      if a[0] == b[0] {
        OrderIsByteOrder(a[1..], b[1..]);
        BytesLeSkips(Encode(a[0]), Bytes(a[1..]), Bytes(b[1..]));
      } else if a[0] < b[0] {
        DifferingOrder(a, b);
      } else {
        DifferingOrder(b, a);
      }
    }
  }

  lemma {:induction false} DifferingOrder(a: string, b: string)
    requires a != "" && b != "" && a[0] < b[0]
    ensures BytesLe(Bytes(a), Bytes(b)) && !BytesLe(Bytes(b), Bytes(a))
  {
    hide Encode;
    var e, f := Encode(a[0]), Encode(b[0]);
    var i := EncodingsDiffer(a[0], b[0]);
    var p := e[..i];
    var x, y := e[i..] + Bytes(a[1..]), f[i..] + Bytes(b[1..]);
    assert e == p + e[i..] && f == p + f[i..];
    Associate(p, e[i..], Bytes(a[1..]));
    Associate(p, f[i..], Bytes(b[1..]));
    BytesLeSkips(p, x, y);
    BytesLeSkips(p, y, x);
    assert x[0] < y[0];
  }
}
