/** The encoding of strings as bytes (section 3 of RFC 3629): what Go's `len` counts and what its
    `<` on strings compares, and that the order of strings by characters is the order of their
    bytes. */
module Utf8 {
  import opened Ordering

  // How many bytes a character takes.
  function Width(c: char): nat
  {
    var n := c as int;
    if n < 0x80 then 1 else if n < 0x800 then 2 else if n < 0x10000 then 3 else 4
  }

  function Bytes(s: string): nat
  {
    if s == [] then 0 else Width(s[0]) + Bytes(s[1..])
  }

  // The bytes of a character: a lead byte that tells how many follow, six bits in each of those.
  function Char(c: char): seq<int>
  {
    var n := c as nat;
    if n < 0x80 then [n]
    else if n < 0x800 then [0xC0 + n / 0x40, 0x80 + n % 0x40]
    else if n < 0x10000 then [0xE0 + n / 0x1000, 0x80 + n / 0x40 % 0x40, 0x80 + n % 0x40]
    else [0xF0 + n / 0x40000, 0x80 + n / 0x1000 % 0x40, 0x80 + n / 0x40 % 0x40, 0x80 + n % 0x40]
  }

  function Encoded(s: string): seq<int>
  {
    if s == [] then [] else Char(s[0]) + Encoded(s[1..])
  }

  // The first character's code, read back from the bytes.
  function Decoded(bytes: seq<int>): int
    requires bytes != [] && |bytes| >= Lead(bytes[0])
  {
    if bytes[0] < 0xC0 then bytes[0]
    else if bytes[0] < 0xE0 then (bytes[0] - 0xC0) * 0x40 + bytes[1] - 0x80
    else if bytes[0] < 0xF0 then (bytes[0] - 0xE0) * 0x1000 + (bytes[1] - 0x80) * 0x40 + bytes[2] - 0x80
    else (bytes[0] - 0xF0) * 0x40000 + (bytes[1] - 0x80) * 0x1000 + (bytes[2] - 0x80) * 0x40 + bytes[3] - 0x80
  }

  function Lead(b: int): nat
  {
    if b < 0xC0 then 1 else if b < 0xE0 then 2 else if b < 0xF0 then 3 else 4
  }

  // A character's bytes are bytes, as many as its width, and read back as the character whatever
  // follows them.
  lemma CharDecodes(c: char, rest: seq<int>)
    ensures |Char(c)| == Width(c) && forall k :: 0 <= k < |Char(c)| ==> Char(c)[k] < 0x100
    ensures Lead(Char(c)[0]) == Width(c) && Decoded(Char(c) + rest) == c as int
  {
    var n := c as int;
    assert n / 0x1000 == n / 0x40 / 0x40 && n / 0x40000 == n / 0x1000 / 0x40;
  }

  lemma {:induction false} BytesAreEncoded(s: string)
    ensures Bytes(s) == |Encoded(s)|
  {
    if s != [] {
      CharDecodes(s[0], []);
      BytesAreEncoded(s[1..]);
    }
  }

  // One list of bytes before another: at the first place they differ, or as a proper prefix.
  ghost predicate Precedes(x: seq<int>, y: seq<int>)
  {
    exists k: nat :: Differ(x, y, k)
  }

  predicate Differ(x: seq<int>, y: seq<int>, k: nat)
  {
    k <= |x| && k < |y| && x[..k] == y[..k] && (k < |x| ==> x[k] < y[k])
  }

  lemma PrecedesOnce(x: seq<int>, y: seq<int>)
    requires Precedes(x, y)
    ensures !Precedes(y, x)
  {
    var k: nat :| Differ(x, y, k);
    forall j: nat ensures !Differ(y, x, j) {
      if Differ(y, x, j) {
        OneWay(x, y, k, j);
      }
    }
  }

  lemma OneWay(x: seq<int>, y: seq<int>, k: nat, j: nat)
    requires Differ(x, y, k)
    ensures !Differ(y, x, j)
  {
    if j < k && j < |x| {
      assert x[..k][j] == y[..k][j];
    } else if k < j && j <= |y| && j <= |x| {
      assert y[..j][k] == y[k] && x[..j][k] == x[k];
    }
  }

  // The bytes of a smaller character differ first by a smaller byte.
  lemma CharsDiffer(c: char, d: char) returns (k: nat)
    requires c < d
    ensures k < |Char(c)| && k < |Char(d)| && Char(c)[..k] == Char(d)[..k] && Char(c)[k] < Char(d)[k]
  {
    var m, n := c as int, d as int;
    CharDecodes(c, []);
    CharDecodes(d, []);
    assert Char(c) + [] == Char(c) && Char(d) + [] == Char(d);
    var x, y := Char(c), Char(d);
    if x[0] < y[0] {
      k := 0;
    } else if x[1] < y[1] {
      k := 1;
    } else if x[2] < y[2] {
      k := 2;
    } else {
      k := 3;
    }
  }

  lemma SharedStart(u: seq<int>, x: seq<int>, y: seq<int>)
    ensures Precedes(u + x, u + y) <==> Precedes(x, y)
  {
    if Precedes(x, y) {
      var k: nat :| Differ(x, y, k);
      assert (u + x)[..|u| + k] == u + x[..k] && (u + y)[..|u| + k] == u + y[..k];
      assert Differ(u + x, u + y, |u| + k);
    }
    if Precedes(u + x, u + y) {
      var k: nat :| Differ(u + x, u + y, k);
      assert k >= |u|;
      assert x[..k - |u|] == (u + x)[..k][|u|..] && y[..k - |u|] == (u + y)[..k][|u|..];
      assert Differ(x, y, k - |u|);
    }
  }

  lemma Decided(c: char, d: char, x: seq<int>, y: seq<int>)
    requires c < d
    ensures Precedes(Char(c) + x, Char(d) + y) && !Precedes(Char(d) + y, Char(c) + x)
  {
    var k := CharsDiffer(c, d);
    assert (Char(c) + x)[..k] == Char(c)[..k] && (Char(d) + y)[..k] == Char(d)[..k];
    assert Differ(Char(c) + x, Char(d) + y, k);
    PrecedesOnce(Char(c) + x, Char(d) + y);
  }

  // The order of strings is the order of their bytes.
  lemma {:induction false} LessIsByteOrder(a: string, b: string)
    ensures Less(a, b) <==> Precedes(Encoded(a), Encoded(b))
  {
    if b == [] {
    } else if a == [] {
      CharDecodes(b[0], []);
      assert Differ(Encoded(a), Encoded(b), 0);
    } else if a[0] == b[0] {
      LessIsByteOrder(a[1..], b[1..]);
      SharedStart(Char(a[0]), Encoded(a[1..]), Encoded(b[1..]));
    } else if a[0] < b[0] {
      Decided(a[0], b[0], Encoded(a[1..]), Encoded(b[1..]));
    } else {
      Decided(b[0], a[0], Encoded(b[1..]), Encoded(a[1..]));
    }
  }
}
