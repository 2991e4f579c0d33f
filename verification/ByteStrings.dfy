/** Go strings as the byte sequences they are: blankness, order, joining with NUL, decimal digits. */
module ByteStrings {
  type Byte = b: int | 0 <= b < 256

  type Bytes = seq<Byte>

  const NUL: Byte := 0

  const FENCE: Byte := 0xFF

  /** The length of the UTF-8 encoding of a white-space code point at the start of s, or 0. */
  function SpaceWidth(s: Bytes): (w: nat)
    ensures w <= |s|
  {
    if s == [] then 0
    else if 0x09 <= s[0] <= 0x0D || s[0] == 0x20 then 1
    else if |s| >= 2 && s[0] == 0xC2 && s[1] in {0x85, 0xA0} then 2
    else if |s| >= 3 && s[..3] in {[0xE1, 0x9A, 0x80], [0xE2, 0x81, 0x9F], [0xE3, 0x80, 0x80]} then 3
    else if |s| >= 3 && s[0] == 0xE2 && s[1] == 0x80 && (0x80 <= s[2] <= 0x8A || s[2] in {0xA8, 0xA9, 0xAF}) then 3
    else 0
  }

  predicate Blank(s: Bytes) {
    s == [] || (SpaceWidth(s) > 0 && Blank(s[SpaceWidth(s)..]))
  }

  predicate InvalidToken(s: Bytes) {
    Blank(s) || NUL in s
  }

  function Ascii(s: string): (r: Bytes)
    requires forall i :: 0 <= i < |s| ==> '\0' < s[i] < '\U{0080}'
    ensures |r| == |s| && NUL !in r
  {
    seq(|s|, i requires 0 <= i < |s| => s[i] as int)
  }

  // ---- Lexicographic order

  predicate Less(a: Bytes, b: Bytes) {
    b != [] && (a == [] || a[0] < b[0] || (a[0] == b[0] && Less(a[1..], b[1..])))
  }

  /** Less is a strict total order. */
  lemma {:induction false} LessIsTotal(a: Bytes, b: Bytes)
    ensures Less(a, b) || a == b || Less(b, a)
    ensures !(Less(a, b) && Less(b, a))
  {
    if a != [] && b != [] && a[0] == b[0] {
      LessIsTotal(a[1..], b[1..]);
      assert a == [a[0]] + a[1..] && b == [b[0]] + b[1..];
    }
  }

  /** a comes first at position n: it ends there while b goes on, or it has the smaller byte there. */
  predicate ComesFirstAt(a: Bytes, b: Bytes, n: nat) {
    && n <= |a| && n < |b| && a[..n] == b[..n] && (n == |a| || a[n] < b[n])
  }

  lemma FirstBytesAgree(a: Bytes, b: Bytes, n: nat)
    requires ComesFirstAt(a, b, n) && n > 0
    ensures a[0] == b[0] && ComesFirstAt(a[1..], b[1..], n - 1)
  {
    assert a[..n][0] == b[..n][0];
    assert a[1..][..n - 1] == a[..n][1..] && b[1..][..n - 1] == b[..n][1..];
  }

  lemma FirstInTails(a: Bytes, b: Bytes, n: nat)
    requires a != [] && b != [] && a[0] == b[0] && ComesFirstAt(a[1..], b[1..], n)
    ensures ComesFirstAt(a, b, n + 1)
  {
    assert a[..n + 1] == [a[0]] + a[1..][..n] && b[..n + 1] == [b[0]] + b[1..][..n];
  }

  /** The order of Go strings: the first difference decides, and a proper prefix comes first. */
  lemma {:induction false} LessIsLexicographic(a: Bytes, b: Bytes)
    ensures Less(a, b) <==> exists n: nat :: ComesFirstAt(a, b, n)
  {
    forall n: nat | ComesFirstAt(a, b, n) && n > 0
      ensures a != [] && b != [] && a[0] == b[0] && ComesFirstAt(a[1..], b[1..], n - 1)
    {
      FirstBytesAgree(a, b, n);
    }
    assert b != [] && (a == [] || a[0] < b[0]) ==> ComesFirstAt(a, b, 0);
    if a != [] && b != [] && a[0] == b[0] {
      LessIsLexicographic(a[1..], b[1..]);
      if Less(a, b) {
        var n: nat :| ComesFirstAt(a[1..], b[1..], n);
        FirstInTails(a, b, n);
      }
    }
  }

  lemma {:induction false} LessIsTransitive(a: Bytes, b: Bytes, c: Bytes)
    requires Less(a, b) && Less(b, c)
    ensures Less(a, c)
  {
    if a != [] && a[0] == b[0] == c[0] {
      LessIsTransitive(a[1..], b[1..], c[1..]);
    }
  }

  // ---- Joining and splitting

  function Join(parts: seq<Bytes>): Bytes {
    if parts == [] then [] else if |parts| == 1 then parts[0] else parts[0] + [NUL] + Join(parts[1..])
  }

  /** Text up to the first separator is determined by the whole. */
  lemma FirstSeparator(c: Byte, x: Bytes, rest: Bytes, y: Bytes, rest': Bytes)
    requires c !in x && c !in y && x + [c] + rest == y + [c] + rest'
    ensures x == y && rest == rest'
  {
    var s := x + [c] + rest;
    assert forall k :: 0 <= k < |x| ==> s[k] == x[k] != c;
    assert forall k :: 0 <= k < |y| ==> s[k] == y[k] != c;
    assert s[|x|] == c && s[|y|] == c;
    assert s[..|x|] == x && s[..|y|] == y;
    assert s[|x| + 1..] == rest && s[|y| + 1..] == rest';
  }

  predicate Separable(parts: seq<Bytes>) {
    forall i :: 0 <= i < |parts| ==> NUL !in parts[i]
  }

  lemma JoinShowsCount(parts: seq<Bytes>)
    requires parts != [] && Separable(parts)
    ensures NUL in Join(parts) <==> |parts| > 1
  {
    assert |parts| > 1 ==> Join(parts)[|parts[0]|] == NUL;
  }

  /** Parts free of NUL can be read back from their join. */
  lemma {:induction false} JoinIsInjective(a: seq<Bytes>, b: seq<Bytes>)
    requires a != [] && b != [] && Join(a) == Join(b)
    requires Separable(a) && Separable(b)
    ensures a == b
  {
    JoinShowsCount(a);
    JoinShowsCount(b);
    if |a| == 1 {
      assert a == [Join(a)] && b == [Join(b)];
    } else {
      FirstSeparator(NUL, a[0], Join(a[1..]), b[0], Join(b[1..]));
      JoinIsInjective(a[1..], b[1..]);
      assert a == [a[0]] + a[1..] && b == [b[0]] + b[1..];
    }
  }

  // ---- Decimal digits

  function Decimal(n: nat): (r: Bytes)
    ensures r != [] && forall i :: 0 <= i < |r| ==> 0x30 <= r[i] <= 0x39
  {
    if n < 10 then [0x30 + n] else Decimal(n / 10) + [0x30 + n % 10]
  }

  lemma {:induction false} DecimalIsInjective(m: nat, n: nat)
    requires Decimal(m) == Decimal(n)
    ensures m == n
  {
    var x, y := Decimal(m), Decimal(n);
    assert x[|x| - 1] == 0x30 + m % 10 && y[|y| - 1] == 0x30 + n % 10;
    if m >= 10 && n >= 10 {
      assert Decimal(m / 10) == x[..|x| - 1] && Decimal(n / 10) == y[..|y| - 1];
      DecimalIsInjective(m / 10, n / 10);
    }
  }

  function DigitsValue(s: Bytes): int {
    if s == [] then 0
    else
      var last: int := s[|s| - 1];
      DigitsValue(s[..|s| - 1]) * 10 + last - 0x30
  }

  /** The digits read from the left give back the number, and none is put in front without need. */
  lemma {:induction false} DecimalIsValue(n: nat)
    ensures DigitsValue(Decimal(n)) == n
    ensures Decimal(n)[0] == 0x30 ==> n == 0
  {
    var d := Decimal(n);
    if n >= 10 {
      DecimalIsValue(n / 10);
      assert d[..|d| - 1] == Decimal(n / 10);
      assert d[0] == Decimal(n / 10)[0];
    } else {
      assert d[..0] == [];
    }
  }

  // ---- Digests

  /** SHA-256 in hexadecimal, taken as free of collisions. */
  datatype Digest = NoDigest | Sha256(preimage: Bytes) | OtherText(text: Bytes)
}
