/** Option and Result, shared by every module. */
module Wrappers {
  datatype Option<+T> = None | Some(value: T)

  datatype Result<+R, +E> = Success(value: R) | Failure(error: E)
}

/** The order of Rust's `String`, and the decimal text that the hooks and the node ids print. */
module Text {

  /** Byte order of UTF-8 text, which is code point order. */
  predicate StrLess(a: string, b: string) {
    b != [] && (a == [] || a[0] < b[0] || (a[0] == b[0] && StrLess(a[1..], b[1..])))
  }

  /** Up to some place the two are the same, and there the first ends or has the smaller code point. */
  predicate DiffersAt(a: string, b: string, k: nat) {
    && k <= |a| && k < |b| && a[..k] == b[..k] && (k == |a| || a[k] < b[k])
  }

  lemma {:induction false} StrLessExactly(a: string, b: string)
    ensures StrLess(a, b) <==> exists k: nat :: DiffersAt(a, b, k)
  {
    if a == [] {
      assert b != [] ==> DiffersAt(a, b, 0);
    } else if b != [] {
      if a[0] == b[0] {
        StrLessExactly(a[1..], b[1..]);
        DiffersBehind(a, b);
      } else {
        assert a[0] < b[0] ==> DiffersAt(a, b, 0);
        assert forall k | 0 < k <= |a| && k <= |b| && a[..k] == b[..k] :: a[..k][0] == b[..k][0];
      }
    }
  }

  lemma DiffersBehind(a: string, b: string)
    requires a != [] && b != [] && a[0] == b[0]
    ensures (exists k: nat :: DiffersAt(a, b, k)) <==> exists k: nat :: DiffersAt(a[1..], b[1..], k)
  {
    if k: nat :| DiffersAt(a, b, k) {
      assert a[1..][..k - 1] == a[..k][1..] && b[1..][..k - 1] == b[..k][1..];
      assert DiffersAt(a[1..], b[1..], k - 1);
    }
    if k: nat :| DiffersAt(a[1..], b[1..], k) {
      assert a[..k + 1] == [a[0]] + a[1..][..k] && b[..k + 1] == [b[0]] + b[1..][..k];
      assert DiffersAt(a, b, k + 1);
    }
  }

  lemma {:induction false} StrLessIrreflexive(a: string)
    ensures !StrLess(a, a)
  {
    if a != [] {
      StrLessIrreflexive(a[1..]);
    }
  }

  lemma {:induction false} StrLessTransitive(a: string, b: string, c: string)
    requires StrLess(a, b) && StrLess(b, c)
    ensures StrLess(a, c)
  {
    if a != [] && a[0] == b[0] && b[0] == c[0] {
      StrLessTransitive(a[1..], b[1..], c[1..]);
    }
  }

  lemma {:induction false} StrLessTotal(a: string, b: string)
    ensures StrLess(a, b) || a == b || StrLess(b, a)
  {
    if a != [] && b != [] && a[0] == b[0] {
      StrLessTotal(a[1..], b[1..]);
      assert a == [a[0]] + a[1..] && b == [b[0]] + b[1..];
    }
  }

  /** A shared prefix is skipped. */
  lemma {:induction false} StrLessPrefix(p: string, a: string, b: string)
    ensures StrLess(p + a, p + b) <==> StrLess(a, b)
  {
    if p == [] {
      assert p + a == a && p + b == b;
    } else {
      assert (p + a)[1..] == p[1..] + a && (p + b)[1..] == p[1..] + b;
      StrLessPrefix(p[1..], a, b);
    }
  }

  /** A difference inside equally long heads decides, whatever follows. */
  lemma {:induction false} StrLessHead(a: string, b: string, x: string, y: string)
    requires |a| == |b| && StrLess(a, b)
    ensures StrLess(a + x, b + y)
  {
    if a[0] == b[0] {
      assert (a + x)[1..] == a[1..] + x && (b + y)[1..] == b[1..] + y;
      StrLessHead(a[1..], b[1..], x, y);
    }
  }

  predicate AllDigits(s: string) {
    forall i | 0 <= i < |s| :: '0' <= s[i] <= '9'
  }

  function DigitChar(d: nat): (c: char)
    requires d < 10
    ensures '0' <= c <= '9' && c as int - '0' as int == d
  {
    ('0' as int + d) as char
  }

  /** Decimal text without padding, as `{}` prints an unsigned integer. */
  function Decimal(n: nat): (s: string)
    ensures s != [] && AllDigits(s)
  {
    if n < 10 then [DigitChar(n)] else Decimal(n / 10) + [DigitChar(n % 10)]
  }

  /** Bytes of a code point in UTF-8. */
  function Utf8(c: char): seq<nat> {
    var n := c as int;
    if n < 0x80 then [n]
    else if n < 0x800 then [0xc0 + n / 0x40, 0x80 + n % 0x40]
    else if n < 0x1_0000 then [0xe0 + n / 0x1000, 0x80 + n / 0x40 % 0x40, 0x80 + n % 0x40]
    else [0xf0 + n / 0x4_0000, 0x80 + n / 0x1000 % 0x40, 0x80 + n / 0x40 % 0x40, 0x80 + n % 0x40]
  }

  function Bytes(s: string): seq<nat> {
    if s == [] then [] else Utf8(s[0]) + Bytes(s[1..])
  }

  /** Lower-case hexadecimal of exactly `width` digits. */
  function Hex(n: nat, width: nat): string {
    if width == 0 then "" else Hex(n / 16, width - 1) + ["0123456789abcdef"[n % 16]]
  }

  lemma {:induction false} HexWidth(n: nat, width: nat)
    ensures |Hex(n, width)| == width
  {
    if width > 0 {
      HexWidth(n / 16, width - 1);
    }
  }

  function WithoutDigits(n: nat, k: nat): nat {
    if k == 0 then n else WithoutDigits(n / 16, k - 1)
  }

  /** The digit before the last `k` is that of what is left without them. */
  lemma {:induction false} HexDigits(n: nat, width: nat, k: nat)
    requires k < width
    ensures |Hex(n, width)| == width
    ensures Hex(n, width)[width - 1 - k] == "0123456789abcdef"[WithoutDigits(n, k) % 16]
  {
    HexWidth(n, width);
    HexWidth(n / 16, width - 1);
    if k > 0 {
      HexDigits(n / 16, width - 1, k - 1);
    }
  }

  /** One, two, three and four bytes. */
  lemma BytesSpelled()
    ensures Bytes("a") == [0x61] && Bytes("\U{e9}") == [0xc3, 0xa9] && Bytes("\U{20ac}") == [0xe2, 0x82, 0xac]
    ensures Bytes("\U{1f600}") == [0xf0, 0x9f, 0x98, 0x80]
  {
  }

  /** Decimal text padded with zeros to at least `width`, as `{:0width}` prints it. */
  function Padded(n: nat, width: nat): (s: string)
    ensures |s| >= width && s != [] && AllDigits(s)
    decreases width, n
  {
    if n < 10 && width <= 1 then [DigitChar(n)]
    else Padded(n / 10, if width == 0 then 0 else width - 1) + [DigitChar(n % 10)]
  }

  function Parse(s: string): (n: nat)
    requires AllDigits(s)
  {
    if s == [] then 0
    else 10 * Parse(s[..|s| - 1]) + (s[|s| - 1] as int - '0' as int)
  }

  lemma {:induction false} ParseDecimal(n: nat)
    ensures Parse(Decimal(n)) == n
  {
    if n >= 10 {
      var s := Decimal(n);
      assert s[..|s| - 1] == Decimal(n / 10);
      ParseDecimal(n / 10);
    }
  }

  lemma DecimalInjective(m: nat, n: nat)
    requires Decimal(m) == Decimal(n)
    ensures m == n
  {
    ParseDecimal(m);
    ParseDecimal(n);
  }

  lemma {:induction false} ParsePadded(n: nat, width: nat)
    ensures Parse(Padded(n, width)) == n
    decreases width, n
  {
    if !(n < 10 && width <= 1) {
      var s := Padded(n, width);
      var w := if width == 0 then 0 else width - 1;
      assert s[..|s| - 1] == Padded(n / 10, w);
      ParsePadded(n / 10, w);
    }
  }

  function Pow10(w: nat): (p: nat)
    ensures p >= 1
  {
    if w == 0 then 1 else 10 * Pow10(w - 1)
  }

  lemma {:induction false} PaddedWidth(n: nat, width: nat)
    requires 1 <= width && n < Pow10(width)
    ensures |Padded(n, width)| == width
    decreases width, n
  {
    if width > 1 {
      PaddedWidth(n / 10, width - 1);
    }
  }

  /** On numbers that fit the width, text order is number order. */
  lemma {:induction false} PaddedOrder(m: nat, n: nat, width: nat)
    requires 1 <= width && m < n < Pow10(width)
    ensures StrLess(Padded(m, width), Padded(n, width))
    decreases width, n
  {
    if width > 1 {
      PaddedWidth(m / 10, width - 1);
      PaddedWidth(n / 10, width - 1);
      var a, b := Padded(m / 10, width - 1), Padded(n / 10, width - 1);
      if m / 10 < n / 10 {
        PaddedOrder(m / 10, n / 10, width - 1);
        StrLessHead(a, b, [DigitChar(m % 10)], [DigitChar(n % 10)]);
      } else {
        StrLessPrefix(a, [DigitChar(m % 10)], [DigitChar(n % 10)]);
      }
    }
  }

  /** Unicode White_Space, which `str::trim` strips. */
  predicate IsWhitespace(c: char) {
    '\U{9}' <= c <= '\U{d}' || c == ' ' || c == '\U{85}' || c == '\U{a0}' || c == '\U{1680}'
    || '\U{2000}' <= c <= '\U{200a}' || c == '\U{2028}' || c == '\U{2029}' || c == '\U{202f}'
    || c == '\U{205f}' || c == '\U{3000}'
  }

  lemma WhitespaceExactly(c: char)
    ensures IsWhitespace(c) <==>
            c in {'\t', '\n', '\U{b}', '\U{c}', '\r', ' ', '\U{85}', '\U{a0}', '\U{1680}',
                  '\U{2000}', '\U{2001}', '\U{2002}', '\U{2003}', '\U{2004}', '\U{2005}', '\U{2006}', '\U{2007}',
                  '\U{2008}', '\U{2009}', '\U{200a}', '\U{2028}', '\U{2029}', '\U{202f}', '\U{205f}', '\U{3000}'}
  {
  }

  function TrimStart(s: string): string {
    if s != [] && IsWhitespace(s[0]) then TrimStart(s[1..]) else s
  }

  function TrimEnd(s: string): string {
    if s != [] && IsWhitespace(s[|s| - 1]) then TrimEnd(s[..|s| - 1]) else s
  }

  function Trim(s: string): string {
    TrimEnd(TrimStart(s))
  }

  lemma {:induction false} TrimStartExactly(s: string) returns (i: nat)
    ensures i <= |s| && TrimStart(s) == s[i..] && (forall k | 0 <= k < i :: IsWhitespace(s[k]))
    ensures i < |s| ==> !IsWhitespace(s[i])
  {
    if s != [] && IsWhitespace(s[0]) {
      i := TrimStartExactly(s[1..]);
      i := i + 1;
      assert forall k | 0 < k < i :: s[k] == s[1..][k - 1];
    } else {
      i := 0;
    }
  }

  lemma {:induction false} TrimEndExactly(s: string) returns (j: nat)
    ensures j <= |s| && TrimEnd(s) == s[..j] && (forall k | j <= k < |s| :: IsWhitespace(s[k]))
    ensures j > 0 ==> !IsWhitespace(s[j - 1])
  {
    if s != [] && IsWhitespace(s[|s| - 1]) {
      j := TrimEndExactly(s[..|s| - 1]);
    } else {
      j := |s|;
    }
  }

  /** Trimming takes all white space off both ends, and nothing else. */
  lemma TrimExactly(s: string) returns (i: nat, j: nat)
    ensures i <= j <= |s| && Trim(s) == s[i..j]
    ensures forall k | 0 <= k < i || j <= k < |s| :: IsWhitespace(s[k])
    ensures i < j ==> !IsWhitespace(s[i]) && !IsWhitespace(s[j - 1])
  {
    i := TrimStartExactly(s);
    var end := TrimEndExactly(s[i..]);
    j := i + end;
    assert forall k | j <= k < |s| :: s[k] == s[i..][k - i];
  }
}

/** Enumerating a finite set in order, as iterating a `BTreeMap` or `BTreeSet` does. */
module Ordered {
  import Text

  ghost predicate StrictTotal<T(!new)>(lt: (T, T) -> bool) {
    && (forall x :: !lt(x, x))
    && (forall x, y :: lt(x, y) || x == y || lt(y, x))
    && (forall x, y, z :: lt(x, y) && lt(y, z) ==> lt(x, z))
  }

  predicate NatLess(a: nat, b: nat) { a < b }

  lemma StringOrder()
    ensures StrictTotal(Text.StrLess)
  {
    forall x { Text.StrLessIrreflexive(x); }
    forall x, y { Text.StrLessTotal(x, y); }
    forall x, y, z | Text.StrLess(x, y) && Text.StrLess(y, z) { Text.StrLessTransitive(x, y, z); }
  }

  ghost predicate IsLeast<T(!new)>(m: T, s: set<T>, lt: (T, T) -> bool) {
    m in s && forall x | x in s && x != m :: lt(m, x)
  }

  lemma {:induction false} LeastExists<T(!new)>(s: set<T>, lt: (T, T) -> bool)
    requires StrictTotal(lt) && s != {}
    ensures exists m :: IsLeast(m, s, lt)
  {
    var x :| x in s;
    if s == {x} {
      assert IsLeast(x, s, lt);
    } else {
      LeastExists(s - {x}, lt);
      var m :| IsLeast(m, s - {x}, lt);
      if lt(x, m) {
        assert IsLeast(x, s, lt) by {
          forall y | y in s && y != x ensures lt(x, y) {
            assert y in s - {x};
          }
        }
      } else {
        assert IsLeast(m, s, lt);
      }
    }
  }

  ghost predicate Sorted<T(!new)>(r: seq<T>, lt: (T, T) -> bool) {
    forall i, j | 0 <= i < j < |r| :: lt(r[i], r[j])
  }

  /** The elements of `s`, each once, in increasing order. */
  function Ascending<T(!new,==)>(s: set<T>, lt: (T, T) -> bool): (r: seq<T>)
    requires StrictTotal(lt)
    ensures Sorted(r, lt)
    ensures forall x :: x in r <==> x in s
    ensures |r| == |s|
  {
    if s == {} then []
    else
      LeastExists(s, lt);
      assert exists m :: IsLeast(m, s, lt) && m in s;
      var m :| m in s && forall x | x in s && x != m :: lt(m, x);
      var rest := Ascending(s - {m}, lt);
      assert forall i | 0 <= i < |rest| :: rest[i] in rest;
      [m] + rest
  }

  /** A sorted sequence is determined by its elements. */
  lemma {:induction false} SortedUnique<T(!new)>(a: seq<T>, b: seq<T>, lt: (T, T) -> bool)
    requires StrictTotal(lt) && Sorted(a, lt) && Sorted(b, lt)
    requires forall x :: x in a <==> x in b
    ensures a == b
  {
    assert forall i | 0 <= i < |a| :: a[i] in b;
    assert forall i | 0 <= i < |b| :: b[i] in a;
    if a != [] && b != [] {
      assert a[0] in b && b[0] in a;
      assert a[0] == b[0];
      forall x ensures x in a[1..] <==> x in b[1..] {
        SortedTail(a, x, lt);
        SortedTail(b, x, lt);
      }
      SortedUnique(a[1..], b[1..], lt);
      assert a == [a[0]] + a[1..] && b == [b[0]] + b[1..];
    }
  }

  lemma SortedTail<T(!new)>(a: seq<T>, x: T, lt: (T, T) -> bool)
    requires StrictTotal(lt) && Sorted(a, lt) && a != []
    ensures x in a[1..] <==> x in a && x != a[0]
  {
    if x in a[1..] {
      var i :| 0 <= i < |a[1..]| && a[1..][i] == x;
      assert lt(a[0], a[i + 1]);
    }
  }
}
