/**
 * The few pieces of Python's text handling the engine relies on:
 * `str(n)` and `f"{n:02d}"` for naturals, `int(piece)` for a string of
 * decimal digits, `ip.split('.')`, and the numeric octet list used as the
 * sort key of an IP address, compared as Python compares lists.
 */
module Text {
  import opened Common

  predicate IsDigit(c: char) { '0' <= c <= '9' }

  /** A non-empty string of ASCII decimal digits: what `int()` accepts here. */
  predicate IsDigits(s: string) {
    |s| > 0 && forall i :: 0 <= i < |s| ==> IsDigit(s[i])
  }

  function DigitChar(d: nat): (c: char)
    requires d < 10
    ensures IsDigit(c)
  {
    ('0' as int + d) as char
  }

  /** `str(n)`: the decimal rendering of `n`, most significant digit first. */
  function ShowNat(n: nat): (s: string)
    ensures IsDigits(s)
  {
    if n < 10 then [DigitChar(n)] else ShowNat(n / 10) + [DigitChar(n % 10)]
  }

  /** `int(s)` for a string of decimal digits (leading zeros allowed). */
  function DigitsValue(s: string): nat
    requires IsDigits(s)
  {
    var d := s[|s| - 1] as int - '0' as int;
    if |s| == 1 then d else 10 * DigitsValue(s[..|s| - 1]) + d
  }

  /** Reading back a rendered natural gives the natural. */
  lemma {:induction false} ShowNatRoundTrip(n: nat)
    ensures DigitsValue(ShowNat(n)) == n
  {
    if n >= 10 {
      var s := ShowNat(n);
      assert s[..|s| - 1] == ShowNat(n / 10);
      ShowNatRoundTrip(n / 10);
    }
  }

  /** Distinct naturals render as distinct strings. */
  lemma ShowNatInjective(m: nat, n: nat)
    requires ShowNat(m) == ShowNat(n)
    ensures m == n
  {
    ShowNatRoundTrip(m);
    ShowNatRoundTrip(n);
  }

  /** Strings that render different naturals after a common prefix differ. */
  lemma PrefixedDistinct(prefix: string, m: nat, n: nat)
    requires m != n
    ensures prefix + ShowNat(m) != prefix + ShowNat(n)
  {
    if prefix + ShowNat(m) == prefix + ShowNat(n) {
      assert (prefix + ShowNat(m))[|prefix|..] == ShowNat(m);
      assert (prefix + ShowNat(n))[|prefix|..] == ShowNat(n);
      ShowNatInjective(m, n);
    }
  }

  /** `f"{n:02d}"`: the decimal rendering of `n`, zero-padded to two digits. */
  function Pad2(n: nat): string
  {
    if n < 10 then "0" + ShowNat(n) else ShowNat(n)
  }

  /** The padded rendering has at least two digits and still reads back as `n`. */
  lemma Pad2RoundTrip(n: nat)
    ensures IsDigits(Pad2(n)) && |Pad2(n)| >= 2
    ensures DigitsValue(Pad2(n)) == n
  {
    ShowNatRoundTrip(n);
    if n < 10 {
      assert Pad2(n)[..1] == "0";
    } else {
      var s := ShowNat(n);
      assert s == ShowNat(n / 10) + [DigitChar(n % 10)];
    }
  }

  /** `s.split(sep)`: the pieces between separators, in order; always at least one. */
  function Split(s: string, sep: char): (parts: seq<string>)
    ensures |parts| >= 1
  {
    if s == [] then [""]
    else
      var rest := Split(s[1..], sep);
      if s[0] == sep then [""] + rest else [[s[0]] + rest[0]] + rest[1..]
  }

  /** A digit string holds no separator other than a digit. */
  lemma NoSepInDigits(s: string, sep: char)
    requires IsDigits(s) && !IsDigit(sep)
    ensures sep !in s
  {
  }

  /** A string without the separator splits into itself. */
  lemma {:induction false} SplitNoSep(s: string, sep: char)
    requires sep !in s
    ensures Split(s, sep) == [s]
  {
    if s != [] {
      assert sep !in s[1..];
      SplitNoSep(s[1..], sep);
      assert [s[0]] + s[1..] == s;
    }
  }

  /** Splitting `a + [sep] + b` splits `a` and `b` separately. */
  lemma {:induction false} SplitAtSep(a: string, b: string, sep: char)
    ensures Split(a + [sep] + b, sep) == Split(a, sep) + Split(b, sep)
  {
    if a == [] {
      assert a + [sep] + b == [sep] + b;
      assert ([sep] + b)[1..] == b;
    } else {
      var s := a + [sep] + b;
      assert s[1..] == a[1..] + [sep] + b;
      assert s[0] == a[0];
      SplitAtSep(a[1..], b, sep);
      var head, tail := Split(a[1..], sep), Split(b, sep);
      if a[0] == sep {
        ConsAppend("", head, tail);
      } else {
        HeadAppend(head, tail);
        ConsAppend([a[0]] + head[0], head[1..], tail);
      }
    }
  }

  /** Consing distributes over an append. */
  lemma ConsAppend<T>(x: T, p: seq<T>, q: seq<T>)
    ensures [x] + (p + q) == [x] + p + q
  {
  }

  /** The head and tail of an append whose left part is non-empty. */
  lemma HeadAppend<T>(p: seq<T>, q: seq<T>)
    requires |p| >= 1
    ensures (p + q)[0] == p[0] && (p + q)[1..] == p[1..] + q
  {
  }

  /** Three separator-free fields joined by the separator split back into those fields. */
  lemma SplitThree(a: string, b: string, c: string, sep: char)
    requires sep !in a && sep !in b && sep !in c
    ensures Split(a + [sep] + b + [sep] + c, sep) == [a, b, c]
  {
    SplitNoSep(a, sep);
    SplitNoSep(b, sep);
    SplitNoSep(c, sep);
    SplitAtSep(b, c, sep);
    SplitAtSep(a, b + [sep] + c, sep);
    assert a + [sep] + b + [sep] + c == a + [sep] + (b + [sep] + c);
  }

  /** `[int(p) for p in parts]`, or `None` where some piece is not a digit string. */
  function ParseAll(parts: seq<string>): (r: Option<seq<nat>>)
    ensures r.Some? ==> |r.value| == |parts|
  {
    if parts == [] then Some([])
    else if !IsDigits(parts[0]) then None
    else
      var rest := ParseAll(parts[1..]);
      if rest.None? then None else Some([DigitsValue(parts[0])] + rest.value)
  }

  /** Parsing a concatenation parses both halves. */
  lemma {:induction false} ParseAllConcat(p: seq<string>, q: seq<string>)
    ensures ParseAll(p + q) ==
      if ParseAll(p).Some? && ParseAll(q).Some? then Some(ParseAll(p).value + ParseAll(q).value) else None
  {
    if p == [] {
      assert p + q == q;
      assert ParseAll(p) == Some([]);
      if ParseAll(q).Some? { assert [] + ParseAll(q).value == ParseAll(q).value; }
    } else {
      assert (p + q)[0] == p[0];
      assert (p + q)[1..] == p[1..] + q;
      ParseAllConcat(p[1..], q);
      if ParseAll(p).Some? && ParseAll(q).Some? {
        var head := [DigitsValue(p[0])];
        assert head + (ParseAll(p[1..]).value + ParseAll(q).value)
            == (head + ParseAll(p[1..]).value) + ParseAll(q).value;
      }
    }
  }

  /** The sort key `[int(octet) for octet in ip.split('.')]`; `None` where `int()` would raise. */
  function IpKey(ip: string): Option<seq<nat>>
  {
    ParseAll(Split(ip, '.'))
  }

  /** The key of `base + "." + str(octet)` is the key of `base` followed by the octet. */
  lemma IpKeyAppend(base: string, octet: nat)
    ensures IpKey(base + "." + ShowNat(octet)) ==
      if IpKey(base).Some? then Some(IpKey(base).value + [octet]) else None
  {
    assert base + "." + ShowNat(octet) == base + ['.'] + ShowNat(octet);
    SplitAtSep(base, ShowNat(octet), '.');
    NoSepInDigits(ShowNat(octet), '.');
    SplitNoSep(ShowNat(octet), '.');
    ShowNatRoundTrip(octet);
    ParseAllConcat(Split(base, '.'), [ShowNat(octet)]);
    assert ParseAll([ShowNat(octet)]) == Some([octet]) by {
      var single := [ShowNat(octet)];
      assert single[0] == ShowNat(octet) && single[1..] == [];
      assert ParseAll(single[1..]) == Some([]);
      assert DigitsValue(single[0]) == octet;
      assert [DigitsValue(single[0])] + [] == [octet];
    }
  }

  /** Python's `<` on two lists of integers: lexicographic, a proper prefix first. */
  predicate LexLess(a: seq<int>, b: seq<int>)
  {
    if a == [] then b != []
    else if b == [] then false
    else a[0] < b[0] || (a[0] == b[0] && LexLess(a[1..], b[1..]))
  }

  /** "not `b < a`": the order `list.sort` leaves adjacent keys in. */
  predicate LexLe(a: seq<int>, b: seq<int>)
  {
    !LexLess(b, a)
  }

  lemma {:induction false} LexLessIrreflexive(a: seq<int>)
    ensures !LexLess(a, a)
  {
    if a != [] { LexLessIrreflexive(a[1..]); }
  }

  lemma {:induction false} LexLessAsymmetric(a: seq<int>, b: seq<int>)
    requires LexLess(a, b)
    ensures !LexLess(b, a)
  {
    if a != [] && b != [] && a[0] == b[0] { LexLessAsymmetric(a[1..], b[1..]); }
  }

  /** Two different lists are always ordered one way or the other. */
  lemma {:induction false} LexLessTotal(a: seq<int>, b: seq<int>)
    requires a != b
    ensures LexLess(a, b) || LexLess(b, a)
  {
    if a != [] && b != [] && a[0] == b[0] {
      assert a == [a[0]] + a[1..] && b == [b[0]] + b[1..];
      LexLessTotal(a[1..], b[1..]);
    }
  }

  lemma {:induction false} LexLessTransitive(a: seq<int>, b: seq<int>, c: seq<int>)
    requires LexLess(a, b) && LexLess(b, c)
    ensures LexLess(a, c)
  {
    if a != [] && b != [] && c != [] && a[0] == b[0] == c[0] {
      LexLessTransitive(a[1..], b[1..], c[1..]);
    }
  }

  /** `LexLe` is a total preorder, so a sequence can be sorted by it. */
  lemma LexLeTotalPreorder(a: seq<int>, b: seq<int>, c: seq<int>)
    ensures LexLe(a, b) || LexLe(b, a)
    ensures LexLe(a, b) && LexLe(b, c) ==> LexLe(a, c)
    ensures LexLe(a, b) <==> LexLess(a, b) || a == b
  {
    if LexLess(a, b) { LexLessAsymmetric(a, b); }
    if a == b { LexLessIrreflexive(a); }
    if a != b { LexLessTotal(a, b); }
    if LexLe(a, b) && LexLe(b, c) {
      if a != b { LexLessTotal(a, b); }
      if b != c { LexLessTotal(b, c); }
      if a != b && b != c { LexLessTransitive(a, b, c); LexLessAsymmetric(a, c); }
    }
  }

  /**
   * Under one base address, keys order as the host octets do, numerically:
   * `base.2` sorts before `base.10` although "10" < "2" as strings.
   */
  lemma SameBaseOrder(base: string, x: nat, y: nat)
    requires IpKey(base).Some?
    ensures IpKey(base + "." + ShowNat(x)).Some? && IpKey(base + "." + ShowNat(y)).Some?
    ensures LexLe(IpKey(base + "." + ShowNat(x)).value, IpKey(base + "." + ShowNat(y)).value) <==> x <= y
  {
    IpKeyAppend(base, x);
    IpKeyAppend(base, y);
    var b := IpKey(base).value;
    PrefixOrder(b, y, x);
  }

  /** Two lists that agree up to their last element order as their last elements do. */
  lemma {:induction false} PrefixOrder(b: seq<int>, x: int, y: int)
    ensures LexLess(b + [x], b + [y]) <==> x < y
  {
    if b == [] {
      assert ([x])[1..] == [] && ([y])[1..] == [];
    } else {
      assert (b + [x])[1..] == b[1..] + [x];
      assert (b + [y])[1..] == b[1..] + [y];
      PrefixOrder(b[1..], x, y);
    }
  }
}
