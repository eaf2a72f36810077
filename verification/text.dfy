/** String helpers shared by the Python back end and the TypeScript front end:
    decimal rendering and parsing, zero padding, splitting on a separator,
    substring search and path joining. Strings are sequences of characters;
    only ASCII digits count as digits. */
module Text {
  import opened Wrappers

  predicate IsDigit(c: char) {
    '0' <= c <= '9'
  }

  function DigitValue(c: char): nat
    requires IsDigit(c)
  {
    c as int - '0' as int
  }

  function DigitChar(d: nat): (c: char)
    requires d < 10
    ensures IsDigit(c) && DigitValue(c) == d
  {
    ('0' as int + d) as char
  }

  predicate AllDigits(s: string) {
    forall i :: 0 <= i < |s| ==> IsDigit(s[i])
  }

  /** The value of a run of decimal digits, most significant first, as
      Python's `int()` reads it (leading zeros allowed). */
  function DigitsValue(s: string): nat
    requires AllDigits(s)
  {
    if s == [] then 0 else DigitsValue(s[..|s| - 1]) * 10 + DigitValue(s[|s| - 1])
  }

  /** Decimal rendering of a natural number (`str(n)`, `String(n)`): no
      leading zero except in `"0"` itself. */
  function NatToString(n: nat): (s: string)
    ensures |s| >= 1 && AllDigits(s)
    ensures DigitsValue(s) == n
    ensures |s| == 1 || s[0] != '0'
  {
    if n < 10 then [DigitChar(n)]
    else
      var t := NatToString(n / 10);
      var s := t + [DigitChar(n % 10)];
      assert s[..|s| - 1] == t;
      assert s[0] == t[0];
      assert |t| == 1 ==> DigitsValue(t) == DigitValue(t[0]) by {
        if |t| == 1 {
          assert t[..0] == [];
        }
      }
      s
  }

  /** Decimal rendering of an integer with a leading `-` when negative. */
  function IntToString(i: int): (s: string)
    ensures |s| >= 1
    ensures ParseInt(s) == Some(i)
  {
    if i < 0 then
      var s := "-" + NatToString(-i);
      assert s[1..] == NatToString(-i);
      s
    else NatToString(i)
  }

  /** Reads an optionally signed run of decimal digits; anything else is `None`. */
  function ParseInt(s: string): Option<int> {
    if |s| > 1 && s[0] == '-' && AllDigits(s[1..]) then Some(0 - DigitsValue(s[1..]))
    else if |s| > 0 && AllDigits(s) then Some(DigitsValue(s))
    else None
  }

  lemma {:induction false} LeadingZeroValue(s: string)
    requires AllDigits(s)
    ensures AllDigits("0" + s) && DigitsValue("0" + s) == DigitsValue(s)
  {
    if s != [] {
      var t := "0" + s;
      assert t[..|t| - 1] == "0" + s[..|s| - 1];
      LeadingZeroValue(s[..|s| - 1]);
    }
  }

  /** Left-pads with `'0'` up to `width` characters (JavaScript's
      `padStart(width, "0")`; Python's `:0Nd` for a non-negative number). */
  function PadZeros(s: string, width: nat): (r: string)
    ensures |r| == if |s| >= width then |s| else width
    ensures r[|r| - |s|..] == s
    ensures forall i :: 0 <= i < |r| - |s| ==> r[i] == '0'
    decreases width - |s|
  {
    if |s| >= width then s
    else
      var t := "0" + s;
      var r := PadZeros(t, width);
      PaddedSuffix(r, t);
      r
  }

  /** Padding `"0" + s` further keeps `s` at the end and zeros before it. */
  lemma PaddedSuffix(r: string, t: string)
    requires |t| >= 1 && t[0] == '0' && |t| <= |r| && r[|r| - |t|..] == t
    requires forall i :: 0 <= i < |r| - |t| ==> r[i] == '0'
    ensures r[|r| - (|t| - 1)..] == t[1..]
    ensures forall i :: 0 <= i < |r| - (|t| - 1) ==> r[i] == '0'
  {
    var k := |r| - |t|;
    assert r[k] == t[0];
    assert r[k + 1..] == r[k..][1..];
  }

  lemma {:induction false} PadZerosValue(s: string, width: nat)
    requires AllDigits(s)
    ensures AllDigits(PadZeros(s, width))
    ensures DigitsValue(PadZeros(s, width)) == DigitsValue(s)
    decreases width - |s|
  {
    if |s| < width {
      LeadingZeroValue(s);
      PadZerosValue("0" + s, width);
    }
  }

  /** `digits` is how Python's `f"{n:0{width}d}"` renders a non-negative
      `n`: the decimal digits of `n`, padded with zeros to `width`, and no
      longer than that unless the number itself needs more digits, in which
      case there is no leading zero. */
  predicate ZeroPadded(digits: string, n: nat, width: nat) {
    && |digits| >= 1 && |digits| >= width
    && AllDigits(digits) && DigitsValue(digits) == n
    && (|digits| == width || |digits| == 1 || digits[0] != '0')
  }

  /** `n` rendered in decimal and zero-padded to `width` digits: exactly
      `width` characters when the number fits, its own digits otherwise. */
  function ZeroPad(n: nat, width: nat): (r: string)
    ensures ZeroPadded(r, n, width)
  {
    var s := NatToString(n);
    PadZerosValue(s, width);
    var r := PadZeros(s, width);
    assert |s| >= width ==> r == s;
    r
  }

  /** The padded rendering is as long as `str(n)`, or `width` when that is longer. */
  lemma ZeroPadLength(n: nat, width: nat)
    ensures |ZeroPad(n, width)| == if |NatToString(n)| >= width then |NatToString(n)| else width
  {
  }

  function Pow10(k: nat): nat {
    if k == 0 then 1 else 10 * Pow10(k - 1)
  }

  lemma {:induction false} Pow10Monotone(i: nat, j: nat)
    requires i <= j
    ensures Pow10(i) <= Pow10(j)
    decreases j
  {
    if i < j {
      Pow10Monotone(i, j - 1);
    }
  }

  /** `k` digits denote less than `10^k`. */
  lemma {:induction false} DigitsBelow(s: string)
    requires AllDigits(s)
    ensures DigitsValue(s) < Pow10(|s|)
    decreases |s|
  {
    if s != [] {
      DigitsBelow(s[..|s| - 1]);
    }
  }

  /** `k` digits with a non-zero lead denote at least `10^(k-1)`. */
  lemma {:induction false} DigitsAtLeast(s: string)
    requires AllDigits(s) && |s| >= 1 && s[0] != '0'
    ensures DigitsValue(s) >= Pow10(|s| - 1)
    decreases |s|
  {
    var init := s[..|s| - 1];
    if |s| == 1 {
      assert init == [];
    } else {
      assert init[0] == s[0];
      DigitsAtLeast(init);
    }
  }

  /** Two digit strings of one length and one value are the same string. */
  lemma {:induction false} SameLengthSameDigits(a: string, b: string)
    requires AllDigits(a) && AllDigits(b) && |a| == |b| && DigitsValue(a) == DigitsValue(b)
    ensures a == b
    decreases |a|
  {
    if a != [] {
      var n := |a| - 1;
      LastDigit(a);
      LastDigit(b);
      SameLengthSameDigits(a[..n], b[..n]);
      assert a[n] == b[n];
      assert a == a[..n] + [a[n]] && b == b[..n] + [b[n]];
    }
  }

  /** The last digit is the value mod 10; the others denote the value div 10. */
  lemma LastDigit(s: string)
    requires AllDigits(s) && s != []
    ensures DigitValue(s[|s| - 1]) == DigitsValue(s) % 10
    ensures DigitsValue(s[..|s| - 1]) == DigitsValue(s) / 10
  {
    var d := DigitValue(s[|s| - 1]);
    assert DigitsValue(s) == DigitsValue(s[..|s| - 1]) * 10 + d && d < 10;
  }

  /** A zero-padded rendering is unique: `ZeroPadded` pins the string down.
      Of two renderings of different lengths the longer would need a
      non-zero lead, and so denote at least the power of ten that the
      shorter stays below. */
  lemma ZeroPaddedUnique(a: string, b: string, n: nat, width: nat)
    requires ZeroPadded(a, n, width) && ZeroPadded(b, n, width)
    ensures a == b
  {
    if |a| != |b| {
      var short, long := if |a| < |b| then a else b, if |a| < |b| then b else a;
      DigitsBelow(short);
      DigitsAtLeast(long);
      Pow10Monotone(|short|, |long| - 1);
      assert false;
    } else {
      SameLengthSameDigits(a, b);
    }
  }

  /** Index of the first occurrence of `c` in `s`. */
  function IndexOf(s: string, c: char): (i: nat)
    requires c in s
    ensures i < |s| && s[i] == c && c !in s[..i]
  {
    if s[0] == c then 0
    else
      var j := IndexOf(s[1..], c);
      assert s[..1 + j] == [s[0]] + s[1..][..j];
      1 + j
  }

  function Last<T>(xs: seq<T>): T
    requires |xs| >= 1
  {
    xs[|xs| - 1]
  }

  /** Joins non-empty `parts` with the separator `c` (`parts.join(c)`). */
  function Join(parts: seq<string>, c: char): string
    requires |parts| >= 1
  {
    if |parts| == 1 then parts[0] else parts[0] + [c] + Join(parts[1..], c)
  }

  /** Joining two and three parts. */
  lemma JoinTwo(a: string, b: string, c: char)
    ensures Join([a, b], c) == a + [c] + b
  {
    assert [a, b][1..] == [b];
  }

  lemma JoinThree(a: string, b: string, d: string, c: char)
    ensures Join([a, b, d], c) == a + [c] + (b + [c] + d)
  {
    assert [a, b, d][1..] == [b, d];
    JoinTwo(b, d, c);
  }

  /** JavaScript's `s.split(c)` for a one-character separator: the pieces
      between separators, always at least one (the empty string splits to `[""]`). */
  function Split(s: string, c: char): (parts: seq<string>)
    ensures |parts| >= 1
    ensures forall k :: 0 <= k < |parts| ==> c !in parts[k]
    ensures Join(parts, c) == s
    decreases |s|
  {
    if c !in s then [s]
    else
      var i := IndexOf(s, c);
      var rest := Split(s[i + 1..], c);
      var parts := [s[..i]] + rest;
      assert parts[1..] == rest;
      assert s == s[..i] + [c] + s[i + 1..];
      parts
  }

  lemma SplitSeparated(a: string, c: char, b: string)
    requires c !in a
    ensures Split(a + [c] + b, c) == [a] + Split(b, c)
  {
    var s := a + [c] + b;
    assert s[|a|] == c;
    var i := IndexOf(s, c);
    assert i == |a|;
    assert s[..i] == a;
    assert s[i + 1..] == b;
  }

  /** Splitting undoes joining when no part contains the separator. */
  lemma {:induction false} SplitJoin(parts: seq<string>, c: char)
    requires |parts| >= 1
    requires forall k :: 0 <= k < |parts| ==> c !in parts[k]
    ensures Split(Join(parts, c), c) == parts
  {
    if |parts| > 1 {
      SplitSeparated(parts[0], c, Join(parts[1..], c));
      SplitJoin(parts[1..], c);
    }
  }

  /** `r` is the part of `s` after its last separator `c`: a suffix of `s`
      preceded by `c` unless it is all of `s`. */
  predicate IsTail(s: string, r: string, c: char) {
    |r| <= |s| && s[|s| - |r|..] == r && (|r| < |s| ==> s[|s| - |r| - 1] == c)
  }

  /** The text after the last `/` (`path.split("/").pop()`); the whole
      string when it holds no `/`, and empty when it ends in `/`. */
  function LastSegment(s: string): (r: string)
    ensures '/' !in r
    ensures IsTail(s, r, '/')
  {
    SplitLastIsTail(s, '/');
    Last(Split(s, '/'))
  }

  lemma {:induction false} SplitLastIsTail(s: string, c: char)
    ensures IsTail(s, Last(Split(s, c)), c)
    decreases |s|
  {
    if c in s {
      var i := IndexOf(s, c);
      var rest := s[i + 1..];
      SplitLastIsTail(rest, c);
      var p := Split(rest, c);
      SplitUnfold(s, c);
      LastOfCons(s[..i], p);
      TailExtends(s, i, Last(p), c);
    }
  }

  lemma SplitUnfold(s: string, c: char)
    requires c in s
    ensures Split(s, c) == [s[..IndexOf(s, c)]] + Split(s[IndexOf(s, c) + 1..], c)
  {
  }

  lemma LastOfCons<T>(x: T, xs: seq<T>)
    requires |xs| >= 1
    ensures Last([x] + xs) == Last(xs)
  {
  }

  lemma TailExtends(s: string, i: nat, r: string, c: char)
    requires i < |s| && s[i] == c
    requires IsTail(s[i + 1..], r, c)
    ensures IsTail(s, r, c)
  {
    var rest := s[i + 1..];
    var n := |s| - |r|;
    assert |rest| - |r| == n - i - 1;
    assert s[n..] == rest[n - i - 1..];
    if |r| < |rest| {
      assert s[n - 1] == rest[n - i - 2];
    } else {
      assert n - 1 == i;
    }
  }

  /** A `c`-free tail of `prefix + [c] + name` is `name` itself. */
  lemma TailAfterSeparator(prefix: string, c: char, name: string, r: string)
    requires c !in name && c !in r
    requires IsTail(prefix + [c] + name, r, c)
    ensures r == name
  {
    var s := prefix + [c] + name;
    assert s[|s| - |name| - 1] == c;
    assert s[|s| - |name|..] == name;
    assert |r| <= |name|;
    assert |r| >= |name|;
  }

  /** The last segment of `prefix/name` is `name` whenever `name` holds no `/`. */
  lemma LastSegmentAfterSlash(prefix: string, name: string)
    requires '/' !in name
    ensures LastSegment(prefix + "/" + name) == name
  {
    TailAfterSeparator(prefix, '/', name, LastSegment(prefix + "/" + name));
  }

  /** `needle` occurs somewhere in `hay` (SQL's `LIKE '%needle%'` without
      wildcards or case folding). */
  predicate Contains(hay: string, needle: string)
    decreases |hay|
  {
    needle <= hay || (|hay| > 0 && Contains(hay[1..], needle))
  }

  lemma {:induction false} ContainsInside(a: string, needle: string, b: string)
    ensures Contains(a + needle + b, needle)
  {
    if a == [] {
      assert a + needle + b == needle + b;
    } else {
      assert (a + needle + b)[1..] == a[1..] + needle + b;
      ContainsInside(a[1..], needle, b);
    }
  }

  /** A string that starts with `a + needle + b` contains `needle`. */
  lemma ContainsInPrefix(hay: string, a: string, needle: string, b: string)
    requires |a + needle + b| <= |hay| && hay[..|a + needle + b|] == a + needle + b
    ensures Contains(hay, needle)
  {
    var rest := hay[|a + needle + b|..];
    assert hay == a + needle + (b + rest);
    ContainsInside(a, needle, b + rest);
  }

  /** Python's `os.path.join(dir, name)` for two components. */
  function PathJoin(dir: string, name: string): (r: string)
    ensures |name| > 0 && name[0] == '/' ==> r == name
    ensures !(|name| > 0 && name[0] == '/') ==> exists sep :: r == dir + sep + name
  {
    if |name| > 0 && name[0] == '/' then name
    else if dir == [] || dir[|dir| - 1] == '/' then
      assert dir + name == dir + "" + name;
      dir + name
    else dir + "/" + name
  }

  /** The last segment of a joined path is the joined file name. */
  lemma PathJoinLastSegment(dir: string, name: string)
    requires |name| > 0 && '/' !in name
    ensures LastSegment(PathJoin(dir, name)) == name
  {
    if dir == [] {
      var r := LastSegment(name);
      assert |r| == |name|;
      assert name[|name| - |r|..] == name;
    } else if dir[|dir| - 1] == '/' {
      assert dir + name == dir[..|dir| - 1] + "/" + name;
      LastSegmentAfterSlash(dir[..|dir| - 1], name);
    } else {
      LastSegmentAfterSlash(dir, name);
    }
  }
}
