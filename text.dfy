/**
 * The string operations the pages rely on, written out: decimal rendering of numbers
 * (template literals and `Number#toString`), `String#split` and `Array#join` on one
 * character, the first run of digits found by `/\d+/`, `includes`, and string order.
 */
module Text {
  import opened Wrappers

  predicate IsDigit(c: char) { '0' <= c <= '9' }

  predicate AllDigits(s: string) { forall i :: 0 <= i < |s| ==> IsDigit(s[i]) }

  function DigitValue(c: char): (d: nat)
    requires IsDigit(c)
    ensures d < 10
  {
    (c as int) - ('0' as int)
  }

  function DigitChar(d: nat): (c: char)
    requires d < 10
    ensures IsDigit(c) && DigitValue(c) == d
  {
    (('0' as int) + d) as char
  }

  /** The decimal digits of `n`, most significant first, without leading zeros. */
  function DecimalString(n: nat): (s: string)
    ensures 1 <= |s| && AllDigits(s)
    ensures |s| > 1 ==> s[0] != '0'
    ensures n < 10 <==> |s| == 1
  {
    if n < 10 then [DigitChar(n)] else DecimalString(n / 10) + [DigitChar(n % 10)]
  }

  /** The value of a string of decimal digits, as `parseInt` and `Number` read it. */
  function ParseDecimal(s: string): nat
    requires AllDigits(s)
  {
    if s == [] then 0 else ParseDecimal(s[..|s| - 1]) * 10 + DigitValue(s[|s| - 1])
  }

  lemma {:induction false} ParseDecimalString(n: nat)
    ensures ParseDecimal(DecimalString(n)) == n
  {
    if n >= 10 {
      var s := DecimalString(n);
      assert s[..|s| - 1] == DecimalString(n / 10);
      ParseDecimalString(n / 10);
    }
  }

  lemma DecimalStringInjective(m: nat, n: nat)
    ensures DecimalString(m) == DecimalString(n) ==> m == n
  {
    ParseDecimalString(m);
    ParseDecimalString(n);
  }

  /** Identifiers such as `inv-3` or `emp-12`: a fixed prefix and a decimal number. */
  function NumberedId(prefix: string, k: nat): (id: string)
    ensures |id| > |prefix| && id[..|prefix|] == prefix
  {
    prefix + DecimalString(k)
  }

  lemma NumberedIdInjective(prefix: string, j: nat, k: nat)
    ensures NumberedId(prefix, j) == NumberedId(prefix, k) <==> j == k
  {
    if NumberedId(prefix, j) == NumberedId(prefix, k) {
      assert NumberedId(prefix, j)[|prefix|..] == DecimalString(j);
      assert NumberedId(prefix, k)[|prefix|..] == DecimalString(k);
      DecimalStringInjective(j, k);
    }
  }

  /** JavaScript's rendering of an integral number: a minus sign, then the digits. */
  function IntString(i: int): (s: string)
    ensures 1 <= |s|
    ensures s[0] == '-' <==> i < 0
    ensures forall k :: 0 <= k < |s| ==> s[k] == '-' || IsDigit(s[k])
    ensures var digits := if i < 0 then s[1..] else s;
      AllDigits(digits) && ParseDecimal(digits) == (if i < 0 then -i else i)
  {
    if i < 0 then
      ParseDecimalString(-i);
      var s := "-" + DecimalString(-i);
      assert s[1..] == DecimalString(-i);
      s
    else
      ParseDecimalString(i);
      DecimalString(i)
  }

  /**
   * `String#length`: the number of UTF-16 code units, which is one per character up to
   * U+FFFF and two (a surrogate pair) per character above it.
   */
  function JsLength(s: string): (n: nat)
    ensures |s| <= n <= 2 * |s|
    ensures (forall i :: 0 <= i < |s| ==> s[i] as int < 0x1_0000) ==> n == |s|
  {
    if s == [] then 0
    else JsLength(s[..|s| - 1]) + (if s[|s| - 1] as int < 0x1_0000 then 1 else 2)
  }

  /** A character outside the Basic Multilingual Plane counts twice. */
  lemma JsLengthSurrogatePair(prefix: string, c: char)
    requires c as int >= 0x1_0000
    ensures JsLength(prefix + [c]) == JsLength(prefix) + 2
  {
    assert (prefix + [c])[..|prefix|] == prefix;
  }

  /** Two-digit, zero-padded rendering, as date-fns prints `HH` and `mm`. */
  function TwoDigits(n: nat): (s: string)
    requires n < 100
    ensures |s| == 2 && AllDigits(s) && ParseDecimal(s) == n
  {
    var s := [DigitChar(n / 10), DigitChar(n % 10)];
    assert s[..1] == [DigitChar(n / 10)] && s[..1][..0] == [];
    assert ParseDecimal(s[..1]) == n / 10;
    s
  }

  /** `Array#join` with a one-character separator. */
  function Join(parts: seq<string>, sep: char): string
  {
    if |parts| == 0 then ""
    else if |parts| == 1 then parts[0]
    else parts[0] + [sep] + Join(parts[1..], sep)
  }

  /** `String#split` on one character: the pieces between separators, at least one. */
  function Split(s: string, sep: char): (parts: seq<string>)
    ensures 1 <= |parts|
    ensures forall i :: 0 <= i < |parts| ==> sep !in parts[i]
    ensures Join(parts, sep) == s
  {
    if s == [] then [""]
    else
      var rest := Split(s[1..], sep);
      if s[0] == sep then
        [""] + rest
      else
        var r := [[s[0]] + rest[0]] + rest[1..];
        assert r[1..] == rest[1..];
        r
  }

  /** The first piece of a split is the text before the first separator. */
  lemma {:induction false} SplitHead(s: string, sep: char)
    ensures var h := Split(s, sep)[0];
      h <= s && sep !in h && (|h| < |s| ==> s[|h|] == sep)
  {
    if s != [] && s[0] != sep {
      SplitHead(s[1..], sep);
    }
  }

  lemma {:induction false} SplitNoSeparator(s: string, sep: char, tail: string)
    requires sep !in s
    ensures Split(s + [sep] + tail, sep) == [s] + Split(tail, sep)
  {
    if s != [] {
      var x := s + [sep] + tail;
      assert x[0] == s[0] != sep;
      assert x[1..] == s[1..] + [sep] + tail;
      SplitNoSeparator(s[1..], sep, tail);
      var rest := Split(x[1..], sep);
      assert rest == [s[1..]] + Split(tail, sep);
      assert [s[0]] + rest[0] == s;
      assert Split(x, sep) == [[s[0]] + rest[0]] + rest[1..];
    } else {
      assert (s + [sep] + tail)[1..] == tail;
    }
  }

  lemma {:induction false} SplitWithoutSeparator(s: string, sep: char)
    requires sep !in s
    ensures Split(s, sep) == [s]
  {
    if s != [] {
      SplitWithoutSeparator(s[1..], sep);
    }
  }

  /** Joining pieces free of the separator and splitting again gives the pieces back. */
  lemma {:induction false} SplitJoin(parts: seq<string>, sep: char)
    requires 1 <= |parts|
    requires forall i :: 0 <= i < |parts| ==> sep !in parts[i]
    ensures Split(Join(parts, sep), sep) == parts
  {
    if |parts| == 1 {
      SplitWithoutSeparator(parts[0], sep);
    } else {
      SplitJoin(parts[1..], sep);
      SplitNoSeparator(parts[0], sep, Join(parts[1..], sep));
    }
  }

  /** A character outside every piece and different from the separator is outside the join. */
  lemma {:induction false} JoinAvoids(parts: seq<string>, sep: char, c: char)
    requires c != sep
    requires forall i :: 0 <= i < |parts| ==> c !in parts[i]
    ensures c !in Join(parts, sep)
  {
    if |parts| > 1 {
      JoinAvoids(parts[1..], sep, c);
    }
  }

  /** The longest prefix of `s` made of digits. */
  function DigitPrefix(s: string): (r: string)
    ensures r <= s && AllDigits(r)
    ensures |r| == |s| || !IsDigit(s[|r|])
  {
    if s == [] || !IsDigit(s[0]) then [] else [s[0]] + DigitPrefix(s[1..])
  }

  /** The first maximal run of decimal digits, the match of `/\d+/`. */
  function FirstDigitRun(s: string): (r: Option<string>)
    ensures r.None? <==> forall i :: 0 <= i < |s| ==> !IsDigit(s[i])
    ensures r.Some? ==> 1 <= |r.value| && AllDigits(r.value)
    ensures r.Some? ==> exists i :: 0 <= i < |s| && (forall j :: 0 <= j < i ==> !IsDigit(s[j])) && r.value == DigitPrefix(s[i..])
  {
    if s == [] then None
    else if IsDigit(s[0]) then
      assert s[0..] == s;
      Some(DigitPrefix(s))
    else
      var r := FirstDigitRun(s[1..]);
      if r.Some? then
        var i :| 0 <= i < |s[1..]| && (forall j :: 0 <= j < i ==> !IsDigit(s[1..][j])) && r.value == DigitPrefix(s[1..][i..]);
        assert s[i + 1..] == s[1..][i..];
        assert forall j :: 0 <= j < i + 1 ==> !IsDigit(s[j]) by {
          forall j | 1 <= j < i + 1 ensures !IsDigit(s[j]) {
            assert s[j] == s[1..][j - 1];
          }
        }
        r
      else
        assert forall i :: 1 <= i < |s| ==> s[i] == s[1..][i - 1];
        r
  }

  /** `s.includes(sub)`. */
  predicate Includes(s: string, sub: string)
    decreases |s|
  {
    |sub| <= |s| && (s[..|sub|] == sub || Includes(s[1..], sub))
  }

  /** Digits followed by a non-digit: the digit prefix is exactly those digits. */
  lemma {:induction false} DigitPrefixOfDigits(t: string, rest: string)
    requires AllDigits(t)
    requires rest == [] || !IsDigit(rest[0])
    ensures DigitPrefix(t + rest) == t
  {
    if t != [] {
      assert (t + rest)[1..] == t[1..] + rest;
      DigitPrefixOfDigits(t[1..], rest);
    }
  }

  /** Leading digits never take part in an inclusion of a text that starts with a letter. */
  lemma {:induction false} IncludesAfterDigits(t: string, rest: string, sub: string)
    requires AllDigits(t)
    requires sub != [] && !IsDigit(sub[0])
    ensures Includes(t + rest, sub) <==> Includes(rest, sub)
  {
    if t != [] {
      assert (t + rest)[1..] == t[1..] + rest;
      IncludesAfterDigits(t[1..], rest, sub);
      if |sub| <= |t + rest| {
        assert (t + rest)[..|sub|][0] == t[0];
        assert (t + rest)[..|sub|] != sub;
        assert Includes(t + rest, sub) == Includes(t[1..] + rest, sub);
      } else {
        assert !Includes(rest, sub) by { assert |rest| < |sub|; }
      }
    } else {
      assert t + rest == rest;
    }
  }

  /** Lexicographic order by character code, the order `localeCompare` is modelled by. */
  predicate StrLe(a: string, b: string)
    decreases |a|
  {
    a == [] || (b != [] && (a[0] < b[0] || (a[0] == b[0] && StrLe(a[1..], b[1..]))))
  }

  lemma {:induction false} StrLeTotal(a: string, b: string)
    ensures StrLe(a, b) || StrLe(b, a)
  {
    if a != [] && b != [] && a[0] == b[0] {
      StrLeTotal(a[1..], b[1..]);
    }
  }

  lemma {:induction false} StrLeTransitive(a: string, b: string, c: string)
    requires StrLe(a, b) && StrLe(b, c)
    ensures StrLe(a, c)
  {
    if a != [] && a[0] == b[0] && b[0] == c[0] {
      StrLeTransitive(a[1..], b[1..], c[1..]);
    }
  }

  lemma {:induction false} StrLeAntisymmetric(a: string, b: string)
    requires StrLe(a, b) && StrLe(b, a)
    ensures a == b
  {
    if a != [] {
      StrLeAntisymmetric(a[1..], b[1..]);
    }
  }

  /** `hsl(var(--chart-k))`, the colour of chart series `k`. */
  function ChartFill(k: nat): string
  {
    "hsl(var(--chart-" + DecimalString(k) + "))"
  }
}
