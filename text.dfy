/** ASCII models of the string and array built-ins the application leans on:
    JavaScript's `trim`, `split`, `join`, `toLowerCase`, `includes`,
    `filter(Boolean)` and `Array.from(new Set(..))`, and Rust's
    `i64::to_string`. Strings are sequences of characters; whitespace, case and
    digits are the ASCII ones. */
module Text {

  // ---------------------------------------------------------------------------
  // Character classes

  /** The regular-expression class `[0-9]` (JavaScript's `\d` without the `u` flag). */
  predicate IsDigit(c: char) { '0' <= c <= '9' }

  predicate AllDigits(s: string) { forall i :: 0 <= i < |s| ==> IsDigit(s[i]) }

  /** The ASCII characters that `String.prototype.trim` removes. */
  predicate IsSpace(c: char) {
    c == ' ' || c == '\t' || c == '\n' || c == '\r' || c == '\U{000B}' || c == '\U{000C}'
  }

  predicate AllSpace(s: string) { forall i :: 0 <= i < |s| ==> IsSpace(s[i]) }

  /** No whitespace at either end. */
  predicate IsTrimmed(s: string) { s == [] || (!IsSpace(s[0]) && !IsSpace(s[|s| - 1])) }

  // ---------------------------------------------------------------------------
  // trim

  function TrimStart(s: string): (r: string)
    ensures |r| <= |s|
    ensures r == [] || !IsSpace(r[0])
    ensures forall c :: c in r ==> c in s
  {
    if |s| > 0 && IsSpace(s[0]) then TrimStart(s[1..]) else s
  }

  /** `TrimStart` removes a blank prefix and nothing else. */
  lemma {:induction false} TrimStartShape(s: string)
    ensures TrimStart(s) == s[|s| - |TrimStart(s)|..]
    ensures AllSpace(s[..|s| - |TrimStart(s)|])
  {
    if |s| > 0 && IsSpace(s[0]) {
      TrimStartShape(s[1..]);
      var r := TrimStart(s);
      assert s[..|s| - |r|] == [s[0]] + s[1..][..|s| - 1 - |r|];
    }
  }

  function TrimEnd(s: string): (r: string)
    ensures |r| <= |s|
    ensures r == [] || !IsSpace(r[|r| - 1])
    ensures forall c :: c in r ==> c in s
  {
    if |s| > 0 && IsSpace(s[|s| - 1]) then TrimEnd(s[..|s| - 1]) else s
  }

  /** `TrimEnd` removes a blank suffix and nothing else. */
  lemma {:induction false} TrimEndShape(s: string)
    ensures TrimEnd(s) == s[..|TrimEnd(s)|]
    ensures AllSpace(s[|TrimEnd(s)|..])
  {
    if |s| > 0 && IsSpace(s[|s| - 1]) {
      var p := s[..|s| - 1];
      TrimEndShape(p);
      var r := TrimEnd(s);
      assert s[|r|..] == p[|r|..] + [s[|s| - 1]];
    }
  }

  /** `s.trim()`: the result has no whitespace at either end, is empty exactly
      when `s` is all whitespace, and is `s` itself when `s` is already trimmed. */
  function Trim(s: string): (r: string)
    ensures IsTrimmed(r)
    ensures |r| <= |s|
    ensures r == [] <==> AllSpace(s)
    ensures IsTrimmed(s) ==> r == s
    ensures forall c :: c in r ==> c in s
    ensures exists i, j :: 0 <= i <= j <= |s| && r == s[i..j] && AllSpace(s[..i]) && AllSpace(s[j..])
  {
    var t := TrimStart(s);
    var r := TrimEnd(t);
    TrimStartShape(s);
    TrimEndShape(t);
    assert r != [] ==> r[0] == t[0];
    assert r == [] ==> AllSpace(s) by {
      if r == [] {
        assert s == s[..|s| - |t|] + t;
        assert t == t[|r|..];
      }
    }
    assert IsTrimmed(s) ==> r == s by {
      if IsTrimmed(s) && s != [] {
        assert t == s;
        assert r == t;
      }
    }
    var i, j := |s| - |t|, |s| - |t| + |r|;
    assert t == s[i..];
    assert r == s[i..j] && s[j..] == t[|r|..];
    r
  }

  lemma TrimKeepsOut(s: string, c: char)
    requires c !in s
    ensures c !in Trim(s)
  {
  }

  /** A leading space makes no difference to the trimmed value. */
  lemma TrimLeadingSpace(s: string)
    ensures Trim([' '] + s) == Trim(s)
  {
    assert ([' '] + s)[1..] == s;
  }

  // ---------------------------------------------------------------------------
  // split and join

  /** `s.split(sep)` for a one-character separator: the maximal separator-free
      pieces, so there is always at least one piece (`"".split(",")` is `[""]`). */
  function Split(s: string, sep: char): (r: seq<string>)
    ensures |r| >= 1
    ensures forall k :: 0 <= k < |r| ==> sep !in r[k]
  {
    if s == [] then [[]]
    else
      var rest := Split(s[1..], sep);
      if s[0] == sep then [[]] + rest else [[s[0]] + rest[0]] + rest[1..]
  }

  /** `xs.join(sep)`: `""` for no elements. */
  function Join(xs: seq<string>, sep: string): string
  {
    if |xs| == 0 then [] else if |xs| == 1 then xs[0] else xs[0] + sep + Join(xs[1..], sep)
  }

  lemma JoinCons(x: string, xs: seq<string>, sep: string)
    requires xs != []
    ensures Join([x] + xs, sep) == x + sep + Join(xs, sep)
  {
    assert ([x] + xs)[1..] == xs;
  }

  /** Joining the pieces with the separator gives back the string. */
  lemma {:induction false} JoinSplit(s: string, sep: char)
    ensures Join(Split(s, sep), [sep]) == s
  {
    if s != [] {
      var rest := Split(s[1..], sep);
      JoinSplit(s[1..], sep);
      if s[0] == sep {
        JoinCons([], rest, [sep]);
        assert s == [sep] + s[1..];
      } else if |rest| == 1 {
        assert s == [s[0]] + s[1..];
      } else {
        JoinCons(rest[0], rest[1..], [sep]);
        assert rest == [rest[0]] + rest[1..];
        JoinCons([s[0]] + rest[0], rest[1..], [sep]);
        assert s == [s[0]] + s[1..];
      }
    }
  }

  lemma {:induction false} SplitNoSep(a: string, sep: char)
    requires sep !in a
    ensures Split(a, sep) == [a]
  {
    if a != [] {
      SplitNoSep(a[1..], sep);
      assert a == [a[0]] + a[1..];
    }
  }

  lemma {:induction false} SplitCons(a: string, sep: char, t: string)
    requires sep !in a
    ensures Split(a + [sep] + t, sep) == [a] + Split(t, sep)
  {
    var s := a + [sep] + t;
    if a == [] {
      assert s[1..] == t;
    } else {
      assert s[1..] == a[1..] + [sep] + t;
      SplitCons(a[1..], sep, t);
      assert a == [a[0]] + a[1..];
    }
  }

  /** Splitting the join of separator-free pieces gives back the pieces. */
  lemma {:induction false} SplitJoin(ys: seq<string>, sep: char)
    requires |ys| >= 1
    requires forall k :: 0 <= k < |ys| ==> sep !in ys[k]
    ensures Split(Join(ys, [sep]), sep) == ys
  {
    if |ys| == 1 {
      SplitNoSep(ys[0], sep);
    } else {
      SplitJoin(ys[1..], sep);
      SplitCons(ys[0], sep, Join(ys[1..], [sep]));
      assert ys == [ys[0]] + ys[1..];
    }
  }

  // ---------------------------------------------------------------------------
  // split(",").map(s => s.trim()).filter(Boolean)

  function TrimAll(xs: seq<string>): (r: seq<string>)
    ensures |r| == |xs|
    ensures forall k :: 0 <= k < |r| ==> r[k] == Trim(xs[k])
  {
    if xs == [] then [] else [Trim(xs[0])] + TrimAll(xs[1..])
  }

  /** `filter(Boolean)` on strings: drops the empty ones, keeps the order. */
  function NonEmpty(xs: seq<string>): (r: seq<string>)
    ensures forall k :: 0 <= k < |r| ==> r[k] != [] && r[k] in xs
    ensures forall k :: 0 <= k < |xs| && xs[k] != [] ==> xs[k] in r
  {
    if xs == [] then [] else (if xs[0] == [] then [] else [xs[0]]) + NonEmpty(xs[1..])
  }

  lemma {:induction false} NonEmptyAppend(a: seq<string>, b: seq<string>)
    ensures NonEmpty(a + b) == NonEmpty(a) + NonEmpty(b)
  {
    if a != [] {
      assert (a + b)[1..] == a[1..] + b;
      NonEmptyAppend(a[1..], b);
    } else {
      assert a + b == b;
    }
  }

  lemma {:induction false} NonEmptyKeeps(xs: seq<string>, sep: char)
    requires forall k :: 0 <= k < |xs| ==> IsTrimmed(xs[k]) && sep !in xs[k]
    ensures forall k :: 0 <= k < |NonEmpty(xs)| ==> IsTrimmed(NonEmpty(xs)[k]) && sep !in NonEmpty(xs)[k]
  {
    if xs != [] { NonEmptyKeeps(xs[1..], sep); }
  }

  lemma NonEmptyAll(xs: seq<string>)
    requires forall k :: 0 <= k < |xs| ==> xs[k] != []
    ensures NonEmpty(xs) == xs
  {
  }

  /** The comma-list idiom `s.split(sep).map(trim).filter(Boolean)`: every token
      is non-empty, trimmed and free of the separator. */
  function Tokens(s: string, sep: char): (r: seq<string>)
    ensures forall k :: 0 <= k < |r| ==> r[k] != [] && IsTrimmed(r[k]) && sep !in r[k]
  {
    var pieces := Split(s, sep);
    var trimmed := TrimAll(pieces);
    forall k | 0 <= k < |trimmed| ensures IsTrimmed(trimmed[k]) && sep !in trimmed[k] {
      TrimKeepsOut(pieces[k], sep);
    }
    NonEmptyKeeps(trimmed, sep);
    NonEmpty(trimmed)
  }

  lemma TokensLeadingSpace(t: string, sep: char)
    requires sep != ' '
    ensures Tokens([' '] + t, sep) == Tokens(t, sep)
  {
    var s := [' '] + t;
    assert s[1..] == t;
    var rest := Split(t, sep);
    assert Split(s, sep) == [[' '] + rest[0]] + rest[1..];
    TrimLeadingSpace(rest[0]);
    assert TrimAll(Split(s, sep)) == TrimAll(rest);
  }

  lemma TokensCons(a: string, sep: char, t: string)
    requires a != [] && IsTrimmed(a) && sep !in a
    ensures Tokens(a + [sep] + t, sep) == [a] + Tokens(t, sep)
  {
    SplitCons(a, sep, t);
    var rest := Split(t, sep);
    assert TrimAll([a] + rest) == [a] + TrimAll(rest);
    NonEmptyAppend([a], TrimAll(rest));
  }

  /** `"".split(sep)` is `[""]`, which the filter drops. */
  lemma TokensEmpty(sep: char)
    ensures Tokens([], sep) == []
  {
    assert TrimAll([[]]) == [[]];
    assert NonEmpty([[]]) == [] + NonEmpty([]);
  }

  lemma TokensSingle(a: string, sep: char)
    requires a != [] && IsTrimmed(a) && sep !in a
    ensures Tokens(a, sep) == [a]
  {
    SplitNoSep(a, sep);
    assert TrimAll([a]) == [a];
    assert NonEmpty([a]) == [a] + NonEmpty([]);
  }

  /** A blank string has no tokens. */
  lemma TokensBlank(s: string, sep: char)
    requires !IsSpace(sep)
    ensures AllSpace(s) ==> Tokens(s, sep) == []
  {
    if AllSpace(s) {
      assert sep !in s by {
        forall i | 0 <= i < |s| ensures s[i] != sep { assert IsSpace(s[i]); }
      }
      SplitNoSep(s, sep);
      assert Trim(s) == [];
      assert TrimAll([s]) == [[]];
      assert NonEmpty([[]]) == [] + NonEmpty([]);
    }
  }

  /** Trimmed, non-empty, separator-free elements survive a join with
      `sep + " "` followed by the comma-list idiom. */
  lemma {:induction false} TokensOfJoin(xs: seq<string>, sep: char)
    requires sep != ' '
    requires forall k :: 0 <= k < |xs| ==> xs[k] != [] && IsTrimmed(xs[k]) && sep !in xs[k]
    ensures Tokens(Join(xs, [sep, ' ']), sep) == xs
  {
    if xs == [] {
      TokensEmpty(sep);
    } else if |xs| == 1 {
      TokensSingle(xs[0], sep);
    } else {
      var t := Join(xs[1..], [sep, ' ']);
      assert xs == [xs[0]] + xs[1..];
      JoinCons(xs[0], xs[1..], [sep, ' ']);
      assert xs[0] + [sep, ' '] + t == xs[0] + [sep] + ([' '] + t);
      TokensCons(xs[0], sep, [' '] + t);
      TokensLeadingSpace(t, sep);
      TokensOfJoin(xs[1..], sep);
    }
  }

  /** A trailing empty element, which `join` renders as nothing, adds no
      token. */
  lemma {:induction false} TokensOfJoinEmptyLast(xs: seq<string>, sep: char)
    requires !IsSpace(sep)
    requires forall k :: 0 <= k < |xs| ==> xs[k] != [] && IsTrimmed(xs[k]) && sep !in xs[k]
    ensures Tokens(Join(xs + [[]], [sep, ' ']), sep) == xs
  {
    var ys := xs + [[]];
    if xs == [] {
      assert ys == [[]];
      TokensEmpty(sep);
    } else {
      assert ys == [xs[0]] + (xs[1..] + [[]]);
      var t := Join(xs[1..] + [[]], [sep, ' ']);
      JoinCons(xs[0], xs[1..] + [[]], [sep, ' ']);
      assert xs[0] + [sep, ' '] + t == xs[0] + [sep] + ([' '] + t);
      TokensCons(xs[0], sep, [' '] + t);
      TokensLeadingSpace(t, sep);
      TokensOfJoinEmptyLast(xs[1..], sep);
      assert xs == [xs[0]] + xs[1..];
    }
  }

  // ---------------------------------------------------------------------------
  // toLowerCase and includes

  function LowerChar(c: char): char {
    if 'A' <= c <= 'Z' then (c as int + 32) as char else c
  }

  /** `s.toLowerCase()` on ASCII letters. */
  function Lower(s: string): string {
    seq(|s|, i requires 0 <= i < |s| => LowerChar(s[i]))
  }

  /** `h.includes(n)`: `n` occurs in `h` as a contiguous piece. */
  predicate Includes(h: string, n: string)
    decreases |h|
  {
    n <= h || (h != [] && Includes(h[1..], n))
  }

  lemma {:induction false} IncludesAt(h: string, n: string, i: nat)
    requires i + |n| <= |h| && h[i..i + |n|] == n
    ensures Includes(h, n)
  {
    if i > 0 {
      assert h[1..][i - 1..i - 1 + |n|] == n;
      IncludesAt(h[1..], n, i - 1);
    }
  }

  /** The empty string is included in every string (`"abc".includes("")`). */
  lemma IncludesEmpty(h: string)
    ensures Includes(h, [])
  {
  }

  // ---------------------------------------------------------------------------
  // Array.from(new Set(xs)), subsequences

  predicate Distinct<T(==)>(xs: seq<T>) {
    forall i, j :: 0 <= i < j < |xs| ==> xs[i] != xs[j]
  }

  /** The position of the first occurrence of `x`. */
  function IndexOf<T(==)>(xs: seq<T>, x: T): (k: nat)
    requires x in xs
    ensures k < |xs| && xs[k] == x && x !in xs[..k]
  {
    if xs[0] == x then 0 else 1 + IndexOf(xs[1..], x)
  }

  lemma {:induction false} IndexOfExtend<T>(p: seq<T>, z: T, y: T)
    requires y in p
    ensures IndexOf(p + [z], y) == IndexOf(p, y)
  {
    if p[0] != y {
      assert (p + [z])[1..] == p[1..] + [z];
      IndexOfExtend(p[1..], z, y);
    }
  }

  /** `Array.from(new Set(xs))`: each element once, at its first occurrence's
      place in the order. */
  function Dedup<T(==,!new)>(xs: seq<T>): (r: seq<T>)
    ensures Distinct(r)
    ensures forall x :: x in r <==> x in xs
    ensures forall i, j :: 0 <= i < j < |r| ==> IndexOf(xs, r[i]) < IndexOf(xs, r[j])
  {
    if xs == [] then []
    else
      var p := xs[..|xs| - 1];
      var z := xs[|xs| - 1];
      var d := Dedup(p);
      assert xs == p + [z];
      forall y | y in p ensures IndexOf(xs, y) == IndexOf(p, y) { IndexOfExtend(p, z, y); }
      if z in d then d
      else
        assert IndexOf(xs, z) == |p| by {
          assert z !in p;
          assert xs[..|p|] == p;
        }
        d + [z]
  }

  /** `xs.filter(y => y !== x)` */
  function Without<T(==,!new)>(xs: seq<T>, x: T): (r: seq<T>)
    ensures forall y :: y in r <==> y in xs && y != x
    ensures |r| <= |xs|
    ensures x !in xs ==> r == xs
    ensures IsSubsequence(r, xs)
    ensures multiset(r) == multiset(xs)[x := 0]
  {
    if xs == [] then []
    else
      var rest := Without(xs[1..], x);
      assert xs == [xs[0]] + xs[1..];
      if xs[0] == x then rest
      else
        assert ([xs[0]] + rest)[1..] == rest;
        [xs[0]] + rest
  }

  /** `xs` is obtained from `ys` by deleting elements. */
  predicate IsSubsequence<T(==)>(xs: seq<T>, ys: seq<T>)
    decreases |ys|
  {
    xs == [] || (ys != [] && ((xs[0] == ys[0] && IsSubsequence(xs[1..], ys[1..])) || IsSubsequence(xs, ys[1..])))
  }

  // ---------------------------------------------------------------------------
  // Decimal rendering (`i64::to_string`)

  function DigitChar(d: nat): (c: char)
    requires d < 10
    ensures IsDigit(c)
  {
    (('0' as int) + d) as char
  }

  function DigitValue(c: char): (d: nat)
    requires IsDigit(c)
    ensures d < 10
  {
    c as int - '0' as int
  }

  /** The decimal digits of `n`, most significant first, without leading zeros. */
  function NatString(n: nat): (s: string)
    ensures s != [] && AllDigits(s)
    ensures |s| > 1 ==> s[0] != '0'
  {
    if n < 10 then [DigitChar(n)] else NatString(n / 10) + [DigitChar(n % 10)]
  }

  /** `n.to_string()`: a minus sign for negative numbers, then the digits. */
  function DecimalString(n: int): string
  {
    if n < 0 then "-" + NatString(-n) else NatString(n)
  }

  /** The value of a string of decimal digits, read most significant first. */
  function ParseNat(s: string): nat
    requires AllDigits(s)
  {
    if s == [] then 0 else 10 * ParseNat(s[..|s| - 1]) + DigitValue(s[|s| - 1])
  }

  /** Reading the rendered digits back gives the number. */
  lemma {:induction false} ParseNatString(n: nat)
    ensures ParseNat(NatString(n)) == n
  {
    if n >= 10 {
      ParseNatString(n / 10);
      var s := NatString(n);
      assert s[..|s| - 1] == NatString(n / 10);
    }
  }

  // ---------------------------------------------------------------------------
  // parseInt(s, 10)

  /** A JavaScript number as `parseInt` produces it. */
  datatype JsNumber = Int(value: int) | NaN

  /** The longest run of decimal digits at the start of `s`. */
  function DigitPrefix(s: string): (r: string)
    ensures AllDigits(r) && r <= s
    ensures |r| < |s| ==> !IsDigit(s[|r|])
  {
    if s != [] && IsDigit(s[0]) then [s[0]] + DigitPrefix(s[1..]) else []
  }

  /** `parseInt(s, 10)`: leading whitespace, an optional sign, then the
      longest digit prefix; `NaN` when there is no digit there. */
  function ParseInt(s: string): (r: JsNumber)
  {
    var t := TrimStart(s);
    var negative := t != [] && t[0] == '-';
    var body := if t != [] && (t[0] == '-' || t[0] == '+') then t[1..] else t;
    var digits := DigitPrefix(body);
    var magnitude: int := if digits == [] then 0 else ParseNat(digits);
    if digits == [] then NaN else Int(if negative then -magnitude else magnitude)
  }

  /** `parseInt` reads back every number `to_string` renders. */
  lemma ParseIntDecimal(n: int)
    ensures ParseInt(DecimalString(n)) == Int(n)
  {
    var m: nat := if n < 0 then -n else n;
    var digits := NatString(m);
    var s := DecimalString(n);
    DigitPrefixAll(digits);
    ParseNatString(m);
    if n < 0 {
      assert s == "-" + digits;
      assert s[0] == '-' && s[1..] == digits;
      TrimStartNoSpace(s);
    } else {
      assert s == digits;
      assert IsDigit(s[0]);
      TrimStartNoSpace(s);
    }
  }

  lemma TrimStartNoSpace(s: string)
    requires s != [] && !IsSpace(s[0])
    ensures TrimStart(s) == s
  {
  }

  lemma {:induction false} DigitPrefixAll(s: string)
    requires AllDigits(s)
    ensures DigitPrefix(s) == s
  {
    if s != [] {
      DigitPrefixAll(s[1..]);
      assert s == [s[0]] + s[1..];
    }
  }

  /** Only the digit prefix counts: `"1.5"` reads as 1, while a leading dot
      or an empty string is not a number. */
  lemma ParseIntExamples()
    ensures ParseInt("1.5") == Int(1)
    ensures ParseInt(".5") == NaN
    ensures ParseInt("") == NaN
  {
    assert TrimStart("1.5") == "1.5" by { TrimStartNoSpace("1.5"); }
    assert DigitPrefix("1.5") == "1" by { assert DigitPrefix(".5") == []; }
    assert ParseNat("1") == 1 by { assert "1"[..0] == []; }
    assert TrimStart(".5") == ".5" by { TrimStartNoSpace(".5"); }
  }
}
