/** The identifier checks of the front end (`src/utils.ts`): ISBN-10 by the
    mod-11 weighted sum of ISO 2108, ISBN-13 and EAN-13 by the mod-10 1/3
    weighted check digit of section 7.9 of the GS1 General Specifications.
    The loops that add up the weighted sums are methods, each proved equal to
    a specification predicate; the lemmas state what those predicates mean. */
module Utils {
  import opened Text

  // ---------------------------------------------------------------------------
  // Digit extraction

  /** `identifier.replace(/\D/g, "")`: the `[0-9]` characters of `s`, in order. */
  function Digits(s: string): (r: string)
    ensures AllDigits(r) && |r| <= |s|
    ensures AllDigits(s) ==> r == s
  {
    if s == [] then [] else (if IsDigit(s[0]) then [s[0]] else []) + Digits(s[1..])
  }

  lemma {:induction false} DigitsAppend(a: string, b: string)
    ensures Digits(a + b) == Digits(a) + Digits(b)
  {
    if a == [] {
      assert a + b == b;
    } else {
      assert (a + b)[1..] == a[1..] + b;
      DigitsAppend(a[1..], b);
    }
  }

  // ---------------------------------------------------------------------------
  // Specification of the checksums

  /** `Σ_{i<n} d[i]·(10−i)`, the ISBN-10 weighted sum over the first `n` digits. */
  function Isbn10Sum(d: string, n: nat): int
    requires n <= |d| && AllDigits(d)
  {
    if n == 0 then 0 else Isbn10Sum(d, n - 1) + DigitValue(d[n - 1]) * (10 - (n - 1))
  }

  /** A 10-digit string passes when its weighted sum is a multiple of 11. */
  predicate Isbn10Valid(d: string)
    requires |d| == 10 && AllDigits(d)
  {
    Isbn10Sum(d, 10) % 11 == 0
  }

  /** The GS1 weights: 1 at even positions (from 0), 3 at odd ones. */
  function Weight13(i: nat): int { if i % 2 == 0 then 1 else 3 }

  /** `Σ_{i<n} d[i]·Weight13(i)`. */
  function Ean13Sum(d: string, n: nat): int
    requires n <= |d| && AllDigits(d)
  {
    if n == 0 then 0 else Ean13Sum(d, n - 1) + DigitValue(d[n - 1]) * Weight13(n - 1)
  }

  /** `(10 − (sum % 10)) % 10` over the first twelve digits. */
  function Ean13CheckDigit(d: string): (c: int)
    requires |d| >= 12 && AllDigits(d)
  {
    (10 - Ean13Sum(d, 12) % 10) % 10
  }

  /** A 13-digit string passes when its last digit is the check digit. */
  predicate Ean13Valid(d: string)
    requires |d| == 13 && AllDigits(d)
  {
    DigitValue(d[12]) == Ean13CheckDigit(d)
  }

  /** What `isISBN` accepts: 10 digits with a valid ISBN-10 sum, or 13 digits
      with a valid check digit; the other characters are discarded first. */
  predicate IsbnAccepts(s: string) {
    var d := Digits(s);
    if |d| == 10 then Isbn10Valid(d) else if |d| == 13 then Ean13Valid(d) else false
  }

  /** What `isEAN13` accepts: exactly 13 digits with a valid check digit. */
  predicate Ean13Accepts(s: string) {
    var d := Digits(s);
    |d| == 13 && Ean13Valid(d)
  }

  // ---------------------------------------------------------------------------
  // The functions of utils.ts

  /** `validateISBN10`: only called on ten digits. */
  method ValidateIsbn10(digits: string) returns (ok: bool)
    requires |digits| == 10 && AllDigits(digits)
    ensures ok == Isbn10Valid(digits)
  {
    var sum := 0;
    for i := 0 to 10
      invariant sum == Isbn10Sum(digits, i)
    {
      sum := sum + DigitValue(digits[i]) * (10 - i);
    }
    ok := sum % 11 == 0;
  }

  /** `validateISBN13`: only called on thirteen digits. */
  method ValidateIsbn13(digits: string) returns (ok: bool)
    requires |digits| == 13 && AllDigits(digits)
    ensures ok == Ean13Valid(digits)
  {
    var sum := 0;
    for i := 0 to 12
      invariant sum == Ean13Sum(digits, i)
    {
      sum := sum + DigitValue(digits[i]) * (if i % 2 == 0 then 1 else 3);
    }
    var checkDigit := (10 - sum % 10) % 10;
    ok := DigitValue(digits[12]) == checkDigit;
  }

  /** `isISBN`: false unless the string holds exactly 10 or 13 digits. */
  method IsIsbn(identifier: string) returns (ok: bool)
    ensures ok == IsbnAccepts(identifier)
    ensures |Digits(identifier)| != 10 && |Digits(identifier)| != 13 ==> !ok
  {
    var digits := Digits(identifier);
    if |digits| == 10 {
      ok := ValidateIsbn10(digits);
    } else if |digits| == 13 {
      ok := ValidateIsbn13(digits);
    } else {
      ok := false;
    }
  }

  /** `isEAN13`: false unless the string holds exactly 13 digits. */
  method IsEan13(identifier: string) returns (ok: bool)
    ensures ok == Ean13Accepts(identifier)
    ensures |Digits(identifier)| != 13 ==> !ok
  {
    var digits := Digits(identifier);
    if |digits| != 13 {
      return false;
    }
    var sum := 0;
    for i := 0 to 12
      invariant sum == Ean13Sum(digits, i)
    {
      sum := sum + DigitValue(digits[i]) * (if i % 2 == 0 then 1 else 3);
    }
    var checkDigit := (10 - sum % 10) % 10;
    ok := DigitValue(digits[12]) == checkDigit;
  }

  /** `isOnlyDigits`, the regular expression `^\d+$`: one digit, then
      digits up to the end. True exactly for non-empty all-digit strings. */
  function IsOnlyDigits(s: string): (r: bool)
    ensures r <==> s != [] && AllDigits(s)
  {
    s != [] && IsDigit(s[0]) && (|s| == 1 || IsOnlyDigits(s[1..]))
  }

  /** An argument of `cn`: a class name or one of the falsy values. */
  datatype ClassArg = ClassName(name: string) | False | Null | Undefined

  /** JavaScript truthiness of an argument: a non-empty class name. */
  predicate IsTruthy(c: ClassArg) {
    c.ClassName? && c.name != []
  }

  /** `classes.filter(Boolean)`: the non-empty class names, in order. */
  function KeptClasses(classes: seq<ClassArg>): (r: seq<string>)
    ensures forall k :: 0 <= k < |r| ==> r[k] != [] && ClassName(r[k]) in classes
    ensures forall k :: 0 <= k < |classes| && IsTruthy(classes[k]) ==> classes[k].name in r
    ensures |r| <= |classes|
  {
    if classes == [] then []
    else
      var rest := KeptClasses(classes[1..]);
      assert forall k :: 1 <= k < |classes| ==> classes[k] == classes[1..][k - 1];
      (if IsTruthy(classes[0]) then [classes[0].name] else []) + rest
  }

  /** The filter keeps the order of the arguments: it distributes over
      concatenation. */
  lemma {:induction false} KeptClassesAppend(a: seq<ClassArg>, b: seq<ClassArg>)
    ensures KeptClasses(a + b) == KeptClasses(a) + KeptClasses(b)
  {
    if a != [] {
      assert (a + b)[0] == a[0] && (a + b)[1..] == a[1..] + b;
      KeptClassesAppend(a[1..], b);
    } else {
      assert a + b == b;
    }
  }

  /** `cn(...classes)`: the kept class names joined by single spaces. */
  function Cn(classes: seq<ClassArg>): string {
    Join(KeptClasses(classes), " ")
  }

  // ---------------------------------------------------------------------------
  // Properties

  /** Non-digit characters never matter: inserting one anywhere leaves the
      verdicts of `isISBN` and `isEAN13` unchanged. */
  lemma OnlyDigitsMatter(a: string, c: char, b: string)
    requires !IsDigit(c)
    ensures IsbnAccepts(a + [c] + b) == IsbnAccepts(a + b)
    ensures Ean13Accepts(a + [c] + b) == Ean13Accepts(a + b)
  {
    DigitsAppend(a + [c], b);
    DigitsAppend(a, [c]);
    DigitsAppend(a, b);
    assert Digits([c]) == [];
    assert Digits(a + [c] + b) == Digits(a + b);
  }

  /** Both checks see only the `[0-9]` subsequence. */
  lemma DigitsDecide(s: string)
    ensures IsbnAccepts(s) == IsbnAccepts(Digits(s))
    ensures Ean13Accepts(s) == Ean13Accepts(Digits(s))
  {
  }

  /** Nine digits followed by the check character `X` (or `x`) hold only nine
      digits once the `X` is discarded, so `isISBN` rejects them. */
  lemma NineDigitsAndXRejected(d: string, x: char)
    requires |d| == 9 && AllDigits(d)
    requires x == 'X' || x == 'x'
    ensures !IsbnAccepts(d + [x])
  {
    DigitsAppend(d, [x]);
    assert Digits([x]) == [];
  }

  /** On 13 digits the two checks agree: `isISBN(s) == isEAN13(s)`. */
  lemma ThirteenDigitsAgree(s: string)
    requires |Digits(s)| == 13
    ensures IsbnAccepts(s) == Ean13Accepts(s)
  {
  }

  lemma ModMultiple11(a: int, y: int)
    requires a % 11 == 0
    ensures (a + y) % 11 == y % 11
  {
  }

  lemma ModMultiple10(a: int, y: int)
    requires a % 10 == 0
    ensures (a + y) % 10 == y % 10
  {
  }

  /** `x·w` is not a multiple of 11 for a non-zero digit difference `x` and a
      weight `w` in 1..10. */
  lemma NotMultipleOf11(x: int, w: int)
    requires -9 <= x <= 9 && x != 0 && 1 <= w <= 10
    ensures (x * w) % 11 != 0
  {
    var p := x * w;
    assert -90 <= p <= 90 && p != 0;
  }

  lemma {:induction false} Isbn10SumUpdate(d: string, i: nat, c: char, n: nat)
    requires AllDigits(d) && IsDigit(c) && i < |d| && n <= |d|
    ensures Isbn10Sum(d[i := c], n)
            == Isbn10Sum(d, n) + (if i < n then (DigitValue(c) - DigitValue(d[i])) * (10 - i) else 0)
  {
    if n > 0 {
      Isbn10SumUpdate(d, i, c, n - 1);
      var e := d[i := c];
      var w := 10 - (n - 1);
      if n - 1 == i {
        assert DigitValue(c) * w == DigitValue(d[i]) * w + (DigitValue(c) - DigitValue(d[i])) * w;
      } else {
        assert e[n - 1] == d[n - 1];
      }
    }
  }

  /** Changing any single digit of an accepted 10-digit string makes it rejected. */
  lemma Isbn10DetectsSingleError(d: string, i: nat, c: char)
    requires |d| == 10 && AllDigits(d) && Isbn10Valid(d)
    requires i < 10 && IsDigit(c) && c != d[i]
    ensures AllDigits(d[i := c]) && !Isbn10Valid(d[i := c])
    ensures !IsbnAccepts(d[i := c])
  {
    var x := DigitValue(c) - DigitValue(d[i]);
    Isbn10SumUpdate(d, i, c, 10);
    NotMultipleOf11(x, 10 - i);
    ModMultiple11(Isbn10Sum(d, 10), x * (10 - i));
  }

  lemma {:induction false} Ean13SumUpdate(d: string, i: nat, c: char, n: nat)
    requires AllDigits(d) && IsDigit(c) && i < |d| && n <= |d|
    ensures Ean13Sum(d[i := c], n)
            == Ean13Sum(d, n) + (if i < n then (DigitValue(c) - DigitValue(d[i])) * Weight13(i) else 0)
  {
    if n > 0 {
      Ean13SumUpdate(d, i, c, n - 1);
      var e := d[i := c];
      var w := Weight13(n - 1);
      if n - 1 == i {
        assert DigitValue(c) * w == DigitValue(d[i]) * w + (DigitValue(c) - DigitValue(d[i])) * w;
      } else {
        assert e[n - 1] == d[n - 1];
      }
    }
  }

  /** A non-zero digit difference times a GS1 weight is not a multiple of 10. */
  lemma WeightedDifference13(x: int, i: nat)
    requires -9 <= x <= 9 && x != 0
    ensures (x * Weight13(i)) % 10 != 0
  {
    if Weight13(i) == 1 { assert x * Weight13(i) == x; }
    else { assert x * Weight13(i) == 3 * x; }
  }

  /** Adding what is not a multiple of 10 changes the last decimal digit. */
  lemma ShiftChangesMod10(s: int, y: int)
    requires y % 10 != 0
    ensures (s + y) % 10 != s % 10
  {
    ModMultiple10(s - s % 10, y + s % 10);
    assert (s - s % 10) + (y + s % 10) == s + y;
  }

  /** Changing one of the twelve summed digits changes the check digit. */
  lemma Ean13CheckDigitMoves(d: string, i: nat, c: char)
    requires |d| == 13 && AllDigits(d)
    requires i < 12 && IsDigit(c) && c != d[i]
    ensures AllDigits(d[i := c]) && Ean13CheckDigit(d[i := c]) != Ean13CheckDigit(d)
  {
    var e := d[i := c];
    var x := DigitValue(c) - DigitValue(d[i]);
    var y := x * Weight13(i);
    var s := Ean13Sum(d, 12);
    Ean13SumUpdate(d, i, c, 12);
    assert Ean13Sum(e, 12) == s + y;
    WeightedDifference13(x, i);
    ShiftChangesMod10(s, y);
    ComplementsDiffer((s + y) % 10, s % 10);
  }

  /** Two different last digits have different complements modulo 10. */
  lemma ComplementsDiffer(r1: int, r2: int)
    requires 0 <= r1 < 10 && 0 <= r2 < 10 && r1 != r2
    ensures (10 - r1) % 10 != (10 - r2) % 10
  {
  }

  /** Changing any single digit of an accepted 13-digit string makes it rejected,
      whether the digit is one of the twelve summed ones or the check digit. */
  lemma Ean13DetectsSingleError(d: string, i: nat, c: char)
    requires |d| == 13 && AllDigits(d) && Ean13Valid(d)
    requires i < 13 && IsDigit(c) && c != d[i]
    ensures AllDigits(d[i := c]) && !Ean13Valid(d[i := c])
    ensures !IsbnAccepts(d[i := c]) && !Ean13Accepts(d[i := c])
  {
    var e := d[i := c];
    assert AllDigits(e);
    if i < 12 {
      Ean13CheckDigitMoves(d, i, c);
      assert e[12] == d[12];
    } else {
      Ean13SumUpdate(d, i, c, 12);
    }
    assert Digits(e) == e;
  }

  /** The full-sum form of the GS1 check: counting the check digit with weight
      1, the weighted sum of all thirteen digits is a multiple of 10. */
  lemma Ean13FullSum(d: string)
    requires |d| == 13 && AllDigits(d)
    ensures Ean13Valid(d) <==> Ean13Sum(d, 13) % 10 == 0
  {
    var s := Ean13Sum(d, 12);
    assert Ean13Sum(d, 13) == s + DigitValue(d[12]);
    ModMultiple10(s - s % 10, s % 10 + DigitValue(d[12]));
    assert (s - s % 10) + (s % 10 + DigitValue(d[12])) == Ean13Sum(d, 13);
  }

  /** `Σ_{i<n} d[i]·(i+1)`, the ISBN-10 sum with the weights in the other order. */
  function Isbn10AscendingSum(d: string, n: nat): int
    requires n <= |d| && AllDigits(d)
  {
    if n == 0 then 0 else Isbn10AscendingSum(d, n - 1) + DigitValue(d[n - 1]) * n
  }

  function DigitSum(d: string, n: nat): int
    requires n <= |d| && AllDigits(d)
  {
    if n == 0 then 0 else DigitSum(d, n - 1) + DigitValue(d[n - 1])
  }

  lemma {:induction false} Isbn10SumsAddUp(d: string, n: nat)
    requires n <= |d| && AllDigits(d)
    ensures Isbn10Sum(d, n) + Isbn10AscendingSum(d, n) == 11 * DigitSum(d, n)
  {
    if n > 0 { Isbn10SumsAddUp(d, n - 1); }
  }

  /** The ISBN-10 rule does not depend on the direction of the weights:
      `Σ d[i]·(10−i)` is a multiple of 11 exactly when `Σ d[i]·(i+1)` is. */
  lemma Isbn10EitherWeighting(d: string)
    requires |d| == 10 && AllDigits(d)
    ensures Isbn10Valid(d) <==> Isbn10AscendingSum(d, 10) % 11 == 0
  {
    Isbn10SumsAddUp(d, 10);
    var t := DigitSum(d, 10);
    ModMultiple11(11 * t, -Isbn10Sum(d, 10));
    ModMultiple11(11 * t, -Isbn10AscendingSum(d, 10));
  }

  /** `cn` keeps the kept class names recoverable: splitting its result on
      spaces gives them back, in order, when no name holds a space. */
  lemma CnSplits(classes: seq<ClassArg>)
    requires forall k :: 0 <= k < |classes| && classes[k].ClassName? ==> ' ' !in classes[k].name
    requires KeptClasses(classes) != []
    ensures Split(Cn(classes), ' ') == KeptClasses(classes)
  {
    KeptHaveNoSpace(classes);
    SplitJoin(KeptClasses(classes), ' ');
  }

  lemma {:induction false} KeptHaveNoSpace(classes: seq<ClassArg>)
    requires forall k :: 0 <= k < |classes| && classes[k].ClassName? ==> ' ' !in classes[k].name
    ensures forall k :: 0 <= k < |KeptClasses(classes)| ==> ' ' !in KeptClasses(classes)[k]
  {
    if classes != [] { KeptHaveNoSpace(classes[1..]); }
  }

  /** `cn` gives the empty string exactly when every argument is falsy. */
  lemma {:induction false} CnEmpty(classes: seq<ClassArg>)
    ensures Cn(classes) == [] <==> KeptClasses(classes) == []
    ensures Cn(classes) == [] <==> forall k :: 0 <= k < |classes| ==> !IsTruthy(classes[k])
  {
    var kept := KeptClasses(classes);
    if kept != [] {
      assert ClassName(kept[0]) in classes;
    }
    if |kept| >= 2 {
      JoinCons(kept[0], kept[1..], " ");
      assert kept == [kept[0]] + kept[1..];
    }
  }
}
