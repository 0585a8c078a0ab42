/**
 Check digits: the Luhn sum and its check digit, and the MOD-97 check code of an IBAN.
 */
module Checksums {
  import opened Text
  import opened Placeholder

  // ---- Luhn ----

  function DigitOf(c: char): int {
    c as int - '0' as int
  }

  /** What one digit adds to the sum. */
  function Weight(c: char, doubled: bool): int {
    var d := if doubled then DigitOf(c) * 2 else DigitOf(c);
    if doubled && d > 9 then d - 9 else d
  }

  /** The sum as the standard defines it: from the right, every second digit is doubled. */
  function FromRight(s: string, doubled: bool): int {
    if s == "" then 0 else Weight(s[|s| - 1], doubled) + FromRight(s[..|s| - 1], !doubled)
  }

  /** The same sum as the code takes it: from the left, doubling the positions of one parity. */
  method SumByParity(digits: string, parity: int) returns (sum: int)
    requires parity == 0 || parity == 1
    ensures sum == FromRight(digits, (|digits| + 1) % 2 == parity)
  {
    sum := 0;
    for i := 0 to |digits|
      invariant sum == FromRight(digits[..i], (i + 1) % 2 == parity)
    {
      var d := DigitOf(digits[i]);
      if i % 2 == parity {
        d := d * 2;
        if d > 9 {
          d := d - 9;
        }
      }
      sum := sum + d;
      assert digits[..i + 1][..i] == digits[..i];
    }
    assert digits[..|digits|] == digits;
  }

  method LuhnSum(digits: string) returns (sum: int)
    requires Digits(digits)
    ensures sum == FromRight(digits, false)
  {
    sum := SumByParity(digits, |digits| % 2);
  }

  /** A valid number: digits only, at least one, and a sum that ends in zero. */
  predicate IsLuhn(s: string) {
    s != "" && Digits(s) && FromRight(s, false) % 10 == 0
  }

  method LuhnValid(digits: string) returns (valid: bool)
    ensures valid <==> IsLuhn(digits)
  {
    if |digits| == 0 {
      return false;
    }
    for i := 0 to |digits|
      invariant Digits(digits[..i])
    {
      if digits[i] < '0' || digits[i] > '9' {
        return false;
      }
    }
    assert digits[..|digits|] == digits;
    var sum := LuhnSum(digits);
    return sum % 10 == 0;
  }

  function CheckDigit(prefix: string): (c: char)
    ensures IsDigit(c)
  {
    ('0' as int + (10 - FromRight(prefix, true) % 10) % 10) as char
  }

  method LuhnCheckDigit(prefix: string) returns (c: char)
    requires Digits(prefix)
    ensures c == CheckDigit(prefix)
  {
    var sum := SumByParity(prefix, (|prefix| + 1) % 2);
    c := ('0' as int + (10 - sum % 10) % 10) as char;
  }

  /** For every prefix exactly one digit completes it, and it is the computed one. */
  lemma CheckDigitIsTheOne(prefix: string, c: char)
    requires Digits(prefix)
    ensures IsLuhn(prefix + [c]) <==> c == CheckDigit(prefix)
  {
    var s := prefix + [c];
    assert s[..|s| - 1] == prefix;
    if Digits(s) {
      assert IsDigit(s[|prefix|]);
    }
    if IsDigit(c) {
      assert Digits(s);
    }
  }

  lemma {:induction false} FromRightSplits(p: string, s: string, doubled: bool)
    ensures FromRight(p + s, doubled) == FromRight(s, doubled) + FromRight(p, doubled != (|s| % 2 == 1))
  {
    if s == "" {
      assert p + s == p;
    } else {
      var t := s[..|s| - 1];
      assert (p + s)[..|p + s| - 1] == p + t;
      FromRightSplits(p, t, !doubled);
    }
  }

  /** The sum of a number around two neighbouring digits. */
  lemma SumAround(p: string, m: string, s: string)
    ensures FromRight(p + m + s, false) ==
            FromRight(s, false) + FromRight(m, |s| % 2 == 1) + FromRight(p, (|m| + |s|) % 2 == 1)
  {
    FromRightSplits(p + m, s, false);
    FromRightSplits(p, m, |s| % 2 == 1);
  }

  lemma DoublingIsInjective(a: char, b: char, doubled: bool)
    requires IsDigit(a) && IsDigit(b)
    ensures (Weight(a, doubled) - Weight(b, doubled)) % 10 == 0 <==> a == b
  {}

  /** Changing one digit of a valid number, whatever its place, makes it invalid. */
  lemma OneDigitChanged(p: string, a: char, b: char, s: string)
    requires IsLuhn(p + [a] + s) && a != b
    ensures !IsLuhn(p + [b] + s)
  {
    SumAround(p, [a], s);
    SumAround(p, [b], s);
    One(a, |s| % 2 == 1);
    One(b, |s| % 2 == 1);
    assert (p + [a] + s)[|p|] == a && (p + [b] + s)[|p|] == b;
    if IsDigit(b) {
      DoublingIsInjective(a, b, |s| % 2 == 1);
      OnlyOneFits(FromRight(s, false) + FromRight(p, (1 + |s|) % 2 == 1),
                  Weight(a, |s| % 2 == 1), Weight(b, |s| % 2 == 1));
    }
  }

  lemma OnlyOneFits(rest: int, x: int, y: int)
    requires (rest + x) % 10 == 0 && (x - y) % 10 != 0
    ensures (rest + y) % 10 != 0
  {}

  lemma One(a: char, doubled: bool)
    ensures FromRight([a], doubled) == Weight(a, doubled)
  {
    assert [a][..0] == "";
  }

  lemma Two(a: char, b: char, doubled: bool)
    ensures FromRight([a, b], doubled) == Weight(b, doubled) + Weight(a, !doubled)
  {
    assert [a, b][..1] == [a];
    One(a, !doubled);
  }

  /** Swapping two neighbours is caught too, except for 0 and 9. */
  lemma NeighboursSwapped(p: string, a: char, b: char, s: string)
    requires IsLuhn(p + [a, b] + s)
    ensures IsLuhn(p + [b, a] + s) <==> a == b || {a, b} == {'0', '9'}
  {
    var odd := |s| % 2 == 1;
    SumAround(p, [a, b], s);
    SumAround(p, [b, a], s);
    Two(a, b, odd);
    Two(b, a, odd);
    SwappedDigits(p, a, b, s);
    SwapDifference(a, b, odd);
    var rest := FromRight(s, false) + FromRight(p, (2 + |s|) % 2 == 1);
    SameResidue(rest, FromRight([a, b], odd), FromRight([b, a], odd));
    ZeroAndNine(a, b);
  }

  lemma SwappedDigits(p: string, a: char, b: char, s: string)
    requires Digits(p + [a, b] + s)
    ensures Digits(p + [b, a] + s) && IsDigit(a) && IsDigit(b)
  {
    var was, now := p + [a, b] + s, p + [b, a] + s;
    assert was[|p|] == a && was[|p| + 1] == b;
    forall i | 0 <= i < |now|
      ensures IsDigit(now[i])
    {
      assert now[i] == was[if i == |p| then |p| + 1 else if i == |p| + 1 then |p| else i];
    }
  }

  lemma ZeroAndNine(a: char, b: char)
    ensures {a, b} == {'0', '9'} <==> (a == '0' && b == '9') || (a == '9' && b == '0')
  {
    if {a, b} == {'0', '9'} {
      assert a in {'0', '9'} && b in {'0', '9'} && '0' in {a, b} && '9' in {a, b};
    }
  }

  lemma SameResidue(rest: int, x: int, y: int)
    requires (rest + x) % 10 == 0
    ensures (rest + y) % 10 == 0 <==> (x - y) % 10 == 0
  {}

  lemma SwapDifference(a: char, b: char, doubled: bool)
    requires IsDigit(a) && IsDigit(b)
    ensures (Weight(b, doubled) + Weight(a, !doubled) - Weight(a, doubled) - Weight(b, !doubled)) % 10 == 0
            <==> a == b || (a == '0' && b == '9') || (a == '9' && b == '0')
  {}

  // ---- MOD 97 ----

  /** The remainder with the sign of the dividend. */
  function Rem97(n: int): (r: int)
    ensures -97 < r < 97 && (0 <= n ==> r == n % 97)
  {
    if n >= 0 then n % 97 else -((-n) % 97)
  }

  function Mod97(s: string): int {
    if s == "" then 0 else Rem97(Mod97(s[..|s| - 1]) * 10 + DigitOf(s[|s| - 1]))
  }

  method Mod97DecimalString(s: string) returns (remainder: int)
    ensures remainder == Mod97(s)
    ensures Digits(s) ==> remainder == Value(s) % 97
  {
    remainder := 0;
    for i := 0 to |s|
      invariant remainder == Mod97(s[..i])
    {
      assert s[..i + 1][..i] == s[..i];
      remainder := Rem97(remainder * 10 + DigitOf(s[i]));
    }
    assert s[..|s|] == s;
    if Digits(s) {
      Mod97IsValue(s);
    }
  }

  lemma {:induction false} Mod97IsValue(s: string)
    requires Digits(s)
    ensures Mod97(s) == Value(s) % 97
  {
    if s != "" {
      Mod97IsValue(s[..|s| - 1]);
      ModStep(Value(s[..|s| - 1]), DigitOf(s[|s| - 1]));
    }
  }

  lemma ModStep(v: nat, d: int)
    requires 0 <= d < 10
    ensures (v % 97 * 10 + d) % 97 == (v * 10 + d) % 97
  {
    var q := v / 97;
    assert v * 10 + d == v % 97 * 10 + d + 97 * (q * 10);
    Multiple(v % 97 * 10 + d, q * 10);
  }

  lemma {:induction false} Multiple(x: int, k: int)
    ensures (x + 97 * k) % 97 == x % 97
    decreases if k < 0 then -k else k
  {
    if k > 0 {
      Multiple(x, k - 1);
    } else if k < 0 {
      Multiple(x, k + 1);
    }
  }

  // ---- IBAN ----

  function Upper(c: char): char {
    if 'a' <= c <= 'z' then (c as int - 32) as char else c
  }

  function UpperAll(s: string): (r: string)
    ensures |r| == |s| && forall i :: 0 <= i < |s| ==> r[i] == Upper(s[i])
  {
    seq(|s|, i requires 0 <= i < |s| => Upper(s[i]))
  }

  predicate IsLetter(c: char) {
    'a' <= c <= 'z' || 'A' <= c <= 'Z'
  }

  predicate Alphanumeric(s: string) {
    forall i :: 0 <= i < |s| ==> IsLetter(s[i]) || IsDigit(s[i])
  }

  /** A capital letter counts as 10 to 35, printed in two digits. */
  function Expansion(c: char): string {
    if 'A' <= c <= 'Z' then Dec(c as int - 'A' as int + 10) else [c]
  }

  /** Letters stand for 10 to 35, in order. */
  lemma LetterValue(i: nat)
    requires i < 26
    ensures var e := Expansion("ABCDEFGHIJKLMNOPQRSTUVWXYZ"[i]); Digits(e) && |e| == 2 && Value(e) == 10 + i
  {
    hide Dec;
    ValueOfDec(10 + i);
    TwoDigitDec(10 + i);
  }

  lemma TwoDigitDec(n: nat)
    requires 10 <= n < 100
    ensures Digits(Dec(n)) && |Dec(n)| == 2
  {
    assert Dec(n / 10) == [('0' as int + n / 10) as char];
  }

  function Expand(s: string): string {
    if s == "" then "" else Expand(s[..|s| - 1]) + Expansion(s[|s| - 1])
  }

  /** The digits a text stands for, letters in either case. */
  function Numeral(s: string): string {
    Expand(UpperAll(s))
  }

  lemma ExpandStep(s: string, i: nat)
    requires i < |s|
    ensures Expand(s[..i + 1]) == Expand(s[..i]) + Expansion(s[i])
  {
    assert s[..i + 1][..i] == s[..i];
  }

  function NoSpaces(s: string): string {
    if s == "" then "" else
      var before, c := NoSpaces(s[..|s| - 1]), s[|s| - 1];
      if c == ' ' then before else before + [c]
  }

  method ExpandLetters(s: string) returns (numStr: string)
    ensures numStr == Expand(s)
  {
    hide Expand, Dec;
    numStr := "";
    ExpandEmpty();
    for i := 0 to |s|
      invariant numStr == Expand(s[..i])
    {
      ExpandStep(s, i);
      if 'A' <= s[i] <= 'Z' {
        numStr := numStr + Dec(s[i] as int - 'A' as int + 10);
        continue;
      }
      numStr := numStr + [s[i]];
    }
    assert s[..|s|] == s;
  }

  lemma ExpandEmpty()
    ensures Expand("") == ""
  {}

  /** The number a validated IBAN stands for: its first four characters go last. */
  function Rearranged(iban: string): string
    requires |iban| >= 4
  {
    iban[4..] + iban[..4]
  }

  predicate IsIban(iban: string) {
    var s := UpperAll(NoSpaces(iban));
    |s| >= 4 && Mod97(Expand(Rearranged(s))) == 1
  }

  function CheckCode(country: string, bban: string): (code: string)
    ensures |code| == 2
  {
    var check := 98 - Mod97(Numeral(bban + country + "00"));
    [('0' as int + check / 10) as char, ('0' as int + check % 10) as char]
  }

  method IBANMod97(country: string, bban: string) returns (code: string)
    ensures code == CheckCode(country, bban)
  {
    var numStr := ExpandLetters(UpperAll(bban + country + "00"));
    var remainder := Mod97DecimalString(numStr);
    var check := 98 - remainder;
    code := [('0' as int + check / 10) as char, ('0' as int + check % 10) as char];
  }

  method IBANMod97Valid(iban: string) returns (valid: bool)
    ensures valid <==> IsIban(iban)
  {
    var s := "";
    for i := 0 to |iban|
      invariant s == NoSpaces(iban[..i])
    {
      assert iban[..i + 1][..i] == iban[..i];
      if iban[i] != ' ' {
        s := s + [iban[i]];
      }
    }
    assert iban[..|iban|] == iban;
    s := UpperAll(s);
    if |s| < 4 {
      return false;
    }
    var numStr := ExpandLetters(s[4..] + s[..4]);
    var remainder := Mod97DecimalString(numStr);
    return remainder == 1;
  }

  lemma {:induction false} NoSpacesAppend(a: string, b: string)
    ensures NoSpaces(a + b) == NoSpaces(a) + NoSpaces(b)
  {
    if b == "" {
      assert a + b == a && NoSpaces(a) + "" == NoSpaces(a);
    } else {
      assert (a + b)[..|a + b| - 1] == a + b[..|b| - 1];
      NoSpacesAppend(a, b[..|b| - 1]);
    }
  }

  /** Spaces anywhere in an account number make no difference, and are the only characters that are dropped. */
  lemma SpacesIgnored(a: string, b: string)
    ensures IsIban(a + " " + b) <==> IsIban(a + b)
  {
    hide UpperAll, Mod97, Expand;
    NoSpacesAppend(a + " ", b);
    NoSpacesAppend(a, " ");
    NoSpacesAppend(a, b);
    assert " "[..0] == "" && NoSpaces(" ") == "" && NoSpaces(a) + "" == NoSpaces(a);
  }

  /** The same character, or the same letter in the other case. */
  predicate SameLetter(c: char, d: char) {
    || c == d
    || ('a' <= c <= 'z' && d as int == c as int - 32)
    || ('a' <= d <= 'z' && c as int == d as int - 32)
  }

  lemma {:induction false} NoSpacesAlike(s: string, t: string)
    requires |s| == |t| && forall i :: 0 <= i < |s| ==> SameLetter(s[i], t[i])
    ensures |NoSpaces(s)| == |NoSpaces(t)|
    ensures forall i :: 0 <= i < |NoSpaces(s)| ==> SameLetter(NoSpaces(s)[i], NoSpaces(t)[i])
  {
    if s != "" { NoSpacesAlike(s[..|s| - 1], t[..|t| - 1]); }
  }

  /** Neither does the case of its letters. */
  lemma CaseIgnored(s: string, t: string)
    requires |s| == |t| && forall i :: 0 <= i < |s| ==> SameLetter(s[i], t[i])
    ensures IsIban(s) <==> IsIban(t)
  {
    hide Mod97, Expand, NoSpaces;
    NoSpacesAlike(s, t);
    assert UpperAll(NoSpaces(s)) == UpperAll(NoSpaces(t));
  }

  lemma {:induction false} NoSpacesToDrop(s: string)
    requires Alphanumeric(s)
    ensures NoSpaces(s) == s
  {
    if s != "" {
      NoSpacesToDrop(s[..|s| - 1]);
      assert s == s[..|s| - 1] + [s[|s| - 1]];
    }
  }

  lemma {:induction false} ExpandSplits(a: string, b: string)
    ensures Expand(a + b) == Expand(a) + Expand(b)
  {
    hide Expansion;
    if b == "" {
      assert a + b == a;
    } else {
      var c := b[..|b| - 1];
      assert (a + b)[..|a + b| - 1] == a + c;
      ExpandSplits(a, c);
      Reassociate(Expand(a), Expand(c), Expansion(b[|b| - 1]));
    }
  }

  lemma NumeralSplits(a: string, b: string)
    ensures Numeral(a + b) == Numeral(a) + Numeral(b)
  {
    hide Expand;
    UpperSplits(a, b);
    ExpandSplits(UpperAll(a), UpperAll(b));
  }

  lemma {:induction false} NumeralIsDigits(s: string)
    requires Alphanumeric(s)
    ensures Digits(Numeral(s))
  {
    if s != "" {
      var t := s[..|s| - 1];
      NumeralIsDigits(t);
      assert UpperAll(s)[..|s| - 1] == UpperAll(t);
    }
  }

  function Pow10(n: nat): nat {
    if n == 0 then 1 else 10 * Pow10(n - 1)
  }

  lemma {:induction false} ValueSplits(a: string, b: string)
    requires Digits(a) && Digits(b)
    ensures Digits(a + b) && Value(a + b) == Value(a) * Pow10(|b|) + Value(b)
  {
    if b == "" {
      assert a + b == a;
    } else {
      var c := b[..|b| - 1];
      assert (a + b)[..|a + b| - 1] == a + c;
      ValueSplits(a, c);
      TenTimes(Value(a), Pow10(|c|), Value(c));
    }
  }

  lemma TenTimes(a: int, p: int, v: int)
    ensures (a * p + v) * 10 == a * (10 * p) + v * 10
  {
  }

  /** A check code is two digits that stand for 98 minus the remainder. */
  lemma CheckCodeIs(country: string, bban: string)
    requires Alphanumeric(country) && Alphanumeric(bban)
    ensures Digits(Numeral(bban + country + "00")) && Digits(CheckCode(country, bban))
    ensures Value(CheckCode(country, bban)) == 98 - Value(Numeral(bban + country + "00")) % 97
  {
    hide Expand, UpperAll, Mod97, Value;
    NumeralIsDigits(bban + country + "00");
    Mod97IsValue(Numeral(bban + country + "00"));
    TwoDigits(CheckCode(country, bban));
  }

  lemma TwoDigits(s: string)
    requires |s| == 2 && Digits(s)
    ensures Value(s) == DigitOf(s[0]) * 10 + DigitOf(s[1]) && Value(s) < 100
  {
    assert s[..1][..0] == "" && Value("") == 0;
    assert Value(s[..1]) == DigitOf(s[0]);
  }

  lemma UpperSplits(a: string, b: string)
    ensures UpperAll(a + b) == UpperAll(a) + UpperAll(b)
  {}

  lemma {:induction false} DigitsExpandToThemselves(s: string)
    requires Digits(s)
    ensures Numeral(s) == s
  {
    if s != "" {
      DigitsExpandToThemselves(s[..|s| - 1]);
      assert UpperAll(s) == s && UpperAll(s[..|s| - 1]) == s[..|s| - 1];
      assert s == s[..|s| - 1] + [s[|s| - 1]];
    }
  }

  /** The number behind an account with two given check digits. */
  lemma NumberWith(country: string, code: string, bban: string)
    requires Alphanumeric(country) && Alphanumeric(bban) && |code| == 2 && Digits(code)
    ensures Digits(Numeral(bban + country)) && Digits(Numeral(bban + country + code))
    ensures Value(Numeral(bban + country + code)) == Value(Numeral(bban + country)) * 100 + Value(code)
  {
    hide Numeral, Value, Pow10;
    var head := bban + country;
    NumeralIsDigits(head);
    NumeralSplits(head, code);
    DigitsExpandToThemselves(code);
    ValueSplits(Numeral(head), code);
    Hundred();
  }

  lemma Hundred()
    ensures Pow10(2) == 100
  {
    assert Pow10(0) == 1 && Pow10(1) == 10;
  }

  lemma RearrangedIs(country: string, code: string, bban: string)
    requires |country| == 2 && |code| == 2
    ensures Rearranged(UpperAll(country + code + bban)) == UpperAll(bban + country + code)
  {}

  /**
   An account number with any two check digits passes exactly when they agree, modulo 97, with the
   computed ones.
   */
  lemma PassesExactlyWhenTheCodeAgrees(country: string, code: string, bban: string)
    requires Alphanumeric(country) && |country| == 2 && Alphanumeric(bban) && |code| == 2 && Digits(code)
    ensures IsIban(country + code + bban) <==>
            Digits(CheckCode(country, bban)) && Value(code) % 97 == Value(CheckCode(country, bban)) % 97
  {
    hide Numeral, Value, Rearranged, Mod97, UpperAll, CheckCode;
    IbanIs(country, code, bban);
    NumberWith(country, code, bban);
    NumberWith(country, "00", bban);
    TwoDigits("00");
    CheckCodeIs(country, bban);
    Mod97IsValue(Numeral(bban + country + code));
    Residues(Value(Numeral(bban + country)) * 100, Value(code), Value(CheckCode(country, bban)));
  }

  lemma IbanIs(country: string, code: string, bban: string)
    requires Alphanumeric(country) && |country| == 2 && Alphanumeric(bban) && |code| == 2 && Digits(code)
    ensures IsIban(country + code + bban) <==> Mod97(Numeral(bban + country + code)) == 1
  {
    hide Expand, Mod97, Rearranged;
    NoSpacesToDrop(country + code + bban);
    RearrangedIs(country, code, bban);
  }

  lemma Residues(head: nat, code: nat, check: nat)
    requires check == 98 - head % 97
    ensures (head + code) % 97 == 1 <==> code % 97 == check % 97
  {
    var h, c, more := head % 97, code % 97, head / 97 + code / 97;
    assert head + code == h + c + 97 * more;
    Multiple(h + c, more);
  }

  /** Country code, computed check digits and account number pass validation. */
  lemma ComputedCodePasses(country: string, bban: string)
    requires Alphanumeric(country) && |country| == 2 && Alphanumeric(bban)
    ensures IsIban(country + CheckCode(country, bban) + bban)
  {
    CheckCodeIs(country, bban);
    PassesExactlyWhenTheCodeAgrees(country, CheckCode(country, bban), bban);
  }

  // ---- one wrong character ----

  /** Ten has an inverse modulo 97, so no power of ten hides a difference. */
  lemma {:induction false} PowersHideNothing(d: int, n: nat)
    requires (d * Pow10(n)) % 97 == 0
    ensures d % 97 == 0
  {
    if n > 0 {
      var x := d * Pow10(n - 1);
      assert d * Pow10(n) == 10 * x;
      TenIsInvertible(x);
      PowersHideNothing(d, n - 1);
    } else {
      assert d * Pow10(n) == d;
    }
  }

  lemma TenIsInvertible(x: int)
    requires (10 * x) % 97 == 0
    ensures x % 97 == 0
  {
    var k := 10 * x / 97;
    assert x == 97 * (68 * k - 7 * x);
    Multiple(0, 68 * k - 7 * x);
  }

  predicate SameKind(c: char, d: char) {
    (IsDigit(c) && IsDigit(d)) || (IsLetter(c) && IsLetter(d))
  }

  lemma ExpansionIs(c: char)
    requires IsLetter(c) || IsDigit(c)
    ensures var e := Expansion(Upper(c));
            Digits(e) && |e| == (if IsLetter(c) then 2 else 1) &&
            Value(e) == (if IsLetter(c) then Upper(c) as int - 'A' as int + 10 else DigitOf(c))
  {
    if IsLetter(c) {
      ValueOfDec(Upper(c) as int - 'A' as int + 10);
    } else {
      assert [c][..0] == "" && Value("") == 0;
    }
  }

  lemma PartsAlphanumeric(p: string, c: char, s: string)
    ensures Alphanumeric(p + [c] + s) <==> Alphanumeric(p) && Alphanumeric(s) && (IsLetter(c) || IsDigit(c))
  {
    var w := p + [c] + s;
    assert forall i :: 0 <= i < |p| ==> p[i] == w[i];
    assert c == w[|p|];
    assert forall i :: 0 <= i < |s| ==> s[i] == w[|p| + 1 + i];
  }

  lemma NumeralOfOne(c: char)
    ensures Numeral([c]) == Expansion(Upper(c))
  {
    assert UpperAll([c]) == [Upper(c)] && [Upper(c)][..0] == "";
    assert Expand("") + Expansion(Upper(c)) == Expansion(Upper(c));
  }

  lemma NumeralAround(p: string, c: char, s: string)
    requires Alphanumeric(p + [c] + s)
    ensures Digits(Numeral(p + [c] + s)) && Digits(Numeral(p)) && Digits(Numeral([c])) && Digits(Numeral(s))
    ensures Value(Numeral(p + [c] + s)) ==
            (Value(Numeral(p)) * Pow10(|Numeral([c])|) + Value(Numeral([c]))) * Pow10(|Numeral(s)|) + Value(Numeral(s))
  {
    hide Numeral, Value, Pow10;
    PartsAlphanumeric(p, c, s);
    NumeralIsDigits(p);
    NumeralIsDigits(s);
    NumeralIsDigits([c]);
    NumeralSplits(p + [c], s);
    NumeralSplits(p, [c]);
    ValueSplits(Numeral(p), Numeral([c]));
    ValueSplits(Numeral(p) + Numeral([c]), Numeral(s));
  }

  /** One character changed to a different one of its kind changes the remainder. */
  lemma RemainderChanges(p: string, c: char, d: char, s: string)
    requires Alphanumeric(p + [c] + s) && SameKind(c, d) && Upper(c) != Upper(d)
    ensures Mod97(Numeral(p + [c] + s)) != Mod97(Numeral(p + [d] + s))
  {
    hide Numeral, Value, Pow10, Mod97, Expansion;
    PartsAlphanumeric(p, c, s);
    PartsAlphanumeric(p, d, s);
    NumeralAround(p, c, s);
    NumeralAround(p, d, s);
    NumeralOfOne(c);
    NumeralOfOne(d);
    ExpansionIs(c);
    ExpansionIs(d);
    Mod97IsValue(Numeral(p + [c] + s));
    Mod97IsValue(Numeral(p + [d] + s));
    Apart(Value(Numeral(p)) * Pow10(|Numeral([c])|), Value(Numeral([c])), Value(Numeral([d])),
          |Numeral(s)|, Value(Numeral(s)));
  }

  lemma Apart(head: nat, x: nat, y: nat, n: nat, tail: nat)
    requires x != y && x < 97 && y < 97
    ensures ((head + x) * Pow10(n) + tail) % 97 != ((head + y) * Pow10(n) + tail) % 97
  {
    var a, b := (head + x) * Pow10(n) + tail, (head + y) * Pow10(n) + tail;
    if a % 97 == b % 97 {
      assert a - b == (x - y) * Pow10(n);
      assert a - b == 97 * (a / 97 - b / 97);
      Multiple(0, a / 97 - b / 97);
      PowersHideNothing(x - y, n);
    }
  }

  /** In a valid account number, no single digit or letter can be mistaken for another. */
  lemma OneCharacterChanged(p: string, c: char, d: char, s: string)
    requires Alphanumeric(p + [c] + s) && SameKind(c, d) && Upper(c) != Upper(d)
    requires IsIban(p + [c] + s)
    ensures !IsIban(p + [d] + s)
  {
    hide Numeral, Rearranged, Mod97;
    PartsAlphanumeric(p, c, s);
    PartsAlphanumeric(p, d, s);
    IbanNumeral(p + [c] + s);
    IbanNumeral(p + [d] + s);
    if |p| >= 4 {
      RearrangedBack(p, c, s);
      RearrangedBack(p, d, s);
      RemainderChanges(p[4..], c, d, s + p[..4]);
    } else {
      RearrangedFront(p, c, s);
      RearrangedFront(p, d, s);
      RemainderChanges(s[3 - |p|..] + p, c, d, s[..3 - |p|]);
    }
  }

  lemma IbanNumeral(s: string)
    requires Alphanumeric(s)
    ensures IsIban(s) <==> |s| >= 4 && Mod97(Numeral(Rearranged(s))) == 1
  {
    hide Expand, Mod97;
    NoSpacesToDrop(s);
    if |s| >= 4 {
      assert Rearranged(UpperAll(s)) == UpperAll(Rearranged(s));
    }
  }

  lemma RearrangedBack(p: string, c: char, s: string)
    requires |p| >= 4
    ensures Rearranged(p + [c] + s) == p[4..] + [c] + (s + p[..4])
    ensures Alphanumeric(p + [c] + s) ==> Alphanumeric(p[4..] + [c] + (s + p[..4]))
  {
    var w, r := p + [c] + s, p[4..] + [c] + (s + p[..4]);
    assert r == w[4..] + w[..4];
  }

  lemma RearrangedFront(p: string, c: char, s: string)
    requires |p| < 4 && |p| + 1 + |s| >= 4
    ensures Rearranged(p + [c] + s) == s[3 - |p|..] + p + [c] + s[..3 - |p|]
    ensures Alphanumeric(p + [c] + s) ==> Alphanumeric(s[3 - |p|..] + p + [c] + s[..3 - |p|])
  {
    var w, r := p + [c] + s, s[3 - |p|..] + p + [c] + s[..3 - |p|];
    assert r == w[4..] + w[..4];
  }
}
