/** The string operations the program uses: `find`, `rfind`, `find_first_of`, `to_string` and `stoi`. */
module Text {
  import opened Wrappers

  datatype Result<+T> = Ok(value: T) | InvalidArgument | OutOfRange

  /** `pat` stands at position `i` of `s`. */
  predicate At(s: string, pat: string, i: nat)
  {
    i + |pat| <= |s| && s[i..i + |pat|] == pat
  }

  /** `s.find(pat, from)`: the first position not before `from`. */
  function FindFrom(s: string, pat: string, from: nat): (r: Option<nat>)
    ensures r.Some? ==> from <= r.value && At(s, pat, r.value)
    ensures forall i: nat :: from <= i && (r.Some? ==> i < r.value) ==> !At(s, pat, i)
    decreases |s| - from
  {
    if from + |pat| > |s| then None
    else if At(s, pat, from) then Some(from)
    else if from == |s| then None
    else FindFrom(s, pat, from + 1)
  }

  function Find(s: string, pat: string): Option<nat> { FindFrom(s, pat, 0) }

  /** There is only one first position. */
  lemma FirstIsFound(s: string, pat: string, from: nat, i: nat)
    requires from <= i && At(s, pat, i) && forall j: nat :: from <= j < i ==> !At(s, pat, j)
    ensures FindFrom(s, pat, from) == Some(i)
  {
  }

  /** `s.rfind(c)`: the last position of a character. */
  function LastIndex(s: string, c: char): (r: Option<nat>)
    ensures r.Some? ==> r.value < |s| && s[r.value] == c && forall i :: r.value < i < |s| ==> s[i] != c
    ensures r.None? ==> c !in s
  {
    if s == [] then None
    else if s[|s| - 1] == c then Some(|s| - 1)
    else LastIndex(s[..|s| - 1], c)
  }

  /** `s.find_first_of(chars, from)`. */
  function FindAnyFrom(s: string, chars: string, from: nat): (r: Option<nat>)
    ensures r.Some? ==> from <= r.value < |s| && s[r.value] in chars
    ensures forall i: nat :: from <= i < |s| && (r.Some? ==> i < r.value) ==> s[i] !in chars
    decreases |s| - from
  {
    if from >= |s| then None
    else if s[from] in chars then Some(from)
    else FindAnyFrom(s, chars, from + 1)
  }

  // Decimal numbers.

  predicate IsDigit(c: char) { '0' <= c <= '9' }

  function DigitChar(d: nat): (c: char)
    requires d < 10
    ensures IsDigit(c) && c as int - '0' as int == d
  {
    '0' + d as char
  }

  ghost predicate AllDigits(s: string)
  {
    forall i :: 0 <= i < |s| ==> IsDigit(s[i])
  }

  function Digits(n: nat): (s: string)
    ensures s != [] && AllDigits(s)
    ensures |s| > 1 ==> s[0] != '0'
    ensures n < 10 <==> |s| == 1
    ensures n > 0 ==> s[0] != '0'
  {
    if n < 10 then [DigitChar(n)] else Digits(n / 10) + [DigitChar(n % 10)]
  }

  /** `std::to_string`. */
  function ToString(n: int): string
  {
    if n < 0 then "-" + Digits(-n) else Digits(n)
  }

  function DigitsValue(s: string): nat
    requires AllDigits(s)
  {
    if s == [] then 0 else 10 * DigitsValue(s[..|s| - 1]) + (s[|s| - 1] as int - '0' as int)
  }

  /** Length of the run of digits at the front. */
  function DigitRun(s: string): (k: nat)
    ensures k <= |s| && AllDigits(s[..k]) && (k < |s| ==> !IsDigit(s[k]))
  {
    if s == [] || !IsDigit(s[0]) then 0
    else
      var k := DigitRun(s[1..]);
      assert s[..k + 1] == [s[0]] + s[1..][..k];
      k + 1
  }

  predicate IsSpace(c: char)
  {
    c == ' ' || '\t' <= c <= '\r'
  }

  function SkipSpace(s: string): string
  {
    if s != [] && IsSpace(s[0]) then SkipSpace(s[1..]) else s
  }

  lemma CharacterClasses(c: char)
    ensures IsDigit(c) <==> c in "0123456789"
    ensures IsSpace(c) <==> c in " \t\n\U{0b}\U{0c}\r"
  {
    var digits := "0123456789";
    if IsDigit(c) {
      assert digits[c as int - '0' as int] == c;
    }
  }

  const INT_MIN := -0x8000_0000
  const INT_MAX := 0x7fff_ffff

  predicate IsInt(n: int) { INT_MIN <= n <= INT_MAX }

  /** `std::stoi`: skips white space, reads a sign and digits, ignores what follows, and throws when there
      are no digits or the value is no `int`. */
  function Stoi(s: string): (r: Result<int>)
    ensures r.Ok? ==> IsInt(r.value)
  {
    var t := SkipSpace(s);
    var signed := t != [] && (t[0] == '-' || t[0] == '+');
    var u := if signed then t[1..] else t;
    var k := DigitRun(u);
    if k == 0 then InvalidArgument
    else
      var v: int := if signed && t[0] == '-' then 0 - DigitsValue(u[..k]) else DigitsValue(u[..k]);
      if IsInt(v) then Ok(v) else OutOfRange
  }

  lemma {:induction false} DigitsRoundTrip(n: nat)
    ensures DigitsValue(Digits(n)) == n
  {
    if n >= 10 {
      DigitsRoundTrip(n / 10);
      assert Digits(n)[..|Digits(n)| - 1] == Digits(n / 10);
    }
  }

  lemma AllDigitsRun(s: string)
    requires AllDigits(s)
    ensures DigitRun(s) == |s|
  {
  }

  /** `stoi` undoes `to_string` on every `int`. */
  lemma StoiUndoesToString(n: int)
    requires IsInt(n)
    ensures Stoi(ToString(n)) == Ok(n)
  {
    var ds := Digits(if n < 0 then -n else n);
    DigitsRoundTrip(if n < 0 then -n else n);
    AllDigitsRun(ds);
    assert ds[..|ds|] == ds && IsDigit(ds[0]);
    if n < 0 {
      assert ("-" + ds)[1..] == ds;
    }
  }

  lemma ToStringInjective(m: int, n: int)
    requires ToString(m) == ToString(n)
    ensures m == n
  {
    var a, b := if m < 0 then -m else m, if n < 0 then -n else n;
    DigitsRoundTrip(a);
    DigitsRoundTrip(b);
    assert IsDigit(Digits(a)[0]) && IsDigit(Digits(b)[0]);
    if m < 0 && n < 0 {
      assert ToString(m)[1..] == Digits(a) && ToString(n)[1..] == Digits(b);
    }
  }

  /** The decimal texts without superfluous characters: digits with a sign only if it is a minus, no minus
      before zero, and no zero in front. */
  ghost predicate Canonical(t: string)
  {
    var digits := if t != [] && t[0] == '-' then t[1..] else t;
    digits != [] && AllDigits(digits) && (digits[0] == '0' ==> t == "0")
  }

  function NumeralValue(t: string): int
    requires Canonical(t)
  {
    if t[0] == '-' then 0 - DigitsValue(t[1..]) else DigitsValue(t)
  }

  lemma {:induction false} DigitsOnly(s: string)
    requires s != [] && AllDigits(s) && (s[0] == '0' ==> |s| == 1)
    ensures s == Digits(DigitsValue(s)) && (s[0] != '0' ==> DigitsValue(s) > 0)
  {
    var front, last := s[..|s| - 1], s[|s| - 1];
    assert IsDigit(last) && s == front + [last];
    if |s| > 1 {
      assert front[0] != '0';
      DigitsOnly(front);
      DigitsSplit(DigitsValue(front), last);
    }
  }

  lemma DigitsSplit(n: nat, c: char)
    requires n > 0 && IsDigit(c)
    ensures Digits(10 * n + (c as int - '0' as int)) == Digits(n) + [c]
  {
  }

  /** `std::to_string` prints the one canonical text with the value. */
  lemma ToStringIff(n: int, t: string)
    ensures t == ToString(n) <==> Canonical(t) && NumeralValue(t) == n
  {
    ToStringIsCanonical(n);
    if Canonical(t) && NumeralValue(t) == n {
      var digits := if t[0] == '-' then t[1..] else t;
      DigitsOnly(digits);
      hide Digits, DigitsValue;
      assert t == if t[0] == '-' then "-" + digits else digits;
    }
  }

  lemma ToStringIsCanonical(n: int)
    ensures Canonical(ToString(n)) && NumeralValue(ToString(n)) == n
  {
    var m: nat := if n < 0 then -n else n;
    var ds := Digits(m);
    DigitsRoundTrip(m);
    hide Digits, DigitsValue;
    assert IsDigit(ds[0]);
    assert ("-" + ds)[1..] == ds;
  }

  lemma PrintedNumbers()
    ensures ToString(0) == "0" && ToString(8080) == "8080" && ToString(-17) == "-17"
  {
    DigitsSplit(8, '0');
    DigitsSplit(80, '8');
    DigitsSplit(808, '0');
    DigitsSplit(1, '7');
    assert Digits(8) == "8" && Digits(1) == "1" && Digits(0) == "0";
    hide Digits;
  }

  // What `stoi` reads.

  lemma {:induction false} SkipsSpaces(spaces: string, t: string)
    requires (forall c :: c in spaces ==> IsSpace(c)) && (t == [] || !IsSpace(t[0]))
    ensures SkipSpace(spaces + t) == t
  {
    if spaces == [] {
      assert spaces + t == t;
    } else {
      assert spaces[0] in spaces;
      SkipsSpaces(spaces[1..], t);
      assert (spaces + t)[1..] == spaces[1..] + t;
    }
  }

  lemma {:induction false} RunOfDigits(digits: string, junk: string)
    requires AllDigits(digits) && (junk == [] || !IsDigit(junk[0]))
    ensures DigitRun(digits + junk) == |digits|
  {
    if digits == [] {
      assert digits + junk == junk;
    } else {
      assert IsDigit(digits[0]);
      RunOfDigits(digits[1..], junk);
      assert (digits + junk)[1..] == digits[1..] + junk;
    }
  }

  /** White space before the number and everything after its digits is ignored, a sign of either kind is
      read, a text without digits in that place is no number, and a number must be an `int`. */
  lemma StoiReads(spaces: string, sign: string, digits: string, junk: string)
    requires (forall c :: c in spaces ==> IsSpace(c)) && sign in {"", "+", "-"} && AllDigits(digits)
    requires junk == [] || !IsDigit(junk[0])
    requires sign == digits == "" && junk != [] ==> !IsSpace(junk[0]) && junk[0] != '+' && junk[0] != '-'
    ensures var n: int := if sign == "-" then 0 - DigitsValue(digits) else DigitsValue(digits);
            Stoi(spaces + (sign + (digits + junk))) ==
            if digits == "" then InvalidArgument else if -0x8000_0000 <= n < 0x8000_0000 then Ok(n) else OutOfRange
  {
    hide SkipSpace, DigitRun, DigitsValue, IsSpace, IsDigit;
    var u := digits + junk;
    var t := sign + u;
    SignedStart(sign, digits, junk);
    SkipsSpaces(spaces, t);
    RunOfDigits(digits, junk);
    assert u[..|digits|] == digits;
  }

  lemma SignedStart(sign: string, digits: string, junk: string)
    requires sign in {"", "+", "-"} && AllDigits(digits)
    requires sign == digits == "" && junk != [] ==> !IsSpace(junk[0]) && junk[0] != '+' && junk[0] != '-'
    ensures var u, t := digits + junk, sign + (digits + junk);
            && (t == [] || !IsSpace(t[0]))
            && (if sign == "" then t == u && (t == [] || (t[0] != '+' && t[0] != '-'))
                else t != [] && t[1..] == u && t[0] == sign[0])
            && (sign != "" ==> t != [] && (t[0] == '-' <==> sign == "-") && (t[0] == '+' <==> sign == "+"))
  {
    assert digits != [] ==> IsDigit(digits[0]);
  }

  lemma {:induction false} ValueOfZeros(s: string)
    requires AllDigits(s) && s != []
    ensures |Digits(DigitsValue(s))| <= |s| && (|Digits(DigitsValue(s))| == |s| ==> Digits(DigitsValue(s)) == s)
  {
    if s[0] == '0' && |s| > 1 {
      ValueOfZeros(s[1..]);
      LeadingZero(s);
    } else {
      DigitsOnly(s);
    }
  }

  lemma {:induction false} LeadingZero(s: string)
    requires AllDigits(s) && s != [] && s[0] == '0'
    ensures DigitsValue(s[1..]) == DigitsValue(s)
  {
    if |s| > 1 {
      LeadingZero(s[..|s| - 1]);
      assert s[1..][..|s| - 2] == s[..|s| - 1][1..];
    } else {
      assert s[..0] == [] && s[1..] == [];
    }
  }

  lemma {:induction false} SkipIsSuffix(s: string)
    ensures |SkipSpace(s)| <= |s| && (|SkipSpace(s)| == |s| ==> SkipSpace(s) == s)
  {
    if s != [] && IsSpace(s[0]) {
      SkipIsSuffix(s[1..]);
    }
  }

  /** `std::to_string` prints the shortest text that stoi reads as `n`, and no other text is as short. */
  lemma ToStringIsShortest(s: string, n: int)
    requires Stoi(s) == Ok(n)
    ensures |ToString(n)| <= |s| && (|ToString(n)| == |s| ==> ToString(n) == s)
  {
    var t := SkipSpace(s);
    var signed := t != [] && (t[0] == '-' || t[0] == '+');
    var u := if signed then t[1..] else t;
    var digits := u[..DigitRun(u)];
    SkipIsSuffix(s);
    ValueOfZeros(digits);
    assert n == if signed && t[0] == '-' then 0 - DigitsValue(digits) else DigitsValue(digits);
    hide SkipSpace, Stoi, Digits, DigitsValue;
    if signed && t[0] == '-' {
      assert t == "-" + u;
    }
  }

  /** A printed number holds only digits and the sign. */
  lemma ToStringCharacters(n: int, c: char)
    requires c in ToString(n)
    ensures IsDigit(c) || c == '-'
  {
  }

  /** Text before a separator that neither text contains is determined by the whole. */
  lemma SplitAtSeparator(a: string, b: string, c: char, x: string, y: string)
    requires c !in a && c !in b && a + [c] + x == b + [c] + y
    ensures a == b && x == y
  {
    var s := a + [c] + x;
    forall i | 0 <= i < |a| ensures s[i] != c {
      assert s[i] == a[i];
    }
    forall i | 0 <= i < |b| ensures s[i] != c {
      assert s[i] == b[i];
    }
    assert s[|a|] == c && s[|b|] == c;
    assert a == s[..|a|] && b == s[..|b|] && x == s[|a| + 1..] && y == s[|b| + 1..];
  }
}
