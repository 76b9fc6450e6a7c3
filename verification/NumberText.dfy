/** Numbers as text: printing in any base, and reading back. */
module NumberText {
  import opened Common

  /** The letters for the digits from 10 on are those the printer uses. */
  function DigitChar(d: nat, upper: bool): char
    requires d < 36
  {
    if d < 10 then '0' + d as char else '0' + (d + 7 + if upper then 0 else 0x20) as char
  }

  /** What the parser takes a character for. */
  function DigitOf(c: char): int {
    var n := c as int;
    var m := if 'a' <= c <= 'z' then n - 0x20 else n;
    (if m >= 'A' as int then m - 7 else m) - '0' as int
  }

  function Power(base: nat, k: nat): nat {
    if k == 0 then 1 else base * Power(base, k - 1)
  }

  /** The digits of a number, without leading zeros. */
  function Digits(n: nat, base: nat, upper: bool): (s: string)
    requires 2 <= base <= 36
    ensures |s| > 0
    decreases n
  {
    if n < base then [DigitChar(n, upper)]
    else Smaller(n, base); Digits(n / base, base, upper) + [DigitChar(n % base, upper)]
  }

  lemma Smaller(n: nat, base: nat)
    requires 2 <= base <= n
    ensures 0 < n / base < n
  {
    DivBounds(n, base);
    var q := n / base;
    TimesMono(q, 2, base);
    assert q * base == base * q;
    assert q == 0 ==> base * q == 0;
  }

  /** The number that digits of this base stand for. */
  function Value(s: string, base: nat): int {
    if |s| == 0 then 0 else Value(s[..|s| - 1], base) * base + DigitOf(s[|s| - 1])
  }

  lemma DigitBack(d: nat, upper: bool)
    requires d < 36
    ensures DigitOf(DigitChar(d, upper)) == d && DigitChar(d, upper) >= '0'
  {
  }

  /** A character that the parser takes for a digit of this base. */
  predicate IsDigit(c: char, base: nat) {
    c >= '0' && DigitOf(c) < base
  }

  /** The parser takes what the printer uses, in either case, and in bases over 10 also some of the
      characters between '9' and 'A'. */
  lemma DigitsTaken(c: char, base: nat)
    requires 2 <= base <= 36
    ensures IsDigit(c, base) <==>
      || (exists d: nat :: d < base && (c == DigitChar(d, true) || c == DigitChar(d, false)))
      || ('9' < c < 'A' && c as int - '0' as int < base)
  {
    if IsDigit(c, base) && !('9' < c < 'A') {
      var d: nat := DigitOf(c);
      assert c == DigitChar(d, true) || c == DigitChar(d, false);
    }
    forall d: nat | d < base && (c == DigitChar(d, true) || c == DigitChar(d, false)) ensures IsDigit(c, base) {
      DigitBack(d, true);
      DigitBack(d, false);
    }
  }

  predicate AllDigits(s: string, base: nat) {
    forall i :: 0 <= i < |s| ==> IsDigit(s[i], base)
  }

  lemma ValueNext(s: string, c: char, base: nat)
    ensures Value(s + [c], base) == Value(s, base) * base + DigitOf(c)
  {
    assert (s + [c])[..|s|] == s;
  }

  /** Read as digits, what has been printed is the number again. */
  lemma {:induction false} ValueOfDigits(n: nat, base: nat, upper: bool)
    requires 2 <= base <= 36
    ensures Value(Digits(n, base, upper), base) == n && AllDigits(Digits(n, base, upper), base)
    decreases n
  {
    hide Digits, DigitOf, DigitChar, Value;
    DivBounds(n, base);
    DigitsNext(n, base, upper);
    DigitBack(n % base, upper);
    if n >= base {
      Smaller(n, base);
      ValueOfDigits(n / base, base, upper);
      ValueNext(Digits(n / base, base, upper), DigitChar(n % base, upper), base);
      assert n / base * base == base * (n / base);
    } else {
      DivIs(n, base, 0, n);
      ValueNext([], DigitChar(n, upper), base);
      assert Value([], base) == 0 by { NoValue(base); }
    }
  }

  lemma NoValue(base: nat)
    ensures Value([], base) == 0
  {
  }

  /** A number without leading zeros starts with a zero only if it is zero. */
  lemma {:induction false} NoLeadingZero(n: nat, base: nat, upper: bool)
    requires 2 <= base <= 36
    ensures Digits(n, base, upper)[0] == '0' <==> n == 0
    ensures n == 0 ==> Digits(n, base, upper) == "0"
    decreases n
  {
    if n >= base {
      Smaller(n, base);
      NoLeadingZero(n / base, base, upper);
    }
  }

  /** How long the text is: one digit for each power of the base up to the number. */
  lemma {:induction false} HowLong(n: nat, base: nat, upper: bool)
    requires 2 <= base <= 36
    ensures var k := |Digits(n, base, upper)|; n < Power(base, k) && (n > 0 ==> Power(base, k - 1) <= n)
    decreases n
  {
    hide Power, Digits;
    PowerNext(base, 0);
    DigitsNext(n, base, upper);
    if n >= base {
      var q := n / base;
      Smaller(n, base);
      HowLong(q, base, upper);
      var k := |Digits(q, base, upper)|;
      PowerNext(base, k);
      PowerNext(base, k - 1);
      DivBounds(n, base);
      ScaleLess(base, q, Power(base, k));
      TimesMono(base, Power(base, k - 1), q);
    }
  }

  lemma PowerNext(base: nat, k: nat)
    ensures Power(base, k + 1) == base * Power(base, k) && Power(base, 0) == 1
  {
  }

  lemma {:induction false} PowerGrows(base: nat, j: nat, k: nat)
    requires base >= 1 && j <= k
    ensures Power(base, j) <= Power(base, k)
    decreases k
  {
    if j < k {
      PowerGrows(base, j, k - 1);
      PowerNext(base, k - 1);
      hide Power;
      TimesMono(Power(base, k - 1), 1, base);
      assert Power(base, k - 1) * base == base * Power(base, k - 1);
    }
  }

  const MAX_NUMBER_LEN := 22

  /** The digits of a 64-bit number of base 8, 10 or 16 fit into the buffer that callers provide. */
  lemma FitsBuffer(n: nat, base: nat, upper: bool)
    requires n < 0x1_0000_0000_0000_0000 && 8 <= base <= 36
    ensures |Digits(n, base, upper)| <= MAX_NUMBER_LEN
  {
    HowLong(n, base, upper);
    var k := |Digits(n, base, upper)|;
    if k > MAX_NUMBER_LEN {
      PowerGrows(base, MAX_NUMBER_LEN, k - 1);
      BaseGrows(8, base, MAX_NUMBER_LEN);
      EightTo22();
    }
  }

  lemma {:induction false} BaseGrows(a: nat, b: nat, k: nat)
    requires a <= b
    ensures Power(a, k) <= Power(b, k)
  {
    if k > 0 {
      BaseGrows(a, b, k - 1);
      TimesMono(a, Power(a, k - 1), Power(b, k - 1));
      TimesMono(Power(b, k - 1), a, b);
    }
  }

  lemma EightTo22()
    ensures Power(8, 22) == 0x4_0000_0000_0000_0000
  {
    assert Power(8, 6) == 262144;
    assert Power(8, 12) == 262144 * 262144;
    assert Power(8, 18) == 262144 * 262144 * 262144;
  }

  /** Dividing by `base * d` in two steps. */
  lemma DivTwice(n: nat, base: nat, d: nat)
    requires base > 0 && d > 0 && base * d > 0
    ensures n / (base * d) == n / d / base
    ensures n % (base * d) / d == n / d % base
    ensures n % (base * d) % d == n % d
  {
    var q, r := n / d, n % d;
    var q2, r2 := q / base, q % base;
    DivBounds(n, d);
    DivBounds(q, base);
    Regrouped(d, base, q2, r2);
    ScaleLess(d, r2, base);
    DivIs(n, base * d, q2, d * r2 + r);
    DivIs(d * r2 + r, d, r2, r);
  }

  lemma Regrouped(d: nat, base: nat, q: nat, r: nat)
    ensures d * (base * q + r) == base * d * q + d * r && d * base == base * d
  {
  }

  lemma DivAtLeast(n: nat, d: nat, k: nat)
    requires d > 0
    ensures n / d >= k <==> n >= k * d
  {
    DivBounds(n, d);
    ScaleLess(d, n / d, k);
    if n / d >= k { TimesMono(d, k, n / d); }
    assert d * k == k * d;
  }

  lemma DigitsNext(m: nat, base: nat, upper: bool)
    requires 2 <= base <= 36
    ensures m % base < 36
    ensures Digits(m, base, upper) ==
      (if m < base then [] else Digits(m / base, base, upper)) + [DigitChar(m % base, upper)]
  {
    if m >= base { Smaller(m, base); } else { DivIs(m, base, 0, m); }
  }

  /** The digit that a character stands for: letters of one case, as chosen, from A for 10 on. */
  predicate Shows(c: char, d: nat, upper: bool) {
    if '0' <= c <= '9' then d == c as int - '0' as int
    else if upper then 'A' <= c <= 'Z' && d == c as int - 'A' as int + 10
    else 'a' <= c <= 'z' && d == c as int - 'a' as int + 10
  }

  /** Each character that is printed shows its digit, in the chosen case. */
  lemma {:induction false} PrintedDigit(n: nat, base: nat, upper: bool, i: nat)
    requires 2 <= base <= 36 && i < |Digits(n, base, upper)|
    ensures Power(base, i) > 0
    ensures var ds := Digits(n, base, upper); Shows(ds[|ds| - 1 - i], n / Power(base, i) % base, upper)
    decreases i
  {
    hide Power, Digits, Shows;
    DigitsNext(n, base, upper);
    CharShows(n % base, upper);
    PowerNext(base, 0);
    if i > 0 {
      var d := Power(base, i - 1);
      PrintedDigit(n / base, base, upper, i - 1);
      PowerNext(base, i - 1);
      assert base * d == d * base > 0;
      DivTwice(n, d, base);
    } else {
      assert n / 1 == n;
    }
  }

  lemma CharShows(d: nat, upper: bool)
    requires d < 36
    ensures Shows(DigitChar(d, upper), d, upper)
  {
  }

  lemma LengthIs(n: nat, base: nat, upper: bool, k: nat)
    requires 2 <= base <= 36 && (k > 0 ==> Power(base, k) <= n) && n < Power(base, k + 1)
    ensures |Digits(n, base, upper)| == k + 1
  {
    HowLong(n, base, upper);
    var len := |Digits(n, base, upper)|;
    hide Digits, Power;
    if len < k + 1 { PowerGrows(base, len, k); }
    if k + 1 < len { PowerGrows(base, k + 1, len - 1); }
    if n == 0 { assert Digits(0, base, upper) == [DigitChar(0, upper)] by { DigitsNext(0, base, upper); } }
  }

  /** What one round of printing leaves: the power below, and the next digit. */
  lemma NextPower(n: nat, base: nat, k: nat)
    requires 2 <= base && k > 0 && Power(base, k) <= n
    ensures var d, e := Power(base, k), Power(base, k - 1);
      && e > 0 && d > 0 && d / base == e && n / d == n / e / base && n % d / e == n / e % base
      && n % d % e == n % e && n / e >= base && e <= n
  {
    PowerNext(base, k - 1);
    PowerGrows(base, 0, k - 1);
    PowerNext(base, 0);
    hide Power;
    var d, e := Power(base, k), Power(base, k - 1);
    TimesMono(base, 1, e);
    DivIs(d, base, e, 0);
    TimesMono(e, 1, base);
    assert e * base == base * e;
    DivTwice(n, base, e);
    DivAtLeast(n, e, base);
  }

  /** Prints a number of less than `limit`, the range of the words the code computes with; these words
      never overflow. */
  method NumberToText(dest: array<char>, n: nat, limit: nat, base: nat, upper: bool) returns (length: nat)
    requires 2 <= base <= 36 && n < limit && dest.Length > |Digits(n, base, upper)|
    modifies dest
    ensures length == |Digits(n, base, upper)| && dest[..length] == Digits(n, base, upper) && dest[length] == '\0'
    ensures dest[length + 1..] == old(dest[length + 1..])
  {
    hide Digits, Power, DigitChar;
    var divisor := 1;
    var digit := n;
    ghost var k: nat := 0;
    PowerNext(base, 0);
    while true
      invariant divisor == Power(base, k) > 0 && (k > 0 ==> divisor <= n)
      invariant digit >= 0
      modifies {}
      decreases n + 1 - divisor
    {
      digit := n / divisor;
      if digit < base { break; }
      TooSmall(n, base, k);
      assert divisor * base < limit;
      divisor := divisor * base;
      k := k + 1;
    }
    BigEnough(n, base, upper, k);
    var number := n;
    length := 0;
    while true
      invariant divisor == Power(base, k) > 0 && (k > 0 ==> divisor <= n) && length + k + 1 == |Digits(n, base, upper)|
      invariant number % divisor == n % divisor && digit == n / divisor % base
      invariant length == 0 <==> n / divisor < base
      invariant dest[..length] == if length == 0 then [] else Digits(n / divisor / base, base, upper)
      invariant forall i :: length <= i < dest.Length ==> dest[i] == old(dest[i])
      decreases k
    {
      number := number % divisor;
      DigitsNext(n / divisor, base, upper);
      dest[length] := DigitChar(digit, upper);
      length := length + 1;
      assert dest[..length] == Digits(n / divisor, base, upper);
      if k > 0 { NextPower(n, base, k); } else { Last(n, base); }
      divisor := divisor / base;
      if divisor == 0 { break; }
      k := k - 1;
      digit := number / divisor;
    }
    dest[length] := '\0';
  }

  lemma Last(n: nat, base: nat)
    requires base >= 2
    ensures n / 1 == n && 1 / base == 0 && Power(base, 0) == 1
  {
    DivIs(1, base, 0, 1);
  }

  lemma TooSmall(n: nat, base: nat, k: nat)
    requires 2 <= base && Power(base, k) > 0 && n / Power(base, k) >= base
    ensures Power(base, k) < Power(base, k) * base == Power(base, k + 1) <= n
  {
    DivAtLeast(n, Power(base, k), base);
    PowerNext(base, k);
    hide Power;
    TimesMono(Power(base, k), 2, base);
    assert Power(base, k) * base == base * Power(base, k);
  }

  lemma BigEnough(n: nat, base: nat, upper: bool, k: nat)
    requires 2 <= base <= 36 && Power(base, k) > 0 && (k > 0 ==> Power(base, k) <= n) && n / Power(base, k) < base
    ensures |Digits(n, base, upper)| == k + 1 && n / Power(base, k) % base == n / Power(base, k)
  {
    DivAtLeast(n, Power(base, k), base);
    PowerNext(base, k);
    DivIs(n / Power(base, k), base, 0, n / Power(base, k));
    LengthIs(n, base, upper, k);
  }

  // ---------------------------------------------------------------- reading

  /** Text in memory ends with a NUL character. */
  function At(text: string, i: nat): char {
    if i < |text| then text[i] else '\0'
  }

  predicate IsBlank(c: char) {
    c == ' ' || c == 12 as char || c == '\n' || c == '\r' || c == '\t' || c == 11 as char
  }

  /** The first character from here on that is not blank. */
  function SkipBlanks(text: string, i: nat): (r: nat)
    ensures r >= i && (i <= |text| ==> r <= |text|)
    decreases |text| - i
  {
    if i < |text| && IsBlank(text[i]) then SkipBlanks(text, i + 1) else i
  }

  /** The first character from here on that is not a digit of this base. */
  function RunEnd(text: string, i: nat, base: nat): (r: nat)
    ensures r >= i && (i <= |text| ==> r <= |text|)
    decreases |text| - i
  {
    if i < |text| && IsDigit(text[i], base) then RunEnd(text, i + 1, base) else i
  }

  /** What comes before the digits: where they start, their base, and whether there is a minus sign. */
  datatype Head = Head(start: nat, base: nat, minus: bool) | Refused

  function ReadHead(text: string, base: int): Head {
    if base != 0 && (base < 2 || base > 36) then Refused
    else
      var i := SkipBlanks(text, 0);
      var minus := At(text, i) == '-';
      var j := if minus || At(text, i) == '+' then i + 1 else i;
      if At(text, j) == '0' then
        if At(text, j + 1) == 'x' || At(text, j + 1) == 'X' then
          if base != 0 && base != 16 then Refused else Head(j + 2, 16, minus)
        else Head(j + 1, if base == 0 then 8 else base, minus)
      else Head(j, if base == 0 then 10 else base, minus)
  }

  function Run(text: string, h: Head): string
    requires h.Head?
  {
    if h.start <= |text| then text[h.start..RunEnd(text, h.start, h.base)] else []
  }

  lemma {:induction false} SkipsTo(text: string, i: nat, e: nat)
    requires i <= e <= |text| && forall k :: i <= k < e ==> IsBlank(text[k])
    requires e < |text| ==> !IsBlank(text[e])
    ensures SkipBlanks(text, i) == e
    decreases e - i
  {
    if i < e { SkipsTo(text, i + 1, e); }
  }

  lemma {:induction false} RunsTo(text: string, i: nat, e: nat, base: nat)
    requires i <= e <= |text| && forall k :: i <= k < e ==> IsDigit(text[k], base)
    requires e < |text| ==> !IsDigit(text[e], base)
    ensures RunEnd(text, i, base) == e
    decreases e - i
  {
    if i < e { RunsTo(text, i + 1, e, base); }
  }

  /** Between these places there is a sign, or nothing. */
  predicate SignAt(text: string, i: nat, j: nat) {
    j == i || (j == i + 1 && (At(text, i) == '+' || At(text, i) == '-'))
  }

  /** The prefix between these places says what the base is, where the caller has left it open or has it
      that way. */
  predicate PrefixAt(text: string, j: nat, k: nat, base: int, b: nat) {
    || (k == j && At(text, j) != '0' && b == if base == 0 then 10 else base)
    || (k == j + 1 && At(text, j) == '0' && At(text, k) != 'x' && At(text, k) != 'X' &&
      b == if base == 0 then 8 else base)
    || (k == j + 2 && At(text, j) == '0' && (At(text, j + 1) == 'x' || At(text, j + 1) == 'X') &&
      (base == 0 || base == 16) && b == 16)
  }

  /** A number with blanks before it, a sign, a prefix and digits, and then something else, is read as far
      as its digits go. */
  lemma ReadsNumber(text: string, i: nat, j: nat, k: nat, e: nat, base: int, b: nat)
    requires i <= j <= k <= e <= |text| && (base == 0 || 2 <= base <= 36)
    requires (forall x :: 0 <= x < i ==> IsBlank(text[x])) && SignAt(text, i, j) && PrefixAt(text, j, k, base, b)
    requires (forall x :: k <= x < e ==> IsDigit(text[x], b)) && !IsDigit(At(text, e), b) && (j == k ==> k < e)
    ensures ReadHead(text, base) == Head(k, b, i < j && text[i] == '-')
    ensures RunEnd(text, k, b) == e && Run(text, ReadHead(text, base)) == text[k..e]
  {
    assert j == k ==> IsDigit(text[k], b);
    hide DigitOf, SkipBlanks, RunEnd;
    SkipsTo(text, 0, i);
    RunsTo(text, k, e, b);
  }

  /** Reading back what has been printed gives the number and ends behind its last digit, in front of the
      NUL character, whatever comes after that. */
  lemma RoundTrip(n: nat, base: nat, upper: bool, text: string)
    requires 2 <= base <= 36 && Digits(n, base, upper) <= text && At(text, |Digits(n, base, upper)|) == '\0'
    ensures var h := ReadHead(text, base);
      && h.Head? && !h.minus && h.base == base && Value(Run(text, h), base) == n
      && RunEnd(text, h.start, base) == |Digits(n, base, upper)|
  {
    hide Digits, Value, DigitOf, RunEnd, SkipBlanks, IsDigit;
    var ds := Digits(n, base, upper);
    ValueOfDigits(n, base, upper);
    NoLeadingZero(n, base, upper);
    NulIsNoDigit(base);
    forall x | 0 <= x < |ds| ensures IsDigit(text[x], base) {
      assert text[x] == ds[x];
    }
    assert text[0] == ds[0];
    if n == 0 {
      ReadsNumber(text, 0, 0, 1, 1, base, base);
      NoValue(base);
    } else {
      ReadsNumber(text, 0, 0, 0, |ds|, base, base);
      assert text[0..|ds|] == ds;
    }
  }

  /** With the prefix of C a hexadecimal number is read in base 16, and in a base that is left open. */
  lemma RoundTripHex(n: nat, upper: bool, base: nat, text: string)
    requires (base == 0 || base == 16) && text == "0x" + Digits(n, 16, upper)
    ensures ReadHead(text, base) == Head(2, 16, false) && RunEnd(text, 2, 16) == |text|
    ensures Value(Run(text, Head(2, 16, false)), 16) == n
  {
    hide Digits, Value, DigitOf, RunEnd, ReadHead, SkipBlanks, IsDigit;
    var ds := Digits(n, 16, upper);
    ValueOfDigits(n, 16, upper);
    assert At(text, 0) == '0' && At(text, 1) == 'x' && text[2..|text|] == ds;
    forall x | 2 <= x < |text| ensures IsDigit(text[x], 16) {
      assert text[x] == ds[x - 2];
    }
    NulIsNoDigit(16);
    ReadsNumber(text, 0, 0, 2, |text|, base, 16);
  }

  lemma NulIsNoDigit(base: nat)
    ensures !IsDigit('\0', base)
  {
  }

  lemma {:induction false} ValueGrows(s: string, base: nat, i: nat)
    requires base >= 1 && AllDigits(s, base) && i <= |s|
    ensures 0 <= Value(s[..i], base) <= Value(s, base)
    decreases |s|
  {
    if |s| > 0 {
      var n := |s| - 1;
      ValueGrows(s[..n], base, if i < n then i else n);
      assert i < |s| ==> s[..n][..i] == s[..i];
      assert s[..|s|] == s;
      assert s[..n][..n] == s[..n];
      DigitRange(s[n], base);
      TimesMono(Value(s[..n], base), 1, base);
    }
  }

  lemma DigitRange(c: char, base: nat)
    requires IsDigit(c, base)
    ensures 0 <= DigitOf(c) < base
  {
  }

  lemma {:induction false} RunDigits(text: string, i: nat, base: nat)
    requires i <= |text|
    ensures AllDigits(text[i..RunEnd(text, i, base)], base)
    decreases |text| - i
  {
    if i < |text| && IsDigit(text[i], base) {
      RunDigits(text, i + 1, base);
      assert text[i..RunEnd(text, i, base)] == [text[i]] + text[i + 1..RunEnd(text, i + 1, base)];
    }
  }

  /** Reads a number in words that hold less than `limit`.  A run of digits that stands for less is read
      to its end and exactly.  Of a larger one this may notice the overflow, then it stops and returns
      `most`; it never takes a smaller one for it. */
  method TextToNumber(text: string, base: int, limit: nat, most: nat) returns (value: nat, end: nat)
    requires limit > 0
    ensures ReadHead(text, base) == Refused ==> value == 0 && end == 0
    ensures var h := ReadHead(text, base);
      h.Head? ==>
        && h.start <= end <= RunEnd(text, h.start, h.base)
        && var n := Value(Run(text, h), h.base);
        && (0 <= n < limit ==>
          end == RunEnd(text, h.start, h.base) && value == if h.minus then (limit - n) % limit else n)
        && (end < RunEnd(text, h.start, h.base) ==> n >= limit && value == most)
  {
    hide Value, DigitOf, IsDigit;
    value, end := 0, 0;
    if base != 0 && (base < 2 || base > 36) { return; }
    var i: nat := 0;
    var c := At(text, i);
    while IsBlank(c)
      invariant c == At(text, i) && SkipBlanks(text, 0) == SkipBlanks(text, i)
      decreases |text| - i
    {
      i := i + 1;
      c := At(text, i);
    }
    var b := base;
    var minus := false;
    if At(text, i) == '+' || At(text, i) == '-' {
      minus := At(text, i) == '-';
      i := i + 1;
    }
    if At(text, i) == '0' {
      i := i + 1;
      if At(text, i) == 'x' || At(text, i) == 'X' {
        if b != 0 && b != 16 { return; }
        b := 16;
        i := i + 1;
      } else if b == 0 {
        b := 8;
      }
    } else if b == 0 {
      b := 10;
    }
    assert ReadHead(text, base) == Head(i, b, minus);
    value, end := DigitsToNumber(text, i, b, minus, limit, most);
  }

  /** Taking one more digit, in words of less than `limit`. */
  function NextWord(value: nat, base: nat, d: nat, limit: nat): nat
    requires limit > 0
  {
    (value * base + d) % limit
  }

  /** The digits of a number. */
  method DigitsToNumber(text: string, start: nat, b: nat, minus: bool, limit: nat, most: nat)
    returns (value: nat, end: nat)
    requires start <= |text| && b >= 1 && limit > 0
    ensures start <= end <= RunEnd(text, start, b)
    ensures var n := Value(text[start..RunEnd(text, start, b)], b);
      && (0 <= n < limit ==> end == RunEnd(text, start, b) && value == if minus then (limit - n) % limit else n)
      && (end < RunEnd(text, start, b) ==> n >= limit && value == most)
  {
    hide Value, DigitOf, IsDigit, RunEnd, NextWord;
    ghost var last: nat := RunEnd(text, start, b);
    ghost var run := text[start..last];
    RunDigits(text, start, b);
    NoValue(b);
    assert run[..0] == [];
    value, end := 0, start;
    var first := true;
    while true
      invariant start <= end <= last <= |text| && RunEnd(text, end, b) == last && (first <==> end == start)
      invariant 0 <= value < limit && (Value(run[..end - start], b) < limit ==> value == Value(run[..end - start], b))
      decreases last - end
    {
      var c := At(text, end);
      ReadDigit(text, start, end, b, run, limit, value);
      if c < '0' { break; }
      var d := DigitOf(c);
      if d >= b { break; }
      var previous := value;
      value := NextWord(value, b, d, limit);
      if value < previous { return most, end; }
      end := end + 1;
      first := false;
    }
    assert run[..end - start] == run;
    ValueGrows(run, b, 0);
    if first { return; }
    if minus { value := (limit - value) % limit; }
  }

  /** At its end a run goes no further, before it by one digit. */
  lemma RunStep(text: string, start: nat, i: nat, base: nat, run: string)
    requires start <= i <= |text| && base >= 1 && RunEnd(text, i, base) == RunEnd(text, start, base)
    requires run == text[start..RunEnd(text, start, base)]
    ensures IsDigit(At(text, i), base) <==> i < RunEnd(text, i, base)
    ensures IsDigit(At(text, i), base) <==> At(text, i) >= '0' && DigitOf(At(text, i)) < base
    ensures IsDigit(At(text, i), base) ==>
      && i < |text| && RunEnd(text, i + 1, base) == RunEnd(text, i, base) && 0 <= DigitOf(At(text, i)) < base
      && 0 <= Value(run[..i - start], base)
      && Value(run[..i + 1 - start], base) ==
        Value(run[..i - start], base) * base + DigitOf(At(text, i)) <= Value(run, base)
  {
    RunDigits(text, start, base);
    if IsDigit(At(text, i), base) {
      DigitRange(At(text, i), base);
      hide DigitOf, Value;
      assert i < |text| && RunEnd(text, i + 1, base) == RunEnd(text, i, base);
      var k := i - start;
      assert run[..k + 1] == run[..k] + [text[i]];
      ValueNext(run[..k], text[i], base);
      ValueGrows(run, base, k);
      ValueGrows(run, base, k + 1);
    }
  }

  /** What one round of reading does. */
  lemma ReadDigit(text: string, start: nat, i: nat, base: nat, run: string, limit: nat, value: nat)
    requires start <= i <= |text| && base >= 1 && RunEnd(text, i, base) == RunEnd(text, start, base)
    requires run == text[start..RunEnd(text, start, base)] && value < limit
    requires Value(run[..i - start], base) < limit ==> value == Value(run[..i - start], base)
    ensures var c := At(text, i); IsDigit(c, base) <==> i < RunEnd(text, i, base)
    ensures var c := At(text, i); IsDigit(c, base) <==> c >= '0' && DigitOf(c) < base
    ensures var c := At(text, i); IsDigit(c, base) ==>
      && i < |text| && RunEnd(text, i + 1, base) == RunEnd(text, i, base) && 0 <= DigitOf(c)
      && var next := NextWord(value, base, DigitOf(c), limit);
      && next < limit
      && (Value(run[..i + 1 - start], base) < limit ==> next == Value(run[..i + 1 - start], base))
      && (next < value ==> Value(run, base) >= limit)
  {
    RunStep(text, start, i, base, run);
    hide Value, DigitOf, IsDigit, RunEnd;
    if IsDigit(At(text, i), base) {
      Accumulate(Value(run[..i - start], base), base, DigitOf(At(text, i)), limit, value);
    }
  }

  lemma Accumulate(v: int, base: nat, d: int, limit: nat, previous: int)
    requires 0 <= v && base >= 1 && d >= 0 && 0 <= previous < limit && (v < limit ==> previous == v)
    ensures var w := v * base + d;
      && w >= v
      && (w < limit ==> (previous * base + d) % limit == w)
      && ((previous * base + d) % limit < previous ==> w >= limit)
  {
    TimesMono(v, 1, base);
    var w := v * base + d;
    if w < limit { DivIs(w, limit, 0, w); }
  }

  /** Printing a number into a buffer and reading the buffer gives the number. */
  method PrintThenRead(dest: array<char>, n: nat, limit: nat, base: nat, upper: bool) returns (value: nat, end: nat)
    requires 2 <= base <= 36 && n < limit && dest.Length > |Digits(n, base, upper)|
    modifies dest
    ensures value == n && end == |Digits(n, base, upper)|
  {
    hide Digits, Value, Run, RunEnd, ReadHead;
    var length := NumberToText(dest, n, limit, base, upper);
    assert dest[..length] <= dest[..] && At(dest[..], length) == '\0';
    RoundTrip(n, base, upper, dest[..]);
    value, end := TextToNumber(dest[..], base, limit, limit - 1);
  }
}
