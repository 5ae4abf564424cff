/** String operations of the Rust standard library that parsing and rule matching rely on. */
module Text {
  import opened Wrappers

  /** The Unicode White_Space property. */
  predicate IsSpace(c: char) {
    var n := c as int;
    9 <= n <= 13 || n == 32 || n == 0x85 || n == 0xA0 || n == 0x1680 || 0x2000 <= n <= 0x200A
    || n == 0x2028 || n == 0x2029 || n == 0x202F || n == 0x205F || n == 0x3000
  }

  function TrimStart(s: string): string {
    if s != "" && IsSpace(s[0]) then TrimStart(s[1..]) else s
  }

  function TrimEnd(s: string): string {
    if s != "" && IsSpace(s[|s| - 1]) then TrimEnd(s[..|s| - 1]) else s
  }

  function Trim(s: string): string {
    TrimEnd(TrimStart(s))
  }

  function LowerChar(c: char): char {
    if 'A' <= c <= 'Z' then (c as int + 32) as char else c
  }

  function UpperChar(c: char): char {
    if 'a' <= c <= 'z' then (c as int - 32) as char else c
  }

  /** ASCII case conversions. */
  function Lower(s: string): string {
    seq(|s|, i requires 0 <= i < |s| => LowerChar(s[i]))
  }

  function Upper(s: string): string {
    seq(|s|, i requires 0 <= i < |s| => UpperChar(s[i]))
  }

  predicate EqIgnoreCase(a: string, b: string) {
    Lower(a) == Lower(b)
  }

  /** The same character, or the same ASCII letter in the other case. */
  ghost predicate SameLetter(x: char, y: char) {
    || x == y
    || ('a' <= x <= 'z' && x as int == y as int + 32)
    || ('a' <= y <= 'z' && y as int == x as int + 32)
  }

  /** Comparing without case is comparing letter by letter. */
  lemma EqIgnoreCaseIff(a: string, b: string)
    ensures EqIgnoreCase(a, b) <==> |a| == |b| && forall i :: 0 <= i < |a| ==> SameLetter(a[i], b[i])
  {
    if EqIgnoreCase(a, b) {
      assert |Lower(a)| == |a| && |Lower(b)| == |b|;
      forall i | 0 <= i < |a| ensures SameLetter(a[i], b[i]) {
        assert Lower(a)[i] == LowerChar(a[i]) && Lower(b)[i] == LowerChar(b[i]);
      }
    }
  }

  /** Upper case changes the case of letters only, and leaves none in lower case. */
  lemma UpperMeans(s: string)
    ensures |Upper(s)| == |s|
    ensures forall i :: 0 <= i < |s| ==> SameLetter(Upper(s)[i], s[i]) && !('a' <= Upper(s)[i] <= 'z')
  {
  }

  ghost predicate Gap(s: string) {
    forall i :: 0 <= i < |s| ==> IsSpace(s[i])
  }

  lemma {:induction false} TrimGap(gap: string, s: string)
    requires Gap(gap) && (s == "" || !IsSpace(s[0]))
    ensures TrimStart(gap + s) == s
  {
    hide IsSpace;
    if gap == "" {
      assert gap + s == s;
    } else {
      assert (gap + s)[1..] == gap[1..] + s;
      TrimGap(gap[1..], s);
    }
  }

  lemma {:induction false} TrimEndGap(s: string, gap: string)
    requires Gap(gap) && (s == "" || !IsSpace(s[|s| - 1]))
    ensures TrimEnd(s + gap) == s
  {
    hide IsSpace;
    if gap == "" {
      assert s + gap == s;
    } else {
      assert (s + gap)[..|s + gap| - 1] == s + gap[..|gap| - 1];
      TrimEndGap(s, gap[..|gap| - 1]);
    }
  }

  /** Trimming takes the white space around a text, and nothing else. */
  lemma TrimMeans(a: string, s: string, b: string)
    requires Gap(a) && Gap(b) && s != "" && !IsSpace(s[0]) && !IsSpace(s[|s| - 1])
    ensures Trim(a + s + b) == s
  {
    hide IsSpace;
    assert a + s + b == a + (s + b);
    TrimGap(a, s + b);
    TrimEndGap(s, b);
  }

  /** Where a character first stands, the length if nowhere. */
  function IndexOf(s: string, c: char): (n: nat)
    ensures n <= |s| && (n < |s| ==> s[n] == c) && forall i :: 0 <= i < n ==> s[i] != c
  {
    if s == "" || s[0] == c then 0 else 1 + IndexOf(s[1..], c)
  }

  function Digits(s: string, acc: nat): Option<nat> {
    if s == "" then Some(acc)
    else if '0' <= s[0] <= '9' then Digits(s[1..], acc * 10 + (s[0] as int - '0' as int))
    else None
  }

  /** Parsing of an unsigned integer type: an optional plus, then digits, below its bound. */
  function ParseUnsigned(s: string, bound: nat): Option<nat> {
    var d := if s != "" && s[0] == '+' then s[1..] else s;
    if d == "" then None
    else match Digits(d, 0)
      case None => None
      case Some(n) => if n < bound then Some(n) else None
  }

  /** Decimal digits without leading zeros. */
  function ShowNat(n: nat): (s: string)
    ensures s != "" && forall i :: 0 <= i < |s| ==> '0' <= s[i] <= '9'
  {
    var last := [(n % 10 + '0' as int) as char];
    if n < 10 then last else ShowNat(n / 10) + last
  }

  lemma {:induction false} DigitsAppend(s: string, c: char, acc: nat)
    requires '0' <= c <= '9'
    ensures Digits(s + [c], acc)
         == if Digits(s, acc).None? then None else Some(Digits(s, acc).value * 10 + (c as int - '0' as int))
  {
    if s == "" {
      assert s + [c] == [c] && [c][1..] == "";
    } else {
      assert (s + [c])[1..] == s[1..] + [c];
      if '0' <= s[0] <= '9' {
        DigitsAppend(s[1..], c, acc * 10 + (s[0] as int - '0' as int));
      }
    }
  }

  lemma {:induction false} DigitsShown(n: nat)
    ensures Digits(ShowNat(n), 0) == Some(n)
  {
    var c := (n % 10 + '0' as int) as char;
    if n < 10 {
      assert ShowNat(n) == "" + [c];
      DigitsAppend("", c, 0);
    } else {
      DigitsShown(n / 10);
      DigitsAppend(ShowNat(n / 10), c, 0);
    }
  }

  function Zeros(z: nat): string {
    seq(z, _ => '0')
  }

  /** A string of digits is the numeral of some number after some zeros, and read as that
      number. */
  lemma {:induction false} DigitsAreNumeral(s: string) returns (z: nat, n: nat)
    requires s != "" && forall i :: 0 <= i < |s| ==> '0' <= s[i] <= '9'
    ensures s == Zeros(z) + ShowNat(n) && Digits(s, 0) == Some(n)
  {
    var t, c := s[..|s| - 1], s[|s| - 1];
    assert s == t + [c];
    if t == "" {
      z, n := 0, c as int - '0' as int;
      OneDigit(c);
    } else {
      z, n := DigitsAreNumeral(t);
      hide Digits, ShowNat, Zeros;
      z, n := NumeralMore(t, z, n, c);
    }
  }

  lemma OneDigit(c: char)
    requires '0' <= c <= '9'
    ensures var n := c as int - '0' as int; [c] == Zeros(0) + ShowNat(n) && Digits([c], 0) == Some(n)
  {
    assert [c] == "" + [c];
    DigitsAppend("", c, 0);
  }

  lemma NumeralMore(t: string, z: nat, n: nat, c: char) returns (z': nat, n': nat)
    requires t == Zeros(z) + ShowNat(n) && Digits(t, 0) == Some(n) && '0' <= c <= '9'
    ensures t + [c] == Zeros(z') + ShowNat(n') && Digits(t + [c], 0) == Some(n')
  {
    hide Digits, ShowNat;
    var d := c as int - '0' as int;
    DigitsAppend(t, c, 0);
    LastDigit(n, d);
    n' := 10 * n + d;
    if n == 0 {
      z' := z + 1;
      assert Zeros(z) + "0" == Zeros(z');
    } else {
      z' := z;
    }
  }

  lemma LastDigit(n: nat, d: nat)
    requires d < 10
    ensures ShowNat(0) == "0" && ShowNat(d) == [(d + '0' as int) as char]
    ensures n > 0 ==> ShowNat(10 * n + d) == ShowNat(n) + [(d + '0' as int) as char]
  {
    assert (10 * n + d) / 10 == n && (10 * n + d) % 10 == d;
  }

  /** What is shown is parsed back. */
  lemma ParseShown(n: nat, bound: nat)
    requires n < bound
    ensures ParseUnsigned(ShowNat(n), bound) == Some(n)
  {
    DigitsShown(n);
  }

  /** Text without white space is left alone by trimming. */
  lemma TrimFixed(s: string)
    requires forall i :: 0 <= i < |s| ==> !IsSpace(s[i])
    ensures Trim(s) == s
  {
  }
}
