/**
 * The few Ruby `String` operations the client library relies on, written out
 * so that their edge cases are explicit: `strip`, `to_i`, `chomp(suffix)`,
 * `tr("_", "-")` and `Integer#to_s` (used when numbers are interpolated into paths).
 */
module RubyString {

  /** ASCII whitespace as Ruby's `isspace` sees it: space, \t, \n, \v, \f, \r. */
  predicate IsSpace(c: char) {
    c == ' ' || c == '\t' || c == '\n' || c == '\U{B}' || c == '\U{C}' || c == '\r'
  }

  /** `rstrip` also removes trailing NUL characters. */
  predicate IsTrailingJunk(c: char) {
    IsSpace(c) || c == '\0'
  }

  /** `lstrip`: drop leading whitespace. */
  function LStrip(s: string): (r: string)
    ensures |r| <= |s| && r == s[|s| - |r|..]
    ensures r == [] || !IsSpace(r[0])
    ensures forall i :: 0 <= i < |s| - |r| ==> IsSpace(s[i])
  {
    if s != [] && IsSpace(s[0]) then LStrip(s[1..]) else s
  }

  /** `rstrip`: drop trailing whitespace and NULs. */
  function RStrip(s: string): (r: string)
    ensures |r| <= |s| && r == s[..|r|]
    ensures r == [] || !IsTrailingJunk(r[|r| - 1])
    ensures forall i :: |r| <= i < |s| ==> IsTrailingJunk(s[i])
  {
    if s != [] && IsTrailingJunk(s[|s| - 1]) then RStrip(s[..|s| - 1]) else s
  }

  /** `strip` is `lstrip` followed by `rstrip`. */
  function Strip(s: string): string {
    RStrip(LStrip(s))
  }

  /** A string `strip` leaves alone. */
  predicate IsStripped(s: string) {
    s == [] || (!IsSpace(s[0]) && !IsTrailingJunk(s[|s| - 1]))
  }

  /**
   * `strip` yields a contiguous piece of its input with no surrounding
   * whitespace, and everything it removed was whitespace.
   */
  lemma {:induction false} StripSpec(s: string)
    ensures var r, k := Strip(s), |s| - |LStrip(s)|;
      && IsStripped(r)
      && k + |r| <= |s| && r == s[k..k + |r|]
      && (forall i :: 0 <= i < k ==> IsSpace(s[i]))
      && (forall i :: k + |r| <= i < |s| ==> IsTrailingJunk(s[i]))
  {
    StripSlice(s);
    StripTrailing(s);
    StripResultStripped(s);
  }

  lemma {:induction false} StripSlice(s: string)
    ensures var r, k := Strip(s), |s| - |LStrip(s)|;
      k + |r| <= |s| && r == s[k..k + |r|]
  {
    var l := LStrip(s);
    var r := RStrip(l);
    var k := |s| - |l|;
    assert l == s[k..];
    assert r == l[..|r|];
  }

  lemma {:induction false} StripTrailing(s: string)
    ensures var r, k := Strip(s), |s| - |LStrip(s)|;
      forall i :: k + |r| <= i < |s| ==> IsTrailingJunk(s[i])
  {
    var l := LStrip(s);
    var r := RStrip(l);
    var k := |s| - |l|;
    assert l == s[k..];
    forall j | k + |r| <= j < |s| ensures IsTrailingJunk(s[j]) {
      assert s[j] == l[j - k];
    }
  }

  lemma {:induction false} StripResultStripped(s: string)
    ensures IsStripped(Strip(s))
  {
    var l := LStrip(s);
    var r := RStrip(l);
    if r != [] {
      assert r[0] == l[0];
    }
  }

  /** `strip` leaves a stripped string unchanged, so stripping twice is stripping once. */
  lemma {:induction false} StripStripped(s: string)
    requires IsStripped(s)
    ensures Strip(s) == s
  {
    if s != [] {
      assert LStrip(s) == s;
    }
  }

  lemma {:induction false} StripIdempotent(s: string)
    ensures Strip(Strip(s)) == Strip(s)
  {
    StripSpec(s);
    StripStripped(Strip(s));
  }

  /** Whitespace around a stripped, non-empty text is exactly what `strip` removes. */
  lemma {:induction false} StripPadded(lead: string, s: string, trail: string)
    requires forall i :: 0 <= i < |lead| ==> IsSpace(lead[i])
    requires forall i :: 0 <= i < |trail| ==> IsSpace(trail[i])
    requires s != [] && IsStripped(s)
    ensures Strip(lead + s + trail) == s
  {
    LStripPadded(lead, s + trail);
    assert lead + s + trail == lead + (s + trail);
    RStripPadded(s, trail);
  }

  lemma {:induction false} LStripPadded(lead: string, s: string)
    requires forall i :: 0 <= i < |lead| ==> IsSpace(lead[i])
    requires s != [] && !IsSpace(s[0])
    ensures LStrip(lead + s) == s
  {
    if lead == [] {
      assert lead + s == s;
    } else {
      assert (lead + s)[1..] == lead[1..] + s;
      LStripPadded(lead[1..], s);
    }
  }

  lemma {:induction false} RStripPadded(s: string, trail: string)
    requires forall i :: 0 <= i < |trail| ==> IsSpace(trail[i])
    requires s != [] && !IsTrailingJunk(s[|s| - 1])
    ensures RStrip(s + trail) == s
  {
    if trail == [] {
      assert s + trail == s;
    } else {
      var t := s + trail;
      assert t[..|t| - 1] == s + trail[..|trail| - 1];
      RStripPadded(s, trail[..|trail| - 1]);
    }
  }

  // ---------------------------------------------------------------------------
  // String#to_i

  predicate IsDigit(c: char) { '0' <= c <= '9' }

  function DigitValue(c: char): (d: nat)
    requires IsDigit(c)
    ensures d < 10
  {
    (c as int) - ('0' as int)
  }

  /**
   * The digits `to_i` reads from the front of `s`: a run of decimal digits in
   * which a single underscore between two digits is skipped ("1_000").
   */
  function DigitRun(s: string): (ds: seq<nat>)
    ensures forall i :: 0 <= i < |ds| ==> ds[i] < 10
    ensures s == [] || !IsDigit(s[0]) ==> ds == []
  {
    if s == [] || !IsDigit(s[0]) then []
    else if |s| >= 3 && s[1] == '_' && IsDigit(s[2]) then [DigitValue(s[0])] + DigitRun(s[2..])
    else [DigitValue(s[0])] + DigitRun(s[1..])
  }

  /** The number a sequence of decimal digits denotes, most significant first. */
  function Horner(ds: seq<nat>): nat {
    if ds == [] then 0 else Horner(ds[..|ds| - 1]) * 10 + ds[|ds| - 1]
  }

  /**
   * `String#to_i`: skip leading whitespace, read an optional sign and then the
   * digit run; 0 when there are no digits. Never fails.
   */
  function ToI(s: string): int {
    var t := LStrip(s);
    if t != [] && t[0] == '-' then -(Horner(DigitRun(t[1..])) as int)
    else if t != [] && t[0] == '+' then Horner(DigitRun(t[1..]))
    else Horner(DigitRun(t))
  }

  /** A string that does not start with a sign or a digit reads as 0. */
  lemma ToINoDigits(s: string)
    requires forall i :: 0 <= i < |s| ==> !IsSpace(s[i])
    requires s == [] || (!IsDigit(s[0]) && s[0] != '-' && s[0] != '+')
    ensures ToI(s) == 0
  {
    assert LStrip(s) == s;
  }

  // ---------------------------------------------------------------------------
  // Integer#to_s, the partner of to_i

  function DigitChar(d: nat): (c: char)
    requires d < 10
    ensures IsDigit(c) && DigitValue(c) == d
  {
    ('0' as int + d) as char
  }

  /** Decimal digits of a natural number, no leading zeros ("0" for zero). */
  function NatDigits(n: nat): (s: string)
    ensures |s| >= 1
    ensures forall i :: 0 <= i < |s| ==> IsDigit(s[i])
  {
    if n < 10 then [DigitChar(n)] else NatDigits(n / 10) + [DigitChar(n % 10)]
  }

  /** `Integer#to_s`: optional minus sign followed by the digits of the magnitude. */
  function IntToS(n: int): string {
    if n < 0 then "-" + NatDigits(-n) else NatDigits(n)
  }

  /** `to_s` writes an optional minus sign followed by digits. */
  lemma IntToSChars(n: int, i: nat)
    requires i < |IntToS(n)|
    ensures IsDigit(IntToS(n)[i]) || (i == 0 && n < 0 && IntToS(n)[i] == '-')
  {
    if n < 0 && i > 0 {
      assert IntToS(n)[i] == NatDigits(-n)[i - 1];
    }
  }

  /** What `to_s` writes has nothing for `strip` to remove. */
  lemma IntToSStripped(n: int)
    ensures IntToS(n) != [] && IsStripped(IntToS(n))
  {
    var s := IntToS(n);
    IntToSChars(n, 0);
    IntToSChars(n, |s| - 1);
  }

  /** A digit string is read back digit for digit. */
  lemma {:induction false} DigitRunOfDigits(s: string)
    requires forall i :: 0 <= i < |s| ==> IsDigit(s[i])
    ensures |DigitRun(s)| == |s|
    ensures forall i :: 0 <= i < |s| ==> DigitRun(s)[i] == DigitValue(s[i])
  {
    if s != [] {
      DigitRunOfDigits(s[1..]);
    }
  }

  lemma {:induction false} HornerOfNatDigits(n: nat)
    ensures |DigitRun(NatDigits(n))| == |NatDigits(n)|
    ensures Horner(DigitRun(NatDigits(n))) == n
  {
    var s := NatDigits(n);
    DigitRunOfDigits(s);
    var ds := DigitRun(s);
    if n >= 10 {
      var p := NatDigits(n / 10);
      HornerOfNatDigits(n / 10);
      DigitRunOfDigits(p);
      assert s == p + [DigitChar(n % 10)];
      assert ds[..|ds| - 1] == DigitRun(p) by {
        forall i | 0 <= i < |p| ensures ds[i] == DigitRun(p)[i] {
          assert s[i] == p[i];
        }
      }
      assert ds[|ds| - 1] == n % 10 by {
        assert s[|s| - 1] == DigitChar(n % 10);
      }
    } else {
      assert ds == [n];
      assert ds[..0] == [];
    }
  }

  /** `to_i` inverts `to_s`: every integer printed in decimal reads back as itself. */
  lemma ToIOfIntToS(n: int)
    ensures ToI(IntToS(n)) == n
  {
    if n < 0 {
      HornerOfNatDigits(-n);
      ToIOfSignedDigits(NatDigits(-n));
    } else {
      HornerOfNatDigits(n);
      ToIOfSignedDigits(NatDigits(n));
    }
  }

  /** How `to_i` reads a digit string, with and without a leading minus sign. */
  lemma ToIOfSignedDigits(d: string)
    requires |d| >= 1 && forall i :: 0 <= i < |d| ==> IsDigit(d[i])
    ensures ToI(d) == Horner(DigitRun(d))
    ensures ToI("-" + d) == -(Horner(DigitRun(d)) as int)
  {
    assert !IsSpace(d[0]);
    assert LStrip(d) == d;
    var m := "-" + d;
    assert m[0] == '-' && !IsSpace(m[0]);
    assert LStrip(m) == m;
    assert m[1..] == d;
  }

  // ---------------------------------------------------------------------------
  // chomp(suffix) and tr("_", "-")

  predicate EndsWith(s: string, suffix: string) {
    |suffix| <= |s| && s[|s| - |suffix|..] == suffix
  }

  /** `chomp(suffix)`: remove `suffix` once from the end, if it is there. */
  function Chomp(s: string, suffix: string): (r: string)
    ensures EndsWith(s, suffix) && suffix != [] ==> r + suffix == s
    ensures !EndsWith(s, suffix) || suffix == [] ==> r == s
  {
    if suffix != [] && EndsWith(s, suffix) then s[..|s| - |suffix|] else s
  }

  /** Chomping a suffix just appended gives the original string back. */
  lemma ChompAppended(s: string, suffix: string)
    requires suffix != []
    ensures Chomp(s + suffix, suffix) == s
  {
    assert (s + suffix)[|s|..] == suffix;
    assert (s + suffix)[..|s|] == s;
  }

  /** `tr(from, to)` for one character: replace every `from` by `to`. */
  function Tr(s: string, from: char, to: char): (r: string)
    ensures |r| == |s|
    ensures forall i :: 0 <= i < |s| ==> r[i] == if s[i] == from then to else s[i]
  {
    if s == [] then [] else [if s[0] == from then to else s[0]] + Tr(s[1..], from, to)
  }

  /** `String#include?`: does `part` occur in `s`? Searched left to right. */
  predicate Contains(s: string, part: string)
    decreases |s|
  {
    if |s| < |part| then false
    else if s[..|part|] == part then true
    else Contains(s[1..], part)
  }

  predicate OccursAt(s: string, part: string, i: int)
    requires 0 <= i <= |s| - |part|
  {
    s[i..i + |part|] == part
  }

  /** The search finds `part` exactly when it occurs at some position of `s`. */
  lemma {:induction false} ContainsSpec(s: string, part: string)
    ensures Contains(s, part) <==> exists i :: 0 <= i <= |s| - |part| && OccursAt(s, part, i)
    decreases |s|
  {
    if |s| >= |part| && s[..|part|] != part {
      ContainsSpec(s[1..], part);
      if exists i :: 0 <= i <= |s| - |part| && OccursAt(s, part, i) {
        var i :| 0 <= i <= |s| - |part| && OccursAt(s, part, i);
        assert i != 0;
        assert s[1..][i - 1..i - 1 + |part|] == s[i..i + |part|];
        assert OccursAt(s[1..], part, i - 1);
      }
      if Contains(s[1..], part) {
        var j :| 0 <= j <= |s[1..]| - |part| && OccursAt(s[1..], part, j);
        assert s[1..][j..j + |part|] == s[j + 1..j + 1 + |part|];
        assert OccursAt(s, part, j + 1);
      }
    } else if |s| >= |part| {
      assert OccursAt(s, part, 0);
    }
  }
}
