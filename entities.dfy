/**
 * `translate_entities`: five literal `gsub` passes that decode the XML
 * predefined entities, `&amp;` last.
 */
module Entities {
  import opened Wrappers

  /**
   * `gsub` with a literal pattern: scan left to right and replace every
   * non-overlapping occurrence of `pat` by `rep`.
   */
  function ReplaceAll(s: string, pat: string, rep: string): string
    requires pat != []
    decreases |s|
  {
    if |s| < |pat| then s
    else if s[..|pat|] == pat then rep + ReplaceAll(s[|pat|..], pat, rep)
    else [s[0]] + ReplaceAll(s[1..], pat, rep)
  }

  /** The passes of `translate_entities`, in the order the source applies them. */
  const Passes: seq<(string, char)> :=
    [("&lt;", '<'), ("&gt;", '>'), ("&quot;", '"'), ("&apos;", '\''), ("&amp;", '&')]

  /** `translate_entities`: the chain of `gsub` calls, exactly as written. */
  function TranslateEntities(s: string): string {
    ReplaceAll(
      ReplaceAll(
        ReplaceAll(
          ReplaceAll(
            ReplaceAll(s, "&lt;", "<"),
            "&gt;", ">"),
          "&quot;", "\""),
        "&apos;", "'"),
      "&amp;", "&")
  }

  /** The passes from number `k` onwards, applied in order. */
  function PassesFrom(s: string, k: nat): string
    requires k <= |Passes|
    decreases |Passes| - k
  {
    if k == |Passes| then s
    else PassesFrom(ReplaceAll(s, Passes[k].0, [Passes[k].1]), k + 1)
  }

  lemma TranslateIsPasses(s: string)
    ensures TranslateEntities(s) == PassesFrom(s, 0)
  {
    var s1 := ReplaceAll(s, "&lt;", "<");
    var s2 := ReplaceAll(s1, "&gt;", ">");
    var s3 := ReplaceAll(s2, "&quot;", "\"");
    var s4 := ReplaceAll(s3, "&apos;", "'");
    var s5 := ReplaceAll(s4, "&amp;", "&");
    assert PassesFrom(s4, 4) == PassesFrom(s5, 5) == s5;
    assert PassesFrom(s3, 3) == PassesFrom(s4, 4);
    assert PassesFrom(s2, 2) == PassesFrom(s3, 3);
    assert PassesFrom(s1, 1) == PassesFrom(s2, 2);
    assert PassesFrom(s, 0) == PassesFrom(s1, 1);
  }

  // ---------------------------------------------------------------------------
  // Facts about a single literal gsub

  lemma ReplaceAllShort(s: string, pat: string, rep: string)
    requires pat != [] && |s| < |pat|
    ensures ReplaceAll(s, pat, rep) == s
  {
  }

  /** A prefix that does not contain the pattern's first character passes through untouched. */
  lemma {:induction false} ReplaceAllSkip(y: string, rest: string, pat: string, rep: string)
    requires pat != [] && pat[0] !in y
    ensures ReplaceAll(y + rest, pat, rep) == y + ReplaceAll(rest, pat, rep)
    decreases |y|
  {
    if y != [] {
      var t := y + rest;
      if |t| < |pat| {
        ReplaceAllShort(rest, pat, rep);
      } else {
        assert t[..|pat|][0] == y[0] != pat[0];
        assert t[1..] == y[1..] + rest;
        ReplaceAllSkip(y[1..], rest, pat, rep);
        assert y == [y[0]] + y[1..];
      }
    } else {
      assert y + rest == rest;
    }
  }

  /** Replacing by something no longer than the pattern never lengthens the string. */
  lemma {:induction false} ReplaceAllShrinks(s: string, pat: string, rep: string)
    requires pat != [] && |rep| <= |pat|
    ensures |ReplaceAll(s, pat, rep)| <= |s|
    decreases |s|
  {
    if |s| >= |pat| {
      if s[..|pat|] == pat {
        ReplaceAllShrinks(s[|pat|..], pat, rep);
      } else {
        ReplaceAllShrinks(s[1..], pat, rep);
      }
    }
  }

  // ---------------------------------------------------------------------------
  // Properties of translate_entities

  /** A string without `&` comes back unchanged. */
  lemma NoAmpersandUnchanged(s: string)
    requires '&' !in s
    ensures TranslateEntities(s) == s
  {
    assert s + [] == s;
    ReplaceAllSkip(s, [], "&lt;", "<");
    ReplaceAllSkip(s, [], "&gt;", ">");
    ReplaceAllSkip(s, [], "&quot;", "\"");
    ReplaceAllSkip(s, [], "&apos;", "'");
    ReplaceAllSkip(s, [], "&amp;", "&");
  }

  /** Decoding never makes a string longer. */
  lemma TranslateShrinks(s: string)
    ensures |TranslateEntities(s)| <= |s|
  {
    var s1 := ReplaceAll(s, "&lt;", "<");
    var s2 := ReplaceAll(s1, "&gt;", ">");
    var s3 := ReplaceAll(s2, "&quot;", "\"");
    var s4 := ReplaceAll(s3, "&apos;", "'");
    ReplaceAllShrinks(s, "&lt;", "<");
    ReplaceAllShrinks(s1, "&gt;", ">");
    ReplaceAllShrinks(s2, "&quot;", "\"");
    ReplaceAllShrinks(s3, "&apos;", "'");
    ReplaceAllShrinks(s4, "&amp;", "&");
  }

  // ---------------------------------------------------------------------------
  // The partner: XML escaping of the five predefined entities

  /** Which pass decodes `c`, if any. */
  function PassOf(c: char): (k: Option<nat>)
    ensures k.Some? ==> k.value < |Passes| && Passes[k.value].1 == c
    ensures k.None? ==> forall j :: 0 <= j < |Passes| ==> Passes[j].1 != c
  {
    if c == '<' then Some(0)
    else if c == '>' then Some(1)
    else if c == '"' then Some(2)
    else if c == '\'' then Some(3)
    else if c == '&' then Some(4)
    else None
  }

  /** One character escaped as it stands once passes before `k` have run. */
  function EscapeCharFrom(c: char, k: nat): string {
    match PassOf(c)
    case Some(j) => if j >= k then Passes[j].0 else [c]
    case None => [c]
  }

  /** `s` with the characters of passes `k` and later written as entities. */
  function EscapeFrom(s: string, k: nat): string {
    if s == [] then [] else EscapeCharFrom(s[0], k) + EscapeFrom(s[1..], k)
  }

  /** Standard XML escaping: `&`, `<`, `>`, `"` and `'` written as their entities. */
  function Escape(s: string): string {
    EscapeFrom(s, 0)
  }

  lemma {:induction false} EscapeFromAllPassesDone(s: string)
    ensures EscapeFrom(s, |Passes|) == s
  {
    if s != [] {
      EscapeFromAllPassesDone(s[1..]);
      assert EscapeCharFrom(s[0], |Passes|) == [s[0]];
      assert s == [s[0]] + s[1..];
    }
  }

  /** No two entities share their first three characters. */
  lemma PassesDiffer(j: nat, k: nat)
    requires j < |Passes| && k < |Passes| && j != k
    ensures |Passes[j].0| >= 3 && Passes[j].0[..3] != Passes[k].0[..3]
  {
    var a, b := Passes[j].0, Passes[k].0;
    assert a[1] != b[1] || a[2] != b[2] by {
      if j == 0 || k == 0 { assert a[1] != b[1]; }
      else if j == 1 || k == 1 { assert a[1] != b[1]; }
      else if j == 2 || k == 2 { assert a[1] != b[1]; }
      else { assert a[2] != b[2]; }
    }
    assert a[..3][1] == a[1] && a[..3][2] == a[2];
  }

  /** The pass for entity `k` decodes that entity at the front of the text. */
  lemma MatchingEntity(rest: string, k: nat)
    requires k < |Passes|
    ensures ReplaceAll(Passes[k].0 + rest, Passes[k].0, [Passes[k].1])
         == [Passes[k].1] + ReplaceAll(rest, Passes[k].0, [Passes[k].1])
  {
    var pat := Passes[k].0;
    var t := pat + rest;
    assert t[..|pat|] == pat;
    assert t[|pat|..] == rest;
  }

  /** Every entity starts with its only '&' and is at least four characters long. */
  lemma EntityShape(j: nat)
    requires j < |Passes|
    ensures var e := Passes[j].0; |e| >= 4 && e[0] == '&' && '&' !in e[1..]
  {
    var e := Passes[j].0;
    assert e[1..] in ["lt;", "gt;", "quot;", "apos;", "amp;"];
  }

  /** The pass for entity `k` leaves a different entity at the front alone. */
  lemma OtherEntity(rest: string, j: nat, k: nat)
    requires j < |Passes| && k < |Passes| && j != k
    ensures ReplaceAll(Passes[j].0 + rest, Passes[k].0, [Passes[k].1])
         == Passes[j].0 + ReplaceAll(rest, Passes[k].0, [Passes[k].1])
  {
    EntityShape(j);
    EntityShape(k);
    PassesDiffer(j, k);
    SkipForeignEntity(Passes[j].0, rest, Passes[k].0, [Passes[k].1]);
  }

  /**
   * A word that starts like the pattern's first character, differs from it
   * within three characters, and has no second occurrence of that character
   * is passed over whole.
   */
  lemma SkipForeignEntity(x: string, rest: string, pat: string, rep: string)
    requires |pat| >= 3 && |x| >= 3 && x[..3] != pat[..3]
    requires pat[0] !in x[1..]
    ensures ReplaceAll(x + rest, pat, rep) == x + ReplaceAll(rest, pat, rep)
  {
    var t := x + rest;
    if |t| < |pat| {
      ReplaceAllShort(t, pat, rep);
      ReplaceAllShort(rest, pat, rep);
    } else {
      assert t[..|pat|] != pat by {
        assert t[..|pat|][..3] == x[..3];
      }
      assert t[1..] == x[1..] + rest;
      ReplaceAllSkip(x[1..], rest, pat, rep);
      assert x == [x[0]] + x[1..];
    }
  }

  lemma EscapedCharStep(c: char, rest: string, k: nat)
    requires k < |Passes|
    ensures ReplaceAll(EscapeCharFrom(c, k) + rest, Passes[k].0, [Passes[k].1])
         == EscapeCharFrom(c, k + 1) + ReplaceAll(rest, Passes[k].0, [Passes[k].1])
  {
    var pat, rep := Passes[k].0, [Passes[k].1];
    assert pat[0] == '&';
    match PassOf(c)
    case Some(j) =>
      if j == k {
        MatchingEntity(rest, k);
      } else if j > k {
        OtherEntity(rest, j, k);
      } else {
        ReplaceAllSkip([c], rest, pat, rep);
      }
    case None =>
      ReplaceAllSkip([c], rest, pat, rep);
  }

  /** Pass `k` turns the text escaped from `k` into the text escaped from `k + 1`. */
  lemma {:induction false} PassStep(s: string, k: nat)
    requires k < |Passes|
    ensures ReplaceAll(EscapeFrom(s, k), Passes[k].0, [Passes[k].1]) == EscapeFrom(s, k + 1)
  {
    if s != [] {
      PassStep(s[1..], k);
      EscapedCharStep(s[0], EscapeFrom(s[1..], k), k);
    }
  }

  lemma {:induction false} PassesFromEscaped(s: string, k: nat)
    requires k <= |Passes|
    ensures PassesFrom(EscapeFrom(s, k), k) == s
    decreases |Passes| - k
  {
    if k == |Passes| {
      EscapeFromAllPassesDone(s);
    } else {
      PassStep(s, k);
      PassesFromEscaped(s, k + 1);
    }
  }

  /**
   * `translate_entities` undoes XML escaping for every string. In particular
   * nothing is decoded twice: the escaped form of "&lt;" is "&amp;lt;", and it
   * decodes to "&lt;", not to "<".
   */
  lemma DecodeEscaped(s: string)
    ensures TranslateEntities(Escape(s)) == s
  {
    TranslateIsPasses(Escape(s));
    PassesFromEscaped(s, 0);
  }

  lemma NoDoubleDecoding()
    ensures TranslateEntities("&amp;lt;") == "&lt;"
  {
    assert Escape("&lt;") == "&amp;lt;";
    DecodeEscaped("&lt;");
  }
}
