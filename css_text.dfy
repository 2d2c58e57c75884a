/**
 * The text the cursor effect writes into CSS: integers rendered by a
 * template literal, and the `transition` shorthand built from an ordered
 * list of (property, seconds) entries.
 */
module CssText {

  import opened Wrappers

  // ---------------------------------------------------------------------
  // Integers as a template literal renders them
  // ---------------------------------------------------------------------

  predicate IsDigit(c: char) {
    '0' <= c <= '9'
  }

  predicate AllDigits(s: string) {
    forall i :: 0 <= i < |s| ==> IsDigit(s[i])
  }

  function DigitChar(d: nat): (c: char)
    requires d < 10
    ensures IsDigit(c) && (c as int) - ('0' as int) == d
  {
    (('0' as int) + d) as char
  }

  function DigitValue(c: char): (d: nat)
    requires IsDigit(c)
    ensures d < 10 && DigitChar(d) == c
  {
    (c as int) - ('0' as int)
  }

  /** Decimal digits of `n`, most significant first, without leading zeros. */
  function NatToString(n: nat): (s: string)
    ensures |s| > 0 && AllDigits(s)
    ensures |s| > 1 ==> s[0] != '0'
    decreases n
  {
    if n < 10 then [DigitChar(n)] else NatToString(n / 10) + [DigitChar(n % 10)]
  }

  /** The value a string of decimal digits denotes. */
  function DigitsValue(s: string): nat
    requires AllDigits(s)
    decreases |s|
  {
    if s == [] then 0 else DigitsValue(s[..|s| - 1]) * 10 + DigitValue(s[|s| - 1])
  }

  /** `${i}` for an integral number `i`: an optional minus sign, then its digits. */
  function IntToString(i: int): string {
    if i < 0 then "-" + NatToString(-i) else NatToString(i)
  }

  /** Reads back an optional minus sign followed by at least one digit. */
  function ParseInt(s: string): Option<int> {
    if |s| > 1 && s[0] == '-' && AllDigits(s[1..]) then Some(0 - DigitsValue(s[1..]) as int)
    else if |s| > 0 && AllDigits(s) then Some(DigitsValue(s) as int)
    else None
  }

  lemma {:induction false} NatToStringRoundTrip(n: nat)
    ensures DigitsValue(NatToString(n)) == n
  {
    if n >= 10 {
      NatToStringRoundTrip(n / 10);
      var s := NatToString(n);
      assert s[..|s| - 1] == NatToString(n / 10);
    }
  }

  /** Rendering an integer loses nothing: parsing the text gives it back. */
  lemma IntToStringRoundTrip(i: int)
    ensures ParseInt(IntToString(i)) == Some(i)
  {
    if i < 0 {
      var s := IntToString(i);
      assert s[1..] == NatToString(-i);
      assert s[0] == '-' && AllDigits(s[1..]);
      NatToStringRoundTrip(-i);
    } else {
      NatToStringRoundTrip(i);
    }
  }

  predicate IsNumeral(c: char) {
    IsDigit(c) || c == '-'
  }

  /** The longest prefix of `s` made of digits and minus signs. */
  function LeadingNumeral(s: string): (r: string)
    ensures r <= s
    decreases |s|
  {
    if s != [] && IsNumeral(s[0]) then [s[0]] + LeadingNumeral(s[1..]) else []
  }

  lemma {:induction false} LeadingNumeralOfConcat(u: string, t: string)
    requires forall i :: 0 <= i < |u| ==> IsNumeral(u[i])
    requires t != [] && !IsNumeral(t[0])
    ensures LeadingNumeral(u + t) == u
  {
    if u != [] {
      assert (u + t)[1..] == u[1..] + t;
      LeadingNumeralOfConcat(u[1..], t);
    } else {
      assert u + t == t;
    }
  }

  /**
   * A rendered integer placed between a fixed prefix and a suffix that does
   * not start with a digit or a minus sign can be read back: the whole text
   * determines both the integer and the suffix.
   */
  lemma NumberThenText(a: string, x1: int, r1: string, x2: int, r2: string)
    requires r1 != [] && !IsNumeral(r1[0])
    requires r2 != [] && !IsNumeral(r2[0])
    requires a + IntToString(x1) + r1 == a + IntToString(x2) + r2
    ensures x1 == x2 && r1 == r2
  {
    var s1, s2 := IntToString(x1), IntToString(x2);
    assert (a + s1 + r1)[|a|..] == s1 + r1;
    assert (a + s2 + r2)[|a|..] == s2 + r2;
    assert forall i :: 0 <= i < |s1| ==> IsNumeral(s1[i]);
    assert forall i :: 0 <= i < |s2| ==> IsNumeral(s2[i]);
    LeadingNumeralOfConcat(s1, r1);
    LeadingNumeralOfConcat(s2, r2);
    IntToStringRoundTrip(x1);
    IntToStringRoundTrip(x2);
    assert (s1 + r1)[|s1|..] == r1;
    assert (s2 + r2)[|s2|..] == r2;
  }

  // ---------------------------------------------------------------------
  // The `transition` serialiser
  // ---------------------------------------------------------------------

  /** One (CSS property, duration in seconds as printed) entry. */
  type TransitionEntry = (string, string)

  /** `${key} ${value}s` */
  function EntryText(e: TransitionEntry): string {
    e.0 + " " + e.1 + "s"
  }

  /** The entries rendered one by one, in their order. */
  function EntryTexts(props: seq<TransitionEntry>): (r: seq<string>)
    ensures |r| == |props|
    ensures forall i :: 0 <= i < |props| ==> r[i] == EntryText(props[i])
  {
    if props == [] then [] else [EntryText(props[0])] + EntryTexts(props[1..])
  }

  /** Array.prototype.join: the pieces with `sep` between neighbours. */
  function Join(pieces: seq<string>, sep: char): string {
    if |pieces| == 0 then ""
    else if |pieces| == 1 then pieces[0]
    else pieces[0] + [sep] + Join(pieces[1..], sep)
  }

  /** The `transition` shorthand for the given entries (`transition` in index.js). */
  function Transition(props: seq<TransitionEntry>): string {
    Join(EntryTexts(props), ',')
  }

  /** The pieces of `s` between occurrences of `sep` (always at least one). */
  function Split(s: string, sep: char): (r: seq<string>)
    ensures |r| > 0
    decreases |s|
  {
    if s == [] then [""]
    else
      var rest := Split(s[1..], sep);
      if s[0] == sep then [""] + rest else [[s[0]] + rest[0]] + rest[1..]
  }

  function Count(s: string, c: char): nat
    decreases |s|
  {
    if s == [] then 0 else (if s[0] == c then 1 else 0) + Count(s[1..], c)
  }

  lemma {:induction false} SplitNoSeparator(p: string, sep: char)
    requires sep !in p
    ensures Split(p, sep) == [p]
  {
    if p != [] {
      SplitNoSeparator(p[1..], sep);
      assert [p[0]] + p[1..] == p;
    }
  }

  lemma {:induction false} SplitAfterPiece(p: string, q: string, sep: char)
    requires sep !in p
    ensures Split(p + [sep] + q, sep) == [p] + Split(q, sep)
  {
    if p == [] {
      assert (p + [sep] + q)[1..] == q;
    } else {
      assert (p + [sep] + q)[1..] == p[1..] + [sep] + q;
      SplitAfterPiece(p[1..], q, sep);
      assert [p[0]] + p[1..] == p;
    }
  }

  lemma {:induction false} CountConcat(s: string, t: string, c: char)
    ensures Count(s + t, c) == Count(s, c) + Count(t, c)
  {
    if s != [] {
      assert (s + t)[1..] == s[1..] + t;
      CountConcat(s[1..], t, c);
    } else {
      assert s + t == t;
    }
  }

  lemma {:induction false} CountAbsent(s: string, c: char)
    requires c !in s
    ensures Count(s, c) == 0
  {
    if s != [] {
      CountAbsent(s[1..], c);
    }
  }

  /** Splitting a join of separator-free pieces gives the pieces back. */
  lemma {:induction false} SplitJoin(pieces: seq<string>, sep: char)
    requires |pieces| > 0
    requires forall i :: 0 <= i < |pieces| ==> sep !in pieces[i]
    ensures Split(Join(pieces, sep), sep) == pieces
  {
    if |pieces| == 1 {
      SplitNoSeparator(pieces[0], sep);
    } else {
      SplitJoin(pieces[1..], sep);
      SplitAfterPiece(pieces[0], Join(pieces[1..], sep), sep);
      assert [pieces[0]] + pieces[1..] == pieces;
    }
  }

  /** A join of n separator-free pieces holds exactly n - 1 separators. */
  lemma {:induction false} JoinCount(pieces: seq<string>, sep: char)
    requires |pieces| > 0
    requires forall i :: 0 <= i < |pieces| ==> sep !in pieces[i]
    ensures Count(Join(pieces, sep), sep) == |pieces| - 1
  {
    CountAbsent(pieces[0], sep);
    if |pieces| > 1 {
      JoinCount(pieces[1..], sep);
      CountConcat(pieces[0] + [sep], Join(pieces[1..], sep), sep);
      CountConcat(pieces[0], [sep], sep);
      assert Count([sep], sep) == 1;
    }
  }

  predicate CommaFree(props: seq<TransitionEntry>) {
    forall i :: 0 <= i < |props| ==> ',' !in props[i].0 && ',' !in props[i].1
  }

  lemma EntryTextCommaFree(e: TransitionEntry)
    requires ',' !in e.0 && ',' !in e.1
    ensures ',' !in EntryText(e)
  {
  }

  /** No entries give the empty shorthand. */
  lemma TransitionEmpty()
    ensures Transition([]) == ""
  {
  }

  /**
   * For comma-free keys and values, the shorthand splits at its commas back
   * into the rendered entries, in order, and n entries use n - 1 commas.
   */
  lemma TransitionShape(props: seq<TransitionEntry>)
    requires |props| > 0 && CommaFree(props)
    ensures Split(Transition(props), ',') == EntryTexts(props)
    ensures Count(Transition(props), ',') == |props| - 1
  {
    var texts := EntryTexts(props);
    forall i | 0 <= i < |texts|
      ensures ',' !in texts[i]
    {
      EntryTextCommaFree(props[i]);
    }
    SplitJoin(texts, ',');
    JoinCount(texts, ',');
  }
}
