/** Trimming, and the `#rrggbb` text form of a 24-bit colour. */
module HexColor {
  import opened Common

  const COLORS: nat := 0x100_0000

  // ----- trimming

  /** A character Unicode calls white space. */
  predicate IsSpace(c: char) {
    var n := c as int;
    0x9 <= n <= 0xD || n in {0x20, 0x85, 0xA0, 0x1680, 0x2028, 0x2029, 0x202F, 0x205F, 0x3000} || 0x2000 <= n <= 0x200A
  }

  /** The 25 characters of white space, one by one. */
  lemma SpacesAre(c: char)
    ensures IsSpace(c) <==>
            c as int in {0x9, 0xA, 0xB, 0xC, 0xD, 0x20, 0x85, 0xA0, 0x1680,
                         0x2000, 0x2001, 0x2002, 0x2003, 0x2004, 0x2005, 0x2006, 0x2007, 0x2008, 0x2009, 0x200A,
                         0x2028, 0x2029, 0x202F, 0x205F, 0x3000}
  {
  }

  function TrimStart(s: string): string {
    if s != [] && IsSpace(s[0]) then TrimStart(s[1..]) else s
  }

  function TrimEnd(s: string): string {
    if s != [] && IsSpace(s[|s| - 1]) then TrimEnd(s[..|s| - 1]) else s
  }

  function Trim(s: string): string {
    TrimEnd(TrimStart(s))
  }

  /** Neither end of `s` is white space. */
  predicate IsTrimmed(s: string) {
    s == [] || (!IsSpace(s[0]) && !IsSpace(s[|s| - 1]))
  }

  lemma TrimStartTrims(s: string)
    ensures TrimStart(s) == [] || !IsSpace(TrimStart(s)[0])
  {
  }

  lemma TrimEndTrims(s: string)
    ensures var t := TrimEnd(s); t <= s && (t == [] || !IsSpace(t[|t| - 1]))
  {
  }

  /** A trimmed text has no space at either end, and trimming leaves such a text alone. */
  lemma TrimTrims(s: string)
    ensures IsTrimmed(Trim(s)) && Trim(Trim(s)) == Trim(s)
    ensures IsTrimmed(s) ==> Trim(s) == s
  {
    TrimStartTrims(s);
    TrimEndTrims(TrimStart(s));
  }

  ghost predicate AllSpace(s: string) { forall i | 0 <= i < |s| :: IsSpace(s[i]) }

  lemma {:induction false} TrimStartSplits(s: string) returns (before: string)
    ensures AllSpace(before) && s == before + TrimStart(s)
  {
    if s == [] || !IsSpace(s[0]) {
      before := [];
    } else {
      var rest := TrimStartSplits(s[1..]);
      before := [s[0]] + rest;
    }
  }

  lemma {:induction false} TrimEndSplits(s: string) returns (after: string)
    ensures AllSpace(after) && s == TrimEnd(s) + after
  {
    if s == [] || !IsSpace(s[|s| - 1]) {
      after := [];
    } else {
      var rest := TrimEndSplits(s[..|s| - 1]);
      after := rest + [s[|s| - 1]];
    }
  }

  /** Trimming takes off space at the ends and nothing else. */
  lemma {:induction false} TrimSplits(s: string) returns (before: string, after: string)
    ensures AllSpace(before) && AllSpace(after) && s == before + Trim(s) + after
  {
    before := TrimStartSplits(s);
    after := TrimEndSplits(TrimStart(s));
  }

  /** Only a text of nothing but space trims to nothing. */
  lemma {:induction false} BlankIff(s: string)
    ensures Trim(s) == [] <==> AllSpace(s)
  {
    var before, after := TrimSplits(s);
    TrimTrims(s);
    if Trim(s) != [] {
      assert s[|before|] == Trim(s)[0];
    }
  }

  // ----- digits

  predicate IsHexDigit(c: char) { '0' <= c <= '9' || 'a' <= c <= 'f' || 'A' <= c <= 'F' }

  function DigitValue(c: char): (d: nat)
    requires IsHexDigit(c)
    ensures d < 16
  {
    if c <= '9' then c as int - '0' as int
    else if c <= 'F' then c as int - 'A' as int + 10
    else c as int - 'a' as int + 10
  }

  function HexDigit(d: nat): (c: char)
    requires d < 16
    ensures IsHexDigit(c) && DigitValue(c) == d && LowerDigit(c) == c
  {
    if d < 10 then '0' + d as char else 'a' + (d - 10) as char
  }

  /** The digit in lower case. */
  function LowerDigit(c: char): char {
    if 'A' <= c <= 'F' then c - 'A' + 'a' else c
  }

  predicate AllHex(s: string) { forall c | c in s :: IsHexDigit(c) }

  function FromHex(s: string): nat
    requires AllHex(s)
  {
    if s == [] then 0 else 16 * FromHex(s[..|s| - 1]) + DigitValue(s[|s| - 1])
  }

  /** The low `k` hex digits of `n`, lower case. */
  function ToHex(n: nat, k: nat): (s: string)
    ensures |s| == k && AllHex(s)
  {
    if k == 0 then [] else ToHex(n / 16, k - 1) + [HexDigit(n % 16)]
  }

  function Lower(s: string): string {
    seq(|s|, i requires 0 <= i < |s| => LowerDigit(s[i]))
  }

  function Pow16(k: nat): (p: nat)
    ensures p > 0
  {
    if k == 0 then 1 else 16 * Pow16(k - 1)
  }

  lemma {:induction false} FromToHex(n: nat, k: nat)
    requires n < Pow16(k)
    ensures FromHex(ToHex(n, k)) == n
  {
    if k == 0 {
    } else {
      var s := ToHex(n, k);
      var high, low := n / 16, n % 16;
      assert n == 16 * high + low && high < Pow16(k - 1);
      FromToHex(high, k - 1);
      assert s[..k - 1] == ToHex(high, k - 1) && s[k - 1] == HexDigit(low);
    }
  }

  lemma {:induction false} ToFromHex(s: string)
    requires AllHex(s)
    ensures FromHex(s) < Pow16(|s|) && ToHex(FromHex(s), |s|) == Lower(s)
  {
    if s != [] {
      var init, last := s[..|s| - 1], s[|s| - 1];
      ToFromHex(init);
      assert FromHex(s) / 16 == FromHex(init) && FromHex(s) % 16 == DigitValue(last);
      assert HexDigit(DigitValue(last)) == LowerDigit(last);
      assert Lower(s) == Lower(init) + [LowerDigit(last)];
    } else {
      assert Lower(s) == [];
    }
  }

  lemma SixDigits()
    ensures Pow16(6) == COLORS
  {
    assert Pow16(0) == 1 && Pow16(1) == 16 && Pow16(2) == 0x100 && Pow16(3) == 0x1000;
    assert Pow16(4) == 0x1_0000 && Pow16(5) == 0x10_0000;
  }

  // ----- colours

  predicate IsSixHex(s: string) { |s| == 6 && AllHex(s) }

  function ParseColor(raw: string): Option<nat> {
    var trimmed := Trim(raw);
    if trimmed == [] || trimmed[0] != '#' then None
    else if !IsSixHex(trimmed[1..]) then None
    else Some(FromHex(trimmed[1..]))
  }

  function Hex(color: nat): string {
    "#" + ToHex(color % COLORS, 6)
  }

  /** The trimmed text without its leading `#`, if it has one. */
  function TypedDigits(raw: string): string {
    var trimmed := Trim(raw);
    if trimmed != [] && trimmed[0] == '#' then trimmed[1..] else trimmed
  }

  function ParseHexInput(raw: string): Option<string> {
    var color := ParseColor("#" + TypedDigits(raw));
    if color.None? then None else Some(Hex(color.value))
  }

  lemma HashedIsTrimmed(digits: string)
    requires IsSixHex(digits)
    ensures Trim("#" + digits) == "#" + digits
  {
    var s := "#" + digits;
    assert s[0] == '#' && s[6] == digits[5] && digits[5] in digits;
    TrimTrims(s);
  }

  lemma DigitsRoundTrip(n: nat, k: nat)
    requires k == 6 && n < COLORS
    ensures FromHex(ToHex(n, k)) == n
  {
    SixDigits();
    FromToHex(n, k);
  }

  lemma DigitsBound(s: string, k: nat)
    requires k == 6 && |s| == k && AllHex(s)
    ensures FromHex(s) < COLORS && ToHex(FromHex(s), k) == Lower(s)
  {
    SixDigits();
    ToFromHex(s);
  }

  lemma HashedParses(digits: string)
    requires IsSixHex(digits)
    ensures ParseColor("#" + digits) == Some(FromHex(digits))
  {
    HashedIsTrimmed(digits);
    assert ("#" + digits)[1..] == digits;
  }

  /** Printing then parsing keeps the low 24 bits. */
  lemma HexRoundTrip(color: nat)
    ensures ParseColor(Hex(color)) == Some(color % COLORS)
  {
    var n := color % COLORS;
    DigitsRoundTrip(n, 6);
    HashedParses(ToHex(n, 6));
  }

  /** A parsed colour fits 24 bits and prints as its digits in lower case. */
  lemma {:induction false} ParseThenHex(raw: string)
    requires ParseColor(raw).Some?
    ensures ParseColor(raw).value < COLORS
    ensures Hex(ParseColor(raw).value) == "#" + Lower(Trim(raw)[1..])
  {
    var n := ParseColor(raw).value;
    DigitsBound(Trim(raw)[1..], 6);
    assert n % COLORS == n;
  }

  lemma TypedIsTrimmed(raw: string)
    ensures var s := TypedDigits(raw); s == [] || !IsSpace(s[|s| - 1])
  {
    TrimTrims(raw);
  }

  /** A typed text is taken exactly when, less an optional `#`, it is six hex digits. */
  lemma HexInputAccepts(raw: string)
    ensures ParseHexInput(raw).Some? <==> IsSixHex(TypedDigits(raw))
    ensures ParseHexInput(raw).Some? ==> ParseHexInput(raw).value == "#" + Lower(TypedDigits(raw))
  {
    var digits := TypedDigits(raw);
    var s := "#" + digits;
    TypedIsTrimmed(raw);
    assert IsTrimmed(s);
    TrimTrims(s);
    assert s[1..] == digits;
    if IsSixHex(digits) {
      ParseThenHex(s);
    }
  }

  lemma LowerIsStable(s: string)
    requires IsSixHex(s)
    ensures IsSixHex(Lower(s)) && Lower(Lower(s)) == Lower(s)
  {
    forall i | 0 <= i < |s| ensures IsHexDigit(Lower(s)[i]) && LowerDigit(Lower(s)[i]) == Lower(s)[i] {
      assert s[i] in s;
    }
  }

  lemma LowerKeepsColor(digits: string)
    requires IsSixHex(digits)
    ensures IsSixHex(Lower(digits)) && FromHex(Lower(digits)) == FromHex(digits)
  {
    LowerIsStable(digits);
    DigitsBound(digits, 6);
    DigitsRoundTrip(FromHex(digits), 6);
  }

  lemma HashedTypes(digits: string)
    requires IsSixHex(digits)
    ensures TypedDigits("#" + digits) == digits
  {
    HashedIsTrimmed(digits);
    assert ("#" + digits)[1..] == digits;
  }

  /** A text that already is a colour is read as that colour's digits. */
  lemma TypedColor(raw: string)
    requires ParseColor(raw).Some?
    ensures IsSixHex(TypedDigits(raw)) && ParseColor(raw) == ParseColor("#" + TypedDigits(raw))
  {
    HashedParses(TypedDigits(raw));
  }

  /** What a field stores is a fixed point that parses to the colour typed. */
  lemma HexInputIsCanonical(raw: string)
    requires ParseHexInput(raw).Some?
    ensures var stored := ParseHexInput(raw).value;
            && ParseHexInput(stored) == Some(stored)
            && ParseColor(stored) == ParseColor("#" + TypedDigits(raw))
            && (ParseColor(raw).Some? ==> ParseColor(stored) == ParseColor(raw))
  {
    HexInputAccepts(raw);
    var digits := TypedDigits(raw);
    var lower := Lower(digits);
    var stored := "#" + lower;
    LowerIsStable(digits);
    LowerKeepsColor(digits);
    HashedTypes(lower);
    HexInputAccepts(stored);
    HashedParses(lower);
    HashedParses(digits);
    if ParseColor(raw).Some? {
      TypedColor(raw);
    }
  }

  lemma HexSeparates(x: nat, y: nat)
    requires x < COLORS && y < COLORS && Hex(x) == Hex(y)
    ensures x == y
  {
    HexRoundTrip(x);
    HexRoundTrip(y);
  }

  /** Two texts store the same exactly when they name the same colour. */
  lemma HexInputSeparates(a: string, b: string)
    requires ParseHexInput(a).Some? && ParseHexInput(b).Some?
    ensures ParseHexInput(a) == ParseHexInput(b) <==>
            ParseColor("#" + TypedDigits(a)) == ParseColor("#" + TypedDigits(b))
  {
    var x, y := ParseColor("#" + TypedDigits(a)).value, ParseColor("#" + TypedDigits(b)).value;
    ParseThenHex("#" + TypedDigits(a));
    ParseThenHex("#" + TypedDigits(b));
    if Hex(x) == Hex(y) {
      HexSeparates(x, y);
    }
  }
}
