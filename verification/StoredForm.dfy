/**
 Appearance overrides as they are stored: what is kept of each field, what is
 refused, and which overrides are in stored form already.
 */
module StoredForm {
  import opened Common
  import opened HexColor
  import opened Appearance

  /** A colour as it is stored: lower case `#rrggbb`, blank unset; the outer `None` refuses it. */
  function NormalColor(color: Option<string>): Option<Option<string>> {
    if color.None? then Some(None)
    else
      var trimmed := Trim(color.value);
      if trimmed == [] then Some(None)
      else if trimmed[0] == '#' && IsSixHex(trimmed[1..]) then Some(Some("#" + Lower(trimmed[1..])))
      else None
  }

  function NormalFamily(family: Option<string>): Option<string> {
    if family.None? || Trim(family.value) == [] then None else Some(Trim(family.value))
  }

  predicate SizeAllowed(size: Option<nat>) { size.Some? ==> 8 <= size.value <= 32 }
  predicate WidthAllowed(width: Option<nat>) { width.Some? ==> width.value <= 6 }

  function NormalWeight(weight: Option<nat>): Option<nat> {
    if weight.Some? && weight.value in {400, 500, 600, 700} then weight else None
  }

  /** The overrides as they are stored; `None` refuses them. */
  function Normalized(o: Overrides): Option<Overrides> {
    var accent, background, frame := NormalColor(o.accent), NormalColor(o.background), NormalColor(o.frame);
    if accent.None? || background.None? || frame.None? || !SizeAllowed(o.size) || !WidthAllowed(o.frameWidth) then None
    else
      Some(Overrides(accent.value, background.value, frame.value, NormalFamily(o.family),
                     o.size, o.bold, NormalWeight(o.weight), o.frameWidth))
  }

  /** Already in stored form. */
  predicate IsNormal(o: Overrides) { Normalized(o) == Some(o) }

  lemma NormalColorIsStable(color: Option<string>)
    requires NormalColor(color).Some?
    ensures NormalColor(NormalColor(color).value) == NormalColor(color)
  {
    var stored := NormalColor(color).value;
    if stored.Some? {
      var digits := Trim(color.value)[1..];
      LowerIsStable(digits);
      HashedIsTrimmed(Lower(digits));
      assert stored.value[1..] == Lower(digits);
    }
  }

  /** What is stored is already in stored form, so storing it again changes nothing. */
  lemma NormalizedIsNormal(o: Overrides)
    requires Normalized(o).Some?
    ensures IsNormal(Normalized(o).value)
  {
    NormalColorIsStable(o.accent);
    NormalColorIsStable(o.background);
    NormalColorIsStable(o.frame);
    if o.family.Some? {
      TrimTrims(o.family.value);
    }
  }

  /** Storing a field copied from a stored form is copying it into the stored form. */
  lemma NormalizedCopied(f: Field, from: Overrides, to: Overrides)
    requires IsNormal(from) && Normalized(to).Some?
    ensures Normalized(Copied(f, from, to)) == Some(Copied(f, from, Normalized(to).value))
  {
  }

  /** Storing commutes with laying a change in stored form. */
  lemma {:induction false} NormalizedApplied(fields: seq<Field>, from: Overrides, to: Overrides)
    requires IsNormal(from) && Normalized(to).Some?
    ensures Normalized(CopiedAll(fields, from, to)) == Some(CopiedAll(fields, from, Normalized(to).value))
  {
    if fields == [] {
    } else {
      var init, last := fields[..|fields| - 1], fields[|fields| - 1];
      NormalizedApplied(init, from, to);
      NormalizedCopied(last, from, CopiedAll(init, from, to));
    }
  }

  // ----- what a stored form is

  predicate IsLowerHex(c: char) { '0' <= c <= '9' || 'a' <= c <= 'f' }

  /** Unset, or `#` and six lower-case hex digits. */
  ghost predicate CanonicalColor(color: Option<string>) {
    color.Some? ==>
      && |color.value| == 7 && color.value[0] == '#'
      && forall i | 1 <= i < 7 :: IsLowerHex(color.value[i])
  }

  ghost predicate CanonicalFamily(family: Option<string>) {
    family.Some? ==> family.value != [] && IsTrimmed(family.value)
  }

  /** Every field unset or within what its kind allows, in its one spelling. */
  ghost predicate Canonical(o: Overrides) {
    && CanonicalColor(o.accent) && CanonicalColor(o.background) && CanonicalColor(o.frame)
    && CanonicalFamily(o.family)
    && (o.size.Some? ==> 8 <= o.size.value <= 32)
    && (o.weight.Some? ==> 400 <= o.weight.value <= 700 && o.weight.value % 100 == 0)
    && (o.frameWidth.Some? ==> o.frameWidth.value <= 6)
  }

  lemma LowerStays(s: string)
    ensures Lower(s) == s <==> forall i | 0 <= i < |s| :: !('A' <= s[i] <= 'F')
  {
    assert forall i | 0 <= i < |s| :: Lower(s)[i] == LowerDigit(s[i]);
    if Lower(s) == s {
      forall i | 0 <= i < |s| ensures !('A' <= s[i] <= 'F') {
        assert LowerDigit(s[i]) == s[i];
      }
    }
  }

  lemma {:induction false} ColorIsNormalIff(color: Option<string>)
    ensures NormalColor(color) == Some(color) <==> CanonicalColor(color)
  {
    if color.Some? {
      var s := color.value;
      if CanonicalColor(color) {
        var digits := s[1..];
        forall c | c in digits ensures IsHexDigit(c) {
          var i :| 0 <= i < |digits| && digits[i] == c;
          assert IsLowerHex(s[i + 1]);
        }
        assert s == "#" + digits && IsSixHex(digits);
        HashedIsTrimmed(digits);
        forall i | 0 <= i < |digits| ensures !('A' <= digits[i] <= 'F') {
          assert IsLowerHex(s[i + 1]);
        }
        LowerStays(digits);
      } else if NormalColor(color) == Some(color) {
        var digits := Trim(s)[1..];
        LowerIsStable(digits);
        LowerStays(Lower(digits));
        assert s == "#" + Lower(digits);
        forall i | 1 <= i < 7 ensures IsLowerHex(s[i]) {
          assert s[i] == Lower(digits)[i - 1] && s[i] in Lower(digits);
        }
        assert false;
      }
    }
  }

  lemma {:induction false} FamilyIsNormalIff(family: Option<string>)
    ensures NormalFamily(family) == family <==> CanonicalFamily(family)
  {
    if family.Some? {
      TrimTrims(family.value);
    }
  }

  /** Overrides are in stored form exactly when every field is in its one spelling and within its range. */
  lemma {:induction false} IsNormalIff(o: Overrides)
    ensures IsNormal(o) <==> Canonical(o)
  {
    ColorIsNormalIff(o.accent);
    ColorIsNormalIff(o.background);
    ColorIsNormalIff(o.frame);
    FamilyIsNormalIff(o.family);
  }

  // ----- what storing keeps

  predicate Blank(s: string) { Trim(s) == [] }

  /** `stored` is the colour `raw` names, unset for an unset or blank one. */
  ghost predicate KeepsColor(raw: Option<string>, stored: Option<string>) {
    if raw.None? || Blank(raw.value) then stored.None?
    else stored.Some? && ParseColor(raw.value).Some? && ParseColor(stored.value) == ParseColor(raw.value)
  }

  /** `stored` is the family `raw` without the space around it, unset for an unset or blank one. */
  ghost predicate KeepsFamily(raw: Option<string>, stored: Option<string>) {
    if raw.None? || AllSpace(raw.value) then stored.None?
    else stored.Some? && exists before, after ::
           AllSpace(before) && AllSpace(after) && raw.value == before + stored.value + after
  }

  lemma {:induction false} ColorIsKept(color: Option<string>)
    requires NormalColor(color).Some?
    ensures KeepsColor(color, NormalColor(color).value)
  {
    if color.Some? && !Blank(color.value) {
      var digits := Trim(color.value)[1..];
      LowerIsStable(digits);
      HashedParses(Lower(digits));
      LowerKeepsColor(digits);
    }
  }

  lemma {:induction false} FamilyIsKept(family: Option<string>)
    ensures KeepsFamily(family, NormalFamily(family))
  {
    if family.Some? {
      var before, after := TrimSplits(family.value);
      BlankIff(family.value);
    }
  }

  /** A colour is refused exactly when it is neither blank nor `#` and six hex digits. */
  predicate ColorRefused(color: Option<string>) {
    color.Some? && !Blank(color.value) && ParseColor(color.value).None?
  }

  /** Storing is refused exactly for a colour that is none, or a size or width out of range. */
  lemma {:induction false} RefusedIff(o: Overrides)
    ensures Normalized(o).None? <==>
            || ColorRefused(o.accent) || ColorRefused(o.background) || ColorRefused(o.frame)
            || (o.size.Some? && !(8 <= o.size.value <= 32))
            || (o.frameWidth.Some? && o.frameWidth.value > 6)
  {
  }

  /** What is stored is what was set, less the spelling: colours by value, the family without space, the rest as is. */
  lemma {:induction false} StoringKeeps(o: Overrides)
    requires Normalized(o).Some?
    ensures var n := Normalized(o).value;
            && Canonical(n)
            && KeepsColor(o.accent, n.accent) && KeepsColor(o.background, n.background) && KeepsColor(o.frame, n.frame)
            && KeepsFamily(o.family, n.family)
            && n.size == o.size && n.bold == o.bold && n.frameWidth == o.frameWidth
            && n.weight == (if o.weight.Some? && o.weight.value in {400, 500, 600, 700} then o.weight else None)
  {
    NormalizedIsNormal(o);
    IsNormalIff(Normalized(o).value);
    ColorIsKept(o.accent);
    ColorIsKept(o.background);
    ColorIsKept(o.frame);
    FamilyIsKept(o.family);
  }
}
