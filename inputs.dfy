/**
 * Model of src/napari_deeplabcut/_inputs.py: the integer test behind the
 * text fields' validator, and the adjustable range slider, which keeps a
 * current range (`limits`) and outer bounds (`absolutes`) as two intervals
 * it owns and updates in place, plus the two text fields that show the
 * range's ends. The QSlider itself is not modelled.
 */
module Inputs {
  import opened Wrappers
  import opened Misc

  // ---------------------------------------------------------------------
  // Integer text: `_is_int`, `int(text)` and `str(n)`
  // ---------------------------------------------------------------------

  /** ASCII decimal digits (`str.isdigit` restricted to ASCII). */
  predicate IsDigit(c: char) {
    '0' <= c <= '9'
  }

  /** `str.isdigit`: non-empty and made of digits only. */
  predicate IsDigits(s: string) {
    |s| > 0 && forall i :: 0 <= i < |s| ==> IsDigit(s[i])
  }

  /**
   * `_is_int`: one optional leading sign, then digits. Read character by
   * character: the first is a digit, or a sign followed by something; all
   * the others are digits.
   */
  predicate IsInt(s: string): (b: bool)
    ensures b <==>
              && |s| > 0
              && (IsDigit(s[0]) || ((s[0] == '+' || s[0] == '-') && |s| > 1))
              && forall i :: 1 <= i < |s| ==> IsDigit(s[i])
  {
    if |s| > 0 && (s[0] == '+' || s[0] == '-') then IsDigits(s[1..]) else IsDigits(s)
  }

  /** `_is_int` accepts exactly an optional single sign followed by one or more digits. */
  lemma IsIntIffSignedDigits(s: string)
    ensures IsInt(s) <==>
              exists sign: string, ds: string ::
                (sign == "" || sign == "+" || sign == "-") && IsDigits(ds) && s == sign + ds
  {
    if IsInt(s) {
      if s[0] == '+' || s[0] == '-' {
        assert s == [s[0]] + s[1..];
      } else {
        assert s == "" + s;
      }
    }
    forall sign: string, ds: string |
      (sign == "" || sign == "+" || sign == "-") && IsDigits(ds) && s == sign + ds
      ensures IsInt(s)
    {
      if sign != "" {
        assert s[1..] == ds;
      } else {
        assert s == ds && IsDigit(s[0]);
      }
    }
  }

  /** The value of a run of decimal digits. */
  function DigitsValue(s: string): nat
    requires forall i :: 0 <= i < |s| ==> IsDigit(s[i])
  {
    if s == [] then 0
    else
      assert IsDigit(s[|s| - 1]);
      10 * DigitsValue(s[..|s| - 1]) + (s[|s| - 1] as int - '0' as int)
  }

  /** `int(text)` for text that `_is_int` accepts. */
  function ParseInt(s: string): int
    requires IsInt(s)
  {
    if s[0] == '-' then -(DigitsValue(s[1..]) as int)
    else if s[0] == '+' then DigitsValue(s[1..])
    else DigitsValue(s)
  }

  /** The decimal digits of `n`, most significant first, with no leading zero. */
  function NatDigits(n: nat): (s: string)
    ensures IsDigits(s)
    ensures |s| > 1 ==> s[0] != '0'
  {
    if n < 10 then [('0' as int + n) as char]
    else NatDigits(n / 10) + [('0' as int + n % 10) as char]
  }

  /** `str(n)`: a minus sign for negative numbers, never a plus sign. */
  function IntToString(n: int): string {
    if n < 0 then "-" + NatDigits(-n) else NatDigits(n)
  }

  lemma {:induction false} NatDigitsValue(n: nat)
    ensures DigitsValue(NatDigits(n)) == n
  {
    if n >= 10 {
      var s := NatDigits(n);
      NatDigitsValue(n / 10);
      assert s[..|s| - 1] == NatDigits(n / 10);
    }
  }

  /** What `str` writes into a field, `_is_int` accepts and `int` reads back unchanged. */
  lemma IntToStringRoundTrip(n: int)
    ensures IsInt(IntToString(n))
    ensures ParseInt(IntToString(n)) == n
  {
    var s := IntToString(n);
    if n < 0 {
      NatDigitsValue(-n);
      assert s[1..] == NatDigits(-n);
    } else {
      NatDigitsValue(n);
    }
  }

  // ---------------------------------------------------------------------
  // PyIntValidator
  // ---------------------------------------------------------------------

  /** The three answers of a Qt validator. */
  datatype ValidatorState = Invalid | Intermediate | Acceptable

  /**
   * `PyIntValidator.validate`: the empty text and a lone sign are still
   * being typed, a signed integer is acceptable, anything else is refused.
   * The text and cursor position are handed back unchanged.
   */
  function Validate(input: string, pos: int): (r: (ValidatorState, string, int))
    ensures r.1 == input && r.2 == pos
    ensures r.0 == Intermediate <==> input == "" || input == "+" || input == "-"
    ensures r.0 == Acceptable <==> IsInt(input)
  {
    var state :=
      if input == "" || input == "+" || input == "-" then Intermediate
      else if IsInt(input) then Acceptable
      else Invalid;
    (state, input, pos)
  }

  /** Whatever the slider writes into a field passes the validator. */
  lemma ValidateAcceptsWrittenBounds(n: int, pos: int)
    ensures Validate(IntToString(n), pos).0 == Acceptable
  {
    IntToStringRoundTrip(n);
  }

  // ---------------------------------------------------------------------
  // AdjustableRangeSlider
  // ---------------------------------------------------------------------

  class AdjustableRangeSlider {
    /** `_limits`: the slider's current range. */
    const limits: InclusiveInterval
    /** `_absolute_limits`: the bounds the range may be edited within. */
    const absolutes: InclusiveInterval
    /** The texts of `range_min_line_edit` and `range_max_line_edit`. */
    var minText: string
    var maxText: string

    ghost predicate Valid()
      reads this, limits, absolutes
    {
      limits != absolutes && limits.Valid() && absolutes.Valid()
    }

    /** The two fields show the range's ends. */
    predicate FieldsShowRange()
      reads this, limits
    {
      minText == IntToString(limits.min) && maxText == IntToString(limits.max)
    }

    /** The current range lies within the bounds. */
    predicate RangeInsideBounds()
      reads limits, absolutes
    {
      absolutes.Value().Covers(limits.Value())
    }

    constructor ()
      ensures Valid() && fresh(limits) && fresh(absolutes)
      ensures limits.Value() == Bounds(0, 0) && absolutes.Value() == Bounds(0, 0)
      ensures minText == "0" && maxText == "0"
      ensures FieldsShowRange() && RangeInsideBounds()
    {
      limits := new InclusiveInterval.Zero();
      absolutes := new InclusiveInterval.Zero();
      minText := "0";
      maxText := "0";
    }

    /**
     * The min field was committed: a value above the current max or
     * outside the bounds is refused and the field reverts to the current
     * min; otherwise only the range's min changes.
     */
    method MinEdited() returns (r: Outcome)
      requires Valid()
      modifies this, limits
      ensures Valid() && maxText == old(maxText)
      ensures !IsInt(old(minText)) ==>
                r == Fail(ValueError) && limits.Value() == old(limits.Value()) && minText == old(minText)
      ensures IsInt(old(minText)) ==> r == Pass
      ensures IsInt(old(minText)) ==>
                var v := ParseInt(old(minText));
                if v > old(limits.max) || !absolutes.Contains(v) then
                  limits.Value() == old(limits.Value()) && minText == IntToString(limits.min)
                else
                  limits.Value() == Bounds(v, old(limits.max)) && minText == old(minText)
      ensures old(RangeInsideBounds()) ==> RangeInsideBounds()
    {
      if !IsInt(minText) {
        return Fail(ValueError);
      }
      var newMin := ParseInt(minText);
      if newMin > limits.max || !absolutes.Contains(newMin) {
        minText := IntToString(limits.min);
        return Pass;
      }
      var o := limits.SetMin(newMin);
      return Pass;
    }

    /**
     * The max field was committed: a value below the current min or
     * outside the bounds is refused and the field reverts to the current
     * max; otherwise only the range's max changes.
     */
    method MaxEdited() returns (r: Outcome)
      requires Valid()
      modifies this, limits
      ensures Valid() && minText == old(minText)
      ensures !IsInt(old(maxText)) ==>
                r == Fail(ValueError) && limits.Value() == old(limits.Value()) && maxText == old(maxText)
      ensures IsInt(old(maxText)) ==> r == Pass
      ensures IsInt(old(maxText)) ==>
                var v := ParseInt(old(maxText));
                if v < old(limits.min) || !absolutes.Contains(v) then
                  limits.Value() == old(limits.Value()) && maxText == IntToString(limits.max)
                else
                  limits.Value() == Bounds(old(limits.min), v) && maxText == old(maxText)
      ensures old(RangeInsideBounds()) ==> RangeInsideBounds()
    {
      if !IsInt(maxText) {
        return Fail(ValueError);
      }
      var newMax := ParseInt(maxText);
      if newMax < limits.min || !absolutes.Contains(newMax) {
        maxText := IntToString(limits.max);
        return Pass;
      }
      var o := limits.SetMax(newMax);
      return Pass;
    }

    /** Writes the range's ends into the two fields, where they read back as the range. */
    method UpdateWidgets()
      modifies this
      ensures FieldsShowRange()
      ensures IsInt(minText) && ParseInt(minText) == limits.min
      ensures IsInt(maxText) && ParseInt(maxText) == limits.max
    {
      minText := IntToString(limits.min);
      maxText := IntToString(limits.max);
      IntToStringRoundTrip(limits.min);
      IntToStringRoundTrip(limits.max);
    }

    /** The `limits` property: a detached copy of the range. */
    method GetLimits() returns (c: InclusiveInterval)
      requires Valid()
      ensures fresh(c) && c.Valid() && c.Value() == limits.Value()
    {
      c := limits.Copy();
    }

    /** The `absolutes` property: a detached copy of the bounds. */
    method GetAbsolutes() returns (c: InclusiveInterval)
      requires Valid()
      ensures fresh(c) && c.Valid() && c.Value() == absolutes.Value()
    {
      c := absolutes.Copy();
    }

    /**
     * `set_limits`: with `stretch` the range is set and the bounds widen
     * to cover it; without, the new range must lie within the bounds or
     * ValueError is raised and nothing changes.
     */
    method SetLimits(lo: int, hi: int, stretch: bool) returns (r: Outcome)
      requires Valid()
      modifies this, limits, absolutes
      ensures Valid()
      ensures lo > hi ==>
                && r == Fail(ValueError)
                && limits.Value() == old(limits.Value()) && absolutes.Value() == old(absolutes.Value())
                && minText == old(minText) && maxText == old(maxText)
      ensures lo <= hi && stretch ==>
                && r == Pass
                && limits.Value() == Bounds(lo, hi)
                && absolutes.Value() == Hull(old(absolutes.Value()), Bounds(lo, hi))
                && FieldsShowRange()
      ensures lo <= hi && !stretch && old(absolutes.Value()).Covers(Bounds(lo, hi)) ==>
                && r == Pass
                && limits.Value() == Bounds(lo, hi) && absolutes.Value() == old(absolutes.Value())
                && FieldsShowRange()
      ensures lo <= hi && !stretch && !old(absolutes.Value()).Covers(Bounds(lo, hi)) ==>
                && r == Fail(ValueError)
                && limits.Value() == old(limits.Value()) && absolutes.Value() == old(absolutes.Value())
                && minText == old(minText) && maxText == old(maxText)
      ensures r == Pass ==> RangeInsideBounds()
    {
      if stretch {
        var o := limits.Set(lo, hi);
        if o.Fail? {
          return o;
        }
        absolutes.Normalize(limits);
      } else {
        var candidate := InclusiveInterval.New(lo, hi);
        if candidate.Failure? {
          return Fail(candidate.error);
        }
        if absolutes.ContainsInterval(candidate.value) {
          var o := limits.Set(lo, hi);
        } else {
          return Fail(ValueError);
        }
      }
      UpdateWidgets();
      return Pass;
    }

    /**
     * `set_absolutes`: replaces the bounds and widens the range to the hull
     * of itself and the new bounds. The range is never narrowed, so a range
     * that reached outside the new bounds still does afterwards.
     */
    method SetAbsolutes(lo: int, hi: int) returns (r: Outcome)
      requires Valid()
      modifies this, limits, absolutes
      ensures Valid()
      ensures lo > hi ==>
                && r == Fail(ValueError)
                && limits.Value() == old(limits.Value()) && absolutes.Value() == old(absolutes.Value())
                && minText == old(minText) && maxText == old(maxText)
      ensures lo <= hi ==>
                && r == Pass
                && absolutes.Value() == Bounds(lo, hi)
                && limits.Value() == Hull(old(limits.Value()), Bounds(lo, hi))
                && FieldsShowRange()
    {
      var o := absolutes.Set(lo, hi);
      if o.Fail? {
        return o;
      }
      limits.Normalize(absolutes);
      UpdateWidgets();
      return Pass;
    }
  }

  /**
   * Bounds [0, 99] and range [10, 20]: committing "15" to the min field
   * gives [15, 20]; committing "25" then is refused and the field shows
   * "15" again.
   */
  method MinFieldScenario() {
    var s := new AdjustableRangeSlider();
    var r := s.SetAbsolutes(0, 99);
    r := s.SetLimits(10, 20, false);
    s.minText := "15";
    IntToStringRoundTrip(15);
    assert IntToString(15) == "15";
    r := s.MinEdited();
    assert s.limits.Value() == Bounds(15, 20);
    s.minText := "25";
    IntToStringRoundTrip(25);
    assert IntToString(25) == "25";
    r := s.MinEdited();
    assert s.limits.Value() == Bounds(15, 20);
    assert s.minText == IntToString(15);
  }

  /**
   * Range [60, 70] inside bounds [0, 99]; new bounds [0, 50] widen the
   * range to [0, 70], which does not lie within them.
   */
  method SetAbsolutesScenario() {
    var s := new AdjustableRangeSlider();
    var r := s.SetAbsolutes(0, 99);
    r := s.SetLimits(60, 70, false);
    r := s.SetAbsolutes(0, 50);
    assert s.limits.Value() == Bounds(0, 70);
    assert !s.RangeInsideBounds();
  }
}
