/** The date-time text input of the frontend: a mask that turns whatever is
    typed into `dd/mm/yyyy HH:mm`, and the conversion of a complete entry to
    the `yyyy-mm-ddTHH:mm` value the form receives. Conversion in the other
    direction goes through `Date` and is a parameter here. */
module DateTimeInput {
  import opened Util

  /** At most this many digits are kept */
  const MaxDigits := 12
  /** Length of a complete display value */
  const DisplayLength := 16

  /** The characters inserted before the digit at position `i` */
  function Separator(i: nat): string {
    if i == 2 || i == 4 then "/" else if i == 8 then " " else if i == 10 then ":" else ""
  }

  /** The display text of a run of at most twelve digits */
  function Layout(ds: string): string
    requires |ds| <= MaxDigits
  {
    if ds == [] then [] else Layout(ds[..|ds| - 1]) + Separator(|ds| - 1) + [ds[|ds| - 1]]
  }

  /** `value.replace(/[^\d]/g, '')`: the decimal digits, in order */
  function Digits(value: string): string {
    Filter(value, IsDigit)
  }

  /** What `applyMask(value)` returns */
  function Masked(value: string): string {
    var cleaned := Digits(value);
    Layout(cleaned[..Min(|cleaned|, MaxDigits)])
  }

  /** `applyMask(value)`: keeps the digits, at most twelve, inserting '/'
      before the third and fifth, ' ' before the ninth and ':' before the
      eleventh. */
  method ApplyMask(value: string) returns (result: string)
    ensures result == Masked(value)
  {
    var cleaned := Digits(value);
    ghost var kept := cleaned[..Min(|cleaned|, MaxDigits)];
    result := "";
    var i := 0;
    while i < |cleaned| && i < MaxDigits
      invariant 0 <= i <= Min(|cleaned|, MaxDigits)
      invariant result == Layout(cleaned[..i])
    {
      LayoutStep(cleaned, i);
      ghost var before := result;
      if i == 2 || i == 4 {
        result := result + "/";
      }
      if i == 8 {
        result := result + " ";
      }
      if i == 10 {
        result := result + ":";
      }
      assert result == before + Separator(i);
      result := result + [cleaned[i]];
      i := i + 1;
    }
    assert i == Min(|cleaned|, MaxDigits);
    assert cleaned[..i] == kept;
  }

  /** One more digit adds its separator and itself. */
  lemma LayoutStep(ds: string, i: nat)
    requires i < |ds| && i < MaxDigits
    ensures Layout(ds[..i + 1]) == Layout(ds[..i]) + Separator(i) + [ds[i]]
  {
    assert ds[..i + 1][..i] == ds[..i];
  }

  /** How many separators precede the digit at position `n` (the
      separators inserted before positions 2, 4, 8 and 10 that are below `n`) */
  function SeparatorCount(n: nat): nat {
    (if n > 2 then 1 else 0) + (if n > 4 then 1 else 0) + (if n > 8 then 1 else 0) + (if n > 10 then 1 else 0)
  }

  lemma {:induction false} LayoutLength(ds: string)
    requires |ds| <= MaxDigits
    ensures |Layout(ds)| == |ds| + SeparatorCount(|ds|)
  {
    if ds != [] {
      LayoutLength(ds[..|ds| - 1]);
    }
  }

  /** The mask's output never exceeds the sixteen characters of a complete
      value, and is exactly that long when at least twelve digits were typed. */
  lemma MaskedLength(value: string)
    ensures |Masked(value)| <= DisplayLength
    ensures |Masked(value)| == DisplayLength <==> |Digits(value)| >= MaxDigits
  {
    var cleaned := Digits(value);
    LayoutLength(cleaned[..Min(|cleaned|, MaxDigits)]);
  }

  /** Only decimal digits */
  predicate AllDigits(s: string) {
    forall i :: 0 <= i < |s| ==> IsDigit(s[i])
  }

  /** Where the digit at position `k` lands in the display text */
  function Slot(k: nat): nat {
    k + SeparatorCount(k + 1)
  }

  /** Every digit lands in its slot. */
  lemma {:induction false} LayoutDigitAt(ds: string, k: nat)
    requires k < |ds| <= MaxDigits
    ensures Slot(k) < |Layout(ds)| && Layout(ds)[Slot(k)] == ds[k]
  {
    var n := |ds| - 1;
    LayoutLength(ds[..n]);
    if k < n {
      LayoutDigitAt(ds[..n], k);
    }
  }

  /** Every separator lands just before the slot of the digit it precedes. */
  lemma {:induction false} LayoutSeparatorAt(ds: string, j: nat)
    requires j < |ds| <= MaxDigits && Separator(j) != ""
    ensures Slot(j) - 1 < |Layout(ds)| && Layout(ds)[Slot(j) - 1] == Separator(j)[0]
  {
    var n := |ds| - 1;
    LayoutLength(ds[..n]);
    if j < n {
      LayoutSeparatorAt(ds[..n], j);
    }
  }

  /** No separator holds a digit. */
  lemma SeparatorNoDigit(n: nat)
    ensures Filter(Separator(n), IsDigit) == []
  {
    FilterNone(Separator(n), IsDigit);
  }

  /** The separators are not digits, so the digits of a layout are the
      digits laid out. */
  lemma {:induction false} DigitsOfLayout(ds: string)
    requires |ds| <= MaxDigits && AllDigits(ds)
    ensures Digits(Layout(ds)) == ds
  {
    if ds != [] {
      var n := |ds| - 1;
      assert AllDigits(ds[..n]);
      DigitsOfLayout(ds[..n]);
      SeparatorNoDigit(n);
      FilterThrough(Layout(ds[..n]), Separator(n), ds[n], IsDigit);
      assert ds[..n] + [ds[n]] == ds;
    }
  }

  /** Masking a masked value changes nothing. */
  lemma MaskIdempotent(value: string)
    ensures Masked(Masked(value)) == Masked(value)
  {
    var cleaned := Digits(value);
    var kept := cleaned[..Min(|cleaned|, MaxDigits)];
    assert forall i :: 0 <= i < |kept| ==> kept[i] in cleaned;
    assert AllDigits(kept);
    DigitsOfLayout(kept);
    assert kept[..Min(|kept|, MaxDigits)] == kept;
  }

  predicate DigitsAt(s: string, from: nat, to: nat)
    requires from <= to <= |s|
  {
    forall i :: from <= i < to ==> IsDigit(s[i])
  }

  /** `/^(\d{2})\/(\d{2})\/(\d{4})\s(\d{2}):(\d{2})$/` */
  predicate MatchesDisplay(s: string) {
    && |s| == DisplayLength
    && DigitsAt(s, 0, 2) && s[2] == '/' && DigitsAt(s, 3, 5) && s[5] == '/'
    && DigitsAt(s, 6, 10) && IsJsSpace(s[10]) && DigitsAt(s, 11, 13) && s[13] == ':'
    && DigitsAt(s, 14, 16)
  }

  /** `displayToIso(displayValue)`: the groups of a complete entry reordered
      to `yyyy-mm-ddTHH:mm`, without any check of their ranges; "" for
      anything else. */
  function DisplayToIso(displayValue: string): (iso: string)
    ensures iso != [] <==> MatchesDisplay(displayValue)
    ensures iso != [] ==>
              && iso == displayValue[6..10] + "-" + displayValue[3..5] + "-" + displayValue[..2]
                        + "T" + displayValue[11..13] + ":" + displayValue[14..]
              && |iso| == DisplayLength
  {
    if displayValue == [] || |displayValue| < DisplayLength then ""
    else if !MatchesDisplay(displayValue) then ""
    else
      displayValue[6..10] + "-" + displayValue[3..5] + "-" + displayValue[..2]
      + "T" + displayValue[11..13] + ":" + displayValue[14..]
  }

  /** Twelve digits lay out as a complete display value, each group of digits
      in its place. */
  lemma LayoutComplete(ds: string)
    requires |ds| == MaxDigits && AllDigits(ds)
    ensures MatchesDisplay(Layout(ds))
    ensures var s := Layout(ds);
            && s[..2] == ds[..2] && s[3..5] == ds[2..4] && s[6..10] == ds[4..8]
            && s[11..13] == ds[8..10] && s[14..] == ds[10..]
  {
    var s := Layout(ds);
    LayoutLength(ds);
    forall k | 0 <= k < MaxDigits
      ensures s[Slot(k)] == ds[k]
    {
      LayoutDigitAt(ds, k);
    }
    LayoutSeparatorAt(ds, 2);
    LayoutSeparatorAt(ds, 4);
    LayoutSeparatorAt(ds, 8);
    LayoutSeparatorAt(ds, 10);
    assert Slot(0) == 0 && Slot(1) == 1 && Slot(2) == 3 && Slot(3) == 4;
    assert Slot(4) == 6 && Slot(5) == 7 && Slot(6) == 8 && Slot(7) == 9;
    assert Slot(8) == 11 && Slot(9) == 12 && Slot(10) == 14 && Slot(11) == 15;
  }

  /** What `handleChange` reports for a typed value: the ISO value of the
      masked text, which is "" until twelve digits have been typed and
      otherwise the first twelve digits reordered. */
  lemma HandleChangeEmits(input: string)
    ensures DisplayToIso(Masked(input)) != [] <==> |Digits(input)| >= MaxDigits
    ensures |Digits(input)| >= MaxDigits ==>
              var ds := Digits(input)[..MaxDigits];
              DisplayToIso(Masked(input)) == ds[4..8] + "-" + ds[2..4] + "-" + ds[..2] + "T" + ds[8..10] + ":" + ds[10..]
  {
    MaskedLength(input);
    if |Digits(input)| >= MaxDigits {
      var ds := Digits(input)[..MaxDigits];
      assert forall i :: 0 <= i < |ds| ==> ds[i] in Digits(input);
      assert AllDigits(ds);
      LayoutComplete(ds);
    }
  }

  /** The component's state: the text shown in the field */
  class Field {
    var displayValue: string

    constructor()
      ensures displayValue == ""
    {
      displayValue := "";
    }

    /** The effect of a new `value` prop: its display form (`isoToDisplay`,
        given) or "" for a falsy value */
    method Sync(value: string, isoToDisplay: string -> string)
      modifies this
      ensures displayValue == (if value == "" then "" else isoToDisplay(value))
    {
      if value != "" {
        displayValue := isoToDisplay(value);
      } else {
        displayValue := "";
      }
    }

    /** `handleChange(e)`: shows the masked text and, when an `onChange`
        handler is given, reports its ISO value. */
    method HandleChange(input: string, hasOnChange: bool) returns (emitted: Option<string>)
      modifies this
      ensures displayValue == Masked(input)
      ensures emitted == (if hasOnChange then Some(DisplayToIso(Masked(input))) else None)
    {
      var masked := ApplyMask(input);
      displayValue := masked;
      var isoValue := DisplayToIso(masked);
      if hasOnChange {
        emitted := Some(isoValue);
      } else {
        emitted := None;
      }
    }
  }
}
