/**
 * The priority badge (src/components/badges/PriorityBadge.tsx): any value is
 * shown as an integer grade 1..5 with one of five colour sets.
 */
module PriorityBadge {
  import opened JsValues

  datatype Colors = Colors(bg: string, fg: string, border: string)

  /** Grade 5 is red ("A") down to grade 1 blue ("E"). */
  const Palette: map<int, Colors> := map[
    5 := Colors("#FEE2E2", "#B91C1C", "#FCA5A5"),
    4 := Colors("#FFEDD5", "#C2410C", "#FDBA74"),
    3 := Colors("#FEF3C7", "#B45309", "#FCD34D"),
    2 := Colors("#DCFCE7", "#166534", "#86EFAC"),
    1 := Colors("#DBEAFE", "#1D4ED8", "#93C5FD")
  ]

  /**
   * The displayed grade: `Number(value)` truncated toward zero and clamped to
   * 1..5; a value that is not a finite number shows as 1.
   */
  function DisplayValue(value: Json): (v: int)
    ensures 1 <= v <= 5
    ensures !ToNumber(value).IsFinite() ==> v == 1
    ensures value.Null? ==> v == 1
    ensures value.Num? && value.x < 1.0 ==> v == 1
    ensures value.Num? && 1.0 <= value.x < 5.0 ==> v as real <= value.x < v as real + 1.0
    ensures value.Num? && value.x >= 5.0 ==> v == 5
  {
    var n := ToNumber(value);
    if n.IsFinite() then ClampInt(Trunc(n.x), 1, 5) else 1
  }

  /** The colours of the badge: the palette has an entry for every grade shown. */
  function BadgeColors(value: Json): (c: Colors)
    ensures c in Palette.Values
    ensures DisplayValue(value) in Palette && c == Palette[DisplayValue(value)]
  {
    Palette[DisplayValue(value)]
  }

  /** Grades 1..5 given as numbers are shown unchanged. */
  lemma {:induction false} GradesUnchanged(k: int)
    requires 1 <= k <= 5
    ensures DisplayValue(Num(k as real)) == k
  {
    TruncOfInt(k);
  }

  /** Distinct grades get distinct colours. */
  lemma PaletteDistinct(i: int, j: int)
    requires i in Palette && j in Palette && i != j
    ensures Palette[i] != Palette[j]
  {
  }

  lemma Examples()
    ensures DisplayValue(Num(4.9)) == 4
    ensures DisplayValue(Num(0.5)) == 1
    ensures DisplayValue(Num(-3.0)) == 1
    ensures DisplayValue(Num(9.0)) == 5
    ensures DisplayValue(Missing) == 1
  {
  }
}
