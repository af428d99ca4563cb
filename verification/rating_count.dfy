/** How the app detail dialog words a rating count (components/AppDetailModal.tsx):
    the count itself below a thousand, else in thousands (千) below ten thousand, else
    in ten thousands (万). The one-decimal rounding of the scaled value is left to
    the display. */
module RatingCount {
  import opened Wrappers

  const NoRatingsText: string := "評価なし"
  const ThousandSuffix: string := "千"
  const TenThousandSuffix: string := "万"

  /** The chosen wording: no count, the count as it is, or the count scaled down with
      the unit to write after it. */
  datatype RatingText =
    | NoRatings
    | Plain(count: int)
    | Scaled(value: real, suffix: string)

  /** `formatRatingCount`. */
  function FormatRatingCount(count: Option<int>): (r: RatingText)
    ensures r.NoRatings? <==> count.None?
    ensures r.Plain? <==> count.Some? && count.value < 1000
    ensures r.Scaled? && r.suffix == ThousandSuffix <==> count.Some? && 1000 <= count.value < 10000
    ensures r.Scaled? && r.suffix == TenThousandSuffix <==> count.Some? && 10000 <= count.value
    ensures r.Plain? ==> r.count == count.value
    ensures r.Scaled? && r.suffix == ThousandSuffix ==> 1.0 <= r.value < 10.0
    ensures r.Scaled? && r.suffix == TenThousandSuffix ==> 1.0 <= r.value
  {
    match count
    case None => NoRatings
    case Some(c) =>
      if c < 1000 then Plain(c)
      else if c < 10000 then Scaled(c as real / 1000.0, ThousandSuffix)
      else Scaled(c as real / 10000.0, TenThousandSuffix)
  }

  /** The count a wording stands for, before any rounding. */
  function Denoted(t: RatingText): Option<real> {
    match t
    case NoRatings => None
    case Plain(c) => Some(c as real)
    case Scaled(v, s) => Some(if s == ThousandSuffix then v * 1000.0 else v * 10000.0)
  }

  /** The wording loses nothing before rounding: it denotes exactly the count. */
  lemma FormatDenotesCount(count: Option<int>)
    ensures Denoted(FormatRatingCount(count)) == if count.None? then None else Some(count.value as real)
  {
  }

  /** The unit's place in the order plain < 千 < 万. */
  function Tier(t: RatingText): nat {
    match t
    case NoRatings => 0
    case Plain(_) => 0
    case Scaled(_, s) => if s == ThousandSuffix then 1 else 2
  }

  /** More ratings never get a smaller unit. */
  lemma TierMonotone(a: int, b: int)
    requires a <= b
    ensures Tier(FormatRatingCount(Some(a))) <= Tier(FormatRatingCount(Some(b)))
  {
  }
}
