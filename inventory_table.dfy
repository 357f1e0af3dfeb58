/** The stock and expiry badges of the inventory table. */
module InventoryTable {
  import opened Wrappers
  import opened Inventory
  import JsString

  /** A badge: its CSS class and its text. */
  datatype Badge = Badge(cls: string, text: string)

  const CriticalBadge := Badge("bg-danger", "Critical")
  const LowBadge := Badge("bg-warning", "Low")
  const MediumBadge := Badge("bg-info", "Medium")
  const GoodBadge := Badge("bg-success", "Good")

  /** `getStockStatus`: three thresholds on the quantity; exactly one badge applies. */
  function StockStatus(quantity: real): (b: Badge)
    ensures b == CriticalBadge <==> quantity <= 1.0
    ensures b == LowBadge <==> 1.0 < quantity <= 2.0
    ensures b == MediumBadge <==> 2.0 < quantity <= 5.0
    ensures b == GoodBadge <==> 5.0 < quantity
  {
    if quantity <= 1.0 then CriticalBadge
    else if quantity <= 2.0 then LowBadge
    else if quantity <= 5.0 then MediumBadge
    else GoodBadge
  }

  /**
   * The ceiling of `diffTime` divided by a day: the least whole number
   * of days covering `diffTime` milliseconds.
   */
  function DiffDays(diffTime: int): (d: int)
    ensures (d - 1) * DayMs < diffTime <= d * DayMs
  {
    -((-diffTime) / DayMs)
  }

  const ExpiredBadge := Badge("text-danger", "Expired")

  /** The text `${days} days`. */
  function DaysText(days: int): (r: string)
    ensures |r| > 5 && r[|r| - 5..] == " days"
  {
    JsString.IntToString(days) + " days"
  }

  /**
   * `getExpiryStatus`: no badge without an expiry date; otherwise the
   * badge for the whole number of days left, counted from `now`.
   */
  function ExpiryStatus(expiryDate: Option<int>, now: int): (r: Option<Badge>)
    ensures r.None? <==> expiryDate.None?
  {
    match expiryDate
    case None => None
    case Some(expiry) =>
      var diffDays := DiffDays(expiry - now);
      if diffDays < 0 then Some(ExpiredBadge)
      else if diffDays <= 3 then Some(Badge("text-warning", DaysText(diffDays)))
      else Some(Badge("text-success", DaysText(diffDays)))
  }

  /**
   * An item shows "Expired" exactly when its expiry lies at least one full
   * day before `now`; an expiry less than a day ago still counts as 0 days.
   */
  lemma ExpiredIff(expiry: int, now: int)
    ensures ExpiryStatus(Some(expiry), now) == Some(ExpiredBadge) <==> expiry - now <= -DayMs
  {
  }

  /** The warning badge, with the day count, covers the days 0 to 3. */
  lemma WarningIff(expiry: int, now: int)
    ensures ExpiryStatus(Some(expiry), now).value.cls == "text-warning"
        <==> -DayMs < expiry - now <= 3 * DayMs
    ensures -DayMs < expiry - now <= 3 * DayMs ==>
        ExpiryStatus(Some(expiry), now) == Some(Badge("text-warning", DaysText(DiffDays(expiry - now))))
  {
  }

  /** The success badge, with the day count, covers everything after day 3. */
  lemma SuccessIff(expiry: int, now: int)
    ensures ExpiryStatus(Some(expiry), now).value.cls == "text-success" <==> 3 * DayMs < expiry - now
    ensures 3 * DayMs < expiry - now ==>
        ExpiryStatus(Some(expiry), now) == Some(Badge("text-success", DaysText(DiffDays(expiry - now))))
  {
  }
}
