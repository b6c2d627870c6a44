/** The expiration status `DomainCard` derives for one domain: the day count, the
    text under the date, its colour and icon. */
module DomainCard {
  import opened Wrappers
  import opened Clock
  import Text

  /** The six outcomes of the status chain, worst first. */
  datatype Bucket = InvalidDate | Expired | DueToday | UnderAWeek | UnderAMonth | Healthy

  datatype StatusColor = Destructive | Warning | Success
  datatype StatusIcon = AlertTriangle | ClockIcon | CheckCircle

  datatype CardStatus = CardStatus(
    bucket: Bucket,
    daysUntilExpiration: int,
    text: string,
    color: StatusColor,
    icon: StatusIcon)

  const InvalidText: string := "日期无效"
  const DueTodayText: string := "今天到期"

  /** `剩余 ${days} 天到期` ("`days` days remaining") */
  function RemainingText(days: int): string {
    "剩余 " + Text.IntText(days) + " 天到期"
  }

  /** `${Math.abs(days)} 天前已过期` ("expired `|days|` days ago") */
  function ExpiredText(days: int): string {
    Text.IntText(if days < 0 then -days else days) + " 天前已过期"
  }

  /** The reference classification of a valid expiration by its whole-day distance. */
  function BucketOfDays(days: int): (b: Bucket)
    ensures b != InvalidDate
    ensures b == Expired <==> days < 0
    ensures b == DueToday <==> days == 0
  {
    if days < 0 then Expired
    else if days == 0 then DueToday
    else if days < 7 then UnderAWeek
    else if days < 30 then UnderAMonth
    else Healthy
  }

  /** How urgent a bucket is: larger is worse. */
  function Severity(b: Bucket): nat {
    match b
    case InvalidDate => 5
    case Expired => 4
    case DueToday => 3
    case UnderAWeek => 2
    case UnderAMonth => 1
    case Healthy => 0
  }

  function ColorOf(b: Bucket): StatusColor {
    match b
    case UnderAMonth => Warning
    case Healthy => Success
    case _ => Destructive
  }

  function IconOf(b: Bucket): StatusIcon {
    match b
    case UnderAMonth => ClockIcon
    case Healthy => CheckCircle
    case _ => AlertTriangle
  }

  /** The icon follows the colour: the warning triangle goes with every destructive
      status, the clock with the warning and the check mark with success. */
  lemma IconFollowsColor(b: Bucket)
    ensures IconOf(b) == AlertTriangle <==> ColorOf(b) == Destructive
    ensures IconOf(b) == ClockIcon <==> ColorOf(b) == Warning
    ensures IconOf(b) == CheckCircle <==> ColorOf(b) == Success
  {
  }

  /** `expired` as the card computes it: `isPast(expiration) && !isToday(expiration)`,
      on the expiration truncated to its local midnight, holds exactly when the
      expiration day is before today. */
  lemma ExpiredIffBeforeToday(e: int, now: int, offset: int)
    ensures (StartOfDay(e, offset) < now && LocalDay(StartOfDay(e, offset), offset) != LocalDay(now, offset))
        <==> LocalDay(e, offset) < LocalDay(now, offset)
  {
    var de, dn := LocalDay(e, offset), LocalDay(now, offset);
    if de < dn {
      assert de * MsPerDay <= dn * MsPerDay - MsPerDay;
      assert StartOfDay(e, offset) < StartOfDay(now, offset);
    } else if de > dn {
      assert de * MsPerDay >= dn * MsPerDay + MsPerDay;
      assert StartOfDay(e, offset) >= StartOfDay(now, offset) + MsPerDay;
    }
  }

  /** The status of `DomainCard` for an expiration date (`None`: an Invalid Date) at
      instant `now` in a zone `offset` ms ahead of UTC. The chain is the source's,
      including the final `success` rewrite and the render-time replacement of the
      text by the invalid-date text. */
  function Status(expirationDate: Option<int>, now: int, offset: int): (s: CardStatus)
    ensures expirationDate.None? ==>
      s.bucket == InvalidDate && s.text == InvalidText && s.color == Destructive && s.daysUntilExpiration == 0
    ensures expirationDate.Some? ==>
      s.daysUntilExpiration == LocalDay(expirationDate.value, offset) - LocalDay(now, offset)
    ensures expirationDate.Some? ==> s.bucket == BucketOfDays(s.daysUntilExpiration)
    ensures s.color == ColorOf(s.bucket)
    ensures s.icon == IconOf(s.bucket)
    ensures s.bucket == Expired ==> s.text == ExpiredText(s.daysUntilExpiration)
    ensures s.bucket == DueToday ==> s.text == DueTodayText
    ensures s.bucket in {UnderAWeek, UnderAMonth, Healthy} ==> s.text == RemainingText(s.daysUntilExpiration)
  {
    var today := StartOfDay(now, offset);
    var isValidExpDate := expirationDate.Some?;
    var expiration := StartOfDay(if isValidExpDate then expirationDate.value else now, offset);
    var days := if isValidExpDate then DifferenceInDays(expiration, today) else 0;
    var expired := if isValidExpDate then expiration < now && LocalDay(expiration, offset) != LocalDay(now, offset) else false;
    DifferenceOfMidnights(expiration, today, offset);
    ExpiredIffBeforeToday(expiration, now, offset);
    var status :=
      if !isValidExpDate then CardStatus(InvalidDate, days, InvalidText, Destructive, AlertTriangle)
      else if expired then CardStatus(Expired, days, ExpiredText(days), Destructive, AlertTriangle)
      else if days == 0 then CardStatus(DueToday, days, DueTodayText, Destructive, AlertTriangle)
      else if days < 7 then CardStatus(UnderAWeek, days, RemainingText(days), Destructive, AlertTriangle)
      else if days < 30 then CardStatus(UnderAMonth, days, RemainingText(days), Warning, ClockIcon)
      else CardStatus(Healthy, days, RemainingText(days), Success, CheckCircle);
    var text := if status.color == Success && days > 0 then RemainingText(days) else status.text;
    status.(text := if isValidExpDate then text else InvalidText)
  }

  /** Each valid day count falls into exactly one bucket, and the buckets are the
      ranges below 0, 0, 1 to 6, 7 to 29 and 30 or more. */
  lemma BucketRanges(days: int)
    ensures BucketOfDays(days) == Expired <==> days < 0
    ensures BucketOfDays(days) == DueToday <==> days == 0
    ensures BucketOfDays(days) == UnderAWeek <==> 1 <= days <= 6
    ensures BucketOfDays(days) == UnderAMonth <==> 7 <= days <= 29
    ensures BucketOfDays(days) == Healthy <==> days >= 30
    ensures BucketOfDays(days) != InvalidDate
  {
  }

  /** Severity never increases as the expiration moves further away. */
  lemma SeverityMonotone(d1: int, d2: int)
    requires d1 <= d2
    ensures Severity(BucketOfDays(d1)) >= Severity(BucketOfDays(d2))
  {
  }

  /** Two instants on the same local days get the same status: the card works at day
      granularity. */
  lemma StatusIsDayGranular(e1: int, e2: int, n1: int, n2: int, offset: int)
    requires LocalDay(e1, offset) == LocalDay(e2, offset)
    requires LocalDay(n1, offset) == LocalDay(n2, offset)
    ensures Status(Some(e1), n1, offset) == Status(Some(e2), n2, offset)
  {
    var s1, s2 := Status(Some(e1), n1, offset), Status(Some(e2), n2, offset);
    assert s1.daysUntilExpiration == s2.daysUntilExpiration;
    assert s1.bucket == s2.bucket;
    assert s1.icon == s2.icon;
  }
}
