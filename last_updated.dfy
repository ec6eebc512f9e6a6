/**
 * The "last updated" label of a podcast card: the whole days elapsed since
 * the update, sorted into one of the buckets the card can show, and the
 * English text of that bucket.
 */
module LastUpdated {
  import opened Wrappers
  import opened JsStrings

  /** `1000 * 60 * 60 * 24`, the milliseconds in a day. */
  const MsPerDay: int := 1000 * 60 * 60 * 24

  /**
   * `Math.floor((now - updated) / MsPerDay)`: the largest whole number of days
   * not exceeding the elapsed time, also when `updated` lies in the future.
   */
  function DiffDays(now: int, updated: int): (d: int)
    ensures d * MsPerDay <= now - updated < (d + 1) * MsPerDay
  {
    (now - updated) / MsPerDay
  }

  /** The buckets of the label. */
  datatype Freshness = Today | Yesterday | DaysAgo(days: int) | WeeksAgo(weeks: int)

  /**
   * The if-chain that picks a bucket for a day difference: a day count is
   * shown as it is, a week count is always between 1 and 4.
   */
  function Bucket(diffDays: int): (r: Freshness)
    ensures r.DaysAgo? ==> r.days == diffDays
    ensures r.WeeksAgo? ==> r.weeks == diffDays / 7 && 1 <= r.weeks <= 4
  {
    if diffDays == 0 then Today
    else if diffDays == 1 then Yesterday
    else if diffDays < 7 then DaysAgo(diffDays)
    else if diffDays < 30 then WeeksAgo(diffDays / 7)
    else DaysAgo(diffDays)
  }

  /** The text shown for each bucket. */
  function LabelText(f: Freshness): (s: string)
    ensures |s| > 8 && s[..8] == "Updated "
  {
    match f
    case Today => "Updated today"
    case Yesterday => "Updated yesterday"
    case DaysAgo(n) => "Updated " + IntToString(n) + " days ago"
    case WeeksAgo(n) => "Updated " + IntToString(n) + " weeks ago"
  }

  /** Recovers the bucket from a label; the inverse of `LabelText`. */
  function ParseLabel(s: string): (r: Option<Freshness>)
  {
    if |s| < 8 || s[..8] != "Updated " then None
    else
      var rest := s[8..];
      if rest == "today" then Some(Today)
      else if rest == "yesterday" then Some(Yesterday)
      else if |rest| >= 9 && rest[|rest| - 9..] == " days ago" then
        match ParseDecimal(rest[..|rest| - 9])
        case Some(n) => Some(DaysAgo(n))
        case None => None
      else if |rest| >= 10 && rest[|rest| - 10..] == " weeks ago" then
        match ParseDecimal(rest[..|rest| - 10])
        case Some(n) => Some(WeeksAgo(n))
        case None => None
      else None
  }

  lemma DaysLabelRoundTrip(n: int)
    ensures ParseLabel(LabelText(DaysAgo(n))) == Some(DaysAgo(n))
  {
    var digits := IntToString(n);
    var rest := digits + " days ago";
    assert LabelText(DaysAgo(n))[8..] == rest;
    assert rest[|rest| - 9..] == " days ago";
    assert rest[..|rest| - 9] == digits;
    assert rest[|rest| - 1] == 'o';
    IntToStringRoundTrip(n);
  }

  lemma WeeksLabelRoundTrip(n: int)
    ensures ParseLabel(LabelText(WeeksAgo(n))) == Some(WeeksAgo(n))
  {
    var digits := IntToString(n);
    var rest := digits + " weeks ago";
    assert LabelText(WeeksAgo(n))[8..] == rest;
    assert rest[|rest| - 10..] == " weeks ago";
    assert rest[..|rest| - 10] == digits;
    assert rest[|rest| - 9] == 'w' && rest[|rest| - 1] == 'o';
    IntToStringRoundTrip(n);
  }

  /** Every label reads back as the bucket it was made from, so no two buckets share a text. */
  lemma LabelRoundTrip(f: Freshness)
    ensures ParseLabel(LabelText(f)) == Some(f)
  {
    match f
    case Today =>
    case Yesterday =>
    case DaysAgo(n) => DaysLabelRoundTrip(n);
    case WeeksAgo(n) => WeeksLabelRoundTrip(n);
  }

  /** Two labels are equal exactly when their buckets are. */
  lemma LabelTextInjective(f: Freshness, g: Freshness)
    requires LabelText(f) == LabelText(g)
    ensures f == g
  {
    LabelRoundTrip(f);
    LabelRoundTrip(g);
  }

  /** The complete case table of the label, one day difference at a time. */
  lemma BucketCases(d: int)
    ensures Bucket(d) == Today <==> d == 0
    ensures Bucket(d) == Yesterday <==> d == 1
    ensures Bucket(d).WeeksAgo? <==> 7 <= d < 30
    ensures Bucket(d).WeeksAgo? ==> Bucket(d).weeks == d / 7 && 1 <= Bucket(d).weeks <= 4
    ensures Bucket(d).DaysAgo? <==> d < 0 || 2 <= d < 7 || 30 <= d
    ensures Bucket(d).DaysAgo? ==> Bucket(d).days == d
  {
  }

  /** The worked examples of the label at 0, 1 and 6 days. */
  lemma LabelExamplesFirstWeek()
    ensures LabelText(Bucket(0)) == "Updated today"
    ensures LabelText(Bucket(1)) == "Updated yesterday"
    ensures LabelText(Bucket(6)) == "Updated 6 days ago"
  {
  }

  /** The worked examples of the label at 7, 29 and 30 days. */
  lemma LabelExamplesLater()
    ensures LabelText(Bucket(7)) == "Updated 1 weeks ago"
    ensures LabelText(Bucket(29)) == "Updated 4 weeks ago"
    ensures LabelText(Bucket(30)) == "Updated 30 days ago"
  {
  }
}
