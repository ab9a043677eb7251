/**
 * `parse_date_to_timestamp`: a `YYYY-MM-DD` date becomes epoch milliseconds,
 * and is accepted only inside `(earliest, now]`. Parsing the text, reading the
 * clock and the local timezone stay outside the model: `parse` stands for
 * `datetime.strptime(date, "%Y-%m-%d").timestamp() * 1000` (`None` when the text
 * does not match the format), `now` for the current time and `earliest` for the
 * same parse of "2009-01-09", all in milliseconds.
 */
module DateRange {
  import opened Outcomes

  /** The range check: accepted exactly when `earliest < parsed <= now`. */
  function CheckRange(date: string, parsed: int, now: int, earliest: int): (r: Result<int, Failure>)
    ensures r.Ok? <==> earliest < parsed && parsed <= now
    ensures r.Ok? ==> r.value == parsed
    ensures r.Err? ==> r.error == DateOutOfRange(date)
  {
    if parsed <= earliest || parsed > now then Err(DateOutOfRange(date)) else Ok(parsed)
  }

  /** The floor itself is rejected, and so is anything later than `now`; `now` itself is accepted. */
  lemma RangeEndpoints(date: string, now: int, earliest: int)
    requires earliest < now
    ensures CheckRange(date, earliest, now, earliest).Err?
    ensures CheckRange(date, now, now, earliest) == Ok(now)
    ensures CheckRange(date, now + 1, now, earliest).Err?
  {
  }

  /**
   * The whole of `parse_date_to_timestamp(os.getenv(name))`: `date` is `None`
   * when the variable is unset, which makes `strptime` raise a TypeError.
   */
  function ParseDate(date: Option<string>, parse: string -> Option<int>, now: int, earliest: int)
    : (r: Result<int, Failure>)
    ensures r.Ok? <==> date.Some? && parse(date.value).Some?
                       && earliest < parse(date.value).value <= now
    ensures r.Ok? ==> r.value == parse(date.value).value
    ensures date.None? ==> r == Err(Raised(NoneDateMessage))
    ensures date.Some? && parse(date.value).None? ==> r == Err(UnparsableDate(date.value))
    ensures date.Some? && parse(date.value).Some? && !(earliest < parse(date.value).value <= now)
            ==> r == Err(DateOutOfRange(date.value))
  {
    match date
    case None => Err(Raised(NoneDateMessage))
    case Some(text) =>
      match parse(text)
      case None => Err(UnparsableDate(text))
      case Some(parsed) => CheckRange(text, parsed, now, earliest)
  }

  const NoneDateMessage := "strptime() argument 1 must be str, not None"
}
