/**
 * Acceptance of release timestamps before they are formatted as `YYYY-MM-DD`.
 * The formatting itself (`datetime.fromtimestamp(...).strftime`) is not
 * modelled: an accepted stamp is returned as the millisecond count that would
 * be formatted.
 */
module Timestamps {
  import opened Wrappers

  /** What the caller passes: an integer, or anything else (the `'2025'` default, `None`). */
  datatype Stamp = IntStamp(v: int) | NonInteger

  /** The three ways `_timestamp_str_to_date` of the downloader can end. */
  datatype DateOutcome =
    | Formatted(millis: int)   // a date string is produced from this millisecond value
    | Blank                    // returns ""
    | Raises(error: string)    // an exception escapes the method

  const Pow10_10: int := 10000000000
  const Pow10_11: int := 100000000000
  const Pow10_12: int := 1000000000000
  const Pow10_13: int := 10000000000000

  /**
   * The text of the error an 11-digit value raises, in the wording of Python 3.12
   * and later; the service needs 3.12 for the nested f-string quotes of `src/main.py:99`.
   */
  const UnboundTimestamp: string := "UnboundLocalError: cannot access local variable 'timestamp' where it is not associated with a value"

  /**
   * `_timestamp_str_to_date` of both downloader copies, as written. An 11-digit
   * value reaches `timestamp *= 100`, which reads an unassigned local; the
   * resulting `UnboundLocalError` is not among the caught exception types.
   * A non-integer makes the first comparison raise `TypeError`, which is caught.
   */
  function DownloaderDate(t: Stamp): (r: DateOutcome)
    ensures t.NonInteger? ==> r == Blank
    ensures t.IntStamp? && Pow10_10 <= t.v < Pow10_11 ==> r == Raises(UnboundTimestamp)
    ensures t.IntStamp? && !(Pow10_10 <= t.v < Pow10_11) && !(Pow10_12 <= t.v < Pow10_13) ==> r == Blank
    ensures r.Formatted? ==> Pow10_12 <= r.millis < Pow10_13 && t == IntStamp(r.millis)
  {
    match t
    case NonInteger => Blank
    case IntStamp(v) =>
      if Pow10_10 <= v < Pow10_11 then Raises(UnboundTimestamp)
      else if !(Pow10_12 <= v < Pow10_13) then Blank
      else Formatted(v)
  }

  /** The 11-digit example of the docstring raises instead of being scaled to 13 digits. */
  lemma ElevenDigitStampRaises()
    ensures DownloaderDate(IntStamp(13053888000)).Raises?
  {
  }

  /** The method as its comment describes it: an 11-digit value is multiplied by 100 first. */
  function DownloaderDateIntended(t: Stamp): (r: DateOutcome)
    ensures !r.Raises?
    ensures t.IntStamp? && Pow10_10 <= t.v < Pow10_11 ==> r == Formatted(t.v * 100)
    ensures t.IntStamp? && Pow10_12 <= t.v < Pow10_13 ==> r == Formatted(t.v)
    ensures r.Formatted? ==> Pow10_12 <= r.millis < Pow10_13
  {
    match t
    case NonInteger => Blank
    case IntStamp(v) =>
      var ms := if Pow10_10 <= v < Pow10_11 then v * 100 else v;
      if !(Pow10_12 <= ms < Pow10_13) then Blank else Formatted(ms)
  }

  /** Both versions agree everywhere except on 11-digit values. */
  lemma DownloaderDateAgreesOutside11Digits(t: Stamp)
    requires !(t.IntStamp? && Pow10_10 <= t.v < Pow10_11)
    ensures DownloaderDate(t) == DownloaderDateIntended(t)
  {
  }

  /** 2100-12-31 23:59:59 in milliseconds, the last accepted instant. */
  const MaxMillis: int := 4102444799000

  /**
   * `_timestamp_str_to_date` of the API client, as written: below 10^10 is
   * rejected, below 5*10^11 is taken as seconds and scaled by 1000, and the
   * result must lie in [0, MaxMillis].
   */
  function NormalizeMillis(t: Stamp): (r: Option<int>)
    ensures r.Some? ==> 0 <= r.value <= MaxMillis
    ensures t.NonInteger? ==> r == None
    ensures t.IntStamp? && t.v < Pow10_10 ==> r == None
    ensures t.IntStamp? && 5 * Pow10_11 <= t.v <= MaxMillis ==> r == Some(t.v)
    ensures t.IntStamp? && t.v > MaxMillis ==> r == None
    ensures r.Some? <==> t.IntStamp? && 5 * Pow10_11 <= t.v <= MaxMillis
  {
    match t
    case NonInteger => None
    case IntStamp(v) =>
      if v < Pow10_10 then None
      else
        var ms := if v < 5 * Pow10_11 then v * 1000 else v;
        if 0 <= ms <= MaxMillis then Some(ms) else None
  }

  /**
   * The seconds branch is dead: every value that reaches it is at least 10^10,
   * so scaled by 1000 it exceeds MaxMillis and is rejected.
   */
  lemma SecondsBranchNeverAccepts(v: int)
    requires Pow10_10 <= v < 5 * Pow10_11
    ensures NormalizeMillis(IntStamp(v)) == None
  {
  }

  /** The docstring's 10-digit seconds example is rejected. */
  lemma TenDigitSecondsRejected()
    ensures NormalizeMillis(IntStamp(1305388800)) == None
  {
  }

  /** The normalisation with the lower bound at 10^9, so that 10-digit seconds values are scaled. */
  function NormalizeMillisIntended(t: Stamp): (r: Option<int>)
    ensures r.Some? ==> 0 <= r.value <= MaxMillis
    ensures t.IntStamp? && 1000000000 <= t.v <= 4102444799 ==> r == Some(t.v * 1000)
    ensures t.IntStamp? && 5 * Pow10_11 <= t.v <= MaxMillis ==> r == Some(t.v)
    ensures t.IntStamp? && t.v > MaxMillis ==> r == None
    ensures r.Some? <==> t.IntStamp? && (1000000000 <= t.v <= 4102444799 || 5 * Pow10_11 <= t.v <= MaxMillis)
  {
    match t
    case NonInteger => None
    case IntStamp(v) =>
      if v < 1000000000 then None
      else
        var ms := if v < 5 * Pow10_11 then v * 1000 else v;
        if 0 <= ms <= MaxMillis then Some(ms) else None
  }

  /** Millisecond values are treated alike by both versions. */
  lemma NormalizeAgreesOnMillis(v: int)
    requires v >= 5 * Pow10_11
    ensures NormalizeMillis(IntStamp(v)) == NormalizeMillisIntended(IntStamp(v))
  {
  }
}
