/** What the download library hands back to the front ends, reduced to the
    values they read: the progress-hook dictionary and the two kinds of
    failure they tell apart. How the library fetches anything is not part of
    this model. */
module Engine {
  import opened Wrappers
  import opened PyStr
  import opened LogBuffer

  /** The keys of a progress-hook dictionary the front ends read: `status`
      (always present) and the preformatted `_percent_str`, `_speed_str` and
      `_eta_str`, each of which may be missing. */
  datatype ProgressDict = ProgressDict(
    status: string,
    percent: Option<string>,
    speed: Option<string>,
    eta: Option<string>)

  /** `d.get(key, default).strip()`: always trimmed, and a value (or, for a
      missing key, a default) that is already trimmed is shown as it is. */
  function Field(value: Option<string>, default: string): (r: string)
    ensures Trimmed(r)
    ensures value.None? && Trimmed(default) ==> r == default
    ensures value.Some? && Trimmed(value.value) ==> r == value.value
  {
    var raw := GetOr(value, default);
    StripTrimmed(raw);
    if Trimmed(raw) then
      StripOfTrimmed(raw);
      Strip(raw)
    else Strip(raw)
  }

  /** A field shows only characters of the value, or of the default. */
  lemma FieldKeepsChars(value: Option<string>, default: string)
    ensures forall c :: c in Field(value, default) ==> c in GetOr(value, default)
  {
    StripKeepsChars(GetOr(value, default));
  }

  /** A missing key shows the literal defaults the source passes. */
  lemma FieldDefaults()
    ensures Field(None, "0%") == "0%"
    ensures Field(None, "N/A") == "N/A"
  {
    assert Trimmed("0%") && Trimmed("N/A");
  }

  /** The dictionary's strings stay on one line. */
  predicate DictNoBreak(d: ProgressDict) {
    && (d.percent.Some? ==> NoBreak(d.percent.value))
    && (d.speed.Some? ==> NoBreak(d.speed.value))
    && (d.eta.Some? ==> NoBreak(d.eta.value))
  }

  /** A field of a one-line dictionary stays on one line. */
  lemma FieldNoBreak(value: Option<string>, default: string)
    requires value.Some? ==> NoBreak(value.value)
    requires NoBreak(default)
    ensures NoBreak(Field(value, default))
  {
    FieldKeepsChars(value, default);
  }

  /** A failure while handling one item: the library's `DownloadError`, or any
      other exception; each carries the text of `str(e)`. */
  datatype Failure = DownloadError(message: string) | OtherError(message: string)
}
