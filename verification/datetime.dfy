/** Date-time formatting: an ISO 8601 string with a UTC offset written
    the way the REST framework's `DateTimeField` writes it. */
module DateTime {
  import opened Strings

  const UtcOffset := "+00:00"

  /** `api_format`, given the `isoformat()` text: a trailing `+00:00`
      becomes `Z`; anything else is returned unchanged. */
  function ApiFormat(iso: string): (r: string)
    ensures EndsWith(iso, UtcOffset) ==> EndsWith(r, "Z") && r[..|r| - 1] == iso[..|iso| - |UtcOffset|]
    ensures !EndsWith(iso, UtcOffset) ==> r == iso
    ensures !EndsWith(r, UtcOffset)
    ensures EndsWith(iso, UtcOffset) ==> |r| == |iso| - 5
  {
    if EndsWith(iso, UtcOffset) then
      var r := iso[..|iso| - 6] + "Z";
      assert r[|r| - 1] == 'Z';
      r
    else iso
  }

  /** Formatting a formatted string changes nothing. */
  lemma ApiFormatIdempotent(iso: string)
    ensures ApiFormat(ApiFormat(iso)) == ApiFormat(iso)
  {
  }

  /** The offset is the only part that changes: the date and time before
      it are kept, and a UTC time is marked by a final `Z`. */
  lemma ApiFormatKeepsPrefix(stamp: string)
    ensures ApiFormat(stamp + UtcOffset) == stamp + "Z"
  {
    var s := stamp + UtcOffset;
    assert s[|s| - 6..] == UtcOffset;
    assert s[..|s| - 6] == stamp;
  }

  /** Other offsets are not rewritten. */
  lemma ApiFormatOtherOffset(stamp: string)
    ensures ApiFormat(stamp + "+01:00") == stamp + "+01:00"
    ensures ApiFormat(stamp + "Z") == stamp + "Z"
  {
    var s := stamp + "+01:00";
    assert s[|s| - 6..] == "+01:00";
    var z := stamp + "Z";
    assert z[|z| - 1] == 'Z';
  }
}
