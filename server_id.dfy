/** The server identifier carried in a panel URL: `extract_server_id_from_url`
    runs `re.search('&id=[0-9]+', url)` and drops the four marker characters
    from the match. The search takes the leftmost position where the pattern
    matches, and `[0-9]+` is greedy. */
module ServerId {
  import opened Text

  /** The literal part of the pattern. */
  const Marker: string := "&id="

  /** The pattern `&id=[0-9]+` matches starting at position `i` of `url`:
      the marker is there and at least one digit follows it. */
  predicate MatchesAt(url: string, i: int)
  {
    0 <= i && i + |Marker| < |url| && url[i..i + |Marker|] == Marker && IsDigit(url[i + |Marker|])
  }

  /** The length of the longest run of digits at the front of `s`. */
  function DigitRunLength(s: string): (k: nat)
    ensures k <= |s| && AllDigits(s[..k])
    ensures k < |s| ==> !IsDigit(s[k])
  {
    if s == [] || !IsDigit(s[0]) then 0
    else
      var k := 1 + DigitRunLength(s[1..]);
      assert s[..k] == [s[0]] + s[1..][..k - 1];
      k
  }

  /** Where the search finds the pattern, looking from `from` onwards. */
  function FirstMatchFrom(url: string, from: nat): (r: Option<nat>)
    decreases |url| - from
    ensures r.Some? ==> from <= r.value && MatchesAt(url, r.value)
    ensures r.Some? ==> forall j :: from <= j < r.value ==> !MatchesAt(url, j)
    ensures r.None? ==> forall j :: from <= j ==> !MatchesAt(url, j)
  {
    if from + |Marker| >= |url| then None
    else if MatchesAt(url, from) then Some(from)
    else FirstMatchFrom(url, from + 1)
  }

  /** `extract_server_id_from_url`: `None` where `search` finds nothing (the
      source then fails on indexing `None`); otherwise the match without its
      first four characters, which is a non-empty run of digits. */
  function ExtractServerId(url: string): (r: Option<string>)
    ensures r.Some? ==> IsNumeral(r.value)
  {
    match FirstMatchFrom(url, 0)
    case None => None
    case Some(i) =>
      var matched := url[i..i + |Marker| + DigitRunLength(url[i + |Marker|..])];
      assert matched[|Marker|..] == url[i + |Marker|..][..DigitRunLength(url[i + |Marker|..])];
      Some(matched[|Marker|..])
  }

  /** Extraction fails exactly when no `&id=` in the URL is followed by a digit. */
  lemma ExtractFailsIffNoMatch(url: string)
    ensures ExtractServerId(url).None? <==> forall i :: !MatchesAt(url, i)
  {
    if ExtractServerId(url).None? {
      forall i ensures !MatchesAt(url, i) {
        assert i < 0 || 0 <= i;
      }
    }
  }

  /** A run of digits that starts at `b` and cannot be extended to the right. */
  predicate MaximalDigitRun(url: string, b: int, e: int)
  {
    0 <= b < e <= |url| && AllDigits(url[b..e]) && (e < |url| ==> !IsDigit(url[e]))
  }

  /** Two maximal runs that start at the same place end at the same place. */
  lemma {:induction false} MaximalDigitRunUnique(url: string, b: int, e: int, e': int)
    requires MaximalDigitRun(url, b, e) && MaximalDigitRun(url, b, e')
    ensures e == e'
  {
  }

  /** The extracted identifier is the maximal digit run right after the
      leftmost `&id=` that is followed by a digit; earlier markers that are
      not followed by a digit are passed over. */
  lemma {:induction false} ExtractIsLeftmostMaximalRun(url: string, i: int, e: int)
    requires MatchesAt(url, i)
    requires forall j :: 0 <= j < i ==> !MatchesAt(url, j)
    requires MaximalDigitRun(url, i + |Marker|, e)
    ensures ExtractServerId(url) == Some(url[i + |Marker|..e])
  {
    var r := FirstMatchFrom(url, 0);
    assert r.Some? && r.value == i;
    var tail := url[i + |Marker|..];
    var k := DigitRunLength(tail);
    assert k > 0 by { assert tail[0] == url[i + |Marker|]; }
    assert MaximalDigitRun(url, i + |Marker|, i + |Marker| + k) by {
      assert url[i + |Marker|..i + |Marker| + k] == tail[..k];
      if i + |Marker| + k < |url| { assert tail[k] == url[i + |Marker| + k]; }
    }
    MaximalDigitRunUnique(url, i + |Marker|, e, i + |Marker| + k);
  }

  /** The leftmost match position is well defined: every successful
      extraction comes from a maximal digit run after the leftmost match. */
  lemma ExtractHasLeftmostMatch(url: string)
    requires ExtractServerId(url).Some?
    ensures exists i :: MatchesAt(url, i) && (forall j :: 0 <= j < i ==> !MatchesAt(url, j))
                        && ExtractServerId(url).value == url[i + |Marker|..i + |Marker| + |ExtractServerId(url).value|]
                        && MaximalDigitRun(url, i + |Marker|, i + |Marker| + |ExtractServerId(url).value|)
  {
    var i := FirstMatchFrom(url, 0).value;
    var tail := url[i + |Marker|..];
    var k := DigitRunLength(tail);
    assert k > 0 by { assert tail[0] == url[i + |Marker|]; }
    assert url[i + |Marker|..i + |Marker| + k] == tail[..k];
    if i + |Marker| + k < |url| { assert tail[k] == url[i + |Marker| + k]; }
  }
}
