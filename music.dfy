/**
 * The song record of the music client, its natural order, and the part of
 * the catalogue search that turns each search result into a Song.
 */
module Music {
  import opened JavaLang
  import opened Decimal

  /** An immutable song: the four constructor arguments are its four fields. */
  datatype Song = Song(songName: string, artistName: string, duration: string, previewUrl: string)

  /** Song.compareTo: by song name, and by artist name only when the names are equal. */
  function CompareTo(a: Song, b: Song): int
  {
    var result := CompareStrings(a.songName, b.songName);
    if result != 0 then result else CompareStrings(a.artistName, b.artistName)
  }

  /** Song.toString: name, " by ", artist, and the duration in parentheses. */
  function ToString(s: Song): (t: string)
    ensures |t| == |s.songName| + |s.artistName| + |s.duration| + 7
  {
    s.songName + " by " + s.artistName + " (" + s.duration + ")"
  }

  lemma ToStringShape(s: Song)
    ensures StartsWith(ToString(s), s.songName + " by " + s.artistName)
    ensures var t := ToString(s); t[|t| - |s.duration| - 2..] == "(" + s.duration + ")"
  {
    var t := ToString(s);
    assert t == (s.songName + " by " + s.artistName) + (" (" + s.duration + ")");
    StartsWithPrefix(t, s.songName + " by " + s.artistName);
  }

  /** Two songs compare as equal exactly when both their names and their artists are equal. */
  lemma CompareToZero(a: Song, b: Song)
    ensures CompareTo(a, b) == 0 <==> a.songName == b.songName && a.artistName == b.artistName
  {
    CompareStringsZero(a.songName, b.songName);
    CompareStringsZero(a.artistName, b.artistName);
  }

  /** The order is lexicographic on (songName, artistName). */
  lemma CompareToLexicographic(a: Song, b: Song)
    ensures CompareTo(a, b) < 0 <==>
      CompareStrings(a.songName, b.songName) < 0 ||
      (a.songName == b.songName && CompareStrings(a.artistName, b.artistName) < 0)
  {
    CompareStringsZero(a.songName, b.songName);
  }

  /** Swapping the operands negates the sign of the comparison. */
  lemma CompareToAntisymmetric(a: Song, b: Song)
    ensures Sign(CompareTo(a, b)) == -Sign(CompareTo(b, a))
  {
    CompareStringsZero(a.songName, b.songName);
    CompareStringsAntisymmetric(a.songName, b.songName);
    CompareStringsAntisymmetric(a.artistName, b.artistName);
  }

  /** The order is transitive, as Comparable requires. */
  lemma CompareToTransitive(a: Song, b: Song, c: Song)
    requires CompareTo(a, b) <= 0 && CompareTo(b, c) <= 0
    ensures CompareTo(a, c) <= 0
  {
    CompareStringsZero(a.songName, b.songName);
    CompareStringsZero(b.songName, c.songName);
    CompareStringsZero(a.songName, c.songName);
    CompareStringsTransitive(a.songName, b.songName, c.songName);
    if a.songName == c.songName && a.songName != b.songName {
      CompareStringsAntisymmetric(a.songName, b.songName);
    }
    if a.songName == b.songName && b.songName == c.songName {
      CompareStringsTransitive(a.artistName, b.artistName, c.artistName);
    }
  }

  // ---------------------------------------------------------------------------
  // Track length: milliseconds to "m:ss"
  // ---------------------------------------------------------------------------

  /** Java's int division, which truncates toward zero (here for a positive divisor). */
  function JavaDiv(a: int, b: int): int
    requires b > 0
  {
    if a >= 0 then a / b else -((-a) / b)
  }

  /** Java's int remainder, which takes the sign of the dividend. */
  function JavaRem(a: int, b: int): int
    requires b > 0
  {
    a - b * JavaDiv(a, b)
  }

  /** "%02d": zero-padded to width two after any sign. */
  function ZeroPad2(n: int): string
  {
    var t := IntToString(n);
    if |t| < 2 then "0" + t else t
  }

  /** The duration text built from trackTimeMillis: String.format("%d:%02d", minutes, seconds). */
  function FormatDuration(trackTimeMillis: int): string
  {
    var totalSeconds := JavaDiv(trackTimeMillis, 1000);
    var minutes := JavaDiv(totalSeconds, 60);
    var seconds := JavaRem(totalSeconds, 60);
    IntToString(minutes) + ":" + ZeroPad2(seconds)
  }

  /** For a non-negative length the arithmetic is floor division: whole minutes and 0..59 seconds. */
  lemma DurationArithmetic(trackTimeMillis: int)
    requires trackTimeMillis >= 0
    ensures var totalSeconds := JavaDiv(trackTimeMillis, 1000);
      && totalSeconds * 1000 <= trackTimeMillis < totalSeconds * 1000 + 1000
      && JavaDiv(totalSeconds, 60) * 60 + JavaRem(totalSeconds, 60) == totalSeconds
      && 0 <= JavaRem(totalSeconds, 60) < 60
  {
  }

  /** Reads "m:ss" back to a number of seconds. */
  function ParseDuration(d: string): Option<int>
  {
    if |d| >= 4 && d[|d| - 3] == ':' && IsDigit(d[|d| - 2]) && IsDigit(d[|d| - 1]) then
      match ParseInt(d[..|d| - 3])
      case None => None
      case Some(m) => Some(m * 60 + DigitsValue(d[|d| - 2..]))
    else None
  }

  lemma ZeroPad2TwoDigits(n: int)
    requires 0 <= n < 60
    ensures var p := ZeroPad2(n); |p| == 2 && IsDigit(p[0]) && IsDigit(p[1]) && DigitsValue(p) == n
  {
    DigitsRoundTrip(n);
    var t := IntToString(n);
    if n < 10 {
      assert ZeroPad2(n) == ['0', t[0]];
      assert ZeroPad2(n)[..1] == ['0'];
    } else {
      assert DigitsOf(n / 10) == [DigitChar(n / 10)];
    }
  }

  /** For a non-negative 32-bit length, the duration text reads back as millis / 1000 seconds. */
  lemma FormatDurationRoundTrip(trackTimeMillis: int)
    requires 0 <= trackTimeMillis <= INT_MAX
    ensures ParseDuration(FormatDuration(trackTimeMillis)) == Some(trackTimeMillis / 1000)
  {
    var totalSeconds := JavaDiv(trackTimeMillis, 1000);
    var minutes := JavaDiv(totalSeconds, 60);
    var seconds := JavaRem(totalSeconds, 60);
    DurationArithmetic(trackTimeMillis);
    ZeroPad2TwoDigits(seconds);
    ParseIntToString(minutes);
    var m := IntToString(minutes);
    var p := ZeroPad2(seconds);
    var d := FormatDuration(trackTimeMillis);
    assert d == m + ":" + p;
    assert d[..|d| - 3] == m;
    assert d[|d| - 2..] == p;
    assert |d| >= 4 by { assert |m| >= 1; }
  }

  // ---------------------------------------------------------------------------
  // searchSongs: one Song per element of "results"
  // ---------------------------------------------------------------------------

  /** The four fields searchSongs reads from one element of the "results" array. */
  datatype TrackResult = TrackResult(trackName: string, artistName: string, trackTimeMillis: int, previewUrl: string)

  function SongOf(r: TrackResult): Song
  {
    Song(r.trackName, r.artistName, FormatDuration(r.trackTimeMillis), r.previewUrl)
  }

  /** The loop of searchSongs: one Song per result, in order. */
  method SongsOf(results: seq<TrackResult>) returns (songs: seq<Song>)
    ensures |songs| == |results|
    ensures forall i :: 0 <= i < |results| ==>
      songs[i].songName == results[i].trackName &&
      songs[i].artistName == results[i].artistName &&
      songs[i].duration == FormatDuration(results[i].trackTimeMillis) &&
      songs[i].previewUrl == results[i].previewUrl
  {
    songs := [];
    for k := 0 to |results|
      invariant |songs| == k
      invariant forall i :: 0 <= i < k ==> songs[i] == SongOf(results[i])
    {
      var node := results[k];
      var totalSeconds := JavaDiv(node.trackTimeMillis, 1000);
      var minutes := JavaDiv(totalSeconds, 60);
      var seconds := JavaRem(totalSeconds, 60);
      var duration := IntToString(minutes) + ":" + ZeroPad2(seconds);
      assert duration == FormatDuration(node.trackTimeMillis);
      var song := Song(node.trackName, node.artistName, duration, node.previewUrl);
      assert song == SongOf(node);
      songs := songs + [song];
    }
  }
}
