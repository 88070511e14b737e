/** Task 1: keep the songs released on or before the cutoff date, replace a
    missing (zero) view count by a fallback estimate, and write one
    `name - first artist - views` line per kept song after a header line. */
module FilterDerive {
  import opened Wrappers
  import opened Text
  import opened Songs

  /** `DateOnly.Parse("01.01.2002").DayNumber`. */
  const CutoffDay: int := NewYearDayNumber(2002)

  /** 2002-01-01 is day 730850. */
  lemma CutoffDayValue()
    ensures CutoffDay == 730850
  {
  }

  const OutputHeader: string := "track_name - artist_name - streams"

  const FieldSeparator: string := " - "

  /** The fallback formula's scale factor. */
  const FallbackScale: nat := 10000

  /** The filter's keep condition: released on or before the cutoff day. */
  predicate ReleasedBy(s: Song, cutoffDay: int)
  {
    s.releaseDay <= cutoffDay
  }

  function Abs(x: int): nat
  {
    if x < 0 then -x else x
  }

  /** C#'s `int` division, which rounds toward zero: the quotient's
      magnitude is the quotient of the magnitudes and its sign is the product
      of the operands' signs (floor or Euclidean division would round a
      negative quotient down instead). */
  function TruncDiv(a: int, b: int): (q: int)
    requires b != 0
    ensures Abs(q) == Abs(a) / Abs(b)
    ensures q > 0 ==> (a < 0 <==> b < 0)
    ensures q < 0 ==> (a < 0 <==> b > 0)
  {
    var m := Abs(a) / Abs(b);
    QuotientNonNegative(Abs(a), Abs(b));
    if (a < 0) == (b < 0) then m else -m
  }

  /** A solver hint only: the quotient of two naturals is not negative.
      Stating it as a separate fact keeps the proof of `TruncDiv` stable. */
  lemma QuotientNonNegative(x: nat, y: nat)
    requires y > 0
    ensures x / y >= 0
  {
  }

  /** `NormilizeArtistName`: the single artist, or all of them joined with
      `" & "`. Either way it is the join of the list. */
  function NormalizeArtistName(artists: seq<string>): (r: string)
    ensures r == Join(ArtistSeparator, artists)
  {
    if |artists| == 1 then artists[0] else Join(ArtistSeparator, artists)
  }

  /** The normalised artist string is as long as the names plus one
      separator between each pair of neighbours. */
  lemma NormalizeArtistNameLength(artists: seq<string>)
    requires |artists| >= 1
    ensures |NormalizeArtistName(artists)| ==
            TotalLength(artists) + |ArtistSeparator| * (|artists| - 1)
  {
    JoinLength(ArtistSeparator, artists);
  }

  /** Normalising the artists the parser split off a column gives back the
      column. */
  lemma NormalizeArtistNameOfSplit(field: string)
    ensures NormalizeArtistName(Split(field, ArtistSeparator)) == field
  {
    JoinSplit(field, ArtistSeparator);
  }

  /** The characters the fallback divides by: the track name plus the artist
      names and the separators between them. */
  function NameLengths(s: Song): nat
  {
    |s.name| + TotalLength(s.artists) + |ArtistSeparator| * (|s.artists| - 1)
  }

  /** `FallbackViewCount`: whole days between the release and `baseDay`,
      divided by the name lengths, times 10000. A zero divisor is the
      `DivideByZeroException` the source does not guard against. */
  function FallbackViewCount(s: Song, baseDay: int): (r: Result<nat, Fault>)
    ensures r.Success? <==> NameLengths(s) > 0
    ensures r.Failure? ==> r.error == DivideByZero
    ensures r.Success? ==> r.value % FallbackScale == 0
    ensures r.Success? ==>
      r.value == (Abs(baseDay - s.releaseDay) / NameLengths(s)) * FallbackScale
  {
    var divisor := |NormalizeArtistName(s.artists)| + |s.name|;
    NormalizeArtistNameLength(s.artists);
    if divisor == 0 then Failure(DivideByZero)
    else Success(Abs(TruncDiv(baseDay - s.releaseDay, divisor)) * FallbackScale)
  }

  /** The `with { ViewCount = ... }` step for a kept song: a non-zero count
      is kept, a zero count is replaced by the fallback, and no other field
      changes. */
  function Derive(s: Song, cutoffDay: int): (r: Result<Song, Fault>)
    ensures r.Success? <==> s.viewCount != 0 || NameLengths(s) > 0
    ensures r.Failure? ==> r.error == DivideByZero
    ensures r.Success? ==>
      && r.value.name == s.name
      && r.value.artists == s.artists
      && r.value.releaseDay == s.releaseDay
    ensures r.Success? && s.viewCount != 0 ==> r.value.viewCount == s.viewCount
    ensures r.Success? && s.viewCount == 0 ==> r.value.viewCount % FallbackScale == 0
    ensures r.Success? && s.viewCount == 0 && ReleasedBy(s, cutoffDay) ==>
      r.value.viewCount == ((cutoffDay - s.releaseDay) / NameLengths(s)) * FallbackScale
  {
    if s.viewCount == 0 then
      match FallbackViewCount(s, cutoffDay)
      case Failure(e) => Failure(e)
      case Success(v) => Success(s.(viewCount := v))
    else Success(s)
  }

  /** A worked case: track "A", artist "B", released on day 100, cutoff day
      200: 100 days over 2 characters, times 10000. */
  lemma FallbackExample()
    ensures FallbackViewCount(Song("A", ["B"], 0, 100), 200) == Success(500000)
  {
  }

  /** The fallback is not always positive: fewer elapsed days than name
      characters give zero. */
  lemma FallbackCanBeZero()
    ensures FallbackViewCount(Song("Track", ["Artist"], 0, 100), 110) == Success(0)
  {
  }

  /** One output line: name, first artist and view count, separated by
      `" - "`. When neither name contains the separator, cutting the line at
      it gives back the three fields. */
  function FormatLine(s: Song): (r: string)
    ensures SeparatorFree(s.name, FieldSeparator) && SeparatorFree(s.artists[0], FieldSeparator) ==>
      Split(r, FieldSeparator) == [s.name, s.artists[0], NatToString(s.viewCount)]
  {
    var digits := NatToString(s.viewCount);
    FieldsOfLine(s.name, s.artists[0], digits);
    s.name + FieldSeparator + s.artists[0] + FieldSeparator + digits
  }

  /** Three fields joined by the separator split back apart, provided the
      first two do not contain it; the last is a run of digits and cannot. */
  lemma FieldsOfLine(a: string, b: string, digits: string)
    requires forall k :: 0 <= k < |digits| ==> '0' <= digits[k] <= '9'
    ensures SeparatorFree(a, FieldSeparator) && SeparatorFree(b, FieldSeparator) ==>
      Split(a + FieldSeparator + b + FieldSeparator + digits, FieldSeparator) == [a, b, digits]
  {
    if SeparatorFree(a, FieldSeparator) && SeparatorFree(b, FieldSeparator) {
      forall i: nat | i < |digits|
        ensures !OccursAt(digits, FieldSeparator, i)
      {
        if i + |FieldSeparator| <= |digits| {
          assert digits[i..i + |FieldSeparator|][0] == digits[i];
        }
      }
      SplitAbsent(digits, FieldSeparator);
      SplitSeparated(b, FieldSeparator, digits);
      SplitSeparated(a, FieldSeparator, b + FieldSeparator + digits);
      assert a + FieldSeparator + b + FieldSeparator + digits == a + FieldSeparator + (b + FieldSeparator + digits);
    }
  }

  /** What one record of the stream does: a parse fault or a fallback fault
      stops the run, a late song is dropped, a kept song is emitted derived. */
  function Outcome(rec: Result<Song, Fault>, cutoffDay: int): (r: Result<Option<Song>, Fault>)
    ensures r == Success(None) <==> rec.Success? && !ReleasedBy(rec.value, cutoffDay)
    ensures r.Success? && r.value.Some? ==>
      rec.Success? && ReleasedBy(rec.value, cutoffDay) && Derive(rec.value, cutoffDay) == Success(r.value.value)
    ensures r.Failure? ==>
      || rec == Failure(r.error)
      || (rec.Success? && ReleasedBy(rec.value, cutoffDay) && Derive(rec.value, cutoffDay) == Failure(r.error))
  {
    match rec
    case Failure(e) => Failure(e)
    case Success(s) =>
      if !ReleasedBy(s, cutoffDay) then Success(None)
      else
        match Derive(s, cutoffDay)
        case Failure(e) => Failure(e)
        case Success(d) => Success(Some(d))
  }

  /** The songs written before the run ended, and the fault that ended it
      early, if any. */
  datatype Emission = Emission(songs: seq<Song>, fault: Option<Fault>)

  /** The `await foreach` loop of `Main` over the loaded records: every
      emitted song was released by the cutoff, and the run completes exactly
      when no record faults; otherwise it stops at the first faulting record. */
  function Rewrite(records: seq<Result<Song, Fault>>, cutoffDay: int): (r: Emission)
    ensures |r.songs| <= |records|
    ensures forall j :: 0 <= j < |r.songs| ==> ReleasedBy(r.songs[j], cutoffDay)
    ensures r.fault.None? <==>
      forall i :: 0 <= i < |records| ==> Outcome(records[i], cutoffDay).Success?
    ensures r.fault.Some? ==>
      exists k :: 0 <= k < |records| && Outcome(records[k], cutoffDay) == Failure(r.fault.value) &&
        forall i :: 0 <= i < k ==> Outcome(records[i], cutoffDay).Success?
    decreases |records|
  {
    if |records| == 0 then Emission([], None)
    else
      var rest := Rewrite(records[1..], cutoffDay);
      assert forall i :: 1 <= i < |records| ==> records[1..][i - 1] == records[i];
      match Outcome(records[0], cutoffDay)
      case Failure(e) => Emission([], Some(e))
      case Success(None) => rest
      case Success(Some(d)) => Emission([d] + rest.songs, rest.fault)
  }

  /** Streaming: the emission of a concatenated stream is the emission of
      its first part, followed, when that part ran without a fault, by the
      emission of the rest. Output written before a fault is never undone. */
  lemma {:induction false} RewriteAppend(a: seq<Result<Song, Fault>>, b: seq<Result<Song, Fault>>, cutoffDay: int)
    ensures var ra := Rewrite(a, cutoffDay);
            var rb := Rewrite(b, cutoffDay);
      Rewrite(a + b, cutoffDay) ==
        if ra.fault.Some? then ra else Emission(ra.songs + rb.songs, rb.fault)
    decreases |a|
  {
    if |a| == 0 {
      assert a + b == b;
    } else {
      assert (a + b)[0] == a[0];
      assert (a + b)[1..] == a[1..] + b;
      RewriteAppend(a[1..], b, cutoffDay);
      var ra' := Rewrite(a[1..], cutoffDay);
      var rb := Rewrite(b, cutoffDay);
      match Outcome(a[0], cutoffDay)
      case Failure(e) =>
      case Success(None) =>
      case Success(Some(d)) =>
        if ra'.fault.None? {
          assert [d] + (ra'.songs + rb.songs) == ([d] + ra'.songs) + rb.songs;
        }
    }
  }

  /** `d` is the derived form of a record of the stream released by the
      cutoff. */
  ghost predicate DerivedFromKept(records: seq<Result<Song, Fault>>, d: Song, cutoffDay: int)
  {
    exists i :: 0 <= i < |records| && records[i].Success? &&
      ReleasedBy(records[i].value, cutoffDay) &&
      Derive(records[i].value, cutoffDay) == Success(d)
  }

  /** Every emitted song is the derived form of a record of the stream that
      was released by the cutoff. */
  lemma {:induction false} RewriteSound(records: seq<Result<Song, Fault>>, cutoffDay: int)
    ensures forall j :: 0 <= j < |Rewrite(records, cutoffDay).songs| ==>
      DerivedFromKept(records, Rewrite(records, cutoffDay).songs[j], cutoffDay)
    decreases |records|
  {
    if |records| > 0 {
      RewriteSound(records[1..], cutoffDay);
      var r := Rewrite(records, cutoffDay);
      var rest := Rewrite(records[1..], cutoffDay);
      forall j | 0 <= j < |r.songs|
        ensures DerivedFromKept(records, r.songs[j], cutoffDay)
      {
        match Outcome(records[0], cutoffDay)
        case Failure(e) =>
        case Success(None) =>
          assert r == rest;
          DerivedFromTail(records, rest.songs[j], cutoffDay);
        case Success(Some(d)) =>
          assert r.songs == [d] + rest.songs;
          if j > 0 {
            assert r.songs[j] == rest.songs[j - 1];
            DerivedFromTail(records, rest.songs[j - 1], cutoffDay);
          }
      }
    }
  }

  /** A record of the tail of the stream is a record of the stream. */
  lemma DerivedFromTail(records: seq<Result<Song, Fault>>, d: Song, cutoffDay: int)
    requires |records| > 0 && DerivedFromKept(records[1..], d, cutoffDay)
    ensures DerivedFromKept(records, d, cutoffDay)
  {
    var i :| 0 <= i < |records[1..]| && records[1..][i].Success? &&
      ReleasedBy(records[1..][i].value, cutoffDay) &&
      Derive(records[1..][i].value, cutoffDay) == Success(d);
    assert records[i + 1] == records[1..][i];
  }

  /** A run without a fault emits the derived form of every record released
      by the cutoff. */
  lemma {:induction false} RewriteComplete(records: seq<Result<Song, Fault>>, cutoffDay: int)
    ensures var r := Rewrite(records, cutoffDay);
      r.fault.None? ==>
        forall i :: 0 <= i < |records| && records[i].Success? && ReleasedBy(records[i].value, cutoffDay) ==>
          Derive(records[i].value, cutoffDay).Success? && Derive(records[i].value, cutoffDay).value in r.songs
    decreases |records|
  {
    if |records| > 0 {
      RewriteComplete(records[1..], cutoffDay);
      var r := Rewrite(records, cutoffDay);
      var rest := Rewrite(records[1..], cutoffDay);
      if r.fault.None? {
        forall i | 0 <= i < |records| && records[i].Success? && ReleasedBy(records[i].value, cutoffDay)
          ensures Derive(records[i].value, cutoffDay).Success? && Derive(records[i].value, cutoffDay).value in r.songs
        {
          assert Outcome(records[i], cutoffDay).Success?;
          if i > 0 {
            assert records[i] == records[1..][i - 1];
          }
        }
      }
    }
  }

  /** What a run of Task 1 leaves behind: the output file's lines, and the
      fault that ended it early, if any. */
  datatype RunResult = RunResult(file: seq<string>, fault: Option<Fault>)

  /** The output file for the emitted songs: the header, then one line per
      song, in order. */
  function Render(songs: seq<Song>): (r: seq<string>)
    ensures |r| == 1 + |songs| && r[0] == OutputHeader
    ensures forall j :: 0 <= j < |songs| ==> r[j + 1] == FormatLine(songs[j])
  {
    [OutputHeader] + seq(|songs|, j requires 0 <= j < |songs| => FormatLine(songs[j]))
  }

  /** The filter runs without a fault exactly when every data line of the
      file parses and, if kept, derives. */
  lemma RunFaultFree(lines: seq<string>, parseCount: string -> Option<nat>,
                     parseDay: string -> Option<int>)
    ensures Rewrite(ParseRecords(lines, parseCount, parseDay), CutoffDay).fault.None? <==>
      forall k :: 0 < k < |lines| ==>
        Outcome(ParseSong(Split(lines[k], [Delimiter]), parseCount, parseDay), CutoffDay).Success?
  {
    var records := ParseRecords(lines, parseCount, parseDay);
    if forall k :: 0 < k < |lines| ==>
         Outcome(ParseSong(Split(lines[k], [Delimiter]), parseCount, parseDay), CutoffDay).Success?
    {
      forall i | 0 <= i < |records|
        ensures Outcome(records[i], CutoffDay).Success?
      {
        assert records[(i + 1) - 1] == ParseSong(Split(lines[i + 1], [Delimiter]), parseCount, parseDay);
      }
    }
  }

  /** `Main` of Task 1 on the lines of the input file: the header, then one
      formatted line per emitted song, streamed until the first fault.
      `parseCount` and `parseDay` stand for the library parsers. */
  function Run(lines: seq<string>, parseCount: string -> Option<nat>,
               parseDay: string -> Option<int>): (r: RunResult)
    ensures |r.file| >= 1 && r.file[0] == OutputHeader
    ensures |lines| >= 1 ==> |r.file| <= |lines|
    ensures r.fault.None? <==> forall k :: 0 < k < |lines| ==>
      Outcome(ParseSong(Split(lines[k], [Delimiter]), parseCount, parseDay), CutoffDay).Success?
    ensures var e := Rewrite(ParseRecords(lines, parseCount, parseDay), CutoffDay);
      && r.fault == e.fault
      && |r.file| == 1 + |e.songs|
      && forall j :: 0 <= j < |e.songs| ==> r.file[j + 1] == FormatLine(e.songs[j])
  {
    var records := ParseRecords(lines, parseCount, parseDay);
    var e := Rewrite(records, CutoffDay);
    RunFaultFree(lines, parseCount, parseDay);
    assert |e.songs| <= |records|;
    RunResult(Render(e.songs), e.fault)
  }
}
