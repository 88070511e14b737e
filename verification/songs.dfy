/** The `Song` record shared by the three programs, the row parser they all
    hand to the loader, and the faults a run can stop on. */
module Songs {
  import opened Wrappers
  import opened Text
  import CsvLoader

  /** Separator inside the `artist_name` column. */
  const ArtistSeparator: string := " & "

  /** Column delimiter of the input table. */
  const Delimiter: char := ';'

  /** Number of header lines at the top of the input table. */
  const HeaderRows: int := 1

  /** A list of artist names. `String.Split` never returns an empty array, so
      every list the parser builds has at least one entry. */
  type ArtistList = a: seq<string> | |a| >= 1 witness [""]

  /** One row of the table. The release date is its `DateOnly.DayNumber`:
      days since 0001-01-01 in the proleptic Gregorian calendar. */
  datatype Song = Song(name: string, artists: ArtistList, viewCount: nat, releaseDay: int)

  /** The exceptions that end a run. */
  datatype Fault =
    | MissingColumn   // IndexOutOfRangeException on a short row
    | BadViewCount    // ulong.Parse rejected the `streams` column
    | BadDate         // DateOnly.Parse rejected the `date` column
    | DivideByZero    // the fallback formula's divisor was zero

  /** The parser of `streams;artist_name;track_name;date` rows. `parseCount`
      and `parseDay` stand for `ulong.Parse` and `DateOnly.Parse`(...).DayNumber.
      Arguments are read in the order C# evaluates them: the name, the
      artists, the count, then the date, so the first failing step decides
      the fault. */
  function ParseSong(cols: seq<string>, parseCount: string -> Option<nat>,
                     parseDay: string -> Option<int>): (r: Result<Song, Fault>)
    ensures r.Success? <==>
      |cols| >= 4 && parseCount(cols[0]).Some? && parseDay(cols[3]).Some?
    ensures r.Success? ==>
      && r.value.name == cols[2]
      && r.value.artists == Split(cols[1], ArtistSeparator)
      && Join(ArtistSeparator, r.value.artists) == cols[1]
      && r.value.viewCount == parseCount(cols[0]).value
      && r.value.releaseDay == parseDay(cols[3]).value
    ensures r.Failure? && |cols| < 3 ==> r.error == MissingColumn
    ensures r.Failure? && |cols| >= 3 && parseCount(cols[0]).None? ==> r.error == BadViewCount
    ensures r.Failure? && |cols| == 3 && parseCount(cols[0]).Some? ==> r.error == MissingColumn
    ensures r.Failure? && |cols| >= 4 && parseCount(cols[0]).Some? ==> r.error == BadDate
  {
    if |cols| < 3 then Failure(MissingColumn)
    else
      var name := cols[2];
      var artists := Split(cols[1], ArtistSeparator);
      JoinSplit(cols[1], ArtistSeparator);
      match parseCount(cols[0])
      case None => Failure(BadViewCount)
      case Some(count) =>
        if |cols| < 4 then Failure(MissingColumn)
        else
          match parseDay(cols[3])
          case None => Failure(BadDate)
          case Some(day) => Success(Song(name, artists, count, day))
  }

  /** The loader as all three programs configure it: `;`-delimited, one
      header line, rows parsed by `ParseSong`. Line `k >= 1` of the file gives
      record `k - 1`. */
  function ParseRecords(lines: seq<string>, parseCount: string -> Option<nat>,
                        parseDay: string -> Option<int>): (r: seq<Result<Song, Fault>>)
    ensures |r| == if |lines| == 0 then 0 else |lines| - 1
    ensures forall k :: 1 <= k < |lines| ==>
      r[k - 1] == ParseSong(Split(lines[k], [Delimiter]), parseCount, parseDay)
  {
    var r := CsvLoader.LoadData(lines, cols => ParseSong(cols, parseCount, parseDay),
                                Delimiter, HeaderRows);
    assert CsvLoader.HeaderSkip(|lines|, HeaderRows) == if |lines| == 0 then 0 else 1;
    r
  }

  /** Materialising a stream of parse results: every value in order, or the
      first fault. */
  function Collect<T, E>(rs: seq<Result<T, E>>): (r: Result<seq<T>, E>)
    ensures r.Success? <==> forall i :: 0 <= i < |rs| ==> rs[i].Success?
    ensures r.Success? ==> |r.value| == |rs| && forall i :: 0 <= i < |rs| ==> r.value[i] == rs[i].value
    ensures r.Failure? ==> exists k :: 0 <= k < |rs| && rs[k] == Failure(r.error) &&
                                   forall i :: 0 <= i < k ==> rs[i].Success?
    decreases |rs|
  {
    if |rs| == 0 then Success([])
    else
      var init := rs[..|rs| - 1];
      assert forall i :: 0 <= i < |init| ==> init[i] == rs[i];
      match Collect(init)
      case Failure(e) => Failure(e)
      case Success(vs) =>
        match rs[|rs| - 1]
        case Failure(e) => Failure(e)
        case Success(v) => Success(vs + [v])
  }

  /** Once a prefix of the stream has faulted, the whole stream faults with
      the same error. */
  lemma {:induction false} CollectFaultPersists<T, E>(rs: seq<Result<T, E>>, n: nat)
    requires n <= |rs| && Collect(rs[..n]).Failure?
    ensures Collect(rs) == Collect(rs[..n])
    decreases |rs| - n
  {
    if n < |rs| {
      assert rs[..n + 1][..n] == rs[..n];
      CollectFaultPersists(rs, n + 1);
    } else {
      assert rs[..n] == rs;
    }
  }

  /** One more record of the stream: a value extends the collected prefix,
      a fault is the fault of the whole stream. */
  lemma CollectStep<T, E>(rs: seq<Result<T, E>>, i: nat, vs: seq<T>)
    requires i < |rs| && Collect(rs[..i]) == Success(vs)
    ensures rs[i].Success? ==> Collect(rs[..i + 1]) == Success(vs + [rs[i].value])
    ensures rs[i].Failure? ==> Collect(rs) == Failure(rs[i].error)
  {
    assert rs[..i + 1][..i] == rs[..i];
    if rs[i].Failure? {
      CollectFaultPersists(rs, i + 1);
    }
  }

  /** `new DateOnly(year, 1, 1).DayNumber`: the days of the Gregorian years
      before `year`, counting a leap day every fourth year except centuries
      not divisible by 400. */
  function NewYearDayNumber(year: int): (r: int)
    requires year >= 1
    ensures 365 * (year - 1) <= r <= 366 * (year - 1)
  {
    var y := year - 1;
    365 * y + y / 4 - y / 100 + y / 400
  }

  /** A Gregorian leap year: divisible by 4, and by 400 if a century. */
  predicate IsLeapYear(year: int)
  {
    year % 4 == 0 && (year % 100 != 0 || year % 400 == 0)
  }

  /** Each year adds 365 days, or 366 in a leap year; year 1 starts on day 0. */
  lemma NewYearDayNumberStep(year: int)
    requires year >= 1
    ensures NewYearDayNumber(1) == 0
    ensures NewYearDayNumber(year + 1) == NewYearDayNumber(year) + if IsLeapYear(year) then 366 else 365
  {
    assert NewYearDayNumber(1) == 0;
    var before := NewYearDayNumber(year);
    var after := NewYearDayNumber(year + 1);
    assert before == 365 * (year - 1) + (year - 1) / 4 - (year - 1) / 100 + (year - 1) / 400;
    assert after == 365 * year + year / 4 - year / 100 + year / 400;
    MultiplesStep4(year);
    MultiplesStep100(year);
    MultiplesStep400(year);
    LeapDay(year);
  }

  /** The three divisibility tests add up to the leap day. */
  lemma LeapDay(year: int)
    ensures (if year % 4 == 0 then 1 else 0) - (if year % 100 == 0 then 1 else 0) +
            (if year % 400 == 0 then 1 else 0) == if IsLeapYear(year) then 1 else 0
  {
    if year % 100 == 0 {
      DivisorOfMultiple(year, 4, 25);
      if year % 400 == 0 {
        DivisorOfMultiple(year, 100, 4);
      }
    }
  }

  /** A multiple of `d * k` is a multiple of `d`. */
  lemma DivisorOfMultiple(n: int, d: int, k: int)
    requires d > 0 && k > 0 && n % (d * k) == 0
    ensures n % d == 0
  {
    var m := n / (d * k);
    assert n == (d * k) * m;
    assert n == d * (k * m);
  }

  /* Solver hints for `NewYearDayNumberStep`: moving from `year - 1` to
     `year` passes one more multiple of the divisor exactly when `year` is
     one. */

  lemma MultiplesStep4(year: int)
    ensures year / 4 - (year - 1) / 4 == if year % 4 == 0 then 1 else 0
  {
  }

  lemma MultiplesStep100(year: int)
    ensures year / 100 - (year - 1) / 100 == if year % 100 == 0 then 1 else 0
  {
  }

  lemma MultiplesStep400(year: int)
    ensures year / 400 - (year - 1) / 400 == if year % 400 == 0 then 1 else 0
  {
  }
}
