# Song table tools: a Dafny model

Three small C# console programs read the same `;`-delimited song table
(`streams;artist_name;track_name;date`, one header line) through one generic
line loader, `CsvLoader<T>.LoadData`, and a shared row parser that builds a
`Song` record. Each program then makes one pass over the records:

- **Task 1** keeps the songs released on or before 1 January 2002. It
  replaces a zero view count by a fallback estimate: elapsed days divided
  by the name lengths, times 10000. It then writes one
  `name - first artist - views` line per kept song after a header line.
- **Task 3** loads the whole table into a list. It then answers artist-name
  queries with the first song listing that artist, until the user types `0`.
- **Task 4** sorts every artist name, once each, into two lists. Names
  containing a lower-case Russian letter go to one list and all others to
  the other.

The model is built from immutable datatypes and functions on sequences:

- The input file is a `seq<string>` of its lines.
- The loader's lazy stream is the sequence of records it would yield.
- Console input is a sequence of `Option<string>` reads, where `None` is a null read.
- Outputs are returned sequences.

Every exception the programs can throw on their data is a `Fault`.
Examples are a short row, an unparsable count or date, and a zero divisor
in the fallback formula. A run that hits one is modelled as stopping there:

- Task 1 streams its output, so the lines written before the fault are kept.
- Task 3 and Task 4 end before producing any answer or list.

Modules:

- `Wrappers`: `Option` and `Result`.
- `Text`: `String.Split`, `String.Join` and the decimal rendering of a count.
- `Sequences`: filtering and first-appearance deduplication.
- `Songs`: the record, the row parser and the materialisation of a stream.
- `CsvLoader`: the shared loader.
- `FilterDerive`: Task 1.
- `ArtistLookup`: Task 3.
- `AlphabetPartition`: Task 4.

Dates are `DateOnly.DayNumber` values, the days since 0001-01-01 in the
proleptic Gregorian calendar. The cutoff is `FilterDerive.CutoffDay`, which
is the day number of 2002-01-01 (730850). The pipeline functions also take
the cutoff as a parameter.

Two behaviours of the code worth noting:

- The fallback view count is not always positive. A song released fewer days
  before the cutoff than its names have characters gets 0. See
  `FallbackCanBeZero`.
- The classification only looks for the 33 lower-case letters. A name written
  only in upper-case Russian letters, such as "ДДТ", is classified as foreign.
  See `UpperCaseOnlyIsForeign`.

Values are immutable, so the Task 3 lookup cannot change the loaded list.

## Model

| member | source | states |
|---|---|---|
| Text.Split | Task1/Program.cs:50 | `String.Split` always yields at least one piece, so the first artist of a parsed song always exists |
| Text.SplitAbsent | Task1/Program.cs:73 | a string in which the separator does not occur is not cut: `Split` gives the one-piece list of it |
| Text.SplitSeparated | Task1/Program.cs:73 | a field in which no occurrence of the separator starts, followed by the separator, is the first piece, and the rest is split on its own; with `SplitAbsent` this fixes `Split` as the left-to-right, non-overlapping cut |
| Text.SplitOnChar | Task1/Program.cs:50 | splitting a line on the one-character delimiter gives one more column than the delimiter occurs, and no column contains the delimiter |
| Text.JoinSplit | Task1/Program.cs:73 | joining the pieces of a split with the same separator gives back the original string, for every string and separator |
| Text.JoinLength | Task1/Program.cs:105 | a join of n ≥ 1 parts is as long as the parts plus n − 1 separators |
| Text.NatToString | Task1/Program.cs:95 | the printed view count is a non-empty run of decimal digits, without a leading zero, whose value is the count |
| CsvLoader.LoadData | Task1/Program.cs:31-54 | the first min(max(0, HeaderRowCount), line count) lines never reach the parser; every later line yields exactly one record, in file order, and record j is the parse of line skip + j split on the delimiter |
| Songs.ParseSong | Task1/Program.cs:73 | a row parses exactly when it has at least four columns (extra columns are ignored) and both the count and the date parse; the song takes its name from column 2, its count from column 0 and its day from column 3, and its artists are column 1 split on " & " (`Text.Split`), and joining them gives the column back; the fault is the one C#'s left-to-right argument evaluation raises first |
| Songs.ParseRecords | Task3/Program.cs:73 | the loader configured as all three programs use it: line k ≥ 1 of the file becomes record k − 1, the parse of its `;`-split columns |
| Songs.Collect | Task3/Program.cs:75 | materialising the stream gives every record's value in order exactly when no record faulted, and otherwise the first fault |
| Songs.CollectFaultPersists | Task3/Program.cs:75 | once a prefix of the stream has faulted, the whole stream fails with that same fault |
| Songs.NewYearDayNumber | Task1/Program.cs:67 | the day number of 1 January of a year lies between 365 and 366 days per elapsed year |
| Songs.NewYearDayNumberStep | Task1/Program.cs:67 | year 1 starts on day 0 and each year adds 365 days, or 366 in a Gregorian leap year (divisible by 4, and by 400 if a century) |
| FilterDerive.CutoffDayValue | Task1/Program.cs:67 | the cutoff, 1 January 2002, is day 730850 |
| FilterDerive.TruncDiv | Task1/Program.cs:116 | C#'s `int` division rounds toward zero: the quotient's magnitude is the quotient of the magnitudes and its sign is the product of the signs |
| FilterDerive.NormalizeArtistName | Task1/Program.cs:100-106 | the single-artist shortcut agrees with the general case: the result is always the artists joined with " & " |
| FilterDerive.NormalizeArtistNameLength | Task1/Program.cs:100-106 | the normalised artist string is as long as the names plus three characters between each pair of neighbours |
| FilterDerive.NormalizeArtistNameOfSplit | Task1/Program.cs:73 | normalising the artists split off a column gives back the column |
| FilterDerive.FallbackViewCount | Task1/Program.cs:114-117 | the fallback fails with a division by zero exactly when the names have no characters; otherwise it is ⌊\|base − release\| / name characters⌋ × 10000, a multiple of 10000 |
| FilterDerive.Derive | Task1/Program.cs:88-93 | a non-zero count is kept unchanged and only a zero count triggers the fallback; name, artists and release day never change; for a kept song the fallback is ⌊(cutoff − release) / name characters⌋ × 10000, because `Math.Abs` has nothing to do |
| FilterDerive.FallbackExample | Task1/Program.cs:116 | track "A", artist "B", released on day 100 with cutoff day 200 gives 500000 |
| FilterDerive.FallbackCanBeZero | Task1/Program.cs:116 | fewer elapsed days than name characters give a fallback of 0 |
| FilterDerive.Outcome | Task1/Program.cs:82-95 | one record either faults (a parse fault, or a fallback fault on a kept song), is dropped exactly when it parsed and was released after the cutoff, or is emitted as its derived form |
| FilterDerive.Rewrite | Task1/Program.cs:82-96 | every emitted song was released on or before the cutoff; the run completes exactly when no record faults, and otherwise stops at the first faulting record |
| FilterDerive.RewriteAppend | Task1/Program.cs:82-96 | output is streamed: a stream's emission is its first part's emission, followed by the rest's when the first part ran without a fault; output written before a fault stays |
| FilterDerive.RewriteSound | Task1/Program.cs:84-95 | every emitted song is the derived form of a parsed record released by the cutoff |
| FilterDerive.RewriteComplete | Task1/Program.cs:84-95 | a run without a fault emits the derived form of every parsed record released by the cutoff |
| FilterDerive.FormatLine | Task1/Program.cs:95 | an output line is name, first artist and view count separated by " - ": when no occurrence of " - " starts inside the name or inside the first artist, counting one that runs on into the separator written after it (a name ending in " -" is cut early), cutting the line at " - " gives back exactly those three fields, the count as its decimal digits |
| FilterDerive.RunFaultFree | Task1/Program.cs:82-96 | the filter runs without a fault exactly when every data line parses and, if kept, derives |
| FilterDerive.Run | Task1/Program.cs:60-98 | the output file is the header followed by exactly one formatted line per emitted song, in order, so it has no more lines than the input; the run's fault is the filter's first fault, and there is none exactly when every data line parses and derives |
| ArtistLookup.LoadSongs | Task3/Program.cs:73-75 | the loaded list holds one song per data line, in file order, exactly when every data line parses |
| ArtistLookup.FirstMatch | Task3/Program.cs:98 | the position found is that of the first song listing the query among its artists; nothing is found exactly when no song lists it |
| ArtistLookup.FindByArtist | Task3/Program.cs:98-106 | the result is "not found" exactly when no song lists the query; a found song lists the query exactly, and no earlier song does |
| ArtistLookup.Answer | Task3/Program.cs:98-108 | a query is answered with a song exactly when some song lists it; the answer names the query and reports the track name of the first song listing it |
| ArtistLookup.Session | Task3/Program.cs:84-112 | the replies are, in order, the answers to the non-null reads before the first "0", one per read |
| ArtistLookup.SessionAppend | Task3/Program.cs:84-112 | the inputs before an exit token are answered one after another, in order |
| ArtistLookup.SessionStopsAtExit | Task3/Program.cs:88 | the first "0" ends the session, with no lookup for it or anything after it |
| ArtistLookup.SessionSkipsNull | Task3/Program.cs:91-96 | a null read re-prompts: it gives no reply and changes none of the others |
| ArtistLookup.SessionAnswersQuery | Task3/Program.cs:98-111 | any other input is answered with exactly one reply, in its place |
| AlphabetPartition.ArtistNames | Task4/Program.cs:74-76 | the names the loops visit are exactly the artists of the songs |
| AlphabetPartition.ArtistNamesConcat | Task4/Program.cs:74-76 | the names are visited song by song: the names of two runs of songs are the first run's names followed by the second's |
| AlphabetPartition.IsRussian | Task4/Program.cs:81 | the left-to-right `Any` scan is true exactly when some character of the name is a letter of the alphabet |
| AlphabetPartition.Place | Task4/Program.cs:78-87 | one inner-loop step only appends; a name already in either list changes nothing; a new name lands in the Russian list exactly when it has a Russian letter and in the foreign list exactly when it has none, adding one entry |
| AlphabetPartition.ReferencePartitionWellPartitioned | Task4/Program.cs:74-94 | deduplicating then splitting by classification gives lists with no duplicates; a name is in the Russian list iff it contains a Russian letter and in the foreign list iff it does not; every name is in exactly one list; both lists follow first appearance; together they hold one entry per distinct name |
| AlphabetPartition.ReferencePartitionStep | Task4/Program.cs:78-87 | a name is already in one of the lists exactly when it was seen before; a seen name changes nothing, a new one is appended to the list its classification picks |
| AlphabetPartition.ClassifyArtists | Task4/Program.cs:76-89 | the inner loop over one song's artists leaves the lists equal to the reference partition of all names seen so far |
| AlphabetPartition.PartitionArtists | Task4/Program.cs:74-91 | the loop fails exactly when loading faults, with the first fault; otherwise its lists equal the reference partition of all artist names, the lists `ReferencePartitionWellPartitioned` describes |
| AlphabetPartition.RussianAlphabetSize | Task4/Program.cs:71 | the reference alphabet has 33 distinct letters |
| AlphabetPartition.UpperCaseOnlyIsForeign | Task4/Program.cs:81 | classification sees only lower-case letters: "ДДТ" is foreign, "Дима" is Russian |

## Left out

- File and console I/O are not modelled: reading and writing files, prompts and messages, and `File.AppendAllLinesAsync`. The Task 4 files are appended to whatever they already hold; the model returns only the new lines, and the printed counts are the list lengths.
- Asynchronous streaming (`IAsyncEnumerable`, `ToBlockingEnumerable`) is left out. The loader is sequential and is modelled as a function on the lines.
- The loader's skip of a null line is left out. `ReadLineAsync` returns null only at end of stream, which the loop guard already excludes, so the lines are never null.
- `ulong.Parse` and `DateOnly.Parse` are culture-dependent library code. They are parameters of the model, and the parsed day number is any integer.
- The `Stopwatch` timing, command-line defaults and resource disposal are not modelled, because none affects the data.
- FilterDerive.FallbackViewCount: does not model `ulong` wrap-around, `int` overflow of the day difference, or `Math.Abs(int.MinValue)`, because day numbers stay below 3.7 million and the products stay far below 2^64.
- FilterDerive.NameLengths: counts Dafny characters (Unicode scalar values), while C# `Length` counts UTF-16 code units. The two differ only for characters outside the Basic Multilingual Plane.
- ArtistLookup.Session: ends when the modelled inputs run out. At end of input `Console.ReadLine` returns null forever, so the source keeps prompting and never ends.
- ArtistLookup.FindByArtist: the source compares the result with `default(Song)`. A found song always has a non-null artist array, so it never equals `default`, and the comparison is modelled as `None`.
- AlphabetPartition.IsRussian: the source calls `russianAlphabet.contains(x)` in lower case, which is not a .NET method and would not compile. The model uses the evident intent, `Contains`: character membership in the alphabet.
