/** `CsvLoader<T>.LoadData`: the line loader shared by the three programs.
    The file is the sequence of its lines; the loader's lazy stream is the
    sequence of records it would yield. */
module CsvLoader {
  import opened Text

  /** How many leading lines the loader skips in a file of `lineCount`
      lines: `headerRowCount` of them, none if it is negative, all of them
      if the file is shorter. */
  function HeaderSkip(lineCount: nat, headerRowCount: int): (k: nat)
    ensures k <= lineCount
  {
    if headerRowCount <= 0 then 0
    else if headerRowCount < lineCount then headerRowCount
    else lineCount
  }

  /** The loop of `LoadData` from line `i` on, with its `currentLine`
      counter: a line is skipped while `currentLine <= headerRowCount`, and
      every later line is split and handed to the parser. */
  function LoadFrom<T>(lines: seq<string>, parser: seq<string> -> T, devisor: char,
                       headerRowCount: int, i: nat, currentLine: int): (r: seq<T>)
    requires i <= |lines|
    requires currentLine == 1 + HeaderSkip(i, headerRowCount)
    ensures var start := if i < HeaderSkip(|lines|, headerRowCount)
                         then HeaderSkip(|lines|, headerRowCount) else i;
      && |r| == |lines| - start
      && forall j :: 0 <= j < |r| ==> r[j] == parser(Split(lines[start + j], [devisor]))
    decreases |lines| - i
  {
    if i == |lines| then []
    else if currentLine <= headerRowCount then
      LoadFrom(lines, parser, devisor, headerRowCount, i + 1, currentLine + 1)
    else
      [parser(Split(lines[i], [devisor]))]
        + LoadFrom(lines, parser, devisor, headerRowCount, i + 1, currentLine)
  }

  /** The records `LoadData` yields, in file order: the first
      `HeaderSkip` lines never reach the parser, and every later line gives
      exactly one record, the parse of its delimiter-split columns. */
  function LoadData<T>(lines: seq<string>, parser: seq<string> -> T, devisor: char,
                       headerRowCount: int): (r: seq<T>)
    ensures |r| == |lines| - HeaderSkip(|lines|, headerRowCount)
    ensures forall j :: 0 <= j < |r| ==>
      r[j] == parser(Split(lines[HeaderSkip(|lines|, headerRowCount) + j], [devisor]))
  {
    LoadFrom(lines, parser, devisor, headerRowCount, 0, 1)
  }
}
