/** Task 3: load the whole table into a list, then answer artist-name
    queries until the user types "0". */
module ArtistLookup {
  import opened Wrappers
  import opened Text
  import opened Songs

  /** The input that ends the session. */
  const ExitToken: string := "0"

  /** `LoadData(inPath).ToBlockingEnumerable().ToList()`: all records of the
      file in order, or the first parse fault, which ends the program before
      any query. */
  function LoadSongs(lines: seq<string>, parseCount: string -> Option<nat>,
                     parseDay: string -> Option<int>): (r: Result<seq<Song>, Fault>)
    ensures r.Success? <==> forall k :: 1 <= k < |lines| ==>
      ParseSong(Split(lines[k], [Delimiter]), parseCount, parseDay).Success?
    ensures r.Success? ==>
      && |r.value| == (if |lines| == 0 then 0 else |lines| - 1)
      && forall k :: 1 <= k < |lines| ==>
           ParseSong(Split(lines[k], [Delimiter]), parseCount, parseDay) == Success(r.value[k - 1])
  {
    var records := ParseRecords(lines, parseCount, parseDay);
    assert forall j :: 0 <= j < |records| ==> records[j] == records[(j + 1) - 1];
    Collect(records)
  }

  /** Position of the first song that lists `query` among its artists. */
  function FirstMatch(songs: seq<Song>, query: string): (r: Option<nat>)
    ensures r.Some? ==>
      && r.value < |songs|
      && query in songs[r.value].artists
      && forall j :: 0 <= j < r.value ==> query !in songs[j].artists
    ensures r.None? ==> forall j :: 0 <= j < |songs| ==> query !in songs[j].artists
    decreases |songs|
  {
    if |songs| == 0 then None
    else if query in songs[0].artists then Some(0)
    else
      match FirstMatch(songs[1..], query)
      case None => None
      case Some(i) => Some(i + 1)
  }

  /** `songs.FirstOrDefault(x => x.ArtistsName.Any(a => a == query))`: the
      first song, in list order, with an artist exactly equal to the query;
      nothing when no song has one. */
  function FindByArtist(songs: seq<Song>, query: string): (r: Option<Song>)
    ensures r.None? <==> forall i :: 0 <= i < |songs| ==> query !in songs[i].artists
    ensures r.Some? ==> query in r.value.artists
    ensures r.Some? ==> exists i :: 0 <= i < |songs| && songs[i] == r.value &&
                                  forall j :: 0 <= j < i ==> query !in songs[j].artists
  {
    match FirstMatch(songs, query)
    case None => None
    case Some(i) => Some(songs[i])
  }

  /** What the program prints in answer to one query. */
  datatype Reply = Found(artist: string, track: string) | NothingFound

  /** The answer to one non-exit query. */
  function Answer(songs: seq<Song>, query: string): (r: Reply)
    ensures r.Found? <==> exists i :: 0 <= i < |songs| && query in songs[i].artists
    ensures r.Found? ==> r.artist == query
    ensures r.Found? ==> exists i :: 0 <= i < |songs| && query in songs[i].artists && r.track == songs[i].name &&
                                  forall j :: 0 <= j < i ==> query !in songs[j].artists
  {
    match FindByArtist(songs, query)
    case None => NothingFound
    case Some(s) => Found(query, s.name)
  }

  /** The reads the loop looks up: the non-null ones before the first exit
      token, in order. */
  function Queries(inputs: seq<Option<string>>): (q: seq<string>)
    ensures |q| <= |inputs|
    ensures forall k :: 0 <= k < |q| ==> q[k] != ExitToken && Some(q[k]) in inputs
    decreases |inputs|
  {
    if |inputs| == 0 then []
    else
      match inputs[0]
      case None => Queries(inputs[1..])
      case Some(q) =>
        if q == ExitToken then [] else [q] + Queries(inputs[1..])
  }

  /** The prompt loop of `Main` over the successive `Console.ReadLine`
      results (`None` is a null read): a null read prompts again without a
      lookup, the exit token ends the loop without a lookup, and any other
      input is answered. The model stops when the inputs run out. */
  function Session(songs: seq<Song>, inputs: seq<Option<string>>): (r: seq<Reply>)
    ensures |r| == |Queries(inputs)|
    ensures forall k :: 0 <= k < |r| ==> r[k] == Answer(songs, Queries(inputs)[k])
    decreases |inputs|
  {
    if |inputs| == 0 then []
    else
      match inputs[0]
      case None => Session(songs, inputs[1..])
      case Some(q) =>
        if q == ExitToken then []
        else [Answer(songs, q)] + Session(songs, inputs[1..])
  }

  /** A session runs through the inputs before an exit token one after
      another: their replies come first, in order, then the rest's. */
  lemma {:induction false} SessionAppend(songs: seq<Song>, pre: seq<Option<string>>, post: seq<Option<string>>)
    requires Some(ExitToken) !in pre
    ensures Session(songs, pre + post) == Session(songs, pre) + Session(songs, post)
    decreases |pre|
  {
    if |pre| == 0 {
      assert pre + post == post;
    } else {
      assert (pre + post)[0] == pre[0];
      assert (pre + post)[1..] == pre[1..] + post;
      assert pre[0] != Some(ExitToken);
      assert pre[1..] + [] == pre[1..];
      SessionAppend(songs, pre[1..], post);
      match pre[0]
      case None =>
      case Some(q) =>
        assert [Answer(songs, q)] + (Session(songs, pre[1..]) + Session(songs, post))
            == ([Answer(songs, q)] + Session(songs, pre[1..])) + Session(songs, post);
    }
  }

  /** The first exit token ends the session: nothing after it is looked up. */
  lemma SessionStopsAtExit(songs: seq<Song>, pre: seq<Option<string>>, post: seq<Option<string>>)
    requires Some(ExitToken) !in pre
    ensures Session(songs, pre + [Some(ExitToken)] + post) == Session(songs, pre)
  {
    SessionAppend(songs, pre, [Some(ExitToken)] + post);
    assert pre + [Some(ExitToken)] + post == pre + ([Some(ExitToken)] + post);
  }

  /** A null read anywhere before the exit token is skipped: it produces no
      reply and changes none of the others. */
  lemma SessionSkipsNull(songs: seq<Song>, pre: seq<Option<string>>, post: seq<Option<string>>)
    requires Some(ExitToken) !in pre
    ensures Session(songs, pre + [None] + post) == Session(songs, pre + post)
  {
    SessionAppend(songs, pre, [None] + post);
    SessionAppend(songs, pre, post);
    assert pre + [None] + post == pre + ([None] + post);
    assert ([None] + post)[1..] == post;
  }

  /** A query other than the exit token is answered with one reply. */
  lemma SessionAnswersQuery(songs: seq<Song>, pre: seq<Option<string>>, q: string, post: seq<Option<string>>)
    requires Some(ExitToken) !in pre && q != ExitToken
    ensures Session(songs, pre + [Some(q)] + post) ==
            Session(songs, pre) + [Answer(songs, q)] + Session(songs, post)
  {
    var rest := [Some(q)] + post;
    assert pre + [Some(q)] + post == pre + rest;
    SessionAppend(songs, pre, rest);
    assert rest[0] == Some(q) && rest[1..] == post;
    assert Session(songs, rest) == [Answer(songs, q)] + Session(songs, post);
  }
}
