/** Task 4: sort every artist name of the table, once each, into the names
    written with at least one lower-case Russian letter and all the others. */
module AlphabetPartition {
  import opened Wrappers
  import opened Songs
  import opened Sequences

  /** The 33 lower-case letters of the Russian alphabet. */
  const RussianAlphabet: string := "абвгдеёжзийклмнопрстуфхцчшщъыьэюя"

  /** `artist.Any(x => russianAlphabet.Contains(x))`, scanning the name
      from the left: true exactly when some character of the name is one of
      the alphabet's letters. */
  predicate IsRussian(name: string)
    ensures IsRussian(name) <==> exists k :: 0 <= k < |name| && name[k] in RussianAlphabet
    decreases |name|
  {
    if |name| == 0 then false
    else
      assert forall k :: 0 <= k < |name| - 1 ==> name[1..][k] == name[k + 1];
      name[0] in RussianAlphabet || IsRussian(name[1..])
  }

  predicate IsForeign(name: string)
  {
    !IsRussian(name)
  }

  /** The artist names of the songs, song by song, each song's artists in
      their listed order, repeats included. */
  function ArtistNames(songs: seq<Song>): (r: seq<string>)
    ensures forall i, k :: 0 <= i < |songs| && 0 <= k < |songs[i].artists| ==> songs[i].artists[k] in r
    ensures forall k :: 0 <= k < |r| ==> exists i :: 0 <= i < |songs| && r[k] in songs[i].artists
    decreases |songs|
  {
    if |songs| == 0 then []
    else
      var init := songs[..|songs| - 1];
      assert forall i :: 0 <= i < |init| ==> init[i] == songs[i];
      ArtistNames(init) + songs[|songs| - 1].artists
  }

  /** The names of consecutive runs of songs follow each other. */
  lemma {:induction false} ArtistNamesConcat(a: seq<Song>, b: seq<Song>)
    ensures ArtistNames(a + b) == ArtistNames(a) + ArtistNames(b)
    decreases |b|
  {
    if |b| == 0 {
      assert a + b == a;
    } else {
      var init := b[..|b| - 1];
      var last := b[|b| - 1];
      assert b == init + [last];
      ArtistNamesConcat(a, init);
      ArtistNamesConcatStep(a, init, last);
    }
  }

  /** The inductive step of `ArtistNamesConcat`: one more song at the end. */
  lemma ArtistNamesConcatStep(a: seq<Song>, init: seq<Song>, last: Song)
    requires ArtistNames(a + init) == ArtistNames(a) + ArtistNames(init)
    ensures ArtistNames(a + (init + [last])) == ArtistNames(a) + ArtistNames(init + [last])
  {
    assert a + (init + [last]) == (a + init) + [last];
    calc {
      ArtistNames((a + init) + [last]);
      { ArtistNamesAppend(a + init, last); }
      ArtistNames(a + init) + last.artists;
      ArtistNames(a) + ArtistNames(init) + last.artists;
      ArtistNames(a) + (ArtistNames(init) + last.artists);
      { ArtistNamesAppend(init, last); }
      ArtistNames(a) + ArtistNames(init + [last]);
    }
  }

  /** The names of one more song follow the names of the songs before it. */
  lemma ArtistNamesAppend(songs: seq<Song>, s: Song)
    ensures ArtistNames(songs + [s]) == ArtistNames(songs) + s.artists
  {
    assert (songs + [s])[..|songs|] == songs;
  }

  /** The two output lists. */
  datatype Buckets = Buckets(russian: seq<string>, foreign: seq<string>)

  /** What the partition promises about the names it was given: neither
      list repeats a name, a listed name is one of the given names, every
      given name is in the Russian list exactly when it has a Russian letter
      and in the foreign list exactly when it has none (so in exactly one),
      both lists follow the order of first appearance, and together they
      hold one entry per distinct name. */
  ghost predicate WellPartitioned(b: Buckets, names: seq<string>)
  {
    && NoDuplicates(b.russian)
    && NoDuplicates(b.foreign)
    && (forall k :: 0 <= k < |b.russian| ==> b.russian[k] in names && IsRussian(b.russian[k]))
    && (forall k :: 0 <= k < |b.foreign| ==> b.foreign[k] in names && IsForeign(b.foreign[k]))
    && (forall k :: 0 <= k < |names| ==> (names[k] in b.russian <==> IsRussian(names[k])))
    && (forall k :: 0 <= k < |names| ==> (names[k] in b.foreign <==> IsForeign(names[k])))
    && InFirstAppearanceOrder(b.russian, names)
    && InFirstAppearanceOrder(b.foreign, names)
    && |b.russian| + |b.foreign| == |set n | n in names|
  }

  /** The reference partition: deduplicate in order of first appearance,
      then split by the classification. */
  function ReferencePartition(names: seq<string>): Buckets
  {
    var d := Distinct(names);
    Buckets(Filter(IsRussian, d), Filter(IsForeign, d))
  }

  /** The reference partition has every promised property. */
  lemma ReferencePartitionWellPartitioned(names: seq<string>)
    ensures WellPartitioned(ReferencePartition(names), names)
  {
    var d := Distinct(names);
    var b := ReferencePartition(names);
    DistinctOrder(names);
    FilterOrder(IsRussian, d, names);
    FilterOrder(IsForeign, d, names);
    FirstAppearanceOrderNoDuplicates(b.russian, names);
    FirstAppearanceOrderNoDuplicates(b.foreign, names);
    FilterComplementLength(IsRussian, IsForeign, d);
    DistinctCardinality(names);
    forall k | 0 <= k < |names|
      ensures names[k] in b.russian <==> IsRussian(names[k])
      ensures names[k] in b.foreign <==> IsForeign(names[k])
    {
      assert names[k] in d;
    }
  }

  /** One step of the loop on the reference side: a name already seen is
      in one of the lists and changes nothing; a new name is appended to the
      list its classification picks. */
  lemma ReferencePartitionStep(names: seq<string>, a: string, b: Buckets)
    requires b == ReferencePartition(names)
    ensures a in b.russian || a in b.foreign <==> a in names
    ensures ReferencePartition(names + [a]) == Place(b, a)
  {
    var d := Distinct(names);
    DistinctAppend(names, a);
    FilterAppend(IsRussian, d, a);
    FilterAppend(IsForeign, d, a);
    if a in names {
      assert a in d;
    }
  }

  /** One pass of the inner loop's body: a name already in either list is
      skipped, a new name goes to the Russian list if it has a Russian letter
      and to the foreign list otherwise. */
  function Place(b: Buckets, name: string): (r: Buckets)
    ensures b.russian <= r.russian && b.foreign <= r.foreign
    ensures name in r.russian || name in r.foreign
    ensures name in b.russian || name in b.foreign ==> r == b
    ensures !(name in b.russian || name in b.foreign) ==>
      && (name in r.russian <==> IsRussian(name))
      && (name in r.foreign <==> IsForeign(name))
      && |r.russian| + |r.foreign| == |b.russian| + |b.foreign| + 1
  {
    if name in b.foreign || name in b.russian then b
    else if IsRussian(name) then Buckets(b.russian + [name], b.foreign)
    else Buckets(b.russian, b.foreign + [name])
  }

  /** The inner loop over one song's artists: a name already in either list
      is skipped, a new name goes to the Russian list if it has a Russian
      letter and to the foreign list otherwise. */
  method ClassifyArtists(b: Buckets, ghost names: seq<string>, artists: seq<string>) returns (r: Buckets)
    requires b == ReferencePartition(names)
    ensures r == ReferencePartition(names + artists)
  {
    var russian, foreign := b.russian, b.foreign;
    ghost var seen := names;
    var j := 0;
    while j < |artists|
      invariant 0 <= j <= |artists|
      invariant Extends(seen, names, artists, j)
      invariant Buckets(russian, foreign) == ReferencePartition(seen)
    {
      var artist := artists[j];
      ReferencePartitionStep(seen, artist, Buckets(russian, foreign));
      var next := Place(Buckets(russian, foreign), artist);
      russian, foreign := next.russian, next.foreign;
      ExtendsStep(seen, names, artists, j);
      seen := seen + [artist];
      j := j + 1;
    }
    ExtendsAll(seen, names, artists);
    r := Buckets(russian, foreign);
  }

  /** The loop of `Main` over the loaded records: every artist of every song
      is classified once, and the lists are the reference partition of all
      artist names, so `ReferencePartitionWellPartitioned` applies to them.
      A parse fault ends the program before the lists are written. */
  method PartitionArtists(records: seq<Result<Song, Fault>>) returns (r: Result<Buckets, Fault>)
    ensures r.Failure? <==> Collect(records).Failure?
    ensures r.Failure? ==> r.error == Collect(records).error
    ensures r.Success? ==> r.value == ReferencePartition(ArtistNames(Collect(records).value))
  {
    var b := Buckets([], []);
    ghost var seen: seq<Song> := [];
    var i := 0;
    while i < |records|
      invariant 0 <= i <= |records|
      invariant Collect(records[..i]) == Success(seen)
      invariant b == ReferencePartition(ArtistNames(seen))
    {
      CollectStep(records, i, seen);
      match records[i]
      case Failure(e) =>
        return Failure(e);
      case Success(s) =>
        b := ClassifyArtists(b, ArtistNames(seen), s.artists);
        ArtistNamesAppend(seen, s);
        seen := seen + [s];
        i := i + 1;
    }
    assert records[..i] == records;
    return Success(b);
  }

  /** The alphabet has 33 distinct letters. */
  lemma RussianAlphabetSize()
    ensures |RussianAlphabet| == 33 && NoDuplicates(RussianAlphabet)
  {
    forall k | 0 <= k < |RussianAlphabet|
      ensures LetterRank(RussianAlphabet[k]) == k
    {
    }
  }

  /** The position of a letter in the alphabet: ё comes after е although its
      code point comes after я. Equal letters have equal positions, so
      distinct positions mean distinct letters. */
  function LetterRank(c: char): int
  {
    if c == 'ё' then 6
    else if c <= 'е' then (c as int) - ('а' as int)
    else (c as int) - ('а' as int) + 1
  }

  /** Only lower-case letters count: a name spelled in upper-case Russian
      letters alone is classified as foreign. */
  lemma UpperCaseOnlyIsForeign()
    ensures IsForeign("ДДТ")
    ensures IsRussian("Дима")
  {
  }
}
