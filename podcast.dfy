/**
 * One podcast show: the record built from a raw catalog entry, and the values
 * derived from it (its genres, its season details, its last-updated label).
 * The catalog's genre and season tables are passed in explicitly.
 */
module Podcasts {
  import opened Wrappers
  import opened Sequences
  import opened JsStrings
  import opened LastUpdated

  /** A genre record of the catalog: `{ id, title }`. */
  datatype Genre = Genre(id: int, title: string)

  /** One season of a show, as the season table lists it. */
  datatype SeasonDetail = SeasonDetail(title: string, episodes: int)

  /** An entry of the season table: the seasons of the show with id `id`. */
  datatype SeasonRecord = SeasonRecord(id: string, seasonDetails: seq<SeasonDetail>)

  /** A raw catalog entry; `updated` is already a timestamp in milliseconds. */
  datatype RawPodcast = RawPodcast(
    id: string, title: string, description: string, seasons: int,
    image: string, genres: seq<int>, updated: int)

  /** The podcast record. Nothing changes it after it is built. */
  datatype Podcast = Podcast(
    id: string, title: string, description: string, seasons: int,
    image: string, genreIds: seq<int>, updated: int, seasonDetails: seq<SeasonDetail>)
  {
    /**
     * `getGenres`: each genre id looked up in the genre table, ids with no
     * record dropped, the rest kept in `genreIds` order.
     */
    function Genres(genreTable: seq<Genre>): (r: seq<Genre>)
      ensures |r| <= |genreIds|
      ensures forall g :: g in r ==> g in genreTable && g.id in genreIds
    {
      var found := Lookups(genreTable, genreIds);
      assert forall g :: Some(g) in found ==> g in genreTable && g.id in genreIds by {
        forall g | Some(g) in found
          ensures g in genreTable && g.id in genreIds
        {
          var i :| 0 <= i < |found| && found[i] == Some(g);
          var j :| IsFirstMatch((x: Genre) => x.id == genreIds[i], genreTable, j) && genreTable[j] == g;
        }
      }
      Somes(found)
    }

    /**
     * `getFormattedLastUpdated`, with the current time passed in: the text for
     * each range of whole days elapsed, which reads back as exactly the bucket
     * of that day count.
     */
    function FormattedLastUpdated(now: int): (r: string)
      ensures var d := DiffDays(now, updated);
        && (d == 0 ==> r == "Updated today")
        && (d == 1 ==> r == "Updated yesterday")
        && (d < 0 || 2 <= d < 7 || 30 <= d ==> r == "Updated " + IntToString(d) + " days ago")
        && (7 <= d < 30 ==> r == "Updated " + IntToString(d / 7) + " weeks ago")
      ensures ParseLabel(r) == Some(Bucket(DiffDays(now, updated)))
    {
      LabelRoundTrip(Bucket(DiffDays(now, updated)));
      LabelText(Bucket(DiffDays(now, updated)))
    }
  }

  /** The first genre record with id `id`, as `genres.find(g => g.id === id)` gives it. */
  function FindGenre(genreTable: seq<Genre>, id: int): (r: Option<Genre>)
    ensures r.None? <==> forall g :: g in genreTable ==> g.id != id
    ensures r.Some? ==> exists j :: IsFirstMatch((g: Genre) => g.id == id, genreTable, j) && genreTable[j] == r.value
  {
    Find((g: Genre) => g.id == id, genreTable)
  }

  /** Each id looked up in the genre table, position by position. */
  function Lookups(genreTable: seq<Genre>, ids: seq<int>): (r: seq<Option<Genre>>)
    ensures |r| == |ids|
    ensures forall i :: 0 <= i < |ids| ==> r[i] == FindGenre(genreTable, ids[i])
  {
    seq(|ids|, i requires 0 <= i < |ids| => FindGenre(genreTable, ids[i]))
  }

  /** The genre ids that have a record in the table, in their original order. */
  function ResolvedIds(genreIds: seq<int>, genreTable: seq<Genre>): seq<int>
  {
    Filter((id: int) => FindGenre(genreTable, id).Some?, genreIds)
  }

  /**
   * `getSeasonDetails(podcastId)`: the season list of the first season record
   * whose id is `podcastId`, or the empty list when there is none.
   */
  function SeasonDetailsFor(seasonTable: seq<SeasonRecord>, podcastId: string): (r: seq<SeasonDetail>)
    ensures (forall s :: s in seasonTable ==> s.id != podcastId) ==> r == []
    ensures forall i :: IsFirstMatch((s: SeasonRecord) => s.id == podcastId, seasonTable, i) ==> r == seasonTable[i].seasonDetails
  {
    var f := (s: SeasonRecord) => s.id == podcastId;
    match Find(f, seasonTable)
    case Some(record) =>
      assert forall i :: IsFirstMatch(f, seasonTable, i) ==> record == seasonTable[i] by {
        forall i | IsFirstMatch(f, seasonTable, i)
          ensures record == seasonTable[i]
        {
          var j :| IsFirstMatch(f, seasonTable, j) && seasonTable[j] == record;
          FirstMatchUnique(f, seasonTable, i, j);
        }
      }
      record.seasonDetails
    case None => []
  }

  /**
   * The `Podcast` constructor: fields copied from the raw entry, the image URL
   * trimmed, and the season details looked up once in the season table.
   */
  function NewPodcast(data: RawPodcast, seasonTable: seq<SeasonRecord>): (p: Podcast)
    ensures p.id == data.id && p.title == data.title && p.description == data.description
    ensures p.seasons == data.seasons && p.genreIds == data.genres && p.updated == data.updated
    ensures p.image == Trim(data.image)
    ensures p.seasonDetails == SeasonDetailsFor(seasonTable, data.id)
  {
    Podcast(data.id, data.title, data.description, data.seasons,
            Trim(data.image), data.genres, data.updated, SeasonDetailsFor(seasonTable, data.id))
  }

  /** The lookups behind `getGenres` resolve in step with `ResolvedIds`. */
  lemma {:induction false} SomesOfLookups(genreTable: seq<Genre>, ids: seq<int>)
    ensures |Somes(Lookups(genreTable, ids))| == |ResolvedIds(ids, genreTable)|
    ensures forall k :: 0 <= k < |ResolvedIds(ids, genreTable)| ==>
              Some(Somes(Lookups(genreTable, ids))[k]) == FindGenre(genreTable, ResolvedIds(ids, genreTable)[k])
    decreases |ids|
  {
    if ids != [] {
      SomesOfLookups(genreTable, ids[1..]);
      assert Lookups(genreTable, ids)[1..] == Lookups(genreTable, ids[1..]);
    }
  }

  /**
   * The genres of a podcast are exactly the records of its resolvable ids, in
   * order: entry `k` of the result is the first record for the `k`-th id that
   * resolves.
   */
  lemma GenresFollowResolvedIds(p: Podcast, genreTable: seq<Genre>)
    ensures |p.Genres(genreTable)| == |ResolvedIds(p.genreIds, genreTable)|
    ensures forall k :: 0 <= k < |ResolvedIds(p.genreIds, genreTable)| ==>
              Some(p.Genres(genreTable)[k]) == FindGenre(genreTable, ResolvedIds(p.genreIds, genreTable)[k])
  {
    SomesOfLookups(genreTable, p.genreIds);
  }

  /** A record resolved from an id is never invented: ids without a record contribute nothing. */
  lemma GenresDropUnresolved(genreTable: seq<Genre>, a: int, missing: int, b: int, p: Podcast)
    requires FindGenre(genreTable, a).Some? && FindGenre(genreTable, b).Some?
    requires FindGenre(genreTable, missing).None?
    requires p.genreIds == [a, missing, b]
    ensures p.Genres(genreTable) == [FindGenre(genreTable, a).value, FindGenre(genreTable, b).value]
  {
    GenresFollowResolvedIds(p, genreTable);
    var f := (id: int) => FindGenre(genreTable, id).Some?;
    assert Filter(f, [b]) == [b];
    assert [missing, b][1..] == [b];
    assert Filter(f, [missing, b]) == [b];
    assert [a, missing, b][1..] == [missing, b];
    assert Filter(f, [a, missing, b]) == [a, b];
    assert ResolvedIds(p.genreIds, genreTable) == [a, b];
  }

  /** A future update time yields a negative day count shown as "days ago", never "today" or weeks. */
  lemma FutureUpdateSaysDaysAgo(p: Podcast, now: int)
    requires now < p.updated
    ensures DiffDays(now, p.updated) < 0
    ensures p.FormattedLastUpdated(now) == "Updated -" + NatToString(-DiffDays(now, p.updated)) + " days ago"
  {
  }

  /** The stored image needs no further trimming. */
  lemma ImageIsTrimmed(data: RawPodcast, seasonTable: seq<SeasonRecord>)
    ensures Trim(NewPodcast(data, seasonTable).image) == NewPodcast(data, seasonTable).image
  {
  }
}
