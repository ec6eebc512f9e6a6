/**
 * The podcast collection: the list of podcast records built once from the
 * catalog, and the two views the page asks of it, a genre filter and a sort.
 */
module Manager {
  import opened Sequences
  import opened Podcasts
  import opened Sorting

  /**
   * The part of the pre-loaded catalog the collection is built from: raw
   * podcast entries and season records. The genre table is passed to
   * `Podcast.Genres` where it is needed.
   */
  datatype Catalog = Catalog(podcasts: seq<RawPodcast>, seasons: seq<SeasonRecord>)

  /** The value of the genre drop-down: every genre, or one genre id. */
  datatype GenreSelector = All | GenreId(id: int)

  /** `podcast.genreIds.includes(id)`: some position of the podcast's genre ids holds `id`. */
  function HoldsGenre(id: int): (f: Podcast -> bool)
    ensures forall p: Podcast :: f(p) <==> exists i :: 0 <= i < |p.genreIds| && p.genreIds[i] == id
  {
    (p: Podcast) => id in p.genreIds
  }

  class PodcastManager {
    var podcasts: seq<Podcast>

    /** Starts from an empty list and fills it from the catalog. */
    constructor (catalog: Catalog)
      ensures |podcasts| == |catalog.podcasts|
      ensures forall i :: 0 <= i < |podcasts| ==> podcasts[i] == NewPodcast(catalog.podcasts[i], catalog.seasons)
    {
      podcasts := [];
      new;
      InitializePodcasts(catalog);
    }

    /** `initializePodcasts`: one podcast record per raw entry, in catalog order. */
    method InitializePodcasts(catalog: Catalog)
      modifies this
      ensures |podcasts| == |catalog.podcasts|
      ensures forall i :: 0 <= i < |podcasts| ==> podcasts[i] == NewPodcast(catalog.podcasts[i], catalog.seasons)
    {
      podcasts := seq(|catalog.podcasts|, i requires 0 <= i < |catalog.podcasts| => NewPodcast(catalog.podcasts[i], catalog.seasons));
    }

    /**
     * `filterByGenre`: the whole list for `All`; otherwise exactly the
     * podcasts that list the genre id, each as often as in the list and in
     * list order.
     */
    function FilterByGenre(selector: GenreSelector): (r: seq<Podcast>)
      reads this
      ensures selector == All ==> r == podcasts
      ensures IsSubsequence(r, podcasts)
      ensures selector.GenreId? ==> forall p :: p in r <==> p in podcasts && selector.id in p.genreIds
      ensures selector.GenreId? ==> forall p :: multiset(r)[p] == if selector.id in p.genreIds then multiset(podcasts)[p] else 0
      ensures selector.GenreId? && (forall p :: p in podcasts ==> selector.id !in p.genreIds) ==> r == []
    {
      match selector
      case All =>
        SubsequenceOfItself(podcasts);
        podcasts
      case GenreId(id) =>
        FilterIsSubsequence(HoldsGenre(id), podcasts);
        FilterCount(HoldsGenre(id), podcasts);
        FilterMembership(HoldsGenre(id), podcasts);
        Filter(HoldsGenre(id), podcasts)
    }

    /**
     * `sortBy`: for "recent", "popular" and "newest", a fresh list holding the
     * same podcasts, ordered by that case's comparator, ties in list order;
     * for any other key, the list itself. `podcasts` is not in a `modifies`
     * clause: sorting never changes the collection.
     */
    method SortBy(key: string) returns (r: seq<Podcast>)
      ensures multiset(r) == multiset(podcasts)
      ensures key == "recent" ==> Ordered(Recent, r) && KeepsTieOrder(Recent, podcasts, r)
      ensures key == "popular" ==> Ordered(Popular, r) && KeepsTieOrder(Popular, podcasts, r)
      ensures key == "newest" ==> Ordered(Newest, r) && KeepsTieOrder(Newest, podcasts, r)
      ensures key != "recent" && key != "popular" && key != "newest" ==> r == podcasts
    {
      if key == "recent" || key == "popular" || key == "newest" {
        var c := if key == "recent" then Recent else if key == "popular" then Popular else Newest;
        var copy := podcasts;
        var a := new Podcast[|copy|](i requires 0 <= i < |copy| => copy[i]);
        assert a[..] == podcasts;
        SortInPlace(a, c);
        r := a[..];
        KeepsTieOrderIsPermutation(c, podcasts, r);
      } else {
        r := podcasts;
      }
    }
  }
}
