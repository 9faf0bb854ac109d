/** The state logic of the catalog grid (src/components/pokemon-grid.tsx):
    loading pages of records, infinite scrolling, and searching the loaded
    records with a remote lookup as a fallback. The React state hooks become
    the fields of a class; each handler becomes a method that runs to its end,
    its awaits included, without interruption, except that `loadMore` is
    split at its await (`BeginLoadMore`, then `LoadPokemon`). */
module PokemonGrid {
  import opened Wrappers
  import opened Strings
  import opened PokemonApi

  // ----------------------------------------------------------- searching

  /** Some type name of `p`, lowercased, contains the lowercased query. */
  predicate SomeTypeMatches(types: seq<string>, q: string) {
    exists i :: 0 <= i < |types| && Contains(Lower(types[i]), Lower(q))
  }

  /** The predicate of the local search: the lowercased name or some
      lowercased type name contains the lowercased query. */
  predicate MatchesQuery(p: Pokemon, q: string) {
    Contains(Lower(p.name), Lower(q)) || SomeTypeMatches(p.types, q)
  }

  /** `a` is `b` with some of its elements dropped, the others kept in
      order. */
  ghost predicate IsSubsequence(a: seq<Pokemon>, b: seq<Pokemon>)
    decreases |b|
  {
    if b == [] then a == []
    else
      || (a != [] && a[|a| - 1] == b[|b| - 1] && IsSubsequence(a[..|a| - 1], b[..|b| - 1]))
      || IsSubsequence(a, b[..|b| - 1])
  }

  /** `list.filter(p => MatchesQuery(p, q))`: the matching records of
      `list`, and only those. */
  function SearchFilter(list: seq<Pokemon>, q: string): (r: seq<Pokemon>)
    ensures |r| <= |list|
    ensures forall p :: p in r <==> p in list && MatchesQuery(p, q)
    decreases |list|
  {
    if list == [] then []
    else
      var init := list[..|list| - 1];
      var last := list[|list| - 1];
      assert list == init + [last];
      SearchFilter(init, q) + if MatchesQuery(last, q) then [last] else []
  }

  /** The search keeps the order of the loaded list. */
  lemma {:induction false} SearchFilterKeepsOrder(list: seq<Pokemon>, q: string)
    ensures IsSubsequence(SearchFilter(list, q), list)
    decreases |list|
  {
    if list != [] {
      var init := list[..|list| - 1];
      var r := SearchFilter(list, q);
      SearchFilterKeepsOrder(init, q);
      if MatchesQuery(list[|list| - 1], q) {
        assert r == SearchFilter(init, q) + [list[|list| - 1]];
        assert r[..|r| - 1] == SearchFilter(init, q);
      } else {
        assert r == SearchFilter(init, q);
      }
    }
  }

  /** Each matching record is kept as often as it occurs, each other record
      is dropped. */
  lemma {:induction false} SearchFilterCounts(list: seq<Pokemon>, q: string)
    ensures forall p :: multiset(SearchFilter(list, q))[p] == if MatchesQuery(p, q) then multiset(list)[p] else 0
    decreases |list|
  {
    if list != [] {
      var init := list[..|list| - 1];
      var last := list[|list| - 1];
      assert list == init + [last];
      SearchFilterCounts(init, q);
    }
  }

  /** Searching a list made of two lists searches each of them in turn: the
      results for an appended page follow the results for the earlier pages. */
  lemma {:induction false} SearchFilterConcat(a: seq<Pokemon>, b: seq<Pokemon>, q: string)
    ensures SearchFilter(a + b, q) == SearchFilter(a, q) + SearchFilter(b, q)
    decreases |b|
  {
    if b == [] {
      assert a + b == a;
    } else {
      var init := b[..|b| - 1];
      var ab := a + b;
      assert ab[..|ab| - 1] == a + init;
      var last := b[|b| - 1];
      assert ab[|ab| - 1] == last;
      var tail := if MatchesQuery(last, q) then [last] else [];
      assert SearchFilter(ab, q) == SearchFilter(a + init, q) + tail;
      assert SearchFilter(b, q) == SearchFilter(init, q) + tail;
      SearchFilterConcat(a, init, q);
    }
  }

  /** The search ignores the case of the query. */
  lemma {:induction false} SearchFilterCaseInsensitive(list: seq<Pokemon>, q1: string, q2: string)
    requires Lower(q1) == Lower(q2)
    ensures SearchFilter(list, q1) == SearchFilter(list, q2)
    decreases |list|
  {
    if list != [] {
      SearchFilterCaseInsensitive(list[..|list| - 1], q1, q2);
    }
  }

  /** Searching the results again with the same query changes nothing. */
  lemma {:induction false} SearchFilterIdempotent(list: seq<Pokemon>, q: string)
    ensures SearchFilter(SearchFilter(list, q), q) == SearchFilter(list, q)
    decreases |list|
  {
    if list != [] {
      var init := list[..|list| - 1];
      var last := list[|list| - 1];
      SearchFilterIdempotent(init, q);
      SearchFilterConcat(SearchFilter(init, q), if MatchesQuery(last, q) then [last] else [], q);
      if MatchesQuery(last, q) {
        assert [last][..0] == [];
      }
    }
  }

  // ------------------------------------------------------------ pages

  const Limit: nat := 20

  /** One loaded page: the records of its summaries, in summary order, and
      whether the listing names a following page. */
  datatype Page = Page(details: seq<Pokemon>, hasNext: bool)

  /** The fetches of `loadPokemon`: the listing at `offset`, then the record
      of every summary in it. */
  function FetchPage(remote: Remote, offset: nat): Result<Page> {
    match GetPokemonList(remote, Limit, offset)
    case Err(m) => Err(m)
    case Ok(response) =>
      var details := seq(|response.results|, i requires 0 <= i < |response.results| =>
                         GetPokemonByUrl(remote, response.results[i].url));
      match All(details)
      case Err(m) => Err(m)
      case Ok(records) => Ok(Page(records, response.next.Some?))
  }

  /** A page loads exactly when its listing and every record in it can be
      fetched; its records are those of the summaries, in the same order, and
      it has a successor exactly when the listing's `next` is not null. */
  lemma FetchPageSpec(remote: Remote, offset: nat)
    ensures remote.listAt(ListUrl(Limit, offset)).None? ==>
              FetchPage(remote, offset) == Err("Failed to fetch Pokemon list")
    ensures forall response :: remote.listAt(ListUrl(Limit, offset)) == Some(response) ==>
              && (FetchPage(remote, offset).Ok? <==>
                    forall i :: 0 <= i < |response.results| ==> remote.pokemonAt(response.results[i].url).Some?)
              && (FetchPage(remote, offset).Ok? ==>
                    var page := FetchPage(remote, offset).value;
                    && |page.details| == |response.results|
                    && (forall i :: 0 <= i < |response.results| ==>
                          Some(page.details[i]) == remote.pokemonAt(response.results[i].url))
                    && (page.hasNext <==> response.next.Some?))
              && (FetchPage(remote, offset).Err? ==> FetchPage(remote, offset) == Err("Failed to fetch Pokemon"))
  {
    match remote.listAt(ListUrl(Limit, offset))
    case None =>
    case Some(response) =>
      var details := seq(|response.results|, i requires 0 <= i < |response.results| =>
                         GetPokemonByUrl(remote, response.results[i].url));
      assert forall i :: 0 <= i < |details| ==> details[i] == GetPokemonByUrl(remote, response.results[i].url);
  }

  // ------------------------------------------------------------- the grid

  /** The state of the grid. */
  class Grid {
    var pokemon: seq<Pokemon>
    var filteredPokemon: seq<Pokemon>
    var loading: bool
    var loadingMore: bool
    var offset: nat
    var hasMore: bool
    var searchTerm: string
    var searchedPokemon: Option<Pokemon>
    var searchLoading: bool

    /** What holds between handlers: the offset is a whole number of pages,
        a remote search result is never shown next to local results, and no
        search is left loading. */
    ghost predicate Valid()
      reads this
    {
      && offset % Limit == 0
      && (searchedPokemon.Some? ==> filteredPokemon == [])
      && !searchLoading
    }

    /** The initial state of the hooks. */
    constructor ()
      ensures Valid()
      ensures pokemon == [] && filteredPokemon == []
      ensures loading && !loadingMore && offset == 0 && hasMore
      ensures searchTerm == "" && searchedPokemon.None? && !searchLoading
    {
      pokemon := [];
      filteredPokemon := [];
      loading := true;
      loadingMore := false;
      offset := 0;
      hasMore := true;
      searchTerm := "";
      searchedPokemon := None;
      searchLoading := false;
    }

    /** `loadPokemon(currentOffset, append)`: on success the page's records
        replace the list or are appended to it and `hasMore` follows the
        listing; on failure the list and `hasMore` are kept; either way
        nothing is loading afterwards. */
    method LoadPokemon(remote: Remote, currentOffset: nat, append: bool)
      modifies this
      ensures match FetchPage(remote, currentOffset)
        case Ok(page) =>
          && pokemon == (if append then old(pokemon) + page.details else page.details)
          && hasMore == page.hasNext
        case Err(_) => pokemon == old(pokemon) && hasMore == old(hasMore)
      ensures !loading && !loadingMore
      ensures filteredPokemon == old(filteredPokemon) && offset == old(offset)
      ensures searchTerm == old(searchTerm) && searchedPokemon == old(searchedPokemon)
      ensures searchLoading == old(searchLoading)
    {
      var result := FetchPage(remote, currentOffset);
      if result.Ok? {
        var page := result.value;
        if append {
          pokemon := pokemon + page.details;
        } else {
          pokemon := page.details;
        }
        hasMore := page.hasNext;
      }
      loading := false;
      loadingMore := false;
    }

    /** The mount effect: load the first page, replacing the list. */
    method Mount(remote: Remote)
      requires Valid()
      modifies this
      ensures Valid()
      ensures match FetchPage(remote, 0)
        case Ok(page) => pokemon == page.details && hasMore == page.hasNext
        case Err(_) => pokemon == old(pokemon) && hasMore == old(hasMore)
      ensures !loading && !loadingMore && offset == old(offset)
      ensures filteredPokemon == old(filteredPokemon) && searchedPokemon == old(searchedPokemon)
      ensures searchTerm == old(searchTerm)
    {
      LoadPokemon(remote, 0, false);
    }

    /** The synchronous start of `loadMore`: nothing happens while a page is
        loading or when there is none left; otherwise `loadingMore` is set
        and the offset advances by one page, which is the offset to fetch. */
    method BeginLoadMore() returns (fetchOffset: Option<nat>)
      requires Valid()
      modifies this
      ensures Valid()
      ensures old(loadingMore) || !old(hasMore) ==>
                fetchOffset.None? && unchanged(this)
      ensures !old(loadingMore) && old(hasMore) ==>
                && fetchOffset == Some(old(offset) + Limit)
                && offset == old(offset) + Limit
                && loadingMore
      ensures pokemon == old(pokemon) && filteredPokemon == old(filteredPokemon)
      ensures loading == old(loading) && hasMore == old(hasMore)
      ensures searchTerm == old(searchTerm) && searchedPokemon == old(searchedPokemon)
    {
      if loadingMore || !hasMore {
        return None;
      }
      loadingMore := true;
      var newOffset := offset + Limit;
      offset := newOffset;
      fetchOffset := Some(newOffset);
    }

    /** `loadMore`: when a next page may be loaded, fetch the page after the
        current offset and append it. A failed fetch keeps the advanced
        offset. */
    method LoadMore(remote: Remote)
      requires Valid()
      modifies this
      ensures Valid()
      ensures old(loadingMore) || !old(hasMore) ==> unchanged(this)
      ensures !old(loadingMore) && old(hasMore) ==>
                && offset == old(offset) + Limit
                && !loadingMore && !loading
                && match FetchPage(remote, old(offset) + Limit)
                   case Ok(page) => pokemon == old(pokemon) + page.details && hasMore == page.hasNext
                   case Err(_) => pokemon == old(pokemon) && hasMore
      ensures filteredPokemon == old(filteredPokemon) && searchedPokemon == old(searchedPokemon)
      ensures searchTerm == old(searchTerm)
    {
      var fetchOffset := BeginLoadMore();
      if fetchOffset.Some? {
        LoadPokemon(remote, fetchOffset.value, true);
      }
    }

    /** The infinite-scroll condition: the sentinel is visible, a next page
        exists, none is loading and no search is active. */
    function ShouldAutoLoad(isIntersecting: bool): (r: bool)
      reads this
      ensures r ==> hasMore && !loadingMore && searchTerm == ""
      ensures !isIntersecting ==> !r
      ensures isIntersecting && hasMore && !loadingMore && searchTerm == "" ==> r
    {
      isIntersecting && hasMore && !loadingMore && searchTerm == ""
    }

    /** The input's `onChange`. */
    method SetSearchTerm(term: string)
      modifies this
      ensures searchTerm == term
      ensures pokemon == old(pokemon) && filteredPokemon == old(filteredPokemon)
      ensures loading == old(loading) && loadingMore == old(loadingMore)
      ensures offset == old(offset) && hasMore == old(hasMore)
      ensures searchedPokemon == old(searchedPokemon) && searchLoading == old(searchLoading)
    {
      searchTerm := term;
    }

    /** `searchPokemon(query)`. An empty query shows the whole loaded list.
        Otherwise the loaded records matching the query are shown when there
        are any; only when there are none is the lowercased query looked up,
        and its result, if any, is shown alone. `lookup` is the name looked
        up, if one was. */
    method SearchPokemon(query: string, remote: Remote) returns (lookup: Option<string>)
      requires Valid()
      modifies this
      ensures Valid()
      ensures query == "" ==>
                && lookup.None? && searchedPokemon.None? && filteredPokemon == pokemon
      ensures query != "" && SearchFilter(pokemon, query) != [] ==>
                && lookup.None? && searchedPokemon.None?
                && filteredPokemon == SearchFilter(pokemon, query)
      ensures query != "" && SearchFilter(pokemon, query) == [] ==>
                && lookup == Some(Lower(query))
                && searchedPokemon == GetPokemon(remote, Lower(query)).ToOption()
                && filteredPokemon == []
      ensures !searchLoading
      ensures pokemon == old(pokemon) && loading == old(loading) && loadingMore == old(loadingMore)
      ensures offset == old(offset) && hasMore == old(hasMore) && searchTerm == old(searchTerm)
    {
      if query == "" {
        searchedPokemon := None;
        filteredPokemon := pokemon;
        return None;
      }
      searchLoading := true;
      var filtered := SearchFilter(pokemon, query);
      if |filtered| > 0 {
        filteredPokemon := filtered;
        searchedPokemon := None;
        searchLoading := false;
        return None;
      }
      lookup := Some(Lower(query));
      var found := GetPokemon(remote, Lower(query));
      if found.Ok? {
        searchedPokemon := Some(found.value);
        filteredPokemon := [];
      } else {
        searchedPokemon := None;
        filteredPokemon := [];
      }
      searchLoading := false;
    }

    /** The search effect: search for the current term. It runs again
        whenever the term or the loaded list changes. */
    method RunSearchEffect(remote: Remote) returns (lookup: Option<string>)
      requires Valid()
      modifies this
      ensures Valid()
      ensures searchTerm == "" ==> lookup.None? && searchedPokemon.None? && filteredPokemon == pokemon
      ensures searchTerm != "" && SearchFilter(pokemon, searchTerm) != [] ==>
                lookup.None? && searchedPokemon.None? && filteredPokemon == SearchFilter(pokemon, searchTerm)
      ensures searchTerm != "" && SearchFilter(pokemon, searchTerm) == [] ==>
                && lookup == Some(Lower(searchTerm))
                && searchedPokemon == GetPokemon(remote, Lower(searchTerm)).ToOption()
                && filteredPokemon == []
      ensures !searchLoading
      ensures pokemon == old(pokemon) && loading == old(loading) && loadingMore == old(loadingMore)
      ensures offset == old(offset) && hasMore == old(hasMore) && searchTerm == old(searchTerm)
    {
      lookup := SearchPokemon(searchTerm, remote);
    }
  }

  /** Two `loadMore` calls before the first page arrives fetch one page:
      the second finds `loadingMore` set and does nothing. */
  method LoadMoreTwiceFetchesOnce(g: Grid)
    requires g.Valid() && !g.loadingMore && g.hasMore
    modifies g
    ensures g.Valid() && g.offset == old(g.offset) + Limit && g.loadingMore
  {
    var first := g.BeginLoadMore();
    assert first == Some(old(g.offset) + Limit);
    var second := g.BeginLoadMore();
    assert second.None?;
  }
}
