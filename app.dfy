/**
 * The top-level view: the search text, the selected category and the
 * active game, the handlers that overwrite them, and the modal it keeps
 * mounted for the whole session.
 */
module App {
  import opened Wrappers
  import opened Text
  import opened Catalog
  import Seqs
  import GameModal

  class View {
    /** The bundled game list; never changes. */
    const catalog: seq<Game>
    /** The modal component, created once and never replaced. */
    const modal: GameModal.Modal
    var searchQuery: string
    var selectedCategory: string
    var activeGame: Option<Game>

    /**
     * The selected category is one of the buttons, the active game comes from
     * the catalog, and the modal's key history is intact.
     */
    ghost predicate Valid()
      reads this, modal
    {
      && modal.Valid()
      && selectedCategory in Categories(catalog)
      && (activeGame.Some? ==> activeGame.value in catalog)
    }

    /** The grid's contents, recomputed from the current search and category. */
    function FilteredGames(): (r: seq<Game>)
      reads this`searchQuery, this`selectedCategory
      ensures forall g :: g in r <==> g in catalog && Matches(g, searchQuery, selectedCategory)
      ensures Seqs.IsSubseq(r, catalog)
    {
      FilterIsSubseq(catalog, searchQuery, selectedCategory);
      FilterGames(catalog, searchQuery, selectedCategory)
    }

    /** The "No games found" panel appears exactly when no catalog game matches. */
    function ShowsEmptyState(): (b: bool)
      reads this`searchQuery, this`selectedCategory
      ensures b <==> forall g :: g in catalog ==> !Matches(g, searchQuery, selectedCategory)
    {
      var shown := FilteredGames();
      assert shown != [] ==> shown[0] in shown;
      !(|shown| > 0)
    }

    /** What the modal displays: the active game's content under the modal's current key. */
    function ModalContent(): (r: Option<GameModal.Shown>)
      reads this`activeGame, modal
      ensures r.Some? <==> activeGame.Some?
      ensures r.Some? ==> && r.value.frameSrc == activeGame.value.iframeUrl
                          && r.value.heading == activeGame.value.title
                          && r.value.frameKey == modal.key
    {
      GameModal.Content(activeGame, modal.key)
    }

    /** First render: empty search, category "All", no active game, key 0. */
    constructor(games: seq<Game>)
      ensures Valid() && fresh(modal)
      ensures catalog == games && searchQuery == "" && selectedCategory == All && activeGame == None
      ensures modal.key == 0
      ensures FilteredGames() == games
    {
      catalog := games;
      modal := new GameModal.Modal();
      searchQuery := "";
      selectedCategory := All;
      activeGame := None;
      new;
      CategoriesShape(games);
      FilterEverything(games);
    }

    /** Typing in the search box. */
    method SetSearchQuery(query: string)
      requires Valid()
      modifies this`searchQuery
      ensures Valid()
      ensures searchQuery == query
      ensures selectedCategory == old(selectedCategory) && activeGame == old(activeGame)
    {
      searchQuery := query;
    }

    /** Clicking one of the category buttons. */
    method SelectCategory(category: string)
      requires Valid() && category in Categories(catalog)
      modifies this`selectedCategory
      ensures Valid()
      ensures selectedCategory == category
      ensures searchQuery == old(searchQuery) && activeGame == old(activeGame)
    {
      selectedCategory := category;
    }

    /** "Clear all filters": back to the whole catalog, the active game untouched. */
    method ClearFilters()
      requires Valid()
      modifies this`searchQuery, this`selectedCategory
      ensures Valid()
      ensures searchQuery == "" && selectedCategory == All
      ensures activeGame == old(activeGame)
      ensures FilteredGames() == catalog
    {
      searchQuery := "";
      selectedCategory := All;
      CategoriesShape(catalog);
      FilterEverything(catalog);
    }

    /** A card's play button: the game becomes active, replacing any other. */
    method Play(game: Game)
      requires Valid() && game in FilteredGames()
      modifies this`activeGame
      ensures Valid()
      ensures activeGame == Some(game)
      ensures searchQuery == old(searchQuery) && selectedCategory == old(selectedCategory)
      ensures modal.key == old(modal.key)
    {
      activeGame := Some(game);
    }

    /** The modal's close button (`onClose`): no game is active; the key is kept. */
    method Close()
      requires Valid()
      modifies this`activeGame
      ensures Valid()
      ensures activeGame == None
      ensures searchQuery == old(searchQuery) && selectedCategory == old(selectedCategory)
      ensures modal.key == old(modal.key)
      ensures ModalContent() == None
    {
      activeGame := None;
    }
  }

  /**
   * A session on a two-game catalog, using only the contracts above: play
   * the second game, then the first while it is open, reload, close, search
   * for "zz" (which neither game's texts hold, so the empty state is shown)
   * and clear the filters.
   */
  method SampleSession(chess: Game, racer: Game)
    returns (switched: Option<Game>, closed: Option<Game>, key: nat, empty: bool, shown: seq<Game>)
    requires 'z' !in chess.title && 'Z' !in chess.title && 'z' !in chess.description && 'Z' !in chess.description
    requires 'z' !in racer.title && 'Z' !in racer.title && 'z' !in racer.description && 'Z' !in racer.description
    ensures switched == Some(chess) && closed == None
    ensures key == 1
    ensures empty
    ensures shown == [chess, racer]
  {
    var view := new View([chess, racer]);
    assert view.ModalContent() == None;
    view.Play(racer);
    assert view.activeGame == Some(racer);
    view.Play(chess);
    switched := view.activeGame;
    assert view.ModalContent().value.frameSrc == chess.iframeUrl;
    view.modal.Reload();
    assert view.Valid();
    view.Close();
    closed, key := view.activeGame, view.modal.key;
    view.SetSearchQuery("zz");
    assert LowerStr("zz") == "zz";
    LoweredLacks(chess.title, "zz", 0, 'Z');
    LoweredLacks(chess.description, "zz", 0, 'Z');
    LoweredLacks(racer.title, "zz", 0, 'Z');
    LoweredLacks(racer.description, "zz", 0, 'Z');
    empty := view.ShowsEmptyState();
    view.ClearFilters();
    shown := view.FilteredGames();
  }
}
