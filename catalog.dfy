/**
 * The catalog and the two values App derives from it: the list of category
 * buttons and the games that match the current search and category.
 */
module Catalog {
  import opened Text
  import opened Seqs

  /** One record of the bundled game list. */
  datatype Game = Game(
    id: int,
    title: string,
    description: string,
    category: string,
    thumbnail: string,
    iframeUrl: string)

  /** The synthesized category that matches every game. */
  const All: string := "All"

  /** `games.map((g) => g.category)`. */
  function CategoriesOf(games: seq<Game>): (r: seq<string>)
    ensures |r| == |games|
    ensures forall i :: 0 <= i < |games| ==> r[i] == games[i].category
  {
    if games == [] then [] else [games[0].category] + CategoriesOf(games[1..])
  }

  /** `["All", ...new Set(games.map((g) => g.category))]`. */
  function Categories(games: seq<Game>): (r: seq<string>)
    ensures |r| >= 1 && r[0] == All
    ensures forall x :: x in r[1..] <==> x in CategoriesOf(games)
  {
    assert ([All] + Dedup(CategoriesOf(games)))[1..] == Dedup(CategoriesOf(games));
    [All] + Dedup(CategoriesOf(games))
  }

  /** The list of buttons starts with "All" and has one more entry than there are distinct categories. */
  lemma CategoriesShape(games: seq<Game>)
    ensures |Categories(games)| >= 1 && Categories(games)[0] == All
    ensures |Categories(games)| == 1 + |set g | g in games :: g.category|
  {
    var cats := CategoriesOf(games);
    var d := Dedup(cats);
    NoDuplicatesCard(d);
    assert (set x | x in d) == (set g | g in games :: g.category) by {
      forall x
        ensures x in d <==> exists g :: g in games && g.category == x
      {
        if x in d {
          var i :| 0 <= i < |cats| && cats[i] == x;
          assert games[i] in games;
        }
        if exists g :: g in games && g.category == x {
          var g :| g in games && g.category == x;
          var i :| 0 <= i < |games| && games[i] == g;
          assert cats[i] == x;
        }
      }
    }
  }

  /** After position 0, the list holds every game's category and nothing but catalog categories. */
  lemma CategoriesCover(games: seq<Game>)
    ensures forall g :: g in games ==> g.category in Categories(games)[1..]
    ensures forall k :: 1 <= k < |Categories(games)| ==> Categories(games)[k] in CategoriesOf(games)
  {
    var r, cats := Categories(games), CategoriesOf(games);
    assert r[1..] == Dedup(cats);
    forall g | g in games
      ensures g.category in r[1..]
    {
      var i :| 0 <= i < |games| && games[i] == g;
      assert cats[i] == g.category;
    }
    forall k | 1 <= k < |r|
      ensures r[k] in cats
    {
      assert r[k] == r[1..][k - 1];
    }
  }

  /** After position 0, each category appears once, in the order in which it first appears in the catalog. */
  lemma CategoriesEachOnce(games: seq<Game>)
    ensures FirstSeenOrder(CategoriesOf(games), Categories(games)[1..])
  {
    assert Categories(games)[1..] == Dedup(CategoriesOf(games));
    DedupFirstSeen(CategoriesOf(games));
  }

  /** The category list is a function of the catalog's categories: it is the one first-seen listing of them. */
  lemma CategoriesCharacterized(games: seq<Game>, r: seq<string>)
    requires FirstSeenOrder(CategoriesOf(games), r)
    ensures Categories(games) == [All] + r
  {
    DedupFirstSeen(CategoriesOf(games));
    FirstSeenUnique(CategoriesOf(games), r, Dedup(CategoriesOf(games)));
  }

  /**
   * "All" is not filtered out of the stored categories, so the list has a
   * repeated entry exactly when some game is stored with category "All".
   */
  lemma CategoriesRepeatAll(games: seq<Game>)
    ensures NoDuplicates(Categories(games)) <==> forall g :: g in games ==> g.category != All
  {
    var r, d := Categories(games), Dedup(CategoriesOf(games));
    assert r[1..] == d;
    if exists g :: g in games && g.category == All {
      var g :| g in games && g.category == All;
      CategoriesCover(games);
      assert g.category in r[1..];
      var k :| 0 <= k < |d| && d[k] == All;
      assert r[0] == r[k + 1];
    } else {
      forall k | 1 <= k < |r|
        ensures r[k] != All
      {
        assert r[k] == d[k - 1];
        assert r[k] in d;
        var cats := CategoriesOf(games);
        var i :| 0 <= i < |cats| && cats[i] == r[k];
        assert games[i] in games;
      }
    }
  }

  /** The search half of the filter: title or description includes the query, ignoring case. */
  predicate MatchesSearch(g: Game, query: string)
  {
    var q := LowerStr(query);
    Contains(LowerStr(g.title), q) || Contains(LowerStr(g.description), q)
  }

  /** The category half of the filter: "All", or exactly the game's category. */
  predicate MatchesCategory(g: Game, category: string)
  {
    category == All || g.category == category
  }

  predicate Matches(g: Game, query: string, category: string)
  {
    MatchesSearch(g, query) && MatchesCategory(g, category)
  }

  /** The search is case-insensitive on both sides: lowering the query, or the game's texts, changes nothing. */
  lemma MatchesSearchCaseInsensitive(g: Game, query: string)
    ensures MatchesSearch(g, LowerStr(query)) == MatchesSearch(g, query)
    ensures MatchesSearch(g.(title := LowerStr(g.title), description := LowerStr(g.description)), query)
         == MatchesSearch(g, query)
  {
    LowerStrIdempotent(query);
    LowerStrIdempotent(g.title);
    LowerStrIdempotent(g.description);
  }

  /** As `includes("")` always holds, the empty query matches every game. */
  lemma EmptyQueryMatches(g: Game)
    ensures MatchesSearch(g, "")
  {
    assert LowerStr("") == "";
    ContainsEmpty(LowerStr(g.title));
  }

  /** `games.filter(...)`: the matching games, in catalog order. */
  function FilterGames(games: seq<Game>, query: string, category: string): (r: seq<Game>)
    ensures |r| <= |games|
    ensures forall g :: g in r <==> g in games && Matches(g, query, category)
  {
    if games == [] then []
    else
      var rest := FilterGames(games[1..], query, category);
      assert games == [games[0]] + games[1..];
      if Matches(games[0], query, category) then [games[0]] + rest else rest
  }

  /** The result keeps catalog order: it is a subsequence of the catalog. */
  lemma {:induction false} FilterIsSubseq(games: seq<Game>, query: string, category: string)
    ensures IsSubseq(FilterGames(games, query, category), games)
  {
    if games != [] {
      FilterIsSubseq(games[1..], query, category);
      var r := FilterGames(games, query, category);
      if !Matches(games[0], query, category) && r != [] {
        assert IsSubseq(r, games[1..]);
      }
    }
  }

  /** Each matching game is kept as often as it occurs; every other game is dropped. */
  lemma {:induction false} FilterMultiplicity(games: seq<Game>, query: string, category: string, g: Game)
    ensures multiset(FilterGames(games, query, category))[g]
         == if Matches(g, query, category) then multiset(games)[g] else 0
  {
    if games != [] {
      FilterMultiplicity(games[1..], query, category, g);
      assert games == [games[0]] + games[1..];
    }
  }

  /** An empty query with category "All" shows the whole catalog unchanged. */
  lemma {:induction false} FilterEverything(games: seq<Game>)
    ensures FilterGames(games, "", All) == games
  {
    if games != [] {
      EmptyQueryMatches(games[0]);
      FilterEverything(games[1..]);
      assert games == [games[0]] + games[1..];
    }
  }

  /** With a category other than "All", every game shown has exactly that category. */
  lemma FilterCategoryExact(games: seq<Game>, query: string, category: string)
    requires category != All
    ensures forall g :: g in FilterGames(games, query, category) ==> g.category == category
  {
  }

  /** Filtering the filtered list again changes nothing. */
  lemma {:induction false} FilterIdempotent(games: seq<Game>, query: string, category: string)
    ensures FilterGames(FilterGames(games, query, category), query, category) == FilterGames(games, query, category)
  {
    if games != [] {
      FilterIdempotent(games[1..], query, category);
    }
  }

  /** The case of the query does not matter. */
  lemma {:induction false} FilterIgnoresQueryCase(games: seq<Game>, query: string, category: string)
    ensures FilterGames(games, LowerStr(query), category) == FilterGames(games, query, category)
  {
    LowerStrIdempotent(query);
    if games != [] {
      FilterIgnoresQueryCase(games[1..], query, category);
    }
  }

  /**
   * Queries that differ only in case, character by character, show the same
   * games.
   */
  lemma {:induction false} FilterSameIgnoringCase(games: seq<Game>, q1: string, q2: string, category: string)
    requires |q1| == |q2| && forall i :: 0 <= i < |q1| ==> SameIgnoringCase(q1[i], q2[i])
    ensures FilterGames(games, q1, category) == FilterGames(games, q2, category)
  {
    LowerStrSameIgnoringCase(q1, q2);
    if games != [] {
      FilterSameIgnoringCase(games[1..], q1, q2, category);
    }
  }

  /**
   * Narrowing the search: when the longer query includes the shorter one
   * (ignoring case), the games it shows are a subsequence of the games the
   * shorter one shows.
   */
  lemma {:induction false} FilterNarrows(games: seq<Game>, shorter: string, longer: string, category: string)
    requires Contains(LowerStr(longer), LowerStr(shorter))
    ensures IsSubseq(FilterGames(games, longer, category), FilterGames(games, shorter, category))
  {
    if games != [] {
      FilterNarrows(games[1..], shorter, longer, category);
      var g := games[0];
      var rl, rs := FilterGames(games, longer, category), FilterGames(games, shorter, category);
      var tl, ts := FilterGames(games[1..], longer, category), FilterGames(games[1..], shorter, category);
      if Matches(g, longer, category) {
        if Contains(LowerStr(g.title), LowerStr(longer)) {
          ContainsTransitive(LowerStr(g.title), LowerStr(longer), LowerStr(shorter));
        } else {
          ContainsTransitive(LowerStr(g.description), LowerStr(longer), LowerStr(shorter));
        }
        assert rl == [g] + tl && rs == [g] + ts;
        assert rl[1..] == tl && rs[1..] == ts;
      } else if Matches(g, shorter, category) {
        assert rl == tl && rs == [g] + ts;
        if rl != [] {
          assert rs[1..] == ts;
        }
      }
    }
  }

  /**
   * The two tests are independent halves joined by `&&`: filtering by query
   * and category is filtering by query in every category, then by category
   * with an empty query.
   */
  lemma {:induction false} FilterSplits(games: seq<Game>, query: string, category: string)
    ensures FilterGames(games, query, category) == FilterGames(FilterGames(games, query, All), "", category)
  {
    if games != [] {
      EmptyQueryMatches(games[0]);
      FilterSplits(games[1..], query, category);
    }
  }

  /** Typing more characters onto the query can only remove games from the grid. */
  lemma FilterNarrowsWhenTyping(games: seq<Game>, query: string, more: string, category: string)
    ensures IsSubseq(FilterGames(games, query + more, category), FilterGames(games, query, category))
  {
    assert OccursAt(query + more, query, 0);
    ContainsLower(query + more, query);
    FilterNarrows(games, query, query + more, category);
  }

  /**
   * Sample catalog: "Chess Master" (Puzzle) followed by "Speed Racer"
   * (Racing), the second described without the letter "h". Searching
   * "chess" in every category finds only the first game.
   */
  lemma SampleSearch(chess: Game, racer: Game)
    requires chess.title == "Chess Master" && chess.category == "Puzzle"
    requires racer.title == "Speed Racer" && 'h' !in racer.description && 'H' !in racer.description
    ensures FilterGames([chess, racer], "chess", All) == [chess]
  {
    SampleChessMatches(chess);
    SampleRacerMisses(racer);
    assert [chess, racer][1..] == [racer] && [racer][1..] == [];
  }

  lemma SampleChessMatches(chess: Game)
    requires chess.title == "Chess Master"
    ensures MatchesSearch(chess, "chess")
  {
    LowerStrOfLower("chess");
    var t0 := LowerStr(chess.title);
    assert t0[0] == 'c' && t0[1] == 'h' && t0[2] == 'e' && t0[3] == 's' && t0[4] == 's';
    assert t0[0..5] == "chess";
    assert OccursAt(t0, "chess", 0);
  }

  lemma SampleRacerMisses(racer: Game)
    requires racer.title == "Speed Racer" && 'h' !in racer.description && 'H' !in racer.description
    ensures !MatchesSearch(racer, "chess")
  {
    SampleRacerTitle(racer.title);
    LoweredLacks(racer.description, "chess", 1, 'H');
    LowerStrOfLower("chess");
  }

  lemma SampleRacerTitle(t: string)
    requires t == "Speed Racer"
    ensures !Contains(LowerStr(t), "chess")
  {
    LoweredLacks(t, "chess", 1, 'H');
  }

  /** On the same catalog, an empty query in category "Racing" finds only the second game. */
  lemma SampleCategory(chess: Game, racer: Game)
    requires chess.category == "Puzzle" && racer.category == "Racing"
    ensures FilterGames([chess, racer], "", "Racing") == [racer]
  {
    EmptyQueryMatches(racer);
    assert [chess, racer][1..] == [racer] && [racer][1..] == [];
  }
}
