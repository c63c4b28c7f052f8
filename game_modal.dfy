/**
 * The game modal: what it shows for the active game, and its reload
 * counter. The counter is the iframe's identity key, so every reload makes
 * the browser tear the frame down and build a fresh one.
 */
module GameModal {
  import opened Wrappers
  import opened Catalog

  /** What the open modal displays: its header and the embedded frame. */
  datatype Shown = Shown(
    thumbnail: string,   // header image
    heading: string,     // header title
    category: string,    // header subtitle
    frameKey: nat,       // identity key of the iframe
    frameSrc: string,    // address the iframe loads
    frameTitle: string)  // accessible title of the iframe

  /** The modal's content: nothing without a game; otherwise built from the game and the key. */
  function Content(game: Option<Game>, key: nat): (r: Option<Shown>)
    ensures r.Some? <==> game.Some?
    ensures game.Some? ==> && r.value.frameSrc == game.value.iframeUrl
                           && r.value.heading == game.value.title
                           && r.value.frameTitle == game.value.title
                           && r.value.category == game.value.category
                           && r.value.thumbnail == game.value.thumbnail
                           && r.value.frameKey == key
  {
    match game
    case None => None
    case Some(g) => Some(Shown(g.thumbnail, g.title, g.category, key, g.iframeUrl, g.title))
  }

  /** The keys a modal has used so far: 0, 1, ..., in order. */
  ghost predicate KeyHistory(keys: seq<nat>)
  {
    forall i :: 0 <= i < |keys| ==> keys[i] == i
  }

  /** Over any run the keys strictly increase, so the newest one was never used before. */
  lemma KeyHistoryIncreasing(keys: seq<nat>)
    requires KeyHistory(keys) && keys != []
    ensures forall i, j :: 0 <= i < j < |keys| ==> keys[i] < keys[j]
    ensures keys[|keys| - 1] !in keys[..|keys| - 1]
  {
  }

  class Modal {
    /** The iframe key; starts at 0, one more after each reload. */
    var key: nat
    /** Every key the frame has had, the current one last. */
    ghost var keysUsed: seq<nat>

    ghost predicate Valid()
      reads this
    {
      KeyHistory(keysUsed) && |keysUsed| == key + 1
    }

    constructor()
      ensures Valid() && key == 0 && keysUsed == [0]
    {
      key := 0;
      keysUsed := [0];
    }

    /** `handleReload`: `setKey((prev) => prev + 1)`. */
    method Reload()
      requires Valid()
      modifies this
      ensures Valid()
      ensures key == old(key) + 1
      ensures key !in old(keysUsed) && keysUsed == old(keysUsed) + [key]
      ensures forall g :: Content(Some(g), key).value.frameKey !in old(keysUsed)
    {
      key := key + 1;
      keysUsed := keysUsed + [key];
      KeyHistoryIncreasing(keysUsed);
    }
  }
}
