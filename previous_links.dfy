/** The previous-links view (`PreviousLinks`): clicking a saved link moves
    it to the front of the list and stamps it with today's date. */
module PreviousLinks {
  import opened Wrappers
  import opened SavedLinks

  /** `[...links]`, then `splice(index, 1)`, then `unshift(links[index])`. */
  function Bumped<T>(links: seq<T>, index: nat): seq<T>
    requires index < |links|
  {
    [links[index]] + (links[..index] + links[index + 1..])
  }

  /** The view shows the list only when it holds a link. */
  predicate Renders(links: seq<Link>) {
    |links| != 0
  }

  /** `bumpLink` as written: the date of the clicked link is overwritten on
      the object the stored and shown lists share, the moved copy of the
      list is built, and then the call of `updateAllLinks`, which the
      saved-links context does not provide, throws, so the new order is
      never stored. */
  method BumpLinkAsWritten(store: SavedLinksStore, index: nat, today: string) returns (r: Outcome<()>)
    requires index < |store.shown|
    modifies store.shown[index]
    ensures r == Threw("updateAllLinks is not a function")
    ensures store.stored == old(store.stored) && store.shown == old(store.shown)
    ensures store.shown[index].date == today
  {
    var link := store.shown[index];
    link.date := today;
    var updated := store.shown;
    updated := updated[..index] + updated[index + 1..];
    updated := [store.shown[index]] + updated;
    r := Threw("updateAllLinks is not a function");
  }

  /** `bumpLink` as intended: the same date stamp, and the moved list
      replaces the stored one. */
  method BumpLink(store: SavedLinksStore, index: nat, today: string)
    requires index < |store.shown|
    modifies store, store.shown[index]
    ensures store.shown == old(store.shown)
    ensures store.shown[index].date == today
    ensures store.stored == Bumped(old(store.shown), index)
  {
    var link := store.shown[index];
    link.date := today;
    var updated := store.shown;
    updated := updated[..index] + updated[index + 1..];
    updated := [store.shown[index]] + updated;
    store.stored := updated;
  }

  /* ---------- properties ---------- */

  /** The moved list has the clicked link first and every other link after
      it in its original relative order. */
  lemma BumpedOrder<T>(links: seq<T>, index: nat)
    requires index < |links|
    ensures |Bumped(links, index)| == |links|
    ensures Bumped(links, index)[0] == links[index]
    ensures forall k :: 0 <= k < index ==> Bumped(links, index)[k + 1] == links[k]
    ensures forall k :: index < k < |links| ==> Bumped(links, index)[k] == links[k]
  {
  }

  /** The moved list is a permutation of the list: same links, same counts. */
  lemma BumpedPermutation<T>(links: seq<T>, index: nat)
    requires index < |links|
    ensures multiset(Bumped(links, index)) == multiset(links)
  {
    assert links == links[..index] + [links[index]] + links[index + 1..];
  }

  /** Bumping the first link leaves the order as it is. */
  lemma BumpFirst<T>(links: seq<T>)
    requires |links| > 0
    ensures Bumped(links, 0) == links
  {
  }
}
