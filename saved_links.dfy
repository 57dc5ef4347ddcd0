/** The saved-links context (`SavedLinksContextProvider`): the five most
    recent links, newest first. The stored list is only ever replaced by
    `addSavedLink` and `removeSavedLink`; the list the context shows
    mirrors it. Ids and dates are given as parameters. */
module SavedLinks {

  /** A saved link. Its `date` is a mutable field, since the previous-links
      view overwrites it on the shared object. */
  class Link {
    const id: string
    const href: string
    const labelText: string
    var date: string

    constructor (id: string, href: string, labelText: string, date: string)
      ensures this.id == id && this.href == href && this.labelText == labelText && this.date == date
    {
      this.id := id;
      this.href := href;
      this.labelText := labelText;
      this.date := date;
    }
  }

  /** The length cap of `slice(0, 5)`. */
  const MaxLinks: nat := 5

  /** `[newLink, ...storedInfo].slice(0, 5)` */
  function Prepended<T>(newest: T, list: seq<T>): (r: seq<T>)
    ensures |r| == if |list| < MaxLinks then |list| + 1 else MaxLinks
    ensures r[0] == newest
    ensures r[1..] == list[..|r| - 1]
  {
    var all := [newest] + list;
    if |all| <= MaxLinks then all else all[..MaxLinks]
  }

  /** `storedInfo.filter((link) => link.id !== id)` */
  function WithoutId(list: seq<Link>, id: string): (r: seq<Link>)
    ensures |r| <= |list|
  {
    if list == [] then []
    else (if list[0].id != id then [list[0]] else []) + WithoutId(list[1..], id)
  }

  /** `xs` occurs in `ys` in order, possibly with gaps. */
  predicate Subsequence<T(==)>(xs: seq<T>, ys: seq<T>)
    decreases |ys|
  {
    if ys == [] then xs == []
    else (xs != [] && xs[0] == ys[0] && Subsequence(xs[1..], ys[1..])) || Subsequence(xs, ys[1..])
  }

  class SavedLinksStore {
    /** `storedInfo`, the list kept in local storage. */
    var stored: seq<Link>
    /** `savedLinks`, the list the context hands out. */
    var shown: seq<Link>

    constructor ()
      ensures stored == [] && shown == []
    {
      stored := [];
      shown := [];
    }

    /** The effect that copies the stored list into the shown one. */
    method Mirror()
      modifies this
      ensures shown == stored && stored == old(stored)
    {
      shown := stored;
    }

    /** `addSavedLink(suffix, url)`: a new link, with the given id and date,
        in front of the stored list, which is cut to five. */
    method AddSavedLink(suffix: string, url: string, id: string, today: string)
      modifies this
      ensures |stored| > 0 && fresh(stored[0])
      ensures stored[0].id == id && stored[0].href == url && stored[0].labelText == suffix && stored[0].date == today
      ensures stored == Prepended(stored[0], old(stored))
      ensures shown == old(shown)
    {
      var newLink := new Link(id, url, suffix, today);
      stored := Prepended(newLink, stored);
    }

    /** `removeSavedLink(id)` */
    method RemoveSavedLink(id: string)
      modifies this
      ensures stored == WithoutId(old(stored), id)
      ensures shown == old(shown)
    {
      stored := WithoutId(stored, id);
    }
  }

  /* ---------- properties ---------- */

  /** After an add the list has at most five links: the new one, then the
      first (up to four) previous links in their order. */
  lemma AddKeepsNewest<T>(newest: T, list: seq<T>)
    ensures |Prepended(newest, list)| <= MaxLinks
    ensures forall k :: 1 <= k < |Prepended(newest, list)| ==> Prepended(newest, list)[k] == list[k - 1]
    ensures |list| < MaxLinks ==> Prepended(newest, list) == [newest] + list
  {
    var r := Prepended(newest, list);
    forall k | 1 <= k < |r|
      ensures r[k] == list[k - 1]
    {
      assert r[k] == r[1..][k - 1];
    }
  }

  /** Removing drops exactly the links with that id and keeps the others
      in their order; a list without the id is left as it is. */
  lemma {:induction false} RemoveSpec(list: seq<Link>, id: string)
    ensures forall l :: l in WithoutId(list, id) <==> l in list && l.id != id
    ensures Subsequence(WithoutId(list, id), list)
    ensures (forall k :: 0 <= k < |list| ==> list[k].id != id) ==> WithoutId(list, id) == list
  {
    if list != [] {
      RemoveSpec(list[1..], id);
      var r := WithoutId(list, id);
      if list[0].id != id {
        assert r[0] == list[0] && r[1..] == WithoutId(list[1..], id);
      } else {
        assert r == [] + WithoutId(list[1..], id) == WithoutId(list[1..], id);
      }
      if forall k :: 0 <= k < |list| ==> list[k].id != id {
        assert forall k :: 0 <= k < |list[1..]| ==> list[1..][k] == list[k + 1];
      }
    }
  }
}
