/** The favorites list the browser page keeps under the "favorites" key of
    its local storage: an ordered list of books, deduplicated by exact title
    (backend/public/app.js, lines 138-181). */
module Favorites {
  import opened Js
  import opened Books

  /** `favorites.some(fav => fav.title === title)`, scanning from the front.
      `===` is equality of `JsString`s: `undefined === undefined` and
      `null === null` hold, `null === undefined` does not. */
  predicate HasTitle(favs: seq<Book>, title: JsString): (found: bool)
    ensures found <==> exists i :: 0 <= i < |favs| && favs[i].title == title
  {
    favs != [] && (favs[0].title == title || HasTitle(favs[1..], title))
  }

  /** `favorites.filter(book => book.title !== title)`. */
  function WithoutTitle(favs: seq<Book>, title: JsString): (r: seq<Book>)
    ensures |r| <= |favs|
  {
    if favs == [] then []
    else if favs[0].title == title then WithoutTitle(favs[1..], title)
    else [favs[0]] + WithoutTitle(favs[1..], title)
  }

  /** The list `saveToFavorites` leaves behind: the book appended unless an
      entry with its title is already there. */
  function Saved(favs: seq<Book>, book: Book): (r: seq<Book>)
    ensures |favs| <= |r| <= |favs| + 1 && r[..|favs|] == favs
    ensures |r| == |favs| + 1 <==> !HasTitle(favs, book.title)
    ensures |r| == |favs| + 1 ==> r[|favs|] == book
    ensures HasTitle(r, book.title)
  {
    if HasTitle(favs, book.title) then favs else favs + [book]
  }

  /** The invariant the two operations keep: no title occurs twice. */
  ghost predicate DistinctTitles(favs: seq<Book>)
  {
    forall i, j :: 0 <= i < j < |favs| ==> favs[i].title != favs[j].title
  }

  /** `r` is `s` with some entries left out and the others in their order. */
  ghost predicate Subsequence(r: seq<Book>, s: seq<Book>)
  {
    if r == [] then true
    else if s == [] then false
    else if r[0] == s[0] then Subsequence(r[1..], s[1..])
    else Subsequence(r, s[1..])
  }

  /** The empty-state branch of `displayFavorites`. */
  datatype Panel = NoFavoritesYet | Cards(books: seq<Book>)

  function FavoritesPanel(favs: seq<Book>): (p: Panel)
    ensures p == NoFavoritesYet <==> favs == []
    ensures p.Cards? ==> p.books == favs
  {
    if |favs| == 0 then NoFavoritesYet else Cards(favs)
  }

  /** Local storage as far as the "favorites" key goes. */
  class FavoritesStore {
    /** The list stored under the key; `None` while the key was never written. */
    var stored: Option<seq<Book>>

    /** Fresh storage: the key is absent. */
    constructor ()
      ensures stored == None
      ensures Valid()
    {
      stored := None;
    }

    /** `JSON.parse(localStorage.getItem("favorites") || "[]")`. */
    function Load(): (favs: seq<Book>)
      reads this
      ensures stored.None? ==> favs == []
      ensures stored.Some? ==> favs == stored.value
    {
      if stored.Some? then stored.value else []
    }

    ghost predicate Valid()
      reads this
    {
      DistinctTitles(Load())
    }

    /** `saveToFavorites`: appends and writes back when no entry has the
        book's title; otherwise storage is not written at all. */
    method Save(book: Book) returns (added: bool)
      modifies this
      ensures added <==> !HasTitle(old(Load()), book.title)
      ensures added ==> stored == Some(old(Load()) + [book])
      ensures !added ==> stored == old(stored)
      ensures Load() == Saved(old(Load()), book)
      ensures old(Valid()) ==> Valid()
    {
      ghost var before := Load();
      var favorites := Load();
      if !HasTitle(favorites, book.title) {
        favorites := favorites + [book];
        stored := Some(favorites);
        added := true;
      } else {
        added := false;
      }
      if DistinctTitles(before) {
        SavePreservesDistinct(before, book);
      }
    }

    /** `removeFromFavorites`: filters the title out and always writes back. */
    method Remove(title: JsString)
      modifies this
      ensures stored == Some(WithoutTitle(old(Load()), title))
      ensures old(Valid()) ==> Valid()
      ensures old(Valid()) && HasTitle(old(Load()), title) ==> |Load()| == |old(Load())| - 1
    {
      ghost var before := Load();
      var favorites := Load();
      favorites := WithoutTitle(favorites, title);
      stored := Some(favorites);
      if DistinctTitles(before) {
        WithoutTitlePreservesDistinct(before, title);
        if HasTitle(before, title) {
          RemovePresentShrinksByOne(before, title);
        }
      }
    }
  }

  /** A new title grows the list by one, with the book last and the earlier
      entries unchanged; a known title leaves the list as it was. */
  lemma SaveGrowsOrKeeps(favs: seq<Book>, book: Book)
    ensures !HasTitle(favs, book.title) ==>
      |Saved(favs, book)| == |favs| + 1 && Saved(favs, book)[|favs|] == book
      && Saved(favs, book)[..|favs|] == favs
    ensures HasTitle(favs, book.title) ==> Saved(favs, book) == favs
    ensures HasTitle(Saved(favs, book), book.title)
  {
    if !HasTitle(favs, book.title) {
      assert Saved(favs, book)[|favs|].title == book.title;
    }
  }

  lemma SavePreservesDistinct(favs: seq<Book>, book: Book)
    requires DistinctTitles(favs)
    ensures DistinctTitles(Saved(favs, book))
  {
    if !HasTitle(favs, book.title) {
      var s := favs + [book];
      forall i, j | 0 <= i < j < |s| ensures s[i].title != s[j].title {
        if j == |favs| {
          assert s[i] == favs[i];
        }
      }
    }
  }

  /** The filter keeps every entry with another title and nothing else. */
  lemma {:induction false} WithoutTitleMembers(favs: seq<Book>, title: JsString)
    ensures forall b :: b in WithoutTitle(favs, title) ==> b in favs && b.title != title
    ensures forall b :: b in favs && b.title != title ==> b in WithoutTitle(favs, title)
  {
    if favs != [] {
      WithoutTitleMembers(favs[1..], title);
      assert favs == [favs[0]] + favs[1..];
    }
  }

  /** After a removal no entry carries the title. */
  lemma RemovedTitleIsGone(favs: seq<Book>, title: JsString)
    ensures !HasTitle(WithoutTitle(favs, title), title)
  {
    var r := WithoutTitle(favs, title);
    WithoutTitleMembers(favs, title);
    forall i | 0 <= i < |r| ensures r[i].title != title {
      assert r[i] in r;
    }
  }

  /** The entries that stay keep their relative order. */
  lemma {:induction false} WithoutTitleKeepsOrder(favs: seq<Book>, title: JsString)
    ensures Subsequence(WithoutTitle(favs, title), favs)
  {
    if favs != [] {
      WithoutTitleKeepsOrder(favs[1..], title);
      var rest := WithoutTitle(favs[1..], title);
      if favs[0].title != title {
        assert WithoutTitle(favs, title) == [favs[0]] + rest;
        assert ([favs[0]] + rest)[1..] == rest;
      } else {
        assert WithoutTitle(favs, title) == rest;
        SubsequenceOfTail(rest, favs);
      }
    }
  }

  lemma {:induction false} SubsequenceOfTail(r: seq<Book>, s: seq<Book>)
    requires s != [] && Subsequence(r, s[1..])
    ensures Subsequence(r, s)
    decreases |s|, 0
  {
    if r != [] && r[0] == s[0] {
      SubsequenceDropHead(r, s[1..]);
    }
  }

  lemma {:induction false} SubsequenceDropHead(r: seq<Book>, s: seq<Book>)
    requires r != [] && Subsequence(r, s)
    ensures Subsequence(r[1..], s)
    decreases |s|, 1
  {
    assert s != [];
    if r[0] == s[0] {
      SubsequenceOfTail(r[1..], s);
    } else {
      SubsequenceDropHead(r, s[1..]);
      SubsequenceOfTail(r[1..], s);
    }
  }

  /** Removing a title nobody carries changes nothing, and removing twice is
      removing once. */
  lemma {:induction false} RemoveAbsentIsIdentity(favs: seq<Book>, title: JsString)
    requires !HasTitle(favs, title)
    ensures WithoutTitle(favs, title) == favs
  {
    if favs != [] {
      assert favs[0].title != title;
      forall i | 0 <= i < |favs[1..]| ensures favs[1..][i].title != title {
        assert favs[1..][i] == favs[i + 1];
      }
      RemoveAbsentIsIdentity(favs[1..], title);
      assert [favs[0]] + favs[1..] == favs;
    }
  }

  lemma RemoveIdempotent(favs: seq<Book>, title: JsString)
    ensures WithoutTitle(WithoutTitle(favs, title), title) == WithoutTitle(favs, title)
  {
    RemovedTitleIsGone(favs, title);
    RemoveAbsentIsIdentity(WithoutTitle(favs, title), title);
  }

  lemma {:induction false} WithoutTitlePreservesDistinct(favs: seq<Book>, title: JsString)
    requires DistinctTitles(favs)
    ensures DistinctTitles(WithoutTitle(favs, title))
  {
    if favs != [] {
      var rest := WithoutTitle(favs[1..], title);
      DistinctTail(favs);
      WithoutTitleMembers(favs[1..], title);
      WithoutTitlePreservesDistinct(favs[1..], title);
      if favs[0].title != title {
        DistinctCons(favs[0], rest);
      }
    }
  }

  /** The tail of a list with distinct titles has distinct titles, none equal
      to the head's. */
  lemma DistinctTail(favs: seq<Book>)
    requires favs != [] && DistinctTitles(favs)
    ensures DistinctTitles(favs[1..])
    ensures forall b :: b in favs[1..] ==> b.title != favs[0].title
  {
    var tail := favs[1..];
    forall i, j | 0 <= i < j < |tail| ensures tail[i].title != tail[j].title {
      assert tail[i] == favs[i + 1] && tail[j] == favs[j + 1];
    }
    forall b | b in tail ensures b.title != favs[0].title {
      var k :| 0 <= k < |tail| && tail[k] == b;
      assert favs[k + 1] == b;
    }
  }

  lemma DistinctCons(x: Book, r: seq<Book>)
    requires DistinctTitles(r)
    requires forall b :: b in r ==> b.title != x.title
    ensures DistinctTitles([x] + r)
  {
    var s := [x] + r;
    forall i, j | 0 <= i < j < |s| ensures s[i].title != s[j].title {
      assert s[j] == r[j - 1];
      if i == 0 {
        assert r[j - 1] in r;
      } else {
        assert s[i] == r[i - 1];
      }
    }
  }

  /** With distinct titles, removing a title that is present shortens the
      list by exactly one. */
  lemma {:induction false} RemovePresentShrinksByOne(favs: seq<Book>, title: JsString)
    requires DistinctTitles(favs)
    requires HasTitle(favs, title)
    ensures |WithoutTitle(favs, title)| == |favs| - 1
  {
    var tail := favs[1..];
    if favs[0].title == title {
      forall i | 0 <= i < |tail| ensures tail[i].title != title {
        assert tail[i] == favs[i + 1];
      }
      RemoveAbsentIsIdentity(tail, title);
    } else {
      var i :| 0 <= i < |favs| && favs[i].title == title;
      assert tail[i - 1].title == title;
      assert DistinctTitles(tail) by {
        forall a, b | 0 <= a < b < |tail| ensures tail[a].title != tail[b].title {
          assert tail[a] == favs[a + 1] && tail[b] == favs[b + 1];
        }
      }
      RemovePresentShrinksByOne(tail, title);
    }
  }

  /** Saving a book and then removing its title is the same as removing its
      title from the list before the save. */
  lemma SaveThenRemove(favs: seq<Book>, book: Book)
    ensures WithoutTitle(Saved(favs, book), book.title) == WithoutTitle(favs, book.title)
  {
    if !HasTitle(favs, book.title) {
      WithoutTitleAppend(favs, [book], book.title);
      assert WithoutTitle([book], book.title) == [];
    }
  }

  /** Removal distributes over concatenation, so it treats every entry on
      its own, wherever it sits and however often it occurs. */
  lemma {:induction false} WithoutTitleAppend(a: seq<Book>, b: seq<Book>, title: JsString)
    ensures WithoutTitle(a + b, title) == WithoutTitle(a, title) + WithoutTitle(b, title)
  {
    if a == [] {
      assert a + b == b;
    } else {
      assert (a + b)[0] == a[0] && (a + b)[1..] == a[1..] + b;
      WithoutTitleAppend(a[1..], b, title);
      if a[0].title != title {
        assert [a[0]] + (WithoutTitle(a[1..], title) + WithoutTitle(b, title))
            == ([a[0]] + WithoutTitle(a[1..], title)) + WithoutTitle(b, title);
      }
    }
  }
}
