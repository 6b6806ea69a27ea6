/** Articles as the backend serves them, and the pure list steps the feed
    applies to its article list: the category filter, the likes update, the
    removal by id. */
module Articles {
  import opened CaseFold

  datatype Option<T> = None | Some(value: T)

  /** The backend's article identifier, compared with `===`. */
  type Id = int

  /** One article. `tag` is `None` when the JSON object carries no tag;
      `likes` is whatever number the server last reported. */
  datatype Article = Article(id: Id, title: string, content: string, tag: Option<string>, likes: int)

  /** The filter value that disables filtering; it is compared case-sensitively. */
  const All: string := "All"

  /** Whether the category filter lets an article with this tag through:
      the filter is exactly "All", or the tag is present and equals the
      filter ignoring case. */
  predicate Admits(category: string, tag: Option<string>)
    ensures category == All ==> Admits(category, tag)
    ensures category != All && tag.None? ==> !Admits(category, tag)
    ensures category != All && tag.Some? ==>
              (Admits(category, tag) <==> Lower(tag.value) == Lower(category))
  {
    category == All || (tag.Some? && EqualIgnoringCase(tag.value, category))
  }

  /** The invariant of the displayed list: every article passes the filter. */
  predicate AllAdmitted(news: seq<Article>, category: string) {
    forall i :: 0 <= i < |news| ==> Admits(category, news[i].tag)
  }

  /** No two articles share an id. */
  predicate UniqueIds(news: seq<Article>) {
    forall i, j :: 0 <= i < j < |news| ==> news[i].id != news[j].id
  }

  predicate HasId(news: seq<Article>, id: Id) {
    exists i :: 0 <= i < |news| && news[i].id == id
  }

  // ---------------------------------------------------------------------------
  // The category filter applied to a fetched page
  // ---------------------------------------------------------------------------

  /** The fetched page with the articles the filter does not admit dropped,
      in their original order: an article is kept exactly when it was fetched
      and the filter admits its tag. */
  function FilterByCategory(data: seq<Article>, category: string): (r: seq<Article>)
    ensures forall a {:trigger a in r} :: a in r <==> a in data && Admits(category, a.tag)
    ensures AllAdmitted(r, category)
  {
    if data == [] then []
    else if Admits(category, data[0].tag) then [data[0]] + FilterByCategory(data[1..], category)
    else FilterByCategory(data[1..], category)
  }

  /** With the filter "All" nothing is dropped, so the component's shortcut
      of returning the fetched page untouched under "All" agrees with the filter. */
  lemma {:induction false} FilterAllIsIdentity(data: seq<Article>)
    ensures FilterByCategory(data, All) == data
  {
    if data != [] {
      FilterAllIsIdentity(data[1..]);
      assert data == [data[0]] + data[1..];
    }
  }

  /** Filtering commutes with concatenation: the relative order of the kept
      articles is the order of the fetched page. */
  lemma {:induction false} FilterAppend(a: seq<Article>, b: seq<Article>, category: string)
    ensures FilterByCategory(a + b, category) == FilterByCategory(a, category) + FilterByCategory(b, category)
  {
    if a == [] {
      assert a + b == b;
    } else {
      var fa, fb := FilterByCategory(a[1..], category), FilterByCategory(b, category);
      var keep := if Admits(category, a[0].tag) then [a[0]] else [];
      assert FilterByCategory(a, category) == keep + fa;
      assert FilterByCategory(a + b, category) == keep + (fa + fb) by {
        assert (a + b)[0] == a[0] && (a + b)[1..] == a[1..] + b;
        FilterAppend(a[1..], b, category);
      }
      ConcatAssoc(keep, fa, fb);
    }
  }

  /** Regrouping a concatenation, stated on its own so that the append
      lemmas use it without the filter's contracts in scope. */
  lemma ConcatAssoc<T>(x: seq<T>, y: seq<T>, z: seq<T>)
    ensures x + (y + z) == (x + y) + z
  {
  }

  /** A list that already passes the filter is left as it is by the filter,
      so filtering twice is filtering once. */
  lemma {:induction false} FilterKeepsAdmitted(news: seq<Article>, category: string)
    requires AllAdmitted(news, category)
    ensures FilterByCategory(news, category) == news
  {
    if news != [] {
      FilterKeepsAdmitted(news[1..], category);
      assert news == [news[0]] + news[1..];
    }
  }

  /** The filter drops articles without a tag unless the filter is "All".
      This is the filter's own guarantee that every kept article is
      admitted, spelled out for a filter other than "All". */
  lemma UntaggedDropped(data: seq<Article>, category: string)
    requires category != All
    ensures forall i :: 0 <= i < |FilterByCategory(data, category)| ==>
              FilterByCategory(data, category)[i].tag.Some? &&
              Lower(FilterByCategory(data, category)[i].tag.value) == Lower(category)
  {
  }

  /** The filter keeps distinct ids distinct. */
  lemma {:induction false} FilterKeepsUniqueIds(data: seq<Article>, category: string)
    requires UniqueIds(data)
    ensures UniqueIds(FilterByCategory(data, category))
  {
    if data != [] {
      var rest := FilterByCategory(data[1..], category);
      FilterKeepsUniqueIds(data[1..], category);
      if Admits(category, data[0].tag) {
        forall k | 0 <= k < |rest| ensures rest[k].id != data[0].id {
          assert rest[k] in rest;
          var m :| 0 <= m < |data[1..]| && data[1..][m] == rest[k];
          assert data[m + 1] == rest[k];
        }
      }
    }
  }

  // ---------------------------------------------------------------------------
  // Appending a page
  // ---------------------------------------------------------------------------

  /** Appending a page whose ids are new to the list, and distinct among
      themselves, keeps every id unique. */
  lemma AppendUniqueIds(held: seq<Article>, data: seq<Article>, category: string)
    requires UniqueIds(held) && UniqueIds(data)
    requires forall i, j :: 0 <= i < |held| && 0 <= j < |data| ==> held[i].id != data[j].id
    ensures UniqueIds(held + FilterByCategory(data, category))
  {
    var page := FilterByCategory(data, category);
    FilterKeepsUniqueIds(data, category);
    forall i, j | 0 <= i < |held| && 0 <= j < |page| ensures held[i].id != page[j].id {
      assert page[j] in page;
    }
  }

  /** The append does not remove duplicates by id: when the fetched page
      repeats, under a filter that admits it, an article whose id the list
      already holds (a page boundary shifted by a newly created article, say),
      the id appears twice. */
  lemma AppendCanRepeatId(held: seq<Article>, data: seq<Article>, category: string, i: nat, j: nat)
    requires i < |held| && j < |data|
    requires held[i].id == data[j].id && Admits(category, data[j].tag)
    ensures !UniqueIds(held + FilterByCategory(data, category))
    ensures var r := held + FilterByCategory(data, category);
            exists p, q :: 0 <= p < q < |r| && r[p].id == held[i].id && r[q].id == held[i].id
  {
    var page := FilterByCategory(data, category);
    assert data[j] in page;
    var k :| 0 <= k < |page| && page[k] == data[j];
    assert (held + page)[i].id == held[i].id;
    assert (held + page)[|held| + k].id == held[i].id;
  }

  // ---------------------------------------------------------------------------
  // Likes update
  // ---------------------------------------------------------------------------

  /** The likes update after a like or dislike: the same articles in the
      same order; those with the id carry the
      server's `likes`, every other field and article is untouched. */
  function SetLikes(news: seq<Article>, id: Id, likes: int): (r: seq<Article>)
    ensures |r| == |news|
    ensures forall i :: 0 <= i < |news| ==>
              r[i].id == news[i].id && r[i].title == news[i].title &&
              r[i].content == news[i].content && r[i].tag == news[i].tag
    ensures forall i :: 0 <= i < |news| ==>
              r[i].likes == if news[i].id == id then likes else news[i].likes
  {
    if news == [] then []
    else [if news[0].id == id then news[0].(likes := likes) else news[0]] + SetLikes(news[1..], id, likes)
  }

  /** The server's count is authoritative: of two updates to the same
      article, the later one wins. */
  lemma SetLikesLastWins(news: seq<Article>, id: Id, first: int, second: int)
    ensures SetLikes(SetLikes(news, id, first), id, second) == SetLikes(news, id, second)
  {
    var r1, r2 := SetLikes(SetLikes(news, id, first), id, second), SetLikes(news, id, second);
    assert forall i :: 0 <= i < |news| ==> r1[i] == r2[i];
  }

  /** An update for an id that is not in the list changes nothing. */
  lemma SetLikesAbsent(news: seq<Article>, id: Id, likes: int)
    requires !HasId(news, id)
    ensures SetLikes(news, id, likes) == news
  {
    var r := SetLikes(news, id, likes);
    assert forall i :: 0 <= i < |news| ==> r[i] == news[i];
  }

  /** The likes update and the category filter commute: the update keeps
      every article's tag and hence whether the filter admits it. */
  lemma {:induction false} SetLikesCommutesWithFilter(news: seq<Article>, category: string, id: Id, likes: int)
    ensures FilterByCategory(SetLikes(news, id, likes), category) ==
            SetLikes(FilterByCategory(news, category), id, likes)
  {
    if news != [] {
      SetLikesCommutesWithFilter(news[1..], category, id, likes);
      var head := if news[0].id == id then news[0].(likes := likes) else news[0];
      assert SetLikes(news, id, likes) == [head] + SetLikes(news[1..], id, likes);
      assert SetLikes(news, id, likes)[1..] == SetLikes(news[1..], id, likes);
      if Admits(category, news[0].tag) {
        assert FilterByCategory(news, category) == [news[0]] + FilterByCategory(news[1..], category);
        assert SetLikes([news[0]] + FilterByCategory(news[1..], category), id, likes)
            == [head] + SetLikes(FilterByCategory(news[1..], category), id, likes);
      }
    }
  }

  // ---------------------------------------------------------------------------
  // Removal by id
  // ---------------------------------------------------------------------------

  /** The list after a delete: exactly the articles with another id stay. */
  function RemoveId(news: seq<Article>, id: Id): (r: seq<Article>)
    ensures |r| <= |news|
    ensures !HasId(r, id)
    ensures forall a {:trigger a in r} :: a in r <==> a in news && a.id != id
  {
    if news == [] then []
    else if news[0].id == id then RemoveId(news[1..], id)
    else [news[0]] + RemoveId(news[1..], id)
  }

  /** Removal keeps the displayed list within the filter. */
  lemma RemoveIdKeepsAdmitted(news: seq<Article>, id: Id, category: string)
    requires AllAdmitted(news, category)
    ensures AllAdmitted(RemoveId(news, id), category)
  {
    var r := RemoveId(news, id);
    forall i | 0 <= i < |r| ensures Admits(category, r[i].tag) {
      assert r[i] in r;
      var j :| 0 <= j < |news| && news[j] == r[i];
    }
  }

  /** Removal commutes with concatenation, so the remaining articles keep
      their order. */
  lemma {:induction false} RemoveIdAppend(a: seq<Article>, b: seq<Article>, id: Id)
    ensures RemoveId(a + b, id) == RemoveId(a, id) + RemoveId(b, id)
  {
    if a == [] {
      assert a + b == b;
    } else {
      var ra, rb := RemoveId(a[1..], id), RemoveId(b, id);
      var keep := if a[0].id == id then [] else [a[0]];
      assert RemoveId(a, id) == keep + ra;
      assert RemoveId(a + b, id) == keep + (ra + rb) by {
        assert (a + b)[0] == a[0] && (a + b)[1..] == a[1..] + b;
        RemoveIdAppend(a[1..], b, id);
      }
      ConcatAssoc(keep, ra, rb);
    }
  }

  /** Removing an id the list does not hold changes nothing; otherwise the
      list gets strictly shorter. */
  lemma {:induction false} RemoveIdShrinks(news: seq<Article>, id: Id)
    ensures HasId(news, id) <==> |RemoveId(news, id)| < |news|
    ensures !HasId(news, id) ==> RemoveId(news, id) == news
  {
    if news != [] {
      RemoveIdShrinks(news[1..], id);
      assert news == [news[0]] + news[1..];
      if news[0].id != id {
        assert HasId(news[1..], id) ==> HasId(news, id) by {
          if HasId(news[1..], id) {
            var k :| 0 <= k < |news[1..]| && news[1..][k].id == id;
            assert news[k + 1].id == id;
          }
        }
        assert HasId(news, id) ==> HasId(news[1..], id) by {
          if HasId(news, id) {
            var k :| 0 <= k < |news| && news[k].id == id;
            assert k != 0;
            assert news[1..][k - 1].id == id;
          }
        }
      } else {
        assert HasId(news, id);
      }
    }
  }
}
