/** The news-feed component: the state it holds (the displayed articles, the
    page counter, the loading flag, the category filter and the create form)
    and one method per event handler. Each handler is one atomic transition;
    what the backend answers, and what the user confirms, are parameters. */
module FeedState {
  import opened CaseFold
  import opened Articles

  /** The HTTP request a handler sends to the backend. */
  datatype Request =
    | GetPage(page: nat)                                        // GET /news?page=N
    | PostArticle(title: string, content: string, tag: string)  // POST /news
    | DeleteArticle(id: Id)                                     // DELETE /news/{id}
    | PostLike(id: Id)                                          // POST /news/{id}/like
    | PostDislike(id: Id)                                       // POST /news/{id}/dislike

  /** The page fetch yields the parsed array, or `fetch`/`json()` throws. */
  datatype FetchReply = Fetched(data: seq<Article>) | FetchThrew

  /** The delete request answers with an ok status, a failure status, or throws. */
  datatype DeleteReply = DeleteOk | DeleteNotOk | DeleteThrew

  /** What a delete ends in: the user declined, the article was removed,
      the failure alert was shown, or the error only went to the console. */
  datatype DeleteOutcome = Cancelled | Deleted | FailureAlert | ErrorLogged

  /** The filter buttons; the form's tag selector offers all but the first. */
  const Categories: seq<string> := [All, "Sports", "Headlines", "Entertainment"]

  /** The tag the create form starts with and returns to. */
  const DefaultFormCategory: string := "Headlines"

  class Feed {
    var news: seq<Article>
    var page: nat
    var loading: bool
    var category: string
    var newTitle: string
    var newContent: string
    var newCategory: string

    /** The page counter starts at 1 and only ever returns to 1 or grows. */
    ghost predicate Valid()
      reads this
    {
      page >= 1
    }

    /** The displayed list holds only articles the current filter admits. */
    ghost predicate ShowsOnlyCategory()
      reads this
    {
      AllAdmitted(news, category)
    }

    /** The create form passes validation: no field is empty (an empty
        string is the only falsy string). */
    predicate FormComplete()
      reads this
      ensures FormComplete() <==> |newTitle| > 0 && |newContent| > 0 && |newCategory| > 0
    {
      newTitle != "" && newContent != "" && newCategory != ""
    }

    /** The initial state of every `useState` slot. On mount the category
        effect runs a reset load, so the caller follows with `FetchNews(true, ...)`. */
    constructor ()
      ensures Valid() && ShowsOnlyCategory()
      ensures news == [] && page == 1 && !loading && category == All
      ensures newTitle == "" && newContent == "" && newCategory == DefaultFormCategory
    {
      news := [];
      page := 1;
      loading := false;
      category := All;
      newTitle := "";
      newContent := "";
      newCategory := DefaultFormCategory;
    }

    // -------------------------------------------------------------------------
    // Loading a page
    // -------------------------------------------------------------------------

    /** The first half of a load: the loading flag goes up and the GET for
        page 1 (reset) or the current page (append) goes out. */
    method BeginLoad(reset: bool) returns (request: Request)
      modifies this`loading
      ensures loading
      ensures request == GetPage(if reset then 1 else page)
    {
      loading := true;
      request := GetPage(if reset then 1 else page);
    }

    /** The second half of a load: the fetched page, filtered by the current
        category, replaces the list (reset) or is appended after the articles
        already held (append); a thrown error leaves the list alone. Either
        way the loading flag goes down. */
    method EndLoad(reset: bool, reply: FetchReply)
      modifies this`news, this`loading
      ensures !loading
      ensures reply.FetchThrew? ==> news == old(news)
      ensures reply.Fetched? && reset ==> news == FilterByCategory(reply.data, category)
      ensures reply.Fetched? && reset && category == All ==> news == reply.data
      ensures reply.Fetched? && !reset ==> news == old(news) + FilterByCategory(reply.data, category)
      ensures reply.Fetched? && !reset ==> news[..|old(news)|] == old(news)
      ensures reply.Fetched? && reset ==> ShowsOnlyCategory()
      ensures old(ShowsOnlyCategory()) ==> ShowsOnlyCategory()
    {
      match reply {
        case Fetched(data) =>
          var filtered := FilterByCategory(data, category);
          if category == All {
            FilterAllIsIdentity(data);
          }
          if reset {
            news := filtered;
          } else {
            news := news + filtered;
          }
        case FetchThrew =>
      }
      loading := false;
    }

    /** A whole load as one transition: the request it sends, the list it
        leaves and the flag back down. */
    method FetchNews(reset: bool, reply: FetchReply) returns (request: Request)
      modifies this`news, this`loading
      ensures !loading
      ensures request == GetPage(if reset then 1 else page)
      ensures reply.FetchThrew? ==> news == old(news)
      ensures reply.Fetched? && reset ==> news == FilterByCategory(reply.data, category)
      ensures reply.Fetched? && !reset ==> news == old(news) + FilterByCategory(reply.data, category)
      ensures reply.Fetched? && reset ==> ShowsOnlyCategory()
      ensures old(ShowsOnlyCategory()) ==> ShowsOnlyCategory()
    {
      request := BeginLoad(reset);
      EndLoad(reset, reply);
    }

    // -------------------------------------------------------------------------
    // Category filter and paging
    // -------------------------------------------------------------------------

    /** Choosing the filter already selected does nothing. Choosing another
        one selects it, puts the page counter back to 1 and empties the list;
        `reload` says whether the reset load follows. */
    method ChangeCategory(selected: string) returns (reload: bool)
      requires Valid()
      modifies this`category, this`page, this`news
      ensures Valid()
      ensures reload <==> selected != old(category)
      ensures reload ==> category == selected && page == 1 && news == []
      ensures !reload ==> category == old(category) && page == old(page) && news == old(news)
      ensures reload ==> ShowsOnlyCategory()
      ensures old(ShowsOnlyCategory()) ==> ShowsOnlyCategory()
    {
      reload := selected != category;
      if reload {
        category := selected;
        page := 1;
        news := [];
      }
    }

    /** The scroll trigger fired on the last article: the page counter goes
        up by one, and since it is now above 1 an append load follows. */
    method AdvancePage() returns (appendLoad: bool)
      requires Valid()
      modifies this`page
      ensures Valid()
      ensures page == old(page) + 1
      ensures appendLoad <==> page > 1
      ensures appendLoad
    {
      page := page + 1;
      appendLoad := page > 1;
    }

    // -------------------------------------------------------------------------
    // Likes
    // -------------------------------------------------------------------------

    /** The server answered the like of `id` with the count `likes`. */
    method Like(id: Id, likes: int) returns (request: Request)
      modifies this`news
      ensures request == PostLike(id)
      ensures news == SetLikes(old(news), id, likes)
      ensures old(ShowsOnlyCategory()) ==> ShowsOnlyCategory()
    {
      request := PostLike(id);
      news := SetLikes(news, id, likes);
    }

    /** The server answered the dislike of `id` with the count `likes`. */
    method Dislike(id: Id, likes: int) returns (request: Request)
      modifies this`news
      ensures request == PostDislike(id)
      ensures news == SetLikes(old(news), id, likes)
      ensures old(ShowsOnlyCategory()) ==> ShowsOnlyCategory()
    {
      request := PostDislike(id);
      news := SetLikes(news, id, likes);
    }

    // -------------------------------------------------------------------------
    // Delete
    // -------------------------------------------------------------------------

    /** Deleting `id`: nothing is sent unless the user confirmed; on an ok
        status the articles with that id leave the list; otherwise the list
        stays as it was. */
    method DeleteNews(id: Id, confirmed: bool, reply: DeleteReply)
      returns (request: Option<Request>, outcome: DeleteOutcome)
      modifies this`news
      ensures !confirmed ==> request == None && outcome == Cancelled
      ensures confirmed ==> request == Some(DeleteArticle(id))
      ensures confirmed && reply == DeleteOk ==> outcome == Deleted && news == RemoveId(old(news), id)
      ensures confirmed && reply == DeleteNotOk ==> outcome == FailureAlert
      ensures confirmed && reply == DeleteThrew ==> outcome == ErrorLogged
      ensures outcome != Deleted ==> news == old(news)
      ensures old(ShowsOnlyCategory()) ==> ShowsOnlyCategory()
    {
      if !confirmed {
        return None, Cancelled;
      }
      request := Some(DeleteArticle(id));
      match reply {
        case DeleteOk =>
          if AllAdmitted(news, category) {
            RemoveIdKeepsAdmitted(news, id, category);
          }
          news := RemoveId(news, id);
          outcome := Deleted;
        case DeleteNotOk =>
          outcome := FailureAlert;
        case DeleteThrew =>
          outcome := ErrorLogged;
      }
    }

    // -------------------------------------------------------------------------
    // The create form
    // -------------------------------------------------------------------------

    method EditTitle(value: string)
      modifies this`newTitle
      ensures newTitle == value
    {
      newTitle := value;
    }

    method EditContent(value: string)
      modifies this`newContent
      ensures newContent == value
    {
      newContent := value;
    }

    method EditCategory(value: string)
      modifies this`newCategory
      ensures newCategory == value
    {
      newCategory := value;
    }

    /** Submitting the form. With a field empty it is rejected and nothing
        changes. Otherwise the form's fields are posted; the server's
        `created` article goes to the front of the list exactly when the
        filter admits the form's tag; the form is cleared back to its
        initial values. */
    method CreateNews(created: Article) returns (request: Option<Request>)
      modifies this`news, this`newTitle, this`newContent, this`newCategory
      ensures !old(FormComplete()) ==>
                request == None && news == old(news) &&
                newTitle == old(newTitle) && newContent == old(newContent) &&
                newCategory == old(newCategory)
      ensures old(FormComplete()) ==>
                request == Some(PostArticle(old(newTitle), old(newContent), old(newCategory))) &&
                newTitle == "" && newContent == "" && newCategory == DefaultFormCategory
      ensures old(FormComplete()) ==> !FormComplete()
      ensures old(FormComplete()) && Admits(category, Some(old(newCategory))) ==>
                news == [created] + old(news)
      ensures old(FormComplete()) && !Admits(category, Some(old(newCategory))) ==>
                news == old(news)
      ensures old(ShowsOnlyCategory()) && created.tag == Some(old(newCategory)) ==>
                ShowsOnlyCategory()
    {
      if !FormComplete() {
        return None;
      }
      request := Some(PostArticle(newTitle, newContent, newCategory));
      if Admits(category, Some(newCategory)) {
        news := [created] + news;
      }
      newTitle := "";
      newContent := "";
      newCategory := DefaultFormCategory;
    }
  }

  /** Among the filter labels no two are equal ignoring case, so an article
      created with one of the form's tags is shown under the filter "All" and
      under its own label, and under no other label. */
  lemma AdmitsOwnLabelOnly(filter: string, tag: string)
    requires filter in Categories && tag in Categories[1..]
    ensures Admits(filter, Some(tag)) <==> filter == All || filter == tag
  {
    if filter != All && filter != tag {
      assert Lower(filter) != Lower(tag) by {
        LabelsDifferIgnoringCase(filter, tag);
      }
    }
  }

  /** The four labels have four different lengths, and lower-casing keeps
      the length. */
  lemma LabelsDifferIgnoringCase(a: string, b: string)
    requires a in Categories && b in Categories && a != b
    ensures Lower(a) != Lower(b)
  {
    assert |a| != |b|;
  }

  /** Matching ignores case: the filter "Sports" admits the tag "sports". */
  lemma SportsAdmitsLowerCaseTag()
    ensures Admits("Sports", Some("sports"))
  {
    assert Lower("sports") == "sports" by {
      var s := "sports";
      assert forall i :: 0 <= i < |s| ==> !IsUpper(s[i]);
    }
    assert Lower("Sports") == "sports" by {
      var s := "Sports";
      assert LowerChar(s[0]) == 's';
      assert forall i :: 1 <= i < |s| ==> !IsUpper(s[i]);
    }
  }

  /** The filter "Entertainment" does not admit the tag "sports". */
  lemma EntertainmentRejectsSportsTag()
    ensures !Admits("Entertainment", Some("sports"))
  {
    assert |Lower("Entertainment")| != |Lower("sports")|;
  }
}
