/**
 * The News page of src/pages/News/News.jsx: the catalogue of published items,
 * shown either all or only the logged-in user's own ("my news"), sorted by
 * publish time newest or oldest first, and the form a logged-in user publishes
 * an item with. A publish time is the instant the stored ISO text denotes.
 */
module NewsPage {
  import opened Js
  import opened Entities
  import opened Forms
  import opened Server
  import opened AuthContext

  /** The `sortOrder` that puts the latest item first; every other value sorts oldest first. */
  const Newest := "newest"

  const TitleRequired := "News title is required"
  const ContentRequired := "News content is required"

  /** The form as first shown and as reset after a publish. */
  const EmptyForm: Record := map["title" := "", "content" := ""]

  /**
   * The sort key the comparator orders by: `dateB - dateA` for "newest" orders by
   * the negated time, `dateA - dateB` by the time itself.
   */
  function Rank(item: NewsItem, sortOrder: string): int {
    if sortOrder == Newest then -item.publishDate else item.publishDate
  }

  /** `s` is in the comparator's order. */
  predicate SortedBy(s: seq<NewsItem>, sortOrder: string) {
    forall i, j | 0 <= i < j < |s| :: Rank(s[i], sortOrder) <= Rank(s[j], sortOrder)
  }

  /** `x` placed into `s` after the leading items that do not sort after it. */
  function Insert(x: NewsItem, s: seq<NewsItem>, sortOrder: string): seq<NewsItem> {
    if s == [] || Rank(x, sortOrder) < Rank(s[0], sortOrder) then [x] + s
    else [s[0]] + Insert(x, s[1..], sortOrder)
  }

  /**
   * `[...s].sort(comparator)`: a stable sort of a copy (the sort ECMAScript 2019
   * requires), here as an insertion sort taking the items in list order.
   */
  function SortNews(s: seq<NewsItem>, sortOrder: string): seq<NewsItem> {
    if s == [] then []
    else Insert(s[|s| - 1], SortNews(s[..|s| - 1], sortOrder), sortOrder)
  }

  /** Inserting adds `x` and loses nothing. */
  lemma {:induction false} InsertPermutes(x: NewsItem, s: seq<NewsItem>, sortOrder: string)
    ensures multiset(Insert(x, s, sortOrder)) == multiset(s) + multiset{x}
  {
    if s != [] && Rank(s[0], sortOrder) <= Rank(x, sortOrder) {
      InsertPermutes(x, s[1..], sortOrder);
      assert s == [s[0]] + s[1..];
    }
  }

  /** Inserting an item that ranks at least `low` into items that all do keeps every item at `low` or above. */
  lemma InsertAbove(x: NewsItem, s: seq<NewsItem>, sortOrder: string, low: int)
    requires low <= Rank(x, sortOrder)
    requires forall k | 0 <= k < |s| :: low <= Rank(s[k], sortOrder)
    ensures forall k | 0 <= k < |Insert(x, s, sortOrder)| :: low <= Rank(Insert(x, s, sortOrder)[k], sortOrder)
  {
    var r := Insert(x, s, sortOrder);
    InsertPermutes(x, s, sortOrder);
    forall k | 0 <= k < |r|
      ensures low <= Rank(r[k], sortOrder)
    {
      assert r[k] in multiset(r);
      if r[k] != x {
        assert r[k] in s;
      }
    }
  }

  /** Inserting into a sorted list gives a sorted list. */
  lemma {:induction false} InsertSorted(x: NewsItem, s: seq<NewsItem>, sortOrder: string)
    requires SortedBy(s, sortOrder)
    ensures SortedBy(Insert(x, s, sortOrder), sortOrder)
  {
    if s != [] && Rank(s[0], sortOrder) <= Rank(x, sortOrder) {
      var rest := Insert(x, s[1..], sortOrder);
      InsertSorted(x, s[1..], sortOrder);
      InsertAbove(x, s[1..], sortOrder, Rank(s[0], sortOrder));
      var r := [s[0]] + rest;
      forall i, j | 0 <= i < j < |r|
        ensures Rank(r[i], sortOrder) <= Rank(r[j], sortOrder)
      {
        assert r[j] == rest[j - 1];
        if i > 0 {
          assert r[i] == rest[i - 1];
        }
      }
    }
  }

  /** The sort's result is a permutation of its input. */
  lemma {:induction false} SortNewsPermutes(s: seq<NewsItem>, sortOrder: string)
    ensures multiset(SortNews(s, sortOrder)) == multiset(s)
  {
    if s != [] {
      var init := s[..|s| - 1];
      SortNewsPermutes(init, sortOrder);
      InsertPermutes(s[|s| - 1], SortNews(init, sortOrder), sortOrder);
      assert s == init + [s[|s| - 1]];
    }
  }

  /** The sort's result is in the comparator's order. */
  lemma {:induction false} SortNewsSorted(s: seq<NewsItem>, sortOrder: string)
    ensures SortedBy(SortNews(s, sortOrder), sortOrder)
  {
    if s != [] {
      SortNewsSorted(s[..|s| - 1], sortOrder);
      InsertSorted(s[|s| - 1], SortNews(s[..|s| - 1], sortOrder), sortOrder);
    }
  }

  /** The test "sorts level with rank `rank`". */
  function HasRank(rank: int, sortOrder: string): NewsItem -> bool {
    (item: NewsItem) => Rank(item, sortOrder) == rank
  }

  /** A sorted list whose first item ranks above `rank` holds no item of that rank. */
  lemma NoneOfLowerRank(s: seq<NewsItem>, sortOrder: string, rank: int)
    requires SortedBy(s, sortOrder) && s != [] && rank < Rank(s[0], sortOrder)
    ensures Filter(s, HasRank(rank, sortOrder)) == []
  {
  }

  /** Placing `x` in front of a sorted list of higher-ranked items keeps each rank's items in order. */
  lemma InsertInFrontIsStable(x: NewsItem, s: seq<NewsItem>, sortOrder: string, rank: int)
    requires SortedBy(s, sortOrder) && s != [] && Rank(x, sortOrder) < Rank(s[0], sortOrder)
    ensures Filter([x] + s, HasRank(rank, sortOrder)) == Filter(s, HasRank(rank, sortOrder)) + Filter([x], HasRank(rank, sortOrder))
  {
    var level := HasRank(rank, sortOrder);
    FilterAppend([x], s, level);
    if Rank(x, sortOrder) == rank {
      NoneOfLowerRank(s, sortOrder, rank);
    } else {
      assert Filter([x], level) == [];
    }
  }

  /** Inserting keeps the order among items of equal rank and puts `x` after those of its rank. */
  lemma {:induction false} InsertIsStable(x: NewsItem, s: seq<NewsItem>, sortOrder: string, rank: int)
    requires SortedBy(s, sortOrder)
    ensures Filter(Insert(x, s, sortOrder), HasRank(rank, sortOrder))
         == Filter(s, HasRank(rank, sortOrder)) + Filter([x], HasRank(rank, sortOrder))
  {
    if s == [] {
      assert Insert(x, s, sortOrder) == [x];
    } else if Rank(x, sortOrder) < Rank(s[0], sortOrder) {
      InsertInFrontIsStable(x, s, sortOrder, rank);
    } else {
      InsertIsStable(x, s[1..], sortOrder, rank);
      InsertBehindIsStable(x, s, sortOrder, rank);
    }
  }

  /** The step of InsertIsStable where `x` goes behind the first item. */
  lemma InsertBehindIsStable(x: NewsItem, s: seq<NewsItem>, sortOrder: string, rank: int)
    requires s != [] && Rank(s[0], sortOrder) <= Rank(x, sortOrder)
    requires Filter(Insert(x, s[1..], sortOrder), HasRank(rank, sortOrder))
          == Filter(s[1..], HasRank(rank, sortOrder)) + Filter([x], HasRank(rank, sortOrder))
    ensures Filter(Insert(x, s, sortOrder), HasRank(rank, sortOrder))
         == Filter(s, HasRank(rank, sortOrder)) + Filter([x], HasRank(rank, sortOrder))
  {
    var level := HasRank(rank, sortOrder);
    assert Insert(x, s, sortOrder) == [s[0]] + Insert(x, s[1..], sortOrder);
    assert s == [s[0]] + s[1..];
    FilterPrepend(s[0], Insert(x, s[1..], sortOrder), s[1..], Filter([x], level), level);
  }

  /** Items of equal publish time keep their list order: the sort moves no item past one of its own rank. */
  lemma {:induction false} SortNewsIsStable(s: seq<NewsItem>, sortOrder: string, rank: int)
    ensures Filter(SortNews(s, sortOrder), HasRank(rank, sortOrder)) == Filter(s, HasRank(rank, sortOrder))
  {
    if s != [] {
      var init := s[..|s| - 1];
      SortNewsIsStable(init, sortOrder, rank);
      SortNewsSorted(init, sortOrder);
      InsertIsStable(s[|s| - 1], SortNews(init, sortOrder), sortOrder, rank);
      assert s == init + [s[|s| - 1]];
      FilterAppend(init, [s[|s| - 1]], HasRank(rank, sortOrder));
    }
  }

  /**
   * The test `item => item.authorEmail === currentUser.email`. A user record
   * without an email is taken to have authored nothing: a choice of this model,
   * listed under "Left out" in the README.
   */
  function AuthoredBy(user: UserRecord): NewsItem -> bool {
    (item: NewsItem) => "email" in user && item.authorEmail == user["email"]
  }

  /** The items "my news" may show: the user's own when it is on and a user is logged in, otherwise all. */
  function Eligible(news: seq<NewsItem>, showMyNews: bool, currentUser: Option<UserRecord>): (eligible: seq<NewsItem>)
    ensures !(showMyNews && currentUser.Some?) ==> eligible == news
    ensures showMyNews && currentUser.Some? ==>
      forall item :: item in eligible <==> item in news && HasEmail(currentUser.value, item.authorEmail)
    ensures showMyNews && currentUser.Some? ==>
      Picks(eligible, news, KeptPositions(news, AuthoredBy(currentUser.value)))
  {
    if showMyNews && currentUser.Some? then
      FilterPicksKept(news, AuthoredBy(currentUser.value));
      Filter(news, AuthoredBy(currentUser.value))
    else news
  }

  /**
   * getFilteredAndSortedNews: the eligible items, each as often as it is stored,
   * newest first for "newest" and oldest first otherwise.
   */
  function FilteredAndSortedNews(news: seq<NewsItem>, showMyNews: bool, currentUser: Option<UserRecord>, sortOrder: string)
    : (shown: seq<NewsItem>)
    ensures multiset(shown) == multiset(Eligible(news, showMyNews, currentUser))
    ensures showMyNews && currentUser.Some? ==>
      forall item | item in shown :: HasEmail(currentUser.value, item.authorEmail)
    ensures sortOrder == Newest ==>
      forall i, j | 0 <= i < j < |shown| :: shown[i].publishDate >= shown[j].publishDate
    ensures sortOrder != Newest ==>
      forall i, j | 0 <= i < j < |shown| :: shown[i].publishDate <= shown[j].publishDate
  {
    var shown := SortNews(Eligible(news, showMyNews, currentUser), sortOrder);
    SortNewsSorted(Eligible(news, showMyNews, currentUser), sortOrder);
    SortNewsPermutes(Eligible(news, showMyNews, currentUser), sortOrder);
    assert forall item | item in shown :: item in multiset(Eligible(news, showMyNews, currentUser));
    shown
  }

  /** The checks `validate()` runs on `form`, in form order. */
  function Checks(form: Record): seq<Check> {
    [Check("title", RequireText(Field(form, "title"), TitleRequired)),
     Check("content", RequireText(Field(form, "content"), ContentRequired))]
  }

  /** What `validate()` returns: a message for a blank title and one for blank content. */
  function Errors(form: Record): (errors: Record)
    ensures errors.Keys <= {"title", "content"}
    ensures "title" in errors <==> AllSpace(Field(form, "title"))
    ensures "content" in errors <==> AllSpace(Field(form, "content"))
    ensures "title" in errors ==> errors["title"] == TitleRequired
    ensures "content" in errors ==> errors["content"] == ContentRequired
    ensures errors == map[] <==> !AllSpace(Field(form, "title")) && !AllSpace(Field(form, "content"))
  {
    var checks := Checks(form);
    ErrorMapAt(checks, 0);
    ErrorMapAt(checks, 1);
    ErrorMapKeys(checks, {"title", "content"});
    ErrorMapEmpty(checks);
    ErrorMap(checks)
  }

  /**
   * The item handleSubmit publishes for `user`, with `id` for `Date.now()` and
   * `publishDate` for `new Date()`: the author's email, and the author's names
   * joined by one space.
   */
  function Publication(form: Record, user: UserRecord, id: int, publishDate: int): NewsItem {
    NewsItem(id, Field(form, "title"), Field(form, "content"), AsText(user, "email"),
             AsText(user, "firstName") + " " + AsText(user, "lastName"), publishDate)
  }

  /** An item the user publishes is shown under that user's "my news", whatever the order. */
  lemma PublishedItemIsMine(news: seq<NewsItem>, form: Record, user: UserRecord, id: int, publishDate: int, sortOrder: string)
    requires "email" in user
    ensures Publication(form, user, id, publishDate)
      in FilteredAndSortedNews(news + [Publication(form, user, id, publishDate)], true, Some(user), sortOrder)
  {
    var item := Publication(form, user, id, publishDate);
    var shown := FilteredAndSortedNews(news + [item], true, Some(user), sortOrder);
    assert item in Eligible(news + [item], true, Some(user));
    assert item in multiset(shown);
  }

  class News {
    /** The `news` state: the items as last loaded, in storage order. */
    var news: seq<NewsItem>
    /** The `showMyNews` state. */
    var showMyNews: bool
    /** The `sortOrder` state. */
    var sortOrder: string
    /** The `showAddForm` state. */
    var showAddForm: bool
    /** The `formData` state: `title` and `content`. */
    var formData: Record
    /** The `errors` state. */
    var errors: Record

    constructor()
      ensures news == [] && !showMyNews && sortOrder == Newest && !showAddForm
      ensures formData == EmptyForm && errors == map[]
    {
      news := [];
      showMyNews := false;
      sortOrder := Newest;
      showAddForm := false;
      formData := EmptyForm;
      errors := map[];
    }

    /**
     * The list the page renders: the eligible items, each as often as stored,
     * in the chosen order. Sorting works on a copy, so `news` keeps its storage order.
     */
    function Displayed(auth: AuthProvider): (shown: seq<NewsItem>)
      reads this, auth
      ensures multiset(shown) == multiset(Eligible(news, showMyNews, auth.currentUser))
      ensures showMyNews && auth.currentUser.Some? ==>
        forall item | item in shown :: HasEmail(auth.currentUser.value, item.authorEmail)
      ensures SortedBy(shown, sortOrder)
    {
      SortNewsSorted(Eligible(news, showMyNews, auth.currentUser), sortOrder);
      FilteredAndSortedNews(news, showMyNews, auth.currentUser, sortOrder)
    }

    /** loadNews: every stored item, in storage order. */
    method LoadNews(store: DataStore)
      modifies this, store
      ensures news == old(store.Current()).news
      ensures store.Current() == old(store.Current())
      ensures unchanged(this`formData, this`errors, this`showAddForm)
      ensures unchanged(this`showMyNews, this`sortOrder)
    {
      news := store.ListNews();
    }

    /** The "my news" checkbox, `setShowMyNews(e.target.checked)`: changes which items are eligible and nothing else. */
    method SetShowMyNews(checked: bool)
      modifies this
      ensures showMyNews == checked
      ensures unchanged(this`news, this`sortOrder, this`showAddForm, this`formData, this`errors)
    {
      showMyNews := checked;
    }

    /** The two sort buttons, `setSortOrder('newest')` and `setSortOrder('oldest')`: changes the order and nothing else. */
    method SetSortOrder(order: string)
      modifies this
      ensures sortOrder == order
      ensures unchanged(this`news, this`showMyNews, this`showAddForm, this`formData, this`errors)
    {
      sortOrder := order;
    }

    /** The add button and the form's cancel button, `setShowAddForm(true)` and `setShowAddForm(false)`. */
    method SetShowAddForm(shown: bool)
      modifies this
      ensures showAddForm == shown
      ensures unchanged(this`news, this`showMyNews, this`sortOrder, this`formData, this`errors)
    {
      showAddForm := shown;
    }

    /** handleChange: stores the edited field and empties that field's message, if it had one. */
    method HandleChange(name: string, value: string)
      modifies this
      ensures formData == old(formData)[name := value]
      ensures Field(old(errors), name) != "" ==> errors == old(errors)[name := ""]
      ensures Field(old(errors), name) == "" ==> unchanged(this`errors)
      ensures unchanged(this`news, this`showAddForm, this`showMyNews, this`sortOrder)
    {
      formData := formData[name := value];
      if Field(errors, name) != "" {
        errors := errors[name := ""];
      }
    }

    /** validate: the two checks, each adding its message when it fails. */
    method Validate() returns (newErrors: Record)
      ensures newErrors == Errors(formData)
    {
      newErrors := map[];
      ghost var checks: seq<Check> := [];
      var titleError := RequireText(Field(formData, "title"), TitleRequired);
      RunCheck(checks, Check("title", titleError));
      checks := checks + [Check("title", titleError)];
      newErrors := AddError(newErrors, "title", titleError);
      var contentError := RequireText(Field(formData, "content"), ContentRequired);
      RunCheck(checks, Check("content", contentError));
      checks := checks + [Check("content", contentError)];
      newErrors := AddError(newErrors, "content", contentError);
      assert checks == Checks(formData);
    }

    /**
     * handleSubmit, with `id` for `Date.now()` and `publishDate` for `new Date()`:
     * with any error only the errors change and nothing is saved; otherwise the
     * item is published, the list is reloaded, and the form is reset and hidden.
     */
    method HandleSubmit(auth: AuthProvider, store: DataStore, id: int, publishDate: int)
      requires auth.currentUser.Some?
      modifies this, store
      ensures unchanged(this`showMyNews, this`sortOrder)
      ensures Errors(old(formData)) != map[] ==>
        && errors == Errors(old(formData))
        && unchanged(this`news, this`formData, this`showAddForm) && unchanged(store)
      ensures Errors(old(formData)) == map[] ==>
        var item := Publication(old(formData), auth.currentUser.value, id, publishDate);
        var d := old(store.Current());
        && store.dataFile == Some(d.(news := d.news + [item]))
        && news == d.news + [item]
        && formData == EmptyForm && errors == map[] && !showAddForm
    {
      var validationErrors := Validate();
      if validationErrors != map[] {
        errors := validationErrors;
        return;
      }
      var item := Publication(formData, auth.currentUser.value, id, publishDate);
      var _ := store.CreateNews(item);
      LoadNews(store);
      formData := EmptyForm;
      errors := map[];
      showAddForm := false;
    }
  }
}
