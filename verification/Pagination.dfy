/** Paging of the user list (api/users.go) and the parameters that drive it
    (api/params.go).  Go's int is 64 bits wide and wraps. */
module Pagination {
  import opened Basics

  const MAX_INT: int := 0x7FFF_FFFF_FFFF_FFFF

  type int64 = x: int | -0x8000_0000_0000_0000 <= x <= 0x7FFF_FFFF_FFFF_FFFF

  function Wrap(x: int): int64 {
    var r := x % 0x1_0000_0000_0000_0000;
    if r > MAX_INT then r - 0x1_0000_0000_0000_0000 else r
  }

  datatype Paging = Paging(page: int64, perPage: int64)

  predicate Normal(p: Paging) { p.page >= 0 && 1 <= p.perPage <= 200 }

  /** `page` and `perPage` are what strconv.Atoi makes of the query, None on an error. */
  method PagingFromQuery(page: Option<int64>, perPage: Option<int64>) returns (p: Paging)
    ensures Normal(p)
    ensures p.page == if page.Some? && page.value >= 0 then page.value else 0
    ensures p.perPage == if perPage.None? || perPage.value <= 0 then 60 else Min(perPage.value, 200)
  {
    var thePage: int64 := 0;
    if page.Some? && page.value >= 0 { thePage := page.value; }
    var size: int64 := 60;
    if perPage.Some? && perPage.value > 0 { size := perPage.value; }
    if size > 200 { size := 200; }
    p := Paging(thePage, size);
  }

  function Min(a: int, b: int): int { if a <= b then a else b }

  /** The users on one page of the whole list. */
  function PageOf<T>(users: seq<T>, page: nat, perPage: nat): seq<T> {
    Slice(users, page * perPage, perPage)
  }

  /** The offset the code computes is the real one exactly when the product fits. */
  predicate Fits(p: Paging) { p.page * p.perPage <= MAX_INT }

  /** users[start:end] after clamping both ends; None when the expression panics. */
  method SliceFrom<T>(users: seq<T>, offset: int64, perPage: int64) returns (r: Option<seq<T>>)
    requires 1 <= perPage <= 200 && |users| <= MAX_INT - 200
    ensures r == if offset < 0 then None else Some(Slice(users, offset, perPage))
  {
    var total := |users|;
    var start := offset;
    if start > total { start := total; }
    var end := Wrap(start + perPage);
    if end > total { end := total; }
    if !(0 <= start <= end <= total) { return None; }
    r := Some(users[start..end]);
  }

  /** The handler's page.  It panics exactly when the product wraps to a negative offset,
      and is the right page exactly when the product fits or wraps past the list's end. */
  method ListUsers<T>(users: seq<T>, p: Paging) returns (r: Option<seq<T>>)
    requires Normal(p) && |users| <= MAX_INT - 200
    ensures r == if Wrap(p.page * p.perPage) < 0 then None else Some(Slice(users, Wrap(p.page * p.perPage), p.perPage))
    ensures r == Some(PageOf(users, p.page, p.perPage)) <==> Fits(p) || Wrap(p.page * p.perPage) >= |users|
  {
    PageBounds(p);
    RightPageIff(users, p.page * p.perPage, p.perPage);
    r := SliceFrom(users, Wrap(p.page * p.perPage), p.perPage);
  }

  function Slice<T>(users: seq<T>, offset: nat, perPage: nat): seq<T> {
    users[Min(offset, |users|)..Min(offset + perPage, |users|)]
  }

  /** The slice at a wrapped offset is the one meant exactly when nothing wrapped, or the
      wrapped offset is past the end as the real one is. */
  lemma RightPageIff<T>(users: seq<T>, offset: nat, perPage: nat)
    requires 1 <= perPage && |users| <= MAX_INT
    ensures offset <= MAX_INT ==> Wrap(offset) == offset
    ensures Wrap(offset) >= 0 ==>
              (Slice(users, Wrap(offset), perPage) == Slice(users, offset, perPage) <==> offset <= MAX_INT || Wrap(offset) >= |users|)
  {
    if offset > MAX_INT {
      assert |Slice(users, offset, perPage)| == 0;
      if 0 <= Wrap(offset) < |users| { assert |Slice(users, Wrap(offset), perPage)| > 0; }
    }
  }

  lemma PageBounds(p: Paging)
    requires Normal(p)
    ensures p.page * p.perPage >= 0
    ensures Fits(p) ==> Wrap(p.page * p.perPage) == p.page * p.perPage
  {}

  /** Pages 0 to n - 1, one after another. */
  function FirstPages<T>(users: seq<T>, perPage: nat, n: nat): seq<T> {
    if n == 0 then [] else FirstPages(users, perPage, n - 1) + PageOf(users, n - 1, perPage)
  }

  lemma OnePageMore<T>(users: seq<T>, offset: nat, perPage: nat)
    ensures users[..Min(offset, |users|)] + Slice(users, offset, perPage) == users[..Min(offset + perPage, |users|)]
  {}

  /** Concatenating the pages gives the list's elements once each and in order: the first
      n pages are its first n * perPage elements, and all of it once that reaches the end. */
  lemma {:induction false} PagesCoverTheList<T>(users: seq<T>, perPage: nat, n: nat)
    ensures FirstPages(users, perPage, n) == users[..Min(n * perPage, |users|)]
  {
    if n > 0 {
      var offset := (n - 1) * perPage;
      PagesCoverTheList(users, perPage, n - 1);
      OnePageMore(users, offset, perPage);
      assert offset + perPage == n * perPage;
    }
  }

  /** Past that bound both failures happen: a product that wraps to a negative offset
      panics, and one that wraps to zero returns the first page again. */
  lemma HugePagesFail()
    ensures exists p: Paging :: Normal(p) && Wrap(p.page * p.perPage) < 0
    ensures exists p: Paging :: Normal(p) && !Fits(p) && Wrap(p.page * p.perPage) == 0
  {
    var p, q := Paging(0x4000_0000_0000_0000, 2), Paging(0x4000_0000_0000_0000, 4);
    assert Wrap(p.page * p.perPage) == -0x8000_0000_0000_0000;
    assert !Fits(q) && Wrap(q.page * q.perPage) == 0;
  }
}
