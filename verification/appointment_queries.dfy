/** The read side of services/appointmentService.js: `getAllAppointments`
    (exact filters, newest first, one page) and `getUserAppointments` (one
    user's records, oldest first). */
module AppointmentQueries {
  import opened Wrappers
  import opened Text
  import opened AppointmentModel

  /** Ascending order on (date, timeSlot), each compared as MongoDB compares
      strings. */
  predicate KeyLeq(a: Appointment, b: Appointment) {
    || Compare(a.date, b.date) < 0
    || (Compare(a.date, b.date) == 0 && Compare(a.timeSlot, b.timeSlot) <= 0)
  }

  /** Whether `a` may come before `b` when sorting ascending (`desc` false)
      or descending (`desc` true). */
  predicate Before(a: Appointment, b: Appointment, desc: bool) {
    if desc then KeyLeq(b, a) else KeyLeq(a, b)
  }

  predicate SortedBy(s: seq<Appointment>, desc: bool) {
    forall i, j :: 0 <= i < j < |s| ==> Before(s[i], s[j], desc)
  }

  lemma KeyLeqTotal(a: Appointment, b: Appointment)
    ensures KeyLeq(a, b) || KeyLeq(b, a)
  {
    CompareFlip(a.date, b.date);
    CompareFlip(a.timeSlot, b.timeSlot);
  }

  lemma KeyLeqTrans(a: Appointment, b: Appointment, c: Appointment)
    requires KeyLeq(a, b) && KeyLeq(b, c)
    ensures KeyLeq(a, c)
  {
    CompareTrans(a.date, b.date, c.date);
    if Compare(a.date, b.date) < 0 || Compare(b.date, c.date) < 0 {
      CompareStrictTrans(a.date, b.date, c.date);
    } else {
      CompareZero(a.date, b.date);
      CompareZero(b.date, c.date);
      CompareTrans(a.timeSlot, b.timeSlot, c.timeSlot);
    }
  }

  lemma BeforeTotal(a: Appointment, b: Appointment, desc: bool)
    ensures Before(a, b, desc) || Before(b, a, desc)
  {
    KeyLeqTotal(a, b);
  }

  lemma BeforeTrans(a: Appointment, b: Appointment, c: Appointment, desc: bool)
    requires Before(a, b, desc) && Before(b, c, desc)
    ensures Before(a, c, desc)
  {
    if desc { KeyLeqTrans(c, b, a); } else { KeyLeqTrans(a, b, c); }
  }

  /** Every later element of a sorted sequence may follow its head. */
  lemma HeadBeforeRest(s: seq<Appointment>, desc: bool)
    requires |s| > 0 && SortedBy(s, desc)
    ensures forall y :: y in s[1..] ==> Before(s[0], y, desc)
  {
    forall y | y in s[1..] ensures Before(s[0], y, desc) {
      var k :| 0 <= k < |s[1..]| && s[1..][k] == y;
      assert s[k + 1] == y;
    }
  }

  lemma InsertFront(x: Appointment, s: seq<Appointment>, desc: bool)
    requires |s| > 0 && SortedBy(s, desc) && Before(x, s[0], desc)
    ensures SortedBy([x] + s, desc)
  {
    HeadBeforeRest(s, desc);
    forall y | y in s ensures Before(x, y, desc) {
      if y != s[0] {
        assert y in s[1..] by { assert s == [s[0]] + s[1..]; }
        BeforeTrans(x, s[0], y, desc);
      }
    }
    var r := [x] + s;
    forall i, j | 0 <= i < j < |r| ensures Before(r[i], r[j], desc) {
      if i > 0 { assert r[i] == s[i - 1] && r[j] == s[j - 1]; }
      else { assert r[j] in s; }
    }
  }

  lemma InsertBehind(x: Appointment, s: seq<Appointment>, rest: seq<Appointment>, desc: bool)
    requires |s| > 0 && SortedBy(s, desc) && !Before(x, s[0], desc)
    requires SortedBy(rest, desc) && multiset(rest) == multiset(s[1..]) + multiset{x}
    ensures SortedBy([s[0]] + rest, desc)
    ensures multiset([s[0]] + rest) == multiset(s) + multiset{x}
  {
    HeadBeforeRest(s, desc);
    BeforeTotal(x, s[0], desc);
    forall y | y in rest ensures Before(s[0], y, desc) {
      assert y in multiset(rest);
      if y != x { assert y in multiset(s[1..]); }
    }
    var r := [s[0]] + rest;
    forall i, j | 0 <= i < j < |r| ensures Before(r[i], r[j], desc) {
      if i > 0 { assert r[i] == rest[i - 1] && r[j] == rest[j - 1]; }
      else { assert r[j] in rest; }
    }
    assert s == [s[0]] + s[1..];
  }

  /** Insert one record into a sorted sequence. */
  function Insert(x: Appointment, s: seq<Appointment>, desc: bool): (r: seq<Appointment>)
    requires SortedBy(s, desc)
    ensures SortedBy(r, desc)
    ensures multiset(r) == multiset(s) + multiset{x}
    ensures |r| == |s| + 1
  {
    if |s| == 0 then [x]
    else if Before(x, s[0], desc) then
      InsertFront(x, s, desc);
      [x] + s
    else
      var rest := Insert(x, s[1..], desc);
      InsertBehind(x, s, rest, desc);
      [s[0]] + rest
  }

  /** The sort of a MongoDB query on (date, timeSlot): a sorted permutation. */
  function SortBy(s: seq<Appointment>, desc: bool): (r: seq<Appointment>)
    ensures SortedBy(r, desc)
    ensures multiset(r) == multiset(s)
    ensures |r| == |s|
  {
    if |s| == 0 then []
    else
      var r := Insert(s[0], SortBy(s[1..], desc), desc);
      MultisetCons(s);
      r
  }

  lemma MultisetCons(s: seq<Appointment>)
    requires |s| > 0
    ensures multiset(s) == multiset(s[1..]) + multiset{s[0]}
  {
    assert s == [s[0]] + s[1..];
  }

  /** The query string of `getAllAppointments`; `None` is an absent key and
      `users` is the id set a name search resolved to. */
  datatype Query = Query(page: Option<nat>, limit: Option<nat>, status: Option<string>,
                         date: Option<string>, users: Option<set<Id>>)

  function PageOf(q: Query): nat { if q.page.Some? then q.page.value else 1 }
  function LimitOf(q: Query): nat { if q.limit.Some? then q.limit.value else 10 }

  /** The filter object: status and date only when truthy (non-empty). */
  predicate Matches(a: Appointment, q: Query) {
    && (q.status.Some? && q.status.value != "" ==> StatusName(a.status) == q.status.value)
    && (q.date.Some? && q.date.value != "" ==> a.date == q.date.value)
    && (q.users.Some? ==> a.user in q.users.value)
  }

  /** `find(filter)` in store order. */
  function Filter(store: Store, q: Query): (r: seq<Appointment>)
    ensures forall a :: a in r <==> a in store && Matches(a, q)
    ensures forall a :: multiset(r)[a] == (if Matches(a, q) then multiset(store)[a] else 0)
    ensures |r| <= |store|
  {
    if |store| == 0 then []
    else
      var rest := Filter(store[1..], q);
      assert forall a :: a in store <==> a == store[0] || a in store[1..];
      FilterCountStep(store, q, rest);
      if Matches(store[0], q) then [store[0]] + rest else rest
  }

  /** The count of each record carries over from the tail to the whole store. */
  lemma FilterCountStep(store: Store, q: Query, rest: seq<Appointment>)
    requires |store| > 0
    requires forall a :: multiset(rest)[a] == (if Matches(a, q) then multiset(store[1..])[a] else 0)
    ensures var r := if Matches(store[0], q) then [store[0]] + rest else rest;
      forall a :: multiset(r)[a] == (if Matches(a, q) then multiset(store)[a] else 0)
  {
    assert store == [store[0]] + store[1..];
    assert multiset(store) == multiset{store[0]} + multiset(store[1..]);
  }

  datatype Page = Page(items: seq<Appointment>, total: nat, page: nat, pages: nat)

  function Min(a: int, b: int): int { if a < b then a else b }

  /** `skip((page - 1) * limit).limit(limit)` over an already sorted list. */
  function Window(all: seq<Appointment>, skip: nat, limit: nat): (w: seq<Appointment>)
    ensures |w| <= limit
    ensures forall a :: a in w ==> a in all
    ensures forall i :: 0 <= i < |w| ==> skip + i < |all| && w[i] == all[skip + i]
    ensures skip < |all| ==> |w| == Min(limit, |all| - skip)
  {
    all[Min(skip, |all|)..Min(skip + limit, |all|)]
  }

  lemma WindowSorted(all: seq<Appointment>, skip: nat, limit: nat, desc: bool)
    requires SortedBy(all, desc)
    ensures SortedBy(Window(all, skip, limit), desc)
  {
    var w := Window(all, skip, limit);
    forall i, j | 0 <= i < j < |w| ensures Before(w[i], w[j], desc) {
      assert w[i] == all[skip + i] && w[j] == all[skip + j];
    }
  }

  /** How many records the requested page skips. */
  function SkipOf(q: Query): nat
    requires PageOf(q) >= 1
  {
    (PageOf(q) - 1) * LimitOf(q)
  }

  /** `Math.ceil(total / limit)`. */
  function PageCount(total: nat, limit: nat): (p: nat)
    requires limit >= 1
    ensures total == 0 ==> p == 0
    ensures total > 0 ==> (p - 1) * limit < total <= p * limit
  {
    CeilDiv(total, limit);
    (total + limit - 1) / limit
  }

  /** The records of the requested page: sorted, matching, at most `limit`. */
  lemma PageItemsFacts(store: Store, q: Query)
    requires PageOf(q) >= 1 && LimitOf(q) >= 1
    ensures var items := Window(SortBy(Filter(store, q), true), SkipOf(q), LimitOf(q));
      && (forall a :: a in items ==> a in store && Matches(a, q))
      && SortedBy(items, true)
  {
    var matching := Filter(store, q);
    var all := SortBy(matching, true);
    WindowSorted(all, SkipOf(q), LimitOf(q), true);
    assert forall a :: a in all ==> a in multiset(matching);
  }

  /** `getAllAppointments(query)`. */
  function GetAllAppointments(store: Store, q: Query): (r: Page)
    requires PageOf(q) >= 1 && LimitOf(q) >= 1
    ensures r.total == |Filter(store, q)|
    ensures r.page == PageOf(q)
    ensures |r.items| <= LimitOf(q)
    ensures forall a :: a in r.items ==> a in store && Matches(a, q)
    ensures SortedBy(r.items, true)
    ensures r.pages == PageCount(r.total, LimitOf(q))
    ensures r.items == Window(SortBy(Filter(store, q), true), SkipOf(q), LimitOf(q))
  {
    PageItemsFacts(store, q);
    var total := |Filter(store, q)|;
    Page(Window(SortBy(Filter(store, q), true), SkipOf(q), LimitOf(q)),
         total, PageOf(q), PageCount(total, LimitOf(q)))
  }

  lemma CeilDiv(total: nat, limit: nat)
    requires limit >= 1
    ensures total == 0 ==> (total + limit - 1) / limit == 0
    ensures total > 0 ==>
      var p := (total + limit - 1) / limit;
      (p - 1) * limit < total <= p * limit
  {
    var p := (total + limit - 1) / limit;
    var r := (total + limit - 1) % limit;
    assert p * limit + r == total + limit - 1;
  }

  /** `getUserAppointments(userId)`: that user's records, ascending. */
  function GetUserAppointments(store: Store, user: Id): (r: seq<Appointment>)
    ensures forall a :: a in r <==> a in store && a.user == user
    ensures forall a :: multiset(r)[a] == (if a.user == user then multiset(store)[a] else 0)
    ensures SortedBy(r, false)
  {
    var q := Query(None, None, None, None, Some({user}));
    var mine := Filter(store, q);
    var r := SortBy(mine, false);
    assert forall a :: a in r <==> a in multiset(mine);
    assert forall a :: Matches(a, q) <==> a.user == user;
    r
  }

  /** Item i of a page is the record at sorted position skip + i. */
  lemma PageEntry(store: Store, q: Query, i: nat)
    requires PageOf(q) >= 1 && LimitOf(q) >= 1
    requires i < LimitOf(q) && SkipOf(q) + i < |Filter(store, q)|
    ensures var r := GetAllAppointments(store, q);
      i < |r.items| && r.items[i] == SortBy(Filter(store, q), true)[SkipOf(q) + i]
  {
  }

  /** Changing only the page number leaves the filter, and so the sorted
      list being paged, unchanged. */
  lemma PageNumberIrrelevant(store: Store, q: Query, p: nat)
    ensures Filter(store, q.(page := Some(p))) == Filter(store, q)
  {
    var q' := q.(page := Some(p));
    assert forall a :: Matches(a, q') <==> Matches(a, q);
    FilterSameMatches(store, q, q');
  }

  /** Asking for page p of the same query shows item i of that page as the
      record at sorted position skip + i, where skip = (p - 1) * limit, for
      every such position the filter produces. */
  lemma PageHolds(store: Store, q: Query, p: nat, skip: nat, i: nat)
    requires LimitOf(q) >= 1 && p >= 1 && i < LimitOf(q)
    requires skip == (p - 1) * LimitOf(q)
    requires skip + i < |Filter(store, q)|
    ensures i < |GetAllAppointments(store, q.(page := Some(p))).items|
    ensures GetAllAppointments(store, q.(page := Some(p))).items[i]
         == SortBy(Filter(store, q), true)[skip + i]
  {
    var q' := q.(page := Some(p));
    PageNumberIrrelevant(store, q, p);
    SkipOfPage(q, p);
    PageEntry(store, q', i);
  }

  lemma SkipOfPage(q: Query, p: nat)
    requires p >= 1
    ensures SkipOf(q.(page := Some(p))) == (p - 1) * LimitOf(q)
    ensures LimitOf(q.(page := Some(p))) == LimitOf(q)
  {
  }

  lemma {:induction false} FilterSameMatches(store: Store, q: Query, q': Query)
    requires forall a :: Matches(a, q') <==> Matches(a, q)
    ensures Filter(store, q') == Filter(store, q)
  {
    if |store| > 0 {
      FilterSameMatches(store[1..], q, q');
    }
  }
}
