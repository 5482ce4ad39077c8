/** The deterministic order of records and the pages cut from it. */
module Ordering {
  import opened Names
  import opened Dicts
  import opened Sorting

  /** `updated_at` as it arrives; `Other` is a value of another type, known by its text. */
  datatype Stamp = Missing | Text(text: string) | Instant(time: int) | Other(text: string)

  /** `id` is the text of the record's id. */
  datatype Record = Record(id: string, updatedAt: Stamp, fields: map<string, string>)

  /** What a stamp sorts by: a point in time, or its text where it cannot be read as one. */
  datatype Key = Time(time: int) | Words(text: string)

  /** Reads ISO timestamps; None where reading them raises. */
  type Clock = string -> Option<int>

  function SortTime(stamp: Stamp, clock: Clock): Key {
    match stamp
    case Missing => Words("None")
    case Text(text) => if clock(text).Some? then Time(clock(text).value) else Words(text)
    case Instant(time) => Time(time)
    case Other(text) => Words(text)
  }

  predicate NoLess(a: Key, b: Key) {
    match (a, b)
    case (Time(t), Time(u)) => t >= u
    case (Words(s), Words(t)) => Le(t, s)
    case (Words(_), Time(_)) => true
    case (Time(_), Words(_)) => false
  }

  predicate Stamped(r: Record) { r.updatedAt != Missing && r.updatedAt != Text("") }

  function ById(): (Record, Record) -> bool { (x: Record, y: Record) => Le(x.id, y.id) }

  function Newest(clock: Clock): (Record, Record) -> bool {
    (x: Record, y: Record) => NoLess(SortTime(x.updatedAt, clock), SortTime(y.updatedAt, clock))
  }

  /** `order_records` */
  function OrderRecords(records: seq<Record>, clock: Clock): seq<Record> {
    var stamped := Where(records, Stamped);
    var unstamped := Where(records, r => !Stamped(r));
    StableSort(StableSort(stamped, ById()), Newest(clock)) + StableSort(unstamped, ById())
  }

  // ---- what the order is ----

  /** x may stand before y: stamped first, newest first, then by id. */
  predicate InOrder(x: Record, y: Record, clock: Clock) {
    if Stamped(x) != Stamped(y) then Stamped(x)
    else if Stamped(x) then
      && Newest(clock)(x, y) && (Newest(clock)(y, x) ==> Le(x.id, y.id))
    else Le(x.id, y.id)
  }

  lemma NewestIsPreorder(clock: Clock)
    ensures TotalPreorder(Newest(clock))
  {
    var le := Newest(clock);
    forall x: Record, y: Record ensures le(x, y) || le(y, x) {
      var a, b := SortTime(x.updatedAt, clock), SortTime(y.updatedAt, clock);
      if a.Words? && b.Words? { LeTotal(a.text, b.text); }
    }
    forall x: Record, y: Record, z: Record | le(x, y) && le(y, z) ensures le(x, z) {
      var a, b, c := SortTime(x.updatedAt, clock), SortTime(y.updatedAt, clock), SortTime(z.updatedAt, clock);
      if a.Words? && b.Words? && c.Words? { LeTransitive(c.text, b.text, a.text); }
    }
  }

  lemma ByIdIsPreorder()
    ensures TotalPreorder(ById())
  {
    forall x: Record, y: Record ensures ById()(x, y) || ById()(y, x) { LeTotal(x.id, y.id); }
    forall x: Record, y: Record, z: Record | ById()(x, y) && ById()(y, z) ensures ById()(x, z) {
      LeTransitive(x.id, y.id, z.id);
    }
  }

  lemma SortedById(records: seq<Record>)
    ensures Pairwise(StableSort(records, ById()), ById())
  {
    ByIdIsPreorder();
    SortOrdered(records, ById(), (x: Record, y: Record) => true);
  }

  lemma {:induction false} WhereSplits<T>(xs: seq<T>, p: T -> bool, q: T -> bool)
    requires forall x :: q(x) == !p(x)
    ensures multiset(Where(xs, p)) + multiset(Where(xs, q)) == multiset(xs)
  {
    if xs != [] {
      WhereSplits(xs[1..], p, q);
      assert xs == [xs[0]] + xs[1..];
    }
  }

  /** The result is a permutation of the records: stamped ones first, newest first with ties by id, then the
      unstamped ones by id. */
  lemma OrderIsOrdered(records: seq<Record>, clock: Clock)
    ensures multiset(OrderRecords(records, clock)) == multiset(records)
    ensures Pairwise(OrderRecords(records, clock), (x, y) => InOrder(x, y, clock))
  {
    hide Where, StableSort;
    var stamped, unstamped := Where(records, Stamped), Where(records, r => !Stamped(r));
    WhereMembers(records, Stamped);
    WhereMembers(records, r => !Stamped(r));
    WhereSplits(records, Stamped, r => !Stamped(r));
    var first := StableSort(stamped, ById());
    var newest, last := StableSort(first, Newest(clock)), StableSort(unstamped, ById());
    SortedById(stamped);
    SortedById(unstamped);
    NewestIsPreorder(clock);
    SortOrdered(first, Newest(clock), ById());
    SortPermutes(stamped, ById());
    SortPermutes(first, Newest(clock));
    SortPermutes(unstamped, ById());
    SortMembers(stamped, ById());
    SortMembers(first, Newest(clock));
    SortMembers(unstamped, ById());
    Joined(newest, last, clock);
  }

  lemma Joined(newest: seq<Record>, last: seq<Record>, clock: Clock)
    requires OrderedThen(newest, Newest(clock), ById()) && Pairwise(last, ById())
    requires (forall r | r in newest :: Stamped(r)) && forall r | r in last :: !Stamped(r)
    ensures Pairwise(newest + last, (x, y) => InOrder(x, y, clock))
  {
    var all := newest + last;
    forall i, j | 0 <= i < j < |all| ensures InOrder(all[i], all[j], clock) {
      if j < |newest| {
        assert newest[i] in newest && newest[j] in newest;
        assert Newest(clock)(newest[i], newest[j]);
      } else if i < |newest| {
        assert newest[i] in newest && last[j - |newest|] in last;
      } else {
        assert last[i - |newest|] in last && last[j - |newest|] in last;
        assert ById()(last[i - |newest|], last[j - |newest|]);
      }
    }
  }

  /** The time a stamp gives, if it can be read as one. */
  function TimeOf(stamp: Stamp, clock: Clock): Option<int> {
    match stamp
    case Instant(time) => Some(time)
    case Text(text) => if text == "" then None else clock(text)
    case _ => None
  }

  /** What a stamp says that cannot be read as a time. */
  function WordsOf(stamp: Stamp, clock: Clock): Option<string> {
    match stamp
    case Text(text) => if text != "" && clock(text) == None then Some(text) else None
    case Other(text) => Some(text)
    case _ => None
  }

  /** Anywhere in the result: of two readable times the newer stands first, and on equal times the lesser id;
      stamps that cannot be read come before all that can, the greater text first; records without a stamp come last,
      by id. */
  lemma NewestFirst(records: seq<Record>, clock: Clock, i: nat, j: nat)
    requires i < j < |OrderRecords(records, clock)|
    ensures var x, y := OrderRecords(records, clock)[i], OrderRecords(records, clock)[j];
      var t, u := TimeOf(x.updatedAt, clock), TimeOf(y.updatedAt, clock);
      var s, w := WordsOf(x.updatedAt, clock), WordsOf(y.updatedAt, clock);
      && (t.Some? && u.Some? ==> t.value > u.value || (t == u && Le(x.id, y.id)))
      && (s.Some? && w.Some? ==> if s.value == w.value then Le(x.id, y.id) else Le(w.value, s.value))
      && (w.Some? ==> s.Some?)
      && (t == None && s == None ==> u == None && w == None && Le(x.id, y.id))
  {
    hide OrderRecords;
    OrderIsOrdered(records, clock);
    var x, y := OrderRecords(records, clock)[i], OrderRecords(records, clock)[j];
    assert InOrder(x, y, clock);
    var s, w := WordsOf(x.updatedAt, clock), WordsOf(y.updatedAt, clock);
    if s.Some? && w.Some? && s.value != w.value {
      if Le(s.value, w.value) && Le(w.value, s.value) { LeAntisymmetric(s.value, w.value); }
    }
  }

  function Unstamped(): Record -> bool { (r: Record) => !Stamped(r) }

  /** Records the order does not tell apart: the same id and, where they are stamped, equal times. */
  function Tied(x: Record, clock: Clock): Record -> bool {
    (r: Record) => r.id == x.id && Stamped(r) == Stamped(x) && (Stamped(x) ==> Newest(clock)(r, x) && Newest(clock)(x, r))
  }

  /** Ties keep the order the records came in. */
  lemma TiesKeepOrder(records: seq<Record>, x: Record, clock: Clock)
    ensures Where(OrderRecords(records, clock), Tied(x, clock)) == Where(records, Tied(x, clock))
  {
    var tied := Tied(x, clock);
    var stamped, unstamped := Where(records, Stamped), Where(records, r => !Stamped(r));
    var first := StableSort(stamped, ById());
    var newest, last := StableSort(first, Newest(clock)), StableSort(unstamped, ById());
    TiedAlike(x, clock);
    SortKeepsTies(stamped, ById(), tied);
    SortKeepsTies(first, Newest(clock), if Stamped(x) then tied else r => false);
    SortKeepsTies(unstamped, ById(), tied);
    SortedKinds(records, clock);
    WhereAppend(newest, last, tied);
    if Stamped(x) {
      WhereNone(last, tied);
      WhereTwice(records, Stamped, tied, tied);
    } else {
      WhereNone(newest, tied);
      WhereTwice(records, r => !Stamped(r), tied, tied);
    }
  }

  lemma TiedAlike(x: Record, clock: Clock)
    ensures forall y, z | Tied(x, clock)(y) && Tied(x, clock)(z) :: ById()(y, z) && (Stamped(x) ==> Newest(clock)(y, z))
  {
    NewestIsPreorder(clock);
    LeTotal(x.id, x.id);
  }

  /** The two halves of the result: the stamped records and then the unstamped ones. */
  lemma SortedKinds(records: seq<Record>, clock: Clock)
    ensures forall r | r in StableSort(StableSort(Where(records, Stamped), ById()), Newest(clock)) :: Stamped(r)
    ensures forall r | r in StableSort(Where(records, r => !Stamped(r)), ById()) :: !Stamped(r)
  {
    WhereMembers(records, Stamped);
    WhereMembers(records, r => !Stamped(r));
    SortMembers(Where(records, Stamped), ById());
    SortMembers(StableSort(Where(records, Stamped), ById()), Newest(clock));
    SortMembers(Where(records, r => !Stamped(r)), ById());
  }

  /** The unstamped records keep the order they came in exactly when they came in the order of their ids. */
  lemma UnstampedKeepOrder(records: seq<Record>, clock: Clock)
    ensures Where(OrderRecords(records, clock), Unstamped()) == Where(records, Unstamped()) <==>
      Pairwise(Where(records, Unstamped()), ById())
  {
    var newest := StableSort(StableSort(Where(records, Stamped), ById()), Newest(clock));
    var unstamped := Where(records, Unstamped());
    WhereSame(records, r => !Stamped(r), Unstamped());
    var last := StableSort(unstamped, ById());
    SortedKinds(records, clock);
    WhereAppend(newest, last, Unstamped());
    WhereNone(newest, Unstamped());
    WhereAll(last, Unstamped());
    SortedById(unstamped);
    if Pairwise(unstamped, ById()) { SortFixed(unstamped, ById()); }
  }

  /** Two unstamped records that do not: they change places. */
  lemma UnstampedChangePlaces(fields: map<string, string>, clock: Clock)
    ensures var a, b := Record("a", Missing, fields), Record("b", Missing, fields);
      OrderRecords([b, a], clock) == [a, b] && Where(OrderRecords([b, a], clock), Unstamped()) != Where([b, a], Unstamped())
  {
    var a, b := Record("a", Missing, fields), Record("b", Missing, fields);
    var un: Record -> bool := r => !Stamped(r);
    WhereAll([b, a], un);
    WhereAll([b, a], Unstamped());
    WhereAll([a, b], Unstamped());
    WhereNone([b, a], Stamped);
    assert [b, a][1..] == [a];
    assert StableSort([b, a], ById()) == Insert(b, StableSort([a], ById()), ById());
    assert StableSort([a], ById()) == [a];
    assert !Le("b", "a");
    assert Insert(b, [a], ById()) == [a] + Insert(b, [], ById());
  }

  /** With different ids the order leaves no choice. */
  lemma InOrderAntisymmetric(x: Record, y: Record, clock: Clock)
    requires InOrder(x, y, clock) && InOrder(y, x, clock)
    ensures x.id == y.id
  {
    LeAntisymmetric(x.id, y.id);
  }

  ghost predicate OneEach(records: seq<Record>) {
    forall x, y | x in records && y in records && x.id == y.id :: x == y
  }

  lemma SameFirst(a: seq<Record>, b: seq<Record>, clock: Clock)
    requires a != [] && b != [] && OneEach(a) && (forall r :: r in a <==> r in b)
    requires Pairwise(a, (x, y) => InOrder(x, y, clock)) && Pairwise(b, (x, y) => InOrder(x, y, clock))
    ensures a[0] == b[0]
  {
    hide InOrder;
    if a[0] != b[0] {
      assert b[0] in a && a[0] in b;
      var i :| 0 < i < |a| && a[i] == b[0];
      var j :| 0 < j < |b| && b[j] == a[0];
      assert InOrder(a[0], a[i], clock) && InOrder(b[0], b[j], clock);
      InOrderAntisymmetric(a[0], b[0], clock);
    }
  }

  lemma SameMembers<T>(a: seq<T>, b: seq<T>)
    requires multiset(a) == multiset(b)
    ensures |a| == |b| && forall x :: x in a <==> x in b
  {
    assert |a| == |multiset(a)| == |multiset(b)| == |b|;
    forall x ensures x in a <==> x in b { assert x in multiset(a) <==> x in multiset(b); }
  }

  lemma SameRest<T>(a: seq<T>, b: seq<T>)
    requires multiset(a) == multiset(b) && a != [] && b != [] && a[0] == b[0]
    ensures multiset(a[1..]) == multiset(b[1..])
  {
    assert a == [a[0]] + a[1..] && b == [b[0]] + b[1..];
    assert multiset(a[1..]) == multiset(a) - multiset{a[0]} == multiset(b[1..]);
  }

  /** Two orderly lists of the same records are the same list. */
  lemma {:induction false} OneOrderly(a: seq<Record>, b: seq<Record>, clock: Clock)
    requires multiset(a) == multiset(b) && OneEach(a)
    requires Pairwise(a, (x, y) => InOrder(x, y, clock)) && Pairwise(b, (x, y) => InOrder(x, y, clock))
    ensures a == b
    decreases |a|
  {
    hide Pairwise, InOrder;
    SameMembers(a, b);
    if a != [] {
      SameFirst(a, b, clock);
      SameRest(a, b);
      TailOrderly(a, clock);
      TailOrderly(b, clock);
      OneOrderly(a[1..], b[1..], clock);
      assert a == [a[0]] + a[1..] && b == [b[0]] + b[1..];
    }
  }

  lemma TailOrderly(a: seq<Record>, clock: Clock)
    requires a != [] && Pairwise(a, (x, y) => InOrder(x, y, clock))
    ensures Pairwise(a[1..], (x, y) => InOrder(x, y, clock)) && forall r | r in a[1..] :: r in a
  {
    forall i, j | 0 <= i < j < |a[1..]| ensures InOrder(a[1..][i], a[1..][j], clock) {
      assert a[1..][i] == a[i + 1] && a[1..][j] == a[j + 1];
    }
  }

  /** With one record per id, the result depends only on which records there are. */
  lemma OrderCanonical(a: seq<Record>, b: seq<Record>, clock: Clock)
    requires multiset(a) == multiset(b) && OneEach(a)
    ensures OrderRecords(a, clock) == OrderRecords(b, clock)
  {
    OrderIsOrdered(a, clock);
    OrderIsOrdered(b, clock);
    var x := OrderRecords(a, clock);
    forall r | r in x ensures r in a { assert r in multiset(x); assert r in multiset(a); }
    OneOrderly(x, OrderRecords(b, clock), clock);
  }

  // ---- pages ----

  datatype Page = Page(items: seq<Record>, total: nat, limit: int, offset: int)

  /** Where a slice bound falls; negative ones count from the end. */
  function Bound(i: int, n: nat): nat {
    if i < 0 then (if n + i < 0 then 0 else n + i) else if i > n then n else i
  }

  function Slice<T>(xs: seq<T>, lo: int, hi: int): seq<T> {
    if Bound(lo, |xs|) < Bound(hi, |xs|) then xs[Bound(lo, |xs|)..Bound(hi, |xs|)] else []
  }

  function Paginate(records: seq<Record>, limit: int, offset: int): Page {
    Page(Slice(records, offset, offset + limit), |records|, limit, offset)
  }

  /** A page tells how many records there are in all and which were asked for, and has those at the positions from the
      offset up to the offset plus the limit; a position below zero counts from the end, as in any slice. */
  lemma PageSays(records: seq<Record>, limit: int, offset: int, k: nat)
    ensures var p, n := Paginate(records, limit, offset), |records|;
      var from := if offset >= 0 then offset else if n + offset >= 0 then n + offset else 0;
      var upto := if offset + limit >= 0 then offset + limit else n + offset + limit;
      && p.total == n && p.limit == limit && p.offset == offset
      && (k < |p.items| <==> from + k < upto && from + k < n)
      && (k < |p.items| ==> p.items[k] == records[from + k])
  {}

  /** The pages from an offset on, each as far along as the limit. */
  function PagesFrom(records: seq<Record>, limit: nat, offset: nat): seq<Record>
    requires limit >= 1
    decreases |records| - offset
  {
    if offset >= |records| then []
    else Paginate(records, limit, offset).items + PagesFrom(records, limit, offset + limit)
  }

  /** Going through the pages reads every record once, in order. */
  lemma {:induction false} PagesCover(records: seq<Record>, limit: nat, offset: nat)
    requires limit >= 1 && offset <= |records|
    ensures PagesFrom(records, limit, offset) == records[offset..]
    decreases |records| - offset
  {
    if offset < |records| {
      var next := if offset + limit <= |records| then offset + limit else |records|;
      if offset + limit <= |records| { PagesCover(records, limit, offset + limit); }
      assert records[offset..] == records[offset..next] + records[next..];
    }
  }

  lemma PagesOfOrdered(records: seq<Record>, clock: Clock, limit: nat)
    requires limit >= 1
    ensures multiset(PagesFrom(OrderRecords(records, clock), limit, 0)) == multiset(records)
  {
    OrderIsOrdered(records, clock);
    PagesCover(OrderRecords(records, clock), limit, 0);
  }
}
