/**
  Reference meaning of the ORM calls the resource service makes, given over a
  table value: a sequence of stored rows. Filtering, ordering by creation time
  (newest first), the skip/take window, counting and lookup by id.
*/
module Store {
  import opened Wrappers

  /** A stored resource row; `fields` stands for the application-defined payload. */
  datatype Resource = Resource(id: int, name: string, createdAt: int, updatedAt: int, fields: map<string, string>)

  type Table = seq<Resource>

  /** The store keeps ids unique. */
  predicate UniqueIds(t: Table)
  {
    forall i, j :: 0 <= i < j < |t| ==> t[i].id != t[j].id
  }

  /** A where-clause: the empty object `{}` or an equality on `name`. */
  datatype Where = MatchAll | NameEquals(name: string)

  predicate Matches(w: Where, r: Resource)
  {
    match w
    case MatchAll => true
    case NameEquals(n) => r.name == n
  }

  /** The rows of `t` that satisfy `w`, in table order. */
  function Filter(t: Table, w: Where): (r: Table)
    ensures |r| <= |t|
  {
    if t == [] then [] else (if Matches(w, t[0]) then [t[0]] else []) + Filter(t[1..], w)
  }

  /** Each row occurs in the filtered rows as often as in the table if it satisfies
      the where-clause, and not at all otherwise. */
  lemma {:induction false} FilterKeepsMatching(t: Table, w: Where)
    ensures forall x :: multiset(Filter(t, w))[x] == if Matches(w, x) then multiset(t)[x] else 0
  {
    if t != [] {
      FilterKeepsMatching(t[1..], w);
      assert t == [t[0]] + t[1..];
    }
  }

  /** `count({where})`: the number of rows that satisfy `w`. */
  function Count(t: Table, w: Where): (n: nat)
    ensures n <= |t|
  {
    if t == [] then 0 else (if Matches(w, t[0]) then 1 else 0) + Count(t[1..], w)
  }

  /** Counting and fetching under one where-clause see the same rows. */
  lemma {:induction false} CountIsFilterLength(t: Table, w: Where)
    ensures Count(t, w) == |Filter(t, w)|
  {
    if t != [] {
      CountIsFilterLength(t[1..], w);
    }
  }

  /** Ordered by `createdAt` descending. */
  predicate NewestFirst(s: seq<Resource>)
  {
    forall i, j :: 0 <= i < j < |s| ==> s[i].createdAt >= s[j].createdAt
  }

  /** One insertion step: `x` goes before the first row it is not older than. */
  function InsertNewestFirst(x: Resource, s: seq<Resource>): (r: seq<Resource>)
    ensures multiset(r) == multiset(s) + multiset{x}
    ensures |r| == |s| + 1
    ensures r[0] == x || (s != [] && r[0] == s[0])
  {
    if s == [] || x.createdAt >= s[0].createdAt then [x] + s
    else
      assert s == [s[0]] + s[1..];
      [s[0]] + InsertNewestFirst(x, s[1..])
  }

  lemma {:induction false} InsertKeepsNewestFirst(x: Resource, s: seq<Resource>)
    requires NewestFirst(s)
    ensures NewestFirst(InsertNewestFirst(x, s))
  {
    if s != [] && x.createdAt < s[0].createdAt {
      InsertKeepsNewestFirst(x, s[1..]);
    }
  }

  /** `orderBy: {createdAt: "desc"}`, as an insertion sort; rows with equal
      `createdAt` keep table order. */
  function SortNewestFirst(s: seq<Resource>): (r: seq<Resource>)
    ensures multiset(r) == multiset(s)
    ensures |r| == |s|
  {
    if s == [] then []
    else
      assert s == [s[0]] + s[1..];
      InsertNewestFirst(s[0], SortNewestFirst(s[1..]))
  }

  /** The sort orders by `createdAt` descending. */
  lemma {:induction false} SortIsNewestFirst(s: seq<Resource>)
    ensures NewestFirst(SortNewestFirst(s))
  {
    if s != [] {
      SortIsNewestFirst(s[1..]);
      InsertKeepsNewestFirst(s[0], SortNewestFirst(s[1..]));
    }
  }

  /** `skip`/`take`: drop the first `skip` elements and keep at most `take`. */
  function Window<T>(s: seq<T>, skip: nat, take: nat): (r: seq<T>)
    ensures |r| == if skip >= |s| then 0 else if |s| - skip <= take then |s| - skip else take
    ensures forall k :: 0 <= k < |r| ==> r[k] == s[skip + k]
  {
    if skip >= |s| then []
    else if |s| - skip <= take then s[skip..]
    else s[skip..skip + take]
  }

  /** `findMany({where, orderBy: {createdAt: "desc"}, skip, take})`. */
  function FindMany(t: Table, w: Where, skip: nat, take: nat): (r: seq<Resource>)
    ensures |r| <= take
  {
    Window(SortNewestFirst(Filter(t, w)), skip, take)
  }

  /** A fetched page holds stored rows that satisfy the where-clause, newest first. */
  lemma FindManyRows(t: Table, w: Where, skip: nat, take: nat)
    ensures forall x :: x in FindMany(t, w, skip, take) ==> x in t && Matches(w, x)
    ensures NewestFirst(FindMany(t, w, skip, take))
  {
    var ordered := SortNewestFirst(Filter(t, w));
    SortIsNewestFirst(Filter(t, w));
    FilterKeepsMatching(t, w);
    forall x | x in FindMany(t, w, skip, take) ensures x in t && Matches(w, x) {
      assert x in multiset(ordered);
    }
  }

  /** `findUnique({where: {id}})`: the row with that id, or nothing. */
  function FindUnique(t: Table, id: int): (r: Option<Resource>)
    ensures r.Some? <==> exists i :: 0 <= i < |t| && t[i].id == id
    ensures r.Some? ==> r.value in t && r.value.id == id
  {
    if t == [] then None
    else if t[0].id == id then Some(t[0])
    else
      var r := FindUnique(t[1..], id);
      assert forall i :: 1 <= i < |t| ==> t[i] == t[1..][i - 1];
      r
  }

  /** With unique ids, looking up a stored row's id gives back that row. */
  lemma {:induction false} FindUniqueFindsStored(t: Table, i: int)
    requires UniqueIds(t) && 0 <= i < |t|
    ensures FindUnique(t, t[i].id) == Some(t[i])
  {
    if i > 0 {
      assert t[0].id != t[i].id;
      assert UniqueIds(t[1..]) by {
        forall a, b | 0 <= a < b < |t[1..]| ensures t[1..][a].id != t[1..][b].id {
          assert t[1..][a] == t[a + 1] && t[1..][b] == t[b + 1];
        }
      }
      FindUniqueFindsStored(t[1..], i - 1);
    }
  }
}
