/** The three query shapes the repositories are asked for, over a table held
    as a sequence of rows in storage order:
    `where` (Filter), `order: { createdAt: 'DESC' }` (SortNewestFirst) and
    `skip`/`take` (Page). The key function picks the column to order by. */
module Queries {

  function Min(a: nat, b: nat): nat
  {
    if a <= b then a else b
  }

  /** The rows that satisfy keep, in table order, each kept as often as it occurs. */
  function Filter<T(!new)>(s: seq<T>, keep: T -> bool): (r: seq<T>)
    ensures |r| <= |s|
    ensures forall i :: 0 <= i < |r| ==> keep(r[i])
    ensures forall x :: multiset(r)[x] == if keep(x) then multiset(s)[x] else 0
  {
    if s == [] then []
    else
      assert s == [s[0]] + s[1..];
      if keep(s[0]) then [s[0]] + Filter(s[1..], keep) else Filter(s[1..], keep)
  }

  /** No row comes after a row with a smaller key: newest first. */
  ghost predicate NewestFirst<T>(s: seq<T>, key: T -> int)
  {
    forall i, j :: 0 <= i < j < |s| ==> key(s[i]) >= key(s[j])
  }

  /** Every element of a newest-first sequence is no newer than its head. */
  lemma HeadIsNewest<T>(s: seq<T>, key: T -> int, y: T)
    requires NewestFirst(s, key) && |s| > 0 && y in multiset(s)
    ensures key(y) <= key(s[0])
  {
    var k :| 0 <= k < |s| && s[k] == y;
  }

  /** Putting a row no older than any other in front keeps the order. */
  lemma ConsNewestFirst<T>(h: T, s: seq<T>, key: T -> int)
    requires NewestFirst(s, key)
    requires forall j :: 0 <= j < |s| ==> key(s[j]) <= key(h)
    ensures NewestFirst([h] + s, key)
  {
    forall i, j | 0 <= i < j < |s| + 1
      ensures key(([h] + s)[i]) >= key(([h] + s)[j])
    {
      assert ([h] + s)[j] == s[j - 1];
      if i > 0 {
        assert ([h] + s)[i] == s[i - 1];
      }
    }
  }

  /** Places x in front of the first row that is not newer than it. */
  function Insert<T>(x: T, s: seq<T>, key: T -> int): (r: seq<T>)
    requires NewestFirst(s, key)
    ensures NewestFirst(r, key)
    ensures multiset(r) == multiset(s) + multiset{x}
  {
    if s == [] then [x]
    else if key(x) >= key(s[0]) then
      ConsNewestFirst(x, s, key);
      [x] + s
    else
      assert s == [s[0]] + s[1..];
      var rest := Insert(x, s[1..], key);
      forall j | 0 <= j < |rest| ensures key(rest[j]) <= key(s[0]) {
        assert rest[j] in multiset(rest);
        if rest[j] != x {
          HeadIsNewest(s, key, rest[j]);
        }
      }
      ConsNewestFirst(s[0], rest, key);
      [s[0]] + rest
  }

  /** `order: { createdAt: 'DESC' }`: a newest-first permutation of the rows.
      Rows with equal keys come out in some order the database is free to pick;
      this one is as good as any other. */
  function SortNewestFirst<T>(s: seq<T>, key: T -> int): (r: seq<T>)
    ensures NewestFirst(r, key)
    ensures multiset(r) == multiset(s)
  {
    if s == [] then []
    else
      assert s == [s[0]] + s[1..];
      Insert(s[0], SortNewestFirst(s[1..], key), key)
  }

  /** `skip: skip, take: take`: the rows from position skip on, at most take of them. */
  function Page<T>(s: seq<T>, skip: nat, take: nat): (r: seq<T>)
    ensures |r| == if skip >= |s| then 0 else Min(take, |s| - skip)
    ensures forall i :: 0 <= i < |r| ==> r[i] == s[skip + i]
  {
    if skip >= |s| then [] else s[skip..][..Min(take, |s| - skip)]
  }

  /** TypeORM's `find({ skip, take })`: a take of 0 is falsy and adds no
      LIMIT, so every row from skip on comes back. */
  function FindPage<T>(s: seq<T>, skip: nat, take: nat): (r: seq<T>)
    ensures |r| == if skip >= |s| then 0 else if take == 0 then |s| - skip else Min(take, |s| - skip)
    ensures forall i :: 0 <= i < |r| ==> r[i] == s[skip + i]
  {
    Page(s, skip, if take == 0 then |s| else take)
  }

  /** A page of a newest-first sequence is newest first, and holds only rows
      of that sequence, no row more often than there. */
  lemma PageOfSorted<T>(s: seq<T>, key: T -> int, skip: nat, take: nat)
    requires NewestFirst(s, key)
    ensures NewestFirst(Page(s, skip, take), key)
    ensures multiset(Page(s, skip, take)) <= multiset(s)
  {
    var r := Page(s, skip, take);
    if skip < |s| {
      var m := Min(take, |s| - skip);
      assert r == s[skip..skip + m];
      assert s == s[..skip] + s[skip..skip + m] + s[skip + m..];
      assert multiset(s) == multiset(s[..skip]) + multiset(r) + multiset(s[skip + m..]);
    }
  }

  /** A first page at least as large as the sequence is the whole sequence. */
  lemma WholePage<T>(s: seq<T>, take: nat)
    requires |s| <= take
    ensures Page(s, 0, take) == s
  {
  }

  /** A page of the newest-first selection from s: rows that satisfy keep,
      newest first, none more often than in s. */
  lemma SelectionPage<T(!new)>(s: seq<T>, keep: T -> bool, key: T -> int, skip: nat, take: nat)
    ensures
      var r := Page(SortNewestFirst(Filter(s, keep), key), skip, take);
      && (forall i :: 0 <= i < |r| ==> keep(r[i]))
      && NewestFirst(r, key)
      && multiset(r) <= multiset(s)
  {
    var selected := Filter(s, keep);
    var sorted := SortNewestFirst(selected, key);
    var r := Page(sorted, skip, take);
    PageOfSorted(sorted, key, skip, take);
    forall i | 0 <= i < |r| ensures keep(r[i]) {
      assert r[i] in multiset(sorted);
      assert r[i] in multiset(selected);
    }
    assert multiset(selected) <= multiset(s);
  }
}
