/**
 * Removing duplicated employees: the employees are grouped by their trimmed CPF, and in each
 * group of more than one the earliest created is kept and the others are deleted. Employees
 * without a CPF are left alone.
 */
module RemoveDuplicates {
  import opened Wrappers
  import opened Strings
  import opened Collections

  /** The columns of an employee this reads: `created_at` is a timestamp in milliseconds. */
  datatype Row = Row(id: string, cpf: Option<string>, createdAt: int)

  // ---------------------------------------------------------------------------------------
  // Grouping by CPF

  /** `emp.cpf && emp.cpf.trim() ? emp.cpf.trim() : (no key)`. */
  function CpfKey(e: Row): Option<string> {
    if e.cpf.Some? && Trim(e.cpf.value) != "" then Some(Trim(e.cpf.value)) else None
  }

  /** An employee has no CPF key exactly when the CPF is missing or only white space. */
  lemma CpfKeyAbsent(e: Row)
    ensures CpfKey(e).None? <==> e.cpf.None? || AllSpaces(e.cpf.value)
  {
    if e.cpf.Some? {
      TrimEmpty(e.cpf.value);
    }
  }

  /** White space around a CPF does not matter: " 123 " and "123" fall in the same group. */
  lemma PaddedCpfSharesKey(e: Row, p: string, c: string, q: string)
    requires AllSpaces(p) && AllSpaces(q) && c != [] && !IsSpace(c[0]) && !IsSpace(c[|c| - 1])
    requires e.cpf == Some(p + c + q)
    ensures CpfKey(e) == Some(c)
  {
    TrimPadded(p, c, q);
  }

  /*
   * The grouping is stated for any key function; the removal uses `CpfKey`. Keeping the key
   * abstract here keeps the trimming out of the grouping proofs.
   */

  /** The employees that have key `k`. */
  function HasKey(key: Row -> Option<string>, k: string): Row -> bool {
    (e: Row) => key(e) == Some(k)
  }

  /** The employees that have no key. */
  function NoKey(key: Row -> Option<string>): Row -> bool {
    (e: Row) => key(e).None?
  }

  /** The employees with key `k`, in the order they were fetched. */
  function Group(es: seq<Row>, key: Row -> Option<string>, k: string): seq<Row> {
    Filter(es, HasKey(key, k))
  }

  /** The distinct keys, in the order they first occur: the order of the `Map`'s keys. */
  function Keys(es: seq<Row>, key: Row -> Option<string>): seq<string> {
    if es == [] then []
    else
      var init := Keys(es[..|es| - 1], key);
      var k := key(es[|es| - 1]);
      if k.Some? && k.value !in init then init + [k.value] else init
  }

  /** Each key occurs once among the keys. */
  lemma {:induction false} KeysDistinct(es: seq<Row>, key: Row -> Option<string>)
    ensures forall i, j :: 0 <= i < j < |Keys(es, key)| ==> Keys(es, key)[i] != Keys(es, key)[j]
  {
    if es != [] {
      KeysDistinct(es[..|es| - 1], key);
    }
  }

  /** The keys are exactly the keys of the employees. */
  lemma {:induction false} KeysMembers(es: seq<Row>, key: Row -> Option<string>, k: string)
    ensures k in Keys(es, key) <==> exists i :: 0 <= i < |es| && key(es[i]) == Some(k)
  {
    if es != [] {
      var init := es[..|es| - 1];
      KeysMembers(init, key, k);
      if k in Keys(init, key) {
        var i :| 0 <= i < |init| && key(init[i]) == Some(k);
        assert es[i] == init[i];
      } else if exists i :: 0 <= i < |es| && key(es[i]) == Some(k) {
        var i :| 0 <= i < |es| && key(es[i]) == Some(k);
        if i < |init| {
          assert init[i] == es[i];
        }
      }
    }
  }

  /** A key that no employee has has an empty group. */
  lemma NoGroupWithoutKey(es: seq<Row>, key: Row -> Option<string>, k: string)
    ensures k !in Keys(es, key) ==> Group(es, key, k) == []
  {
    FilterMembers(es, HasKey(key, k));
    KeysMembers(es, key, k);
    var g := Group(es, key, k);
    if g != [] {
      assert g[0] in es;
    }
  }

  /** One more employee: the groups and the employees without a key grow by at most it. */
  lemma GroupsSnoc(es: seq<Row>, key: Row -> Option<string>, e: Row)
    ensures forall k :: Group(es + [e], key, k) == Group(es, key, k) + (if key(e) == Some(k) then [e] else [])
    ensures Filter(es + [e], NoKey(key)) == Filter(es, NoKey(key)) + (if key(e).None? then [e] else [])
    ensures Keys(es + [e], key) == if key(e).Some? && key(e).value !in Keys(es, key)
                                   then Keys(es, key) + [key(e).value] else Keys(es, key)
  {
    forall k ensures Group(es + [e], key, k) == Group(es, key, k) + (if key(e) == Some(k) then [e] else []) {
      FilterSnoc(es, e, HasKey(key, k));
    }
    FilterSnoc(es, e, NoKey(key));
    assert (es + [e])[..|es|] == es;
  }

  /** `keys`, `grouped` and `noKey` are what grouping `done` gives. */
  ghost predicate GroupedAs(done: seq<Row>, key: Row -> Option<string>,
                      keys: seq<string>, grouped: map<string, seq<Row>>, noKey: seq<Row>) {
    && keys == Keys(done, key)
    && (forall k :: k in grouped <==> k in keys)
    && (forall k :: k in grouped ==> grouped[k] == Group(done, key, k))
    && noKey == Filter(done, NoKey(key))
  }

  /** One step of the `forEach`: `e` goes onto the group of its key, or onto `noKey`. */
  lemma GroupedSnoc(done: seq<Row>, key: Row -> Option<string>, e: Row,
                    keys: seq<string>, grouped: map<string, seq<Row>>, noKey: seq<Row>)
    requires GroupedAs(done, key, keys, grouped, noKey)
    ensures key(e).None? ==> GroupedAs(done + [e], key, keys, grouped, noKey + [e])
    ensures key(e).Some? ==>
              var k := key(e).value;
              var g := if k in grouped then grouped[k] else [];
              GroupedAs(done + [e], key, if k in grouped then keys else keys + [k], grouped[k := g + [e]], noKey)
  {
    GroupsSnoc(done, key, e);
    if key(e).Some? {
      var k := key(e).value;
      if k !in grouped {
        NoGroupWithoutKey(done, key, k);
      }
      var g := if k in grouped then grouped[k] else [];
      var grouped' := grouped[k := g + [e]];
      forall m | m in grouped' ensures grouped'[m] == Group(done + [e], key, m) {
        if m != k {
          assert grouped'[m] == grouped[m];
        }
      }
    }
  }

  /**
   * The `forEach` that fills `grouped` and `noCpf`: an employee with a key is pushed onto the
   * group of its key, created the first time that key is seen; the others go to `noKey`.
   */
  method GroupBy(es: seq<Row>, key: Row -> Option<string>)
    returns (keys: seq<string>, grouped: map<string, seq<Row>>, noKey: seq<Row>)
    ensures keys == Keys(es, key)
    ensures forall k :: k in grouped <==> k in keys
    ensures forall k :: k in grouped ==> grouped[k] == Group(es, key, k)
    ensures noKey == Filter(es, NoKey(key))
  {
    keys, grouped, noKey := [], map[], [];
    for i := 0 to |es|
      invariant GroupedAs(es[..i], key, keys, grouped, noKey)
    {
      var emp := es[i];
      assert es[..i + 1] == es[..i] + [emp];
      GroupedSnoc(es[..i], key, emp, keys, grouped, noKey);
      ghost var before := grouped;
      var k := key(emp);
      if k.Some? {
        if k.value !in grouped {
          keys := keys + [k.value];
          grouped := grouped[k.value := []];
        }
        grouped := grouped[k.value := grouped[k.value] + [emp]];
        assert grouped == before[k.value := (if k.value in before then before[k.value] else []) + [emp]];
      } else {
        noKey := noKey + [emp];
      }
    }
    assert es[..|es|] == es;
  }

  // ---------------------------------------------------------------------------------------
  // Keeping the earliest of each group

  /** Inserts `x` before the first employee created no earlier than it. */
  function Insert(x: Row, s: seq<Row>): (r: seq<Row>)
    ensures multiset(r) == multiset(s) + multiset{x}
    ensures |r| == |s| + 1
  {
    if s == [] then [x]
    else if x.createdAt <= s[0].createdAt then [x] + s
    else
      assert s == [s[0]] + s[1..];
      [s[0]] + Insert(x, s[1..])
  }

  predicate SortedByCreation(s: seq<Row>) {
    forall i, j :: 0 <= i < j < |s| ==> s[i].createdAt <= s[j].createdAt
  }

  /**
   * `group.sort((a, b) => created(a) - created(b))`: ascending creation time; the sort is
   * stable, so employees created at the same time keep their order.
   */
  function SortByCreation(g: seq<Row>): (r: seq<Row>)
    ensures multiset(r) == multiset(g)
    ensures |r| == |g|
  {
    if g == [] then []
    else
      assert g == [g[0]] + g[1..];
      Insert(g[0], SortByCreation(g[1..]))
  }

  /** Every employee of `s` was created at `t` or later. */
  predicate CreatedFrom(s: seq<Row>, t: int) {
    forall i :: 0 <= i < |s| ==> t <= s[i].createdAt
  }

  /** The tail of a sorted sequence is sorted and starts no earlier than its head. */
  lemma SortedTail(s: seq<Row>)
    requires s != [] && SortedByCreation(s)
    ensures SortedByCreation(s[1..]) && CreatedFrom(s[1..], s[0].createdAt)
  {
    assert forall i :: 0 <= i < |s| - 1 ==> s[1..][i] == s[i + 1];
  }

  /** A head created no later than a sorted tail makes a sorted sequence. */
  lemma SortedCons(h: Row, s: seq<Row>)
    requires SortedByCreation(s) && CreatedFrom(s, h.createdAt)
    ensures SortedByCreation([h] + s)
  {
    assert forall i :: 0 <= i < |s| ==> ([h] + s)[i + 1] == s[i];
  }

  /** Inserting an employee created at `t` or later keeps every employee created at `t` or later. */
  lemma {:induction false} InsertCreatedFrom(x: Row, s: seq<Row>, t: int)
    requires CreatedFrom(s, t) && t <= x.createdAt
    ensures CreatedFrom(Insert(x, s), t)
  {
    if s != [] && x.createdAt > s[0].createdAt {
      var tail := s[1..];
      forall i | 0 <= i < |tail| ensures t <= tail[i].createdAt {
        assert tail[i] == s[i + 1];
      }
      InsertCreatedFrom(x, tail, t);
      var r := [s[0]] + Insert(x, tail);
      assert Insert(x, s) == r;
      forall i | 0 <= i < |r| ensures t <= r[i].createdAt {
        if i > 0 {
          assert r[i] == Insert(x, tail)[i - 1];
        }
      }
    }
  }

  /** Inserting into a sorted sequence keeps it sorted. */
  lemma {:induction false} InsertSorted(x: Row, s: seq<Row>)
    requires SortedByCreation(s)
    ensures SortedByCreation(Insert(x, s))
  {
    if s == [] {
    } else if x.createdAt <= s[0].createdAt {
      SortedTail(s);
      SortedCons(x, s);
    } else {
      SortedTail(s);
      InsertSorted(x, s[1..]);
      InsertCreatedFrom(x, s[1..], s[0].createdAt);
      SortedCons(s[0], Insert(x, s[1..]));
    }
  }

  /** The sort orders the group by creation time. */
  lemma {:induction false} SortIsSorted(g: seq<Row>)
    ensures SortedByCreation(SortByCreation(g))
  {
    if g != [] {
      SortIsSorted(g[1..]);
      InsertSorted(g[0], SortByCreation(g[1..]));
    }
  }

  /** `g[i]` is the earliest created of `g`, and no earlier element was created at that time. */
  predicate FirstEarliest(g: seq<Row>, i: int) {
    0 <= i < |g|
    && (forall j :: 0 <= j < |g| ==> g[i].createdAt <= g[j].createdAt)
    && (forall j :: 0 <= j < i ==> g[j].createdAt > g[i].createdAt)
  }

  /** The head of a sequence after insertion. */
  lemma InsertHead(x: Row, s: seq<Row>)
    ensures Insert(x, s)[0] == if s == [] || x.createdAt <= s[0].createdAt then x else s[0]
  {
  }

  /** The first element of the sorted group is the first of its earliest created employees. */
  lemma {:induction false} SortHead(g: seq<Row>, i: int)
    requires FirstEarliest(g, i)
    ensures SortByCreation(g)[0] == g[i]
  {
    var rest := SortByCreation(g[1..]);
    InsertHead(g[0], rest);
    if i == 0 {
      if rest != [] {
        assert rest[0] in multiset(g[1..]);
        assert rest[0] in g[1..];
      }
    } else {
      assert FirstEarliest(g[1..], i - 1) by {
        assert forall j :: 0 <= j < |g| - 1 ==> g[1..][j] == g[j + 1];
      }
      SortHead(g[1..], i - 1);
      assert g[0].createdAt > g[i].createdAt;
    }
  }

  /** The employees of a group that are deleted: all but the first after sorting, if more than one. */
  function Duplicates(g: seq<Row>): (d: seq<Row>)
    ensures |d| == if g == [] then 0 else |g| - 1
  {
    if |g| > 1 then SortByCreation(g)[1..] else []
  }

  lemma HeadAndTail(s: seq<Row>)
    requires s != []
    ensures multiset(s[1..]) + multiset{s[0]} == multiset(s)
  {
    assert s == [s[0]] + s[1..];
  }

  /** The one employee of a group that is kept: the earliest created, ties going to the first fetched. */
  lemma KeepsEarliest(g: seq<Row>, i: int)
    requires FirstEarliest(g, i)
    ensures multiset(Duplicates(g)) + multiset{g[i]} == multiset(g)
  {
    if |g| > 1 {
      SortHead(g, i);
      HeadAndTail(SortByCreation(g));
    } else {
      assert g == [g[i]];
    }
  }

  /** Every group has a first earliest employee. */
  lemma {:induction false} HasFirstEarliest(g: seq<Row>) returns (i: int)
    requires g != []
    ensures FirstEarliest(g, i)
  {
    if |g| == 1 {
      i := 0;
    } else {
      var init := g[..|g| - 1];
      var j := HasFirstEarliest(init);
      assert forall m :: 0 <= m < |init| ==> init[m] == g[m];
      if g[|g| - 1].createdAt < g[j].createdAt {
        i := |g| - 1;
      } else {
        i := j;
      }
    }
  }

  // ---------------------------------------------------------------------------------------
  // The ids to delete

  /** `rows.map(r => r.id)`. */
  function Ids(rows: seq<Row>): seq<string> {
    seq(|rows|, i requires 0 <= i < |rows| => rows[i].id)
  }

  lemma IdsAppend(a: seq<Row>, b: seq<Row>)
    ensures Ids(a + b) == Ids(a) + Ids(b)
  {
  }

  /** The employees deleted from the groups of `keys`, group after group. */
  function Deleted(es: seq<Row>, key: Row -> Option<string>, keys: seq<string>): seq<Row> {
    if keys == [] then []
    else Deleted(es, key, keys[..|keys| - 1]) + Duplicates(Group(es, key, keys[|keys| - 1]))
  }

  // ---------------------------------------------------------------------------------------
  // What is deleted and what is kept

  function HasSomeKey(key: Row -> Option<string>): Row -> bool {
    (e: Row) => key(e).Some?
  }

  /** Every key of `Keys` has at least one employee. */
  lemma KeyGroupNonEmpty(es: seq<Row>, key: Row -> Option<string>, k: string)
    requires k in Keys(es, key)
    ensures Group(es, key, k) != []
  {
    KeysMembers(es, key, k);
    FilterMembers(es, HasKey(key, k));
  }

  /** The sizes of the groups of `ks`, added up. */
  function GroupSizes(es: seq<Row>, key: Row -> Option<string>, ks: seq<string>): nat {
    if ks == [] then 0
    else GroupSizes(es, key, ks[..|ks| - 1]) + |Group(es, key, ks[|ks| - 1])|
  }

  /** One more employee adds one to the sizes of distinct keys exactly when its key is among them. */
  lemma {:induction false} GroupSizesSnoc(es: seq<Row>, key: Row -> Option<string>, e: Row, ks: seq<string>)
    requires forall i, j :: 0 <= i < j < |ks| ==> ks[i] != ks[j]
    ensures GroupSizes(es + [e], key, ks)
         == GroupSizes(es, key, ks) + (if key(e).Some? && key(e).value in ks then 1 else 0)
  {
    if ks != [] {
      var init, last := ks[..|ks| - 1], ks[|ks| - 1];
      assert ks == init + [last];
      GroupSizesSnoc(es, key, e, init);
      GroupsSnoc(es, key, e);
      if key(e).Some? && key(e).value in init {
        var j :| 0 <= j < |init| && init[j] == key(e).value;
        assert ks[j] == init[j];
      }
    }
  }

  /** The groups hold, between them, every employee with a key. */
  lemma {:induction false} GroupsCoverKeyed(es: seq<Row>, key: Row -> Option<string>)
    ensures GroupSizes(es, key, Keys(es, key)) == |Filter(es, HasSomeKey(key))|
  {
    if es != [] {
      var init, e := es[..|es| - 1], es[|es| - 1];
      assert es == init + [e];
      GroupsCoverKeyed(init, key);
      GroupsSnoc(init, key, e);
      FilterSnoc(init, e, HasSomeKey(key));
      KeysDistinct(init, key);
      GroupSizesSnoc(init, key, e, Keys(init, key));
      if key(e).Some? && key(e).value !in Keys(init, key) {
        var ks := Keys(init, key) + [key(e).value];
        assert ks[..|ks| - 1] == Keys(init, key);
        NoGroupWithoutKey(init, key, key(e).value);
      }
    }
  }

  /** Every non-empty group loses all but one of its employees. */
  lemma {:induction false} DeletedSize(es: seq<Row>, key: Row -> Option<string>, ks: seq<string>)
    requires forall k :: k in ks ==> Group(es, key, k) != []
    ensures |Deleted(es, key, ks)| + |ks| == GroupSizes(es, key, ks)
  {
    if ks != [] {
      assert ks[|ks| - 1] in ks;
      assert forall k :: k in ks[..|ks| - 1] ==> k in ks;
      DeletedSize(es, key, ks[..|ks| - 1]);
    }
  }

  /** Of the employees with a key, one per key is kept; nobody else is deleted. */
  lemma DeletedCount(es: seq<Row>, key: Row -> Option<string>)
    ensures |Deleted(es, key, Keys(es, key))| == |Filter(es, HasSomeKey(key))| - |Keys(es, key)|
    ensures |es| - |Deleted(es, key, Keys(es, key))| == |Filter(es, NoKey(key))| + |Keys(es, key)|
  {
    forall k | k in Keys(es, key) ensures Group(es, key, k) != [] {
      KeyGroupNonEmpty(es, key, k);
    }
    DeletedSize(es, key, Keys(es, key));
    GroupsCoverKeyed(es, key);
    FilterComplement(es, HasSomeKey(key), NoKey(key));
  }

  /** A group holds each employee with its key as often as the fetched rows do, and nobody else. */
  lemma {:induction false} GroupMultiplicity(es: seq<Row>, key: Row -> Option<string>, k: string, x: Row)
    ensures multiset(Group(es, key, k))[x] == if key(x) == Some(k) then multiset(es)[x] else 0
  {
    FilterMultiplicity(es, HasKey(key, k), x);
  }

  /** The duplicates of a group are members of it. */
  lemma DuplicatesMultiplicity(g: seq<Row>, x: Row)
    ensures multiset(Duplicates(g))[x] <= multiset(g)[x]
  {
    if |g| > 1 {
      var s := SortByCreation(g);
      assert s == s[..1] + s[1..];
      assert multiset(s) == multiset(s[..1]) + multiset(s[1..]);
    }
  }

  predicate DistinctKeys(ks: seq<string>) {
    forall i, j :: 0 <= i < j < |ks| ==> ks[i] != ks[j]
  }

  /** Of distinct keys, the last is not among the others, which are distinct too. */
  lemma DistinctInit(ks: seq<string>)
    requires ks != [] && forall i, j :: 0 <= i < j < |ks| ==> ks[i] != ks[j]
    ensures ks == ks[..|ks| - 1] + [ks[|ks| - 1]]
    ensures ks[|ks| - 1] !in ks[..|ks| - 1]
    ensures DistinctKeys(ks[..|ks| - 1])
  {
    var init := ks[..|ks| - 1];
    assert forall i :: 0 <= i < |init| ==> init[i] == ks[i];
  }

  /** How often an employee is deleted: as often as it is a duplicate in the group of its key. */
  lemma {:induction false} DeletedMultiplicity(es: seq<Row>, key: Row -> Option<string>, ks: seq<string>, x: Row)
    requires forall i, j :: 0 <= i < j < |ks| ==> ks[i] != ks[j]
    ensures multiset(Deleted(es, key, ks))[x]
         == if key(x).Some? && key(x).value in ks then multiset(Duplicates(Group(es, key, key(x).value)))[x] else 0
  {
    if ks != [] {
      var init, last := ks[..|ks| - 1], ks[|ks| - 1];
      DistinctInit(ks);
      DeletedMultiplicity(es, key, init, x);
      var d1, d2 := Deleted(es, key, init), Duplicates(Group(es, key, last));
      assert multiset(Deleted(es, key, ks))[x] == multiset(d1)[x] + multiset(d2)[x];
      DuplicatesMultiplicity(Group(es, key, last), x);
      GroupMultiplicity(es, key, last, x);
      if key(x) == Some(last) {
      } else {
        assert multiset(d2)[x] == 0;
        if key(x).Some? {
          assert (key(x).value in ks) == (key(x).value in init);
        }
      }
    }
  }

  /** An employee without a key is never deleted. */
  lemma NoKeyNeverDeleted(es: seq<Row>, key: Row -> Option<string>, x: Row)
    requires key(x).None?
    ensures x !in Deleted(es, key, Keys(es, key))
  {
    KeysDistinct(es, key);
    DeletedMultiplicity(es, key, Keys(es, key), x);
  }

  /**
   * In the group of key `k`, every employee is deleted as often as it was fetched, except the
   * first of the earliest created, which is deleted once fewer: one row per key survives.
   */
  lemma KeepsOnlyEarliest(es: seq<Row>, key: Row -> Option<string>, k: string, i: int, x: Row)
    requires k in Keys(es, key) && FirstEarliest(Group(es, key, k), i) && key(x) == Some(k)
    ensures multiset(Deleted(es, key, Keys(es, key)))[x] + (if x == Group(es, key, k)[i] then 1 else 0)
         == multiset(es)[x]
  {
    KeysDistinct(es, key);
    DeletedMultiplicity(es, key, Keys(es, key), x);
    KeepsEarliest(Group(es, key, k), i);
    GroupMultiplicity(es, key, k, x);
  }

  /** With ids unique across rows, no id of an employee without a key is sent for deletion. */
  lemma NoKeyIdNeverDeleted(es: seq<Row>, key: Row -> Option<string>, x: Row)
    requires forall a, b :: a in es && b in es && a.id == b.id ==> a == b
    requires x in es && key(x).None?
    ensures x.id !in Ids(Deleted(es, key, Keys(es, key)))
  {
    var d := Deleted(es, key, Keys(es, key));
    KeysDistinct(es, key);
    if x.id in Ids(d) {
      var m :| 0 <= m < |d| && Ids(d)[m] == x.id;
      assert d[m] in multiset(d);
      DeletedMultiplicity(es, key, Keys(es, key), d[m]);
      DuplicatesMultiplicity(Group(es, key, key(d[m]).value), d[m]);
      GroupMultiplicity(es, key, key(d[m]).value, d[m]);
    }
  }

  /** `if (group.length > 1) { group.sort(...); for (let i = 1; ...) toDelete.push(group[i].id) }`. */
  method PushDuplicates(toDelete: seq<string>, group: seq<Row>) returns (r: seq<string>)
    ensures r == toDelete + Ids(Duplicates(group))
  {
    r := toDelete;
    if |group| > 1 {
      var sorted := SortByCreation(group);
      for i := 1 to |group|
        invariant r == toDelete + Ids(sorted[1..i])
      {
        assert sorted[1..i + 1] == sorted[1..i] + [sorted[i]];
        IdsAppend(sorted[1..i], [sorted[i]]);
        r := r + [sorted[i].id];
      }
      assert sorted[1..|group|] == Duplicates(group);
    }
  }

  /** `grouped.forEach(...)`: the ids of every group's duplicates, group after group. */
  method CollectDuplicates(es: seq<Row>, key: Row -> Option<string>, keys: seq<string>,
                           grouped: map<string, seq<Row>>)
    returns (toDelete: seq<string>)
    requires forall k :: k in keys ==> k in grouped && grouped[k] == Group(es, key, k)
    ensures toDelete == Ids(Deleted(es, key, keys))
  {
    toDelete := [];
    for n := 0 to |keys|
      invariant toDelete == Ids(Deleted(es, key, keys[..n]))
    {
      assert keys[..n + 1][..n] == keys[..n];
      IdsAppend(Deleted(es, key, keys[..n]), Duplicates(Group(es, key, keys[n])));
      toDelete := PushDuplicates(toDelete, grouped[keys[n]]);
    }
    assert keys[..|keys|] == keys;
  }

  // ---------------------------------------------------------------------------------------
  // The mutation

  /** `{ removed, total, kept }`; `kept` is absent when nothing was fetched. */
  datatype Summary = Summary(removed: nat, total: nat, kept: Option<int>)

  /** The summary after deleting `toDelete` out of `total` employees. */
  function Removed(toDelete: seq<string>, total: nat): Summary {
    Summary(|toDelete|, total, Some(total - |toDelete|))
  }

  /** The ids the mutation deletes from the fetched employees. */
  function ToDelete(es: seq<Row>, key: Row -> Option<string>): seq<string> {
    Ids(Deleted(es, key, Keys(es, key)))
  }

  /** `kept`, the fetched employees less the deleted ids, is one per key plus those without a key. */
  lemma KeptCount(es: seq<Row>, key: Row -> Option<string>)
    ensures |es| - |ToDelete(es, key)| == |Filter(es, NoKey(key))| + |Keys(es, key)|
  {
    DeletedCount(es, key);
  }

  /**
   * The mutation: `fetched` is the answer to the select ordered by `created_at`, and `delete`
   * the answer of the database to deleting a list of ids (an error message, or none). Returns
   * the ids it asked to delete, if it asked, and the summary or the error it throws.
   */
  method RemoveDuplicates(fetched: Result<seq<Row>, string>, delete: seq<string> -> Option<string>)
    returns (deleteRequest: Option<seq<string>>, r: Result<Summary, string>)
    ensures fetched.Failure? ==> deleteRequest.None? && r == Failure(fetched.error)
    ensures fetched == Success([]) ==> deleteRequest.None? && r == Success(Summary(0, 0, None))
    ensures fetched.Success? && fetched.value != [] ==>
              deleteRequest == if ToDelete(fetched.value, CpfKey) != [] then Some(ToDelete(fetched.value, CpfKey)) else None
    ensures (fetched.Success? && deleteRequest.Some? && delete(deleteRequest.value).Some? ==>
              r == Failure(delete(deleteRequest.value).value))
    ensures (fetched.Success? && fetched.value != [] && (deleteRequest.None? || delete(deleteRequest.value).None?) ==>
              r == Success(Removed(ToDelete(fetched.value, CpfKey), |fetched.value|)))
  {
    deleteRequest := None;
    if fetched.Failure? {
      r := Failure(fetched.error);
    } else if fetched.value == [] {
      r := Success(Summary(0, 0, None));
    } else {
      var employees := fetched.value;
      var keys, grouped, noCpf := GroupBy(employees, CpfKey);
      var toDelete := CollectDuplicates(employees, CpfKey, keys, grouped);
      r := Success(Removed(toDelete, |employees|));
      if |toDelete| > 0 {
        deleteRequest := Some(toDelete);
        var deleteError := delete(toDelete);
        if deleteError.Some? {
          r := Failure(deleteError.value);
        }
      }
    }
  }
}
