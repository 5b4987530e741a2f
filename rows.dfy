/**
 * Row-level operations on the in-memory tables of the ACL store.
 *
 * Every table is a sequence of row records. The DAO idioms of the service
 * become three operations: filtering rows (`Keep`), "find; insert if absent"
 * over a list of rows (`InsertAbsent`) and "find; remove if present" over a
 * list of rows (`RemoveRows`). Lambdas are only ever built inside the named
 * functions below, so two calls with equal arguments are equal terms.
 */
module Rows {

  datatype Option<T> = None | Some(value: T)

  /** The first row satisfying `f`, as a DAO `findBy…` returns it, or `None`. */
  function FindFirst<T>(s: seq<T>, f: T -> bool): (r: Option<T>)
    ensures r.Some? ==> r.value in s && f(r.value)
    ensures r.None? <==> forall x :: x in s ==> !f(x)
  {
    if s == [] then None
    else if f(s[0]) then Some(s[0])
    else (assert forall x :: x in s ==> x == s[0] || x in s[1..]; FindFirst(s[1..], f))
  }

  /** No row occurs twice: the uniqueness key of a link or permission table. */
  ghost predicate NoDup<T>(s: seq<T>) {
    forall i, j :: 0 <= i < j < |s| ==> s[i] != s[j]
  }

  /** Number of occurrences of a row. */
  function Occurrences<T(==,!new)>(s: seq<T>, x: T): nat {
    if s == [] then 0 else (if s[0] == x then 1 else 0) + Occurrences(s[1..], x)
  }

  lemma NoDupCons<T(!new)>(a: T, t: seq<T>)
    ensures a !in t && NoDup(t) ==> NoDup([a] + t)
  {
    if a !in t && NoDup(t) {
    forall i, j | 0 <= i < j < |[a] + t| ensures ([a] + t)[i] != ([a] + t)[j] {
      if i == 0 {
        assert ([a] + t)[j] == t[j - 1];
      } else {
        assert ([a] + t)[i] == t[i - 1] && ([a] + t)[j] == t[j - 1];
      }
    }
    }
  }

  lemma NoDupSnoc<T(!new)>(t: seq<T>, a: T)
    ensures a !in t && NoDup(t) ==> NoDup(t + [a])
  {
    if a !in t && NoDup(t) {
    forall i, j | 0 <= i < j < |t + [a]| ensures (t + [a])[i] != (t + [a])[j] {
      assert (t + [a])[i] == t[i];
      if j < |t| {
        assert (t + [a])[j] == t[j];
      } else {
        assert (t + [a])[j] == a;
      }
    }
    }
  }

  /** The rows of `s` that satisfy `f`, in table order. */
  function Keep<T(==,!new)>(s: seq<T>, f: T -> bool): (r: seq<T>)
    ensures |r| <= |s|
    ensures forall x :: x in r <==> x in s && f(x)
    ensures NoDup(s) ==> NoDup(r)
  {
    if s == [] then []
    else
      var rest := Keep(s[1..], f);
      assert s == [s[0]] + s[1..];
      assert NoDup(s) ==> NoDup(s[1..]) && s[0] !in s[1..] by {
        if NoDup(s) {
          forall i, j | 0 <= i < j < |s[1..]| ensures s[1..][i] != s[1..][j] {
            assert s[1..][i] == s[i + 1] && s[1..][j] == s[j + 1];
          }
          forall k | 0 <= k < |s[1..]| ensures s[1..][k] != s[0] {
            assert s[1..][k] == s[k + 1];
          }
        }
      }
      if f(s[0]) then
        NoDupCons(s[0], rest); [s[0]] + rest
      else rest
  }

  lemma {:induction false} KeepAppend<T(!new)>(a: seq<T>, b: seq<T>, f: T -> bool)
    ensures Keep(a + b, f) == Keep(a, f) + Keep(b, f)
  {
    if a == [] {
      assert a + b == b;
    } else {
      assert (a + b)[1..] == a[1..] + b;
      assert (a + b)[0] == a[0];
      KeepAppend(a[1..], b, f);
    }
  }

  /** Filters that agree on the rows present give the same table. */
  lemma {:induction false} KeepCongruent<T(!new)>(s: seq<T>, f: T -> bool, g: T -> bool)
    requires forall x :: x in s ==> f(x) == g(x)
    ensures Keep(s, f) == Keep(s, g)
  {
    if s != [] {
      assert forall x :: x in s[1..] ==> x in s;
      KeepCongruent(s[1..], f, g);
    }
  }

  /** Filtering twice is filtering once by the conjunction. */
  lemma {:induction false} KeepKeep<T(!new)>(s: seq<T>, f: T -> bool, g: T -> bool, h: T -> bool)
    requires forall x :: x in s ==> h(x) == (f(x) && g(x))
    ensures Keep(Keep(s, f), g) == Keep(s, h)
  {
    if s != [] {
      assert forall x :: x in s[1..] ==> x in s;
      KeepKeep(s[1..], f, g, h);
      if f(s[0]) {
        assert Keep(s, f) == [s[0]] + Keep(s[1..], f);
        assert Keep(s, f)[1..] == Keep(s[1..], f);
      }
    }
  }

  /** A filter that every row passes changes nothing. */
  lemma {:induction false} KeepAll<T(!new)>(s: seq<T>, f: T -> bool)
    requires forall x :: x in s ==> f(x)
    ensures Keep(s, f) == s
  {
    if s != [] {
      assert forall x :: x in s[1..] ==> x in s;
      KeepAll(s[1..], f);
      assert s == [s[0]] + s[1..];
    }
  }

  /** A filter that no row passes leaves nothing. */
  lemma {:induction false} KeepNone<T(!new)>(s: seq<T>, f: T -> bool)
    requires forall x :: x in s ==> !f(x)
    ensures Keep(s, f) == []
  {
    if s != [] {
      assert forall x :: x in s[1..] ==> x in s;
      KeepNone(s[1..], f);
    }
  }

  /** Removal of the (at most one, under `NoDup`) row equal to `x`: a DAO `remove` by row id. */
  function RemoveRow<T(==,!new)>(s: seq<T>, x: T): (r: seq<T>)
    ensures forall y :: y in r <==> y in s && y != x
    ensures NoDup(s) ==> NoDup(r)
  {
    Keep(s, y => y != x)
  }

  /** Removing a row that is not there leaves the table as it was. */
  lemma RemoveAbsentRow<T(!new)>(s: seq<T>, x: T)
    requires x !in s
    ensures RemoveRow(s, x) == s
  {
    KeepAll(s, y => y != x);
  }

  /** Every listed row removed; the others stay, in table order. */
  function RemoveRows<T(==,!new)>(s: seq<T>, xs: seq<T>): (r: seq<T>)
    ensures forall y :: y in r <==> y in s && y !in xs
    ensures NoDup(s) ==> NoDup(r)
  {
    Keep(s, y => y !in xs)
  }

  /** Removing no rows leaves the table as it was. */
  lemma RemoveNoRows<T(!new)>(s: seq<T>, xs: seq<T>)
    requires xs == []
    ensures RemoveRows(s, xs) == s
  {
    KeepAll(s, y => y !in xs);
  }

  /** One step of a "find; remove" loop over a list of rows. */
  lemma RemoveRowsStep<T(!new)>(s: seq<T>, xs: seq<T>, i: nat)
    requires i < |xs|
    ensures RemoveRow(RemoveRows(s, xs[..i]), xs[i]) == RemoveRows(s, xs[..i + 1])
  {
    assert xs[..i + 1] == xs[..i] + [xs[i]];
    KeepKeep(s, y => y !in xs[..i], y => y != xs[i], y => y !in xs[..i + 1]);
  }

  /** Removing the rows a filter selects is keeping the rows it rejects. */
  lemma RemoveSelected<T(!new)>(s: seq<T>, f: T -> bool, g: T -> bool)
    requires forall x :: x in s ==> g(x) == !f(x)
    ensures RemoveRows(s, Keep(s, f)) == Keep(s, g)
  {
    KeepCongruent(s, y => y !in Keep(s, f), g);
  }

  /** Removing the same rows twice is removing them once. */
  lemma RemoveRowsIdempotent<T(!new)>(s: seq<T>, xs: seq<T>)
    ensures RemoveRows(RemoveRows(s, xs), xs) == RemoveRows(s, xs)
  {
    KeepAll(RemoveRows(s, xs), y => y !in xs);
  }

  /** "Find the row; insert it if absent". */
  function InsertOne<T(==,!new)>(t: seq<T>, x: T): seq<T> {
    if x in t then t else t + [x]
  }

  /** "For each listed row: find it; insert it if absent", in list order. */
  function InsertAbsent<T(==,!new)>(s: seq<T>, xs: seq<T>): seq<T>
    decreases |xs|
  {
    if xs == [] then s
    else InsertOne(InsertAbsent(s, xs[..|xs| - 1]), xs[|xs| - 1])
  }

  /**
   * Inserting absent rows keeps the old table as a prefix, adds only listed
   * rows, leaves every listed row present, and never stores a row twice.
   */
  lemma {:induction false} InsertAbsentFacts<T(!new)>(s: seq<T>, xs: seq<T>)
    ensures var r := InsertAbsent(s, xs);
            && |s| <= |r| && r[..|s|] == s
            && (forall x :: x in r <==> x in s || x in xs)
            && (forall i :: |s| <= i < |r| ==> r[i] in xs)
            && (NoDup(s) ==> NoDup(r))
    decreases |xs|
  {
    if xs != [] {
      var front := xs[..|xs| - 1];
      var x := xs[|xs| - 1];
      assert xs == front + [x];
      InsertAbsentFacts(s, front);
      var t := InsertAbsent(s, front);
      NoDupSnoc(t, x);
      assert forall y :: y in front ==> y in xs;
      if x !in t {
        assert (t + [x])[..|s|] == t[..|s|];
      }
    }
  }

  /** One step of a "find; insert if absent" loop over a list of rows. */
  lemma InsertAbsentStep<T(!new)>(s: seq<T>, xs: seq<T>, i: nat)
    requires i < |xs|
    ensures InsertAbsent(s, xs[..i + 1]) == InsertOne(InsertAbsent(s, xs[..i]), xs[i])
  {
    assert xs[..i + 1][..i] == xs[..i];
  }

  /** Inserting no rows leaves the table as it was. */
  lemma InsertNoRows<T(!new)>(s: seq<T>, xs: seq<T>)
    requires xs == []
    ensures InsertAbsent(s, xs) == s
  {
  }

  /** When every listed row is present, inserting them changes nothing. */
  lemma {:induction false} InsertAbsentPresent<T(!new)>(s: seq<T>, xs: seq<T>)
    requires forall x :: x in xs ==> x in s
    ensures InsertAbsent(s, xs) == s
    decreases |xs|
  {
    if xs != [] {
      var front := xs[..|xs| - 1];
      assert forall x :: x in front ==> x in xs;
      InsertAbsentPresent(s, front);
    }
  }

  /** Granting the same rows twice is granting them once. */
  lemma InsertAbsentIdempotent<T(!new)>(s: seq<T>, xs: seq<T>)
    ensures InsertAbsent(InsertAbsent(s, xs), xs) == InsertAbsent(s, xs)
  {
    InsertAbsentFacts(s, xs);
    InsertAbsentPresent(InsertAbsent(s, xs), xs);
  }

  /** In a table without duplicates a row occurs once or not at all. */
  lemma {:induction false} NoDupOccurrences<T(!new)>(s: seq<T>, x: T)
    requires NoDup(s)
    ensures Occurrences(s, x) == if x in s then 1 else 0
  {
    if s != [] {
      assert s == [s[0]] + s[1..];
      assert NoDup(s[1..]) by {
        forall i, j | 0 <= i < j < |s[1..]| ensures s[1..][i] != s[1..][j] {
          assert s[1..][i] == s[i + 1] && s[1..][j] == s[j + 1];
        }
      }
      NoDupOccurrences(s[1..], x);
      if s[0] == x {
        forall k | 0 <= k < |s[1..]| ensures s[1..][k] != x {
          assert s[1..][k] == s[k + 1];
        }
      }
    }
  }

  /** A row's multiplicity in the table's multiset is its number of occurrences. */
  lemma {:induction false} MultisetOccurrences<T(!new)>(s: seq<T>, x: T)
    ensures multiset(s)[x] == Occurrences(s, x)
  {
    if s != [] {
      assert s == [s[0]] + s[1..];
      assert multiset(s) == multiset([s[0]]) + multiset(s[1..]);
      MultisetOccurrences(s[1..], x);
    }
  }

  /** Two tables without duplicates holding the same rows hold them with the same multiplicity. */
  lemma SameRowsSameMultiset<T(!new)>(a: seq<T>, b: seq<T>)
    requires NoDup(a) && NoDup(b)
    requires forall x :: x in a <==> x in b
    ensures multiset(a) == multiset(b)
  {
    forall x ensures multiset(a)[x] == multiset(b)[x] {
      MultisetOccurrences(a, x);
      MultisetOccurrences(b, x);
      NoDupOccurrences(a, x);
      NoDupOccurrences(b, x);
    }
  }

  /**
   * Revoking some rows and then granting them leaves the same table
   * contents as granting them once, up to row order.
   */
  lemma RevokeThenGrant<T(!new)>(s: seq<T>, xs: seq<T>)
    requires NoDup(s)
    ensures NoDup(InsertAbsent(RemoveRows(s, xs), xs))
    ensures multiset(InsertAbsent(RemoveRows(s, xs), xs)) == multiset(InsertAbsent(s, xs))
  {
    InsertAbsentFacts(RemoveRows(s, xs), xs);
    InsertAbsentFacts(s, xs);
    SameRowsSameMultiset(InsertAbsent(RemoveRows(s, xs), xs), InsertAbsent(s, xs));
  }
}
