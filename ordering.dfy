/** `ORDER BY` on the medication table: the three orders the reports use,
    modelled by a stable insertion sort on an integer key. */
module Ordering {
  import opened MedicamentoModel

  datatype SortKey = StockAsc | FechaVencimientoAsc | FechaVencimientoDesc

  /** The integer the order compares; a descending order compares the negation. */
  function KeyOf(m: Medicamento, k: SortKey): int {
    match k
    case StockAsc => m.stock
    case FechaVencimientoAsc => m.fechaVencimiento
    case FechaVencimientoDesc => -m.fechaVencimiento
  }

  predicate SortedBy(s: seq<Medicamento>, k: SortKey) {
    forall i, j :: 0 <= i < j < |s| ==> KeyOf(s[i], k) <= KeyOf(s[j], k)
  }

  /** Inserts `x` after every element whose key is not greater. */
  function Insert(x: Medicamento, s: seq<Medicamento>, k: SortKey): (r: seq<Medicamento>)
    ensures |r| == |s| + 1
    ensures multiset(r) == multiset(s) + multiset{x}
    ensures forall j :: 0 <= j < |r| ==> r[j] == x || r[j] in s
  {
    if s == [] then [x]
    else if KeyOf(x, k) < KeyOf(s[0], k) then [x] + s
    else
      assert s == [s[0]] + s[1..];
      [s[0]] + Insert(x, s[1..], k)
  }

  /** Every row of an insertion is the inserted row or a row of `s`, so a
      key below all of those is below every row of the result. */
  lemma InsertAbove(x: Medicamento, s: seq<Medicamento>, k: SortKey, lo: int)
    requires lo <= KeyOf(x, k)
    requires forall j :: 0 <= j < |s| ==> lo <= KeyOf(s[j], k)
    ensures forall j :: 0 <= j < |Insert(x, s, k)| ==> lo <= KeyOf(Insert(x, s, k)[j], k)
  {
    var r := Insert(x, s, k);
    forall j | 0 <= j < |r| ensures lo <= KeyOf(r[j], k) {
      if r[j] != x {
        var t :| 0 <= t < |s| && s[t] == r[j];
      }
    }
  }

  lemma {:induction false} InsertSorted(x: Medicamento, s: seq<Medicamento>, k: SortKey)
    requires SortedBy(s, k)
    ensures SortedBy(Insert(x, s, k), k)
  {
    if s != [] && KeyOf(x, k) >= KeyOf(s[0], k) {
      var tail := s[1..];
      assert SortedBy(tail, k);
      InsertSorted(x, tail, k);
      InsertAbove(x, tail, k, KeyOf(s[0], k));
      var rest := Insert(x, tail, k);
      assert Insert(x, s, k) == [s[0]] + rest;
    }
  }

  /** The rows of `s` in the order `k`. */
  function SortBy(s: seq<Medicamento>, k: SortKey): (r: seq<Medicamento>)
    ensures SortedBy(r, k)
    ensures multiset(r) == multiset(s)
    ensures |r| == |s|
  {
    if s == [] then []
    else
      assert s == [s[0]] + s[1..];
      var t := SortBy(s[1..], k);
      InsertSorted(s[0], t, k);
      Insert(s[0], t, k)
  }

  /** Sorting keeps exactly the rows it was given. */
  lemma SortByMembers(s: seq<Medicamento>, k: SortKey)
    ensures forall m :: m in SortBy(s, k) <==> m in s
  {
    var r := SortBy(s, k);
    forall m ensures m in r <==> m in s {
      assert m in r <==> m in multiset(r);
      assert m in s <==> m in multiset(s);
    }
  }

  /** The first `n` rows of a sorted sequence are no greater than any row after them. */
  lemma PrefixBelowRest(s: seq<Medicamento>, k: SortKey, n: nat)
    requires SortedBy(s, k) && n <= |s|
    ensures forall x, y :: x in s[..n] && y in s[n..] ==> KeyOf(x, k) <= KeyOf(y, k)
  {
    forall x, y | x in s[..n] && y in s[n..] ensures KeyOf(x, k) <= KeyOf(y, k) {
      var i :| 0 <= i < n && s[i] == x;
      var j :| 0 <= j < |s| - n && s[n..][j] == y;
      assert s[n + j] == y;
    }
  }

  /** What is left of a sorted sequence after its first `n` rows is no
      smaller than any of those rows. */
  lemma PrefixBelowRemainder(s: seq<Medicamento>, k: SortKey, n: nat)
    requires SortedBy(s, k) && n <= |s|
    ensures forall x, y :: x in s[..n] && y in multiset(s) - multiset(s[..n]) ==> KeyOf(x, k) <= KeyOf(y, k)
  {
    assert s == s[..n] + s[n..];
    assert multiset(s) - multiset(s[..n]) == multiset(s[n..]);
    PrefixBelowRest(s, k, n);
  }

  /** The first `n` rows in the order `k`: what `ORDER BY ... LIMIT n` returns.
      They are sorted, drawn from `s`, and none of them comes after a row left out. */
  function Smallest(s: seq<Medicamento>, k: SortKey, n: nat): (top: seq<Medicamento>)
    ensures |top| == if n <= |s| then n else |s|
    ensures SortedBy(top, k)
    ensures multiset(top) <= multiset(s)
    ensures forall x, y :: x in top && y in multiset(s) - multiset(top) ==> KeyOf(x, k) <= KeyOf(y, k)
  {
    var sorted := SortBy(s, k);
    var m := if n <= |s| then n else |s|;
    SortedPrefix(sorted, s, k, m);
    sorted[..m]
  }

  /** The first `m` rows of a sorting of `s` are sorted, drawn from `s`, and
      below every row of `s` left out. */
  lemma SortedPrefix(sorted: seq<Medicamento>, s: seq<Medicamento>, k: SortKey, m: nat)
    requires SortedBy(sorted, k) && multiset(sorted) == multiset(s) && m <= |sorted|
    ensures SortedBy(sorted[..m], k)
    ensures multiset(sorted[..m]) <= multiset(s)
    ensures forall x, y :: x in sorted[..m] && y in multiset(s) - multiset(sorted[..m]) ==> KeyOf(x, k) <= KeyOf(y, k)
  {
    PrefixBelowRemainder(sorted, k, m);
    assert sorted == sorted[..m] + sorted[m..];
  }
}
