/** Shared vocabulary: optional values, instants, ceiling division, and the
    string operations the queries rely on (JavaScript `trim`, case folding
    for ILIKE, substring search for LIKE). */
module Common {

  datatype Option<T> = None | Some(value: T) {
    function GetOr(default: T): T {
      match this
      case Some(v) => v
      case None => default
    }
  }

  /** Milliseconds since the epoch. Every date and every "now" of the model is one. */
  type Instant = int

  /** Length of a day, the `1000 * 60 * 60 * 24` of the source. */
  const DayMs: int := 86_400_000

  /** `Math.ceil(a / b)` for a positive divisor, on integers. */
  function CeilDiv(a: int, b: int): (q: int)
    requires b > 0
    ensures (q - 1) * b < a <= q * b
  {
    var f := (-a) / b;
    assert b * f <= -a < b * f + b;
    -f
  }

  /** The least multiple count: no smaller q has q * b >= a. */
  lemma CeilDivLeast(a: int, b: int, q': int)
    requires b > 0 && a <= q' * b
    ensures CeilDiv(a, b) <= q'
  {
    var q := CeilDiv(a, b);
    if q > q' {
      assert (q - 1) * b >= q' * b by {
        assert q - 1 >= q';
        MulMonotone(q', q - 1, b);
      }
      assert false;
    }
  }

  lemma MulMonotone(x: int, y: int, b: int)
    requires x <= y && b >= 0
    ensures x * b <= y * b
  {
    assert y * b - x * b == (y - x) * b;
  }

  // ---------------------------------------------------------------------------
  // Strings

  /** The characters JavaScript's `String.prototype.trim` removes: the
      WhiteSpace and LineTerminator code points of ECMAScript. */
  predicate IsJsSpace(c: char) {
    var n := c as int;
    n == 0x09 || n == 0x0A || n == 0x0B || n == 0x0C || n == 0x0D || n == 0x20 ||
    n == 0xA0 || n == 0x1680 || (0x2000 <= n <= 0x200A) || n == 0x2028 ||
    n == 0x2029 || n == 0x202F || n == 0x205F || n == 0x3000 || n == 0xFEFF
  }

  function TrimStart(s: string): string {
    if s != [] && IsJsSpace(s[0]) then TrimStart(s[1..]) else s
  }

  function TrimEnd(s: string): string {
    if s != [] && IsJsSpace(s[|s| - 1]) then TrimEnd(s[..|s| - 1]) else s
  }

  /** Leading trimming drops exactly the leading spaces. */
  lemma {:induction false} TrimStartSpec(s: string)
    ensures var r := TrimStart(s);
      && |r| <= |s| && r == s[|s| - |r|..]
      && (r == [] || !IsJsSpace(r[0]))
      && forall i :: 0 <= i < |s| - |r| ==> IsJsSpace(s[i])
  {
    if s != [] && IsJsSpace(s[0]) {
      TrimStartSpec(s[1..]);
      var r := TrimStart(s);
      forall i | 0 <= i < |s| - |r| ensures IsJsSpace(s[i]) {
        if i > 0 {
          assert s[i] == s[1..][i - 1];
        }
      }
    }
  }

  /** Trailing trimming drops exactly the trailing spaces. */
  lemma {:induction false} TrimEndSpec(s: string)
    ensures var r := TrimEnd(s);
      && |r| <= |s| && r == s[..|r|]
      && (r == [] || !IsJsSpace(r[|r| - 1]))
      && forall i :: |r| <= i < |s| ==> IsJsSpace(s[i])
  {
    if s != [] && IsJsSpace(s[|s| - 1]) {
      TrimEndSpec(s[..|s| - 1]);
      var r := TrimEnd(s);
      forall i | |r| <= i < |s| ensures IsJsSpace(s[i]) {
        if i < |s| - 1 {
          assert s[i] == s[..|s| - 1][i];
        }
      }
    }
  }

  /** JavaScript `s.trim()`: no space is left at either end, and what is
      removed are spaces only. */
  function Trim(s: string): (r: string)
    ensures |r| <= |s|
    ensures r == [] || (!IsJsSpace(r[0]) && !IsJsSpace(r[|r| - 1]))
  {
    TrimStartSpec(s);
    TrimEndSpec(TrimStart(s));
    TrimEnd(TrimStart(s))
  }

  /** Trimming a trimmed string changes nothing. */
  lemma TrimIdempotent(s: string)
    ensures Trim(Trim(s)) == Trim(s)
  {
    var t := Trim(s);
    assert TrimStart(t) == t;
    assert TrimEnd(t) == t;
  }

  /** Only spaces, or nothing: what Sequelize's `notEmpty` validator refuses
      (its test is the regular expression `^[\s\t\r\n]*$`, whose `\s` is
      the same set of characters `trim` removes). */
  predicate Blank(s: string) {
    forall i :: 0 <= i < |s| ==> IsJsSpace(s[i])
  }

  /** A trimmed string is blank only when it is empty. */
  lemma TrimmedBlankIsEmpty(s: string)
    ensures Blank(Trim(s)) <==> Trim(s) == []
  {
  }

  /** ASCII case folding, the part of ILIKE's case-insensitivity the model keeps. */
  function LowerChar(c: char): (r: char)
    ensures ('A' <= c <= 'Z') == (r != c)
  {
    if 'A' <= c <= 'Z' then (c as int + 32) as char else c
  }

  function Lower(s: string): (r: string)
    ensures |r| == |s|
    ensures forall i :: 0 <= i < |s| ==> r[i] == LowerChar(s[i])
  {
    if s == [] then [] else [LowerChar(s[0])] + Lower(s[1..])
  }

  /** `a ILIKE b` for a pattern `b` without wildcards: equality up to case. */
  predicate SameIgnoringCase(a: string, b: string) {
    Lower(a) == Lower(b)
  }

  /** `t LIKE p` on PostgreSQL: `%` matches any run of characters, `_` any
      one character, and a backslash makes the next pattern character literal. A
      pattern ending in a lone backslash is an error in PostgreSQL; here the
      backslash is then matched literally. */
  predicate LikeMatch(t: string, p: string)
    decreases |t| + |p|
  {
    if p == [] then t == []
    else if p[0] == '%' then LikeMatch(t, p[1..]) || (t != [] && LikeMatch(t[1..], p))
    else if p[0] == '_' then t != [] && LikeMatch(t[1..], p[1..])
    else if p[0] == '\\' && |p| >= 2 then t != [] && t[0] == p[1] && LikeMatch(t[1..], p[2..])
    else t != [] && t[0] == p[0] && LikeMatch(t[1..], p[1..])
  }

  /** `t ILIKE p`: LIKE on the case-folded text and pattern. */
  predicate ILikeMatch(t: string, p: string) {
    LikeMatch(Lower(t), Lower(p))
  }

  /** A pattern without `%`, `_` or a backslash matches exactly the strings equal to it. */
  lemma {:induction false} LikeMatchLiteral(t: string, p: string)
    requires forall i :: 0 <= i < |p| ==> p[i] != '%' && p[i] != '_' && p[i] != '\\'
    ensures LikeMatch(t, p) <==> t == p
    decreases |p|
  {
    if p != [] && t != [] {
      LikeMatchLiteral(t[1..], p[1..]);
      if t[0] == p[0] && t[1..] == p[1..] {
        assert t == [t[0]] + t[1..] && p == [p[0]] + p[1..];
      }
    }
  }

  /** `sub` starts at position `i` of `s`. */
  predicate OccursAt(s: string, sub: string, i: int) {
    0 <= i && i + |sub| <= |s| && s[i..i + |sub|] == sub
  }

  /** `sub` occurs in `s` as a contiguous run: `s LIKE '%sub%'` without wildcards in `sub`. */
  function Contains(s: string, sub: string): (r: bool)
    ensures r <==> exists i :: OccursAt(s, sub, i)
  {
    if |sub| <= |s| && s[..|sub|] == sub then
      assert OccursAt(s, sub, 0);
      true
    else if s == [] then
      false
    else
      var r := Contains(s[1..], sub);
      if r then
        var i :| OccursAt(s[1..], sub, i);
        assert OccursAt(s, sub, i + 1) by {
          assert s[i + 1..i + 1 + |sub|] == s[1..][i..i + |sub|];
        }
        true
      else
        assert forall i | OccursAt(s, sub, i) :: i > 0 && OccursAt(s[1..], sub, i - 1) by {
          forall i | OccursAt(s, sub, i) ensures i > 0 && OccursAt(s[1..], sub, i - 1) {
            assert s[1..][i - 1..i - 1 + |sub|] == s[i..i + |sub|];
          }
        }
        false
  }

  /** `s ILIKE '%sub%'` without wildcards in `sub`. */
  function ContainsIgnoringCase(s: string, sub: string): bool {
    Contains(Lower(s), Lower(sub))
  }

  // ---------------------------------------------------------------------------
  // Sequences

  /** The elements of `s` that satisfy `p`, in their order: a WHERE clause
      evaluated over a table snapshot. */
  function Filter<T(!new)>(s: seq<T>, p: T -> bool): (r: seq<T>)
    ensures |r| <= |s|
    ensures forall x :: x in r <==> x in s && p(x)
    ensures multiset(r) <= multiset(s)
  {
    if s == [] then []
    else
      var rest := Filter(s[1..], p);
      assert s == [s[0]] + s[1..];
      if p(s[0]) then [s[0]] + rest else rest
  }

  /** Filtering distributes over concatenation, so the kept elements stay in
      their order. */
  lemma {:induction false} FilterAppend<T(!new)>(a: seq<T>, b: seq<T>, p: T -> bool)
    ensures Filter(a + b, p) == Filter(a, p) + Filter(b, p)
    decreases |a|
  {
    if a == [] {
      assert a + b == b;
    } else {
      var ab := a + b;
      assert ab[0] == a[0] && ab[1..] == a[1..] + b;
      FilterAppend(a[1..], b, p);
      var rest, fb := Filter(a[1..], p), Filter(b, p);
      if p(a[0]) {
        assert [a[0]] + (rest + fb) == ([a[0]] + rest) + fb;
      }
    }
  }

  /** Appending one element extends the filter by that element exactly when
      it satisfies the predicate. */
  lemma FilterSnoc<T(!new)>(s: seq<T>, x: T, p: T -> bool)
    ensures Filter(s + [x], p) == Filter(s, p) + if p(x) then [x] else []
  {
    FilterAppend(s, [x], p);
    assert [x][1..] == [];
  }

  /** A filter keeps every occurrence of a satisfying element and nothing
      else: it changes no multiplicity except to drop what fails `p`. */
  lemma {:induction false} FilterMultiplicity<T(!new)>(s: seq<T>, p: T -> bool)
    ensures forall x :: multiset(Filter(s, p))[x] == if p(x) then multiset(s)[x] else 0
    decreases |s|
  {
    if s != [] {
      FilterMultiplicity(s[1..], p);
      assert s == [s[0]] + s[1..];
      assert multiset(s) == multiset{s[0]} + multiset(s[1..]);
    }
  }

  /** The positions below `n` whose element satisfies `p`. */
  function IndicesWhere<T>(s: seq<T>, p: T -> bool, n: nat): set<int>
    requires n <= |s|
  {
    set i | 0 <= i < n && p(s[i])
  }

  lemma IndicesWhereStep<T>(s: seq<T>, p: T -> bool, n: nat)
    requires 0 < n <= |s|
    ensures |IndicesWhere(s, p, n)| == |IndicesWhere(s, p, n - 1)| + if p(s[n - 1]) then 1 else 0
  {
    var before, after := IndicesWhere(s, p, n - 1), IndicesWhere(s, p, n);
    var last := if p(s[n - 1]) then {n - 1} else {};
    assert after == before + last by {
      forall i ensures i in after <==> i in before + last {
        assert i in after <==> 0 <= i < n && p(s[i]);
        assert i in before <==> 0 <= i < n - 1 && p(s[i]);
      }
    }
    assert n - 1 !in before;
  }

  /** The number of elements of `s` that satisfy `p`, counted from the back. */
  function CountWhere<T>(s: seq<T>, p: T -> bool): nat {
    if s == [] then 0
    else CountWhere(s[..|s| - 1], p) + if p(s[|s| - 1]) then 1 else 0
  }

  lemma {:induction false} FilterLength<T(!new)>(s: seq<T>, p: T -> bool)
    ensures |Filter(s, p)| == CountWhere(s, p)
    decreases |s|
  {
    if s != [] {
      var before, x := s[..|s| - 1], s[|s| - 1];
      assert s == before + [x];
      FilterSnoc(before, x, p);
      FilterLength(before, p);
    }
  }

  lemma {:induction false} CountWhereIndices<T>(s: seq<T>, p: T -> bool, n: nat)
    requires n <= |s|
    ensures CountWhere(s[..n], p) == |IndicesWhere(s, p, n)|
    decreases n
  {
    if n > 0 {
      assert s[..n][..n - 1] == s[..n - 1];
      CountWhereIndices(s, p, n - 1);
      IndicesWhereStep(s, p, n);
    }
  }

  /** The number of elements a filter keeps is the number of positions whose
      element satisfies the predicate. */
  lemma FilterCount<T(!new)>(s: seq<T>, p: T -> bool)
    ensures |Filter(s, p)| == |IndicesWhere(s, p, |s|)|
  {
    FilterLength(s, p);
    CountWhereIndices(s, p, |s|);
    assert s[..|s|] == s;
  }

  /** Two predicates that never hold together select at most the whole sequence between them. */
  lemma {:induction false} FilterDisjointCounts<T(!new)>(s: seq<T>, p: T -> bool, q: T -> bool)
    requires forall x :: x in s ==> !(p(x) && q(x))
    ensures |Filter(s, p)| + |Filter(s, q)| <= |s|
  {
    if s != [] {
      FilterDisjointCounts(s[1..], p, q);
    }
  }

  /** Filtering with predicates that agree on the elements gives the same result. */
  lemma {:induction false} FilterAgree<T(!new)>(s: seq<T>, p: T -> bool, q: T -> bool)
    requires forall x :: x in s ==> p(x) == q(x)
    ensures Filter(s, p) == Filter(s, q)
  {
    if s != [] {
      FilterAgree(s[1..], p, q);
    }
  }

  function Reverse<T>(s: seq<T>): (r: seq<T>)
    ensures |r| == |s|
    ensures forall i :: 0 <= i < |s| ==> r[i] == s[|s| - 1 - i]
  {
    if s == [] then [] else Reverse(s[1..]) + [s[0]]
  }

  function Min(a: int, b: int): int {
    if a <= b then a else b
  }
}
