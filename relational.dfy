/**
 * The relational operators the pipeline is built from, read as operations on
 * finite sequences of rows: filter, projection, distinct, grouped sums, SQL
 * three-valued comparisons, left equi-joins and run-scoped surrogate keys.
 * A sequence fixes one of the row orders the engine may produce; the
 * properties that matter are stated over membership and multiplicity.
 */
module Relational {
  import opened Options

  /** The rows of `s` that satisfy `p`, each as often as in `s` (`DataFrame.filter`). */
  function Filter<T(!new)>(p: T -> bool, s: seq<T>): (r: seq<T>)
    ensures forall x :: x in r <==> x in s && p(x)
    ensures |r| <= |s|
    decreases |s|
  {
    if |s| == 0 then []
    else
      assert s == [s[0]] + s[1..];
      (if p(s[0]) then [s[0]] else []) + Filter(p, s[1..])
  }

  /** Nothing passes a filter that no row satisfies. */
  lemma {:induction false} FilterNone<T(!new)>(p: T -> bool, s: seq<T>)
    requires forall x :: x in s ==> !p(x)
    ensures Filter(p, s) == []
    decreases |s|
  {
    if |s| > 0 {
      FilterCons(p, s);
      assert s[0] in s;
      FilterNone(p, s[1..]);
    }
  }

  /** A row that passes the filter is kept as often as it occurs; one that
      fails it is dropped altogether. */
  lemma {:induction false} FilterMultiplicity<T(!new)>(p: T -> bool, s: seq<T>)
    ensures forall x :: multiset(Filter(p, s))[x] == if p(x) then multiset(s)[x] else 0
    decreases |s|
  {
    if |s| > 0 {
      FilterCons(p, s);
      FilterMultiplicity(p, s[1..]);
      assert s == [s[0]] + s[1..];
    }
  }

  /** One step of `Filter`: the first row, if it qualifies, then the rest filtered. */
  lemma FilterCons<T(!new)>(p: T -> bool, a: seq<T>)
    requires |a| > 0
    ensures Filter(p, a) == (if p(a[0]) then [a[0]] else []) + Filter(p, a[1..])
  {
  }

  lemma ConcatAssoc<T>(x: seq<T>, y: seq<T>, z: seq<T>)
    ensures x + (y + z) == (x + y) + z
  {
  }

  lemma FilterConsAppend<T(!new)>(p: T -> bool, a: seq<T>, b: seq<T>)
    requires |a| > 0
    ensures Filter(p, a + b) == (if p(a[0]) then [a[0]] else []) + Filter(p, a[1..] + b)
  {
    assert (a + b)[0] == a[0];
    assert (a + b)[1..] == a[1..] + b;
    FilterCons(p, a + b);
  }

  /** Filtering distributes over a split of the rows into two parts. */
  lemma {:induction false} FilterAppend<T(!new)>(p: T -> bool, a: seq<T>, b: seq<T>)
    ensures Filter(p, a + b) == Filter(p, a) + Filter(p, b)
    decreases |a|
  {
    if |a| == 0 {
      assert a + b == b;
    } else {
      FilterConsAppend(p, a, b);
      FilterCons(p, a);
      FilterAppend(p, a[1..], b);
      ConcatAssoc(if p(a[0]) then [a[0]] else [], Filter(p, a[1..]), Filter(p, b));
    }
  }

  /** `f` applied to every row (`DataFrame.select` of computed columns). */
  function Map<T, U>(f: T -> U, s: seq<T>): (r: seq<U>)
    ensures |r| == |s|
    ensures forall i :: 0 <= i < |s| ==> r[i] == f(s[i])
  {
    seq(|s|, i requires 0 <= i < |s| => f(s[i]))
  }

  /** Projection distributes over a split of the rows into two parts. */
  lemma MapAppend<T, U>(f: T -> U, a: seq<T>, b: seq<T>)
    ensures Map(f, a + b) == Map(f, a) + Map(f, b)
  {
  }

  /** The first row's contribution to select-project-select, row for row. */
  lemma SelectProjectSelectStep<T(!new), U(!new)>(q: T -> bool, f: T -> U, p: U -> bool, s: seq<T>)
    requires |s| > 0
    ensures Filter(p, Map(f, Filter(q, s))) ==
      (if q(s[0]) && p(f(s[0])) then [f(s[0])] else []) + Filter(p, Map(f, Filter(q, s[1..])))
  {
    var rest := Filter(q, s[1..]);
    FilterCons(q, s);
    if q(s[0]) {
      MapAppend(f, [s[0]], rest);
      assert Map(f, [s[0]]) == [f(s[0])];
      FilterAppend(p, [f(s[0])], Map(f, rest));
      FilterCons(p, [f(s[0])]);
      assert [f(s[0])][1..] == [];
    } else {
      assert Filter(q, s) == rest;
    }
  }

  /** Selecting, projecting and selecting again equals one selection by the
      combined condition followed by the projection: the same rows, in order. */
  lemma {:induction false} SelectProjectSelect<T(!new), U(!new)>(q: T -> bool, f: T -> U, p: U -> bool, both: T -> bool, s: seq<T>)
    requires forall x :: both(x) == (q(x) && p(f(x)))
    ensures Filter(p, Map(f, Filter(q, s))) == Map(f, Filter(both, s))
    decreases |s|
  {
    if |s| == 0 {
      assert Filter(q, s) == [];
      assert Filter(both, s) == [];
    } else {
      SelectProjectSelectStep(q, f, p, s);
      SelectProjectSelect(q, f, p, both, s[1..]);
      FilterCons(both, s);
      if both(s[0]) {
        MapAppend(f, [s[0]], Filter(both, s[1..]));
        assert Map(f, [s[0]]) == [f(s[0])];
      }
    }
  }

  /** No value occurs twice. */
  predicate NoDuplicates<T(==)>(s: seq<T>) {
    forall i, j :: 0 <= i < j < |s| ==> s[i] != s[j]
  }

  /** `DataFrame.distinct`: every value of `s` once, NULLs compared equal. */
  function Distinct<T(==,!new)>(s: seq<T>): (r: seq<T>)
    ensures NoDuplicates(r)
    ensures forall x :: x in r <==> x in s
    ensures |r| <= |s|
    decreases |s|
  {
    if |s| == 0 then []
    else
      var d := Distinct(s[..|s| - 1]);
      assert s == s[..|s| - 1] + [s[|s| - 1]];
      if s[|s| - 1] in d then d else d + [s[|s| - 1]]
  }

  // ---------------------------------------------------------------------
  // SQL three-valued logic: `None` is the unknown truth value (NULL).

  /** `x IN ids`: true on a match, unknown for a NULL operand or when the
      list holds a NULL and nothing matched, false otherwise. */
  function SqlIn<T(==)>(x: Option<T>, ids: set<Option<T>>): (r: Option<bool>)
    ensures r == Some(true) <==> x.Some? && x in ids
    ensures r == Some(false) <==> x.Some? && x !in ids && None !in ids
  {
    if x.None? then None
    else if x in ids then Some(true)
    else if None in ids then None
    else Some(false)
  }

  /** SQL `NOT`: unknown stays unknown. */
  function SqlNot(b: Option<bool>): (r: Option<bool>)
    ensures r == Some(true) <==> b == Some(false)
    ensures r.None? <==> b.None?
  {
    match b
    case None => None
    case Some(v) => Some(!v)
  }

  /** `x * -1` on a nullable number. */
  function Negate(x: Option<int>): (r: Option<int>)
    ensures r.Some? <==> x.Some?
    ensures r.Some? ==> r.value + x.value == 0
  {
    match x
    case None => None
    case Some(v) => Some(-v)
  }

  /** `x - y` with a nullable left operand. */
  function Subtract(x: Option<int>, y: int): (r: Option<int>)
    ensures r.Some? <==> x.Some?
    ensures r.Some? ==> r.value + y == x.value
  {
    match x
    case None => None
    case Some(v) => Some(v - y)
  }

  /** The sum of the non-NULL values; NULLs contribute nothing. */
  function SumPresent(xs: seq<Option<int>>): (r: int)
    ensures (forall i :: 0 <= i < |xs| ==> xs[i].None?) ==> r == 0
    decreases |xs|
  {
    if |xs| == 0 then 0 else xs[0].GetOr(0) + SumPresent(xs[1..])
  }

  /** SQL `sum`: NULLs are skipped, and a group with no non-NULL value sums to NULL. */
  function SqlSum(xs: seq<Option<int>>): (r: Option<int>)
    ensures r.None? <==> forall i :: 0 <= i < |xs| ==> xs[i].None?
    ensures r.GetOr(0) == SumPresent(xs)
  {
    if forall i :: 0 <= i < |xs| ==> xs[i].None? then None else Some(SumPresent(xs))
  }

  // ---------------------------------------------------------------------
  // Left equi-join.

  /** The right rows that `l` joins with. */
  function Matches<L, R(!new)>(l: L, right: seq<R>, on: (L, R) -> bool): (ms: seq<R>)
    ensures forall m :: m in ms <==> m in right && on(l, m)
  {
    Filter(r => on(l, r), right)
  }

  /** The only match, when there is exactly one. */
  function FirstOf<R>(ms: seq<R>): Option<R> {
    if |ms| == 0 then None else Some(ms[0])
  }

  /** The output rows of one left row: one per match, or a single row
      with the right side NULL when nothing matches. */
  function JoinRow<L, R(!new), O>(l: L, right: seq<R>, on: (L, R) -> bool, combine: (L, Option<R>) -> O): (out: seq<O>)
    ensures |out| == if |Matches(l, right, on)| == 0 then 1 else |Matches(l, right, on)|
  {
    var ms := Matches(l, right, on);
    if |ms| == 0 then [combine(l, None)]
    else seq(|ms|, i requires 0 <= i < |ms| => combine(l, Some(ms[i])))
  }

  /** `left.join(right, on, "left")`: never loses a left row, but may
      repeat one that matches several right rows. */
  function LeftJoin<L, R(!new), O>(left: seq<L>, right: seq<R>, on: (L, R) -> bool, combine: (L, Option<R>) -> O): (out: seq<O>)
    ensures |out| >= |left|
    decreases |left|
  {
    if |left| == 0 then []
    else JoinRow(left[0], right, on, combine) + LeftJoin(left[1..], right, on, combine)
  }

  /** An output row of one left row is that row combined with one of its
      matches, or with NULL when it has none. */
  lemma JoinRowMembers<L, R(!new), O>(l: L, right: seq<R>, on: (L, R) -> bool, combine: (L, Option<R>) -> O)
    ensures forall o :: o in JoinRow(l, right, on, combine) <==>
      || (|Matches(l, right, on)| == 0 && o == combine(l, None))
      || (exists m :: m in right && on(l, m) && o == combine(l, Some(m)))
  {
    var ms := Matches(l, right, on);
    var out := JoinRow(l, right, on, combine);
    if |ms| > 0 {
      forall o | o in out ensures exists m :: m in right && on(l, m) && o == combine(l, Some(m)) {
        var i :| 0 <= i < |out| && out[i] == o;
        assert ms[i] in ms;
      }
      forall o, m | m in right && on(l, m) && o == combine(l, Some(m)) ensures o in out {
        assert m in ms;
        var i :| 0 <= i < |ms| && ms[i] == m;
        assert out[i] == o;
      }
    }
  }

  /** The output rows of a left join are those of its left rows. */
  lemma {:induction false} LeftJoinRowsOf<L, R(!new), O>(left: seq<L>, right: seq<R>, on: (L, R) -> bool, combine: (L, Option<R>) -> O)
    ensures forall o :: o in LeftJoin(left, right, on, combine) ==>
      exists l :: l in left && o in JoinRow(l, right, on, combine)
    ensures forall l, o :: l in left && o in JoinRow(l, right, on, combine) ==>
      o in LeftJoin(left, right, on, combine)
    decreases |left|
  {
    if |left| > 0 {
      var head := JoinRow(left[0], right, on, combine);
      var tail := left[1..];
      var rest := LeftJoin(tail, right, on, combine);
      LeftJoinRowsOf(tail, right, on, combine);
      assert LeftJoin(left, right, on, combine) == head + rest;
      forall o | o in rest ensures exists l :: l in left && o in JoinRow(l, right, on, combine) {
        var l :| l in tail && o in JoinRow(l, right, on, combine);
        assert l in left;
      }
      forall l, o | l in left && o in JoinRow(l, right, on, combine) && l != left[0] ensures o in rest {
        assert l in tail;
      }
    }
  }

  /** Every output row of a left join is a left row combined with one of its
      matching right rows, or with NULL when that left row matches none; and
      every such combination is an output row. */
  lemma LeftJoinMembers<L, R(!new), O>(left: seq<L>, right: seq<R>, on: (L, R) -> bool, combine: (L, Option<R>) -> O)
    ensures forall o :: o in LeftJoin(left, right, on, combine) ==>
      exists l :: l in left && (
        || (|Matches(l, right, on)| == 0 && o == combine(l, None))
        || (exists m :: m in right && on(l, m) && o == combine(l, Some(m))))
    ensures forall l, m :: l in left && m in right && on(l, m) ==>
      combine(l, Some(m)) in LeftJoin(left, right, on, combine)
    ensures forall l :: l in left && |Matches(l, right, on)| == 0 ==>
      combine(l, None) in LeftJoin(left, right, on, combine)
  {
    LeftJoinRowsOf(left, right, on, combine);
    forall l | l in left {
      JoinRowMembers(l, right, on, combine);
    }
  }

  ghost predicate AtMostOneMatch<L, R(!new)>(left: seq<L>, right: seq<R>, on: (L, R) -> bool) {
    forall i :: 0 <= i < |left| ==> |Matches(left[i], right, on)| <= 1
  }

  /** A left row with at most one match yields exactly one output row. */
  lemma JoinRowSingle<L, R(!new), O>(l: L, right: seq<R>, on: (L, R) -> bool, combine: (L, Option<R>) -> O)
    requires |Matches(l, right, on)| <= 1
    ensures JoinRow(l, right, on, combine) == [combine(l, FirstOf(Matches(l, right, on)))]
  {
  }

  /** When no left row matches twice, a left join is a row-by-row map:
      one output row per left row, in place, combined with its match or NULL. */
  lemma {:induction false} LeftJoinOneToOne<L, R(!new), O>(left: seq<L>, right: seq<R>, on: (L, R) -> bool, combine: (L, Option<R>) -> O)
    requires AtMostOneMatch(left, right, on)
    ensures |LeftJoin(left, right, on, combine)| == |left|
    ensures forall i :: 0 <= i < |left| ==>
      LeftJoin(left, right, on, combine)[i] == combine(left[i], FirstOf(Matches(left[i], right, on)))
    decreases |left|
  {
    if |left| > 0 {
      var tail := left[1..];
      assert forall i :: 0 <= i < |tail| ==> tail[i] == left[i + 1];
      assert AtMostOneMatch(tail, right, on);
      LeftJoinOneToOne(tail, right, on, combine);
      JoinRowSingle(left[0], right, on, combine);
      var out := LeftJoin(left, right, on, combine);
      var rest := LeftJoin(tail, right, on, combine);
      assert out == [combine(left[0], FirstOf(Matches(left[0], right, on)))] + rest;
      assert forall i :: 0 < i < |left| ==> out[i] == rest[i - 1];
    }
  }

  /** Rows whose key is unique on the right match a left row at most once:
      exactly the right row carrying the left row's key, when the left row
      can join at all. */
  lemma {:induction false} UniqueKeyMatch<L, R(!new), K>(l: L, right: seq<R>, on: (L, R) -> bool, rightKey: R -> K, k: K, joinable: bool)
    requires forall i, j :: 0 <= i < j < |right| ==> rightKey(right[i]) != rightKey(right[j])
    requires forall i :: 0 <= i < |right| ==> (on(l, right[i]) <==> joinable && rightKey(right[i]) == k)
    ensures |Matches(l, right, on)| <= 1
    ensures |Matches(l, right, on)| == 1 <==> joinable && exists i :: 0 <= i < |right| && rightKey(right[i]) == k
    ensures |Matches(l, right, on)| == 1 ==> Matches(l, right, on)[0] in right && rightKey(Matches(l, right, on)[0]) == k
    decreases |right|
  {
    if |right| > 0 {
      var rest := right[1..];
      assert right == [right[0]] + rest;
      forall i, j | 0 <= i < j < |rest| ensures rightKey(rest[i]) != rightKey(rest[j]) {
        assert rest[i] == right[i + 1] && rest[j] == right[j + 1];
      }
      forall i | 0 <= i < |rest| ensures on(l, rest[i]) <==> joinable && rightKey(rest[i]) == k {
        assert rest[i] == right[i + 1];
      }
      UniqueKeyMatch(l, rest, on, rightKey, k, joinable);
      assert Matches(l, right, on) == (if on(l, right[0]) then [right[0]] else []) + Matches(l, rest, on);
      if on(l, right[0]) {
        assert Matches(l, rest, on) == [];
      } else if joinable && exists i :: 0 <= i < |right| && rightKey(right[i]) == k {
        var i :| 0 <= i < |right| && rightKey(right[i]) == k;
        assert i > 0;
        assert rest[i - 1] == right[i];
      }
    }
  }

  // ---------------------------------------------------------------------
  // Dimensions with surrogate keys.

  /** A dimension row: a natural key and the surrogate key assigned to it. */
  datatype DimRow<K> = DimRow(naturalKey: K, surrogateKey: nat)

  function NaturalKey<K>(d: DimRow<K>): K {
    d.naturalKey
  }

  /** The distinct projection of `projection`, each value given a surrogate
      key that no other row of the run shares (`monotonically_increasing_id`). */
  function Dimension<K(==,!new)>(projection: seq<K>): (dim: seq<DimRow<K>>)
    ensures forall i, j :: 0 <= i < j < |dim| ==> dim[i].naturalKey != dim[j].naturalKey
    ensures forall i, j :: 0 <= i < j < |dim| ==> dim[i].surrogateKey != dim[j].surrogateKey
    ensures forall k :: k in projection <==> exists i :: 0 <= i < |dim| && dim[i].naturalKey == k
    ensures |dim| <= |projection|
  {
    var keys := Distinct(projection);
    var dim := seq(|keys|, i requires 0 <= i < |keys| => DimRow(keys[i], i));
    assert forall i :: 0 <= i < |keys| ==> dim[i].naturalKey == keys[i];
    dim
  }

  /** Reference lookup: the surrogate key of natural key `k` in `dim`, if any. */
  function SurrogateKeyOf<K(==)>(dim: seq<DimRow<K>>, k: K): (r: Option<nat>)
    ensures r.Some? <==> exists i :: 0 <= i < |dim| && dim[i].naturalKey == k
    ensures r.Some? ==> exists i :: 0 <= i < |dim| && dim[i].naturalKey == k && dim[i].surrogateKey == r.value
    decreases |dim|
  {
    if |dim| == 0 then None
    else if dim[0].naturalKey == k then Some(dim[0].surrogateKey)
    else
      var r := SurrogateKeyOf(dim[1..], k);
      assert forall i :: 0 < i < |dim| ==> dim[1..][i - 1] == dim[i];
      r
  }

  /** The surrogate key carried by a joined dimension row, NULL for no match. */
  function SurrogateOf<K>(d: Option<DimRow<K>>): Option<nat> {
    match d
    case None => None
    case Some(row) => Some(row.surrogateKey)
  }

  /** Left-joining on the natural key of a dimension keeps every left row
      exactly once, and gives it the surrogate key of its natural key when
      the key can be compared at all, NULL otherwise. */
  lemma DimensionJoin<L, K(!new), O>(left: seq<L>, dim: seq<DimRow<K>>, keyOf: L -> K, joinable: K -> bool,
                                   on: (L, DimRow<K>) -> bool, combine: (L, Option<DimRow<K>>) -> O)
    requires forall i, j :: 0 <= i < j < |dim| ==> dim[i].naturalKey != dim[j].naturalKey
    requires forall l, d :: on(l, d) <==> joinable(keyOf(l)) && d.naturalKey == keyOf(l)
    ensures |LeftJoin(left, dim, on, combine)| == |left|
    ensures forall i :: 0 <= i < |left| ==>
      LeftJoin(left, dim, on, combine)[i] == combine(left[i], FirstOf(Matches(left[i], dim, on)))
    ensures forall i :: 0 <= i < |left| ==>
      SurrogateOf(FirstOf(Matches(left[i], dim, on)))
        == if joinable(keyOf(left[i])) then SurrogateKeyOf(dim, keyOf(left[i])) else None
  {
    forall i | 0 <= i < |left|
      ensures |Matches(left[i], dim, on)| <= 1
      ensures SurrogateOf(FirstOf(Matches(left[i], dim, on)))
        == if joinable(keyOf(left[i])) then SurrogateKeyOf(dim, keyOf(left[i])) else None
    {
      var l, k := left[i], keyOf(left[i]);
      UniqueKeyMatch(l, dim, on, NaturalKey, k, joinable(k));
      var ms := Matches(l, dim, on);
      if |ms| == 1 {
        var j :| 0 <= j < |dim| && dim[j] == ms[0];
        SurrogateKeyUnique(dim, j);
      }
    }
    LeftJoinOneToOne(left, dim, on, combine);
  }

  /** With distinct natural keys, the lookup finds the row that holds the key. */
  lemma {:induction false} SurrogateKeyUnique<K>(dim: seq<DimRow<K>>, j: nat)
    requires forall i, i' :: 0 <= i < i' < |dim| ==> dim[i].naturalKey != dim[i'].naturalKey
    requires j < |dim|
    ensures SurrogateKeyOf(dim, dim[j].naturalKey) == Some(dim[j].surrogateKey)
    decreases |dim|
  {
    if j > 0 {
      assert dim[0].naturalKey != dim[j].naturalKey;
      assert dim[1..][j - 1] == dim[j];
      SurrogateKeyUnique(dim[1..], j - 1);
    }
  }
}
