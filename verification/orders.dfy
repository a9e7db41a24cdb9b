/** Total orders and sorting used throughout: integers, and lexicographic order on
    integer sequences (tuples of identifiers, code-point strings, byte strings). */
module Orders {

  datatype Option<+T> = None | Some(value: T)

  datatype Result<+T, +E> = Ok(value: T) | Err(error: E)

  // ----- lexicographic order -----

  predicate LexLe(a: seq<int>, b: seq<int>) {
    a == [] || (b != [] && (a[0] < b[0] || (a[0] == b[0] && LexLe(a[1..], b[1..]))))
  }

  predicate LexLt(a: seq<int>, b: seq<int>) {
    LexLe(a, b) && a != b
  }

  lemma {:induction false} LexTotal(a: seq<int>, b: seq<int>)
    ensures LexLe(a, b) || LexLe(b, a)
  {
    if a != [] && b != [] && a[0] == b[0] {
      LexTotal(a[1..], b[1..]);
    }
  }

  lemma {:induction false} LexRefl(a: seq<int>)
    ensures LexLe(a, a)
  {
    LexTotal(a, a);
  }

  lemma {:induction false} LexAntisymmetric(a: seq<int>, b: seq<int>)
    requires LexLe(a, b) && LexLe(b, a)
    ensures a == b
  {
    if a != [] {
      LexAntisymmetric(a[1..], b[1..]);
      assert a == [a[0]] + a[1..] && b == [b[0]] + b[1..];
    }
  }

  lemma {:induction false} LexTransitive(a: seq<int>, b: seq<int>, c: seq<int>)
    requires LexLe(a, b) && LexLe(b, c)
    ensures LexLe(a, c)
  {
    if a != [] && a[0] == b[0] == c[0] {
      LexTransitive(a[1..], b[1..], c[1..]);
    }
  }

  lemma {:induction false} LexLtTransitive(a: seq<int>, b: seq<int>, c: seq<int>)
    requires (LexLe(a, b) && LexLt(b, c)) || (LexLt(a, b) && LexLe(b, c))
    ensures LexLt(a, c)
  {
    LexTransitive(a, b, c);
    if a == c {
      LexAntisymmetric(a, b);
    }
  }

  lemma {:induction false} LexCons(x: int, a: seq<int>, b: seq<int>)
    ensures LexLe([x] + a, [x] + b) <==> LexLe(a, b)
  {
    assert ([x] + a)[1..] == a && ([x] + b)[1..] == b;
  }

  /** The first difference decides. */
  lemma {:induction false} LexAt(a: seq<int>, b: seq<int>, k: nat)
    requires k < |a| && k < |b| && a[..k] == b[..k] && a[k] < b[k]
    ensures LexLt(a, b)
  {
    if k > 0 {
      assert a[0] == a[..k][0] == b[..k][0] == b[0];
      assert a[1..][..k - 1] == a[..k][1..] && b[1..][..k - 1] == b[..k][1..];
      LexAt(a[1..], b[1..], k - 1);
    }
  }

  /** The least of a nonempty list of tuples, as `min` chooses it. */
  function LexMin(ps: seq<seq<int>>): (m: seq<int>)
    requires ps != []
    ensures m in ps
    ensures forall p :: p in ps ==> LexLe(m, p)
  {
    if |ps| == 1 then
      LexRefl(ps[0]);
      ps[0]
    else
      var rest := LexMin(ps[1..]);
      assert forall p :: p in ps ==> p == ps[0] || p in ps[1..];
      LexTotal(ps[0], rest);
      LexRefl(ps[0]);
      if LexLe(ps[0], rest) then
        LexMinHead(ps[0], rest, ps[1..]);
        ps[0]
      else rest
  }

  lemma {:induction false} LexMinHead(h: seq<int>, m: seq<int>, ps: seq<seq<int>>)
    requires LexLe(h, m) && forall p :: p in ps ==> LexLe(m, p)
    ensures forall p :: p in ps ==> LexLe(h, p)
  {
    forall p | p in ps ensures LexLe(h, p) {
      LexTransitive(h, m, p);
    }
  }

  // ----- sorted integer sequences -----

  ghost predicate Sorted(s: seq<int>) {
    forall i, j :: 0 <= i < j < |s| ==> s[i] <= s[j]
  }

  ghost predicate StrictlySorted(s: seq<int>) {
    forall i, j :: 0 <= i < j < |s| ==> s[i] < s[j]
  }

  ghost predicate Distinct<T(!new)>(s: seq<T>) {
    forall i, j :: 0 <= i < j < |s| ==> s[i] != s[j]
  }

  function Elems<T(!new)>(s: seq<T>): (r: set<T>)
    ensures forall x :: x in r <==> x in s
  {
    set x | x in s
  }

  function Insert(x: int, s: seq<int>): (r: seq<int>)
    ensures multiset(r) == multiset{x} + multiset(s)
  {
    if s == [] || x <= s[0] then [x] + s
    else
      assert s == [s[0]] + s[1..];
      [s[0]] + Insert(x, s[1..])
  }

  lemma {:induction false} InsertSorted(x: int, s: seq<int>)
    requires Sorted(s)
    ensures Sorted(Insert(x, s))
  {
    if s != [] && s[0] < x {
      InsertSorted(x, s[1..]);
      var t := Insert(x, s[1..]);
      forall j | 0 <= j < |t| ensures s[0] <= t[j] {
        assert t[j] in multiset(t);
        assert t[j] == x || t[j] in multiset(s[1..]);
      }
    }
  }

  /** `sorted(s)` on a list of integers; equal items are kept. */
  function Sort(s: seq<int>): (r: seq<int>)
    ensures multiset(r) == multiset(s)
    ensures Sorted(r)
    ensures forall x :: x in r <==> x in s
  {
    if s == [] then []
    else
      assert s == [s[0]] + s[1..];
      var t := Sort(s[1..]);
      InsertSorted(s[0], t);
      var r := Insert(s[0], t);
      assert multiset(r) == multiset(s);
      assert forall x :: x in r <==> x in multiset(r);
      assert forall x :: x in s <==> x in multiset(s);
      r
  }

  lemma {:induction false} Member<T>(s: set<T>) returns (x: T)
    requires s != {}
    ensures x in s
  {
    x :| x in s;
  }

  ghost predicate IsLeast(m: int, s: set<int>) {
    m in s && forall x :: x in s ==> m <= x
  }

  lemma {:induction false} MinExists(s: set<int>) returns (m: int)
    requires s != {}
    ensures IsLeast(m, s)
  {
    var y := Member(s);
    m := y;
    var rest := s - {y};
    assert s == rest + {y};
    if rest != {} {
      var n := MinExists(rest);
      if n < y { m := n; }
    }
  }

  function SetMin(s: set<int>): (m: int)
    requires s != {}
    ensures IsLeast(m, s)
  {
    assert exists x :: x in s && forall y :: y in s ==> x <= y by {
      var x := MinExists(s);
    }
    var m :| m in s && forall y :: y in s ==> m <= y;
    m
  }

  /** `tuple(sorted(s))` on a set: the strictly increasing listing of its members. */
  function SortSet(s: set<int>): (r: seq<int>)
    ensures StrictlySorted(r)
    ensures forall x :: x in r <==> x in s
    ensures |r| == |s|
  {
    if s == {} then []
    else
      var m := SetMin(s);
      var t := SortSet(s - {m});
      assert forall i :: 0 <= i < |t| ==> t[i] in t;
      [m] + t
  }

  lemma {:induction false} TailOfSorted(s: seq<int>, x: int)
    requires StrictlySorted(s) && s != []
    ensures StrictlySorted(s[1..])
    ensures x in s[1..] <==> x in s && x != s[0]
  {
    if x in s && x != s[0] {
      var i :| 0 <= i < |s| && s[i] == x;
      assert s[1..][i - 1] == x;
    }
  }

  lemma {:induction false} SameLeast(a: seq<int>, b: seq<int>)
    requires StrictlySorted(a) && StrictlySorted(b) && a != []
    requires forall x :: x in a <==> x in b
    ensures b != [] && a[0] == b[0]
  {
    assert a[0] in a;
    assert b[0] in b;
  }

  lemma {:induction false} StrictlySortedUnique(a: seq<int>, b: seq<int>)
    requires StrictlySorted(a) && StrictlySorted(b)
    requires forall x :: x in a <==> x in b
    ensures a == b
  {
    assert b != [] ==> b[0] in b;
    if a != [] {
      hide StrictlySorted;
      SameLeast(a, b);
      forall x ensures x in a[1..] <==> x in b[1..] {
        TailOfSorted(a, x);
        TailOfSorted(b, x);
      }
      TailOfSorted(a, a[0]);
      TailOfSorted(b, b[0]);
      StrictlySortedUnique(a[1..], b[1..]);
      assert a == [a[0]] + a[1..] && b == [b[0]] + b[1..];
    }
  }

  lemma {:induction false} SortOfDistinct(s: seq<int>)
    requires Distinct(s)
    ensures StrictlySorted(Sort(s)) && Sort(s) == SortSet(Elems(s))
  {
    var r := Sort(s);
    DistinctPermutation(s, r);
    StrictlySortedUnique(r, SortSet(Elems(s)));
  }

  lemma {:induction false} DuplicateCount<T>(s: seq<T>, i: nat, j: nat)
    requires i < j < |s| && s[i] == s[j]
    ensures multiset(s)[s[i]] >= 2
  {
    assert s == s[..j] + [s[j]] + s[j + 1..];
    assert s[..j][i] == s[i];
    assert s[i] in multiset(s[..j]);
  }

  lemma {:induction false} DistinctCount<T(!new)>(s: seq<T>, x: T)
    requires Distinct(s)
    ensures multiset(s)[x] <= 1
  {
    if s != [] {
      assert s == [s[0]] + s[1..];
      DistinctCount(s[1..], x);
      if x == s[0] {
        assert x !in s[1..];
      }
    }
  }

  // ----- sorted lists of tuples -----

  ghost predicate LexSorted(s: seq<seq<int>>) {
    forall i, j :: 0 <= i < j < |s| ==> LexLe(s[i], s[j])
  }

  function InsertTuple(x: seq<int>, s: seq<seq<int>>): (r: seq<seq<int>>)
    ensures multiset(r) == multiset{x} + multiset(s)
  {
    if s == [] || LexLe(x, s[0]) then [x] + s
    else
      assert s == [s[0]] + s[1..];
      [s[0]] + InsertTuple(x, s[1..])
  }

  lemma {:induction false} InsertTupleSorted(x: seq<int>, s: seq<seq<int>>)
    requires LexSorted(s)
    ensures LexSorted(InsertTuple(x, s))
  {
    var r := InsertTuple(x, s);
    if s == [] {
    } else if LexLe(x, s[0]) {
      forall i, j | 0 <= i < j < |r| ensures LexLe(r[i], r[j]) {
        if i == 0 { LexTransitive(x, s[0], s[j - 1]) by { LexRefl(s[0]); } }
      }
    } else {
      LexTotal(x, s[0]);
      InsertTupleSorted(x, s[1..]);
      var t := InsertTuple(x, s[1..]);
      forall i, j | 0 <= i < j < |r| ensures LexLe(r[i], r[j]) {
        if i == 0 {
          assert t[j - 1] in multiset(t);
          assert t[j - 1] == x || t[j - 1] in multiset(s[1..]);
        }
      }
    }
  }

  /** `sorted(s)` on a list of tuples. */
  function SortTuples(s: seq<seq<int>>): (r: seq<seq<int>>)
    ensures multiset(r) == multiset(s)
    ensures LexSorted(r)
    ensures forall x :: x in r <==> x in s
    ensures |r| == |s|
  {
    if s == [] then []
    else
      assert s == [s[0]] + s[1..];
      var t := SortTuples(s[1..]);
      InsertTupleSorted(s[0], t);
      var r := InsertTuple(s[0], t);
      assert multiset(r) == multiset(s);
      assert forall x :: x in r <==> x in multiset(r);
      assert forall x :: x in s <==> x in multiset(s);
      assert |multiset(r)| == |r| && |multiset(s)| == |s|;
      r
  }

  lemma {:induction false} DistinctPermutation<T(!new)>(a: seq<T>, b: seq<T>)
    requires Distinct(a) && multiset(a) == multiset(b)
    ensures Distinct(b)
  {
    forall i, j | 0 <= i < j < |b| ensures b[i] != b[j] {
      if b[i] == b[j] {
        DuplicateCount(b, i, j);
        DistinctCount(a, b[i]);
      }
    }
  }

  lemma {:induction false} SortTuplesStrict(s: seq<seq<int>>)
    requires Distinct(s)
    ensures forall i, j :: 0 <= i < j < |s| ==> LexLt(SortTuples(s)[i], SortTuples(s)[j])
  {
    DistinctPermutation(s, SortTuples(s));
    hide SortTuples, LexLe;
  }
}
