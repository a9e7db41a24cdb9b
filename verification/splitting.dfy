/** Sequences cut at a separator: `split`, `join`, and where the parts start. */
module Splitting {

  /** `raw.split(sep)`. */
  function Split<T(==)>(raw: seq<T>, sep: T): (parts: seq<seq<T>>)
    ensures parts != []
  {
    if raw == [] then [[]]
    else
      var rest := Split(raw[1..], sep);
      if raw[0] == sep then [[]] + rest else [[raw[0]] + rest[0]] + rest[1..]
  }

  /** `sep.join(parts)`. */
  function Join<T>(parts: seq<seq<T>>, sep: T): seq<T>
    requires parts != []
  {
    if |parts| == 1 then parts[0] else parts[0] + [sep] + Join(parts[1..], sep)
  }

  lemma {:induction false} SplitParts<T>(raw: seq<T>, sep: T)
    ensures forall i :: 0 <= i < |Split(raw, sep)| ==> sep !in Split(raw, sep)[i]
  {
    if raw != [] {
      SplitParts(raw[1..], sep);
      var parts, rest := Split(raw, sep), Split(raw[1..], sep);
      forall i | 0 <= i < |parts| ensures sep !in parts[i] {
        if raw[0] == sep {
          assert i > 0 ==> parts[i] == rest[i - 1];
        } else {
          assert i > 0 ==> parts[i] == rest[i];
        }
      }
    }
  }

  lemma {:induction false} JoinSplit<T>(raw: seq<T>, sep: T)
    ensures Join(Split(raw, sep), sep) == raw
  {
    if raw != [] {
      JoinSplit(raw[1..], sep);
      var parts, rest := Split(raw, sep), Split(raw[1..], sep);
      if raw[0] == sep {
        assert parts[0] == [] && parts[1..] == rest;
        assert Join(parts, sep) == [sep] + Join(rest, sep);
      } else {
        assert parts[0] == [raw[0]] + rest[0] && parts[1..] == rest[1..];
        assert Join(parts, sep) == [raw[0]] + Join(rest, sep);
      }
      assert raw == [raw[0]] + raw[1..];
    }
  }

  lemma {:induction false} SplitJoin<T>(parts: seq<seq<T>>, sep: T)
    requires parts != [] && forall i :: 0 <= i < |parts| ==> sep !in parts[i]
    ensures Split(Join(parts, sep), sep) == parts
    decreases |parts|, |parts[0]|
  {
    var raw := Join(parts, sep);
    if parts[0] != [] {
      var shorter := [parts[0][1..]] + parts[1..];
      assert raw[1..] == Join(shorter, sep) by {
        if |parts| > 1 {
          assert shorter[1..] == parts[1..];
          var rest := Join(parts[1..], sep);
          assert parts[0] + [sep] + rest == [parts[0][0]] + (parts[0][1..] + [sep] + rest);
        }
      }
      assert parts[0][0] in parts[0];
      assert raw[0] == parts[0][0];
      SplitJoin(shorter, sep);
      assert shorter[1..] == parts[1..];
      assert [raw[0]] + shorter[0] == parts[0];
      assert parts == [parts[0]] + parts[1..];
    } else if |parts| > 1 {
      assert raw == [sep] + Join(parts[1..], sep);
      SplitJoin(parts[1..], sep);
      assert raw[1..] == Join(parts[1..], sep);
      assert parts == [parts[0]] + parts[1..];
    } else {
      assert parts == [[]];
    }
  }

  lemma {:induction false} SplitCons<T>(x: seq<T>, sep: T)
    requires x != []
    ensures var rest := Split(x[1..], sep);
      Split(x, sep) == if x[0] == sep then [[]] + rest else [[x[0]] + rest[0]] + rest[1..]
  {
  }

  lemma {:induction false} SplitOne<T>(c: T, sep: T)
    ensures Split([], sep) == [[]]
    ensures Split([c], sep) == if c == sep then [[], []] else [[c]]
  {
    assert [c][1..] == [] && [c] + [] == [c];
  }

  /** The parts with one more element. */
  ghost function Snoc<T>(parts: seq<seq<T>>, c: T, sep: T): seq<seq<T>>
    requires parts != []
  {
    var n := |parts| - 1;
    if c == sep then parts + [[]] else parts[..n] + [parts[n] + [c]]
  }

  lemma {:induction false} SnocUnderPart<T>(rest: seq<seq<T>>, c: T, sep: T)
    requires rest != []
    ensures [[]] + Snoc(rest, c, sep) == Snoc([[]] + rest, c, sep)
  {
  }

  lemma {:induction false} SnocUnderElement<T>(x: T, rest: seq<seq<T>>, c: T, sep: T)
    requires rest != []
    ensures var next := Snoc(rest, c, sep);
      next != [] && [[x] + next[0]] + next[1..] == Snoc([[x] + rest[0]] + rest[1..], c, sep)
  {
    var next := Snoc(rest, c, sep);
    var a, b := [[x] + next[0]] + next[1..], Snoc([[x] + rest[0]] + rest[1..], c, sep);
    assert |a| == |b|;
    if c != sep && |rest| == 1 {
      assert [x] + (rest[0] + [c]) == ([x] + rest[0]) + [c];
    }
    assert forall i :: 0 <= i < |a| ==> a[i] == b[i];
  }

  /** One more element opens a part or lengthens the last one. */
  lemma {:induction false} SplitSnoc<T>(x: seq<T>, c: T, sep: T)
    ensures Split(x + [c], sep) == Snoc(Split(x, sep), c, sep)
  {
    hide Split, Snoc;
    if x == [] {
      assert x + [c] == [c] && x == [];
      SplitOne(c, sep);
      SnocOne(c, sep);
    } else {
      SplitSnoc(x[1..], c, sep);
      assert (x + [c])[1..] == x[1..] + [c] && (x + [c])[0] == x[0];
      SplitCons(x, sep);
      SplitCons(x + [c], sep);
      SnocUnderPart(Split(x[1..], sep), c, sep);
      SnocUnderElement(x[0], Split(x[1..], sep), c, sep);
    }
  }

  lemma {:induction false} SnocOne<T>(c: T, sep: T)
    ensures Snoc([[]], c, sep) == if c == sep then [[], []] else [[c]]
  {
    assert [] + [c] == [c];
  }

  // ----- where the parts start -----

  /** Where each part starts, the first one at `from`. */
  function StartsOf<T>(parts: seq<seq<T>>, from: int): (starts: seq<int>)
    ensures |starts| == |parts|
  {
    if parts == [] then [] else [from] + StartsOf(parts[1..], from + |parts[0]| + 1)
  }

  lemma {:induction false} StartsNext<T>(parts: seq<seq<T>>, from: int, sep: T, i: nat)
    requires i < |parts|
    ensures StartsOf(parts, from)[i] >= from
    ensures i + 1 < |parts| ==> StartsOf(parts, from)[i + 1] == StartsOf(parts, from)[i] + |parts[i]| + 1
    ensures i + 1 == |parts| ==> StartsOf(parts, from)[i] + |parts[i]| == from + |Join(parts, sep)|
    ensures i == 0 ==> StartsOf(parts, from)[i] == from
  {
    if i > 0 {
      StartsNext(parts[1..], from + |parts[0]| + 1, sep, i - 1);
    } else if |parts| > 1 {
      StartsNext(parts[1..], from + |parts[0]| + 1, sep, 0);
    }
  }

  lemma {:induction false} Shifted<T>(a: seq<T>, b: seq<T>, s: nat, n: nat)
    requires s + n <= |b|
    ensures (a + b)[|a| + s..|a| + s + n] == b[s..s + n]
    ensures s + n < |b| ==> (a + b)[|a| + s + n] == b[s + n]
  {
  }

  /** The joined sequence holds each part at its start, with a separator before the next. */
  lemma {:induction false} PartAt<T>(parts: seq<seq<T>>, sep: T, i: nat)
    requires i < |parts|
    ensures var s := StartsOf(parts, 0)[i]; var raw := Join(parts, sep);
      && 0 <= s && s + |parts[i]| <= |raw| && raw[s..s + |parts[i]|] == parts[i]
      && (i + 1 < |parts| ==> s + |parts[i]| < |raw| && raw[s + |parts[i]|] == sep)
  {
    if i > 0 {
      PartAt(parts[1..], sep, i - 1);
      StartsBase(parts[1..], |parts[0]| + 1, 0, i - 1);
      Shifted(parts[0] + [sep], Join(parts[1..], sep), StartsOf(parts[1..], 0)[i - 1], |parts[i]|);
    } else {
      assert Join(parts, sep)[..|parts[0]|] == parts[0];
    }
  }

  lemma {:induction false} StartsBase<T>(parts: seq<seq<T>>, x: int, y: int, i: nat)
    requires i < |parts|
    ensures StartsOf(parts, x)[i] - x == StartsOf(parts, y)[i] - y
  {
    if i > 0 {
      StartsBase(parts[1..], x + |parts[0]| + 1, y + |parts[0]| + 1, i - 1);
    }
  }

  /** Where a part starts depends on the parts before it alone. */
  lemma {:induction false} StartsAgree<T>(a: seq<seq<T>>, b: seq<seq<T>>, from: int, j: nat)
    requires j < |a| && j < |b| && a[..j] == b[..j]
    ensures StartsOf(a, from)[j] == StartsOf(b, from)[j]
  {
    if j > 0 {
      assert a[0] == a[..j][0] == b[..j][0] == b[0];
      assert a[1..][..j - 1] == a[..j][1..] && b[1..][..j - 1] == b[..j][1..];
      StartsAgree(a[1..], b[1..], from + |a[0]| + 1, j - 1);
    }
  }

  // ----- prefixes -----

  lemma {:induction false} JoinPrefix<T>(a: seq<seq<T>>, b: seq<seq<T>>, sep: T)
    requires a != [] && b != []
    ensures Join(a + b, sep) == Join(a, sep) + [sep] + Join(b, sep)
  {
    if |a| > 1 {
      JoinPrefix(a[1..], b, sep);
      assert (a + b)[1..] == a[1..] + b;
      var x, y := Join(a[1..], sep), Join(b, sep);
      assert a[0] + [sep] + (x + [sep] + y) == (a[0] + [sep] + x) + [sep] + y;
    } else {
      assert (a + b)[1..] == b;
    }
  }

  /** The parts of x are the first parts of y just when y is x or extends it by a separator. */
  lemma {:induction false} SplitPrefix<T>(x: seq<T>, y: seq<T>, sep: T)
    ensures Split(x, sep) <= Split(y, sep) <==> x == y || x + [sep] <= y
  {
    hide Split, Join;
    SplitParts(x, sep);
    SplitParts(y, sep);
    JoinSplit(x, sep);
    JoinSplit(y, sep);
    var a, b := Split(x, sep), Split(y, sep);
    if a <= b && |a| < |b| {
      var rest := b[|a|..];
      assert b == a + rest;
      JoinPrefix(a, rest, sep);
    }
    if a <= b && |a| == |b| {
      assert a == b;
    }
    if x + [sep] <= y {
      var tail := y[|x| + 1..];
      assert y == x + [sep] + tail;
      SplitParts(tail, sep);
      JoinSplit(tail, sep);
      JoinPrefix(a, Split(tail, sep), sep);
      SplitJoin(a + Split(tail, sep), sep);
    }
  }
}
