/**
 * Small shared vocabulary: optional values, results, and the list folds the
 * JavaScript sources write as `forEach` + `push`, `flatMap`, `filter` and `map`.
 */
module Common {

  datatype Option<T> = None | Some(value: T)

  datatype Result<T, E> = Ok(value: T) | Err(error: E)

  /** `xs.flatMap(f)`.  Defined from the right, so that a loop that appends
    * `f(xs[i])` at step `i` matches it one step at a time. */
  function FlatMap<T, U>(xs: seq<T>, f: T -> seq<U>): seq<U>
    decreases |xs|
  {
    if xs == [] then [] else FlatMap(xs[..|xs| - 1], f) + f(xs[|xs| - 1])
  }

  lemma FlatMapSnoc<T, U>(xs: seq<T>, x: T, f: T -> seq<U>)
    ensures FlatMap(xs + [x], f) == FlatMap(xs, f) + f(x)
  {
    assert (xs + [x])[..|xs|] == xs;
  }

  /** One step of a loop that appends `f(x)` to an accumulator. */
  lemma FlatMapStep<T, U>(base: seq<U>, xs: seq<T>, x: T, f: T -> seq<U>, acc: seq<U>, next: seq<U>)
    requires acc == base + FlatMap(xs, f) && next == acc + f(x)
    ensures next == base + FlatMap(xs + [x], f)
  {
    FlatMapSnoc(xs, x, f);
  }

  /** Two appends in a row append the concatenation. */
  lemma AppendSteps<T>(base: seq<T>, a: seq<T>, b: seq<T>, e1: seq<T>, e2: seq<T>)
    requires e1 == base + a && e2 == e1 + b
    ensures e2 == base + (a + b)
  {
  }

  lemma Assoc<T>(a: seq<T>, b: seq<T>, c: seq<T>)
    ensures a + (b + c) == a + b + c
  {
  }

  /** A value is produced by the fold exactly when some element produces it. */
  lemma {:induction false} FlatMapMember<T, U>(xs: seq<T>, f: T -> seq<U>, v: U)
    ensures v in FlatMap(xs, f) <==> exists i :: 0 <= i < |xs| && v in f(xs[i])
    decreases |xs|
  {
    if xs != [] {
      var init := xs[..|xs| - 1];
      FlatMapMember(init, f, v);
      if v in FlatMap(xs, f) && !(v in f(xs[|xs| - 1])) {
        var i :| 0 <= i < |init| && v in f(init[i]);
        assert xs[i] == init[i];
      }
      if exists i :: 0 <= i < |xs| && v in f(xs[i]) {
        var i :| 0 <= i < |xs| && v in f(xs[i]);
        if i < |init| {
          assert init[i] == xs[i];
        }
      }
    }
  }

  /** The fold of a concatenation is the concatenation of the folds. */
  lemma {:induction false} FlatMapAppend<T, U>(xs: seq<T>, ys: seq<T>, f: T -> seq<U>)
    ensures FlatMap(xs + ys, f) == FlatMap(xs, f) + FlatMap(ys, f)
    decreases |ys|
  {
    if ys == [] {
      assert xs + ys == xs;
    } else {
      var init := ys[..|ys| - 1];
      FlatMapAppend(xs, init, f);
      assert (xs + ys)[..|xs + ys| - 1] == xs + init;
    }
  }

  /** The fold is empty exactly when every element contributes nothing. */
  lemma {:induction false} FlatMapEmpty<T, U>(xs: seq<T>, f: T -> seq<U>)
    ensures FlatMap(xs, f) == [] <==> forall i :: 0 <= i < |xs| ==> f(xs[i]) == []
    decreases |xs|
  {
    if xs != [] {
      var init := xs[..|xs| - 1];
      FlatMapEmpty(init, f);
      assert forall i :: 0 <= i < |init| ==> init[i] == xs[i];
    }
  }

  /** `xs.filter(p)`, defined from the right like `FlatMap`. */
  function Filter<T>(xs: seq<T>, p: T -> bool): seq<T>
    decreases |xs|
  {
    if xs == [] then []
    else Filter(xs[..|xs| - 1], p) + (if p(xs[|xs| - 1]) then [xs[|xs| - 1]] else [])
  }

  lemma FilterSnoc<T>(xs: seq<T>, x: T, p: T -> bool)
    ensures Filter(xs + [x], p) == Filter(xs, p) + (if p(x) then [x] else [])
  {
    assert (xs + [x])[..|xs|] == xs;
  }

  /** The filter of a concatenation is the concatenation of the filters. */
  lemma {:induction false} FilterAppend<T>(xs: seq<T>, ys: seq<T>, p: T -> bool)
    ensures Filter(xs + ys, p) == Filter(xs, p) + Filter(ys, p)
    decreases |ys|
  {
    if ys == [] {
      assert xs + ys == xs;
    } else {
      var init := ys[..|ys| - 1];
      FilterAppend(xs, init, p);
      assert (xs + ys)[..|xs + ys| - 1] == xs + init;
    }
  }

  /** The filter keeps exactly the elements satisfying `p`, and no more of them. */
  lemma {:induction false} FilterMember<T>(xs: seq<T>, p: T -> bool, v: T)
    ensures v in Filter(xs, p) <==> v in xs && p(v)
    ensures |Filter(xs, p)| <= |xs|
    decreases |xs|
  {
    if xs != [] {
      var init := xs[..|xs| - 1];
      FilterMember(init, p, v);
      assert xs == init + [xs[|xs| - 1]];
    }
  }

  /** A filter that every element passes changes nothing. */
  lemma {:induction false} FilterAll<T>(xs: seq<T>, p: T -> bool)
    requires forall k :: 0 <= k < |xs| ==> p(xs[k])
    ensures Filter(xs, p) == xs
    decreases |xs|
  {
    if xs != [] {
      var init := xs[..|xs| - 1];
      FilterAll(init, p);
      assert xs == init + [xs[|xs| - 1]];
    }
  }

  /** Filtering a list without duplicates leaves none. */
  lemma {:induction false} FilterNoDuplicates<T>(xs: seq<T>, p: T -> bool)
    requires NoDuplicates(xs)
    ensures NoDuplicates(Filter(xs, p))
    decreases |xs|
  {
    if xs != [] {
      var init := xs[..|xs| - 1];
      var last := xs[|xs| - 1];
      assert NoDuplicates(init);
      FilterNoDuplicates(init, p);
      FilterMember(init, p, last);
      assert last !in init;
    }
  }

  /** `xs.join(sep)` for a list of strings. */
  function Join(parts: seq<string>, sep: string): string
    decreases |parts|
  {
    if parts == [] then ""
    else if |parts| == 1 then parts[0]
    else Join(parts[..|parts| - 1], sep) + sep + parts[|parts| - 1]
  }

  lemma JoinSnoc(xs: seq<string>, x: string, sep: string)
    requires xs != []
    ensures Join(xs + [x], sep) == Join(xs, sep) + sep + x
  {
    assert (xs + [x])[..|xs|] == xs;
  }

  /** `[...new Set(xs)]`: the first occurrence of each element, in order. */
  function Dedupe<T(==)>(xs: seq<T>): seq<T>
    decreases |xs|
  {
    if xs == [] then []
    else
      var d := Dedupe(xs[..|xs| - 1]);
      if xs[|xs| - 1] in d then d else d + [xs[|xs| - 1]]
  }

  predicate NoDuplicates<T(==)>(xs: seq<T>) {
    forall i, j :: 0 <= i < j < |xs| ==> xs[i] != xs[j]
  }

  /** `Dedupe` keeps exactly the elements of its input, once each. */
  lemma {:induction false} DedupeProperties<T>(xs: seq<T>)
    ensures NoDuplicates(Dedupe(xs))
    ensures forall v :: v in Dedupe(xs) <==> v in xs
    decreases |xs|
  {
    if xs != [] {
      var init := xs[..|xs| - 1];
      DedupeProperties(init);
      assert xs == init + [xs[|xs| - 1]];
    }
  }

  /** On a list without duplicates, `Dedupe` changes nothing. */
  lemma {:induction false} DedupeOfDistinct<T>(xs: seq<T>)
    requires NoDuplicates(xs)
    ensures Dedupe(xs) == xs
    decreases |xs|
  {
    if xs != [] {
      var init := xs[..|xs| - 1];
      DedupeOfDistinct(init);
    }
  }

  /** Deduplicating a longer list only appends: first occurrences keep their order. */
  lemma {:induction false} DedupePrefix<T>(xs: seq<T>, ys: seq<T>)
    ensures Dedupe(xs) <= Dedupe(xs + ys)
    decreases |ys|
  {
    if ys != [] {
      var init := ys[..|ys| - 1];
      DedupePrefix(xs, init);
      assert (xs + ys)[..|xs + ys| - 1] == xs + init;
      assert Dedupe(xs + init) <= Dedupe(xs + ys);
    } else {
      assert xs + ys == xs;
    }
  }

  // ------------------------------------------- loops that stop at a failure

  /** A loop that appends the parts of each step and stops at the first step
    * that fails: the concatenated parts, or that step's failure. */
  function Sequence<T, E>(rs: seq<Result<seq<T>, E>>): Result<seq<T>, E>
    decreases |rs|
  {
    if rs == [] then Ok([])
    else
      match Sequence(rs[..|rs| - 1])
      case Err(e) => Err(e)
      case Ok(a) =>
        match rs[|rs| - 1]
        case Err(e) => Err(e)
        case Ok(b) => Ok(a + b)
  }

  /** The parts one after another. */
  function Concat<T>(parts: seq<seq<T>>): seq<T>
    decreases |parts|
  {
    if parts == [] then [] else Concat(parts[..|parts| - 1]) + parts[|parts| - 1]
  }

  /** How many elements the first `n` parts hold. */
  function Offset<T>(parts: seq<seq<T>>, n: nat): nat
    requires n <= |parts|
    decreases n
  {
    if n == 0 then 0 else Offset(parts, n - 1) + |parts[n - 1]|
  }

  /** The parts of the steps that succeed (a failing step has none). */
  function OkParts<T, E>(rs: seq<Result<seq<T>, E>>): (parts: seq<seq<T>>)
    ensures |parts| == |rs|
    ensures forall i :: 0 <= i < |rs| && rs[i].Ok? ==> parts[i] == rs[i].value
  {
    seq(|rs|, i requires 0 <= i < |rs| => if rs[i].Ok? then rs[i].value else [])
  }

  /** The loop succeeds iff every step does, and then returns their parts in
    * order; otherwise it returns the failure of the first failing step. */
  lemma {:induction false} SequenceIs<T, E>(rs: seq<Result<seq<T>, E>>)
    ensures Sequence(rs).Ok? <==> forall i :: 0 <= i < |rs| ==> rs[i].Ok?
    ensures Sequence(rs).Ok? ==> Sequence(rs).value == Concat(OkParts(rs))
    ensures Sequence(rs).Err? ==> exists i :: 0 <= i < |rs| && rs[i] == Sequence(rs) && forall j :: 0 <= j < i ==> rs[j].Ok?
    decreases |rs|
  {
    if rs != [] {
      var n := |rs| - 1;
      var init := rs[..n];
      SequenceIs(init);
      assert forall i :: 0 <= i < n ==> init[i] == rs[i];
      assert OkParts(rs)[..n] == OkParts(init);
      if Sequence(init).Err? {
        var i :| 0 <= i < n && init[i] == Sequence(init) && forall j :: 0 <= j < i ==> init[j].Ok?;
        assert rs[i] == Sequence(rs);
      } else if rs[n].Err? {
        assert rs[n] == Sequence(rs);
      }
    }
  }

  /** A loop that failed on a prefix of the steps fails with the same failure. */
  lemma {:induction false} SequencePrefix<T, E>(rs: seq<Result<seq<T>, E>>, n: nat)
    requires n <= |rs| && Sequence(rs[..n]).Err?
    ensures Sequence(rs) == Sequence(rs[..n])
    decreases |rs|
  {
    if n < |rs| {
      var init := rs[..|rs| - 1];
      assert init[..n] == rs[..n];
      SequencePrefix(init, n);
    } else {
      assert rs[..n] == rs;
    }
  }

  /** Part `i` sits at `Offset(parts, i)` of the concatenation, element by
    * element, and there are no other elements. */
  lemma ConcatShape<T>(parts: seq<seq<T>>)
    ensures |Concat(parts)| == Offset(parts, |parts|)
    ensures forall i :: 0 <= i < |parts| ==> Offset(parts, i) + |parts[i]| <= |Concat(parts)|
    ensures forall i, k :: 0 <= i < |parts| && 0 <= k < |parts[i]| ==>
      Concat(parts)[Offset(parts, i) + k] == parts[i][k]
  {
    ConcatLength(parts);
    forall i | 0 <= i < |parts| ensures Offset(parts, i) + |parts[i]| <= |Concat(parts)| {
      OffsetMono(parts, i + 1, |parts|);
    }
    forall i, k | 0 <= i < |parts| && 0 <= k < |parts[i]|
      ensures Concat(parts)[Offset(parts, i) + k] == parts[i][k]
    {
      ConcatAt(parts, i, k);
    }
  }

  lemma {:induction false} ConcatLength<T>(parts: seq<seq<T>>)
    ensures |Concat(parts)| == Offset(parts, |parts|)
    decreases |parts|
  {
    if parts != [] {
      var n := |parts| - 1;
      ConcatLength(parts[..n]);
      OffsetInit(parts, n);
    }
  }

  lemma {:induction false} ConcatAt<T>(parts: seq<seq<T>>, i: nat, k: nat)
    requires i < |parts| && k < |parts[i]|
    ensures Offset(parts, i) + k < |Concat(parts)| && Concat(parts)[Offset(parts, i) + k] == parts[i][k]
    decreases |parts|
  {
    var n := |parts| - 1;
    var init := parts[..n];
    ConcatLength(init);
    OffsetInit(parts, n);
    OffsetInit(parts, i);
    if i < n {
      assert init[i] == parts[i];
      ConcatAt(init, i, k);
      OffsetMono(parts, i + 1, n);
    }
  }

  /** The offsets of all parts but the last are those of the whole list. */
  lemma {:induction false} OffsetInit<T>(parts: seq<seq<T>>, m: nat)
    requires m < |parts|
    ensures Offset(parts[..|parts| - 1], m) == Offset(parts, m)
    decreases m
  {
    if m > 0 {
      OffsetInit(parts, m - 1);
      assert parts[..|parts| - 1][m - 1] == parts[m - 1];
    }
  }

  lemma {:induction false} OffsetMono<T>(parts: seq<seq<T>>, m: nat, n: nat)
    requires m <= n <= |parts|
    ensures Offset(parts, m) <= Offset(parts, n)
    decreases n
  {
    if m < n {
      OffsetMono(parts, m, n - 1);
    }
  }
}
