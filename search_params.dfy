/**
 * `URLSearchParams`, as the routing helpers and the filter bar use it: an
 * ordered list of name/value pairs.  `set` overwrites the first pair of a
 * name in place and drops the later ones (or appends a new pair), `delete`
 * drops every pair of a name.  The form-urlencoding of `toString()` is a
 * parameter `encode`.
 */
module SearchParams {
  import opened Common

  type Params = seq<(string, string)>

  /** The values stored under `name`, in order (`getAll`). */
  function Values(p: Params, name: string): seq<string>
    decreases |p|
  {
    if p == [] then []
    else (if p[0].0 == name then [p[0].1] else []) + Values(p[1..], name)
  }

  /** `get(name)`: the first value, or `null` (`None`). */
  function Get(p: Params, name: string): Option<string> {
    var vs := Values(p, name);
    if vs == [] then None else Some(vs[0])
  }

  predicate Has(p: Params, name: string) {
    Values(p, name) != []
  }

  /** `delete(name)`. */
  function Delete(p: Params, name: string): Params
    decreases |p|
  {
    if p == [] then []
    else (if p[0].0 == name then [] else [p[0]]) + Delete(p[1..], name)
  }

  /** The pairs of `p` with the first pair of `name` given the value `value`
    * and the later pairs of `name` dropped. */
  function Overwrite(p: Params, name: string, value: string): Params
    decreases |p|
  {
    if p == [] then []
    else if p[0].0 == name then [(name, value)] + Delete(p[1..], name)
    else [p[0]] + Overwrite(p[1..], name, value)
  }

  /** `set(name, value)`. */
  function Set(p: Params, name: string, value: string): Params {
    if Has(p, name) then Overwrite(p, name, value) else p + [(name, value)]
  }

  lemma {:induction false} ValuesAppend(p: Params, q: Params, name: string)
    ensures Values(p + q, name) == Values(p, name) + Values(q, name)
    decreases |p|
  {
    if p == [] {
      assert p + q == q;
    } else {
      assert (p + q)[1..] == p[1..] + q;
      ValuesAppend(p[1..], q, name);
    }
  }

  /** After `delete`, the name has no value and every other name keeps its values. */
  lemma {:induction false} DeleteValues(p: Params, name: string, other: string)
    ensures Values(Delete(p, name), name) == []
    ensures other != name ==> Values(Delete(p, name), other) == Values(p, other)
    decreases |p|
  {
    if p != [] {
      var head := if p[0].0 == name then [] else [p[0]];
      DeleteValues(p[1..], name, other);
      ValuesAppend(head, Delete(p[1..], name), name);
      ValuesAppend(head, Delete(p[1..], name), other);
      if head != [] {
        assert head[1..] == [];
      }
    }
  }

  lemma {:induction false} OverwriteValues(p: Params, name: string, value: string, other: string)
    requires Has(p, name)
    ensures Values(Overwrite(p, name, value), name) == [value]
    ensures other != name ==> Values(Overwrite(p, name, value), other) == Values(p, other)
    decreases |p|
  {
    var rest := p[1..];
    if p[0].0 == name {
      DeleteValues(rest, name, other);
      ValuesAppend([(name, value)], Delete(rest, name), name);
      ValuesAppend([(name, value)], Delete(rest, name), other);
      assert [(name, value)][1..] == [];
    } else {
      assert Values(p, name) == Values(rest, name);
      OverwriteValues(rest, name, value, other);
      ValuesAppend([p[0]], Overwrite(rest, name, value), name);
      ValuesAppend([p[0]], Overwrite(rest, name, value), other);
      assert [p[0]][1..] == [];
    }
  }

  /** After `set`, the name has exactly the one value set, and every other
    * name keeps its values. */
  lemma SetValues(p: Params, name: string, value: string, other: string)
    ensures Values(Set(p, name, value), name) == [value]
    ensures Get(Set(p, name, value), name) == Some(value)
    ensures other != name ==> Values(Set(p, name, value), other) == Values(p, other)
  {
    if Has(p, name) {
      OverwriteValues(p, name, value, other);
    } else {
      ValuesAppend(p, [(name, value)], name);
      ValuesAppend(p, [(name, value)], other);
      assert [(name, value)][1..] == [];
    }
  }

  /** No two pairs share a name. */
  predicate DistinctNames(p: Params) {
    forall i, j :: 0 <= i < j < |p| ==> p[i].0 != p[j].0
  }

  lemma DistinctTail(p: Params)
    requires p != [] && DistinctNames(p)
    ensures DistinctNames(p[1..])
    ensures forall i :: 0 <= i < |p| - 1 ==> p[1..][i].0 != p[0].0
  {
    forall i, j | 0 <= i < j < |p| - 1 ensures p[1..][i].0 != p[1..][j].0 {
      assert p[1..][i] == p[i + 1] && p[1..][j] == p[j + 1];
    }
    forall i | 0 <= i < |p| - 1 ensures p[1..][i].0 != p[0].0 {
      assert p[1..][i] == p[i + 1];
    }
  }

  /** A name that is set again keeps its place, when names are distinct. */
  lemma {:induction false} OverwriteInPlace(p: Params, name: string, value: string)
    requires Has(p, name) && DistinctNames(p)
    ensures Overwrite(p, name, value) == p[IndexOfName(p, name) := (name, value)]
    decreases |p|
  {
    var rest := p[1..];
    DistinctTail(p);
    if p[0].0 != name {
      assert Values(p, name) == Values(rest, name);
      OverwriteInPlace(rest, name, value);
      OverwriteStep(p, name, value);
    } else {
      DeleteAbsent(rest, name);
    }
  }

  /** The step of `OverwriteInPlace` past a pair of another name. */
  lemma OverwriteStep(p: Params, name: string, value: string)
    requires p != [] && p[0].0 != name && Has(p[1..], name)
    requires Overwrite(p[1..], name, value) == p[1..][IndexOfName(p[1..], name) := (name, value)]
    ensures Has(p, name) && Overwrite(p, name, value) == p[IndexOfName(p, name) := (name, value)]
  {
    var rest := p[1..];
    assert Values(p, name) == Values(rest, name);
    var k := IndexOfName(rest, name);
    assert IndexOfName(p, name) == 1 + k;
    assert Overwrite(p, name, value) == [p[0]] + Overwrite(rest, name, value);
    assert p == [p[0]] + rest;
    UpdateBehindHead(p[0], rest, k, (name, value));
  }

  /** Updating the tail of a list at `k` updates the list at `k + 1`. */
  lemma UpdateBehindHead<T>(h: T, t: seq<T>, k: nat, v: T)
    requires k < |t|
    ensures [h] + t[k := v] == ([h] + t)[k + 1 := v]
  {
    var lhs := [h] + t[k := v];
    var rhs := ([h] + t)[k + 1 := v];
    forall i | 0 <= i < |lhs| ensures lhs[i] == rhs[i] {
      if i > 0 {
        assert lhs[i] == t[k := v][i - 1];
      }
    }
  }

  /** The index of the first pair of a name that is present. */
  function IndexOfName(p: Params, name: string): (i: nat)
    requires Has(p, name)
    ensures i < |p| && p[i].0 == name
    ensures forall k :: 0 <= k < i ==> p[k].0 != name
    decreases |p|
  {
    if p[0].0 == name then 0
    else
      assert Values(p, name) == Values(p[1..], name);
      1 + IndexOfName(p[1..], name)
  }

  /** Deleting a name that no pair has changes nothing. */
  lemma {:induction false} DeleteAbsent(p: Params, name: string)
    requires forall i :: 0 <= i < |p| ==> p[i].0 != name
    ensures Delete(p, name) == p
    decreases |p|
  {
    if p != [] {
      DeleteAbsent(p[1..], name);
    }
  }

  /** `toString()`: `name=value` pairs joined by `&`, each side encoded. */
  function Serialize(p: Params, encode: string -> string): (r: string)
    ensures p == [] ==> r == ""
  {
    Join(seq(|p|, i requires 0 <= i < |p| => encode(p[i].0) + "=" + encode(p[i].1)), "&")
  }

  /** The query string is empty exactly when there is no pair. */
  lemma SerializeEmpty(p: Params, encode: string -> string)
    ensures Serialize(p, encode) == "" <==> p == []
  {
    var parts := seq(|p|, i requires 0 <= i < |p| => encode(p[i].0) + "=" + encode(p[i].1));
    if p != [] {
      JoinEndsWithLast(parts, "&");
      assert parts[|parts| - 1] != [];
    }
  }

  lemma JoinEndsWithLast(parts: seq<string>, sep: string)
    requires parts != []
    ensures |Join(parts, sep)| >= |parts[|parts| - 1]|
  {
  }
}
