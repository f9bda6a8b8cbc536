/**
 * A JavaScript `Set<string>` as the sources use it: its members in insertion
 * order, each once.  `add` appends a new member, `delete` removes one and
 * `new Set(array)` keeps the first occurrence of each element.
 */
module JsSet {
  import opened Common

  /** `set.add(x)`. */
  function Add(s: seq<string>, x: string): (r: seq<string>)
    ensures forall v :: v in r <==> v in s || v == x
    ensures NoDuplicates(s) ==> NoDuplicates(r)
  {
    if x in s then s else s + [x]
  }

  /** `set.delete(x)`. */
  function Delete(s: seq<string>, x: string): seq<string> {
    Filter(s, y => y != x)
  }

  lemma DeleteMembers(s: seq<string>, x: string)
    ensures forall v :: v in Delete(s, x) <==> v in s && v != x
    ensures NoDuplicates(s) ==> NoDuplicates(Delete(s, x))
  {
    forall v ensures v in Delete(s, x) <==> v in s && v != x {
      FilterMember(s, y => y != x, v);
    }
    if NoDuplicates(s) {
      FilterNoDuplicates(s, y => y != x);
    }
  }

  /** `new Set(xs)`. */
  function FromArray(xs: seq<string>): (r: seq<string>)
    ensures NoDuplicates(r)
    ensures forall v :: v in r <==> v in xs
  {
    DedupeProperties(xs);
    Dedupe(xs)
  }

  /** `if (set.has(x)) set.delete(x); else set.add(x);` */
  function Toggle(s: seq<string>, x: string): seq<string> {
    if x in s then Delete(s, x) else Add(s, x)
  }

  /** A toggle flips the membership of `x` and of nothing else. */
  lemma ToggleFlips(s: seq<string>, x: string)
    ensures x in Toggle(s, x) <==> x !in s
    ensures forall v :: v != x ==> (v in Toggle(s, x) <==> v in s)
    ensures NoDuplicates(s) ==> NoDuplicates(Toggle(s, x))
  {
    DeleteMembers(s, x);
  }

  /** Toggling twice restores the members; when `x` was absent it restores
    * the order too (a present `x` comes back at the end). */
  lemma ToggleTwice(s: seq<string>, x: string)
    ensures forall v :: v in Toggle(Toggle(s, x), x) <==> v in s
    ensures x !in s ==> Toggle(Toggle(s, x), x) == s
  {
    ToggleFlips(s, x);
    ToggleFlips(Toggle(s, x), x);
    if x !in s {
      DeleteAfterAdd(s, x);
    }
  }

  /** Deleting a member just added restores the set exactly. */
  lemma DeleteAfterAdd(s: seq<string>, x: string)
    requires x !in s
    ensures Delete(Add(s, x), x) == s
  {
    FilterSnoc(s, x, y => y != x);
    FilterAll(s, y => y != x);
  }

  /** Re-reading the members of a set into a new set changes nothing
    * (`new Set(Array.from(set))`). */
  lemma FromArrayOfSet(s: seq<string>)
    requires NoDuplicates(s)
    ensures FromArray(s) == s
  {
    DedupeOfDistinct(s);
  }

  /** `set.clear(); ids.forEach(id => set.add(id));` — refilling a set gives
    * the same set as `new Set(ids)`. */
  method Refill(ids: seq<string>) returns (s: seq<string>)
    ensures s == FromArray(ids)
  {
    s := [];
    for i := 0 to |ids|
      invariant s == Dedupe(ids[..i])
    {
      assert ids[..i + 1][..i] == ids[..i];
      DedupeProperties(ids[..i]);
      s := Add(s, ids[i]);
    }
    assert ids[..|ids|] == ids;
  }
}
