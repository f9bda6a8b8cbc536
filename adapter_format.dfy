/**
 * `format` of `lib/auth/CustomSupabaseAdapter.ts`: the adapter passes every
 * row it reads from the database through it.  An array is formatted item by
 * item; anything else is spread into a fresh object whose `null` entries are
 * dropped and whose ISO-like date strings become dates.  The input is a value
 * here, so it is never changed.
 */
module AdapterFormat {
  import opened Common
  import opened Text
  import opened JsValues

  /** `/^\d{4}-\d{2}-\d{2}T/.test(s)`. */
  predicate DateLike(s: string) {
    |s| >= 11
    && IsDigit(s[0]) && IsDigit(s[1]) && IsDigit(s[2]) && IsDigit(s[3]) && s[4] == '-'
    && IsDigit(s[5]) && IsDigit(s[6]) && s[7] == '-'
    && IsDigit(s[8]) && IsDigit(s[9]) && s[10] == 'T'
  }

  /** The value an entry of the copy ends up with, when it is kept: a
    * date-like string that `new Date` accepts (`parse` gives its time
    * value, `None` for an invalid date) becomes that date. */
  function Converted(value: JsValue, parse: string -> Option<int>): JsValue {
    if value.Str? && DateLike(value.s) && parse(value.s).Some? then Date(parse(value.s).value) else value
  }

  /** The object `format` returns for an object with these properties. */
  function FormatFields(fields: map<string, JsValue>, parse: string -> Option<int>): (r: map<string, JsValue>)
    ensures r.Keys == set k | k in fields && fields[k] != Null
    ensures forall k :: k in r ==> r[k] != Null
    ensures forall k :: k in r && fields[k].Str? && DateLike(fields[k].s) && parse(fields[k].s).Some? ==>
      r[k] == Date(parse(fields[k].s).value)
    ensures forall k :: k in r && !(fields[k].Str? && DateLike(fields[k].s) && parse(fields[k].s).Some?) ==>
      r[k] == fields[k]
  {
    map k | k in fields && fields[k] != Null :: Converted(fields[k], parse)
  }

  /** `{ ...s }` for a string: one property per character, named by its index. */
  function StringEntries(s: string): (r: map<string, JsValue>)
    ensures forall i :: 0 <= i < |s| ==> NatToString(i) in r && r[NatToString(i)] == Str([s[i]])
    decreases |s|
  {
    if s == [] then map[]
    else
      var n := |s| - 1;
      var m := StringEntries(s[..n]);
      assert forall i :: 0 <= i < n ==> s[..n][i] == s[i];
      NatToStringValue(n);
      assert forall i :: 0 <= i < n ==> NatToString(i) != NatToString(n) by {
        forall i | 0 <= i < n ensures NatToString(i) != NatToString(n) {
          NatToStringValue(i);
        }
      }
      m[NatToString(n) := Str([s[n]])]
  }

  /** Spreading a string gives no property besides those named by an index. */
  lemma {:induction false} StringEntriesOnlyIndices(s: string, k: string)
    requires k in StringEntries(s)
    ensures exists i :: 0 <= i < |s| && k == NatToString(i)
    decreases |s|
  {
    var n := |s| - 1;
    if k != NatToString(n) {
      StringEntriesOnlyIndices(s[..n], k);
    }
  }

  /** The properties spread out of a value that is not an array. */
  function Spread(v: JsValue): map<string, JsValue> {
    match v
    case Obj(fields) => fields
    case Str(s) => StringEntries(s)
    case _ => map[]
  }

  /** `format(v)`: an array keeps its length and has each item formatted;
    * anything else becomes an object without `null` entries. */
  function Format(v: JsValue, parse: string -> Option<int>): (r: JsValue)
    ensures v.Arr? ==> r.Arr? && |r.items| == |v.items|
    ensures v.Arr? && r.Arr? ==> forall i :: 0 <= i < |v.items| ==> r.items[i] == Format(v.items[i], parse)
    ensures !v.Arr? ==> r == Obj(FormatFields(Spread(v), parse))
    decreases v
  {
    match v
    case Arr(items) => Arr(seq(|items|, i requires 0 <= i < |items| => Format(items[i], parse)))
    case _ => Obj(FormatFields(Spread(v), parse))
  }

  /** Formatting the properties a second time changes nothing: no `null` is
    * left, dates stay dates, and a string that was kept was not a valid
    * date-like string. */
  lemma FormatFieldsIdempotent(fields: map<string, JsValue>, parse: string -> Option<int>)
    ensures FormatFields(FormatFields(fields, parse), parse) == FormatFields(fields, parse)
  {
    var once := FormatFields(fields, parse);
    var twice := FormatFields(once, parse);
    forall k | k in once ensures twice[k] == once[k] {
      assert once[k] == Converted(fields[k], parse);
    }
  }

  /** The characters spread out of a string come back unchanged. */
  lemma StringEntriesKept(s: string, parse: string -> Option<int>)
    ensures FormatFields(StringEntries(s), parse) == StringEntries(s)
  {
    var m := StringEntries(s);
    StringEntriesShape(s);
    forall k | k in m ensures m[k] != Null && Converted(m[k], parse) == m[k] {
    }
  }

  /** Every property spread out of a string is one character. */
  lemma {:induction false} StringEntriesShape(s: string)
    ensures forall k :: k in StringEntries(s) ==> StringEntries(s)[k].Str? && |StringEntries(s)[k].s| == 1
    decreases |s|
  {
    if s != [] {
      StringEntriesShape(s[..|s| - 1]);
    }
  }

  /** `format` is idempotent: rows the adapter has formatted once come out
    * of it unchanged. */
  lemma {:induction false} FormatIdempotent(v: JsValue, parse: string -> Option<int>)
    ensures Format(Format(v, parse), parse) == Format(v, parse)
    decreases v
  {
    match v
    case Arr(items) =>
      var once := Format(v, parse);
      forall i | 0 <= i < |items| ensures Format(once, parse).items[i] == once.items[i] {
        FormatIdempotent(items[i], parse);
      }
    case Str(s) =>
      StringEntriesKept(s, parse);
    case _ =>
      FormatFieldsIdempotent(Spread(v), parse);
  }

  /** The loop over `Object.entries(result)`: `null` entries are deleted and
    * valid date-like strings replaced, each on the shallow copy. */
  method FormatObject(fields: map<string, JsValue>, parse: string -> Option<int>) returns (result: map<string, JsValue>)
    ensures result == FormatFields(fields, parse)
  {
    result := fields;
    var pending := fields.Keys;
    while pending != {}
      invariant pending <= fields.Keys
      invariant result.Keys == (set k | k in fields && (k in pending || fields[k] != Null))
      invariant forall k :: k in result ==> result[k] == if k in pending then fields[k] else Converted(fields[k], parse)
      decreases pending
    {
      var key :| key in pending;
      var value := fields[key];
      if value == Null {
        result := result - {key};
      }
      if value.Str? && DateLike(value.s) {
        var date := parse(value.s);
        if date.Some? {
          result := result[key := Date(date.value)];
        }
      }
      pending := pending - {key};
    }
  }

  /** `format(v)`, the array case by a recursive `map`. */
  method FormatValue(v: JsValue, parse: string -> Option<int>) returns (r: JsValue)
    ensures r == Format(v, parse)
    decreases v
  {
    if v.Arr? {
      var items: seq<JsValue> := [];
      var i := 0;
      while i < |v.items|
        invariant 0 <= i <= |v.items|
        invariant |items| == i
        invariant forall k :: 0 <= k < i ==> items[k] == Format(v.items[k], parse)
      {
        var item := FormatValue(v.items[i], parse);
        items := items + [item];
        i := i + 1;
      }
      r := Arr(items);
    } else {
      var fields := FormatObject(Spread(v), parse);
      r := Obj(fields);
    }
  }
}
