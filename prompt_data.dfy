/**
 * The "Prepare Prompt Data" node of the generation pipeline
 * (`n8n/expressions/v2/04_prepare_prompt_data_v2.js`): the expressions found
 * by the search are grouped under the category items they belong to, and
 * each category item becomes one prompt record whose
 * `existing_expressions_str` lists them.
 *
 * The `existing` array the node adds to each spread category is kept here
 * as a separate list of buckets, one per category item, in the same order.
 */
module PromptData {
  import opened Common
  import opened Text
  import opened JsValues

  /** One item of the search result: its `json` and, when n8n recorded it,
    * the `pairedItem.item` index of the category item it came from. */
  datatype Existing = Existing(json: map<string, JsValue>, pairedItem: Option<int>)

  /** Category item `i` has a truthy `category` whose property name is `key`. */
  predicate Names(categories: seq<map<string, JsValue>>, i: int, key: string)
    requires 0 <= i < |categories|
  {
    var c := Prop(categories[i], "category");
    Truthy(c) && TemplateText(c) == key
  }

  /** `categoryMap`: each truthy category, as a property name, to the index
    * of the category item that wrote it last. */
  function CategoryMap(categories: seq<map<string, JsValue>>): map<string, nat>
    decreases |categories|
  {
    if categories == [] then map[]
    else
      var n := |categories| - 1;
      var m := CategoryMap(categories[..n]);
      var c := Prop(categories[n], "category");
      if Truthy(c) then m[TemplateText(c) := n] else m
  }

  /** A name is in the map exactly when some category item has it, and it
    * leads to the last item that has it. */
  lemma {:induction false} CategoryMapIs(categories: seq<map<string, JsValue>>, key: string)
    ensures key in CategoryMap(categories) <==>
      exists i :: 0 <= i < |categories| && Names(categories, i, key)
    ensures key in CategoryMap(categories) ==>
      var i := CategoryMap(categories)[key];
      i < |categories| && Names(categories, i, key)
      && forall j :: i < j < |categories| ==> !Names(categories, j, key)
    decreases |categories|
  {
    if categories != [] {
      var n := |categories| - 1;
      var init := categories[..n];
      CategoryMapIs(init, key);
      CategoryMapStep(categories, key);
      assert forall i :: 0 <= i < n ==> (Names(init, i, key) <==> Names(categories, i, key)) by {
        forall i | 0 <= i < n ensures init[i] == categories[i] { }
      }
      if !Names(categories, n, key) && exists i :: 0 <= i < |categories| && Names(categories, i, key) {
        var i :| 0 <= i < |categories| && Names(categories, i, key);
        assert Names(init, i, key);
      }
    }
  }

  /** The last category item decides its own name, and leaves every other
    * name as the items before it left it. */
  lemma CategoryMapStep(categories: seq<map<string, JsValue>>, key: string)
    requires categories != []
    ensures var n := |categories| - 1; var before := CategoryMap(categories[..n]);
      var after := CategoryMap(categories);
      (Names(categories, n, key) ==> key in after && after[key] == n)
      && (!Names(categories, n, key) ==> (key in after <==> key in before) && (key in before ==> after[key] == before[key]))
  {
  }

  /** `targetIndex`: the category item the search result belongs to, by its
    * own `category` first and by `pairedItem` only when that fails; `-1`
    * when neither applies. */
  function Target(item: Existing, catMap: map<string, nat>): int {
    var c := Prop(item.json, "category");
    if Truthy(c) && TemplateText(c) in catMap then catMap[TemplateText(c)]
    else if item.pairedItem.Some? then item.pairedItem.value
    else -1
  }

  /** The search result's expression goes to bucket `j` of `count`: its
    * target is `j`, there is such a category item, and the expression is
    * truthy. */
  predicate Places(item: Existing, catMap: map<string, nat>, count: nat, j: int) {
    Target(item, catMap) == j && 0 <= j < count && Truthy(Prop(item.json, "expression"))
  }

  /** Bucket `j` after the results are distributed in order. */
  function Bucket(existing: seq<Existing>, catMap: map<string, nat>, count: nat, j: int): seq<JsValue>
    decreases |existing|
  {
    if existing == [] then []
    else
      var last := existing[|existing| - 1];
      Bucket(existing[..|existing| - 1], catMap, count, j)
      + (if Places(last, catMap, count, j) then [Prop(last.json, "expression")] else [])
  }

  /** A result whose category names a category item goes to the last item
    * with that name, whatever its `pairedItem` says; one without such a
    * category goes by `pairedItem`, or nowhere. */
  lemma TargetIs(categories: seq<map<string, JsValue>>, item: Existing)
    ensures var c := Prop(item.json, "category");
      var t := Target(item, CategoryMap(categories));
      (Truthy(c) && (exists i :: 0 <= i < |categories| && Names(categories, i, TemplateText(c))) ==>
        0 <= t < |categories| && Names(categories, t, TemplateText(c))
        && forall j :: t < j < |categories| ==> !Names(categories, j, TemplateText(c)))
      && (!(Truthy(c) && exists i :: 0 <= i < |categories| && Names(categories, i, TemplateText(c))) ==>
        t == if item.pairedItem.Some? then item.pairedItem.value else -1)
  {
    CategoryMapIs(categories, TemplateText(Prop(item.json, "category")));
  }

  /** Distributing two runs of results one after the other: each bucket
    * gets the first run's expressions, then the second's, in input order. */
  lemma {:induction false} BucketAppend(xs: seq<Existing>, ys: seq<Existing>, catMap: map<string, nat>, count: nat, j: int)
    ensures Bucket(xs + ys, catMap, count, j) == Bucket(xs, catMap, count, j) + Bucket(ys, catMap, count, j)
    decreases |ys|
  {
    if ys == [] {
      assert xs + ys == xs;
    } else {
      var init := ys[..|ys| - 1];
      BucketAppend(xs, init, catMap, count, j);
      assert (xs + ys)[..|xs + ys| - 1] == xs + init;
    }
  }

  /** A bucket holds exactly the expressions of the results placed in it;
    * a result with an unknown target or a falsy expression is in none. */
  lemma {:induction false} BucketContents(existing: seq<Existing>, catMap: map<string, nat>, count: nat, j: int, v: JsValue)
    ensures v in Bucket(existing, catMap, count, j) <==>
      exists i :: 0 <= i < |existing| && Places(existing[i], catMap, count, j) && Prop(existing[i].json, "expression") == v
    decreases |existing|
  {
    if existing != [] {
      var n := |existing| - 1;
      var init := existing[..n];
      BucketContents(init, catMap, count, j, v);
      if exists i :: 0 <= i < |existing| && Places(existing[i], catMap, count, j) && Prop(existing[i].json, "expression") == v {
        var i :| 0 <= i < |existing| && Places(existing[i], catMap, count, j) && Prop(existing[i].json, "expression") == v;
        if i < n {
          assert init[i] == existing[i];
        }
      }
      if v in Bucket(init, catMap, count, j) {
        var i :| 0 <= i < n && Places(init[i], catMap, count, j) && Prop(init[i].json, "expression") == v;
        assert init[i] == existing[i];
      }
    }
  }

  /** `existing_expressions_str`: the expressions joined by `", "`, or
    * `(None)` for an empty bucket. */
  function ExpressionsText(bucket: seq<JsValue>): (r: string)
    ensures bucket == [] ==> r == "(None)"
    ensures |bucket| == 1 ==> r == TemplateText(bucket[0])
  {
    if |bucket| > 0 then Join(Texts(bucket), ", ") else "(None)"
  }

  /** The expressions written out, as `join` writes them. */
  function Texts(bucket: seq<JsValue>): (r: seq<string>)
    ensures |r| == |bucket| && forall k :: 0 <= k < |r| ==> r[k] == TemplateText(bucket[k])
  {
    seq(|bucket|, k requires 0 <= k < |bucket| => TemplateText(bucket[k]))
  }

  /** One more expression in a bucket adds `", "` and its text. */
  lemma ExpressionsTextSnoc(bucket: seq<JsValue>, v: JsValue)
    requires bucket != []
    ensures ExpressionsText(bucket + [v]) == ExpressionsText(bucket) + ", " + TemplateText(v)
  {
    assert Texts(bucket + [v]) == Texts(bucket) + [TemplateText(v)];
    JoinSnoc(Texts(bucket), TemplateText(v), ", ");
  }

  /** The prompt record of one category item. */
  function Record(category: map<string, JsValue>, bucket: seq<JsValue>): map<string, JsValue> {
    map["domain" := Prop(category, "domain")]["category" := Prop(category, "category")]
      ["topic" := Prop(category, "topic")]["existing_expressions_str" := Str(ExpressionsText(bucket))]
  }

  /** The node's output: one record per category item, in order, with its
    * `domain`, `category` and `topic` and the list of the expressions
    * placed under it; nothing else. */
  function PromptRecords(categories: seq<map<string, JsValue>>, existing: seq<Existing>): (out: seq<map<string, JsValue>>)
    ensures |out| == |categories|
    ensures forall j :: 0 <= j < |out| ==>
      out[j].Keys == {"domain", "category", "topic", "existing_expressions_str"}
      && out[j]["domain"] == Prop(categories[j], "domain")
      && out[j]["category"] == Prop(categories[j], "category")
      && out[j]["topic"] == Prop(categories[j], "topic")
      && out[j]["existing_expressions_str"] == Str(ExpressionsText(Bucket(existing, CategoryMap(categories), |categories|, j)))
  {
    var catMap := CategoryMap(categories);
    seq(|categories|, j requires 0 <= j < |categories| => Record(categories[j], Bucket(existing, catMap, |categories|, j)))
  }

  /** `categoryMap`, built by the `forEach` over the category items. */
  method BuildCategoryMap(categories: seq<map<string, JsValue>>) returns (catMap: map<string, nat>)
    ensures catMap == CategoryMap(categories)
  {
    catMap := map[];
    var i := 0;
    while i < |categories|
      invariant 0 <= i <= |categories|
      invariant catMap == CategoryMap(categories[..i])
    {
      assert categories[..i + 1][..i] == categories[..i];
      var c := Prop(categories[i], "category");
      if Truthy(c) {
        catMap := catMap[TemplateText(c) := i];
      }
      i := i + 1;
    }
    assert categories[..|categories|] == categories;
  }

  /** The `forEach` over the search results: each pushes its expression onto
    * the bucket it targets. */
  method Distribute(existing: seq<Existing>, catMap: map<string, nat>, count: nat) returns (buckets: seq<seq<JsValue>>)
    ensures |buckets| == count
    ensures forall j :: 0 <= j < count ==> buckets[j] == Bucket(existing, catMap, count, j)
  {
    buckets := seq(count, _ => []);
    var k := 0;
    while k < |existing|
      invariant 0 <= k <= |existing|
      invariant |buckets| == count
      invariant forall j :: 0 <= j < count ==> buckets[j] == Bucket(existing[..k], catMap, count, j)
    {
      var item := existing[k];
      assert existing[..k + 1][..k] == existing[..k];
      assert existing[..k + 1][k] == item;
      var target := -1;
      var c := Prop(item.json, "category");
      if Truthy(c) && TemplateText(c) in catMap {
        target := catMap[TemplateText(c)];
      } else if item.pairedItem.Some? {
        target := item.pairedItem.value;
      }
      var expression := Prop(item.json, "expression");
      if target != -1 && 0 <= target < count && Truthy(expression) {
        buckets := buckets[target := buckets[target] + [expression]];
      }
      k := k + 1;
    }
    assert existing[..|existing|] == existing;
  }

  /** The node: the map, the distribution, and one record per category item. */
  method PreparePromptData(categories: seq<map<string, JsValue>>, existing: seq<Existing>) returns (out: seq<map<string, JsValue>>)
    ensures out == PromptRecords(categories, existing)
  {
    var catMap := BuildCategoryMap(categories);
    var buckets := Distribute(existing, catMap, |categories|);
    out := [];
    var j := 0;
    while j < |categories|
      invariant 0 <= j <= |categories|
      invariant |out| == j
      invariant forall i :: 0 <= i < j ==> out[i] == Record(categories[i], buckets[i])
    {
      out := out + [Record(categories[j], buckets[j])];
      j := j + 1;
    }
  }
}
