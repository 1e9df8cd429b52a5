/** compactArray and groupBy. */
module Collections {
  import opened Wrappers
  import opened Seqs
  import opened JsValue

  // -------------------------------------------------------------- compactArray

  /** compactArray: `arr.filter(Boolean)`, exactly the truthy elements in their
      original order. */
  function CompactArray(arr: seq<Value>): (r: seq<Value>)
    ensures forall i :: 0 <= i < |r| ==> Truthy(r[i])
    ensures IsSubsequence(r, arr)
    ensures forall x :: Truthy(x) ==> multiset(r)[x] == multiset(arr)[x]
  {
    FilterIsSubsequence(Truthy, arr);
    FilterKeepsPassing(Truthy, arr);
    Filter(Truthy, arr)
  }

  lemma FilterKeepsPassing(f: Value -> bool, s: seq<Value>)
    ensures forall x :: f(x) ==> multiset(Filter(f, s))[x] == multiset(s)[x]
  {
    forall x | f(x) ensures multiset(Filter(f, s))[x] == multiset(s)[x] {
      FilterCounts(f, s, x);
    }
  }

  lemma CompactArrayIdempotent(arr: seq<Value>)
    ensures CompactArray(CompactArray(arr)) == CompactArray(arr)
  {
    FilterIdempotent(Truthy, arr);
  }

  /** The compacted array is empty exactly when every element is falsy. */
  lemma CompactArrayEmptyIff(arr: seq<Value>)
    ensures IsEmpty(Arr(CompactArray(arr))) <==> forall i :: 0 <= i < |arr| ==> !Truthy(arr[i])
  {
    if i :| 0 <= i < |arr| && Truthy(arr[i]) {
      assert arr[i] in multiset(arr);
    }
  }

  lemma CompactArrayExample()
    ensures CompactArray([Num(0), Num(1), Bool(false), Num(2), Str(""), Num(3)]) == [Num(1), Num(2), Num(3)]
  {
    var a := [Num(0), Num(1), Bool(false), Num(2), Str(""), Num(3)];
    assert Filter(Truthy, a[5..]) == [Num(3)];
    assert Filter(Truthy, a[4..]) == [Num(3)];
    assert Filter(Truthy, a[3..]) == [Num(2), Num(3)];
    assert Filter(Truthy, a[2..]) == [Num(2), Num(3)];
    assert Filter(Truthy, a[1..]) == [Num(1), Num(2), Num(3)];
  }

  // ------------------------------------------------------------------- groupBy

  /** The bucket an item goes to: `item[key]` converted to a property name. */
  function GroupName(item: Value, key: string): (r: Result<string, JsError>)
    ensures r.Err? <==> IsNullish(item)
    ensures item.Obj? && key in item.fields ==> r == Ok(ToJsString(item.fields[key]))
    ensures item.Obj? && key !in item.fields ==> r == Ok("undefined")
  {
    match Get(item, key)
    case Ok(v) => Ok(ToJsString(v))
    case Err(e) => Err(e)
  }

  function InBucket(key: string, name: string): Value -> bool {
    x => GroupName(x, key) == Ok(name)
  }

  /** The items whose bucket name is `name`, in input order. */
  function Bucket(items: seq<Value>, key: string, name: string): (r: seq<Value>)
    ensures forall j :: 0 <= j < |r| ==> GroupName(r[j], key) == Ok(name) && r[j] in items
  {
    Filter(InBucket(key, name), items)
  }

  /** Every bucket name some item of `items` produces. */
  function Names(items: seq<Value>, key: string): set<string> {
    set i | 0 <= i < |items| && GroupName(items[i], key).Ok? :: GroupName(items[i], key).value
  }

  /** The grouping: each name some item produces, mapped to its bucket. */
  function Groups(items: seq<Value>, key: string): (r: map<string, seq<Value>>)
    ensures forall i :: 0 <= i < |items| && GroupName(items[i], key).Ok? ==> GroupName(items[i], key).value in r
    ensures forall n :: n in r ==> forall j :: 0 <= j < |r[n]| ==> GroupName(r[n][j], key) == Ok(n) && r[n][j] in items
  {
    map n | n in Names(items, key) :: Bucket(items, key, n)
  }

  /** groupBy runs to the end: no item is null or undefined, and no bucket
      name is one the accumulator inherits. */
  predicate Groupable(items: seq<Value>, key: string) {
    forall i :: 0 <= i < |items| ==>
      GroupName(items[i], key).Ok? && GroupName(items[i], key).value !in InheritedNames
  }

  /** Only names some item produces have non-empty buckets. */
  lemma NonEmptyBucketIsNamed(items: seq<Value>, key: string, name: string)
    requires Bucket(items, key, name) != []
    ensures name in Names(items, key)
  {
    var y := Bucket(items, key, name)[0];
    var i :| 0 <= i < |items| && items[i] == y;
    assert GroupName(items[i], key) == Ok(name);
  }

  lemma NamesSnoc(items: seq<Value>, x: Value, key: string)
    requires GroupName(x, key).Ok?
    ensures Names(items + [x], key) == Names(items, key) + {GroupName(x, key).value}
  {
    var n := GroupName(x, key).value;
    forall m | m in Names(items + [x], key) ensures m in Names(items, key) + {n} {
      var i :| 0 <= i < |items + [x]| && GroupName((items + [x])[i], key) == Ok(m);
      if i < |items| {
        assert (items + [x])[i] == items[i];
      }
    }
    forall m | m in Names(items, key) ensures m in Names(items + [x], key) {
      var i :| 0 <= i < |items| && GroupName(items[i], key) == Ok(m);
      assert (items + [x])[i] == items[i];
    }
    assert (items + [x])[|items|] == x;
  }

  lemma BucketSnoc(items: seq<Value>, x: Value, key: string, m: string)
    ensures Bucket(items + [x], key, m)
         == Bucket(items, key, m) + (if GroupName(x, key) == Ok(m) then [x] else [])
  {
    FilterAppend(InBucket(key, m), items, [x]);
  }

  /** Appending one item puts it at the end of its own bucket and changes no other. */
  lemma GroupsSnoc(items: seq<Value>, x: Value, key: string)
    requires GroupName(x, key).Ok?
    ensures var g, n := Groups(items, key), GroupName(x, key).value;
      Groups(items + [x], key) == g[n := (if n in g then g[n] else []) + [x]]
  {
    var g, n := Groups(items, key), GroupName(x, key).value;
    var g' := Groups(items + [x], key);
    var expected := g[n := (if n in g then g[n] else []) + [x]];
    GroupsSnocKeys(items, x, key);
    forall m | m in g' ensures g'[m] == expected[m] {
      GroupsSnocAt(items, x, key, m);
    }
  }

  /** The names after one more item: the old names and the item's own. */
  lemma GroupsSnocKeys(items: seq<Value>, x: Value, key: string)
    requires GroupName(x, key).Ok?
    ensures Groups(items + [x], key).Keys == Groups(items, key).Keys + {GroupName(x, key).value}
  {
    NamesSnoc(items, x, key);
  }

  /** GroupsSnoc at one bucket name. */
  lemma GroupsSnocAt(items: seq<Value>, x: Value, key: string, m: string)
    requires GroupName(x, key).Ok? && m in Names(items + [x], key)
    ensures var g, n := Groups(items, key), GroupName(x, key).value;
      Bucket(items + [x], key, m) == g[n := (if n in g then g[n] else []) + [x]][m]
  {
    BucketSnoc(items, x, key, m);
    if Bucket(items, key, m) != [] {
      NonEmptyBucketIsNamed(items, key, m);
    }
  }

  lemma GroupableSnoc(items: seq<Value>, x: Value, key: string)
    ensures Groupable(items + [x], key) <==>
      Groupable(items, key) && GroupName(x, key).Ok? && GroupName(x, key).value !in InheritedNames
  {
    assert forall i :: 0 <= i < |items| ==> (items + [x])[i] == items[i];
    assert (items + [x])[|items|] == x;
  }

  /** groupBy (the `reduce` over the array with an accumulator `{}`): each
      item is pushed onto the bucket for its name, created empty if missing.
      It throws TypeError when an item is null or undefined, and when the
      name is inherited from Object.prototype (the inherited value is
      truthy, so it is taken as the bucket, and it has no `push`). */
  method GroupBy(arr: seq<Value>, key: string) returns (r: Result<map<string, seq<Value>>, JsError>)
    ensures r.Ok? <==> Groupable(arr, key)
    ensures r.Ok? ==> r.value == Groups(arr, key)
  {
    var result: map<string, seq<Value>> := map[];
    var i := 0;
    while i < |arr|
      invariant 0 <= i <= |arr|
      invariant Groupable(arr[..i], key)
      invariant result == Groups(arr[..i], key)
      invariant forall n :: n in result ==> n !in InheritedNames
    {
      var item := arr[i];
      assert arr[..i + 1] == arr[..i] + [item];
      GroupableSnoc(arr[..i], item, key);
      var name := GroupName(item, key);
      if name.Err? {
        assert !Groupable(arr, key) by { assert arr[i] == item; }
        return Err(name.error);
      }
      var bucket: seq<Value>;
      if name.value in result {
        bucket := result[name.value];
      } else if name.value in InheritedNames {
        assert !Groupable(arr, key) by { assert arr[i] == item; }
        return Err(TypeError);
      } else {
        bucket := [];
      }
      GroupsSnoc(arr[..i], item, key);
      result := result[name.value := bucket + [item]];
      i := i + 1;
    }
    assert arr[..i] == arr;
    r := Ok(result);
  }

  // ---------------------------------------------------- properties of Groups

  /** Every bucket is non-empty and holds only items whose name is its own. */
  lemma GroupsBucketsAreNamed(items: seq<Value>, key: string, n: string)
    requires n in Groups(items, key)
    ensures Groups(items, key)[n] != []
    ensures forall j :: 0 <= j < |Groups(items, key)[n]| ==> GroupName(Groups(items, key)[n][j], key) == Ok(n)
  {
    var i :| 0 <= i < |items| && GroupName(items[i], key) == Ok(n);
    FilterCounts(InBucket(key, n), items, items[i]);
    assert items[i] in multiset(items);
  }

  /** Every item that has a name is in the bucket of that name. */
  lemma GroupsHoldEveryItem(items: seq<Value>, key: string, i: nat)
    requires i < |items| && GroupName(items[i], key).Ok?
    ensures var n := GroupName(items[i], key).value;
      n in Groups(items, key) && items[i] in Groups(items, key)[n]
  {
    var n := GroupName(items[i], key).value;
    FilterCounts(InBucket(key, n), items, items[i]);
    assert items[i] in multiset(items);
  }

  /** Items keep their input order within a bucket. */
  lemma GroupsKeepOrder(items: seq<Value>, key: string, n: string)
    requires n in Groups(items, key)
    ensures IsSubsequence(Groups(items, key)[n], items)
  {
    FilterIsSubsequence(InBucket(key, n), items);
  }

  /** The number of times `n` occurs in `names`. */
  function Occurrences(names: seq<string>, n: string): nat {
    if names == [] then 0 else (if names[0] == n then 1 else 0) + Occurrences(names[1..], n)
  }

  predicate Distinct(names: seq<string>) {
    forall i, j :: 0 <= i < j < |names| ==> names[i] != names[j]
  }

  lemma {:induction false} OccurrencesOfDistinct(names: seq<string>, n: string)
    requires Distinct(names)
    ensures Occurrences(names, n) == if n in names then 1 else 0
  {
    if names != [] {
      OccurrencesOfDistinct(names[1..], n);
      if names[0] == n {
        assert n !in names[1..] by {
          forall j | 0 <= j < |names[1..]| ensures names[1..][j] != n { assert names[1..][j] == names[j + 1]; }
        }
      }
    }
  }

  /** The total length of the buckets listed in `names`. */
  function BucketSizes(g: map<string, seq<Value>>, names: seq<string>): nat
    requires forall j :: 0 <= j < |names| ==> names[j] in g
  {
    if names == [] then 0 else |g[names[0]]| + BucketSizes(g, names[1..])
  }

  /** The same total, for any list of names, when buckets are computed afresh. */
  function BucketTotal(items: seq<Value>, key: string, names: seq<string>): nat {
    if names == [] then 0 else |Bucket(items, key, names[0])| + BucketTotal(items, key, names[1..])
  }

  lemma {:induction false} BucketTotalSnoc(items: seq<Value>, x: Value, key: string, names: seq<string>)
    requires GroupName(x, key).Ok?
    ensures BucketTotal(items + [x], key, names)
         == BucketTotal(items, key, names) + Occurrences(names, GroupName(x, key).value)
  {
    if names != [] {
      FilterAppend(InBucket(key, names[0]), items, [x]);
      BucketTotalSnoc(items, x, key, names[1..]);
    }
  }

  lemma {:induction false} BucketTotalCountsItems(items: seq<Value>, key: string, names: seq<string>)
    requires Distinct(names)
    requires forall i :: 0 <= i < |items| ==> GroupName(items[i], key).Ok? && GroupName(items[i], key).value in names
    ensures BucketTotal(items, key, names) == |items|
    decreases |items|
  {
    if items == [] {
      BucketTotalOfEmpty(key, names);
    } else {
      var p, x := items[..|items| - 1], items[|items| - 1];
      assert items == p + [x];
      assert forall i :: 0 <= i < |p| ==> p[i] == items[i];
      BucketTotalCountsItems(p, key, names);
      BucketTotalSnoc(p, x, key, names);
      OccurrencesOfDistinct(names, GroupName(x, key).value);
    }
  }

  lemma {:induction false} BucketTotalOfEmpty(key: string, names: seq<string>)
    ensures BucketTotal([], key, names) == 0
  {
    if names != [] {
      BucketTotalOfEmpty(key, names[1..]);
    }
  }

  lemma {:induction false} BucketSizesOfGroups(items: seq<Value>, key: string, names: seq<string>)
    requires forall j :: 0 <= j < |names| ==> names[j] in Groups(items, key)
    ensures BucketSizes(Groups(items, key), names) == BucketTotal(items, key, names)
  {
    if names != [] {
      BucketSizesOfGroups(items, key, names[1..]);
    }
  }

  /** With no null or undefined item, the bucket lengths add up to the number
      of items: listing every bucket name once, their sizes sum to |items|. */
  lemma GroupSizesSum(items: seq<Value>, key: string, names: seq<string>)
    requires forall i :: 0 <= i < |items| ==> !IsNullish(items[i])
    requires Distinct(names)
    requires forall n :: n in Groups(items, key) <==> n in names
    ensures BucketSizes(Groups(items, key), names) == |items|
  {
    BucketSizesOfGroups(items, key, names);
    forall i | 0 <= i < |items| ensures GroupName(items[i], key).value in names {
      assert GroupName(items[i], key).value in Names(items, key);
    }
    BucketTotalCountsItems(items, key, names);
  }

  /** A bucket name inherited from Object.prototype makes groupBy throw. */
  lemma InheritedNameThrows()
    ensures var item := Record("constructor", 1);
      !Groupable([item], "group") && Groups([item], "group") == map["constructor" := [item]]
  {
    var item := Record("constructor", 1);
    RecordName("constructor", 1);
    GroupsSnoc([], item, "group");
    assert [] + [item] == [item];
  }

  /** A record of the library's test suite: `{ group: g, value: v }`. */
  function Record(g: string, v: int): Value {
    Obj(map["group" := Str(g), "value" := Num(v)])
  }

  lemma RecordName(g: string, v: int)
    ensures GroupName(Record(g, v), "group") == Ok(g)
  {
  }

  /** An object without the grouping key goes to the "undefined" bucket. */
  lemma MissingKeyGroupsUnderUndefined(x: Value, key: string)
    requires x.Obj? && key !in x.fields
    ensures Groups([x], key) == map["undefined" := [x]]
  {
    GroupsOfOne(x, key);
  }

  lemma GroupsOfOne(x: Value, key: string)
    requires GroupName(x, key).Ok?
    ensures Groups([x], key) == map[GroupName(x, key).value := [x]]
  {
    var g0: map<string, seq<Value>> := map[];
    assert Names([], key) == {};
    assert Groups([], key) == g0;
    GroupsSnoc([], x, key);
    assert [] + [x] == [x];
  }

  lemma GroupsOfTwo(a1: Value, b2: Value, key: string)
    requires GroupName(a1, key) == Ok("A") && GroupName(b2, key) == Ok("B")
    ensures Groups([a1, b2], key) == map["A" := [a1], "B" := [b2]]
  {
    GroupsOfOne(a1, key);
    GroupsSnoc([a1], b2, key);
    assert [a1] + [b2] == [a1, b2];
    var g1: map<string, seq<Value>> := map["A" := [a1]];
    var e: seq<Value> := [];
    assert "B" !in g1;
    assert e + [b2] == [b2];
    var g2 := g1["B" := [b2]];
    var want: map<string, seq<Value>> := map["A" := [a1], "B" := [b2]];
    assert g2.Keys == want.Keys;
    assert g2["A"] == want["A"] && g2["B"] == want["B"];
    assert g2 == want;
  }

  lemma GroupsOfThree(a1: Value, b2: Value, a3: Value, key: string)
    requires GroupName(a1, key) == Ok("A") && GroupName(a3, key) == Ok("A")
    requires GroupName(b2, key) == Ok("B")
    ensures Groups([a1, b2, a3], key) == map["A" := [a1, a3], "B" := [b2]]
  {
    GroupsOfTwo(a1, b2, key);
    MapStep(a1, b2, a3);
    SnocOntoKnown([a1, b2], a3, key, map["A" := [a1], "B" := [b2]], "A",
                  [a1, b2, a3], map["A" := [a1, a3], "B" := [b2]]);
  }

  lemma MapStep(a1: Value, b2: Value, a3: Value)
    ensures var g: map<string, seq<Value>> := map["A" := [a1], "B" := [b2]];
      "A" in g && g["A" := g["A"] + [a3]] == map["A" := [a1, a3], "B" := [b2]]
  {
    var g: map<string, seq<Value>> := map["A" := [a1], "B" := [b2]];
    assert g["A"] + [a3] == [a1, a3];
  }

  /** Appending an item whose bucket exists, to items whose grouping is known. */
  lemma SnocOntoKnown(items: seq<Value>, x: Value, key: string, g: map<string, seq<Value>>, n: string,
                      items': seq<Value>, g': map<string, seq<Value>>)
    requires Groups(items, key) == g && n in g && GroupName(x, key) == Ok(n)
    requires items' == items + [x] && g' == g[n := g[n] + [x]]
    ensures Groups(items', key) == g'
  {
    GroupsSnoc(items, x, key);
  }

  lemma GroupableOfThree(a1: Value, b2: Value, a3: Value, key: string)
    requires GroupName(a1, key) == Ok("A") && GroupName(a3, key) == Ok("A")
    requires GroupName(b2, key) == Ok("B")
    ensures Groupable([a1, b2, a3], key)
  {
    assert "A" !in InheritedNames && "B" !in InheritedNames;
    var s := [a1, b2, a3];
    assert s[0] == a1 && s[1] == b2 && s[2] == a3;
  }

  /** The grouping of the three records used in the library's test suite. */
  lemma GroupsExample()
    ensures var a1, b2, a3 := Record("A", 1), Record("B", 2), Record("A", 3);
      Groupable([a1, b2, a3], "group")
      && Groups([a1, b2, a3], "group") == map["A" := [a1, a3], "B" := [b2]]
  {
    RecordName("A", 1);
    RecordName("B", 2);
    RecordName("A", 3);
    GroupsOfThree(Record("A", 1), Record("B", 2), Record("A", 3), "group");
    GroupableOfThree(Record("A", 1), Record("B", 2), Record("A", 3), "group");
  }
}
