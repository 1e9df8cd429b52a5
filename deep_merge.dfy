/** deepMerge: sources are merged, one after the other, into the target
    object, which is updated in place. */
module DeepMerge {
  import opened Wrappers
  import opened JsValue

  // ------------------------------------------------------- the specification

  /** What one source entry `key: sv` does to the target's own properties:
      `Some(v)` when `target[key]` becomes `v`, `None` when the target's own
      properties are left as they are.
      A plain-object `sv` is merged into `target[key]`; a falsy `target[key]`
      is first replaced by `{}`, and a truthy one that is not a plain object
      is kept. A missing key inherited from Object.prototype reads the
      inherited member, which is truthy, so nothing is written to the target.
      Any other `sv` is assigned, except to a missing `__proto__`, where the
      assignment goes to the prototype setter rather than to an own property. */
  function KeyResult(tf: map<string, Value>, k: string, sv: Value): (r: Option<Value>)
    ensures !IsPlainObject(sv) && (k in tf || k != "__proto__") ==> r == Some(sv)
    ensures IsPlainObject(sv) && k in tf && Truthy(tf[k]) && !IsPlainObject(tf[k]) ==> r == None
    decreases sv, 3
  {
    if IsPlainObject(sv) then
      if k in tf then
        if !Truthy(tf[k]) then Some(MergeValue(Obj(map[]), sv))
        else if IsPlainObject(tf[k]) then Some(MergeValue(tf[k], sv))
        else None
      else if k in InheritedNames then None
      else Some(MergeValue(Obj(map[]), sv))
    else if k !in tf && k == "__proto__" then None
    else Some(sv)
  }

  /** The keys among `ks` that the entries of `sf` write to. */
  function Written(tf: map<string, Value>, sf: map<string, Value>, ks: set<string>): set<string>
    requires ks <= sf.Keys
    decreases Obj(sf), 0
  {
    set k | k in ks && KeyResult(tf, k, sf[k]).Some?
  }

  /** The target's own properties once the entries of `sf` whose keys are in
      `ks` have been handled, in any order. */
  function MergeOver(tf: map<string, Value>, sf: map<string, Value>, ks: set<string>): (r: map<string, Value>)
    requires ks <= sf.Keys
    ensures forall k :: k in tf ==> k in r
    ensures forall k :: k in r && k !in ks ==> k in tf && r[k] == tf[k]
    decreases Obj(sf), 1
  {
    map k | k in tf.Keys + Written(tf, sf, ks) ::
      if k in ks && KeyResult(tf, k, sf[k]).Some? then KeyResult(tf, k, sf[k]).value else tf[k]
  }

  /** `deepMerge(target, source)` with a single source: a plain-object
      `source` is merged into a plain-object `target`; otherwise nothing happens. */
  function MergeValue(target: Value, source: Value): (r: Value)
    ensures !IsPlainObject(target) || !IsPlainObject(source) ==> r == target
    ensures IsPlainObject(target) ==> IsPlainObject(r)
    decreases source, 2
  {
    if target.Obj? && source.Obj? then Obj(MergeOver(target.fields, source.fields, source.fields.Keys))
    else target
  }

  /** `deepMerge(target, ...sources)`: the sources in order, each merged into
      the result of the previous ones. */
  function MergeAll(target: Value, sources: seq<Value>): (r: Value)
    ensures sources == [] ==> r == target
    ensures !IsPlainObject(target) ==> r == target
    ensures IsPlainObject(target) ==> IsPlainObject(r)
    decreases |sources|
  {
    if sources == [] then target else MergeAll(MergeValue(target, sources[0]), sources[1..])
  }

  /** One source entry applied to the target's own properties. */
  function Apply(tf: map<string, Value>, k: string, sv: Value): map<string, Value> {
    match KeyResult(tf, k, sv)
    case Some(v) => tf[k := v]
    case None => tf
  }

  // ------------------------------------------------------------ the object

  /** A plain object whose own properties deepMerge updates in place. Nested
      objects are held as values. */
  class ObjectRef {
    var fields: map<string, Value>

    constructor(fields: map<string, Value>)
      ensures this.fields == fields
    {
      this.fields := fields;
    }

    /** The `for (const key in source)` loop: every own key of the source,
        handled one at a time. */
    method MergeSource(source: map<string, Value>)
      modifies this
      ensures Obj(fields) == MergeValue(Obj(old(fields)), Obj(source))
    {
      ghost var start := fields;
      ghost var done: set<string> := {};
      var todo := source.Keys;
      while todo != {}
        invariant todo !! done && todo + done == source.Keys
        invariant fields == MergeOver(start, source, done)
        decreases todo
      {
        var k :| k in todo;
        MergeOverStep(start, source, done, k);
        var entry := KeyResult(fields, k, source[k]);
        if entry.Some? {
          fields := fields[k := entry.value];
        }
        todo := todo - {k};
        done := done + {k};
      }
    }

    /** deepMerge(this, ...sources): `shift` takes the first remaining source;
        a source that is not a plain object is skipped. */
    method DeepMerge(sources: seq<Value>)
      modifies this
      ensures Obj(fields) == MergeAll(Obj(old(fields)), sources)
    {
      var rest := sources;
      while rest != []
        invariant MergeAll(Obj(fields), rest) == MergeAll(Obj(old(fields)), sources)
        decreases |rest|
      {
        var source := rest[0];
        rest := rest[1..];
        if source.Obj? {
          MergeSource(source.fields);
        }
      }
    }
  }

  // ------------------------------------------------------------- properties

  /** An entry's effect depends only on the target's own property of that key. */
  lemma KeyResultLocal(a: map<string, Value>, b: map<string, Value>, k: string, sv: Value)
    requires (k in a <==> k in b) && (k in a ==> a[k] == b[k])
    ensures KeyResult(a, k, sv) == KeyResult(b, k, sv)
  {
  }

  /** A key of the merged properties: an own key of the target or a key an
      entry writes to, holding what that entry wrote or else what it held. */
  lemma MergeOverAt(tf: map<string, Value>, sf: map<string, Value>, ks: set<string>, k: string)
    requires ks <= sf.Keys
    ensures var r := MergeOver(tf, sf, ks);
      var w := k in ks && KeyResult(tf, k, sf[k]).Some?;
      (k in r <==> k in tf || w)
      && (w ==> r[k] == KeyResult(tf, k, sf[k]).value)
      && (k in tf && !w ==> r[k] == tf[k])
  {
    if k in ks && KeyResult(tf, k, sf[k]).Some? {
      assert k in Written(tf, sf, ks);
    }
  }

  /** Handling one more key is applying its entry to the properties so far. */
  lemma MergeOverStep(tf: map<string, Value>, sf: map<string, Value>, ks: set<string>, k: string)
    requires ks <= sf.Keys && k in sf && k !in ks
    ensures MergeOver(tf, sf, ks + {k}) == Apply(MergeOver(tf, sf, ks), k, sf[k])
  {
    var m := MergeOver(tf, sf, ks);
    MergeOverAt(tf, sf, ks, k);
    KeyResultLocal(m, tf, k, sf[k]);
    var lhs, rhs := MergeOver(tf, sf, ks + {k}), Apply(m, k, sf[k]);
    forall j ensures (j in lhs <==> j in rhs) && (j in lhs ==> lhs[j] == rhs[j]) {
      MergeOverAt(tf, sf, ks, j);
      MergeOverAt(tf, sf, ks + {k}, j);
    }
    assert lhs == rhs;
  }

  /** The value a merged key ends up with. */
  lemma MergeValueAt(t: map<string, Value>, s: map<string, Value>, k: string)
    ensures var r := MergeValue(Obj(t), Obj(s)).fields;
      (k !in s ==> (k in r <==> k in t) && (k in t ==> r[k] == t[k]))
      && (k in s && KeyResult(t, k, s[k]).Some? ==> k in r && r[k] == KeyResult(t, k, s[k]).value)
      && (k in s && KeyResult(t, k, s[k]).None? ==> (k in r <==> k in t) && (k in t ==> r[k] == t[k]))
  {
    MergeOverAt(t, s, s.Keys, k);
  }

  /** A source value that is not a plain object overwrites `target[key]`. */
  lemma NonPlainSourceOverwrites(t: map<string, Value>, s: map<string, Value>, k: string)
    requires k in s && !IsPlainObject(s[k]) && (k in t || k != "__proto__")
    ensures var r := MergeValue(Obj(t), Obj(s)).fields; k in r && r[k] == s[k]
  {
    MergeValueAt(t, s, k);
  }

  /** A plain-object source value is merged recursively into a plain-object
      `target[key]`, and into a fresh `{}` when `target[key]` is falsy. */
  lemma PlainSourceMergesRecursively(t: map<string, Value>, s: map<string, Value>, k: string)
    requires k in s && IsPlainObject(s[k])
    ensures var r := MergeValue(Obj(t), Obj(s)).fields;
      (k in t && IsPlainObject(t[k]) ==> k in r && r[k] == MergeValue(t[k], s[k]))
      && ((k in t && !Truthy(t[k])) || (k !in t && k !in InheritedNames) ==>
            k in r && r[k] == MergeValue(Obj(map[]), s[k]))
  {
    MergeValueAt(t, s, k);
  }

  /** A truthy `target[key]` that is not a plain object is kept when the source
      value is a plain object. */
  lemma TruthyNonPlainTargetKept(t: map<string, Value>, s: map<string, Value>, k: string)
    requires k in s && IsPlainObject(s[k]) && k in t && Truthy(t[k]) && !IsPlainObject(t[k])
    ensures var r := MergeValue(Obj(t), Obj(s)).fields; k in r && r[k] == t[k]
  {
    MergeValueAt(t, s, k);
  }

  /** A key inherited from Object.prototype that the target does not own is
      not written when the source value is a plain object: the recursive
      merge goes into the inherited member. */
  lemma InheritedKeyNotMerged(t: map<string, Value>, s: map<string, Value>, k: string)
    requires k in s && IsPlainObject(s[k]) && k !in t && k in InheritedNames
    ensures k !in MergeValue(Obj(t), Obj(s)).fields
  {
    MergeValueAt(t, s, k);
  }

  /** deepMerge({}, { toString: { a: 1 } }) leaves the target empty. */
  lemma InheritedKeyExample()
    ensures MergeValue(Obj(map[]), Obj(map["toString" := Obj(map["a" := Num(1)])])) == Obj(map[])
  {
    var s := map["toString" := Obj(map["a" := Num(1)])];
    assert "toString" in InheritedNames;
    InheritedKeyNotMerged(map[], s, "toString");
    var r := MergeValue(Obj(map[]), Obj(s)).fields;
    forall k | k in r ensures false {
      MergeValueAt(map[], s, k);
    }
  }

  /** The sources are taken in order: merging one more source merges it into
      the result of the others. */
  lemma {:induction false} LaterSourcesWin(target: Value, sources: seq<Value>, last: Value)
    ensures MergeAll(target, sources + [last]) == MergeValue(MergeAll(target, sources), last)
    decreases |sources|
  {
    if sources == [] {
      assert sources + [last] == [last];
    } else {
      assert (sources + [last])[1..] == sources[1..] + [last];
      LaterSourcesWin(MergeValue(target, sources[0]), sources[1..], last);
    }
  }

  /** So a non-object value in the last source for a key is the final value of that key. */
  lemma LastSourceValueWins(t: map<string, Value>, sources: seq<Value>, s: map<string, Value>, k: string)
    requires k in s && !IsPlainObject(s[k]) && k != "__proto__"
    ensures var r := MergeAll(Obj(t), sources + [Obj(s)]);
      r.Obj? && k in r.fields && r.fields[k] == s[k]
  {
    LaterSourcesWin(Obj(t), sources, Obj(s));
    var m := MergeAll(Obj(t), sources);
    NonPlainSourceOverwrites(m.fields, s, k);
  }

  /** A value without any key inherited from Object.prototype, at any depth. */
  predicate NoInheritedKeys(v: Value) {
    v.Obj? ==> forall k :: k in v.fields ==> k !in InheritedNames && NoInheritedKeys(v.fields[k])
  }

  /** Merging a plain object without inherited key names into `{}` copies it. */
  lemma {:induction false} MergeIntoEmptyCopies(s: Value)
    requires IsPlainObject(s) && NoInheritedKeys(s)
    ensures MergeValue(Obj(map[]), s) == s
    decreases s
  {
    var e: map<string, Value> := map[];
    var r := MergeValue(Obj(e), s).fields;
    forall k | k in s.fields ensures k in r && r[k] == s.fields[k] {
      MergeValueAt(e, s.fields, k);
      if IsPlainObject(s.fields[k]) {
        MergeIntoEmptyCopies(s.fields[k]);
      }
    }
    forall k | k in r ensures k in s.fields {
      MergeValueAt(e, s.fields, k);
    }
    assert r == s.fields;
  }

  /** Merging the same source a second time changes nothing. */
  lemma {:induction false} MergeIdempotent(t: Value, s: Value)
    ensures MergeValue(MergeValue(t, s), s) == MergeValue(t, s)
    decreases s
  {
    if t.Obj? && s.Obj? {
      var m := MergeValue(t, s).fields;
      var m2 := MergeValue(Obj(m), s).fields;
      forall k | k in s.fields ensures (k in m2 <==> k in m) && (k in m ==> m2[k] == m[k]) {
        MergeValueAt(t.fields, s.fields, k);
        MergeValueAt(m, s.fields, k);
        var sv := s.fields[k];
        if IsPlainObject(sv) && KeyResult(t.fields, k, sv).Some? {
          var inner := KeyResult(t.fields, k, sv).value;
          assert inner == MergeValue(if k in t.fields && Truthy(t.fields[k]) then t.fields[k] else Obj(map[]), sv);
          MergeIdempotent(if k in t.fields && Truthy(t.fields[k]) then t.fields[k] else Obj(map[]), sv);
        }
      }
      forall k | k !in s.fields ensures (k in m2 <==> k in m) && (k in m ==> m2[k] == m[k]) {
        MergeValueAt(m, s.fields, k);
      }
      assert m2 == m;
    }
  }

  /** deepMerge({}, { a: 1 }, { b: 2 }) gives { a: 1, b: 2 }. */
  lemma TwoSourcesExample()
    ensures MergeAll(Obj(map[]), [Obj(map["a" := Num(1)]), Obj(map["b" := Num(2)])])
         == Obj(map["a" := Num(1), "b" := Num(2)])
  {
    var e: map<string, Value> := map[];
    var a: map<string, Value> := map["a" := Num(1)];
    var b: map<string, Value> := map["b" := Num(2)];
    var ab: map<string, Value> := map["a" := Num(1), "b" := Num(2)];
    var m1 := MergeValue(Obj(e), Obj(a)).fields;
    forall k | k in m1 ensures k == "a" { MergeValueAt(e, a, k); }
    NonPlainSourceOverwrites(e, a, "a");
    assert m1 == a;
    var m2 := MergeValue(Obj(a), Obj(b)).fields;
    forall k | k in m2 ensures k == "a" || k == "b" { MergeValueAt(a, b, k); }
    NonPlainSourceOverwrites(a, b, "b");
    MergeValueAt(a, b, "a");
    assert m2 == ab;
    var sources := [Obj(a), Obj(b)];
    assert sources[1..][1..] == [];
  }

  /** The same merge run on an object: the target ends up holding { a: 1, b: 2 }. */
  method TwoSourcesOnObject() returns (target: ObjectRef)
    ensures target.fields == map["a" := Num(1), "b" := Num(2)]
  {
    target := new ObjectRef(map[]);
    target.DeepMerge([Obj(map["a" := Num(1)]), Obj(map["b" := Num(2)])]);
    TwoSourcesExample();
  }
}
