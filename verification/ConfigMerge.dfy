/** Merging an override document over a baseline document. */
module ConfigMerge {
  import opened Orders

  /** A YAML value. Scalars are carried by their kind and text. */
  datatype Value =
    | Scalar(kind: string, text: string)
    | Sequence(items: seq<Value>)
    | Mapping(entries: map<Value, Value>)

  /** Mappings merge key by key; anything else is replaced. */
  function Merge(base: Value, over: Value): Value
    decreases over
  {
    if base.Mapping? && over.Mapping? then
      Mapping(map k | k in base.entries.Keys + over.entries.Keys ::
        if k !in over.entries then base.entries[k]
        else if k in base.entries then Merge(base.entries[k], over.entries[k])
        else over.entries[k])
    else over
  }

  /** `merge_values`: changes the baseline entry by entry of the override. */
  method MergeValues(baseline: Value, over: Value) returns (merged: Value)
    ensures merged == Merge(baseline, over)
    decreases over
  {
    if !baseline.Mapping? || !over.Mapping? {
      return over;
    }
    var base, keys := baseline.entries, over.entries.Keys;
    ghost var wanted := Merge(baseline, over).entries;
    while keys != {}
      invariant keys <= over.entries.Keys
      invariant base.Keys == baseline.entries.Keys + (over.entries.Keys - keys)
      invariant forall k :: k in base ==>
                  base[k] == if k in keys then baseline.entries[k] else wanted[k]
      decreases keys
    {
      var k :| k in keys;
      if k in base {
        var value := MergeValues(base[k], over.entries[k]);
        base := base[k := value];
      } else {
        base := base[k := over.entries[k]];
      }
      keys := keys - {k};
    }
    assert base == wanted;
    merged := Mapping(base);
  }

  // ---- laws ---------------------------------------------------------------------------

  /** Merging the same override again changes nothing. */
  lemma {:induction false} MergeIsIdempotent(base: Value, over: Value)
    ensures Merge(Merge(base, over), over) == Merge(base, over)
    decreases over
  {
    if base.Mapping? && over.Mapping? {
      var once := Merge(base, over);
      forall k | k in over.entries ensures Merge(once.entries[k], over.entries[k]) == once.entries[k] {
        if k in base.entries {
          MergeIsIdempotent(base.entries[k], over.entries[k]);
        } else {
          MergeWithSelf(over.entries[k]);
        }
      }
      assert Merge(once, over).entries == once.entries;
    } else {
      MergeWithSelf(over);
    }
  }

  /** Merging a value with itself is the identity. */
  lemma {:induction false} MergeWithSelf(v: Value)
    ensures Merge(v, v) == v
    decreases v
  {
    if v.Mapping? {
      forall k | k in v.entries ensures Merge(v.entries[k], v.entries[k]) == v.entries[k] {
        MergeWithSelf(v.entries[k]);
      }
      assert Merge(v, v).entries == v.entries;
    }
  }

  /** The value under a path of keys. */
  function Lookup(v: Value, path: seq<Value>): Option<Value>
    decreases |path|
  {
    if path == [] then Some(v)
    else if v.Mapping? && path[0] in v.entries then Lookup(v.entries[path[0]], path[1..])
    else None
  }

  /** Somewhere on the path, before its end, `v` holds a value that is no mapping. */
  predicate Blocks(v: Value, path: seq<Value>)
    decreases |path|
  {
    path != [] && (!v.Mapping? || (path[0] in v.entries && Blocks(v.entries[path[0]], path[1..])))
  }

  /** What `v` must hold under a key path to be `over` merged over `base`: where the
      override has a value, that very value, unless both sides hold mappings there, which
      then join their keys; nothing where the override puts a non-mapping above the path;
      everywhere else the baseline's value. */
  ghost predicate ResolvesAt(base: Value, over: Value, v: Value, path: seq<Value>) {
    var b, o, m := Lookup(base, path), Lookup(over, path), Lookup(v, path);
    if o.Some? && b.Some? && o.value.Mapping? && b.value.Mapping? then
      m.Some? && m.value.Mapping? && m.value.entries.Keys == b.value.entries.Keys + o.value.entries.Keys
    else if o.Some? then m == o
    else if Blocks(over, path) then m == None
    else m == b
  }

  /** Every key path of a merged document resolves so. */
  lemma {:induction false} MergedPathResolves(base: Value, over: Value, path: seq<Value>)
    ensures ResolvesAt(base, over, Merge(base, over), path)
    decreases |path|
  {
    if path != [] && base.Mapping? && over.Mapping? && path[0] in base.entries && path[0] in over.entries {
      MergedPathResolves(base.entries[path[0]], over.entries[path[0]], path[1..]);
    }
  }

  /** And the merged document is the only one of which every key path does. */
  lemma {:induction false} PathsDetermineMerge(base: Value, over: Value, v: Value)
    requires forall path :: ResolvesAt(base, over, v, path)
    ensures v == Merge(base, over)
    decreases over
  {
    assert ResolvesAt(base, over, v, []);
    if base.Mapping? && over.Mapping? {
      forall k | k in v.entries ensures v.entries[k] == Merge(base, over).entries[k] {
        if k in base.entries && k in over.entries {
          forall path ensures ResolvesAt(base.entries[k], over.entries[k], v.entries[k], path) {
            ResolvesBelow(base, over, v, k, path);
          }
          PathsDetermineMerge(base.entries[k], over.entries[k], v.entries[k]);
        } else {
          ResolvesBelow(base, over, v, k, []);
        }
      }
      assert v.entries == Merge(base, over).entries;
    }
  }

  lemma LookupBelow(v: Value, k: Value, path: seq<Value>, longer: seq<Value>)
    requires v.Mapping? && longer == [k] + path
    ensures Lookup(v, longer) == if k in v.entries then Lookup(v.entries[k], path) else None
    ensures Blocks(v, longer) <==> k in v.entries && Blocks(v.entries[k], path)
  {
    assert longer[0] == k && longer[1..] == path;
  }

  /** The law for a path that starts with `k`, in terms of what is under `k`. */
  lemma ResolvesBelow(base: Value, over: Value, v: Value, k: Value, path: seq<Value>)
    requires base.Mapping? && over.Mapping? && v.Mapping? && k in v.entries
    requires forall p :: ResolvesAt(base, over, v, p)
    ensures k in base.entries && k in over.entries ==> ResolvesAt(base.entries[k], over.entries[k], v.entries[k], path)
    ensures k in over.entries && k !in base.entries && path == [] ==> v.entries[k] == over.entries[k]
    ensures k in base.entries && k !in over.entries && path == [] ==> v.entries[k] == base.entries[k]
  {
    var longer := [k] + path;
    LookupBelow(base, k, path, longer);
    LookupBelow(over, k, path, longer);
    LookupBelow(v, k, path, longer);
    assert ResolvesAt(base, over, v, longer);
  }

  /** For instance a scalar override always takes effect. */
  lemma ScalarOverrideTakesEffect(key: Value, before: Value, after: Value)
    requires after.Scalar?
    ensures Merge(Mapping(map[key := before]), Mapping(map[key := after])) == Mapping(map[key := after])
  {
    var base, over := Mapping(map[key := before]), Mapping(map[key := after]);
    assert Merge(base, over).entries == over.entries;
  }
}
