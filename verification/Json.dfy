/** JSON values as the runtime stores them, and the deep merge of objects.
    Objects are finite maps, so member order is not part of a value. */
module Json {
  import opened Common

  datatype Json =
    | Null
    | Bool(flag: bool)
    | Num(value: real)
    | Text(text: string)
    | Arr(items: seq<Json>)
    | Obj(fields: map<string, Json>)

  type Fields = map<string, Json>

  /* ------------------------------------------------------------- merging */

  /** What a deep merge leaves at key `k` of either side; None when the key is gone. */
  function MergedAt(base: Fields, delta: Fields, k: string): Option<Json>
    requires k in base || k in delta
    decreases Obj(delta), 0
  {
    if k !in delta then Some(base[k])
    else if delta[k].Null? && k in base then None
    else if delta[k].Obj? && k in base && base[k].Obj?
    then Some(Obj(Merge(base[k].fields, delta[k].fields)))
    else Some(delta[k])
  }

  function Merge(base: Fields, delta: Fields): Fields
    decreases Obj(delta), 1
  {
    map k | k in base.Keys + delta.Keys && MergedAt(base, delta, k).Some? :: MergedAt(base, delta, k).value
  }

  /** The merge loop: copy the base, then apply the delta one member at a time. */
  method DeepMerge(base: Fields, delta: Fields) returns (result: Fields)
    ensures result == Merge(base, delta)
    decreases Obj(delta)
  {
    result := base;
    var pending := delta.Keys;
    while pending != {}
      invariant pending <= delta.Keys
      invariant forall k | k in delta.Keys - pending ::
        if k in result then MergedAt(base, delta, k) == Some(result[k]) else MergedAt(base, delta, k).None?
      invariant forall k | k !in delta.Keys - pending ::
        (k in result <==> k in base) && (k in base ==> result[k] == base[k])
    {
      var key :| key in pending;
      var value := delta[key];
      if value.Null? && key in result {
        result := result - {key};
      } else if value.Obj? && key in result && result[key].Obj? {
        var nested := DeepMerge(result[key].fields, value.fields);
        result := result[key := Obj(nested)];
      } else {
        result := result[key := value];
      }
      pending := pending - {key};
    }
    assert forall k :: k in result <==> k in Merge(base, delta);
  }

  /* ------------------------------------------------------- associativity */

  function At(content: Fields, k: string): Option<Json> {
    if k in content then Some(content[k]) else None
  }

  lemma MergeAt(base: Fields, delta: Fields, k: string)
    ensures At(Merge(base, delta), k) == if k in base || k in delta then MergedAt(base, delta, k) else None
  {
  }

  lemma SameAtEveryKey(a: Fields, b: Fields)
    requires forall k :: At(a, k) == At(b, k)
    ensures a == b
  {
    forall k ensures k in a <==> k in b {
      assert At(a, k) == At(b, k);
    }
    forall k | k in a ensures a[k] == b[k] {
      assert At(a, k) == At(b, k);
    }
  }

  /** Merging the delta over the base leaves the delta: every member of the base is in the delta too,
      not as a null, and object under object the same again. */
  ghost predicate Absorbed(base: Fields, delta: Fields)
    decreases Obj(delta)
  {
    forall k | k in base ::
      k in delta && !delta[k].Null? && (base[k].Obj? && delta[k].Obj? ==> Absorbed(base[k].fields, delta[k].fields))
  }

  lemma {:induction false} AbsorbedExactly(base: Fields, delta: Fields)
    ensures Merge(base, delta) == delta <==> Absorbed(base, delta)
    decreases Obj(delta)
  {
    forall k | k in base && k in delta && base[k].Obj? && delta[k].Obj?
      ensures Merge(base[k].fields, delta[k].fields) == delta[k].fields <==> Absorbed(base[k].fields, delta[k].fields)
    {
      AbsorbedExactly(base[k].fields, delta[k].fields);
    }
    if Absorbed(base, delta) {
      forall k ensures At(Merge(base, delta), k) == At(delta, k) { MergeAt(base, delta, k); }
      SameAtEveryKey(Merge(base, delta), delta);
    } else {
      var k :| k in base && !(k in delta && !delta[k].Null?
        && (base[k].Obj? && delta[k].Obj? ==> Absorbed(base[k].fields, delta[k].fields)));
      MergeAt(base, delta, k);
    }
  }

  /** Three values under one key may be merged from either end.  A null last needs two nulls before it.
      An object last asks something only of an object first: with a third object between them, the same
      of their members; with anything else between them, that the last absorbs the first.  Any other
      value last is all that is left either way. */
  ghost predicate AssociatesAt(x: Json, y: Json, z: Json)
    decreases z, 1
  {
    match z
    case Null => x.Null? && y.Null?
    case Obj(last) =>
      x.Obj? ==> if y.Obj? then Associates(x.fields, y.fields, last) else Absorbed(x.fields, last)
    case _ => true
  }

  /** Only keys that all three objects have matter. */
  ghost predicate Associates(a: Fields, b: Fields, c: Fields)
    decreases Obj(c), 0
  {
    forall k | k in a && k in b && k in c :: AssociatesAt(a[k], b[k], c[k])
  }

  lemma {:induction false} KeyAssociatesExactly(a: Fields, b: Fields, c: Fields, k: string)
    ensures At(Merge(Merge(a, b), c), k) == At(Merge(a, Merge(b, c)), k) <==>
      (k in a && k in b && k in c ==> AssociatesAt(a[k], b[k], c[k]))
    decreases Obj(c), 0
  {
    MergeAt(a, b, k);
    MergeAt(b, c, k);
    MergeAt(Merge(a, b), c, k);
    MergeAt(a, Merge(b, c), k);
    if k in a && k in b && k in c && a[k].Obj? && c[k].Obj? {
      if b[k].Obj? {
        MergeAssociatesExactly(a[k].fields, b[k].fields, c[k].fields);
      } else {
        AbsorbedExactly(a[k].fields, c[k].fields);
      }
    }
  }

  /** Merging is associative on exactly these triples of objects. */
  lemma {:induction false} MergeAssociatesExactly(a: Fields, b: Fields, c: Fields)
    ensures Merge(Merge(a, b), c) == Merge(a, Merge(b, c)) <==> Associates(a, b, c)
    decreases Obj(c), 1
  {
    var left, right := Merge(Merge(a, b), c), Merge(a, Merge(b, c));
    forall k ensures At(left, k) == At(right, k) <==> (k in a && k in b && k in c ==> AssociatesAt(a[k], b[k], c[k])) {
      KeyAssociatesExactly(a, b, c, k);
    }
    if Associates(a, b, c) {
      SameAtEveryKey(left, right);
    } else {
      var k :| k in a && k in b && k in c && !AssociatesAt(a[k], b[k], c[k]);
      assert At(left, k) != At(right, k);
    }
  }

  /** One null is enough to see the difference. */
  lemma MergeIsNotAssociative(k: string, v: Json, w: Json)
    requires !w.Null?
    ensures var a, b, c: Fields := map[k := v], map[k := w], map[k := Null];
      Merge(Merge(a, b), c) != Merge(a, Merge(b, c))
  {
    var a, b, c: Fields := map[k := v], map[k := w], map[k := Null];
    MergeAssociatesExactly(a, b, c);
    assert k in a && k in b && k in c && !AssociatesAt(a[k], b[k], c[k]);
  }

  /** And so is none: an object, something else, and an empty object. */
  lemma MergeIsNotAssociativeWithoutNulls(k: string, j: string, v: Json, w: Json)
    requires !w.Null? && !w.Obj?
    ensures var a, b, c: Fields := map[k := Obj(map[j := v])], map[k := w], map[k := Obj(map[])];
      Merge(Merge(a, b), c) != Merge(a, Merge(b, c))
  {
    var under: Fields := map[j := v];
    var a, b, c: Fields := map[k := Obj(under)], map[k := w], map[k := Obj(map[])];
    MergeAssociatesExactly(a, b, c);
    assert j in under && !Absorbed(under, map[]);
    assert k in a && k in b && k in c && !AssociatesAt(a[k], b[k], c[k]);
  }

  lemma MergeIntoEmpty(content: Fields)
    ensures Merge(map[], content) == content
  {
    assert forall k | k in content :: MergedAt(map[], content, k) == Some(content[k]);
  }

  /** Null members removed at every object level.  Nulls inside arrays stay. */
  function StripNulls(content: Fields): Fields
    decreases Obj(content)
  {
    map k | k in content && !content[k].Null? ::
      if content[k].Obj? then Obj(StripNulls(content[k].fields)) else content[k]
  }

  ghost predicate NullFree(content: Fields)
    decreases Obj(content)
  {
    forall k | k in content :: !content[k].Null? && (content[k].Obj? ==> NullFree(content[k].fields))
  }

  lemma {:induction false} MergeWithItself(content: Fields)
    ensures Merge(content, content) == StripNulls(content)
    ensures StripNulls(content) == content <==> NullFree(content)
    decreases Obj(content)
  {
    forall k | k in content && content[k].Obj?
      ensures Merge(content[k].fields, content[k].fields) == StripNulls(content[k].fields)
      ensures StripNulls(content[k].fields) == content[k].fields <==> NullFree(content[k].fields)
    {
      MergeWithItself(content[k].fields);
    }
    var stripped := StripNulls(content);
    assert Merge(content, content) == stripped;
    if NullFree(content) {
      assert stripped == content;
    } else {
      var k :| k in content && (content[k].Null? || (content[k].Obj? && !NullFree(content[k].fields)));
      assert k !in stripped || stripped[k] != content[k];
    }
  }
}
