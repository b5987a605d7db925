/**
 Documents on their way to the store, and which source values a merge with a stored value leaves as they are:
 for those, writing the source alone and writing the merge store the same.
 */
module WireFormat {
  import opened DocumentMerge

  /** What a JSON round trip leaves of a value: undefined properties vanish, undefined elements become null. */
  function Wire(v: Json): Json
  {
    match v
    case Obj(fields) => Obj(map k | k in fields && fields[k] != Undefined :: Wire(fields[k]))
    case Arr(items) => Arr(seq(|items|, i requires 0 <= i < |items| =>
                                 if items[i] == Undefined then Null else Wire(items[i])))
    case _ => v
  }

  /** No array of the value has undefined elements, as in any JSON text. */
  ghost predicate Dense(v: Json)
  {
    match v
    case Obj(fields) => forall k :: k in fields ==> Dense(fields[k])
    case Arr(items) => forall i :: 0 <= i < |items| ==> items[i] != Undefined && Dense(items[i])
    case _ => true
  }

  lemma {:induction false} WireIsDense(v: Json)
    ensures Dense(Wire(v))
  {
    match v
    case Obj(fields) =>
      forall k | k in fields && fields[k] != Undefined ensures Dense(Wire(fields[k])) {
        WireIsDense(fields[k]);
      }
    case Arr(items) =>
      forall i | 0 <= i < |items| ensures Wire(v).items[i] != Undefined && Dense(Wire(v).items[i]) {
        WireIsDense(items[i]);
      }
    case _ =>
  }

  /** The value has no undefined property or element, and is not undefined itself: it can be written as a JSON text. */
  ghost predicate Defined(v: Json)
  {
    match v
    case Undefined => false
    case Obj(fields) => forall k :: k in fields ==> Defined(fields[k])
    case Arr(items) => forall i :: 0 <= i < |items| ==> Defined(items[i])
    case _ => true
  }

  /** The wire keeps exactly the values that are JSON texts as they are, or undefined. */
  lemma {:induction false} WireKeeps(v: Json)
    ensures Wire(v) == v <==> v == Undefined || Defined(v)
    ensures v != Undefined ==> Defined(Wire(v))
  {
    match v
    case Obj(fields) =>
      forall k | k in fields
        ensures Wire(fields[k]) == fields[k] <==> fields[k] == Undefined || Defined(fields[k])
        ensures fields[k] != Undefined ==> Defined(Wire(fields[k]))
      {
        WireKeeps(fields[k]);
      }
      if Wire(v) == v {
        assert forall k :: k in fields ==> k in Wire(v).fields && Wire(v).fields[k] == fields[k];
      }
      if Defined(v) {
        forall k | k in fields ensures fields[k] != Undefined && Wire(fields[k]) == fields[k] {
          assert Defined(fields[k]);
        }
        assert Wire(v).fields == fields;
      }
    case Arr(items) =>
      forall i | 0 <= i < |items|
        ensures Wire(items[i]) == items[i] <==> items[i] == Undefined || Defined(items[i])
        ensures items[i] != Undefined ==> Defined(Wire(items[i]))
      {
        WireKeeps(items[i]);
      }
      if Wire(v) == v {
        assert forall i :: 0 <= i < |items| ==> Wire(v).items[i] == items[i];
      }
      if Defined(v) {
        forall i | 0 <= i < |items| ensures items[i] != Undefined && Wire(items[i]) == items[i] {
          assert Defined(items[i]);
        }
        assert Wire(v).items == items;
      }
    case _ =>
  }

  /** What was on the wire stays the same there. */
  lemma WireTwice(v: Json)
    ensures Wire(Wire(v)) == Wire(v)
  {
    WireKeeps(v);
    WireKeeps(Wire(v));
  }

  /** Sending a normalized value again changes nothing. */
  lemma NormalizedTwice(v: Json)
    ensures Wire(Normalize(Wire(Normalize(v)))) == Wire(Normalize(v))
  {
    NormalizeLeavesNoNull(v);
    NoNullOnWire(Normalize(v));
    WireTwice(Normalize(v));
  }

  lemma {:induction false} NoNullOnWire(v: Json)
    requires NoNull(v)
    ensures Normalize(Wire(v)) == Wire(v)
  {
    if v.Obj? {
      forall k | k in v.fields && v.fields[k] != Undefined ensures Normalize(Wire(v.fields[k])) == Wire(v.fields[k]) {
        NoNullOnWire(v.fields[k]);
      }
      assert Normalize(Wire(v)).fields == Wire(v).fields;
    }
  }

  lemma WireUndefined(v: Json)
    ensures Wire(v) == Undefined <==> v == Undefined
  {
  }

  /** Objects are the same on the wire when they are key by key. */
  lemma WireByKey(x: Fields, y: Fields)
    ensures Wire(Obj(x)) == Wire(Obj(y)) <==> forall k :: k in x.Keys + y.Keys ==> Wire(Get(x, k)) == Wire(Get(y, k))
  {
    WireFields(x);
    WireFields(y);
    if forall k :: k in x.Keys + y.Keys ==> Wire(Get(x, k)) == Wire(Get(y, k)) {
      var a, b := Wire(Obj(x)).fields, Wire(Obj(y)).fields;
      forall k | k in a.Keys + b.Keys ensures Get(a, k) == Get(b, k) {
        assert k in x.Keys + y.Keys;
      }
      SameByGet(a, b);
    }
  }

  lemma WireFields(x: Fields)
    ensures Wire(Obj(x)).Obj? && Wire(Obj(x)).fields.Keys <= x.Keys
    ensures forall k :: Get(Wire(Obj(x)).fields, k) == Wire(Get(x, k))
    ensures forall k :: k in Wire(Obj(x)).fields ==> Wire(Obj(x)).fields[k] != Undefined
  {
  }

  /** Objects without undefined properties are equal key by key. */
  lemma SameByGet(a: Fields, b: Fields)
    requires forall k :: k in a ==> a[k] != Undefined
    requires forall k :: k in b ==> b[k] != Undefined
    requires forall k :: k in a.Keys + b.Keys ==> Get(a, k) == Get(b, k)
    ensures a == b
  {
    forall k ensures k in a <==> k in b {
      assert k in a.Keys + b.Keys ==> Get(a, k) == Get(b, k);
    }
    assert a.Keys == b.Keys;
    forall k | k in a ensures a[k] == b[k] {
      assert k in a.Keys + b.Keys;
    }
  }

  // ----- Sources a merge leaves as they are -----

  /**
   The source brings along all that the merge would keep, and nothing the merge would change: lists of pages hold the
   stored ones, arrays meeting arrays have distinct scalars, objects name every stored key but those with null, and no
   null stands where the merge reaches it.
   */
  ghost predicate Covers(c: Customizer, key: string, stored: Json, source: Json)
    decreases source
  {
    if c == UnionKnownPages && key == KNOWN_PAGES then
      source.Arr? && Distinct(source.items) && forall v :: v in Elements(stored) ==> !IsReference(v) && v in source.items
    else if key == ETAG && stored != Undefined then Wire(Normalize(stored)) == Wire(source)
    else if stored.Arr? then source.Arr? && Distinct(source.items)
    else
      match source
      case Undefined => stored in {Undefined, Null}
      case Null => false
      case Obj(fields) =>
        && (forall k :: k in fields ==> Covers(c, k, Get(Base(stored), k), fields[k]))
        && (forall k :: k in Base(stored) && k !in fields ==> Base(stored)[k] in {Undefined, Null})
      case _ => true
  }

  /** The merge stores what the source alone would. */
  ghost predicate MergeIsSource(c: Customizer, key: string, stored: Json, source: Json)
  {
    Wire(Normalize(MergeField(c, key, stored, source))) == Wire(source)
  }

  /** The merge leaves a source as it is exactly when the source covers the stored value. */
  lemma {:induction false} CoversExactly(c: Customizer, key: string, stored: Json, source: Json)
    requires Mergeable(c, key, stored, source)
    ensures Covers(c, key, stored, source) ==> MergeIsSource(c, key, stored, source)
    ensures Dense(stored) && Dense(source) && MergeIsSource(c, key, stored, source) ==> Covers(c, key, stored, source)
    decreases source, 1
  {
    if c == UnionKnownPages && key == KNOWN_PAGES {
      PagesCoverExactly(stored, source);
    } else if key == ETAG && stored != Undefined {
      // the stored value stays, so that the two have to be equal
    } else if stored.Arr? {
      ArrayCoversExactly(c, key, stored, source);
    } else if source.Obj? {
      ObjectCoversExactly(c, key, stored, source);
    } else {
      ValueCoversExactly(c, key, stored, source);
    }
  }

  lemma PagesCoverExactly(stored: Json, source: Json)
    requires Iterable(source) && Iterable(stored)
    ensures Covers(UnionKnownPages, KNOWN_PAGES, stored, source) ==> MergeIsSource(UnionKnownPages, KNOWN_PAGES, stored, source)
    ensures Dense(stored) && Dense(source) && MergeIsSource(UnionKnownPages, KNOWN_PAGES, stored, source) ==>
              Covers(UnionKnownPages, KNOWN_PAGES, stored, source)
  {
    UnionIsSource(Elements(source), Elements(stored), source, stored);
  }

  lemma ArrayCoversExactly(c: Customizer, key: string, stored: Json, source: Json)
    requires stored.Arr? && key != ETAG && !(c == UnionKnownPages && key == KNOWN_PAGES)
    ensures Covers(c, key, stored, source) <==> MergeIsSource(c, key, stored, source)
  {
    if source.Arr? {
      WireOfUniq(source.items);
    }
  }

  lemma ValueCoversExactly(c: Customizer, key: string, stored: Json, source: Json)
    requires Mergeable(c, key, stored, source)
    requires !source.Obj? && !stored.Arr? && (key == ETAG ==> stored == Undefined)
    requires !(c == UnionKnownPages && key == KNOWN_PAGES)
    ensures Covers(c, key, stored, source) <==> MergeIsSource(c, key, stored, source)
  {
    if source == Undefined {
      WireUndefined(Normalize(stored));
    } else if source.Arr? && key == ETAG {
      CopyIsIdentity(c, key, source);
    } else if source.Arr? {
      CopiedArray(c, key, stored, source);
    }
  }

  lemma {:induction false} ObjectCoversExactly(c: Customizer, key: string, stored: Json, source: Json)
    requires Mergeable(c, key, stored, source)
    requires source.Obj? && !stored.Arr? && (key == ETAG ==> stored == Undefined)
    requires !(c == UnionKnownPages && key == KNOWN_PAGES)
    ensures Covers(c, key, stored, source) ==> MergeIsSource(c, key, stored, source)
    ensures Dense(stored) && Dense(source) && MergeIsSource(c, key, stored, source) ==> Covers(c, key, stored, source)
    decreases source, 0
  {
    ObjectIsSource(c, key, stored, source);
    forall k | k in source.fields
      ensures Covers(c, k, Get(Base(stored), k), source.fields[k]) ==> MergeIsSource(c, k, Get(Base(stored), k), source.fields[k])
      ensures Dense(stored) && Dense(source) && MergeIsSource(c, k, Get(Base(stored), k), source.fields[k]) ==>
                Covers(c, k, Get(Base(stored), k), source.fields[k])
    {
      CoversExactly(c, k, Get(Base(stored), k), source.fields[k]);
    }
  }

  lemma ObjectIsSource(c: Customizer, key: string, stored: Json, source: Json)
    requires source.Obj? && !stored.Arr? && (key == ETAG ==> stored == Undefined)
    requires !(c == UnionKnownPages && key == KNOWN_PAGES)
    ensures MergeIsSource(c, key, stored, source) <==>
            && (forall k :: k in source.fields ==> MergeIsSource(c, k, Get(Base(stored), k), source.fields[k]))
            && (forall k :: k in Base(stored) && k !in source.fields ==> Base(stored)[k] in {Undefined, Null})
  {
    ObjectMerge(c, key, stored, source);
    ShapedIsSource(c, Base(stored), source.fields, Normalize(MergeField(c, key, stored, source)).fields);
  }

  lemma ShapedIsSource(c: Customizer, base: Fields, fields: Fields, merged: Fields)
    requires Shaped(c, base, fields, Obj(merged))
    ensures Wire(Obj(merged)) == Wire(Obj(fields)) <==>
            && (forall k :: k in fields ==> MergeIsSource(c, k, Get(base, k), fields[k]))
            && (forall k :: k in base && k !in fields ==> base[k] in {Undefined, Null})
  {
    WireByKey(merged, fields);
    forall k | k in fields
      ensures Wire(Get(merged, k)) == Wire(Get(fields, k)) <==> MergeIsSource(c, k, Get(base, k), fields[k])
    {
    }
    forall k | k in base && k !in fields
      ensures Wire(Get(merged, k)) == Wire(Get(fields, k)) <==> base[k] in {Undefined, Null}
    {
      WireUndefined(Get(merged, k));
    }
  }

  lemma {:induction false} UniqLength(items: seq<Json>)
    ensures |Uniq(items)| <= |items|
    ensures |Uniq(items)| == |items| ==> Uniq(items) == items
  {
    if |items| > 0 {
      UniqLength(items[..|items| - 1]);
      assert items == items[..|items| - 1] + [items[|items| - 1]];
    }
  }

  lemma WireOfUniq(items: seq<Json>)
    ensures Wire(Arr(Uniq(items))) == Wire(Arr(items)) <==> Distinct(items)
  {
    UniqFixed(items);
    UniqLength(items);
    assert |Wire(Arr(Uniq(items))).items| == |Uniq(items)| && |Wire(Arr(items)).items| == |items|;
  }

  /** A union with b is a itself exactly when a has distinct scalars and b is made of scalars of a. */
  lemma UnionFixed(a: seq<Json>, b: seq<Json>)
    ensures Uniq(a + b) == a <==> Distinct(a) && forall v :: v in b ==> !IsReference(v) && v in a
  {
    UniqFixed(a);
    if Uniq(a + b) == a {
      UniqIsDistinct(a + b);
      UniqKeepsReferences(a + b);
      ReferencesConcat(a, b);
      NoReferences(b);
      forall v | v in b ensures v in a {
        UniqMembers(a + b, v);
      }
    } else if Distinct(a) && forall v :: v in b ==> !IsReference(v) && v in a {
      UniqAbsorbsSeen(a, b);
    }
  }

  lemma UnionIsSource(a: seq<Json>, b: seq<Json>, source: Json, stored: Json)
    requires Iterable(source) && Iterable(stored) && a == Elements(source) && b == Elements(stored)
    ensures source.Arr? && Uniq(a + b) == a ==> Wire(Arr(Uniq(a + b))) == Wire(source)
    ensures Dense(stored) && Dense(source) && Wire(Arr(Uniq(a + b))) == Wire(source) ==> source.Arr? && Uniq(a + b) == a
    ensures Uniq(a + b) == a <==> Distinct(a) && forall v :: v in b ==> !IsReference(v) && v in a
  {
    UnionFixed(a, b);
    if Dense(stored) && Dense(source) && Wire(Arr(Uniq(a + b))) == Wire(source) {
      forall v | v in a + b ensures v != Undefined {
      }
      SameOnWire(a, b);
    }
  }

  lemma SameOnWire(a: seq<Json>, b: seq<Json>)
    requires forall v :: v in a + b ==> v != Undefined
    requires Wire(Arr(Uniq(a + b))) == Wire(Arr(a))
    ensures Uniq(a + b) == a
  {
    var u := Uniq(a + b);
    UniqIsDistinct(a + b);
    assert |Wire(Arr(u)).items| == |u| && |Wire(Arr(a)).items| == |a|;
    forall i | 0 <= i < |a| ensures IsReference(a[i]) == IsReference(u[i]) && (!IsReference(a[i]) ==> a[i] == u[i]) {
      UniqMembers(a + b, u[i]);
      assert u[i] in u && a[i] in a + b;
      assert Wire(Arr(u)).items[i] == Wire(u[i]) && Wire(Arr(a)).items[i] == Wire(a[i]);
    }
    assert Distinct(a);
    UniqFixed(a);
    UniqPrefix(a, b);
  }
}
