/**
 The document merge of mergeOrWriteDocument (packages/azure-services/src/storage/cosmos-container-client.ts)
 with the knownPages customizer of updateWebsite (packages/service-library/src/data-providers/website-provider.ts).

 The merge is lodash's mergeWith: for every key of the source the customizer is asked first; where it has no
 answer, scalars overwrite, plain objects merge recursively and arrays meeting no array are copied.
 Documents are JSON values with `undefined`; the order of an object's keys is not modelled.
 */
module DocumentMerge {

  datatype Json =
    | Undefined
    | Null
    | Bool(b: bool)
    | Num(n: int)
    | Str(s: string)
    | Arr(items: seq<Json>)
    | Obj(fields: Fields)

  type Fields = map<string, Json>

  const ETAG := "_etag"
  const KNOWN_PAGES := "knownPages"

  /** How mergeOrWriteDocument was called: plainly, or with the knownPages customizer. */
  datatype Customizer = Plain | UnionKnownPages

  function Get(doc: Fields, key: string): Json
  {
    if key in doc then doc[key] else Undefined
  }

  predicate IsReference(v: Json) { v.Arr? || v.Obj? }

  /** _.uniq: keeps first occurrences. Parsed arrays and objects are distinct references, so they all stay. */
  function Uniq(items: seq<Json>): (r: seq<Json>)
  {
    if |items| == 0 then []
    else
      var rest := Uniq(items[..|items| - 1]);
      var last := items[|items| - 1];
      if !IsReference(last) && last in rest then rest else rest + [last]
  }

  function Characters(s: string): (r: seq<Json>)
    ensures |r| == |s|
  {
    seq(|s|, i requires 0 <= i < |s| => Str([s[i]]))
  }

  /** The elements _.uniq sees in a source value: those of an array or a string, otherwise none. */
  function Elements(v: Json): seq<Json>
  {
    match v
    case Arr(items) => items
    case Str(s) => Characters(s)
    case _ => []
  }

  // ----- The merge -----

  /** The fields a source object is merged into: the stored object's, or none when no object is stored. */
  function Base(stored: Json): Fields
  {
    if stored.Obj? then stored.fields else map[]
  }

  /** The value of a stored field, or of a whole document, after merging the source value into it. */
  function MergeField(c: Customizer, key: string, stored: Json, source: Json): Json
    decreases source
  {
    if c == UnionKnownPages && key == KNOWN_PAGES then Arr(Uniq(Elements(source) + Elements(stored)))
    else if key == ETAG && stored != Undefined then stored
    else if stored.Arr? then Arr(Uniq(Elements(source)))
    else
      match source
      case Undefined => stored
      case Arr(items) => Arr(seq(|items|, i requires 0 <= i < |items| => MergeField(c, "", Undefined, items[i])))
      case Obj(fields) =>
        Obj(map k | k in Base(stored).Keys + fields.Keys ::
              if k in fields then MergeField(c, k, Get(Base(stored), k), fields[k]) else Base(stored)[k])
      case _ => source
  }

  /** getNormalizeMergedDocument: null becomes undefined at every plain-object position. */
  function Normalize(v: Json): Json
  {
    match v
    case Null => Undefined
    case Obj(fields) => Obj(map k | k in fields :: Normalize(fields[k]))
    case _ => v
  }

  /** The normalized merge of a source document into a stored one. */
  function Update(c: Customizer, stored: Fields, source: Fields): Fields
  {
    Normalize(MergeField(c, "", Obj(stored), Obj(source))).fields
  }

  predicate Iterable(v: Json) { v.Arr? || v.Str? }

  /** The merge throws no TypeError: wherever the customizer spreads knownPages, both sides can be spread. */
  predicate Mergeable(c: Customizer, key: string, stored: Json, source: Json)
    decreases source
  {
    if c == UnionKnownPages && key == KNOWN_PAGES then Iterable(source) && Iterable(stored)
    else if key == ETAG && stored != Undefined then true
    else if stored.Arr? then true
    else
      match source
      case Arr(items) => forall i :: 0 <= i < |items| ==> Mergeable(c, "", Undefined, items[i])
      case Obj(fields) => forall k :: k in fields ==> Mergeable(c, k, Get(Base(stored), k), fields[k])
      case _ => true
  }

  /** No knownPages stands in this value, in an object or array at any depth. */
  predicate NoPagesBelow(v: Json)
  {
    match v
    case Obj(fields) => KNOWN_PAGES !in fields && forall k :: k in fields ==> NoPagesBelow(fields[k])
    case Arr(items) => forall i :: 0 <= i < |items| ==> NoPagesBelow(items[i])
    case _ => true
  }

  /** Where nothing is stored, a merge throws exactly when the customizer of a website update meets a knownPages. */
  lemma {:induction false} MergesIntoNothing(c: Customizer, key: string, source: Json)
    ensures Mergeable(c, key, Undefined, source)
            <==> c == Plain || (key != KNOWN_PAGES && NoPagesBelow(source))
    decreases source
  {
    if !(c == UnionKnownPages && key == KNOWN_PAGES) {
      match source
      case Obj(fields) =>
        forall k | k in fields
          ensures Mergeable(c, k, Undefined, fields[k]) <==> c == Plain || (k != KNOWN_PAGES && NoPagesBelow(fields[k]))
        {
          MergesIntoNothing(c, k, fields[k]);
        }
      case Arr(items) =>
        forall i | 0 <= i < |items|
          ensures Mergeable(c, "", Undefined, items[i]) <==> c == Plain || NoPagesBelow(items[i])
        {
          MergesIntoNothing(c, "", items[i]);
        }
      case _ =>
    }
  }

  // ----- Arrays without repetitions -----

  lemma {:induction false} UniqMembers(items: seq<Json>, v: Json)
    ensures v in Uniq(items) <==> v in items
  {
    if |items| > 0 {
      UniqMembers(items[..|items| - 1], v);
      assert items == items[..|items| - 1] + [items[|items| - 1]];
    }
  }

  /** Scalars occur once. */
  ghost predicate Distinct(items: seq<Json>)
  {
    forall i, j :: 0 <= i < j < |items| && !IsReference(items[j]) ==> items[i] != items[j]
  }

  lemma {:induction false} UniqIsDistinct(items: seq<Json>)
    ensures Distinct(Uniq(items))
  {
    if |items| > 0 {
      UniqIsDistinct(items[..|items| - 1]);
    }
  }

  /** An array is its own deduplication exactly when its scalars are distinct. */
  lemma {:induction false} UniqFixed(items: seq<Json>)
    ensures Uniq(items) == items <==> Distinct(items)
  {
    UniqIsDistinct(items);
    if Distinct(items) && |items| > 0 {
      UniqFixed(items[..|items| - 1]);
      assert items == items[..|items| - 1] + [items[|items| - 1]];
    }
  }

  /** The first part comes first: appending keeps the deduplicated array as a prefix. */
  lemma {:induction false} UniqPrefix(a: seq<Json>, b: seq<Json>)
    ensures Uniq(a) <= Uniq(a + b)
  {
    if |b| == 0 {
      assert a + b == a;
    } else {
      UniqPrefix(a, b[..|b| - 1]);
      assert (a + b)[..|a + b| - 1] == a + b[..|b| - 1];
    }
  }

  function References(items: seq<Json>): nat
  {
    if |items| == 0 then 0
    else References(items[..|items| - 1]) + if IsReference(items[|items| - 1]) then 1 else 0
  }

  lemma {:induction false} UniqKeepsReferences(items: seq<Json>)
    ensures References(Uniq(items)) == References(items)
  {
    if |items| > 0 {
      UniqKeepsReferences(items[..|items| - 1]);
      var rest, last := Uniq(items[..|items| - 1]), items[|items| - 1];
      assert (rest + [last])[..|rest|] == rest;
    }
  }

  lemma {:induction false} ReferencesConcat(a: seq<Json>, b: seq<Json>)
    ensures References(a + b) == References(a) + References(b)
  {
    if |b| == 0 {
      assert a + b == a;
    } else {
      ReferencesConcat(a, b[..|b| - 1]);
      assert (a + b)[..|a + b| - 1] == a + b[..|b| - 1];
    }
  }

  lemma {:induction false} NoReferences(items: seq<Json>)
    requires References(items) == 0
    ensures forall i :: 0 <= i < |items| ==> !IsReference(items[i])
  {
    if |items| > 0 {
      NoReferences(items[..|items| - 1]);
    }
  }

  /** A second union with the same request adds nothing exactly when the request's elements are scalars. */
  lemma UnionTwice(a: seq<Json>, b: seq<Json>)
    ensures Uniq(a + Uniq(a + b)) == Uniq(a + b) <==> References(a) == 0
  {
    UnionAddsReferences(a, b);
    if References(a) == 0 {
      UniqPrefix(a, b);
      UniqIsDistinct(a + b);
      SplitUnion(a, Uniq(a + b));
    }
  }

  lemma UnionAddsReferences(a: seq<Json>, b: seq<Json>)
    ensures References(Uniq(a + Uniq(a + b))) == References(a) + References(Uniq(a + b))
  {
    UniqKeepsReferences(a + Uniq(a + b));
    ReferencesConcat(a, Uniq(a + b));
  }

  lemma SplitUnion(a: seq<Json>, u: seq<Json>)
    requires Uniq(a) <= u && Distinct(u) && References(a) == 0
    ensures Uniq(a + u) == u
  {
    var tail := u[|Uniq(a)|..];
    assert u == Uniq(a) + tail;
    UnionAbsorbs(a, tail);
    assert a + u == a + Uniq(a) + tail;
  }

  lemma UnionAbsorbs(a: seq<Json>, tail: seq<Json>)
    requires Distinct(Uniq(a) + tail) && References(a) == 0
    ensures Uniq(a + Uniq(a) + tail) == Uniq(a) + tail
  {
    HeadIsScalar(a);
    var head := Uniq(a);
    UniqAbsorbsSeen(a, head);
    TailIsNew(head, tail);
    UniqKeepsNew(a + head, tail);
  }

  lemma HeadIsScalar(a: seq<Json>)
    requires References(a) == 0
    ensures AllSeen(Uniq(a), Uniq(a))
  {
    UniqKeepsReferences(a);
    NoReferences(Uniq(a));
  }

  lemma TailIsNew(head: seq<Json>, tail: seq<Json>)
    requires Distinct(head + tail)
    ensures AllNew(head, tail)
  {
    var u := head + tail;
    forall i | 0 <= i < |tail| && !IsReference(tail[i]) ensures tail[i] !in head + tail[..i] {
      assert u[|head| + i] == tail[i];
      assert head + tail[..i] == u[..|head| + i];
    }
  }

  ghost predicate AllSeen(u: seq<Json>, seen: seq<Json>)
  {
    forall i :: 0 <= i < |seen| ==> seen[i] in u && !IsReference(seen[i])
  }

  ghost predicate AllNew(u: seq<Json>, tail: seq<Json>)
  {
    forall i :: 0 <= i < |tail| ==> IsReference(tail[i]) || tail[i] !in u + tail[..i]
  }

  lemma AllNewPrefix(u: seq<Json>, tail: seq<Json>)
    requires AllNew(u, tail) && |tail| > 0
    ensures AllNew(u, tail[..|tail| - 1])
  {
    var rest := tail[..|tail| - 1];
    forall i | 0 <= i < |rest| ensures IsReference(rest[i]) || rest[i] !in u + rest[..i] {
      assert rest[..i] == tail[..i];
    }
  }

  /** Appending scalars already seen changes nothing. */
  lemma {:induction false} UniqAbsorbsSeen(a: seq<Json>, seen: seq<Json>)
    requires AllSeen(Uniq(a), seen)
    ensures Uniq(a + seen) == Uniq(a)
  {
    if |seen| == 0 {
      assert a + seen == a;
    } else {
      var rest, last := seen[..|seen| - 1], seen[|seen| - 1];
      UniqAbsorbsSeen(a, rest);
      UniqAppend(a + rest, last);
      assert a + seen == a + rest + [last];
    }
  }

  /** Appending values not seen before appends them all. */
  lemma {:induction false} UniqKeepsNew(a: seq<Json>, tail: seq<Json>)
    requires AllNew(Uniq(a), tail)
    ensures Uniq(a + tail) == Uniq(a) + tail
  {
    if |tail| == 0 {
      assert a + tail == a;
    } else {
      var rest, last := tail[..|tail| - 1], tail[|tail| - 1];
      AllNewPrefix(Uniq(a), tail);
      UniqKeepsNew(a, rest);
      UniqAppend(a + rest, last);
      assert a + tail == a + rest + [last];
      assert Uniq(a) + tail == Uniq(a) + rest + [last];
    }
  }

  lemma UniqAppend(items: seq<Json>, last: Json)
    ensures Uniq(items + [last]) ==
            if !IsReference(last) && last in Uniq(items) then Uniq(items) else Uniq(items) + [last]
  {
    assert (items + [last])[..|items|] == items;
  }

  // ----- Copies -----

  /** Merging into nothing copies the source as it is, repetitions in arrays included. */
  lemma {:induction false} CopyIsIdentity(c: Customizer, key: string, source: Json)
    requires Mergeable(c, key, Undefined, source)
    ensures MergeField(c, key, Undefined, source) == source
    decreases source
  {
    match source
    case Arr(items) =>
      forall i | 0 <= i < |items| ensures MergeField(c, "", Undefined, items[i]) == items[i] {
        CopyIsIdentity(c, "", items[i]);
      }
    case Obj(fields) =>
      forall k | k in fields ensures MergeField(c, k, Undefined, fields[k]) == fields[k] {
        CopyIsIdentity(c, k, fields[k]);
      }
    case _ =>
  }

  lemma CopiedArray(c: Customizer, key: string, stored: Json, source: Json)
    requires Mergeable(c, key, stored, source) && source.Arr? && !stored.Arr?
    requires key != ETAG && !(c == UnionKnownPages && key == KNOWN_PAGES)
    ensures MergeField(c, key, stored, source) == source
  {
    forall i | 0 <= i < |source.items|
      ensures MergeField(c, "", Undefined, source.items[i]) == source.items[i]
    {
      CopyIsIdentity(c, "", source.items[i]);
    }
  }

  // ----- Normalization -----

  lemma {:induction false} NormalizeTwice(v: Json)
    ensures Normalize(Normalize(v)) == Normalize(v)
  {
    if v.Obj? {
      forall k | k in v.fields ensures Normalize(Normalize(v.fields[k])) == Normalize(v.fields[k]) {
        NormalizeTwice(v.fields[k]);
      }
    }
  }

  /** No plain-object position of the value holds null. */
  ghost predicate NoNull(v: Json)
  {
    v != Null && (v.Obj? ==> forall k :: k in v.fields ==> NoNull(v.fields[k]))
  }

  lemma {:induction false} NormalizeLeavesNoNull(v: Json)
    ensures NoNull(Normalize(v))
  {
    if v.Obj? {
      forall k | k in v.fields ensures NoNull(Normalize(v.fields[k])) {
        NormalizeLeavesNoNull(v.fields[k]);
      }
    }
  }

  // ----- Idempotence -----

  /**
   What makes a merge repeatable: no stored null `_etag` meets a value, arrays that meet no stored array
   have distinct scalars, and the pages of a union are scalars.
   */
  predicate Stable(c: Customizer, key: string, stored: Json, source: Json)
    decreases source
  {
    if c == UnionKnownPages && key == KNOWN_PAGES then References(Elements(source)) == 0
    else if key == ETAG then stored != Null || source in {Undefined, Null}
    else if stored.Arr? then true
    else
      match source
      case Arr(items) => Uniq(items) == items
      case Obj(fields) => forall k :: k in fields ==> Stable(c, k, Get(Base(stored), k), fields[k])
      case _ => true
  }

  /** Merging the same source into the merged value succeeds and changes nothing. */
  predicate Repeats(c: Customizer, key: string, stored: Json, source: Json)
  {
    var once := Normalize(MergeField(c, key, stored, source));
    Mergeable(c, key, once, source) && Normalize(MergeField(c, key, once, source)) == once
  }

  /** Merging the same source again succeeds and changes nothing exactly when the first merge was stable. */
  lemma {:induction false} MergeAgain(c: Customizer, key: string, stored: Json, source: Json)
    requires Mergeable(c, key, stored, source)
    ensures Repeats(c, key, stored, source) <==> Stable(c, key, stored, source)
    decreases source
  {
    if c == UnionKnownPages && key == KNOWN_PAGES {
      UnionTwice(Elements(source), Elements(stored));
    } else if key == ETAG {
      EtagAgain(c, stored, source);
    } else if source.Obj? && !stored.Arr? {
      RepeatsKeyByKey(c, key, stored, source);
      forall k | k in source.fields
        ensures Repeats(c, k, Get(Base(stored), k), source.fields[k])
                <==> Stable(c, k, Get(Base(stored), k), source.fields[k])
      {
        MergeAgain(c, k, Get(Base(stored), k), source.fields[k]);
      }
    } else {
      ValueAgain(c, key, stored, source);
    }
  }

  /** Repeating a whole update changes nothing exactly when it was stable. */
  lemma UpdateAgain(c: Customizer, stored: Fields, source: Fields)
    requires Mergeable(c, "", Obj(stored), Obj(source))
    ensures var once := Update(c, stored, source);
            Mergeable(c, "", Obj(once), Obj(source)) && Update(c, once, source) == once
            <==> Stable(c, "", Obj(stored), Obj(source))
  {
    MergeAgain(c, "", Obj(stored), Obj(source));
    assert Obj(Update(c, stored, source)) == Normalize(MergeField(c, "", Obj(stored), Obj(source)));
  }

  lemma ValueAgain(c: Customizer, key: string, stored: Json, source: Json)
    requires Mergeable(c, key, stored, source) && (source.Obj? ==> stored.Arr?)
    requires key != ETAG && !(c == UnionKnownPages && key == KNOWN_PAGES)
    ensures Repeats(c, key, stored, source) <==> Stable(c, key, stored, source)
  {
    if source == Undefined {
      NormalizeTwice(stored);
    } else if source.Arr? && !stored.Arr? {
      CopiedArray(c, key, stored, source);
    }
  }

  lemma EtagAgain(c: Customizer, stored: Json, source: Json)
    requires Mergeable(c, ETAG, stored, source)
    ensures Repeats(c, ETAG, stored, source) <==> Stable(c, ETAG, stored, source)
  {
    NormalizeTwice(stored);
    if stored == Undefined {
      CopyIsIdentity(c, ETAG, source);
      NormalizeTwice(source);
    } else if stored == Null {
      EtagOverNull(c, source);
    }
  }

  lemma EtagOverNull(c: Customizer, source: Json)
    ensures Mergeable(c, ETAG, Undefined, source) && Normalize(MergeField(c, ETAG, Undefined, source)) == Undefined
            <==> source in {Undefined, Null}
  {
  }

  lemma RepeatsKeyByKey(c: Customizer, key: string, stored: Json, source: Json)
    requires source.Obj? && !stored.Arr? && key != ETAG && !(c == UnionKnownPages && key == KNOWN_PAGES)
    ensures Repeats(c, key, stored, source) <==>
            forall k :: k in source.fields ==> Repeats(c, k, Get(Base(stored), k), source.fields[k])
  {
    var once := Normalize(MergeField(c, key, stored, source));
    ObjectMerge(c, key, stored, source);
    ObjectMerge(c, key, once, source);
    RepeatsFromShape(c, Base(stored), source.fields, once, Normalize(MergeField(c, key, once, source)));
  }

  lemma RepeatsFromShape(c: Customizer, base: Fields, fields: Fields, once: Json, twice: Json)
    requires Shaped(c, base, fields, once) && Shaped(c, once.fields, fields, twice)
    ensures twice == once && (forall k :: k in fields ==> Mergeable(c, k, once.fields[k], fields[k]))
            <==> forall k :: k in fields ==> Repeats(c, k, Get(base, k), fields[k])
    ensures forall k :: k in fields ==> Get(once.fields, k) == once.fields[k]
  {
    forall k | k in fields
      ensures Get(once.fields, k) == once.fields[k]
      ensures Mergeable(c, k, once.fields[k], fields[k]) && twice.fields[k] == once.fields[k]
              <==> Repeats(c, k, Get(base, k), fields[k])
    {
    }
    SameOutside(c, base, fields, once, twice);
  }

  lemma SameOutside(c: Customizer, base: Fields, fields: Fields, once: Json, twice: Json)
    requires Shaped(c, base, fields, once) && Shaped(c, once.fields, fields, twice)
    ensures twice == once <==> forall k :: k in fields ==> twice.fields[k] == once.fields[k]
  {
    forall k | k in base && k !in fields ensures twice.fields[k] == once.fields[k] {
      NormalizeTwice(base[k]);
    }
    if forall k :: k in fields ==> twice.fields[k] == once.fields[k] {
      assert twice.fields == once.fields;
    }
  }

  /** The result of a normalized merge of objects, key by key. */
  ghost predicate Shaped(c: Customizer, base: Fields, fields: Fields, r: Json)
  {
    && r.Obj? && r.fields.Keys == base.Keys + fields.Keys
    && (forall k :: k in fields ==> r.fields[k] == Normalize(MergeField(c, k, Get(base, k), fields[k])))
    && (forall k :: k in base && k !in fields ==> r.fields[k] == Normalize(base[k]))
  }

  lemma ObjectMerge(c: Customizer, key: string, stored: Json, source: Json)
    requires source.Obj? && !stored.Arr? && (key == ETAG ==> stored == Undefined)
    requires !(c == UnionKnownPages && key == KNOWN_PAGES)
    ensures Shaped(c, Base(stored), source.fields, Normalize(MergeField(c, key, stored, source)))
  {
  }

  // ----- What each path of the document holds afterwards -----

  /** The value at a path of keys through plain objects; undefined where there is none. */
  function Lookup(v: Json, path: seq<string>): Json
  {
    if |path| == 0 then v
    else if v.Obj? && path[0] in v.fields then Lookup(v.fields[path[0]], path[1..])
    else Undefined
  }

  /** The source says something about the path. An undefined source value speaks about stored arrays only. */
  predicate Touches(stored: Json, source: Json, path: seq<string>)
    decreases |path|
  {
    if source.Obj? && |path| > 0 then
      path[0] in source.fields && Touches(Get(Base(stored), path[0]), source.fields[path[0]], path[1..])
    else source != Undefined || (stored.Arr? && |path| == 0)
  }

  /**
   An undefined source property is skipped, as the method's comment says, exactly when it meets no nonempty array
   (a stored `_etag` stays in any case); under the pages of a union it makes the merge throw.
   */
  lemma UndefinedIsSkipped(c: Customizer, key: string, stored: Json)
    ensures Mergeable(c, key, stored, Undefined) <==> !(c == UnionKnownPages && key == KNOWN_PAGES)
    ensures Mergeable(c, key, stored, Undefined) ==>
              (MergeField(c, key, stored, Undefined) == stored <==> key == ETAG || !stored.Arr? || stored.items == [])
  {
  }

  /** Whatever the source does not mention stays as it was, apart from null normalization. */
  lemma {:induction false} UntouchedPathsStay(c: Customizer, key: string, stored: Json, source: Json, path: seq<string>)
    requires Mergeable(c, key, stored, source)
    requires !Touches(stored, source, path)
    ensures Lookup(Normalize(MergeField(c, key, stored, source)), path) == Normalize(Lookup(stored, path))
    decreases |path|
  {
    if source.Obj? {
      if key == ETAG && stored != Undefined {
        LookupNormalized(stored, path);
      } else if !stored.Arr? {
        var base := Base(stored);
        if path[0] in source.fields {
          UntouchedPathsStay(c, path[0], Get(base, path[0]), source.fields[path[0]], path[1..]);
          LookupUndefined(path[1..]);
        } else if path[0] in base {
          LookupNormalized(base[path[0]], path[1..]);
        }
      }
    } else {
      LookupNormalized(stored, path);
    }
  }

  lemma LookupUndefined(path: seq<string>)
    ensures Lookup(Undefined, path) == Undefined
  {
  }

  lemma {:induction false} LookupNormalized(v: Json, path: seq<string>)
    ensures Lookup(Normalize(v), path) == Normalize(Lookup(v, path))
    decreases |path|
  {
    if |path| > 0 && v.Obj? && path[0] in v.fields {
      LookupNormalized(v.fields[path[0]], path[1..]);
    }
  }

  /** The path leads through a stored `_etag`, a stored array or a union of pages. */
  predicate Guarded(c: Customizer, key: string, stored: Json, path: seq<string>)
    decreases |path|
  {
    || (c == UnionKnownPages && key == KNOWN_PAGES)
    || (key == ETAG && stored != Undefined)
    || stored.Arr?
    || (|path| > 0 && Guarded(c, path[0], Get(Base(stored), path[0]), path[1..]))
  }

  /**
   Everywhere else the source wins, its nulls becoming undefined: scalars overwrite, arrays that meet no array and
   objects that meet no object are taken as they are.
   */
  lemma {:induction false} SourceWins(c: Customizer, key: string, stored: Json, source: Json, path: seq<string>)
    requires Mergeable(c, key, stored, source) && !Guarded(c, key, stored, path)
    requires Lookup(source, path) != Undefined && !(Lookup(source, path).Obj? && Lookup(stored, path).Obj?)
    ensures Lookup(Normalize(MergeField(c, key, stored, source)), path) == Normalize(Lookup(source, path))
    decreases |path|
  {
    if |path| == 0 {
      assert MergeField(c, key, stored, source) == MergeField(c, key, Undefined, source);
      CopyIsIdentity(c, key, source);
    } else {
      LookupBelow(stored, path);
      SourceWins(c, path[0], Get(Base(stored), path[0]), source.fields[path[0]], path[1..]);
    }
  }

  lemma LookupBelow(v: Json, path: seq<string>)
    requires |path| > 0
    ensures Lookup(v, path) == Lookup(Get(Base(v), path[0]), path[1..])
  {
    LookupUndefined(path[1..]);
  }

  /** No key of the path, nor the key the value stands under, has a rule of its own. */
  ghost predicate Ordinary(c: Customizer, key: string, path: seq<string>)
  {
    && OrdinaryKey(c, key)
    && forall i :: 0 <= i < |path| ==> OrdinaryKey(c, path[i])
  }

  predicate OrdinaryKey(c: Customizer, key: string)
  {
    key != ETAG && !(c == UnionKnownPages && key == KNOWN_PAGES)
  }

  /** A stored array is replaced: whatever the source has there in place of it counts as a set of elements, each kept once. */
  lemma {:induction false} ArraysAreReplaced(c: Customizer, key: string, stored: Json, source: Json, path: seq<string>)
    requires Ordinary(c, key, path) && Lookup(stored, path).Arr? && Lookup(source, path) != Undefined
    ensures var r, elements := Lookup(Normalize(MergeField(c, key, stored, source)), path), Elements(Lookup(source, path));
            && r == Arr(Uniq(elements)) && Distinct(r.items)
            && forall v :: v in r.items <==> v in elements
    decreases |path|
  {
    var elements := Elements(Lookup(source, path));
    UniqIsDistinct(elements);
    forall v ensures v in Uniq(elements) <==> v in elements {
      UniqMembers(elements, v);
    }
    if |path| > 0 {
      assert OrdinaryKey(c, path[0]);
      assert forall i :: 0 <= i < |path| - 1 ==> path[1..][i] == path[i + 1];
      ArraysAreReplaced(c, path[0], stored.fields[path[0]], source.fields[path[0]], path[1..]);
    }
  }

  /**
   An array of the source ends up without repeated scalars, as the method's comment says, exactly when an array is
   stored there or the source's own scalars are distinct: one that meets no array is copied as it is.
   */
  lemma DeduplicatedIff(c: Customizer, key: string, stored: Json, source: Json)
    requires Mergeable(c, key, stored, source) && source.Arr? && OrdinaryKey(c, key)
    ensures MergeField(c, key, stored, source) == if stored.Arr? then Arr(Uniq(source.items)) else source
    ensures Distinct(MergeField(c, key, stored, source).items) <==> stored.Arr? || Distinct(source.items)
  {
    if stored.Arr? {
      UniqIsDistinct(source.items);
    } else {
      CopiedArray(c, key, stored, source);
    }
  }

  /** What spreading a value yields: the elements of an array, the characters of a string. */
  ghost predicate IsPart(v: Json, whole: Json)
  {
    || (whole.Arr? && v in whole.items)
    || (whole.Str? && exists i :: 0 <= i < |whole.s| && v == Str([whole.s[i]]))
  }

  lemma ElementsAreParts(whole: Json, v: Json)
    ensures v in Elements(whole) <==> IsPart(v, whole)
  {
    if whole.Str? {
      forall i | 0 <= i < |whole.s| ensures Elements(whole)[i] == Str([whole.s[i]]) {
      }
    }
  }

  /** The pages of a website update merge exactly when both sides are arrays or strings; the result has the parts of both. */
  lemma UnionOfParts(stored: Json, source: Json, v: Json)
    ensures Mergeable(UnionKnownPages, KNOWN_PAGES, stored, source)
            <==> (stored.Arr? || stored.Str?) && (source.Arr? || source.Str?)
    ensures var r := MergeField(UnionKnownPages, KNOWN_PAGES, stored, source);
            r.Arr? && (v in r.items <==> IsPart(v, source) || IsPart(v, stored))
  {
    UniqMembers(Elements(source) + Elements(stored), v);
    ElementsAreParts(source, v);
    ElementsAreParts(stored, v);
  }

  /** A string that meets a stored array is taken apart into its characters, each once. */
  lemma StringOverArray(c: Customizer, key: string, stored: Json, source: Json, v: Json)
    requires OrdinaryKey(c, key) && stored.Arr? && source.Str?
    ensures var r := MergeField(c, key, stored, source);
            r.Arr? && Distinct(r.items) && (v in r.items <==> exists i :: 0 <= i < |source.s| && v == Str([source.s[i]]))
  {
    UniqIsDistinct(Elements(source));
    UniqMembers(Elements(source), v);
    ElementsAreParts(source, v);
  }

  /** A stored `_etag` survives at every depth at which its object does. */
  lemma {:induction false} EtagsStay(c: Customizer, key: string, stored: Json, source: Json, path: seq<string>)
    requires Mergeable(c, key, stored, source)
    requires Lookup(stored, path + [ETAG]) !in {Undefined, Null}
    requires Lookup(Normalize(MergeField(c, key, stored, source)), path).Obj?
    ensures Lookup(Normalize(MergeField(c, key, stored, source)), path + [ETAG])
            == Normalize(Lookup(stored, path + [ETAG]))
    decreases |path|
  {
    var whole := path + [ETAG];
    if (key == ETAG && stored != Undefined) || source == Undefined {
      LookupNormalized(stored, whole);
    } else if source.Obj? && stored.Obj? {
      var k := whole[0];
      if |path| == 0 {
        assert whole[1..] == [];
      } else {
        assert whole[1..] == path[1..] + [ETAG];
        if k in source.fields {
          EtagsStay(c, k, stored.fields[k], source.fields[k], path[1..]);
        }
      }
      if k !in source.fields {
        LookupNormalized(stored.fields[k], whole[1..]);
      }
    }
  }

  /** The pages of an update are those of the request, then the stored ones, without repetitions. */
  lemma KnownPagesUnion(stored: Fields, source: Fields)
    requires KNOWN_PAGES in source
    ensures var pages := Update(UnionKnownPages, stored, source)[KNOWN_PAGES];
            && pages == Arr(Uniq(Elements(source[KNOWN_PAGES]) + Elements(Get(stored, KNOWN_PAGES))))
            && Distinct(pages.items)
            && Uniq(Elements(source[KNOWN_PAGES])) <= pages.items
            && (forall v :: v in pages.items <==>
                  v in Elements(source[KNOWN_PAGES]) || v in Elements(Get(stored, KNOWN_PAGES)))
  {
    var a, b := Elements(source[KNOWN_PAGES]), Elements(Get(stored, KNOWN_PAGES));
    ObjectMerge(UnionKnownPages, "", Obj(stored), Obj(source));
    UniqIsDistinct(a + b);
    UniqPrefix(a, b);
    forall v ensures v in Uniq(a + b) <==> v in a || v in b {
      UniqMembers(a + b, v);
    }
  }
}
