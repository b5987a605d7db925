/**
 The hash set of packages/common/src/hash-set.ts, which is its own iterator: `next` walks a snapshot of the
 keys taken when a pass begins.

 The object behind it is a map with its keys in insertion order; a value may itself be undefined (None).
 Keys that JavaScript would treat as array indices are not modelled: those come first, in numeric order.
 */
module HashSet {
  import opened Wrappers
  import opened Sequences

  // ----- The set as a value -----

  ghost predicate NoRepeats(s: seq<string>)
  {
    forall i, j :: 0 <= i < j < |s| ==> s[i] != s[j]
  }

  /** Keys in insertion order, their values, and the iterator: the snapshot of a pass and how far it got. */
  datatype Contents<T> = Contents(
    order: seq<string>,
    values: map<string, Option<T>>,
    snapshot: Option<seq<string>>,
    pointer: nat)
  {
    ghost predicate Valid()
    {
      && NoRepeats(order)
      && (forall k :: k in order <==> k in values)
      && (snapshot.Some? ==>
            pointer <= |snapshot.value| && NoRepeats(snapshot.value))
    }

    /** The value under a key, or undefined. */
    function Get(key: string): Option<T>
    {
      if key in values then values[key] else None
    }

    /** The keys the current pass has yet to visit: all of them when no pass is under way. */
    function Ahead(): seq<string>
    {
      if snapshot.None? then order
      else if pointer <= |snapshot.value| then snapshot.value[pointer..]
      else []
    }
  }

  /** The values under the keys, undefined where a key has been removed. */
  function ValuesAt<T>(values: map<string, Option<T>>, keys: seq<string>): seq<Option<T>>
  {
    if |keys| == 0 then []
    else [if keys[0] in values then values[keys[0]] else None] + ValuesAt(values, keys[1..])
  }

  datatype Operation<T> = Add(key: string, value: Option<T>) | Remove(key: string) | Next

  function Without(order: seq<string>, key: string): seq<string>
  {
    if |order| == 0 then []
    else if order[|order| - 1] == key then Without(order[..|order| - 1], key)
    else Without(order[..|order| - 1], key) + [order[|order| - 1]]
  }

  function Apply<T>(c: Contents<T>, op: Operation<T>): Contents<T>
  {
    match op
    case Add(key, value) =>
      c.(order := if key in c.values then c.order else c.order + [key], values := c.values[key := value])
    case Remove(key) => c.(order := Without(c.order, key), values := c.values - {key})
    case Next =>
      if c.Ahead() == [] then c.(snapshot := None, pointer := if c.snapshot.None? then 0 else c.pointer)
      else c.(snapshot := Some(if c.snapshot.None? then c.order else c.snapshot.value),
              pointer := if c.snapshot.None? then 1 else c.pointer + 1)
  }

  lemma {:induction false} WithoutMembers(order: seq<string>, key: string, k: string)
    ensures k in Without(order, key) <==> k in order && k != key
  {
    if |order| > 0 {
      WithoutMembers(order[..|order| - 1], key, k);
      assert order == order[..|order| - 1] + [order[|order| - 1]];
    }
  }

  lemma {:induction false} WithoutNoRepeats(order: seq<string>, key: string)
    requires NoRepeats(order)
    ensures NoRepeats(Without(order, key))
  {
    if |order| > 0 {
      var rest := order[..|order| - 1];
      WithoutNoRepeats(rest, key);
      WithoutMembers(rest, key, order[|order| - 1]);
    }
  }

  lemma ApplyKeepsValid<T>(c: Contents<T>, op: Operation<T>)
    requires c.Valid()
    ensures Apply(c, op).Valid()
  {
    match op
    case Remove(key) =>
      WithoutNoRepeats(c.order, key);
      forall k ensures k in Without(c.order, key) <==> k in c.values - {key} { WithoutMembers(c.order, key, k); }
    case Add(key, value) =>
      var next := Apply(c, op);
      forall k ensures k in next.order <==> k in next.values {
        assert k in c.order <==> k in c.values;
      }
    case Next =>
  }

  // ----- The class -----

  class HashSet<T> {
    var pointer: nat
    var keysSnapshot: Option<seq<string>>
    var order: seq<string>
    var dictionary: map<string, Option<T>>

    constructor ()
      ensures State() == Contents([], map[], None, 0) && State().Valid()
    {
      pointer := 0;
      keysSnapshot := None;
      order := [];
      dictionary := map[];
    }

    function State(): Contents<T>
      reads this
    {
      Contents(order, dictionary, keysSnapshot, pointer)
    }

    method AddKey(key: string, value: Option<T>)
      requires State().Valid()
      modifies this
      ensures State() == Apply(old(State()), Add(key, value)) && State().Valid()
    {
      ApplyKeepsValid(State(), Add(key, value));
      if key !in dictionary {
        order := order + [key];
      }
      dictionary := dictionary[key := value];
    }

    method RemoveKey(key: string)
      requires State().Valid()
      modifies this
      ensures State() == Apply(old(State()), Remove(key)) && State().Valid()
    {
      ApplyKeepsValid(State(), Remove(key));
      order := Without(order, key);
      dictionary := dictionary - {key};
    }

    /** A key whose value is undefined counts as absent. */
    method Has(key: string) returns (found: bool)
      ensures found <==> State().Get(key).Some?
    {
      found := key in dictionary && dictionary[key] != None;
    }

    /** The next value of the pass, or the end of it; the key is the one at the front of what is ahead. */
    method NextValue() returns (done: bool, value: Option<T>)
      requires State().Valid()
      modifies this`pointer, this`keysSnapshot
      ensures State() == Apply(old(State()), Operation.Next) && State().Valid()
      ensures done <==> old(State().Ahead()) == []
      ensures !done ==> value == State().Get(old(State().Ahead())[0]) && State().Ahead() == old(State().Ahead())[1..]
      ensures done ==> value == None && keysSnapshot == None
    {
      ApplyKeepsValid(State(), Operation.Next);
      if keysSnapshot == None {
        pointer := 0;
        keysSnapshot := Some(order);
      }
      if pointer < |keysSnapshot.value| {
        var key := keysSnapshot.value[pointer];
        pointer := pointer + 1;
        return false, if key in dictionary then dictionary[key] else None;
      }
      keysSnapshot := None;
      return true, None;
    }

    /** Array.from(this): the rest of the pass under way, or a whole pass; afterwards no pass is under way. */
    method Values() returns (values: seq<Option<T>>)
      requires State().Valid()
      modifies this`pointer, this`keysSnapshot
      ensures values == ValuesAt(dictionary, old(State().Ahead()))
      ensures State().Valid() && keysSnapshot == None
    {
      values := [];
      ghost var goal := ValuesAt(dictionary, State().Ahead());
      var done := false;
      while !done
        invariant State().Valid()
        invariant values + (if done then [] else ValuesAt(dictionary, State().Ahead())) == goal
        invariant done ==> keysSnapshot == None
        modifies this`pointer, this`keysSnapshot
        decreases !done, |State().Ahead()|
      {
        var value;
        ghost var before := values;
        done, value := NextValue();
        if !done {
          values := values + [value];
          Regroup(before, value, ValuesAt(dictionary, State().Ahead()));
        }
      }
    }
  }

  lemma {:induction false} ValuesAtIndex<T>(values: map<string, Option<T>>, keys: seq<string>, i: nat)
    requires i < |keys|
    ensures |ValuesAt(values, keys)| == |keys|
    ensures ValuesAt(values, keys)[i] == if keys[i] in values then values[keys[i]] else None
  {
    if i == 0 {
      if |keys| > 1 { ValuesAtIndex(values, keys[1..], 0); }
    } else {
      ValuesAtIndex(values, keys[1..], i - 1);
    }
  }

  // ----- One pass under any mix of operations -----

  function Run<T>(c: Contents<T>, ops: seq<Operation<T>>): Contents<T>
  {
    if |ops| == 0 then c else Apply(Run(c, ops[..|ops| - 1]), ops[|ops| - 1])
  }

  /** The value of the last operation on the key, if there is one: an addition's, or none after a removal. */
  function LastWrite<T>(ops: seq<Operation<T>>, key: string): Option<Option<T>>
  {
    if |ops| == 0 then None
    else
      match ops[|ops| - 1]
      case Add(k, value) => if k == key then Some(value) else LastWrite(ops[..|ops| - 1], key)
      case Remove(k) => if k == key then Some(None) else LastWrite(ops[..|ops| - 1], key)
      case Next => LastWrite(ops[..|ops| - 1], key)
  }

  /** After any operations a key has the value last written to it; iterating never changes it. */
  lemma {:induction false} LastWriteWins<T>(c: Contents<T>, ops: seq<Operation<T>>, key: string)
    ensures Run(c, ops).Get(key) == match LastWrite(ops, key)
                                    case Some(value) => value
                                    case None => c.Get(key)
  {
    if |ops| > 0 {
      LastWriteWins(c, ops[..|ops| - 1], key);
    }
  }

  /** Whether a key is there after the operations: the last one on it added it, or none touched it and it was there. */
  predicate Holds<T>(c: Contents<T>, ops: seq<Operation<T>>, key: string)
  {
    if |ops| == 0 then key in c.order
    else
      match ops[|ops| - 1]
      case Add(k, value) => k == key || Holds(c, ops[..|ops| - 1], key)
      case Remove(k) => k != key && Holds(c, ops[..|ops| - 1], key)
      case Next => Holds(c, ops[..|ops| - 1], key)
  }

  function IndexOf(s: seq<string>, key: string): (i: nat)
    requires key in s
    ensures i < |s| && s[i] == key
  {
    if s[|s| - 1] == key then |s| - 1 else IndexOf(s[..|s| - 1], key)
  }

  /** When a key that is there came in: at the first addition since it was last absent; before all, in their order, if it was there at first. */
  function Born<T>(c: Contents<T>, ops: seq<Operation<T>>, key: string): (t: int)
    requires Holds(c, ops, key)
    ensures t < |ops|
  {
    if |ops| == 0 then IndexOf(c.order, key) - |c.order|
    else
      var before := ops[..|ops| - 1];
      if Holds(c, before, key) then Born(c, before, key) else |ops| - 1
  }

  ghost predicate InBirthOrder<T>(c: Contents<T>, ops: seq<Operation<T>>, order: seq<string>)
  {
    && (forall k :: k in order ==> Holds(c, ops, k))
    && (forall i, j :: 0 <= i < j < |order| ==> Born(c, ops, order[i]) < Born(c, ops, order[j]))
  }

  /** After any operations the keys stand in the order in which they came in. */
  lemma {:induction false} KeysInBirthOrder<T>(c: Contents<T>, ops: seq<Operation<T>>)
    requires c.Valid()
    ensures Run(c, ops).Valid() && Ordered(c, ops, Run(c, ops).order)
  {
    if |ops| > 0 {
      var before, op := ops[..|ops| - 1], ops[|ops| - 1];
      KeysInBirthOrder(c, before);
      ApplyKeepsValid(Run(c, before), op);
      match op
      case Add(key, value) => AddKeepsOrder(c, ops, Run(c, before).order, key);
      case Remove(key) => RemoveKeepsOrder(c, ops, Run(c, before).order, key);
      case Next => SameKeepsOrder(c, ops, Run(c, before).order);
    }
  }

  /** The keys held are those of the order, and in birth order. */
  ghost predicate Ordered<T>(c: Contents<T>, ops: seq<Operation<T>>, order: seq<string>)
  {
    (forall k :: k in order <==> Holds(c, ops, k)) && InBirthOrder(c, ops, order)
  }

  lemma SameKeepsOrder<T>(c: Contents<T>, ops: seq<Operation<T>>, order: seq<string>)
    requires |ops| > 0 && ops[|ops| - 1].Next? && Ordered(c, ops[..|ops| - 1], order)
    ensures Ordered(c, ops, order)
  {
  }

  lemma AddKeepsOrder<T>(c: Contents<T>, ops: seq<Operation<T>>, order: seq<string>, key: string)
    requires |ops| > 0 && ops[|ops| - 1].Add? && ops[|ops| - 1].key == key && Ordered(c, ops[..|ops| - 1], order)
    ensures Ordered(c, ops, if key in order then order else order + [key])
  {
    var before := ops[..|ops| - 1];
    forall k | k in order ensures Holds(c, ops, k) && Born(c, ops, k) == Born(c, before, k) < |ops| - 1 {
      assert Holds(c, before, k);
    }
    assert key !in order ==> Born(c, ops, key) == |ops| - 1;
  }

  lemma RemoveKeepsOrder<T>(c: Contents<T>, ops: seq<Operation<T>>, order: seq<string>, key: string)
    requires |ops| > 0 && ops[|ops| - 1].Remove? && ops[|ops| - 1].key == key && Ordered(c, ops[..|ops| - 1], order)
    ensures Ordered(c, ops, Without(order, key))
  {
    var before, left := ops[..|ops| - 1], Without(order, key);
    forall k ensures k in left <==> k in order && k != key {
      WithoutMembers(order, key, k);
    }
    WithoutKeepsOrder(c, before, order, key);
    forall k | k in left ensures Holds(c, ops, k) && Born(c, ops, k) == Born(c, before, k) {
      assert Holds(c, before, k);
    }
  }

  lemma {:induction false} WithoutKeepsOrder<T>(c: Contents<T>, ops: seq<Operation<T>>, order: seq<string>, key: string)
    requires InBirthOrder(c, ops, order)
    ensures InBirthOrder(c, ops, Without(order, key))
  {
    if |order| > 0 {
      var rest, last := order[..|order| - 1], order[|order| - 1];
      assert forall k :: k in rest ==> k in order;
      WithoutKeepsOrder(c, ops, rest, key);
      forall k | k in Without(rest, key) ensures Holds(c, ops, k) && Born(c, ops, k) < Born(c, ops, last) {
        WithoutMembers(rest, key, k);
        var i :| 0 <= i < |rest| && rest[i] == k;
        assert order[i] == k;
      }
    }
  }

  /** What an operation visits: nothing unless it is `next`, which visits a key or, with None, ends the pass. */
  function Visit<T>(c: Contents<T>, op: Operation<T>): seq<Option<string>>
  {
    if !op.Next? then [] else if c.Ahead() == [] then [None] else [Some(c.Ahead()[0])]
  }

  function Visits<T>(c: Contents<T>, ops: seq<Operation<T>>): seq<Option<string>>
  {
    if |ops| == 0 then []
    else Visits(c, ops[..|ops| - 1]) + Visit(Run(c, ops[..|ops| - 1]), ops[|ops| - 1])
  }

  /** The keys of a snapshot, as visits. */
  function AsVisits(keys: seq<string>): (r: seq<Option<string>>)
    ensures |r| == |keys|
  {
    seq(|keys|, i requires 0 <= i < |keys| => Some(keys[i]))
  }

  /** A pass over the keys is under way and has visited its first keys in order. */
  ghost predicate InPass<T>(keys: seq<string>, c: Contents<T>, visits: seq<Option<string>>)
  {
    c.Valid() && c.snapshot == Some(keys) && visits == AsVisits(keys[..c.pointer])
  }

  lemma PassGoesOn<T>(keys: seq<string>, c: Contents<T>, visits: seq<Option<string>>, op: Operation<T>)
    requires InPass(keys, c, visits) && None !in Visit(c, op)
    ensures InPass(keys, Apply(c, op), visits + Visit(c, op))
  {
    ApplyKeepsValid(c, op);
    if op.Next? {
      assert Visit(c, op)[0] == if c.Ahead() == [] then None else Some(c.Ahead()[0]);
      assert keys[..c.pointer + 1] == keys[..c.pointer] + [keys[c.pointer]];
    }
  }

  lemma PassBegins<T>(c: Contents<T>)
    requires c.Valid() && c.snapshot.None? && None !in Visit(c, Operation<T>.Next)
    ensures InPass(c.order, Apply(c, Operation<T>.Next), Visit(c, Operation<T>.Next))
  {
    ApplyKeepsValid(c, Operation<T>.Next);
    assert Visit(c, Operation<T>.Next)[0] == if c.Ahead() == [] then None else Some(c.Ahead()[0]);
    assert c.order[..1] == [c.order[0]];
  }

  /**
   During a pass the visited keys are the keys of its snapshot in order, whatever is added or removed
   meanwhile, and no key added meanwhile is visited.
   */
  lemma {:induction false} PassVisitsSnapshot<T>(c: Contents<T>, ops: seq<Operation<T>>)
    requires c.Valid() && c.snapshot.None?
    requires |ops| > 0 && ops[0].Next?
    requires None !in Visits(c, ops)
    ensures InPass(c.order, Run(c, ops), Visits(c, ops))
  {
    var before, op := ops[..|ops| - 1], ops[|ops| - 1];
    assert forall v :: v in Visits(c, before) || v in Visit(Run(c, before), op) ==> v in Visits(c, ops);
    if |ops| == 1 {
      assert [] + Visit(c, op) == Visit(c, op);
      PassBegins(c);
    } else {
      PassVisitsSnapshot(c, before);
      PassGoesOn(c.order, Run(c, before), Visits(c, before), op);
    }
  }

  /** Each key is visited once. */
  lemma PassVisitsOnce<T>(c: Contents<T>, ops: seq<Operation<T>>, i: nat, j: nat)
    requires c.Valid() && c.snapshot.None?
    requires |ops| > 0 && ops[0].Next?
    requires None !in Visits(c, ops)
    requires i < j < |Visits(c, ops)|
    ensures Visits(c, ops)[i] != Visits(c, ops)[j]
  {
    PassVisitsSnapshot(c, ops);
    assert Visits(c, ops)[i] == Some(c.order[i]) && Visits(c, ops)[j] == Some(c.order[j]);
  }

  /** The pass ends exactly when every key of the snapshot has been visited. */
  lemma PassEnds<T>(c: Contents<T>, ops: seq<Operation<T>>)
    requires c.Valid() && c.snapshot.None?
    requires |ops| > 0 && ops[0].Next? && None !in Visits(c, ops)
    ensures Visits(c, ops + [Operation.Next]) == Visits(c, ops) + [None] <==> Visits(c, ops) == AsVisits(c.order)
    ensures Visits(c, ops) == AsVisits(c.order) ==> Run(c, ops + [Operation.Next]).snapshot == None
  {
    PassVisitsSnapshot(c, ops);
    var all := ops + [Operation<T>.Next];
    assert all[..|all| - 1] == ops;
    var st := Run(c, ops);
    assert Visits(c, all) == Visits(c, ops) + Visit(st, Operation<T>.Next);
    assert st.Ahead() == c.order[st.pointer..];
    if st.pointer == |c.order| {
      assert c.order[..st.pointer] == c.order;
    } else {
      assert |Visits(c, ops)| == st.pointer < |AsVisits(c.order)|;
      assert Visits(c, all)[st.pointer] != None;
    }
  }
}
