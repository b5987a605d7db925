/**
 Read, merge, conditional write: mergeOrWriteDocument of cosmos-container-client.ts over readItem and
 upsertItem of cosmos-client-wrapper.ts, first as one call, then interleaved by any number of clients.

 What is assumed of the store: a successful upsert stamps the document with an `_etag` never used before,
 and an upsert with an IfMatch condition succeeds only if the stored `_etag` equals it. New etags are
 parameters of the steps.
 */
module UpdateProtocol {
  import opened Wrappers
  import opened Sequences
  import opened DocumentMerge
  import opened WireFormat

  const ID := "id"
  const PARTITION_KEY := "partitionKey"

  /** A document's partition and identifier. */
  type Address = (string, string)

  type Items = map<Address, Fields>

  // ----- Values on their way to the store -----

  /** assignPartitionKey */
  function AssignPartitionKey(item: Fields, partitionKey: string): Fields
  {
    if partitionKey == "" then item else item[PARTITION_KEY := Str(partitionKey)]
  }

  /** The document as the store keeps it. */
  function Stored(item: Fields, etag: string): Fields
  {
    Wire(Obj(item)).fields[ETAG := Str(etag)]
  }

  datatype Response = Response(statusCode: int, item: Option<Fields>)

  /** What a request is merged into: the document that was read, or a throwaway object when the read brought none. */
  function MergeTarget(read: Response): Fields
  {
    if read.item.Some? then read.item.value else map[]
  }

  predicate MergeThrows(read: Response, document: Fields, c: Customizer)
  {
    read.statusCode != 404 && !Mergeable(c, "", Obj(MergeTarget(read)), Obj(document))
  }

  /** The item mergeOrWriteDocument upserts after a read. What was merged into a throwaway object is not in it. */
  function ItemToWrite(read: Response, document: Fields, c: Customizer): Fields
  {
    if read.statusCode == 404 then document
    else if read.item.None? then map[]
    else Update(c, read.item.value, document)
  }

  /** The IfMatch condition of an upsert: the item's own `_etag`, if it has one. */
  function IfMatch(item: Fields): Option<Json>
  {
    if Get(item, ETAG) == Undefined then None else Some(item[ETAG])
  }

  predicate Admits(items: Items, address: Address, condition: Option<Json>)
  {
    condition.None? || (address in items && Get(items[address], ETAG) == condition.value)
  }

  /** The item that is sent to the store, unless the merge throws before. */
  function SentItem(read: Response, document: Fields, c: Customizer, partitionKey: string): Option<Fields>
  {
    if MergeThrows(read, document, c) then None
    else Some(AssignPartitionKey(ItemToWrite(read, document, c), partitionKey))
  }

  /**
   What is sent to the store after any read. The request's identifier is in it exactly when the read answered 404 or
   found a document the request merges into. After any other read a bare stub, unconditional and with nothing of the
   request in it, is sent exactly when the request merges into nothing.
   */
  lemma RequestIsWrittenIff(read: Response, document: Fields, c: Customizer, partitionKey: string)
    requires Get(document, ID).Str?
    requires read.item.Some? ==> read.statusCode == 200 && !Get(read.item.value, ID).Arr?
    ensures var sent := SentItem(read, document, c, partitionKey);
            && (sent.Some? && Get(sent.value, ID) == document[ID]
                <==> read.statusCode == 404 || (read.item.Some? && Mergeable(c, "", Obj(read.item.value), Obj(document))))
            && (sent.Some? && Get(sent.value, ID) != document[ID] ==>
                  sent.value == AssignPartitionKey(map[], partitionKey) && IfMatch(sent.value).None?)
            && (read.statusCode != 404 && read.item.None? ==> (sent.Some? <==> MergesAnywhere(document, c)))
  {
    if read.statusCode != 404 {
      if read.item.Some? {
        UpdateAt(c, read.item.value, document, ID);
      } else {
        MergesIntoEmpty(document, c);
      }
    }
  }

  /** The request merges into an empty document: plain updates do, website updates only without any knownPages. */
  predicate MergesAnywhere(document: Fields, c: Customizer)
  {
    c == Plain || NoPagesBelow(Obj(document))
  }

  lemma MergesIntoEmpty(document: Fields, c: Customizer)
    ensures Mergeable(c, "", Obj(map[]), Obj(document)) <==> MergesAnywhere(document, c)
  {
    MergesIntoNothing(c, "", Obj(document));
  }

  /** After a successful read the condition is the `_etag` that was read, whatever the request carries. */
  lemma ConditionIsReadEtag(item: Fields, document: Fields, c: Customizer, partitionKey: string, etag: string)
    requires Get(item, ETAG) == Str(etag)
    ensures IfMatch(AssignPartitionKey(ItemToWrite(Response(200, Some(item)), document, c), partitionKey))
            == Some(Str(etag))
  {
    UpdateAt(c, item, document, ETAG);
  }

  /** An update, key by key. */
  lemma UpdateAt(c: Customizer, stored: Fields, source: Fields, k: string)
    ensures Get(Update(c, stored, source), k) ==
            if k in source then Normalize(MergeField(c, k, Get(stored, k), source[k])) else Normalize(Get(stored, k))
    ensures k in Update(c, stored, source) <==> k in stored || k in source
  {
    ObjectMerge(c, "", Obj(stored), Obj(source));
  }

  // ----- One call -----

  datatype Outcome =
    | MissingId
    | MissingPartitionKey
    | TypeError
    | Failed(statusCode: int)
    | Returned(response: Response)

  /** The effective partition key, if the call or the document gives one. */
  function EffectivePartitionKey(document: Fields, partitionKey: Option<string>): Option<string>
  {
    if partitionKey.Some? then partitionKey
    else if Get(document, PARTITION_KEY).Str? then Some(document[PARTITION_KEY].s)
    else None
  }

  /** The order the method's comment gives: the document's key first. */
  function DocumentedPartitionKey(document: Fields, partitionKey: Option<string>): Option<string>
  {
    if Get(document, PARTITION_KEY).Str? then Some(document[PARTITION_KEY].s) else partitionKey
  }

  /** Comment and code choose one key exactly when one of the two is missing or both are equal. */
  lemma PartitionKeyOrder(document: Fields, partitionKey: Option<string>)
    ensures EffectivePartitionKey(document, partitionKey) == DocumentedPartitionKey(document, partitionKey)
            <==> partitionKey.None? || !Get(document, PARTITION_KEY).Str? || document[PARTITION_KEY] == Str(partitionKey.value)
  {
  }

  class CosmosContainerClient {
    var items: Items

    constructor ()
      ensures items == map[]
    {
      items := map[];
    }

    /** readItem without throwing; a fault is the status code of a failed operation. */
    method ReadItem(address: Address, fault: Option<int>) returns (response: Response)
      ensures response == ReadResponse(items, address, fault)
    {
      if fault.Some? {
        response := Response(fault.value, None);
      } else if address in items {
        response := Response(200, Some(items[address]));
      } else {
        response := Response(404, None);
      }
    }

    /** upsertItem: a failed precondition is an error response, thrown when the caller asks for it. */
    method UpsertItem(item: Fields, id: string, partitionKey: string, throwIfNotSuccess: bool, newEtag: string)
      returns (outcome: Outcome)
      modifies this
      ensures var sent := AssignPartitionKey(item, partitionKey);
              if Admits(old(items), (partitionKey, id), IfMatch(sent)) then
                items == old(items)[(partitionKey, id) := Stored(sent, newEtag)]
                && outcome == Returned(Response(200, Some(Stored(sent, newEtag))))
              else
                items == old(items)
                && outcome == if throwIfNotSuccess then Failed(412) else Returned(Response(412, None))
    {
      var sent := item;
      if partitionKey != "" {
        sent := sent[PARTITION_KEY := Str(partitionKey)];
      }
      var condition := IfMatch(sent);
      if condition.Some? && !(((partitionKey, id) in items) && Get(items[(partitionKey, id)], ETAG) == condition.value) {
        if throwIfNotSuccess {
          return Failed(412);
        }
        return Returned(Response(412, None));
      }
      var kept := Stored(sent, newEtag);
      items := items[(partitionKey, id) := kept];
      outcome := Returned(Response(200, Some(kept)));
    }

    /**
     mergeOrWriteDocument with no other writer between its read and its write. It stores the update of the stored
     document, or the document itself where there is none. It fails when the merge throws and when the document
     brings an `_etag` and none is stored; a failed read ends in a stub or in the TypeError of the merge.
     */
    method MergeOrWriteDocument(document: Fields, partitionKey: Option<string>, throwIfNotSuccess: bool,
                                c: Customizer, fault: Option<int>, newId: string, newEtag: string)
      returns (outcome: Outcome)
      requires Get(document, ID).Str? || Get(document, ID) == Undefined
      requires forall address :: address in items ==> Get(items[address], ETAG).Str?
      modifies this
      ensures Get(document, ID) == Undefined ==> outcome == MissingId && items == old(items)
      ensures Get(document, ID) != Undefined && EffectivePartitionKey(document, partitionKey).None? ==>
                outcome == MissingPartitionKey && items == old(items)
      ensures Get(document, ID) != Undefined && EffectivePartitionKey(document, partitionKey).Some? ==>
                var key := EffectivePartitionKey(document, partitionKey).value;
                var address := (key, document[ID].s);
                if fault == Some(404) || (fault.None? && address !in old(items)) then
                  // no document was found: the request itself is written, under its own condition if it has one
                  if Admits(old(items), address, IfMatch(document)) then
                    var kept := Stored(AssignPartitionKey(document, key), newEtag);
                    items == old(items)[address := kept] && outcome == Returned(Response(200, Some(kept)))
                  else
                    items == old(items)
                    && outcome == if throwIfNotSuccess then Failed(412) else Returned(Response(412, None))
                else if fault.Some? && !MergesAnywhere(document, c) then
                  outcome == TypeError && items == old(items)
                else if fault.Some? then
                  var stub := Stored(AssignPartitionKey(map[], key), newEtag);
                  items == old(items)[(key, newId) := stub] && outcome == Returned(Response(200, Some(stub)))
                else if !Mergeable(c, "", Obj(old(items)[address]), Obj(document)) then
                  outcome == TypeError && items == old(items)
                else
                  var kept := Stored(AssignPartitionKey(Update(c, old(items)[address], document), key), newEtag);
                  items == old(items)[address := kept] && outcome == Returned(Response(200, Some(kept)))
      ensures forall address :: address in items ==> Get(items[address], ETAG).Str?
    {
      if Get(document, ID) == Undefined {
        return MissingId;
      }
      var effective := EffectivePartitionKey(document, partitionKey);
      if effective.None? {
        return MissingPartitionKey;
      }
      var address := (effective.value, document[ID].s);
      var response := ReadItem(address, fault);
      if response.statusCode == 404 {
        outcome := UpsertItem(document, address.1, effective.value, throwIfNotSuccess, newEtag);
        return;
      }
      MergesIntoEmpty(document, c);
      if MergeThrows(response, document, c) {
        return TypeError;
      }
      var normalized := ItemToWrite(response, document, c);
      if response.item.Some? && fault.None? {
        ConditionIsReadEtag(response.item.value, document, c, effective.value, response.item.value[ETAG].s);
        outcome := UpsertItem(normalized, address.1, effective.value, throwIfNotSuccess, newEtag);
      } else {
        // a stub without an identifier is stored under a generated one
        outcome := UpsertItem(normalized, newId, effective.value, throwIfNotSuccess, newEtag);
      }
    }
  }

  function ReadResponse(items: Items, address: Address, fault: Option<int>): Response
  {
    if fault.Some? then Response(fault.value, None)
    else if address in items then Response(200, Some(items[address]))
    else Response(404, None)
  }

  // ----- Any number of clients -----

  datatype Request = Request(address: Address, document: Fields, customizer: Customizer)

  /** A client between its read and its write. */
  datatype Client = Client(request: Request, read: Response)

  /** Besides the store, the etags issued so far and, per document, the acknowledged requests in commit order. */
  datatype State = State(items: Items, issued: set<string>, clients: map<nat, Client>, acked: map<Address, seq<Request>>)

  datatype Event =
    | Read(client: nat, request: Request)
    | Write(client: nat, newEtag: string)
    | Abandon(client: nat)

  function Acked(st: State, address: Address): seq<Request>
  {
    if address in st.acked then st.acked[address] else []
  }

  /** The item a client writes. */
  function Sent(cl: Client): Fields
  {
    AssignPartitionKey(ItemToWrite(cl.read, cl.request.document, cl.request.customizer), cl.request.address.0)
  }

  predicate Commits(st: State, cl: Client)
  {
    && !MergeThrows(cl.read, cl.request.document, cl.request.customizer)
    && Admits(st.items, cl.request.address, IfMatch(Sent(cl)))
  }

  function Step(st: State, ev: Event): State
  {
    match ev
    case Read(client, request) =>
      st.(clients := st.clients[client := Client(request, ReadResponse(st.items, request.address, None))])
    case Abandon(client) => st.(clients := st.clients - {client})
    case Write(client, newEtag) =>
      if client !in st.clients then st
      else
        var cl := st.clients[client];
        var address := cl.request.address;
        if Commits(st, cl) then
          State(st.items[address := Stored(Sent(cl), newEtag)], st.issued + {newEtag}, st.clients - {client},
                st.acked[address := Acked(st, address) + [cl.request]])
        else st.(clients := st.clients - {client})
  }

  /** A client that read 404 gets its write through although another has created the document since. */
  predicate RacingCreate(st: State, ev: Event)
  {
    && ev.Write? && ev.client in st.clients
    && st.clients[ev.client].read.statusCode == 404
    && st.clients[ev.client].request.address in st.items
    && Commits(st, st.clients[ev.client])
  }

  /** At this key the request alone and its merge with the stored document come to the same. */
  ghost predicate Covered(doc: Fields, r: Request, k: string)
  {
    || k == ETAG
    || (k == PARTITION_KEY && r.address.0 != "")
    || (if k in r.document then Covers(r.customizer, k, Get(doc, k), r.document[k]) else Get(doc, k) in {Undefined, Null})
  }

  /** The request would have been merged into the document without a TypeError. A stored document has an etag. */
  predicate Accepts(doc: Option<Fields>, r: Request)
  {
    doc.Some? ==> Mergeable(r.customizer, "", Obj(doc.value[ETAG := Str("")]), Obj(r.document))
  }

  /** A racing creation that stores something else than the merge would have: the merge would throw, or a key is not covered. */
  ghost predicate LosingCreate(st: State, ev: Event)
  {
    && RacingCreate(st, ev)
    && var r := st.clients[ev.client].request;
       var doc := st.items[r.address];
       !Accepts(Some(doc), r) || exists k :: !Covered(doc, r, k)
  }

  predicate Enabled(st: State, ev: Event)
  {
    ev.Write? ==> ev.newEtag !in st.issued
  }

  function Run(init: State, events: seq<Event>): State
  {
    if |events| == 0 then init else Step(Run(init, events[..|events| - 1]), events[|events| - 1])
  }

  ghost predicate Orderly(init: State, events: seq<Event>)
  {
    forall i :: 0 <= i < |events| ==>
      Enabled(Run(init, events[..i]), events[i]) && !LosingCreate(Run(init, events[..i]), events[i])
  }

  // ----- The sequential meaning -----

  /** A document without its etag. */
  function Bare(doc: Fields): Fields { doc - {ETAG} }

  function BareAt(st: State, address: Address): Option<Fields>
  {
    if address in st.items then Some(Bare(st.items[address])) else None
  }

  /** One request applied to a document on its own, without etags. */
  function Apply(doc: Option<Fields>, r: Request): Fields
  {
    var merged := if doc.None? then r.document else Update(r.customizer, doc.value, r.document);
    Bare(Wire(Obj(AssignPartitionKey(merged, r.address.0))).fields)
  }

  /** The requests applied one after another. */
  function Replay(doc: Option<Fields>, requests: seq<Request>): Option<Fields>
  {
    if |requests| == 0 then doc
    else Some(Apply(Replay(doc, requests[..|requests| - 1]), requests[|requests| - 1]))
  }

  // ----- What every step keeps -----

  ghost predicate Inv(st: State)
  {
    && (forall address :: address in st.items ==> Stamped(st, st.items[address]))
    && (forall client :: client in st.clients ==> Faithful(st, st.clients[client]))
  }

  /** A stored document carries an issued etag and came over the wire. */
  ghost predicate Stamped(st: State, doc: Fields)
  {
    Get(doc, ETAG).Str? && doc[ETAG].s in st.issued && Dense(Obj(doc))
  }

  /** A snapshot is current exactly while the stored etag is the one it was read with. */
  ghost predicate Faithful(st: State, cl: Client)
  {
    var address := cl.request.address;
    if cl.read.statusCode == 404 then cl.read.item.None?
    else
      && cl.read.statusCode == 200 && cl.read.item.Some? && Stamped(st, cl.read.item.value)
      && (address in st.items && Get(st.items[address], ETAG) == cl.read.item.value[ETAG] ==>
            st.items[address] == cl.read.item.value)
  }

  /** A property of the stored document, other than the etag and the partition key. */
  lemma StoredAt(item: Fields, partitionKey: string, etag: string, k: string)
    requires k !in {ETAG, PARTITION_KEY} && Get(item, k) != Undefined
    ensures Get(Stored(AssignPartitionKey(item, partitionKey), etag), k) == Wire(Get(item, k))
  {
  }

  /** Removing the etag before or after an update is the same. */
  lemma BareUpdate(doc: Fields, r: Request, newEtag: string)
    ensures Bare(Stored(AssignPartitionKey(Update(r.customizer, doc, r.document), r.address.0), newEtag))
            == Apply(Some(Bare(doc)), r)
  {
    var a := AssignPartitionKey(Update(r.customizer, doc, r.document), r.address.0);
    var b := AssignPartitionKey(Update(r.customizer, Bare(doc), r.document), r.address.0);
    UpdateWithoutEtag(r.customizer, doc, r.document, r.address.0);
    SameButEtag(a, b);
    BareStored(a, newEtag);
  }

  lemma BareStored(item: Fields, etag: string)
    ensures Bare(Stored(item, etag)) == Bare(Wire(Obj(item)).fields)
  {
  }

  lemma UpdateWithoutEtag(c: Customizer, doc: Fields, document: Fields, partitionKey: string)
    ensures AgreeButEtag(AssignPartitionKey(Update(c, doc, document), partitionKey),
                         AssignPartitionKey(Update(c, Bare(doc), document), partitionKey))
  {
    var a, b := Update(c, doc, document), Update(c, Bare(doc), document);
    forall k | k != ETAG ensures Get(a, k) == Get(b, k) && (k in a <==> k in b) {
      UpdateAt(c, doc, document, k);
      UpdateAt(c, Bare(doc), document, k);
    }
    assert AgreeButEtag(a, b);
  }

  ghost predicate AgreeButEtag(a: Fields, b: Fields)
  {
    forall k :: k != ETAG ==> Get(a, k) == Get(b, k) && (k in a <==> k in b)
  }

  lemma SameButEtag(a: Fields, b: Fields)
    requires AgreeButEtag(a, b)
    ensures Bare(Wire(Obj(a)).fields) == Bare(Wire(Obj(b)).fields)
  {
    var x, y := Bare(Wire(Obj(a)).fields), Bare(Wire(Obj(b)).fields);
    assert forall k :: k in x <==> k != ETAG && k in a && a[k] != Undefined;
    assert forall k :: k in y <==> k != ETAG && k in b && b[k] != Undefined;
    assert forall k :: k in x ==> Get(a, k) == Get(b, k);
    assert x.Keys == y.Keys;
  }

  lemma StoredIsStamped(item: Fields, etag: string)
    ensures Get(Stored(item, etag), ETAG) == Str(etag) && Dense(Obj(Stored(item, etag)))
  {
    WireIsDense(Obj(item));
  }

  lemma StepKeepsInv(st: State, ev: Event)
    requires Inv(st) && Enabled(st, ev)
    ensures Inv(Step(st, ev))
  {
    match ev
    case Write(client, newEtag) =>
      if client in st.clients && Commits(st, st.clients[client]) {
        CommitKeepsInv(st, client, newEtag);
      } else {
        ClientsKeepInv(st, Step(st, ev));
      }
    case Read(client, request) => ReadKeepsInv(st, client, request);
    case Abandon(client) => ClientsKeepInv(st, Step(st, ev));
  }

  /** Steps that only drop clients. */
  lemma ClientsKeepInv(st: State, next: State)
    requires Inv(st) && next.items == st.items && next.issued == st.issued
    requires forall client :: client in next.clients ==> client in st.clients && next.clients[client] == st.clients[client]
    ensures Inv(next)
  {
    forall client | client in next.clients ensures Faithful(next, next.clients[client]) {
      assert Faithful(st, st.clients[client]);
    }
  }

  lemma ReadKeepsInv(st: State, client: nat, request: Request)
    requires Inv(st)
    ensures Inv(Step(st, Read(client, request)))
  {
    var next := Step(st, Read(client, request));
    forall other | other in next.clients ensures Faithful(next, next.clients[other]) {
      if other != client { assert Faithful(st, st.clients[other]); }
    }
  }

  lemma CommitKeepsInv(st: State, client: nat, newEtag: string)
    requires Inv(st) && client in st.clients && Commits(st, st.clients[client]) && newEtag !in st.issued
    ensures Inv(Step(st, Write(client, newEtag)))
  {
    var next := Step(st, Write(client, newEtag));
    var address := st.clients[client].request.address;
    var kept := Stored(Sent(st.clients[client]), newEtag);
    StoredIsStamped(Sent(st.clients[client]), newEtag);
    forall a | a in next.items ensures Stamped(next, next.items[a]) {
      assert a in st.items ==> Stamped(st, st.items[a]);
    }
    forall other | other in next.clients ensures Faithful(next, next.clients[other]) {
      FaithfulAfter(st, next, st.clients[other], address, kept, newEtag);
    }
  }

  /** A snapshot of the document that is written is out of date from then on. */
  lemma FaithfulAfter(st: State, next: State, cl: Client, address: Address, kept: Fields, newEtag: string)
    requires Faithful(st, cl) && newEtag !in st.issued && Get(kept, ETAG) == Str(newEtag)
    requires next.items == st.items[address := kept] && next.issued == st.issued + {newEtag}
    ensures Faithful(next, cl)
  {
  }

  /** The step acknowledges one request for the document and applies it as a merge that does not throw. */
  predicate AppliesOne(st: State, next: State, address: Address, r: Request)
  {
    && r.address == address && Acked(next, address) == Acked(st, address) + [r]
    && Accepts(BareAt(st, address), r)
    && BareAt(next, address) == Some(Apply(BareAt(st, address), r))
  }

  ghost predicate Advances(st: State, next: State, address: Address)
  {
    || (BareAt(next, address) == BareAt(st, address) && Acked(next, address) == Acked(st, address))
    || exists r :: AppliesOne(st, next, address, r)
  }

  /** Each step either leaves a document alone or applies one request, and acknowledges exactly that one. */
  lemma StepApplies(st: State, ev: Event, address: Address)
    requires Inv(st) && Enabled(st, ev) && !LosingCreate(st, ev)
    ensures Advances(st, Step(st, ev), address)
  {
    if ev.Write? && ev.client in st.clients && Commits(st, st.clients[ev.client])
       && st.clients[ev.client].request.address == address {
      var cl := st.clients[ev.client];
      if cl.read.statusCode != 404 {
        MergeApplies(st, ev);
      } else if address in st.items {
        RacingCreateKeeps(st, ev);
      } else {
        assert Bare(Stored(Sent(cl), ev.newEtag)) == Apply(None, cl.request);
      }
      assert AppliesOne(st, Step(st, ev), address, cl.request);
    }
  }

  /** A merge that gets through is applied to the document that is stored. */
  lemma MergeApplies(st: State, ev: Event)
    requires Inv(st) && ev.Write? && ev.client in st.clients && Commits(st, st.clients[ev.client])
    requires st.clients[ev.client].read.statusCode != 404
    ensures var r := st.clients[ev.client].request;
            AppliesOne(st, Step(st, ev), r.address, r)
  {
    var cl := st.clients[ev.client];
    var r := cl.request;
    assert Faithful(st, cl);
    var doc := cl.read.item.value;
    ConditionIsReadEtag(doc, r.document, r.customizer, r.address.0, doc[ETAG].s);
    assert st.items[r.address] == doc;
    BareUpdate(doc, r, ev.newEtag);
    AcceptsBare(doc, r);
  }

  /** Whether a request merges does not depend on which etag is stored. */
  lemma AcceptsBare(doc: Fields, r: Request)
    requires Get(doc, ETAG) != Undefined
    ensures Accepts(Some(Bare(doc)), r) <==> Accepts(Some(doc), r)
    ensures Accepts(Some(doc), r) <==> Mergeable(r.customizer, "", Obj(doc), Obj(r.document))
  {
    MergeableByKey(r.customizer, doc, r.document);
    MergeableByKey(r.customizer, doc[ETAG := Str("")], r.document);
    assert Bare(doc)[ETAG := Str("")] == doc[ETAG := Str("")];
    forall k | k in r.document
      ensures Mergeable(r.customizer, k, Get(doc, k), r.document[k])
              <==> Mergeable(r.customizer, k, Get(doc[ETAG := Str("")], k), r.document[k])
    {
    }
  }

  lemma MergeableByKey(c: Customizer, doc: Fields, update: Fields)
    ensures Mergeable(c, "", Obj(doc), Obj(update))
            <==> forall k :: k in update ==> Mergeable(c, k, Get(doc, k), update[k])
  {
  }

  /** Each of the requests merges into what those before it leave. */
  ghost predicate AllAccepted(doc: Option<Fields>, requests: seq<Request>)
  {
    |requests| > 0 ==>
      AllAccepted(doc, AllButLast(requests)) && Accepts(Replay(doc, AllButLast(requests)), Last(requests))
  }

  /** The requests acknowledged for a document since the first state. */
  function AckedSince(init: State, st: State, address: Address): seq<Request>
    requires Acked(init, address) <= Acked(st, address)
  {
    Acked(st, address)[|Acked(init, address)|..]
  }

  /** The requests acknowledged for a document can be replayed one after another, and give the stored document. */
  ghost predicate Serialized(init: State, st: State, address: Address)
  {
    && Acked(init, address) <= Acked(st, address)
    && (forall r :: r in AckedSince(init, st, address) ==> r.address == address)
    && AllAccepted(BareAt(init, address), AckedSince(init, st, address))
    && BareAt(st, address) == Replay(BareAt(init, address), AckedSince(init, st, address))
  }

  /**
   No update is lost: in every interleaving, with conflicts, failures and abandoned clients, each document is,
   apart from its etag, the replay of the acknowledged requests in commit order.
   */
  lemma {:induction false} NoUpdateIsLost(init: State, events: seq<Event>, address: Address)
    requires Inv(init) && Orderly(init, events)
    ensures Inv(Run(init, events)) && Serialized(init, Run(init, events), address)
  {
    if |events| == 0 {
      assert Acked(init, address)[|Acked(init, address)|..] == [];
    } else {
      var before, ev := events[..|events| - 1], events[|events| - 1];
      OrderlyPrefix(init, events);
      NoUpdateIsLost(init, before, address);
      var st := Run(init, before);
      StepKeepsInv(st, ev);
      StepApplies(st, ev, address);
      ReplayExtends(init, st, Step(st, ev), address);
    }
  }

  lemma OrderlyPrefix(init: State, events: seq<Event>)
    requires |events| > 0 && Orderly(init, events)
    ensures Orderly(init, events[..|events| - 1])
    ensures Enabled(Run(init, events[..|events| - 1]), events[|events| - 1])
    ensures !LosingCreate(Run(init, events[..|events| - 1]), events[|events| - 1])
  {
    var before := events[..|events| - 1];
    forall i | 0 <= i < |before| ensures before[..i] == events[..i] {
    }
  }

  lemma ReplayExtends(init: State, st: State, next: State, address: Address)
    requires Serialized(init, st, address) && Advances(st, next, address)
    ensures Serialized(init, next, address)
  {
    if Acked(next, address) != Acked(st, address) {
      var r :| AppliesOne(st, next, address, r);
      ReplayOneMore(BareAt(init, address), Acked(st, address), |Acked(init, address)|, r);
      OneMoreSince(init, st, next, address, r);
    }
  }

  lemma OneMoreSince(init: State, st: State, next: State, address: Address, r: Request)
    requires Acked(init, address) <= Acked(st, address) && Acked(next, address) == Acked(st, address) + [r]
    ensures Acked(init, address) <= Acked(next, address)
    ensures AckedSince(init, next, address) == AckedSince(init, st, address) + [r]
  {
  }

  lemma ReplayOneMore(doc: Option<Fields>, acked: seq<Request>, n: nat, r: Request)
    requires n <= |acked|
    ensures Replay(doc, (acked + [r])[n..]) == Some(Apply(Replay(doc, acked[n..]), r))
    ensures AllAccepted(doc, (acked + [r])[n..]) <==> AllAccepted(doc, acked[n..]) && Accepts(Replay(doc, acked[n..]), r)
  {
    var tail := (acked + [r])[n..];
    assert tail[..|tail| - 1] == acked[n..];
  }

  // ----- What a document holds after a run, field by field -----

  function FieldOf(doc: Option<Fields>, k: string): Json
  {
    if doc.None? then Undefined else Get(doc.value, k)
  }

  predicate Scalar(v: Json) { v.Null? || v.Bool? || v.Num? || v.Str? }

  /** One request at a field other than the etag and the partition key. */
  lemma AppliedField(doc: Option<Fields>, r: Request, k: string)
    requires k !in {ETAG, PARTITION_KEY}
    ensures k !in r.document ==> Get(Apply(doc, r), k) == Wire(Normalize(FieldOf(doc, k)))
    ensures k in r.document && Scalar(r.document[k]) && !FieldOf(doc, k).Arr? && (k == KNOWN_PAGES ==> r.customizer == Plain) ==>
              Normalize(Get(Apply(doc, r), k)) == Normalize(r.document[k]) && !Get(Apply(doc, r), k).Arr?
  {
    if doc.Some? {
      UpdateAt(r.customizer, doc.value, r.document, k);
      BareAtKey(AssignPartitionKey(Update(r.customizer, doc.value, r.document), r.address.0), k);
    } else {
      BareAtKey(AssignPartitionKey(r.document, r.address.0), k);
    }
  }

  ghost predicate Unnamed(requests: seq<Request>, k: string)
  {
    forall r :: r in requests ==> k !in r.document
  }

  /** The i-th request is the last that names the field. */
  ghost predicate NamedLast(requests: seq<Request>, i: int, k: string)
  {
    0 <= i < |requests| && k in requests[i].document && forall j :: i < j < |requests| ==> k !in requests[j].document
  }

  /** A field no request names stays as it was, up to null normalization. */
  lemma {:induction false} UnnamedFieldStays(doc: Option<Fields>, requests: seq<Request>, k: string)
    requires k !in {ETAG, PARTITION_KEY} && |requests| > 0 && Unnamed(requests, k)
    ensures FieldOf(Replay(doc, requests), k) == Wire(Normalize(FieldOf(doc, k)))
  {
    var before, last := requests[..|requests| - 1], requests[|requests| - 1];
    AppliedField(Replay(doc, before), last, k);
    if |before| > 0 {
      UnnamedFieldStays(doc, before, k);
      NormalizedTwice(FieldOf(doc, k));
    }
  }

  /** Wherever the requests name a field they give it a scalar, and no array was stored there at first. */
  ghost predicate ScalarField(doc: Option<Fields>, requests: seq<Request>, k: string)
  {
    && !FieldOf(doc, k).Arr?
    && forall r :: r in requests && k in r.document ==> Scalar(r.document[k]) && (k == KNOWN_PAGES ==> r.customizer == Plain)
  }

  lemma {:induction false} NeverAnArray(doc: Option<Fields>, requests: seq<Request>, k: string)
    requires k !in {ETAG, PARTITION_KEY} && ScalarField(doc, requests, k)
    ensures !FieldOf(Replay(doc, requests), k).Arr?
  {
    if |requests| > 0 {
      NeverAnArray(doc, requests[..|requests| - 1], k);
      AppliedField(Replay(doc, requests[..|requests| - 1]), requests[|requests| - 1], k);
    }
  }

  /** Such a field has the value of the last request that names it; null counts as undefined. */
  lemma {:induction false} LastScalarWins(doc: Option<Fields>, requests: seq<Request>, i: nat, k: string)
    requires k !in {ETAG, PARTITION_KEY} && ScalarField(doc, requests, k)
    requires NamedLast(requests, i, k)
    ensures Normalize(FieldOf(Replay(doc, requests), k)) == Normalize(requests[i].document[k])
  {
    var before, last := AllButLast(requests), Last(requests);
    PrefixOfRequests(doc, requests, i, k);
    NeverAnArray(doc, before, k);
    if i < |before| {
      LastScalarWins(doc, before, i, k);
      ScalarStays(Replay(doc, before), last, k, requests[i].document[k]);
    } else {
      AppliedField(Replay(doc, before), last, k);
    }
  }

  lemma PrefixOfRequests(doc: Option<Fields>, requests: seq<Request>, i: nat, k: string)
    requires ScalarField(doc, requests, k) && NamedLast(requests, i, k)
    ensures ScalarField(doc, AllButLast(requests), k)
    ensures Last(requests) in requests
    ensures i < |requests| - 1 ==> NamedLast(AllButLast(requests), i, k) && k !in Last(requests).document
  {
    assert forall r :: r in AllButLast(requests) ==> r in requests;
  }

  lemma ScalarStays(doc: Option<Fields>, r: Request, k: string, v: Json)
    requires k !in {ETAG, PARTITION_KEY} && k !in r.document
    requires Scalar(v) && Normalize(FieldOf(doc, k)) == Normalize(v)
    ensures Normalize(Get(Apply(doc, r), k)) == Normalize(v)
  {
    AppliedField(doc, r, k);
  }

  /**
   What a document holds after an orderly run, told from the document at first and the requests acknowledged since: a
   field they do not name is as it was up to null normalization, a scalar field has the value last acknowledged, and
   the partition key is that of the address. With no acknowledged request it is untouched.
   */
  lemma FieldsAfterRun(init: State, events: seq<Event>, address: Address, k: string)
    requires Inv(init) && Orderly(init, events)
    ensures var st := Run(init, events);
            && Acked(init, address) <= Acked(st, address)
            && var (requests, start, end) := (AckedSince(init, st, address), BareAt(init, address), BareAt(st, address));
               && (requests == [] ==> end == start)
               && (requests != [] ==> end.Some?)
               && (requests != [] && address.0 != "" ==> Get(end.value, PARTITION_KEY) == Str(address.0))
               && (requests != [] && k !in {ETAG, PARTITION_KEY} && Unnamed(requests, k) ==>
                     Get(end.value, k) == Wire(Normalize(FieldOf(start, k))))
               && (k !in {ETAG, PARTITION_KEY} && ScalarField(start, requests, k) ==>
                     forall i | NamedLast(requests, i, k) ::
                       Normalize(FieldOf(end, k)) == Normalize(requests[i].document[k]))
  {
    var st := Run(init, events);
    NoUpdateIsLost(init, events, address);
    var requests, start := AckedSince(init, st, address), BareAt(init, address);
    if requests != [] {
      PartitionKeyIsKept(start, requests, address);
      if k !in {ETAG, PARTITION_KEY} && Unnamed(requests, k) {
        UnnamedFieldStays(start, requests, k);
      }
    }
    forall i | NamedLast(requests, i, k) && k !in {ETAG, PARTITION_KEY} && ScalarField(start, requests, k)
      ensures Normalize(FieldOf(BareAt(st, address), k)) == Normalize(requests[i].document[k])
    {
      LastScalarWins(start, requests, i, k);
    }
  }

  lemma PartitionKeyIsKept(doc: Option<Fields>, requests: seq<Request>, address: Address)
    requires requests != [] && forall r :: r in requests ==> r.address == address
    ensures Replay(doc, requests).Some?
    ensures address.0 != "" ==> Get(Replay(doc, requests).value, PARTITION_KEY) == Str(address.0)
  {
    var before, r := Replay(doc, requests[..|requests| - 1]), requests[|requests| - 1];
    var merged := if before.None? then r.document else Update(r.customizer, before.value, r.document);
    assert r in requests;
    BareAtKey(AssignPartitionKey(merged, r.address.0), PARTITION_KEY);
  }

  // ----- Known pages -----

  function Pages(doc: Option<Fields>): seq<Json>
  {
    if doc.None? then [] else Elements(Get(doc.value, KNOWN_PAGES))
  }

  /** One website update leaves exactly the stored pages and the request's. */
  lemma ApplyPages(doc: Option<Fields>, r: Request, page: string)
    requires r.customizer == UnionKnownPages
    ensures Str(page) in Pages(Some(Apply(doc, r)))
            <==> Str(page) in Pages(doc) || Str(page) in Elements(Get(r.document, KNOWN_PAGES))
  {
    if doc.Some? {
      UpdatePages(doc.value, r.document, page);
      AppliedPages(Update(r.customizer, doc.value, r.document), r.address.0, page);
    } else {
      AppliedPages(r.document, r.address.0, page);
    }
  }

  lemma UpdatePages(doc: Fields, document: Fields, page: string)
    ensures Str(page) in Elements(Get(Update(UnionKnownPages, doc, document), KNOWN_PAGES))
            <==> Str(page) in Elements(Get(doc, KNOWN_PAGES)) || Str(page) in Elements(Get(document, KNOWN_PAGES))
  {
    UpdateAt(UnionKnownPages, doc, document, KNOWN_PAGES);
    UnionMembers(Elements(Get(document, KNOWN_PAGES)), Elements(Get(doc, KNOWN_PAGES)), Str(page));
  }

  lemma UnionMembers(a: seq<Json>, b: seq<Json>, v: Json)
    ensures v in Uniq(a + b) <==> v in a || v in b
  {
    UniqMembers(a + b, v);
  }

  lemma AppliedPages(merged: Fields, partitionKey: string, page: string)
    ensures Str(page) in Pages(Some(Bare(Wire(Obj(AssignPartitionKey(merged, partitionKey))).fields)))
            <==> Str(page) in Elements(Get(merged, KNOWN_PAGES))
  {
    var value := Get(merged, KNOWN_PAGES);
    assert Get(Bare(Wire(Obj(AssignPartitionKey(merged, partitionKey))).fields), KNOWN_PAGES) == Wire(value);
    WireKeepsStrings(value, page);
  }

  lemma WireKeepsStrings(v: Json, page: string)
    ensures Str(page) in Elements(Wire(v)) <==> Str(page) in Elements(v)
  {
    if v.Arr? {
      assert forall i :: 0 <= i < |v.items| ==> (Wire(v).items[i] == Str(page) <==> v.items[i] == Str(page));
    }
  }

  /** The pages a replay ends with are those of its start and of its website updates, and no others. */
  lemma {:induction false} ReplayPages(doc: Option<Fields>, requests: seq<Request>, page: string)
    requires forall i :: 0 <= i < |requests| ==> requests[i].customizer == UnionKnownPages
    ensures Str(page) in Pages(Replay(doc, requests))
            <==> Str(page) in Pages(doc) || exists i :: Brings(requests, 0, i, page)
  {
    if |requests| > 0 {
      var before, last := requests[..|requests| - 1], requests[|requests| - 1];
      ReplayPages(doc, before, page);
      ApplyPages(Replay(doc, before), last, page);
      BringsStep(requests, page);
    }
  }

  lemma BringsStep(requests: seq<Request>, page: string)
    requires |requests| > 0
    ensures (exists i :: Brings(requests, 0, i, page))
            <==> (exists i :: Brings(AllButLast(requests), 0, i, page))
                 || Str(page) in Elements(Get(requests[|requests| - 1].document, KNOWN_PAGES))
  {
    var before := AllButLast(requests);
    assert forall i :: 0 <= i < |before| ==> before[i] == requests[i];
    assert forall i :: Brings(before, 0, i, page) ==> Brings(requests, 0, i, page);
    assert forall i :: Brings(requests, 0, i, page) ==> Brings(before, 0, i, page) || i == |before|;
    assert Brings(requests, 0, |before|, page)
           <==> Str(page) in Elements(Get(requests[|requests| - 1].document, KNOWN_PAGES));
  }

  /** The i-th acknowledged request, one of those from index n on, names the page. */
  predicate Brings(acked: seq<Request>, n: nat, i: int, page: string)
  {
    n <= i < |acked| && Str(page) in Elements(Get(acked[i].document, KNOWN_PAGES))
  }

  /**
   In every orderly interleaving of website updates the stored pages are exactly those of the start and those the
   acknowledged updates name: none is lost and none appears.
   */
  lemma PagesAreTheUnion(init: State, events: seq<Event>, address: Address, page: string)
    requires Inv(init) && Orderly(init, events)
    requires forall i :: |Acked(init, address)| <= i < |Acked(Run(init, events), address)| ==>
               Acked(Run(init, events), address)[i].customizer == UnionKnownPages
    ensures Str(page) in Pages(BareAt(Run(init, events), address))
            <==> Str(page) in Pages(BareAt(init, address))
                 || exists i :: Brings(Acked(Run(init, events), address), |Acked(init, address)|, i, page)
  {
    NoUpdateIsLost(init, events, address);
    TailPages(BareAt(init, address), Acked(Run(init, events), address), |Acked(init, address)|, page);
  }

  lemma TailPages(doc: Option<Fields>, acked: seq<Request>, n: nat, page: string)
    requires n <= |acked| && forall i :: n <= i < |acked| ==> acked[i].customizer == UnionKnownPages
    ensures Str(page) in Pages(Replay(doc, acked[n..]))
            <==> Str(page) in Pages(doc) || exists i :: Brings(acked, n, i, page)
  {
    var tail := acked[n..];
    ReplayPages(doc, tail, page);
    assert forall i :: Brings(tail, 0, i, page) ==> Brings(acked, n, i + n, page);
    assert forall i :: Brings(acked, n, i, page) ==> Brings(tail, 0, i - n, page);
  }

  // ----- Where updates are lost -----

  /** A value on the wire, key by key. */
  lemma BareAtKey(item: Fields, k: string)
    ensures Get(Bare(Wire(Obj(item)).fields), k) == if k == ETAG then Undefined else Wire(Get(item, k))
    ensures forall j :: j in Bare(Wire(Obj(item)).fields) ==> Get(Bare(Wire(Obj(item)).fields), j) != Undefined
  {
  }

  /** At each key, the request alone and its merge come to the same exactly where the request covers the document. */
  lemma CoveredExactly(doc: Fields, r: Request, k: string)
    requires Get(doc, ETAG) != Undefined && Accepts(Some(doc), r)
    ensures Covered(doc, r, k) ==> Get(Apply(None, r), k) == Get(Apply(Some(Bare(doc)), r), k)
    ensures Dense(Obj(doc)) && Dense(Obj(r.document)) && Get(Apply(None, r), k) == Get(Apply(Some(Bare(doc)), r), k) ==>
              Covered(doc, r, k)
  {
    AcceptsBare(doc, r);
    MergeableByKey(r.customizer, doc, r.document);
    AppliedAt(doc, r, k);
    if k in r.document {
      CoversExactly(r.customizer, k, Get(doc, k), r.document[k]);
    } else {
      WireUndefined(Normalize(Get(doc, k)));
    }
  }

  /** What the request alone and its merge store at a key. */
  lemma AppliedAt(doc: Fields, r: Request, k: string)
    ensures var own := k == ETAG || (k == PARTITION_KEY && r.address.0 != "");
            var alone, merged := Get(Apply(None, r), k), Get(Apply(Some(Bare(doc)), r), k);
            if own then alone == merged
            else
              && alone == Wire(Get(r.document, k))
              && merged == Wire(if k in r.document then Normalize(MergeField(r.customizer, k, Get(doc, k), r.document[k]))
                                else Normalize(Get(doc, k)))
  {
    var merged := AssignPartitionKey(Update(r.customizer, doc, r.document), r.address.0);
    BareUpdate(doc, r, "");
    BareStored(merged, "");
    BareAtKey(AssignPartitionKey(r.document, r.address.0), k);
    BareAtKey(merged, k);
    UpdateAt(r.customizer, doc, r.document, k);
  }

  /** A racing creation stores its request alone and is acknowledged. */
  lemma RacingCreateStores(st: State, ev: Event)
    requires RacingCreate(st, ev)
    ensures var r := st.clients[ev.client].request;
            Acked(Step(st, ev), r.address) == Acked(st, r.address) + [r] && BareAt(Step(st, ev), r.address) == Some(Apply(None, r))
  {
    assert Bare(Stored(Sent(st.clients[ev.client]), ev.newEtag)) == Apply(None, st.clients[ev.client].request);
  }

  /** A racing creation that covers the document stores what the merge would have. */
  lemma RacingCreateKeeps(st: State, ev: Event)
    requires Inv(st) && RacingCreate(st, ev) && !LosingCreate(st, ev)
    ensures var r := st.clients[ev.client].request;
            AppliesOne(st, Step(st, ev), r.address, r)
  {
    var r := st.clients[ev.client].request;
    var doc := st.items[r.address];
    assert Stamped(st, doc);
    RacingCreateStores(st, ev);
    AcceptsBare(doc, r);
    forall k ensures Get(Apply(None, r), k) == Get(Apply(Some(Bare(doc)), r), k) {
      CoveredExactly(doc, r, k);
    }
    SameApplied(doc, r);
  }

  lemma SameApplied(doc: Fields, r: Request)
    ensures Apply(None, r) == Apply(Some(Bare(doc)), r)
            <==> forall k :: Get(Apply(None, r), k) == Get(Apply(Some(Bare(doc)), r), k)
  {
    SameFields(Apply(None, r), Apply(Some(Bare(doc)), r), AssignPartitionKey(r.document, r.address.0),
               AssignPartitionKey(Update(r.customizer, Bare(doc), r.document), r.address.0));
  }

  /** For a request without undefined array elements a racing creation applies it exactly when it loses nothing. */
  lemma RacingCreateExact(st: State, ev: Event)
    requires Inv(st) && RacingCreate(st, ev) && Dense(Obj(st.clients[ev.client].request.document))
    ensures var r := st.clients[ev.client].request;
            AppliesOne(st, Step(st, ev), r.address, r) <==> !LosingCreate(st, ev)
  {
    var r := st.clients[ev.client].request;
    var doc := st.items[r.address];
    if !LosingCreate(st, ev) {
      RacingCreateKeeps(st, ev);
    } else if Accepts(Some(doc), r) {
      assert Stamped(st, doc);
      RacingCreateStores(st, ev);
      var k :| !Covered(doc, r, k);
      CoveredExactly(doc, r, k);
      SameApplied(doc, r);
    } else {
      assert Stamped(st, doc);
      AcceptsBare(doc, r);
    }
  }

  lemma SameFields(x: Fields, y: Fields, a: Fields, b: Fields)
    requires x == Bare(Wire(Obj(a)).fields) && y == Bare(Wire(Obj(b)).fields)
    ensures x == y <==> forall k :: Get(x, k) == Get(y, k)
  {
    BareAtKey(a, ID);
    BareAtKey(b, ID);
    if forall k :: Get(x, k) == Get(y, k) {
      forall k ensures k in x <==> k in y {
        assert Get(x, k) == Get(y, k);
      }
      assert x.Keys == y.Keys;
      assert forall k :: k in x ==> Get(x, k) == Get(y, k);
    }
  }

  /** Of the pages, a racing creation leaves exactly the request's: a stored page survives if and only if the request names it. */
  lemma RacingCreatePages(st: State, ev: Event, page: string)
    requires RacingCreate(st, ev)
    ensures var r := st.clients[ev.client].request;
            Str(page) in Pages(BareAt(Step(st, ev), r.address)) <==> Str(page) in Elements(Get(r.document, KNOWN_PAGES))
  {
    RacingCreateStores(st, ev);
    var r := st.clients[ev.client].request;
    AppliedPages(r.document, r.address.0, page);
  }

  /**
   After an orderly run, one more step leaves a document that is no replay of its acknowledged requests exactly when
   the step is a losing creation of that document.
   */
  lemma UpdateIsLostIff(init: State, events: seq<Event>, ev: Event, address: Address)
    requires Inv(init) && Orderly(init, events) && Enabled(Run(init, events), ev)
    requires RacingCreate(Run(init, events), ev) ==> Dense(Obj(Run(init, events).clients[ev.client].request.document))
    ensures var st := Run(init, events);
            Serialized(init, Step(st, ev), address)
            <==> !(LosingCreate(st, ev) && st.clients[ev.client].request.address == address)
  {
    NoUpdateIsLost(init, events, address);
    StepDecides(init, Run(init, events), ev, address);
  }

  lemma StepDecides(init: State, st: State, ev: Event, address: Address)
    requires Inv(st) && Enabled(st, ev) && Serialized(init, st, address)
    requires RacingCreate(st, ev) ==> Dense(Obj(st.clients[ev.client].request.document))
    ensures Serialized(init, Step(st, ev), address)
            <==> !(LosingCreate(st, ev) && st.clients[ev.client].request.address == address)
  {
    if !LosingCreate(st, ev) {
      StepApplies(st, ev, address);
      ReplayExtends(init, st, Step(st, ev), address);
    } else if st.clients[ev.client].request.address == address {
      LosingBreaks(init, st, ev);
    } else {
      OthersStay(st, ev, address);
      ReplayExtends(init, st, Step(st, ev), address);
    }
  }

  lemma OthersStay(st: State, ev: Event, address: Address)
    requires RacingCreate(st, ev) && st.clients[ev.client].request.address != address
    ensures Advances(st, Step(st, ev), address)
  {
  }

  lemma LosingBreaks(init: State, st: State, ev: Event)
    requires Inv(st) && LosingCreate(st, ev) && Dense(Obj(st.clients[ev.client].request.document))
    requires Serialized(init, st, st.clients[ev.client].request.address)
    ensures !Serialized(init, Step(st, ev), st.clients[ev.client].request.address)
  {
    var r := st.clients[ev.client].request;
    RacingCreateExact(st, ev);
    RacingCreateStores(st, ev);
    ReplayOneMore(BareAt(init, r.address), Acked(st, r.address), |Acked(init, r.address)|, r);
  }

  const EMPTY := State(map[], {}, map[], map[])

  /**
   It happens: two clients read that a document is missing, each creates it with a field of its own, and the one that
   writes last drops the other's, which the replay of both would have.
   */
  lemma UpdatesAreLost(address: Address, a: string, b: string, x: string, y: string)
    requires a != b && a !in OWN_KEYS && b !in OWN_KEYS && x != y
    ensures var events := [Read(0, Naming(address, a)), Read(1, Naming(address, b)), Write(1, y)];
            var last := Write(0, x);
            && Orderly(EMPTY, events) && Enabled(Run(EMPTY, events), last) && LosingCreate(Run(EMPTY, events), last)
            && var st := Step(Run(EMPTY, events), last);
               && !Serialized(EMPTY, st, address)
               && Acked(st, address) == [Naming(address, b), Naming(address, a)]
               && address in st.items && b !in st.items[address]
  {
    var e0, e1, e2 := Read(0, Naming(address, a)), Read(1, Naming(address, b)), Write(1, y);
    var s1 := Step(EMPTY, e0);
    var s2 := Step(s1, e1);
    BothReadNothing(address, a, b);
    RunOfThree(EMPTY, e0, e1, e2);
    NothingRaces(s2, e2);
    LastOverwrites(s2, address, a, b, x, y);
    NoUpdateIsLost(EMPTY, [e0, e1, e2], address);
    LosingBreaks(EMPTY, Step(s2, e2), Write(0, x));
  }

  lemma BothReadNothing(address: Address, a: string, b: string)
    ensures var s2 := Step(Step(EMPTY, Read(0, Naming(address, a))), Read(1, Naming(address, b)));
            s2 == State(map[], {}, map[0 := Client(Naming(address, a), Response(404, None)),
                                       1 := Client(Naming(address, b), Response(404, None))], map[])
  {
  }

  lemma NothingRaces(st: State, ev: Event)
    requires st.items == map[]
    ensures !LosingCreate(st, ev)
  {
  }

  lemma LastOverwrites(s2: State, address: Address, a: string, b: string, x: string, y: string)
    requires a != b && a !in OWN_KEYS && b !in OWN_KEYS && x != y
    requires s2 == State(map[], {}, map[0 := Client(Naming(address, a), Response(404, None)),
                                        1 := Client(Naming(address, b), Response(404, None))], map[])
    ensures var st := Step(s2, Write(1, y));
            var last := Step(st, Write(0, x));
            && Enabled(s2, Write(1, y)) && Enabled(st, Write(0, x)) && LosingCreate(st, Write(0, x))
            && Dense(Obj(st.clients[0].request.document)) && st.clients[0].request.address == address
            && Acked(last, address) == [Naming(address, b), Naming(address, a)]
            && address in last.items && b !in last.items[address]
  {
    var st := Step(s2, Write(1, y));
    WroteAlone(s2, 1, y);
    WroteAlone(st, 0, x);
    StoredAt(Naming(address, b).document, address.0, y, b);
    assert !Covered(st.items[address], Naming(address, a), b);
  }

  const OWN_KEYS := {ID, ETAG, PARTITION_KEY, KNOWN_PAGES}

  /** A request with one field of its own. */
  function Naming(address: Address, k: string): Request
  {
    Request(address, map[ID := Str(address.1), k := Str("value")], Plain)
  }

  lemma WroteAlone(st: State, client: nat, etag: string)
    requires client in st.clients && st.clients[client].read == Response(404, None)
    requires Get(st.clients[client].request.document, ETAG) == Undefined
    ensures var cl := st.clients[client];
            var next := Step(st, Write(client, etag));
            && Commits(st, cl)
            && next.clients == st.clients - {client} && next.issued == st.issued + {etag}
            && Acked(next, cl.request.address) == Acked(st, cl.request.address) + [cl.request]
            && next.items == st.items[cl.request.address :=
                                        Stored(AssignPartitionKey(cl.request.document, cl.request.address.0), etag)]
  {
  }

  lemma RunOfThree(init: State, e0: Event, e1: Event, e2: Event)
    ensures Run(init, [e0, e1, e2]) == Step(Step(Step(init, e0), e1), e2)
    ensures Enabled(init, e0) && !LosingCreate(init, e0)
            && Enabled(Step(init, e0), e1) && !LosingCreate(Step(init, e0), e1)
            && Enabled(Step(Step(init, e0), e1), e2) && !LosingCreate(Step(Step(init, e0), e1), e2) ==>
              Orderly(init, [e0, e1, e2])
  {
    var events := [e0, e1, e2];
    assert events[..0] == [] && events[..1] == [e0] && events[..2] == [e0, e1];
    assert events[..1][..0] == [] && events[..2][..1] == [e0];
    assert Run(init, []) == init && Run(init, [e0]) == Step(init, e0) && Run(init, [e0, e1]) == Step(Step(init, e0), e1);
  }

  /** A client that gave up writes nothing. */
  lemma AbandonedWritesNothing(st: State, client: nat, newEtag: string)
    ensures var next := Step(Step(st, Abandon(client)), Write(client, newEtag));
            next.items == st.items && next.acked == st.acked && client !in next.clients
  {
  }

  // ----- One winner -----

  /** Of two clients that read one version of a document only the first to write gets through. */
  lemma OneWinner(st: State, first: nat, second: nat, newEtag: string)
    requires Inv(st) && Enabled(st, Write(first, newEtag))
    requires first != second && first in st.clients && second in st.clients
    requires st.clients[first].request.address == st.clients[second].request.address
    requires st.clients[first].read == st.clients[second].read && st.clients[first].read.item.Some?
    requires Commits(st, st.clients[first])
    ensures !Commits(Step(st, Write(first, newEtag)), st.clients[second])
  {
    var cl, address := st.clients[second], st.clients[second].request.address;
    assert Faithful(st, cl);
    var doc := cl.read.item.value;
    ConditionIsReadEtag(doc, cl.request.document, cl.request.customizer, address.0, doc[ETAG].s);
    assert Get(Step(st, Write(first, newEtag)).items[address], ETAG) == Str(newEtag);
  }
}
