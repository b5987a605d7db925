/**
 Partition routing: a document's partition is the hash bucket of the node part of its GUID
 (partition-key-factory.ts, hash-generator.ts), every child document gets a GUID derived from its
 parent's (page-provider.ts, website-scan-provider.ts, page-scan-provider.ts), and the queries of the
 providers look in one partition only.

 The FNV-1a hash is a parameter, as is the identifier drawn for each new document.
 */
module PartitionRouting {
  import opened Wrappers
  import opened Sequences
  import opened GuidGenerator
  import Jump = JumpConsistentHash

  // ----- Hash buckets -----

  type Hash = string -> nat

  const DB_BUCKETS := 1000

  /** String.prototype.toLowerCase on the letters a GUID node may hold. */
  function ToLower(s: string): (r: string)
    ensures |r| == |s|
  {
    seq(|s|, i requires 0 <= i < |s| => if 'A' <= s[i] <= 'Z' then (s[i] as int + 32) as char else s[i])
  }

  function Decimal(n: nat): string
  {
    if n < 10 then [('0' as int + n) as char] else Decimal(n / 10) + [('0' as int + n % 10) as char]
  }

  function HashBucket(hash: Hash, prefix: string, buckets: int, values: seq<string>): string
    requires 1 <= buckets <= Jump.TWO31
  {
    Jump.ExactIsAdmissible();
    prefix + "-" + Decimal(Jump.Bucket(Jump.EXACT, hash(ToLower(Join(values, "|"))), buckets))
  }

  datatype ItemType = PageItem | WebsiteScanItem | PageScanItem

  function ItemTypeName(itemType: ItemType): string
  {
    match itemType
    case PageItem => "page"
    case WebsiteScanItem => "websiteScan"
    case PageScanItem => "pageScan"
  }

  function PartitionKey(hash: Hash, itemType: ItemType, guid: string): string
  {
    HashBucket(hash, ItemTypeName(itemType), DB_BUCKETS, [GetGuidNode(guid)])
  }

  /** Identifiers with one node, in any letter case, share the partitions of all item types. */
  lemma SameNodeSamePartition(hash: Hash, itemType: ItemType, g: string, h: string)
    requires ToLower(GetGuidNode(g)) == ToLower(GetGuidNode(h))
    ensures PartitionKey(hash, itemType, g) == PartitionKey(hash, itemType, h)
  {
    assert Join([GetGuidNode(g)], "|") == GetGuidNode(g);
    assert Join([GetGuidNode(h)], "|") == GetGuidNode(h);
  }

  function DecimalValue(s: string): int
  {
    if s == "" then 0 else DecimalValue(s[..|s| - 1]) * 10 + (s[|s| - 1] as int - '0' as int)
  }

  lemma {:induction false} DecimalRoundTrip(n: nat)
    ensures DecimalValue(Decimal(n)) == n
    ensures forall i :: 0 <= i < |Decimal(n)| ==> '0' <= Decimal(n)[i] <= '9'
    ensures |Decimal(n)| > 0 && (|Decimal(n)| > 1 ==> Decimal(n)[0] != '0') && (n > 0 ==> Decimal(n)[0] != '0')
  {
    if n < 10 {
      assert Decimal(n)[..0] == "";
    } else {
      DecimalRoundTrip(n / 10);
      assert Decimal(n)[..|Decimal(n)| - 1] == Decimal(n / 10);
    }
  }

  /** The bucket number of a GUID. */
  function BucketOf(hash: Hash, guid: string): (b: nat)
    ensures b < DB_BUCKETS
  {
    Jump.ExactIsAdmissible();
    Jump.Bucket(Jump.EXACT, hash(ToLower(GetGuidNode(guid))), DB_BUCKETS)
  }

  /** The hash computed in doubles picks the same bucket: 1000 is well below 2^22. */
  lemma BucketIsComputed(hash: Hash, guid: string, fl: real -> real)
    requires Jump.RoundsToNearest(fl)
    ensures Jump.Admissible(Jump.Rounded(fl))
    ensures Jump.Bucket(Jump.Rounded(fl), hash(ToLower(GetGuidNode(guid))), 1000) == BucketOf(hash, guid)
    ensures BucketOf(hash, guid) == Jump.PaperBucket(hash(ToLower(GetGuidNode(guid))) % Jump.TWO64, 1000)
  {
    Jump.RoundedAgreesWithExact(fl, hash(ToLower(GetGuidNode(guid))), 0, -1, 1000);
    Jump.SameAsPaper(hash(ToLower(GetGuidNode(guid))), 1000);
  }

  /** The characters are the same up to the case of letters. */
  predicate SameUpToCase(a: string, b: string)
  {
    |a| == |b| && forall i :: 0 <= i < |a| ==> a[i] == b[i] || UpperOf(a[i], b[i]) || UpperOf(b[i], a[i])
  }

  predicate UpperOf(u: char, l: char) { 'A' <= u <= 'Z' && l as int == u as int + 32 }

  /** The letter case of an identifier does not matter for its partition. */
  lemma CaseDoesNotMatter(hash: Hash, itemType: ItemType, g: string, h: string)
    requires SameUpToCase(GetGuidNode(g), GetGuidNode(h))
    ensures PartitionKey(hash, itemType, g) == PartitionKey(hash, itemType, h)
  {
    SameLower(GetGuidNode(g), GetGuidNode(h));
    SameNodeSamePartition(hash, itemType, g, h);
  }

  lemma SameLower(a: string, b: string)
    requires SameUpToCase(a, b)
    ensures ToLower(a) == ToLower(b)
  {
  }

  lemma PartitionKeyOf(hash: Hash, itemType: ItemType, guid: string)
    ensures PartitionKey(hash, itemType, guid) == ItemTypeName(itemType) + "-" + Decimal(BucketOf(hash, guid))
    ensures PartitionKey(hash, PageItem, guid) == "page" + "-" + Decimal(BucketOf(hash, guid))
    ensures PartitionKey(hash, WebsiteScanItem, guid) == "websiteScan" + "-" + Decimal(BucketOf(hash, guid))
    ensures PartitionKey(hash, PageScanItem, guid) == "pageScan" + "-" + Decimal(BucketOf(hash, guid))
  {
    assert Join([GetGuidNode(guid)], "|") == GetGuidNode(guid);
  }

  /** Text in front of the first dash is determined by the whole. */
  lemma SplitAtDash(a: string, x: string, b: string, y: string)
    requires NoDash(a) && NoDash(b) && a + "-" + x == b + "-" + y
    ensures a == b && x == y
  {
    var s, t := a + "-" + x, b + "-" + y;
    assert s[|a|] == '-' && t[|b|] == '-';
    assert forall i :: 0 <= i < |b| ==> t[i] == b[i] != '-';
    assert forall i :: 0 <= i < |a| ==> s[i] == a[i] != '-';
    assert a == s[..|a|] && b == t[..|b|] && x == s[|a| + 1..] && y == t[|b| + 1..];
  }

  /** Documents share a partition exactly when they are of one type and their nodes fall into one of the 1000 buckets. */
  lemma SamePartitionIff(hash: Hash, t: ItemType, g: string, u: ItemType, h: string)
    ensures PartitionKey(hash, t, g) == PartitionKey(hash, u, h) <==> t == u && BucketOf(hash, g) == BucketOf(hash, h)
  {
    PartitionKeyOf(hash, t, g);
    PartitionKeyOf(hash, u, h);
    SameKeyText(t, BucketOf(hash, g), u, BucketOf(hash, h));
  }

  lemma SameKeyText(t: ItemType, a: nat, u: ItemType, b: nat)
    ensures ItemTypeName(t) + "-" + Decimal(a) == ItemTypeName(u) + "-" + Decimal(b) <==> t == u && a == b
  {
    if ItemTypeName(t) + "-" + Decimal(a) == ItemTypeName(u) + "-" + Decimal(b) {
      SplitAtDash(ItemTypeName(t), Decimal(a), ItemTypeName(u), Decimal(b));
      DecimalRoundTrip(a);
      DecimalRoundTrip(b);
    }
  }

  // ----- Documents and the two containers -----

  datatype Document =
    | Page(id: string, partitionKey: string, websiteId: string, url: string, ts: int)
    | WebsiteScan(id: string, partitionKey: string, websiteId: string, scanType: string,
                  scanFrequency: string, scanStatus: string, priority: int, ts: int)
    | PageScan(id: string, partitionKey: string, pageId: string, websiteScanId: string,
               priority: int, runState: string, ts: int)
  {
    function Type(): ItemType
    {
      match this
      case Page(_, _, _, _, _) => PageItem
      case WebsiteScan(_, _, _, _, _, _, _, _) => WebsiteScanItem
      case PageScan(_, _, _, _, _, _, _) => PageScanItem
    }

    /** The document whose GUID this document's GUID was derived from. */
    function Parent(): string
    {
      if PageScan? then pageId else websiteId
    }
  }

  /** A container is keyed by partition and identifier. */
  type Container = map<(string, string), Document>

  datatype State = State(websiteRepo: Container, scanRepo: Container)

  function Write(c: Container, d: Document): Container
  {
    c[(d.partitionKey, d.id) := d]
  }

  datatype Event =
    | CreatePage(newGuid: string, url: string, websiteId: string, now: int)
    | CreateWebsiteScan(newGuid: string, websiteId: string, scanType: string, frequency: string,
                        requestedPriority: Option<int>, now: int)
    | CreatePageScan(newGuid: string, pageId: string, websiteScanId: string, priority: int, now: int)
    | Update(id: string, change: Change, now: int)
    | DeletePage(id: string)

  /** What an update of a page, a website scan or a page scan may change. */
  datatype Change = PageUrl(url: string) | ScanStatus(scanStatus: string) | RunState(runState: string)
  {
    function Type(): ItemType
    {
      match this
      case PageUrl(_) => PageItem
      case ScanStatus(_) => WebsiteScanItem
      case RunState(_) => PageScanItem
    }

    function Apply(d: Document, now: int): Document
      requires d.Type() == Type()
    {
      match this
      case PageUrl(url) => d.(url := url, ts := now)
      case ScanStatus(scanStatus) => d.(scanStatus := scanStatus, ts := now)
      case RunState(runState) => d.(runState := runState, ts := now)
    }
  }

  function NewPage(hash: Hash, newGuid: string, url: string, websiteId: string, now: int): Document
  {
    var id := CreateGuidFromBaseGuid(newGuid, websiteId);
    Page(id, PartitionKey(hash, PageItem, id), websiteId, url, now)
  }

  const DEFAULT_PRIORITY := 0

  function NewWebsiteScan(hash: Hash, newGuid: string, websiteId: string, scanType: string, frequency: string,
                          priority: Option<int>, now: int): Document
  {
    var id := CreateGuidFromBaseGuid(newGuid, websiteId);
    WebsiteScan(id, PartitionKey(hash, WebsiteScanItem, id), websiteId, scanType, frequency, "pending",
                if priority.Some? then priority.value else DEFAULT_PRIORITY, now)
  }

  function NewPageScan(hash: Hash, newGuid: string, pageId: string, websiteScanId: string, priority: int, now: int): Document
  {
    var id := CreateGuidFromBaseGuid(newGuid, pageId);
    PageScan(id, PartitionKey(hash, PageScanItem, id), pageId, websiteScanId, priority, "pending", now)
  }

  function Updated(c: Container, key: (string, string), change: Change, now: int): Container
  {
    if key in c && c[key].Type() == change.Type() then c[key := change.Apply(c[key], now)] else c
  }

  function Step(hash: Hash, st: State, ev: Event): State
  {
    match ev
    case CreatePage(newGuid, url, websiteId, now) =>
      st.(websiteRepo := Write(st.websiteRepo, NewPage(hash, newGuid, url, websiteId, now)))
    case CreateWebsiteScan(newGuid, websiteId, scanType, frequency, priority, now) =>
      st.(scanRepo := Write(st.scanRepo, NewWebsiteScan(hash, newGuid, websiteId, scanType, frequency, priority, now)))
    case CreatePageScan(newGuid, pageId, websiteScanId, priority, now) =>
      st.(scanRepo := Write(st.scanRepo, NewPageScan(hash, newGuid, pageId, websiteScanId, priority, now)))
    case Update(id, change, now) =>
      var key := KeyOf(hash, change.Type(), id);
      if change.PageUrl? then st.(websiteRepo := Updated(st.websiteRepo, key, change, now))
      else st.(scanRepo := Updated(st.scanRepo, key, change, now))
    case DeletePage(id) => st.(websiteRepo := st.websiteRepo - {KeyOf(hash, PageItem, id)})
  }

  /** Updates, deletions and reads by identifier compute the key from it. */
  function KeyOf(hash: Hash, itemType: ItemType, id: string): (string, string)
  {
    (PartitionKey(hash, itemType, id), id)
  }

  predicate Creates(ev: Event) { ev.CreatePage? || ev.CreateWebsiteScan? || ev.CreatePageScan? }

  /** New identifiers are version 6 GUIDs. */
  predicate WellFormed(ev: Event)
  {
    Creates(ev) ==> IsValidV6Guid(ev.newGuid)
  }

  /** A page is scanned in a scan of its own website: both documents exist and name one website. */
  ghost predicate SameWebsite(st: State, ev: Event)
  {
    ev.CreatePageScan? ==>
      exists p, s :: Links(st, ev, p, s)
  }

  predicate Links(st: State, ev: Event, p: (string, string), s: (string, string))
  {
    && ev.CreatePageScan?
    && p in st.websiteRepo && st.websiteRepo[p].Page? && st.websiteRepo[p].id == ev.pageId
    && s in st.scanRepo && st.scanRepo[s].WebsiteScan? && st.scanRepo[s].id == ev.websiteScanId
    && st.websiteRepo[p].websiteId == st.scanRepo[s].websiteId
  }

  /** The store after a run of events; the run is ordered from its last event inwards. */
  function Run(hash: Hash, events: seq<Event>): State
  {
    if |events| == 0 then State(map[], map[])
    else Step(hash, Run(hash, events[..|events| - 1]), events[|events| - 1])
  }

  ghost predicate WellFormedRun(events: seq<Event>)
  {
    forall i :: 0 <= i < |events| ==> WellFormed(events[i])
  }

  /** Every page scan of the run is of a page and a website scan of one website. */
  ghost predicate SameWebsiteRun(hash: Hash, events: seq<Event>)
  {
    forall i :: 0 <= i < |events| ==> SameWebsite(Run(hash, events[..i]), events[i])
  }

  // ----- What every step keeps -----

  /** The document sits at its key, in the partition of its own GUID, which has its parent's node. */
  predicate Placed(hash: Hash, c: Container, key: (string, string))
    requires key in c
  {
    PlacedAt(hash, key, c[key])
  }

  predicate PlacedAt(hash: Hash, key: (string, string), d: Document)
  {
    && key == (d.partitionKey, d.id)
    && d.partitionKey == PartitionKey(hash, d.Type(), d.id)
    && GetGuidNode(d.id) == GetGuidNode(d.Parent())
  }

  ghost predicate AllPlaced(hash: Hash, c: Container)
  {
    forall key :: key in c ==> Placed(hash, c, key)
  }

  ghost predicate Inv(hash: Hash, st: State)
  {
    AllPlaced(hash, st.websiteRepo) && AllPlaced(hash, st.scanRepo)
  }

  /** A page scan's website scan has the node of its page. */
  ghost predicate ScansAligned(c: Container)
  {
    forall key :: key in c && c[key].PageScan? ==> GetGuidNode(c[key].pageId) == GetGuidNode(c[key].websiteScanId)
  }

  lemma StepKeepsPlacement(hash: Hash, st: State, ev: Event)
    requires Inv(hash, st) && WellFormed(ev)
    ensures Inv(hash, Step(hash, st, ev))
  {
    match ev
    case CreatePage(newGuid, url, websiteId, now) =>
      DerivedNode(newGuid, websiteId);
      WriteKeepsPlacement(hash, st.websiteRepo, NewPage(hash, newGuid, url, websiteId, now));
    case CreateWebsiteScan(newGuid, websiteId, scanType, frequency, priority, now) =>
      DerivedNode(newGuid, websiteId);
      WriteKeepsPlacement(hash, st.scanRepo, NewWebsiteScan(hash, newGuid, websiteId, scanType, frequency, priority, now));
    case CreatePageScan(newGuid, pageId, websiteScanId, priority, now) =>
      DerivedNode(newGuid, pageId);
      WriteKeepsPlacement(hash, st.scanRepo, NewPageScan(hash, newGuid, pageId, websiteScanId, priority, now));
    case _ => ChangeKeepsPlacement(hash, st, ev);
  }

  lemma WriteKeepsPlacement(hash: Hash, c: Container, d: Document)
    requires AllPlaced(hash, c) && PlacedAt(hash, (d.partitionKey, d.id), d)
    ensures AllPlaced(hash, Write(c, d))
  {
    forall k | k in Write(c, d) ensures Placed(hash, Write(c, d), k) {
      if k != (d.partitionKey, d.id) {
        assert Placed(hash, c, k);
      }
    }
  }

  lemma ChangeKeepsPlacement(hash: Hash, st: State, ev: Event)
    requires Inv(hash, st) && !Creates(ev)
    ensures Inv(hash, Step(hash, st, ev))
  {
    match ev
    case Update(id, change, now) =>
      var key := KeyOf(hash, change.Type(), id);
      UpdateKeepsPlacement(hash, if change.PageUrl? then st.websiteRepo else st.scanRepo, key, change, now);
    case DeletePage(id) =>
  }

  lemma UpdateKeepsPlacement(hash: Hash, c: Container, key: (string, string), change: Change, now: int)
    requires AllPlaced(hash, c)
    ensures AllPlaced(hash, Updated(c, key, change, now))
  {
    var next := Updated(c, key, change, now);
    forall k | k in next ensures Placed(hash, next, k) {
      assert Placed(hash, c, k);
      SamePlacement(hash, k, c[k], next[k]);
    }
  }

  predicate SameIdentity(d: Document, e: Document)
  {
    d.id == e.id && d.partitionKey == e.partitionKey && d.Type() == e.Type() && d.Parent() == e.Parent()
  }

  lemma SamePlacement(hash: Hash, key: (string, string), d: Document, e: Document)
    requires PlacedAt(hash, key, d) && SameIdentity(d, e)
    ensures PlacedAt(hash, key, e)
  {
  }

  lemma StepKeepsAlignment(hash: Hash, st: State, ev: Event)
    requires Inv(hash, st) && ScansAligned(st.scanRepo) && SameWebsite(st, ev)
    ensures ScansAligned(Step(hash, st, ev).scanRepo)
  {
    match ev
    case CreatePageScan(newGuid, pageId, websiteScanId, priority, now) =>
      var p, s :| Links(st, ev, p, s);
      LinkedNodes(hash, st, ev, p, s);
      WriteKeepsAlignment(st.scanRepo, NewPageScan(hash, newGuid, pageId, websiteScanId, priority, now));
    case CreateWebsiteScan(newGuid, websiteId, scanType, frequency, priority, now) =>
      WriteKeepsAlignment(st.scanRepo, NewWebsiteScan(hash, newGuid, websiteId, scanType, frequency, priority, now));
    case Update(id, change, now) =>
      UpdateKeepsAlignment(st.scanRepo, KeyOf(hash, change.Type(), id), change, now);
    case _ =>
  }

  lemma LinkedNodes(hash: Hash, st: State, ev: Event, p: (string, string), s: (string, string))
    requires Inv(hash, st) && Links(st, ev, p, s)
    ensures GetGuidNode(ev.pageId) == GetGuidNode(ev.websiteScanId)
  {
    assert Placed(hash, st.websiteRepo, p) && Placed(hash, st.scanRepo, s);
  }

  lemma WriteKeepsAlignment(c: Container, d: Document)
    requires ScansAligned(c) && (d.PageScan? ==> GetGuidNode(d.pageId) == GetGuidNode(d.websiteScanId))
    ensures ScansAligned(Write(c, d))
  {
  }

  lemma UpdateKeepsAlignment(c: Container, key: (string, string), change: Change, now: int)
    requires ScansAligned(c)
    ensures ScansAligned(Updated(c, key, change, now))
  {
  }

  lemma {:induction false} RunIsPlaced(hash: Hash, events: seq<Event>)
    requires WellFormedRun(events)
    ensures Inv(hash, Run(hash, events))
  {
    if |events| > 0 {
      var before := events[..|events| - 1];
      RunIsPlaced(hash, before);
      StepKeepsPlacement(hash, Run(hash, before), events[|events| - 1]);
    }
  }

  lemma {:induction false} RunIsAligned(hash: Hash, events: seq<Event>)
    requires WellFormedRun(events) && SameWebsiteRun(hash, events)
    ensures ScansAligned(Run(hash, events).scanRepo)
  {
    if |events| > 0 {
      var before := events[..|events| - 1];
      forall i | 0 <= i < |before| ensures SameWebsite(Run(hash, before[..i]), before[i]) {
        assert before[..i] == events[..i];
      }
      RunIsPlaced(hash, before);
      RunIsAligned(hash, before);
      StepKeepsAlignment(hash, Run(hash, before), events[|events| - 1]);
    }
  }

  // ----- Queries -----

  datatype Query =
    | PagesForWebsite(websiteId: string)
    | ScansForWebsite(websiteId: string)
    | LatestScanForWebsite(websiteId: string, scanType: string)
    | PageScansForWebsiteScan(websiteScanId: string)
    | LatestPageScan(websiteScanId: string, pageId: string, completed: bool)
  {
    function Type(): ItemType
    {
      match this
      case PagesForWebsite(_) => PageItem
      case ScansForWebsite(_) => WebsiteScanItem
      case LatestScanForWebsite(_, _) => WebsiteScanItem
      case PageScansForWebsiteScan(_) => PageScanItem
      case LatestPageScan(_, _, _) => PageScanItem
    }

    /** The identifier whose partition the query looks in. */
    function Anchor(): string
    {
      if PageScansForWebsiteScan? || LatestPageScan? then websiteScanId else websiteId
    }

    function Target(st: State): Container
    {
      if PagesForWebsite? then st.websiteRepo else st.scanRepo
    }

    /** The query's conditions other than the one on the partition key. */
    predicate Selects(d: Document)
    {
      && d.Type() == Type()
      && match this
         case PagesForWebsite(w) => d.websiteId == w
         case ScansForWebsite(w) => d.websiteId == w
         case LatestScanForWebsite(w, t) => d.websiteId == w && d.scanType == t
         case PageScansForWebsiteScan(s) => d.websiteScanId == s
         case LatestPageScan(s, p, completed) =>
           && d.websiteScanId == s && d.pageId == p
           && (completed ==> d.runState in {"completed", "failed"})
    }
  }

  function Results(hash: Hash, st: State, q: Query): set<Document>
  {
    var c := q.Target(st);
    set key | key in c && c[key].partitionKey == PartitionKey(hash, q.Type(), q.Anchor()) && q.Selects(c[key]) :: c[key]
  }

  function ResultsAnywhere(st: State, q: Query): set<Document>
  {
    var c := q.Target(st);
    set key | key in c && q.Selects(c[key]) :: c[key]
  }

  /**
   In every reachable store every query finds in its one partition all the documents it is about.
   The queries that take the newest row choose it from these results, so they are covered too.
   */
  lemma PartitionFilterIsComplete(hash: Hash, events: seq<Event>, q: Query)
    requires WellFormedRun(events) && SameWebsiteRun(hash, events)
    ensures Results(hash, Run(hash, events), q) == ResultsAnywhere(Run(hash, events), q)
  {
    RunIsPlaced(hash, events);
    RunIsAligned(hash, events);
    var st := Run(hash, events);
    var c := q.Target(st);
    forall key | key in c && q.Selects(c[key])
      ensures c[key].partitionKey == PartitionKey(hash, q.Type(), q.Anchor())
    {
      assert Placed(hash, c, key);
      SameNodeSamePartition(hash, q.Type(), c[key].id, q.Anchor());
    }
  }

  /**
   Without the same-website rule a query still misses nothing exactly when the parents of the documents
   it selects hash to its partition; for pages and website scans that is always so.
   */
  lemma PartitionFilterExact(hash: Hash, events: seq<Event>, q: Query)
    requires WellFormedRun(events)
    ensures Results(hash, Run(hash, events), q) == ResultsAnywhere(Run(hash, events), q)
            <==> forall d :: d in ResultsAnywhere(Run(hash, events), q) ==>
                   PartitionKey(hash, q.Type(), d.Parent()) == PartitionKey(hash, q.Type(), q.Anchor())
    ensures q.Type() != PageScanItem ==> Results(hash, Run(hash, events), q) == ResultsAnywhere(Run(hash, events), q)
  {
    var st := Run(hash, events);
    var target := PartitionKey(hash, q.Type(), q.Anchor());
    var all := ResultsAnywhere(st, q);
    forall d | d in all
      ensures d.partitionKey == PartitionKey(hash, q.Type(), d.Parent())
      ensures q.Type() != PageScanItem ==> d.Parent() == q.Anchor()
    {
      ResultIsInParentPartition(hash, events, q, d);
    }
    assert Results(hash, st, q) == set d | d in all && d.partitionKey == target;
  }

  lemma ResultIsInParentPartition(hash: Hash, events: seq<Event>, q: Query, d: Document)
    requires WellFormedRun(events)
    requires d in ResultsAnywhere(Run(hash, events), q)
    ensures d.partitionKey == PartitionKey(hash, q.Type(), d.Parent())
  {
    RunIsPlaced(hash, events);
    var c := q.Target(Run(hash, events));
    var key :| key in c && q.Selects(c[key]) && c[key] == d;
    assert Placed(hash, c, key);
    SameNodeSamePartition(hash, q.Type(), d.id, d.Parent());
  }

  /** Reading a page or a scan by identifier computes the key under which the document was written. */
  lemma PointReadsHit(hash: Hash, events: seq<Event>, key: (string, string))
    requires WellFormedRun(events)
    ensures key in Run(hash, events).websiteRepo ==>
              var d := Run(hash, events).websiteRepo[key];
              d.id == key.1 && key == KeyOf(hash, d.Type(), d.id)
    ensures key in Run(hash, events).scanRepo ==>
              var d := Run(hash, events).scanRepo[key];
              d.id == key.1 && key == KeyOf(hash, d.Type(), d.id)
  {
    RunIsPlaced(hash, events);
    assert key in Run(hash, events).websiteRepo ==> Placed(hash, Run(hash, events).websiteRepo, key);
    assert key in Run(hash, events).scanRepo ==> Placed(hash, Run(hash, events).scanRepo, key);
  }

  // ----- The whole store, told from the events -----

  function TypeOf(ev: Event): ItemType
    requires Creates(ev)
  {
    match ev
    case CreatePage(_, _, _, _) => PageItem
    case CreateWebsiteScan(_, _, _, _, _, _) => WebsiteScanItem
    case CreatePageScan(_, _, _, _, _) => PageScanItem
  }

  /** The identifier of the document a creation makes: its own identifier up to the node, then its parent's node. */
  function NewId(ev: Event): string
    requires Creates(ev) && WellFormed(ev)
  {
    ev.newGuid[..24] + GetGuidNode(if ev.CreatePageScan? then ev.pageId else ev.websiteId)
  }

  function NewKey(hash: Hash, ev: Event): (string, string)
    requires Creates(ev) && WellFormed(ev)
  {
    KeyOf(hash, TypeOf(ev), NewId(ev))
  }

  /** New identifiers differ in front of their nodes. */
  ghost predicate FreshRun(events: seq<Event>)
    requires WellFormedRun(events)
  {
    forall i, j :: 0 <= i < j < |events| && Creates(events[i]) && Creates(events[j]) ==>
      events[i].newGuid[..24] != events[j].newGuid[..24]
  }

  /** The latest change of a document behind the event that created it, and when it was made. */
  function LastChange(events: seq<Event>, i: nat, id: string, itemType: ItemType): Option<(Change, int)>
    requires i < |events|
  {
    if |events| == i + 1 then None
    else
      var last := Last(events);
      if last.Update? && last.id == id && last.change.Type() == itemType then Some((last.change, last.now))
      else LastChange(AllButLast(events), i, id, itemType)
  }

  function PageUrlNow(events: seq<Event>, i: nat): string
    requires WellFormedRun(events) && i < |events| && events[i].CreatePage?
  {
    match LastChange(events, i, NewId(events[i]), PageItem)
    case Some((PageUrl(url), _)) => url
    case _ => events[i].url
  }

  function ScanStatusNow(events: seq<Event>, i: nat): string
    requires WellFormedRun(events) && i < |events| && events[i].CreateWebsiteScan?
  {
    match LastChange(events, i, NewId(events[i]), WebsiteScanItem)
    case Some((ScanStatus(scanStatus), _)) => scanStatus
    case _ => "pending"
  }

  function RunStateNow(events: seq<Event>, i: nat): string
    requires WellFormedRun(events) && i < |events| && events[i].CreatePageScan?
  {
    match LastChange(events, i, NewId(events[i]), PageScanItem)
    case Some((RunState(runState), _)) => runState
    case _ => "pending"
  }

  function TimeNow(events: seq<Event>, i: nat): int
    requires WellFormedRun(events) && i < |events| && Creates(events[i])
  {
    match LastChange(events, i, NewId(events[i]), TypeOf(events[i]))
    case Some((_, now)) => now
    case None => events[i].now
  }

  /** The document made by the i-th event, field by field. */
  predicate IsNow(d: Document, events: seq<Event>, i: nat)
    requires WellFormedRun(events) && i < |events|
  {
    match events[i]
    case CreatePage(newGuid, url, websiteId, now) =>
      && d.Page? && d.id == NewId(events[i]) && d.websiteId == websiteId
      && d.url == PageUrlNow(events, i) && d.ts == TimeNow(events, i)
    case CreateWebsiteScan(newGuid, websiteId, scanType, frequency, priority, now) =>
      && d.WebsiteScan? && d.id == NewId(events[i]) && d.websiteId == websiteId
      && d.scanType == scanType && d.scanFrequency == frequency && d.priority == (if priority.Some? then priority.value else 0)
      && d.scanStatus == ScanStatusNow(events, i) && d.ts == TimeNow(events, i)
    case CreatePageScan(newGuid, pageId, websiteScanId, priority, now) =>
      && d.PageScan? && d.id == NewId(events[i]) && d.pageId == pageId && d.websiteScanId == websiteScanId
      && d.priority == priority && d.runState == RunStateNow(events, i) && d.ts == TimeNow(events, i)
    case _ => false
  }

  /** A later event deleted the page. */
  ghost predicate Deleted(events: seq<Event>, i: nat)
    requires WellFormedRun(events) && i < |events|
  {
    events[i].CreatePage? && exists j :: i < j < |events| && events[j] == DeletePage(NewId(events[i]))
  }

  function ContainerFor(st: State, ev: Event): Container
  {
    if ev.CreatePage? then st.websiteRepo else st.scanRepo
  }

  lemma PrefixOfRun(events: seq<Event>)
    requires WellFormedRun(events) && FreshRun(events) && |events| > 0
    ensures WellFormedRun(AllButLast(events)) && FreshRun(AllButLast(events))
  {
  }

  /** What a creation writes. */
  lemma Creation(hash: Hash, st: State, ev: Event) returns (d: Document)
    requires Creates(ev) && WellFormed(ev)
    ensures IsNow(d, [ev], 0)
    ensures ContainerFor(Step(hash, st, ev), ev) == ContainerFor(st, ev)[NewKey(hash, ev) := d]
    ensures if ev.CreatePage? then Step(hash, st, ev).scanRepo == st.scanRepo else Step(hash, st, ev).websiteRepo == st.websiteRepo
  {
    match ev
    case CreatePage(newGuid, url, websiteId, now) => d := NewPage(hash, newGuid, url, websiteId, now);
    case CreateWebsiteScan(newGuid, websiteId, scanType, frequency, priority, now) =>
      d := NewWebsiteScan(hash, newGuid, websiteId, scanType, frequency, priority, now);
    case CreatePageScan(newGuid, pageId, websiteScanId, priority, now) =>
      d := NewPageScan(hash, newGuid, pageId, websiteScanId, priority, now);
  }

  ghost predicate MadeAt(hash: Hash, events: seq<Event>, i: nat, key: (string, string), page: bool)
  {
    i < |events| && Creates(events[i]) && WellFormed(events[i]) && events[i].CreatePage? == page && NewKey(hash, events[i]) == key
  }

  /** Everything stored was created. */
  lemma {:induction false} StoredWasCreated(hash: Hash, events: seq<Event>, key: (string, string))
    requires WellFormedRun(events)
    ensures key in Run(hash, events).websiteRepo ==> exists i :: MadeAt(hash, events, i, key, true)
    ensures key in Run(hash, events).scanRepo ==> exists i :: MadeAt(hash, events, i, key, false)
  {
    if |events| > 0 {
      var before, ev := AllButLast(events), Last(events);
      assert WellFormed(ev);
      StoredWasCreated(hash, before, key);
      StepKeys(hash, Run(hash, before), ev, key);
      assert forall i, page :: MadeAt(hash, before, i, key, page) ==> MadeAt(hash, events, i, key, page);
      assert Creates(ev) && NewKey(hash, ev) == key ==> MadeAt(hash, events, |events| - 1, key, ev.CreatePage?);
    }
  }

  lemma StepKeys(hash: Hash, st: State, ev: Event, key: (string, string))
    requires WellFormed(ev)
    ensures key in Step(hash, st, ev).websiteRepo ==> key in st.websiteRepo || (ev.CreatePage? && key == NewKey(hash, ev))
    ensures key in Step(hash, st, ev).scanRepo ==>
              key in st.scanRepo || (Creates(ev) && !ev.CreatePage? && key == NewKey(hash, ev))
  {
    if Creates(ev) {
      var d := Creation(hash, st, ev);
    }
  }

  lemma NewIdsDiffer(events: seq<Event>, i: nat, j: nat)
    requires WellFormedRun(events) && FreshRun(events) && i < |events| && j < |events| && i != j
    requires Creates(events[i]) && Creates(events[j])
    ensures NewId(events[i]) != NewId(events[j])
  {
    assert NewId(events[i])[..24] == events[i].newGuid[..24] && NewId(events[j])[..24] == events[j].newGuid[..24];
    assert WellFormed(events[i]) && WellFormed(events[j]);
  }

  /** A creation finds its key unused and changes no other document. */
  lemma CreationAdds(hash: Hash, events: seq<Event>) returns (d: Document)
    requires WellFormedRun(events) && FreshRun(events) && |events| > 0 && Creates(Last(events))
    ensures var (before, ev) := (Run(hash, AllButLast(events)), Last(events));
            var after, key := Run(hash, events), NewKey(hash, ev);
            && key !in ContainerFor(before, ev)
            && ContainerFor(after, ev) == ContainerFor(before, ev)[key := d] && IsNow(d, [ev], 0)
            && (if ev.CreatePage? then after.scanRepo == before.scanRepo else after.websiteRepo == before.websiteRepo)
  {
    var ev, key := Last(events), NewKey(hash, Last(events));
    d := Creation(hash, Run(hash, AllButLast(events)), ev);
    PrefixOfRun(events);
    StoredWasCreated(hash, AllButLast(events), key);
    forall i: nat, page | MadeAt(hash, AllButLast(events), i, key, page) ensures false {
      NewIdsDiffer(events, i, |events| - 1);
    }
  }

  /** A document that nothing deleted is stored, with the fields its creation and its latest change gave it. */
  lemma {:induction false} CreatedIsStored(hash: Hash, events: seq<Event>, i: nat)
    requires WellFormedRun(events) && FreshRun(events) && i < |events| && Creates(events[i])
    ensures WellFormed(events[i])
    ensures var c, key := ContainerFor(Run(hash, events), events[i]), NewKey(hash, events[i]);
            && (key in c <==> !Deleted(events, i))
            && (key in c ==> IsNow(c[key], events, i))
    decreases |events|
  {
    assert WellFormed(events[i]);
    if i == |events| - 1 {
      var d := CreationAdds(hash, events);
      assert events[i] == Last(events);
      JustCreated(events, d);
    } else {
      PrefixOfRun(events);
      CreatedIsStored(hash, AllButLast(events), i);
      DeletedLater(events, i);
      LaterStep(hash, Run(hash, AllButLast(events)), events, i);
    }
  }

  /** A later event leaves a document as it should now be, or deletes it. */
  lemma LaterStep(hash: Hash, st: State, events: seq<Event>, i: nat)
    requires WellFormedRun(events) && FreshRun(events) && i < |events| - 1 && Creates(events[i])
    ensures WellFormedRun(AllButLast(events)) && AllButLast(events)[i] == events[i] && WellFormed(events[i])
    ensures var c, c' := ContainerFor(st, events[i]), ContainerFor(Step(hash, st, Last(events)), events[i]);
            var key := NewKey(hash, events[i]);
            && (key in c' <==> key in c && !(events[i].CreatePage? && Last(events) == DeletePage(NewId(events[i]))))
            && (key in c' && IsNow(c[key], AllButLast(events), i) ==> IsNow(c'[key], events, i))
  {
    assert WellFormed(events[i]);
    if Last(events).Update? {
      UpdateAtKey(st, hash, events, i);
    } else if Last(events).DeletePage? {
      DeletionAtKey(st, hash, events, i);
    } else {
      CreationAtKey(hash, st, events, i);
      SameNow(events, i);
    }
  }

  lemma CreationAtKey(hash: Hash, st: State, events: seq<Event>, i: nat)
    requires WellFormedRun(events) && FreshRun(events) && i < |events| - 1 && Creates(events[i]) && Creates(Last(events))
    ensures WellFormed(events[i])
    ensures var c, c' := ContainerFor(st, events[i]), ContainerFor(Step(hash, st, Last(events)), events[i]);
            var key := NewKey(hash, events[i]);
            && (key in c' <==> key in c)
            && (key in c' ==> c'[key] == c[key])
  {
    assert WellFormed(events[i]);
    var ev := Last(events);
    var d := Creation(hash, st, ev);
    NewKeysDiffer(hash, events, i, |events| - 1);
    OtherKeyStays(st, Step(hash, st, ev), ev, NewKey(hash, ev), d, events[i], NewKey(hash, events[i]));
  }

  lemma OtherKeyStays(st: State, next: State, ev: Event, written: (string, string), d: Document, other: Event, key: (string, string))
    requires written != key && ContainerFor(next, ev) == ContainerFor(st, ev)[written := d]
    requires if ev.CreatePage? then next.scanRepo == st.scanRepo else next.websiteRepo == st.websiteRepo
    ensures var c, c' := ContainerFor(st, other), ContainerFor(next, other);
            (key in c' <==> key in c) && (key in c' ==> c'[key] == c[key])
  {
  }

  lemma NewKeysDiffer(hash: Hash, events: seq<Event>, i: nat, j: nat)
    requires WellFormedRun(events) && FreshRun(events) && i < |events| && j < |events| && i != j
    requires Creates(events[i]) && Creates(events[j])
    ensures WellFormed(events[i]) && WellFormed(events[j]) && NewKey(hash, events[i]) != NewKey(hash, events[j])
  {
    assert WellFormed(events[i]) && WellFormed(events[j]);
    NewIdsDiffer(events, i, j);
    assert NewKey(hash, events[i]).1 == NewId(events[i]) && NewKey(hash, events[j]).1 == NewId(events[j]);
  }

  lemma SameNow(events: seq<Event>, i: nat)
    requires WellFormedRun(events) && i < |events| - 1 && !Last(events).Update?
    ensures WellFormedRun(AllButLast(events))
    ensures forall d :: IsNow(d, AllButLast(events), i) ==> IsNow(d, events, i)
  {
  }

  lemma DeletionAtKey(st: State, hash: Hash, events: seq<Event>, i: nat)
    requires WellFormedRun(events) && i < |events| - 1 && Creates(events[i]) && Last(events).DeletePage?
    ensures WellFormedRun(AllButLast(events)) && AllButLast(events)[i] == events[i] && WellFormed(events[i])
    ensures var c, c' := ContainerFor(st, events[i]), ContainerFor(Step(hash, st, Last(events)), events[i]);
            var key := NewKey(hash, events[i]);
            && (key in c' <==> key in c && !(events[i].CreatePage? && Last(events).id == NewId(events[i])))
            && (key in c' && IsNow(c[key], AllButLast(events), i) ==> IsNow(c'[key], events, i))
  {
    assert WellFormed(events[i]);
    SameNow(events, i);
  }

  lemma JustCreated(events: seq<Event>, d: Document)
    requires WellFormedRun(events) && |events| > 0 && Creates(Last(events)) && IsNow(d, [Last(events)], 0)
    ensures IsNow(d, events, |events| - 1) && !Deleted(events, |events| - 1)
  {
  }

  lemma DeletedLater(events: seq<Event>, i: nat)
    requires WellFormedRun(events) && i < |events| - 1 && Creates(events[i])
    ensures WellFormedRun(AllButLast(events)) && AllButLast(events)[i] == events[i] && WellFormed(events[i])
    ensures Deleted(events, i) <==> Deleted(AllButLast(events), i) || (events[i].CreatePage? && Last(events) == DeletePage(NewId(events[i])))
  {
    assert WellFormed(events[i]);
    if events[i].CreatePage? && Last(events) == DeletePage(NewId(events[i])) {
      assert events[|events| - 1] == DeletePage(NewId(events[i]));
    }
    assert Deleted(AllButLast(events), i) ==> Deleted(events, i) by {
      assert forall j :: i < j < |events| - 1 ==> AllButLast(events)[j] == events[j];
    }
  }

  /** An update changes the one field it is about, in the one document it names. */
  lemma UpdateAtKey(st: State, hash: Hash, events: seq<Event>, i: nat)
    requires WellFormedRun(events) && i < |events| - 1 && Creates(events[i]) && Last(events).Update?
    ensures WellFormedRun(AllButLast(events)) && AllButLast(events)[i] == events[i] && WellFormed(events[i])
    ensures var c, c', key := ContainerFor(st, events[i]), ContainerFor(Step(hash, st, Last(events)), events[i]), NewKey(hash, events[i]);
            && (key in c <==> key in c')
            && (key in c && IsNow(c[key], AllButLast(events), i) ==> IsNow(c'[key], events, i))
  {
    var ev := Last(events);
    assert WellFormed(events[i]);
    UpdatedAt(ContainerFor(st, events[i]), KeyOf(hash, ev.change.Type(), ev.id), NewKey(hash, events[i]), ev.change, ev.now, events, i);
  }

  lemma UpdatedAt(c: Container, target: (string, string), key: (string, string), change: Change, now: int, events: seq<Event>, i: nat)
    requires WellFormedRun(events) && i < |events| - 1 && Creates(events[i])
    requires WellFormed(events[i]) && key.1 == NewId(events[i])
    requires Last(events) == Update(target.1, change, now)
    requires target.1 == key.1 && change.Type() == TypeOf(events[i]) ==> target == key
    ensures var before := AllButLast(events);
            WellFormedRun(before) && before[i] == events[i]
            && (key in c && IsNow(c[key], before, i) ==>
                  IsNow(Updated(c, target, change, now)[key], events, i)
                  && (change.Type() != TypeOf(events[i]) ==> IsNow(c[key], events, i)))
  {
  }

  /** Whether a query asks for the document made by the i-th event, told from the events. */
  predicate Wants(q: Query, events: seq<Event>, i: nat)
    requires WellFormedRun(events) && i < |events|
  {
    match q
    case PagesForWebsite(w) => events[i].CreatePage? && events[i].websiteId == w
    case ScansForWebsite(w) => events[i].CreateWebsiteScan? && events[i].websiteId == w
    case LatestScanForWebsite(w, t) => events[i].CreateWebsiteScan? && events[i].websiteId == w && events[i].scanType == t
    case PageScansForWebsiteScan(s) => events[i].CreatePageScan? && events[i].websiteScanId == s
    case LatestPageScan(s, p, completed) =>
      && events[i].CreatePageScan? && events[i].websiteScanId == s && events[i].pageId == p
      && (completed ==> RunStateNow(events, i) == "completed" || RunStateNow(events, i) == "failed")
  }

  lemma SelectsIff(d: Document, events: seq<Event>, i: nat, q: Query)
    requires WellFormedRun(events) && i < |events| && IsNow(d, events, i)
    ensures q.Selects(d) <==> Wants(q, events, i)
  {
  }

  lemma SameCreation(hash: Hash, events: seq<Event>, i: nat, j: nat, key: (string, string), page: bool)
    requires WellFormedRun(events) && FreshRun(events) && i < |events| && Creates(events[i]) && WellFormed(events[i])
    requires MadeAt(hash, events, j, key, page) && key.1 == NewId(events[i])
    ensures i == j
  {
    assert NewKey(hash, events[j]).1 == NewId(events[j]);
    if i != j {
      NewIdsDiffer(events, i, j);
    }
  }

  lemma IdIsInKey(hash: Hash, c: Container, key: (string, string))
    requires AllPlaced(hash, c) && key in c
    ensures c[key].id == key.1
  {
    assert Placed(hash, c, key);
  }

  /** What a query finds under the identifier of a creation is the document it made. */
  lemma FoundIsCreated(hash: Hash, events: seq<Event>, st: State, i: nat, q: Query, key: (string, string))
    requires WellFormedRun(events) && FreshRun(events) && i < |events| && Creates(events[i]) && WellFormed(events[i])
    requires st == Run(hash, events) && key in q.Target(st) && q.Target(st)[key].id == NewId(events[i])
    ensures key == NewKey(hash, events[i]) && q.Target(st) == ContainerFor(st, events[i])
  {
    RunIsPlaced(hash, events);
    IdIsInKey(hash, q.Target(st), key);
    StoredWasCreated(hash, events, key);
    var j: nat :| MadeAt(hash, events, j, key, q.PagesForWebsite?);
    SameCreation(hash, events, i, j, key, q.PagesForWebsite?);
  }

  /**
   Every document that was created and not deleted is found by exactly the queries that ask for it, with the fields
   it has now.
   */
  lemma QueryFindsIff(hash: Hash, events: seq<Event>, st: State, i: nat, q: Query)
    requires WellFormedRun(events) && FreshRun(events) && SameWebsiteRun(hash, events) && st == Run(hash, events)
    requires i < |events| && Creates(events[i]) && !Deleted(events, i)
    ensures WellFormed(events[i])
    ensures (exists d :: d in Results(hash, st, q) && d.id == NewId(events[i])) <==> Wants(q, events, i)
    ensures forall d :: d in Results(hash, st, q) && d.id == NewId(events[i]) ==> IsNow(d, events, i)
  {
    assert WellFormed(events[i]);
    PartitionFilterIsComplete(hash, events, q);
    CreatedIsStored(hash, events, i);
    var own := ContainerFor(st, events[i])[NewKey(hash, events[i])];
    forall d | d in ResultsAnywhere(st, q) && d.id == NewId(events[i]) ensures d == own && Wants(q, events, i) {
      var key :| key in q.Target(st) && q.Selects(q.Target(st)[key]) && q.Target(st)[key] == d;
      FoundIsCreated(hash, events, st, i, q, key);
      SelectsIff(d, events, i, q);
    }
    if Wants(q, events, i) {
      SelectsIff(own, events, i, q);
      Selected(st, q, NewKey(hash, events[i]));
      assert own in ResultsAnywhere(st, q);
    }
  }

  lemma Selected(st: State, q: Query, key: (string, string))
    requires key in q.Target(st) && q.Selects(q.Target(st)[key])
    ensures q.Target(st)[key] in ResultsAnywhere(st, q)
  {
  }

  // ----- The providers -----

  /** The two containers behind the page, website scan and page scan providers. */
  class Providers {
    const hash: Hash
    var websiteRepo: Container
    var scanRepo: Container

    constructor (hash: Hash)
      ensures this.hash == hash && Contents() == Run(hash, [])
    {
      this.hash := hash;
      websiteRepo := map[];
      scanRepo := map[];
    }

    function Contents(): State
      reads this
    {
      State(websiteRepo, scanRepo)
    }

    method CreatePageForWebsite(newGuid: string, pageUrl: string, websiteId: string, now: int) returns (page: Document)
      modifies this`websiteRepo
      ensures Contents() == Step(hash, old(Contents()), CreatePage(newGuid, pageUrl, websiteId, now))
      ensures page.Page? && page.url == pageUrl && page.websiteId == websiteId
      ensures (page.partitionKey, page.id) in websiteRepo && websiteRepo[(page.partitionKey, page.id)] == page
    {
      var id := CreateGuidFromBaseGuid(newGuid, websiteId);
      page := Page(id, PartitionKey(hash, PageItem, id), websiteId, pageUrl, now);
      websiteRepo := websiteRepo[(page.partitionKey, page.id) := page];
    }

    method CreateScanDocumentForWebsite(newGuid: string, websiteId: string, scanType: string, frequency: string,
                                        priority: Option<int>, now: int)
      returns (scan: Document)
      modifies this`scanRepo
      ensures Contents() == Step(hash, old(Contents()), CreateWebsiteScan(newGuid, websiteId, scanType, frequency, priority, now))
      ensures scan.WebsiteScan? && scan.websiteId == websiteId && scan.scanType == scanType
      ensures scan.scanFrequency == frequency && scan.scanStatus == "pending"
      ensures scan.priority == if priority.Some? then priority.value else DEFAULT_PRIORITY
      ensures (scan.partitionKey, scan.id) in scanRepo && scanRepo[(scan.partitionKey, scan.id)] == scan
    {
      var id := CreateGuidFromBaseGuid(newGuid, websiteId);
      var effectivePriority := DEFAULT_PRIORITY;
      if priority.Some? {
        effectivePriority := priority.value;
      }
      scan := WebsiteScan(id, PartitionKey(hash, WebsiteScanItem, id), websiteId, scanType, frequency, "pending",
                          effectivePriority, now);
      scanRepo := scanRepo[(scan.partitionKey, scan.id) := scan];
    }

    method CreatePageScanDocument(newGuid: string, pageId: string, websiteScanId: string, priority: int, now: int)
      returns (pageScan: Document)
      modifies this`scanRepo
      ensures Contents() == Step(hash, old(Contents()), CreatePageScan(newGuid, pageId, websiteScanId, priority, now))
      ensures pageScan.PageScan? && pageScan.pageId == pageId && pageScan.websiteScanId == websiteScanId
      ensures (pageScan.partitionKey, pageScan.id) in scanRepo && scanRepo[(pageScan.partitionKey, pageScan.id)] == pageScan
    {
      var id := CreateGuidFromBaseGuid(newGuid, pageId);
      pageScan := PageScan(id, PartitionKey(hash, PageScanItem, id), pageId, websiteScanId, priority, "pending", now);
      scanRepo := scanRepo[(pageScan.partitionKey, pageScan.id) := pageScan];
    }
  }
}
