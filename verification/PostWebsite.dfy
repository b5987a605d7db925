/**
 Posting a website: post-website-controller.ts over website-provider.ts and page-provider.ts. The website
 document is created or merged, its pages are listed, and a page is created for every known URL that has none.

 Only one post runs at a time here. New identifiers and etags are parameters. The pages of a website are
 listed by website identifier; module PartitionRouting shows that the partition filter of the query hides none.
 */
module PostWebsite {
  import opened Wrappers
  import opened DocumentMerge
  import opened WireFormat
  import opened UpdateProtocol
  import Guids = GuidGenerator

  const WEBSITE_PARTITION := "websiteDocuments"
  const ITEM_TYPE := "itemType"

  datatype Page = Page(id: string, websiteId: string, url: string)

  /**
   What the request validator leaves of the body's possibilities: the pages are an array of strings, the identifier
   is a string if given. Any other properties may be there; a partition key among them is taken to be a string.
   */
  predicate ValidRequest(request: Fields)
  {
    && IsPageList(Get(request, KNOWN_PAGES))
    && (ID in request ==> request[ID].Str?)
    && (PARTITION_KEY in request ==> request[PARTITION_KEY].Str?)
  }

  predicate IsPageList(v: Json)
  {
    v.Arr? && forall i :: 0 <= i < |v.items| ==> v.items[i].Str?
  }

  // ----- Lists of URLs and pages -----

  /** The URLs of a document's knownPages; _.difference treats anything but an array as empty. */
  function KnownUrls(website: Fields): (r: seq<string>)
  {
    var v := Get(website, KNOWN_PAGES);
    if v.Arr? then Strings(v.items) else []
  }

  function Strings(items: seq<Json>): seq<string>
  {
    if |items| == 0 then []
    else
      var rest := Strings(items[..|items| - 1]);
      if items[|items| - 1].Str? then rest + [items[|items| - 1].s] else rest
  }

  /** _.difference: keeps order and repetitions. */
  function Difference(urls: seq<string>, existing: seq<string>): seq<string>
  {
    if |urls| == 0 then []
    else
      var rest := Difference(urls[..|urls| - 1], existing);
      if urls[|urls| - 1] in existing then rest else rest + [urls[|urls| - 1]]
  }

  function PagesFor(pages: seq<Page>, websiteId: string): seq<Page>
  {
    if |pages| == 0 then []
    else
      var rest := PagesFor(pages[..|pages| - 1], websiteId);
      if pages[|pages| - 1].websiteId == websiteId then rest + [pages[|pages| - 1]] else rest
  }

  function Urls(pages: seq<Page>): (r: seq<string>)
    ensures |r| == |pages|
  {
    seq(|pages|, i requires 0 <= i < |pages| => pages[i].url)
  }

  /** How many page documents a website has for a URL. */
  function PageCount(pages: seq<Page>, websiteId: string, url: string): nat
  {
    if |pages| == 0 then 0
    else
      PageCount(pages[..|pages| - 1], websiteId, url)
      + if pages[|pages| - 1].websiteId == websiteId && pages[|pages| - 1].url == url then 1 else 0
  }

  function Times(urls: seq<string>, url: string): nat
  {
    if |urls| == 0 then 0
    else Times(urls[..|urls| - 1], url) + if urls[|urls| - 1] == url then 1 else 0
  }

  function NewPages(urls: seq<string>, websiteId: string, newGuids: nat -> string): (r: seq<Page>)
    ensures |r| == |urls|
  {
    seq(|urls|, i requires 0 <= i < |urls| =>
          Page(Guids.CreateGuidFromBaseGuid(newGuids(i), websiteId), websiteId, urls[i]))
  }

  // ----- What a post does -----

  datatype Contents = Contents(items: Items, pages: seq<Page>)

  datatype Answer =
    | Posted(status: int, website: Fields, pages: seq<Page>)
    | Threw

  /** normalizeDbDocument of a new website: its own fields win over the defaults. */
  function NewWebsite(request: Fields, newId: string): Fields
  {
    map[ID := Str(newId), ITEM_TYPE := Str("website"), PARTITION_KEY := Str(WEBSITE_PARTITION)] + request
  }

  /** normalizeDbDocument of an update. */
  function WebsiteUpdate(request: Fields): Fields
  {
    map[ID := Undefined, ITEM_TYPE := Str("website"), PARTITION_KEY := Str(WEBSITE_PARTITION)] + request
  }

  /** A website is kept in the constant partition, unless the request brings a partition key of its own. */
  function AddressOf(request: Fields, id: string): Address
    requires ValidRequest(request)
  {
    (if PARTITION_KEY in request then request[PARTITION_KEY].s else WEBSITE_PARTITION, id)
  }

  /** The website document the controller goes on with, and the container afterwards; None when the call throws. */
  function CreateOrUpdate(items: Items, request: Fields, newId: string, newEtag: string): Option<(Items, Fields)>
    requires ValidRequest(request)
  {
    if ID !in request then
      var website := NewWebsite(request, newId);
      var address := AddressOf(request, newId);
      var sent := AssignPartitionKey(website, address.0);
      if Admits(items, address, IfMatch(sent)) then Some((items[address := Stored(sent, newEtag)], website)) else None
    else
      var update := WebsiteUpdate(request);
      var address := AddressOf(request, request[ID].s);
      if address in items then
        if Mergeable(UnionKnownPages, "", Obj(items[address]), Obj(update)) then
          var kept := Stored(AssignPartitionKey(Update(UnionKnownPages, items[address], update), address.0), newEtag);
          Some((items[address := kept], kept))
        else None
      else if IfMatch(update).None? then
        var kept := Stored(AssignPartitionKey(update, address.0), newEtag);
        Some((items[address := kept], kept))
      else None
  }

  function IdOf(website: Fields): string
  {
    if Get(website, ID).Str? then website[ID].s else ""
  }

  function Post(c: Contents, request: Fields, newId: string, newEtag: string, newGuids: nat -> string): (Contents, Answer)
    requires ValidRequest(request)
  {
    match CreateOrUpdate(c.items, request, newId, newEtag)
    case None => (c, Threw)
    case Some((items, website)) =>
      var id := IdOf(website);
      var existing := PagesFor(c.pages, id);
      var newUrls := Difference(KnownUrls(website), Urls(existing));
      var created := NewPages(newUrls, id, newGuids);
      (Contents(items, c.pages + created),
       Posted(if ID !in request || |newUrls| > 0 then 201 else 200, website, existing + created))
  }

  class PostWebsiteController {
    const websites: CosmosContainerClient
    var pages: seq<Page>

    constructor (websites: CosmosContainerClient)
      ensures this.websites == websites && pages == []
    {
      this.websites := websites;
      pages := [];
    }

    predicate Valid()
      reads this, websites
    {
      forall address :: address in websites.items ==> Get(websites.items[address], ETAG).Str?
    }

    method CreateOrUpdateWebsite(request: Fields, newId: string, newEtag: string)
      returns (website: Option<Fields>, created: bool)
      requires Valid() && ValidRequest(request)
      modifies websites
      ensures Valid()
      ensures match CreateOrUpdate(old(websites.items), request, newId, newEtag)
              case None => website == None && websites.items == old(websites.items)
              case Some((items, doc)) => website == Some(doc) && websites.items == items
      ensures website.Some? ==> created == (ID !in request)
    {
      created := false;
      if ID !in request {
        var doc := NewWebsite(request, newId);
        var outcome := websites.UpsertItem(doc, newId, AddressOf(request, newId).0, true, newEtag);
        created := true;
        website := if outcome.Returned? then Some(doc) else None;
      } else {
        var update := WebsiteUpdate(request);
        var outcome := websites.MergeOrWriteDocument(update, Some(AddressOf(request, newId).0), true, UnionKnownPages, None, newId, newEtag);
        website := if outcome.Returned? then outcome.response.item else None;
      }
    }

    /** A page for every known URL that has none; the response lists the new pages behind the existing ones. */
    method CreateNewPages(website: Fields, existing: seq<Page>, newGuids: nat -> string)
      returns (responsePages: seq<Page>, created: bool)
      modifies this`pages
      ensures var newUrls := Difference(KnownUrls(website), Urls(existing));
              var newPages := NewPages(newUrls, IdOf(website), newGuids);
              && pages == old(pages) + newPages && responsePages == existing + newPages
              && created == (newUrls != [])
    {
      var id := IdOf(website);
      var newPageUrls := Difference(KnownUrls(website), Urls(existing));
      ghost var newPages := NewPages(newPageUrls, id, newGuids);
      responsePages := existing;
      var i := 0;
      while i < |newPageUrls|
        modifies this`pages
        invariant 0 <= i <= |newPageUrls|
        invariant pages == old(pages) + newPages[..i]
        invariant responsePages == existing + newPages[..i]
      {
        var page := Page(Guids.CreateGuidFromBaseGuid(newGuids(i), id), id, newPageUrls[i]);
        pages := pages + [page];
        responsePages := responsePages + [page];
        i := i + 1;
        assert newPages[..i] == newPages[..i - 1] + [page];
      }
      assert newPages[..i] == newPages;
      created := |newPageUrls| > 0;
    }

    method HandleRequest(request: Fields, newId: string, newEtag: string, newGuids: nat -> string)
      returns (answer: Answer)
      requires Valid() && ValidRequest(request)
      modifies this`pages, websites
      ensures Valid()
      ensures (Contents(websites.items, pages), answer)
              == Post(old(Contents(websites.items, pages)), request, newId, newEtag, newGuids)
    {
      var website, websiteCreated := CreateOrUpdateWebsite(request, newId, newEtag);
      if website.None? {
        return Threw;
      }
      var existing := PagesFor(pages, IdOf(website.value));
      var responsePages, pagesCreated := CreateNewPages(website.value, existing, newGuids);
      answer := Posted(if websiteCreated || pagesCreated then 201 else 200, website.value, responsePages);
    }
  }

  // ----- Counting -----

  lemma {:induction false} CountAppended(pages: seq<Page>, more: seq<Page>, websiteId: string, url: string)
    ensures PageCount(pages + more, websiteId, url) == PageCount(pages, websiteId, url) + PageCount(more, websiteId, url)
  {
    if |more| == 0 {
      assert pages + more == pages;
    } else {
      CountAppended(pages, more[..|more| - 1], websiteId, url);
      assert (pages + more)[..|pages + more| - 1] == pages + more[..|more| - 1];
    }
  }

  lemma {:induction false} CountNew(urls: seq<string>, websiteId: string, newGuids: nat -> string, w: string, url: string)
    ensures PageCount(NewPages(urls, websiteId, newGuids), w, url) == if w == websiteId then Times(urls, url) else 0
  {
    if |urls| > 0 {
      CountNew(urls[..|urls| - 1], websiteId, newGuids, w, url);
      assert NewPages(urls, websiteId, newGuids)[..|urls| - 1] == NewPages(urls[..|urls| - 1], websiteId, newGuids);
    }
  }

  lemma TimesAppended(urls: seq<string>, last: string, url: string)
    ensures Times(urls + [last], url) == Times(urls, url) + if last == url then 1 else 0
  {
    assert (urls + [last])[..|urls|] == urls;
  }

  lemma {:induction false} TimesInDifference(urls: seq<string>, existing: seq<string>, url: string)
    ensures Times(Difference(urls, existing), url) == if url in existing then 0 else Times(urls, url)
  {
    if |urls| > 0 {
      var rest, last := urls[..|urls| - 1], urls[|urls| - 1];
      TimesInDifference(rest, existing, url);
      if last !in existing {
        TimesAppended(Difference(rest, existing), last, url);
      }
    }
  }

  /** The URLs that are left keep their order and repetitions: the difference is taken URL by URL. */
  lemma {:induction false} DifferenceConcat(a: seq<string>, b: seq<string>, existing: seq<string>)
    ensures Difference(a + b, existing) == Difference(a, existing) + Difference(b, existing)
  {
    if |b| == 0 {
      assert a + b == a;
    } else {
      DifferenceConcat(a, b[..|b| - 1], existing);
      assert (a + b)[..|a + b| - 1] == a + b[..|b| - 1];
      DifferenceLast(a + b, existing);
      DifferenceLast(b, existing);
    }
  }

  lemma DifferenceLast(urls: seq<string>, existing: seq<string>)
    requires |urls| > 0
    ensures var last := urls[|urls| - 1];
            Difference(urls, existing) == Difference(urls[..|urls| - 1], existing) + if last in existing then [] else [last]
  {
  }

  lemma DifferenceOfOne(url: string, existing: seq<string>)
    ensures Difference([url], existing) == if url in existing then [] else [url]
  {
    assert [url][..0] == [];
  }

  /** A list of pages is read as it is. */
  lemma {:induction false} PageListIsRead(items: seq<Json>)
    requires IsPageList(Arr(items))
    ensures |Strings(items)| == |items| && forall i :: 0 <= i < |items| ==> items[i] == Str(Strings(items)[i])
  {
    if |items| > 0 {
      PageListIsRead(items[..|items| - 1]);
    }
  }

  lemma {:induction false} ListedUrls(pages: seq<Page>, websiteId: string, url: string)
    ensures url in Urls(PagesFor(pages, websiteId)) <==> PageCount(pages, websiteId, url) > 0
  {
    if |pages| > 0 {
      var rest, last := PagesFor(pages[..|pages| - 1], websiteId), pages[|pages| - 1];
      ListedUrls(pages[..|pages| - 1], websiteId, url);
      if last.websiteId == websiteId {
        assert Urls(rest + [last]) == Urls(rest) + [last.url];
      }
    }
  }

  /**
   After a post, a URL of the website has the pages it had, and if it had none, as many as it occurs among
   the known pages of the resulting website. No other website's pages change.
   */
  lemma PagesAfterPost(c: Contents, request: Fields, newId: string, newEtag: string, newGuids: nat -> string,
                       websiteId: string, url: string)
    requires ValidRequest(request)
    ensures var (after, answer) := Post(c, request, newId, newEtag, newGuids);
            PageCount(after.pages, websiteId, url) == PageCount(c.pages, websiteId, url) +
              if answer.Posted? && websiteId == IdOf(answer.website) && PageCount(c.pages, websiteId, url) == 0
              then Times(KnownUrls(answer.website), url) else 0
  {
    var (after, answer) := Post(c, request, newId, newEtag, newGuids);
    if answer.Posted? {
      var id := IdOf(answer.website);
      var urls := Difference(KnownUrls(answer.website), Urls(PagesFor(c.pages, id)));
      CountAppended(c.pages, NewPages(urls, id, newGuids), websiteId, url);
      CountNew(urls, id, newGuids, websiteId, url);
      TimesInDifference(KnownUrls(answer.website), Urls(PagesFor(c.pages, id)), url);
      ListedUrls(c.pages, id, url);
    }
  }

  lemma {:induction false} TimesPositive(urls: seq<string>, url: string)
    ensures url in urls <==> Times(urls, url) > 0
  {
    if |urls| > 0 {
      TimesPositive(urls[..|urls| - 1], url);
      assert urls == urls[..|urls| - 1] + [urls[|urls| - 1]];
    }
  }

  /**
   After a post every known URL has a page document; the URLs have at most one each, provided they had at
   most one before, exactly when no URL without a page is known twice.
   */
  lemma EveryKnownUrlHasAPage(c: Contents, request: Fields, newId: string, newEtag: string, newGuids: nat -> string)
    requires ValidRequest(request)
    requires Post(c, request, newId, newEtag, newGuids).1.Posted?
    ensures var (after, answer) := Post(c, request, newId, newEtag, newGuids);
            var id, known := IdOf(answer.website), KnownUrls(answer.website);
            && (forall url :: url in known ==> PageCount(after.pages, id, url) >= 1)
            && ((forall url :: PageCount(c.pages, id, url) <= 1) ==>
                  ((forall url :: PageCount(after.pages, id, url) <= 1)
                   <==> (forall url :: PageCount(c.pages, id, url) == 0 ==> Times(known, url) <= 1)))
  {
    var (after, answer) := Post(c, request, newId, newEtag, newGuids);
    var id, known := IdOf(answer.website), KnownUrls(answer.website);
    forall url
      ensures PageCount(after.pages, id, url) == PageCount(c.pages, id, url) +
                if PageCount(c.pages, id, url) == 0 then Times(known, url) else 0
      ensures url in known <==> Times(known, url) > 0
    {
      PagesAfterPost(c, request, newId, newEtag, newGuids, id, url);
      TimesPositive(known, url);
    }
    if forall url :: PageCount(after.pages, id, url) <= 1 {
      forall url | PageCount(c.pages, id, url) == 0 ensures Times(known, url) <= 1 {
        assert PageCount(after.pages, id, url) <= 1;
      }
    } else if forall url :: PageCount(c.pages, id, url) <= 1 {
      var url :| PageCount(after.pages, id, url) > 1;
      assert PageCount(c.pages, id, url) == 0 && Times(known, url) > 1;
    }
  }

  // ----- An update never knows a URL twice -----

  lemma {:induction false} StringsOfDistinct(items: seq<Json>, url: string)
    requires Distinct(items)
    ensures Times(Strings(items), url) <= 1
    ensures Times(Strings(items), url) == 1 <==> Str(url) in items
  {
    if |items| > 0 {
      var rest, last := items[..|items| - 1], items[|items| - 1];
      StringsOfDistinct(rest, url);
      assert items == rest + [last];
      if last.Str? {
        TimesAppended(Strings(rest), last.s, url);
      }
    }
  }

  /** The known pages a merging update leaves behind. */
  lemma UpdatedPages(items: Items, request: Fields, newId: string, newEtag: string)
    requires ValidRequest(request) && ID in request
    requires AddressOf(request, request[ID].s) in items
    requires IsPageList(Get(items[AddressOf(request, request[ID].s)], KNOWN_PAGES))
    requires CreateOrUpdate(items, request, newId, newEtag).Some?
    ensures var website := CreateOrUpdate(items, request, newId, newEtag).value.1;
            var stored := items[AddressOf(request, request[ID].s)][KNOWN_PAGES].items;
            Get(website, KNOWN_PAGES) == Arr(Uniq(request[KNOWN_PAGES].items + stored))
  {
    var doc := items[AddressOf(request, request[ID].s)];
    var update := WebsiteUpdate(request);
    var all := request[KNOWN_PAGES].items + doc[KNOWN_PAGES].items;
    UpdateAt(UnionKnownPages, doc, update, KNOWN_PAGES);
    UniqOfStrings(all);
    WireOfStrings(Uniq(all));
  }

  lemma UniqOfStrings(items: seq<Json>)
    requires forall i :: 0 <= i < |items| ==> items[i].Str?
    ensures forall i :: 0 <= i < |Uniq(items)| ==> Uniq(items)[i].Str?
  {
    forall i | 0 <= i < |Uniq(items)| ensures Uniq(items)[i].Str? {
      UniqMembers(items, Uniq(items)[i]);
    }
  }

  lemma WireOfStrings(items: seq<Json>)
    requires forall i :: 0 <= i < |items| ==> items[i].Str?
    ensures Wire(Arr(items)) == Arr(items)
  {
  }

  /** A merging update creates at most one page for each URL. */
  lemma UpdateCreatesNoDuplicates(c: Contents, request: Fields, newId: string, newEtag: string, newGuids: nat -> string,
                                  websiteId: string, url: string)
    requires ValidRequest(request) && ID in request
    requires AddressOf(request, request[ID].s) in c.items
    requires IsPageList(Get(c.items[AddressOf(request, request[ID].s)], KNOWN_PAGES))
    ensures PageCount(Post(c, request, newId, newEtag, newGuids).0.pages, websiteId, url)
            <= PageCount(c.pages, websiteId, url) + 1
  {
    PagesAfterPost(c, request, newId, newEtag, newGuids, websiteId, url);
    if CreateOrUpdate(c.items, request, newId, newEtag).Some? {
      UpdatedPages(c.items, request, newId, newEtag);
      var doc := c.items[AddressOf(request, request[ID].s)];
      var all := request[KNOWN_PAGES].items + doc[KNOWN_PAGES].items;
      UniqIsDistinct(all);
      StringsOfDistinct(Uniq(all), url);
    }
  }

  /** What a post will know, told beforehand: the request's pages, in front of the stored ones where it merges. */
  lemma KnownAfterPost(c: Contents, request: Fields, newId: string, newEtag: string, newGuids: nat -> string)
    requires ValidRequest(request)
    requires Merges(c.items, request) ==> IsPageList(Get(c.items[AddressOf(request, request[ID].s)], KNOWN_PAGES))
    requires Post(c, request, newId, newEtag, newGuids).1.Posted?
    ensures KnownUrls(Post(c, request, newId, newEtag, newGuids).1.website) ==
            if Merges(c.items, request) then
              Strings(Uniq(request[KNOWN_PAGES].items + c.items[AddressOf(request, request[ID].s)][KNOWN_PAGES].items))
            else KnownUrls(request)
  {
    if Merges(c.items, request) {
      UpdatedPages(c.items, request, newId, newEtag);
    } else if ID in request {
      WireOfStrings(request[KNOWN_PAGES].items);
      StoredAt(WebsiteUpdate(request), AddressOf(request, newId).0, newEtag, KNOWN_PAGES);
    }
  }

  /**
   A post that does not merge leaves one page for each URL exactly when its request repeats no URL that has no page
   yet. A merging one always does.
   */
  lemma OnePagePerUrl(c: Contents, request: Fields, newId: string, newEtag: string, newGuids: nat -> string)
    requires ValidRequest(request)
    requires Merges(c.items, request) ==> IsPageList(Get(c.items[AddressOf(request, request[ID].s)], KNOWN_PAGES))
    requires Post(c, request, newId, newEtag, newGuids).1.Posted?
    ensures var (after, answer) := Post(c, request, newId, newEtag, newGuids);
            var id := IdOf(answer.website);
            (forall url :: PageCount(c.pages, id, url) <= 1) ==>
              ((forall url :: PageCount(after.pages, id, url) <= 1)
               <==> Merges(c.items, request)
                    || forall url :: PageCount(c.pages, id, url) == 0 ==> Times(KnownUrls(request), url) <= 1)
  {
    EveryKnownUrlHasAPage(c, request, newId, newEtag, newGuids);
    KnownAfterPost(c, request, newId, newEtag, newGuids);
    if Merges(c.items, request) {
      var all := request[KNOWN_PAGES].items + c.items[AddressOf(request, request[ID].s)][KNOWN_PAGES].items;
      UniqIsDistinct(all);
      forall url ensures Times(Strings(Uniq(all)), url) <= 1 {
        StringsOfDistinct(Uniq(all), url);
      }
    }
  }

  // ----- What a post answers and stores -----

  lemma {:induction false} PagesForAppended(pages: seq<Page>, more: seq<Page>, websiteId: string)
    ensures PagesFor(pages + more, websiteId) == PagesFor(pages, websiteId) + PagesFor(more, websiteId)
  {
    if |more| == 0 {
      assert pages + more == pages;
    } else {
      PagesForAppended(pages, more[..|more| - 1], websiteId);
      assert (pages + more)[..|pages + more| - 1] == pages + more[..|more| - 1];
    }
  }

  lemma {:induction false} OwnPages(pages: seq<Page>, websiteId: string)
    requires forall i :: 0 <= i < |pages| ==> pages[i].websiteId == websiteId
    ensures PagesFor(pages, websiteId) == pages
  {
    if |pages| > 0 {
      OwnPages(pages[..|pages| - 1], websiteId);
    }
  }

  /** PagesFor lists exactly the pages of the website. */
  lemma {:induction false} PagesForMembers(pages: seq<Page>, websiteId: string, page: Page)
    ensures page in PagesFor(pages, websiteId) <==> page in pages && page.websiteId == websiteId
  {
    if |pages| > 0 {
      PagesForMembers(pages[..|pages| - 1], websiteId, page);
      assert pages == pages[..|pages| - 1] + [pages[|pages| - 1]];
    }
  }

  /**
   A post answers 201 exactly when it created the website or a page, otherwise 200. It lists exactly the website's
   pages as stored afterwards, and takes no stored page away.
   */
  lemma AnswerOfPost(c: Contents, request: Fields, newId: string, newEtag: string, newGuids: nat -> string)
    requires ValidRequest(request)
    requires Post(c, request, newId, newEtag, newGuids).1.Posted?
    ensures var (after, answer) := Post(c, request, newId, newEtag, newGuids);
            && (answer.status == 201 <==> ID !in request || after.pages != c.pages)
            && (answer.status == 200 <==> ID in request && after.pages == c.pages)
            && answer.pages == PagesFor(after.pages, IdOf(answer.website))
            && c.pages <= after.pages
  {
    var (after, answer) := Post(c, request, newId, newEtag, newGuids);
    var id := IdOf(answer.website);
    var urls := Difference(KnownUrls(answer.website), Urls(PagesFor(c.pages, id)));
    var created := NewPages(urls, id, newGuids);
    assert after.pages == c.pages + created && |created| == |urls|;
    PagesForAppended(c.pages, created, id);
    OwnPages(created, id);
  }

  /** A page created by a post has the website's node and, with fresh identifiers, an identifier of its own. */
  lemma CreatedPages(urls: seq<string>, websiteId: string, newGuids: nat -> string, i: nat, j: nat)
    requires i < |urls| && j < |urls| && Guids.IsValidV6Guid(newGuids(i)) && Guids.IsValidV6Guid(newGuids(j))
    ensures var pages := NewPages(urls, websiteId, newGuids);
            && pages[i].url == urls[i] && pages[i].websiteId == websiteId
            && Guids.GetGuidNode(pages[i].id) == Guids.GetGuidNode(websiteId)
            && (newGuids(i)[..24] != newGuids(j)[..24] ==> pages[i].id != pages[j].id)
  {
    var pages := NewPages(urls, websiteId, newGuids);
    Guids.DerivedNode(newGuids(i), websiteId);
    assert pages[i].id[..24] == newGuids(i)[..24] && pages[j].id[..24] == newGuids(j)[..24];
  }

  /** What a merge of a request leaves in a field: the request's scalar, the stored value where it names none. */
  predicate MergedField(stored: Json, request: Fields, k: string, value: Json)
  {
    && (k in request && Scalar(request[k]) && !stored.Arr? ==> value == Normalize(request[k]))
    && (k == ITEM_TYPE && k !in request && !stored.Arr? ==> value == Str("website"))
    && (k !in request && k !in {ID, ITEM_TYPE} ==> value == Wire(Normalize(stored)))
  }

  /**
   The stored website, field by field. A new one holds the request's fields and, where the request has none, its new
   identifier, the item type and the partition; a merged one keeps the fields the request does not name.
   */
  lemma StoredWebsite(items: Items, request: Fields, newId: string, newEtag: string, k: string)
    requires ValidRequest(request) && CreateOrUpdate(items, request, newId, newEtag).Some?
    ensures var stored := CreateOrUpdate(items, request, newId, newEtag).value.0;
            var address := AddressOf(request, if ID in request then request[ID].s else newId);
            && address in stored && stored == items[address := stored[address]]
            && address.0 == (if PARTITION_KEY in request then request[PARTITION_KEY].s else "websiteDocuments")
            && var value := Get(stored[address], k);
               && (k == ETAG ==> value == Str(newEtag))
               && (k == PARTITION_KEY && (address.0 != "" || !Merges(items, request)) ==> value == Str(address.0))
               && (k !in {ETAG, PARTITION_KEY} ==>
                     if Merges(items, request) then MergedField(Get(items[address], k), request, k, value)
                     else value == if k == ID then Str(address.1) else if k in request then Wire(request[k])
                                   else if k == ITEM_TYPE then Str("website") else Undefined)
  {
    FirstDocIsStored(items, request, newId, newEtag);
    var pk := AddressOf(request, newId).0;
    if k == PARTITION_KEY {
      if Merges(items, request) {
        StoredPartition(Update(UnionKnownPages, items[AddressOf(request, request[ID].s)], WebsiteUpdate(request)), pk, newEtag);
      } else {
        StoredPartition(if ID in request then WebsiteUpdate(request) else NewWebsite(request, newId), pk, newEtag);
      }
    } else if k != ETAG {
      if Merges(items, request) {
        MergedWebsite(items[AddressOf(request, request[ID].s)], request, pk, newEtag, k);
      } else {
        WireAt(if ID in request then WebsiteUpdate(request) else NewWebsite(request, newId), pk, newEtag, k);
      }
    }
  }

  lemma StoredPartition(item: Fields, partitionKey: string, etag: string)
    ensures partitionKey != "" || Get(item, PARTITION_KEY) == Str(partitionKey) ==>
              Get(Stored(AssignPartitionKey(item, partitionKey), etag), PARTITION_KEY) == Str(partitionKey)
  {
    var sent := AssignPartitionKey(item, partitionKey);
    WireFields(sent);
    assert Get(Stored(sent, etag), PARTITION_KEY) == Wire(Get(sent, PARTITION_KEY)) by {
      assert |PARTITION_KEY| != |ETAG|;
    }
  }

  lemma MergedWebsite(doc: Fields, request: Fields, partitionKey: string, newEtag: string, k: string)
    requires ValidRequest(request) && k !in {ETAG, PARTITION_KEY}
    ensures MergedField(Get(doc, k), request, k,
                        Get(Stored(AssignPartitionKey(Update(UnionKnownPages, doc, WebsiteUpdate(request)), partitionKey), newEtag), k))
  {
    UpdateAt(UnionKnownPages, doc, WebsiteUpdate(request), k);
    WireAt(Update(UnionKnownPages, doc, WebsiteUpdate(request)), partitionKey, newEtag, k);
  }

  // ----- Repeating a post -----

  /** The request sent again as an update of the website the first post answered with. */
  function Again(request: Fields, id: string): Fields
  {
    request[ID := Str(id)]
  }

  lemma {:induction false} StringsMembers(items: seq<Json>, url: string)
    ensures url in Strings(items) <==> Str(url) in items
  {
    if |items| > 0 {
      StringsMembers(items[..|items| - 1], url);
      assert items == items[..|items| - 1] + [items[|items| - 1]];
    }
  }

  /** The stored website, when there is one, was stored under its identifier with a list of pages. */
  predicate WellStored(items: Items, address: Address)
  {
    address in items ==> Get(items[address], ID) == Str(address.1) && IsPageList(Get(items[address], KNOWN_PAGES))
  }

  /** What the first post leaves in the container: a website whose pages are, as a set, those of its answer and request. */
  lemma FirstPostStores(items: Items, request: Fields, newId: string, newEtag: string)
    requires ValidRequest(request)
    requires ID in request ==> WellStored(items, AddressOf(request, request[ID].s))
    requires CreateOrUpdate(items, request, newId, newEtag).Some?
    ensures var (stored, website) := CreateOrUpdate(items, request, newId, newEtag).value;
            var id := if ID in request then request[ID].s else newId;
            var address := AddressOf(request, id);
            && Get(website, ID) == Str(id)
            && address in stored && WellStored(stored, address)
            && IsPageList(Get(website, KNOWN_PAGES))
            && (forall v :: v in Get(stored[address], KNOWN_PAGES).items <==> v in Get(website, KNOWN_PAGES).items)
            && (forall v :: v in request[KNOWN_PAGES].items ==> v in Get(website, KNOWN_PAGES).items)
  {
    if Merges(items, request) {
      UpdatedPages(items, request, newId, newEtag);
      var doc := items[AddressOf(request, request[ID].s)];
      UpdatedId(doc, request, request[ID].s, newEtag);
      var all := request[KNOWN_PAGES].items + doc[KNOWN_PAGES].items;
      UniqOfStrings(all);
      forall v ensures v in Uniq(all) <==> v in all { UniqMembers(all, v); }
    } else {
      var sent := if ID in request then WebsiteUpdate(request) else NewWebsite(request, newId);
      var pk := AddressOf(request, newId).0;
      WireOfStrings(request[KNOWN_PAGES].items);
      StoredAt(sent, pk, newEtag, ID);
      StoredAt(sent, pk, newEtag, KNOWN_PAGES);
    }
  }

  /** The post merges into a stored website; otherwise it writes its request. */
  predicate Merges(items: Items, request: Fields)
    requires ValidRequest(request)
  {
    ID in request && AddressOf(request, request[ID].s) in items
  }

  // ----- When a repeated merge throws -----

  /** A value merges into its own stored copy: every knownPages in it that the merge reaches can be spread. */
  predicate SpreadsAgain(key: string, v: Json)
    decreases v
  {
    if key == KNOWN_PAGES then Iterable(v)
    else if key == ETAG then true
    else v.Obj? ==> forall k :: k in v.fields ==> SpreadsAgain(k, v.fields[k])
  }

  lemma {:induction false} MergesIntoCopy(key: string, v: Json)
    ensures Mergeable(UnionKnownPages, key, Wire(v), v) <==> SpreadsAgain(key, v)
    decreases v
  {
    if v.Obj? && key !in {KNOWN_PAGES, ETAG} {
      forall k | k in v.fields
        ensures Mergeable(UnionKnownPages, k, Get(Base(Wire(v)), k), v.fields[k]) <==> SpreadsAgain(k, v.fields[k])
      {
        MergesIntoCopy(k, v.fields[k]);
      }
    }
  }

  /** A value that merged once merges again, unless it met a stored null under an `_etag`, which is gone by then. */
  predicate MergesTwice(key: string, stored: Json, v: Json)
    decreases v
  {
    if key == KNOWN_PAGES || stored.Arr? then true
    else if key == ETAG then stored != Null || Mergeable(UnionKnownPages, ETAG, Undefined, v)
    else v.Obj? ==> forall k :: k in v.fields ==> MergesTwice(k, Get(Base(stored), k), v.fields[k])
  }

  lemma {:induction false} MergesOverMerged(key: string, stored: Json, v: Json)
    requires Mergeable(UnionKnownPages, key, stored, v)
    ensures Mergeable(UnionKnownPages, key, Wire(Normalize(MergeField(UnionKnownPages, key, stored, v))), v)
            <==> MergesTwice(key, stored, v)
    decreases v
  {
    if key == ETAG && !stored.Arr? {
      EtagOverMerged(stored, v);
    } else if v.Obj? && key != KNOWN_PAGES && !stored.Arr? {
      var once := Wire(Normalize(MergeField(UnionKnownPages, key, stored, v)));
      ObjectMerge(UnionKnownPages, key, stored, v);
      forall k | k in v.fields
        ensures Mergeable(UnionKnownPages, k, Get(Base(once), k), v.fields[k]) <==> MergesTwice(k, Get(Base(stored), k), v.fields[k])
      {
        MergesOverMerged(k, Get(Base(stored), k), v.fields[k]);
      }
    }
  }

  lemma EtagOverMerged(stored: Json, v: Json)
    requires Mergeable(UnionKnownPages, ETAG, stored, v) && !stored.Arr?
    ensures Mergeable(UnionKnownPages, ETAG, Wire(Normalize(MergeField(UnionKnownPages, ETAG, stored, v))), v)
            <==> stored != Null || Mergeable(UnionKnownPages, ETAG, Undefined, v)
  {
  }

  /** Whether a post can be repeated, told from the container before it. */
  predicate Repeatable(items: Items, request: Fields)
    requires ValidRequest(request)
  {
    forall k :: k in request && k != ETAG ==> RepeatableAt(items, request, k)
  }

  predicate RepeatableAt(items: Items, request: Fields, k: string)
    requires ValidRequest(request) && k in request
  {
    if Merges(items, request) then MergesTwice(k, Get(items[AddressOf(request, request[ID].s)], k), request[k])
    else SpreadsAgain(k, request[k])
  }

  /** The document a post leaves behind. */
  function FirstDoc(items: Items, request: Fields, newId: string, newEtag: string): Fields
    requires ValidRequest(request)
  {
    var pk := AddressOf(request, newId).0;
    if Merges(items, request) then
      Stored(AssignPartitionKey(Update(UnionKnownPages, items[AddressOf(request, request[ID].s)], WebsiteUpdate(request)), pk), newEtag)
    else
      Stored(AssignPartitionKey(if ID in request then WebsiteUpdate(request) else NewWebsite(request, newId), pk), newEtag)
  }

  lemma FirstDocIsStored(items: Items, request: Fields, newId: string, newEtag: string)
    requires ValidRequest(request) && CreateOrUpdate(items, request, newId, newEtag).Some?
    ensures var stored := CreateOrUpdate(items, request, newId, newEtag).value.0;
            var id := if ID in request then request[ID].s else newId;
            AddressOf(request, id) in stored && stored[AddressOf(request, id)] == FirstDoc(items, request, newId, newEtag)
  {
  }

  /** The second merge throws no TypeError exactly when the post is repeatable. */
  lemma SecondMerge(items: Items, request: Fields, newId: string, newEtag: string, id: string)
    requires ValidRequest(request) && (ID in request ==> id == request[ID].s)
    requires Merges(items, request) ==>
               Mergeable(UnionKnownPages, "", Obj(items[AddressOf(request, request[ID].s)]), Obj(WebsiteUpdate(request)))
    ensures Mergeable(UnionKnownPages, "", Obj(FirstDoc(items, request, newId, newEtag)), Obj(WebsiteUpdate(Again(request, id))))
            <==> Repeatable(items, request)
  {
    var update := WebsiteUpdate(Again(request, id));
    var doc := FirstDoc(items, request, newId, newEtag);
    MergeableByKey(UnionKnownPages, doc, update);
    forall k | k in update
      ensures Mergeable(UnionKnownPages, k, Get(doc, k), update[k])
              <==> (k in request && k != ETAG ==> RepeatableAt(items, request, k))
    {
      if k in request && k !in {ETAG, ID, PARTITION_KEY} {
        SecondMergeAt(items, request, newId, newEtag, k);
      } else {
        OwnKeysMerge(items, request, doc, id, k);
      }
    }
    AgainKeys(request, id);
  }

  lemma AgainKeys(request: Fields, id: string)
    ensures forall k :: k in request ==> k in WebsiteUpdate(Again(request, id))
    ensures forall k :: k in request && k != ID ==> WebsiteUpdate(Again(request, id))[k] == request[k]
  {
  }

  /** The identifier, the partition key and the item type are strings, and the stored etag is kept. */
  lemma OwnKeysMerge(items: Items, request: Fields, doc: Fields, id: string, k: string)
    requires ValidRequest(request) && Get(doc, ETAG) != Undefined
    requires k in WebsiteUpdate(Again(request, id)) && (k in {ETAG, ID, PARTITION_KEY} || k !in request)
    ensures Mergeable(UnionKnownPages, k, Get(doc, k), WebsiteUpdate(Again(request, id))[k])
    ensures k in request && k != ETAG ==> RepeatableAt(items, request, k)
  {
  }

  lemma SecondMergeAt(items: Items, request: Fields, newId: string, newEtag: string, k: string)
    requires ValidRequest(request) && k in request && k !in {ETAG, ID, PARTITION_KEY}
    requires Merges(items, request) ==>
               Mergeable(UnionKnownPages, "", Obj(items[AddressOf(request, request[ID].s)]), Obj(WebsiteUpdate(request)))
    ensures Mergeable(UnionKnownPages, k, Get(FirstDoc(items, request, newId, newEtag), k), request[k])
            <==> RepeatableAt(items, request, k)
  {
    var pk := AddressOf(request, newId).0;
    if Merges(items, request) {
      var doc := items[AddressOf(request, request[ID].s)];
      var update := WebsiteUpdate(request);
      MergeableByKey(UnionKnownPages, doc, update);
      assert Mergeable(UnionKnownPages, k, Get(doc, k), update[k]);
      MergesOverMerged(k, Get(doc, k), request[k]);
      UpdateAt(UnionKnownPages, doc, update, k);
      WireAt(Update(UnionKnownPages, doc, update), pk, newEtag, k);
    } else {
      MergesIntoCopy(k, request[k]);
      WireAt(if ID in request then WebsiteUpdate(request) else NewWebsite(request, newId), pk, newEtag, k);
    }
  }

  lemma WireAt(item: Fields, partitionKey: string, etag: string, k: string)
    requires k !in {ETAG, PARTITION_KEY}
    ensures Get(Stored(AssignPartitionKey(item, partitionKey), etag), k) == Wire(Get(item, k))
  {
  }

  /** A value without knownPages merges into anything, and does so again. */
  lemma {:induction false} NoPagesMerge(key: string, stored: Json, v: Json)
    requires NoPagesBelow(v) && key != KNOWN_PAGES
    ensures Mergeable(UnionKnownPages, key, stored, v) && SpreadsAgain(key, v) && MergesTwice(key, stored, v)
    decreases v
  {
    match v
    case Obj(fields) =>
      forall k | k in fields
        ensures Mergeable(UnionKnownPages, k, Get(Base(stored), k), fields[k]) && SpreadsAgain(k, fields[k])
        ensures MergesTwice(k, Get(Base(stored), k), fields[k]) && Mergeable(UnionKnownPages, k, Undefined, fields[k])
      {
        NoPagesMerge(k, Get(Base(stored), k), fields[k]);
        NoPagesMerge(k, Undefined, fields[k]);
      }
    case Arr(items) =>
      forall i | 0 <= i < |items| ensures Mergeable(UnionKnownPages, "", Undefined, items[i]) {
        NoPagesMerge("", Undefined, items[i]);
      }
    case _ =>
  }

  /** A request whose only knownPages is its own merges into any website with a page list, and can be repeated. */
  lemma OrdinaryRequestsRepeat(items: Items, request: Fields)
    requires ValidRequest(request)
    requires forall k :: k in request && k != KNOWN_PAGES ==> NoPagesBelow(request[k])
    requires ID in request ==> WellStored(items, AddressOf(request, request[ID].s))
    ensures Repeatable(items, request)
    ensures Merges(items, request) ==>
              Mergeable(UnionKnownPages, "", Obj(items[AddressOf(request, request[ID].s)]), Obj(WebsiteUpdate(request)))
  {
    var stored := if Merges(items, request) then items[AddressOf(request, request[ID].s)] else map[];
    var update := WebsiteUpdate(request);
    forall k | k in update && k != KNOWN_PAGES
      ensures Mergeable(UnionKnownPages, k, Get(stored, k), update[k]) && SpreadsAgain(k, update[k])
      ensures MergesTwice(k, Get(stored, k), update[k])
    {
      NoPagesMerge(k, Get(stored, k), update[k]);
    }
  }

  // ----- Repeating a post -----

  /**
   Posting the same website again, as an update by identifier, never creates a page. It answers 200 exactly when
   the post was repeatable; otherwise its merge throws.
   */
  lemma RepeatedPostCreatesNothing(c: Contents, request: Fields, newId: string, newEtag: string, newGuids: nat -> string,
                                   nextId: string, nextEtag: string, nextGuids: nat -> string)
    requires ValidRequest(request)
    requires ID in request ==> WellStored(c.items, AddressOf(request, request[ID].s))
    requires Post(c, request, newId, newEtag, newGuids).1.Posted?
    ensures var (first, answer) := Post(c, request, newId, newEtag, newGuids);
            var again := Again(request, IdOf(answer.website));
            && ValidRequest(again)
            && var (second, answer') := Post(first, again, nextId, nextEtag, nextGuids);
               && second.pages == first.pages
               && (answer'.Posted? <==> Repeatable(c.items, request))
               && (answer'.Posted? ==> answer'.status == 200)
  {
    var (first, answer) := Post(c, request, newId, newEtag, newGuids);
    FirstPostStores(c.items, request, newId, newEtag);
    var again := Again(request, IdOf(answer.website));
    FirstDocIsStored(c.items, request, newId, newEtag);
    if Merges(c.items, request) {
      MergingPost(c.items, request, newId, newEtag);
    }
    SecondMerge(c.items, request, newId, newEtag, IdOf(answer.website));
    MergingPost(first.items, again, nextId, nextEtag);
    if CreateOrUpdate(first.items, again, nextId, nextEtag).Some? {
      RepeatedMergeKnowsNothingNew(c, request, newId, newEtag, newGuids, nextId, nextEtag);
      PostOfNothing(first, again, nextId, nextEtag, nextGuids);
    }
  }

  lemma MergingPost(items: Items, request: Fields, newId: string, newEtag: string)
    requires ValidRequest(request) && Merges(items, request)
    ensures CreateOrUpdate(items, request, newId, newEtag).Some?
            <==> Mergeable(UnionKnownPages, "", Obj(items[AddressOf(request, request[ID].s)]), Obj(WebsiteUpdate(request)))
  {
  }

  lemma PostOfNothing(c: Contents, request: Fields, newId: string, newEtag: string, newGuids: nat -> string)
    requires ValidRequest(request) && ID in request && CreateOrUpdate(c.items, request, newId, newEtag).Some?
    requires var website := CreateOrUpdate(c.items, request, newId, newEtag).value.1;
             Difference(KnownUrls(website), Urls(PagesFor(c.pages, IdOf(website)))) == []
    ensures var (after, answer) := Post(c, request, newId, newEtag, newGuids);
            after.pages == c.pages && answer.Posted? && answer.status == 200
  {
    var website := CreateOrUpdate(c.items, request, newId, newEtag).value.1;
    assert NewPages([], IdOf(website), newGuids) == [];
  }

  lemma RepeatedMergeKnowsNothingNew(c: Contents, request: Fields, newId: string, newEtag: string, newGuids: nat -> string,
                                     nextId: string, nextEtag: string)
    requires ValidRequest(request)
    requires ID in request ==> WellStored(c.items, AddressOf(request, request[ID].s))
    requires Post(c, request, newId, newEtag, newGuids).1.Posted?
    requires var (first, answer) := Post(c, request, newId, newEtag, newGuids);
             var again := Again(request, IdOf(answer.website));
             ValidRequest(again) && CreateOrUpdate(first.items, again, nextId, nextEtag).Some?
    ensures var (first, answer) := Post(c, request, newId, newEtag, newGuids);
            var id := IdOf(answer.website);
            var website := CreateOrUpdate(first.items, Again(request, id), nextId, nextEtag).value.1;
            IdOf(website) == id && Difference(KnownUrls(website), Urls(PagesFor(first.pages, id))) == []
  {
    var (first, answer) := Post(c, request, newId, newEtag, newGuids);
    FirstPostStores(c.items, request, newId, newEtag);
    var id := IdOf(answer.website);
    var again := Again(request, id);
    var doc := first.items[AddressOf(request, id)];
    UpdatedPages(first.items, again, nextId, nextEtag);
    var website := CreateOrUpdate(first.items, again, nextId, nextEtag).value.1;
    UpdatedId(doc, again, id, nextEtag);
    forall url | url in KnownUrls(website) ensures url in Urls(PagesFor(first.pages, id)) {
      StringsMembers(Get(website, KNOWN_PAGES).items, url);
      UniqMembers(again[KNOWN_PAGES].items + doc[KNOWN_PAGES].items, Str(url));
      StringsMembers(Get(answer.website, KNOWN_PAGES).items, url);
      KnownUrlIsListed(c, request, newId, newEtag, newGuids, url);
    }
    NothingNew(KnownUrls(website), Urls(PagesFor(first.pages, id)));
  }

  /**
   Every new website can be made one that is posted once only: with a nested knownPages that is no list, the post goes
   through and its repetition throws.
   */
  lemma UnrepeatablePost(c: Contents, body: Fields, extra: string, newId: string, newEtag: string, newGuids: nat -> string,
                         nextId: string, nextEtag: string, nextGuids: nat -> string)
    requires ValidRequest(body) && ID !in body && Get(body, ETAG) == Undefined
    requires extra !in {ID, ETAG, PARTITION_KEY, KNOWN_PAGES}
    ensures var request := body[extra := Obj(map[KNOWN_PAGES := Num(1)])];
            && ValidRequest(request)
            && Post(c, request, newId, newEtag, newGuids).1.Posted?
            && var again := Again(request, newId);
               ValidRequest(again)
               && Post(Post(c, request, newId, newEtag, newGuids).0, again, nextId, nextEtag, nextGuids).1 == Threw
  {
    var nested := Obj(map[KNOWN_PAGES := Num(1)]);
    var request := body[extra := nested];
    assert !SpreadsAgain(extra, nested) by {
      assert !SpreadsAgain(KNOWN_PAGES, nested.fields[KNOWN_PAGES]);
    }
    assert !Repeatable(c.items, request) by {
      assert request[extra] == nested && !RepeatableAt(c.items, request, extra);
    }
    NewPostIsAnswered(c, request, newId, newEtag, newGuids);
    RepeatedPostCreatesNothing(c, request, newId, newEtag, newGuids, nextId, nextEtag, nextGuids);
  }

  lemma NewPostIsAnswered(c: Contents, request: Fields, newId: string, newEtag: string, newGuids: nat -> string)
    requires ValidRequest(request) && ID !in request && Get(request, ETAG) == Undefined
    ensures Post(c, request, newId, newEtag, newGuids).1.Posted?
    ensures IdOf(Post(c, request, newId, newEtag, newGuids).1.website) == newId
  {
    assert Get(AssignPartitionKey(NewWebsite(request, newId), AddressOf(request, newId).0), ETAG) == Undefined;
  }

  lemma UpdatedId(doc: Fields, request: Fields, id: string, newEtag: string)
    requires ValidRequest(request) && Get(request, ID) == Str(id) && Get(doc, ID) == Str(id)
    ensures Get(Stored(AssignPartitionKey(Update(UnionKnownPages, doc, WebsiteUpdate(request)), AddressOf(request, id).0), newEtag), ID)
            == Str(id)
  {
    UpdateAt(UnionKnownPages, doc, WebsiteUpdate(request), ID);
    StoredAt(Update(UnionKnownPages, doc, WebsiteUpdate(request)), AddressOf(request, id).0, newEtag, ID);
  }

  lemma KnownUrlIsListed(c: Contents, request: Fields, newId: string, newEtag: string, newGuids: nat -> string, url: string)
    requires ValidRequest(request)
    requires Post(c, request, newId, newEtag, newGuids).1.Posted?
    requires url in KnownUrls(Post(c, request, newId, newEtag, newGuids).1.website)
    ensures var (after, answer) := Post(c, request, newId, newEtag, newGuids);
            url in Urls(PagesFor(after.pages, IdOf(answer.website)))
  {
    var (after, answer) := Post(c, request, newId, newEtag, newGuids);
    EveryKnownUrlHasAPage(c, request, newId, newEtag, newGuids);
    ListedUrls(after.pages, IdOf(answer.website), url);
  }

  lemma {:induction false} NothingNew(urls: seq<string>, existing: seq<string>)
    requires forall url :: url in urls ==> url in existing
    ensures Difference(urls, existing) == []
  {
    if |urls| > 0 {
      NothingNew(urls[..|urls| - 1], existing);
    }
  }
}
