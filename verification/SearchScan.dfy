/** The search resolver: a paged scan of one hit stream per manager class. */
module SearchScan {
  import opened Sequences
  import opened SearchWindow
  import opened SearchOrder
  import ReadAuthorization

  /** A hit of a backend stream, whether its manager can be built, and whether the permission plan
      then lets it pass. */
  datatype Candidate = Candidate(hit: Hit, instantiates: bool, authorized: bool)

  /** A manager class with the whole stream the backend has for the query. */
  datatype ManagerStream = ManagerStream(decision: ReadAuthorization.Decision, stream: seq<Candidate>)

  datatype SearchResult =
    | PageNotPositive
    | PageSizeNotPositive
    | ScanLimitNotPositive
    | Found(results: seq<Hit>, total: nat, totalIsExact: bool, raw: seq<seq<Candidate>>)

  /** `backend.search(limit=..., offset=...)` */
  function BackendSearch(stream: seq<Candidate>, limit: nat, offset: nat): seq<Candidate> {
    Slice(stream, offset, offset + limit)
  }

  predicate Shown(c: Candidate) { c.instantiates && c.authorized }

  function AuthorizedHits(candidates: seq<Candidate>): seq<Hit> {
    if candidates == [] then []
    else if Shown(candidates[0]) then [candidates[0].hit] + AuthorizedHits(candidates[1..])
    else AuthorizedHits(candidates[1..])
  }

  /** What a scan reads of one manager: its stream, up to the cap. */
  function Scanned(m: ManagerStream, cap: Option<nat>): seq<Candidate> {
    if m.decision.DenyAll? then []
    else match cap case None => m.stream case Some(n) => Take(m.stream, n)
  }

  function AllScanned(managers: seq<ManagerStream>, cap: Option<nat>): seq<Candidate> {
    if managers == [] then [] else Scanned(managers[0], cap) + AllScanned(managers[1..], cap)
  }

  /** The number of authorized hits there really are. */
  function TrueTotal(managers: seq<ManagerStream>): nat {
    |AuthorizedHits(AllScanned(managers, None))|
  }

  /** The authorized hits are those of the candidates whose manager can be built and passes the permission
      plan, in the order of the stream. */
  lemma {:induction false} AuthorizedAre(cs: seq<Candidate>)
    ensures AuthorizedHits(cs)
         == Map((c: Candidate) => c.hit, Filter((c: Candidate) => c.instantiates && c.authorized, cs))
  {
    if cs != [] {
      AuthorizedAre(cs[1..]);
    }
  }

  /** The stream of a manager is read from its front, up to the cap; not at all under a deny-all plan. */
  lemma ScannedIsFront(m: ManagerStream, cap: Option<nat>)
    ensures m.decision.DenyAll? ==> Scanned(m, cap) == []
    ensures !m.decision.DenyAll? ==>
              Scanned(m, cap) <= m.stream
              && |Scanned(m, cap)| == if cap.Some? && cap.value < |m.stream| then cap.value else |m.stream|
  {
  }

  /** The managers are read one after the other. */
  lemma {:induction false} AllScannedAre(managers: seq<ManagerStream>, cap: Option<nat>)
    ensures AllScanned(managers, cap) == Flatten(Map((m: ManagerStream) => Scanned(m, cap), managers))
  {
    if managers != [] {
      AllScannedAre(managers[1..], cap);
    }
  }

  predicate BelowCap(m: ManagerStream, cap: Option<nat>) {
    m.decision.DenyAll? || (cap.Some? ==> |m.stream| < cap.value)
  }

  ghost predicate AllBelow(managers: seq<ManagerStream>, cap: Option<nat>) {
    forall i :: 0 <= i < |managers| ==> BelowCap(managers[i], cap)
  }

  // ----- facts about prefixes and batches

  lemma {:induction false} AuthorizedAppend(a: seq<Candidate>, b: seq<Candidate>)
    ensures AuthorizedHits(a + b) == AuthorizedHits(a) + AuthorizedHits(b)
  {
    if a == [] {
      assert a + b == b;
    } else {
      assert (a + b)[1..] == a[1..] + b;
      AuthorizedAppend(a[1..], b);
    }
  }

  /** A scan that stopped at the end of the stream or at the cap has read what it should. */
  lemma ScanEnds(m: ManagerStream, cap: Option<nat>, scanned: nat)
    requires !m.decision.DenyAll? && scanned <= |m.stream|
    requires scanned < |m.stream| ==> cap == Some(scanned)
    requires cap.Some? ==> scanned <= cap.value
    ensures m.stream[..scanned] == Scanned(m, cap)
  {
  }

  lemma ReadFurther(before: seq<Candidate>, stream: seq<Candidate>, scanned: nat, now: nat)
    requires scanned <= now <= |stream|
    ensures before + stream[..scanned] + stream[scanned..now] == before + stream[..now]
    ensures |AuthorizedHits(stream[..scanned])| + |AuthorizedHits(stream[scanned..now])|
            == |AuthorizedHits(stream[..now])|
  {
    AuthorizedAppend(stream[..scanned], stream[scanned..now]);
    assert stream[..scanned] + stream[scanned..now] == stream[..now];
  }

  lemma {:induction false} AllScannedAppend(a: seq<ManagerStream>, b: seq<ManagerStream>, cap: Option<nat>)
    ensures AllScanned(a + b, cap) == AllScanned(a, cap) + AllScanned(b, cap)
  {
    if a == [] {
      assert a + b == b;
    } else {
      assert (a + b)[1..] == a[1..] + b;
      AllScannedAppend(a[1..], b, cap);
    }
  }

  lemma {:induction false} RoundsAppend(mode: SortMode, kept: seq<Hit>, batches: seq<seq<Hit>>, batch: seq<Hit>, k: nat)
    ensures Rounds(mode, kept, batches + [batch], k) == Trimmed(mode, Rounds(mode, kept, batches, k) + batch, k)
    decreases batches
  {
    if batches == [] {
      assert batches + [batch] == [batch] && [batch][1..] == [];
    } else {
      assert (batches + [batch])[1..] == batches[1..] + [batch];
      RoundsAppend(mode, Trimmed(mode, kept + batches[0], k), batches[1..], batch, k);
    }
  }

  lemma FlattenSnoc<T>(ss: seq<seq<T>>, s: seq<T>)
    ensures Flatten(ss + [s]) == Flatten(ss) + s
  {
    FlattenAppend(ss, [s]);
    assert [s][1..] == [];
  }

  /** A capped scan finds no more than there is, and all of it when every stream ends before the cap. */
  lemma {:induction false} CappedTotals(managers: seq<ManagerStream>, cap: Option<nat>)
    ensures |AuthorizedHits(AllScanned(managers, cap))| <= TrueTotal(managers)
    ensures AllBelow(managers, cap) ==> AllScanned(managers, cap) == AllScanned(managers, None)
  {
    if managers != [] {
      var m := managers[0];
      CappedTotals(managers[1..], cap);
      AuthorizedAppend(Scanned(m, cap), AllScanned(managers[1..], cap));
      AuthorizedAppend(Scanned(m, None), AllScanned(managers[1..], None));
      var s := Scanned(m, cap);
      assert Scanned(m, None) == s + Scanned(m, None)[|s|..];
      AuthorizedAppend(s, Scanned(m, None)[|s|..]);
      assert AllBelow(managers, cap) ==> BelowCap(m, cap) && AllBelow(managers[1..], cap) by {
        assert forall i :: 0 <= i < |managers[1..]| ==> managers[1..][i] == managers[i + 1];
      }
    }
  }

  // ----- the resolver

  /** How a pass of the page loop ends: with another page to come, at the end of the stream, or at
      the scan limit. */
  datatype Pass = More | Exhausted | Capped

  class SearchScanner {
    const mode: SortMode
    const requestedCount: nat
    const totalScanLimit: Option<nat>
    const hits: HitList
    var raw: seq<seq<Candidate>>
    ghost var read: seq<Candidate>
    ghost var batches: seq<seq<Hit>>

    constructor (mode: SortMode, requestedCount: nat, totalScanLimit: Option<nat>)
      requires requestedCount > 0 && (totalScanLimit.Some? ==> totalScanLimit.value > 0)
      ensures Valid() && fresh(hits) && read == []
      ensures this.mode == mode && this.requestedCount == requestedCount && this.totalScanLimit == totalScanLimit
    {
      this.mode, this.requestedCount, this.totalScanLimit := mode, requestedCount, totalScanLimit;
      hits := new HitList();
      raw, read, batches := [], [], [];
    }

    /** The retained hits are what trimming after every page leaves of all hits read so far. */
    ghost predicate Valid()
      reads this, hits
    {
      && requestedCount > 0 && (totalScanLimit.Some? ==> totalScanLimit.value > 0)
      && hits.entries == Rounds(mode, [], batches, requestedCount)
      && Flatten(batches) == AuthorizedHits(read)
      && Flatten(raw) == read
    }

    /** The `for hit in result.hits` loop and the trim behind it. */
    method TakePage(page: seq<Candidate>) returns (authorized: nat)
      modifies hits
      ensures authorized == |AuthorizedHits(page)|
      ensures hits.entries == Trimmed(mode, old(hits.entries) + AuthorizedHits(page), requestedCount)
    {
      authorized := 0;
      ghost var before := hits.entries;
      assert before + AuthorizedHits(page[..0]) == before;
      for i := 0 to |page|
        invariant hits.entries == before + AuthorizedHits(page[..i])
        invariant authorized == |AuthorizedHits(page[..i])|
      {
        assert page[..i + 1] == page[..i] + [page[i]];
        AuthorizedAppend(page[..i], [page[i]]);
        assert [page[i]][1..] == [];
        if page[i].instantiates && page[i].authorized {
          authorized := authorized + 1;
          hits.Append([page[i].hit]);
        }
      }
      assert page[..|page|] == page;
      hits.TrimSearchHitEntriesToWindow(requestedCount, mode);
    }

    /** One backend request: the page is recorded and its hits are taken in. */
    method ReadPage(stream: seq<Candidate>, queryLimit: nat, offsetCursor: nat) returns (count: nat, authorized: nat)
      requires Valid() && offsetCursor <= |stream|
      modifies this`raw, this`read, this`batches, hits
      ensures Valid()
      ensures count == Min(queryLimit, |stream| - offsetCursor)
      ensures read == old(read) + stream[offsetCursor..offsetCursor + count]
      ensures authorized == |AuthorizedHits(stream[offsetCursor..offsetCursor + count])|
    {
      var page := BackendSearch(stream, queryLimit, offsetCursor);
      count := |page|;
      assert page == stream[offsetCursor..offsetCursor + count];
      FlattenSnoc(raw, page);
      AuthorizedAppend(read, page);
      raw, read := raw + [page], read + page;
      if |page| == 0 {
        assert read == old(read);
        return count, 0;
      }
      authorized := TakePage(page);
      RoundsAppend(mode, [], batches, AuthorizedHits(page), requestedCount);
      FlattenSnoc(batches, AuthorizedHits(page));
      batches := batches + [AuthorizedHits(page)];
    }

    /** One pass of the `while True` loop over a manager's pages; `scanned` is also the offset cursor. */
    method ScanPass(stream: seq<Candidate>, scanned: nat) returns (now: nat, authorized: nat, pass: Pass)
      requires Valid() && scanned <= |stream|
      requires totalScanLimit.Some? ==> scanned <= totalScanLimit.value
      modifies this`raw, this`read, this`batches, hits
      ensures Valid() && scanned <= now <= |stream|
      ensures read == old(read) + stream[scanned..now]
      ensures authorized == |AuthorizedHits(stream[scanned..now])|
      ensures pass.More? ==> now > scanned && (totalScanLimit.Some? ==> now < totalScanLimit.value)
      ensures pass.Exhausted? ==> now == |stream| && (totalScanLimit.Some? ==> now < totalScanLimit.value)
      ensures pass.Capped? ==> totalScanLimit == Some(now)
    {
      var queryLimit := requestedCount;
      if totalScanLimit.Some? {
        var remaining := totalScanLimit.value - scanned;
        if remaining <= 0 {
          return scanned, 0, Capped;
        }
        queryLimit := Min(requestedCount, remaining);
      }
      var count;
      count, authorized := ReadPage(stream, queryLimit, scanned);
      now := scanned + count;
      if count == 0 || count < queryLimit {
        return now, authorized, Exhausted;
      }
      if totalScanLimit.Some? && now >= totalScanLimit.value {
        return now, authorized, Capped;
      }
      return now, authorized, More;
    }

    method ScanManager(m: ManagerStream) returns (total: nat, isExact: bool)
      requires Valid() && !m.decision.DenyAll?
      modifies this`raw, this`read, this`batches, hits
      ensures Valid()
      ensures read == old(read) + Scanned(m, totalScanLimit)
      ensures total == |AuthorizedHits(Scanned(m, totalScanLimit))|
      ensures isExact <==> BelowCap(m, totalScanLimit)
    {
      ghost var before := read;
      var scanned := 0;
      var pass := More;
      total := 0;
      assert before + m.stream[..0] == before;
      while pass.More?
        invariant Valid() && scanned <= |m.stream|
        invariant pass.More? ==> (totalScanLimit.Some? ==> scanned < totalScanLimit.value)
        invariant pass.Exhausted? ==> scanned == |m.stream| && (totalScanLimit.Some? ==> scanned < totalScanLimit.value)
        invariant pass.Capped? ==> totalScanLimit == Some(scanned)
        invariant read == before + m.stream[..scanned]
        invariant total == |AuthorizedHits(m.stream[..scanned])|
        decreases pass.More?, |m.stream| - scanned
      {
        var now, authorized;
        now, authorized, pass := ScanPass(m.stream, scanned);
        ReadFurther(before, m.stream, scanned, now);
        scanned := now;
        total := total + authorized;
      }
      isExact := pass.Exhausted?;
      ScanEnds(m, totalScanLimit, scanned);
    }

    /** The `for manager_class in manager_classes` loop. */
    method ScanAll(managers: seq<ManagerStream>) returns (total: nat, totalIsExact: bool)
      requires Valid() && read == []
      modifies this`raw, this`read, this`batches, hits
      ensures Valid()
      ensures read == AllScanned(managers, totalScanLimit)
      ensures total == |AuthorizedHits(read)|
      ensures totalIsExact <==> AllBelow(managers, totalScanLimit)
    {
      total, totalIsExact := 0, true;
      for i := 0 to |managers|
        invariant Valid()
        invariant read == AllScanned(managers[..i], totalScanLimit)
        invariant total == |AuthorizedHits(read)|
        invariant totalIsExact <==> AllBelow(managers[..i], totalScanLimit)
      {
        var m := managers[i];
        ScannedNext(managers, i, totalScanLimit);
        if m.decision.DenyAll? {
          assert read + [] == read;
          continue;
        }
        AuthorizedAppend(read, Scanned(m, totalScanLimit));
        var managerTotal, managerIsExact := ScanManager(m);
        total := total + managerTotal;
        if !managerIsExact {
          totalIsExact := false;
        }
      }
      assert managers[..|managers|] == managers;
    }
  }

  lemma ScannedNext(managers: seq<ManagerStream>, i: nat, cap: Option<nat>)
    requires i < |managers|
    ensures AllScanned(managers[..i + 1], cap) == AllScanned(managers[..i], cap) + Scanned(managers[i], cap)
    ensures AllBelow(managers[..i + 1], cap) <==> AllBelow(managers[..i], cap) && BelowCap(managers[i], cap)
  {
    assert managers[..i + 1] == managers[..i] + [managers[i]];
    AllScannedAppend(managers[..i], [managers[i]], cap);
    assert [managers[i]][1..] == [];
    assert AllScanned([managers[i]], cap) == Scanned(managers[i], cap) + [];
    assert AllBelow(managers[..i + 1], cap) ==> BelowCap(managers[i], cap) by {
      assert managers[..i + 1][i] == managers[i];
    }
    assert AllBelow(managers[..i + 1], cap) ==> AllBelow(managers[..i], cap) by {
      assert forall k :: 0 <= k < i ==> managers[..i][k] == managers[..i + 1][k];
    }
  }

  /** The page is part of all hits in order: better ones first, equal ones as they came. */
  ghost predicate ShowsInOrder(mode: SortMode, page: seq<Hit>, all: seq<Hit>, offset: nat, limit: nat) {
    exists list :: Arranges(mode, list, all) && (mode != ByField(true) ==> KeepsLevels(mode, list, all))
                   && ShowsPartOf(page, list, offset, limit)
  }

  lemma PageInOrder(mode: SortMode, batches: seq<seq<Hit>>, offset: nat, limit: nat)
    ensures ShowsInOrder(mode, ShownPage(mode, batches, offset, limit), Flatten(batches), offset, limit)
  {
    if mode == ByField(true) {
      var list := PageIsPart(mode, batches, offset, limit);
    } else {
      WindowIsExact(mode, batches, offset, limit);
      EntriesInOrder(mode, Flatten(batches));
      var list := SortEntries(mode, Flatten(batches));
      assert Arranges(mode, list, Flatten(batches)) && KeepsLevels(mode, list, Flatten(batches));
      assert ShowsPartOf(Page(mode, Flatten(batches), offset, limit), list, offset, limit);
    }
  }

  lemma PageOfWindow(mode: SortMode, batches: seq<seq<Hit>>, offset: nat, limit: nat)
    ensures var shown := ShownPage(mode, batches, offset, limit);
            && ShowsInOrder(mode, shown, Flatten(batches), offset, limit)
            && Keys(shown) == Keys(Page(mode, Flatten(batches), offset, limit))
            && (mode != ByField(true) || TieFreeWindow(Flatten(batches), RequestedCount(offset, limit)) ==>
                  shown == Page(mode, Flatten(batches), offset, limit))
  {
    PageInOrder(mode, batches, offset, limit);
    if mode == ByField(true) {
      DescendingKeysAreExact(batches, offset, limit);
      if TieFreeWindow(Flatten(batches), RequestedCount(offset, limit)) {
        DescendingWindowIsExact(batches, offset, limit);
      }
    } else {
      WindowIsExact(mode, batches, offset, limit);
    }
  }

  function Or(value: Option<int>, default: int): int {
    if value.Some? then value.value else default
  }

  /** `(page - 1) * size` */
  function Offset(page: int, size: int): (offset: nat)
    requires page > 0 && size > 0
  {
    Product(page - 1, size)
  }

  function Product(a: nat, b: nat): nat {
    a * b
  }

  /** The first page starts at the front, and each page where the one before it ends: so the pages of a list,
      one after the other, are its front. */
  lemma PagesTile<T>(list: seq<T>, page: int, size: int)
    requires page > 0 && size > 0
    ensures Offset(1, size) == 0
    ensures Take(list, Offset(page + 1, size))
         == Take(list, Offset(page, size)) + Slice(list, Offset(page, size), RequestedCount(Offset(page, size), size))
  {
    assert Offset(page + 1, size) == Offset(page, size) + size by {
      assert page * size == (page - 1) * size + size;
    }
  }

  /** A bounded scan is allowed what is configured, and at least all that the page needs. */
  lemma ScanLimitSuffices(bounded: bool, configured: int, offset: nat, limit: nat)
    requires bounded ==> configured > 0
    ensures match ScanLimit(bounded, configured, offset, limit)
            case None => !bounded
            case Some(cap) => bounded && cap >= configured && cap >= offset + limit
                              && (cap == configured || cap == offset + limit)
  {
  }

  /** The configured limit, but never less than the requested window. */
  function ScanLimit(bounded: bool, configured: int, offset: nat, limit: nat): Option<nat>
    requires bounded ==> configured > 0
  {
    if bounded then Some(Max(configured, RequestedCount(offset, limit))) else None
  }

  /** What a request for `limit` hits from `offset` is answered, with streams read up to `cap`. */
  ghost predicate Answers(answer: SearchResult, managers: seq<ManagerStream>, mode: SortMode, offset: nat, limit: nat,
                          cap: Option<nat>)
  {
    match answer
    case Found(results, total, totalIsExact, raw) =>
      var authorized := AuthorizedHits(AllScanned(managers, cap));
      // the pages read are prefixes of the streams, without gaps or repetitions
      && Flatten(raw) == AllScanned(managers, cap)
      // the total counts exactly what was scanned, and never more than there is
      && total == |authorized| <= TrueTotal(managers)
      && (totalIsExact ==> total == TrueTotal(managers))
      && (totalIsExact <==> forall i :: 0 <= i < |managers| ==>
            managers[i].decision.DenyAll? || (cap.Some? ==> |managers[i].stream| < cap.value))
      // the page is part of all authorized hits that were scanned, better ones first
      && ShowsInOrder(mode, results, authorized, offset, limit)
      // and it is the page of one sort over them
      && Keys(results) == Keys(Page(mode, authorized, offset, limit))
      && (mode != ByField(true) || TieFreeWindow(authorized, RequestedCount(offset, limit)) ==>
            results == Page(mode, authorized, offset, limit))
    case _ => false
  }

  /** The scan and the final sort of the resolver. */
  method Search(managers: seq<ManagerStream>, mode: SortMode, offset: nat, limit: nat, cap: Option<nat>)
    returns (answer: SearchResult)
    requires limit > 0 && (cap.Some? ==> cap.value > 0)
    ensures answer.Found? && Answers(answer, managers, mode, offset, limit, cap)
  {
    var scanner := new SearchScanner(mode, RequestedCount(offset, limit), cap);
    var total, totalIsExact := scanner.ScanAll(managers);
    CappedTotals(managers, cap);
    scanner.hits.SortSearchHitEntries(mode);
    var results := Slice(scanner.hits.entries, offset, RequestedCount(offset, limit));
    PageOfWindow(mode, scanner.batches, offset, limit);
    return Found(results, total, totalIsExact, scanner.raw);
  }

  /** The resolver, for a total mode that is exact or bounded by a configured scan limit. */
  method Resolve(managers: seq<ManagerStream>, mode: SortMode, page: Option<int>, pageSize: Option<int>,
                 bounded: bool, configuredScanLimit: int)
    returns (answer: SearchResult)
    ensures answer.PageNotPositive? <==> page.Some? && page.value <= 0
    ensures answer.PageSizeNotPositive? <==>
              (page.Some? ==> page.value > 0) && pageSize.Some? && pageSize.value <= 0
    ensures answer.ScanLimitNotPositive? <==>
              (page.Some? ==> page.value > 0) && (pageSize.Some? ==> pageSize.value > 0)
              && bounded && configuredScanLimit <= 0
    ensures answer.Found? ==>
      var limit := if pageSize.Some? then pageSize.value else 10;
      var offset := Offset(if page.Some? then page.value else 1, limit);
      Answers(answer, managers, mode, offset, limit, ScanLimit(bounded, configuredScanLimit, offset, limit))
  {
    var currentPage, limit := Or(page, 1), Or(pageSize, 10);
    if currentPage <= 0 {
      return PageNotPositive;
    }
    if limit <= 0 {
      return PageSizeNotPositive;
    }
    var offset := Offset(currentPage, limit);
    if bounded && configuredScanLimit <= 0 {
      return ScanLimitNotPositive;
    }
    var totalScanLimit := ScanLimit(bounded, configuredScanLimit, offset, limit);
    answer := Search(managers, mode, offset, limit, totalScanLimit);
  }
}
